/** Incremental Modbus RTU framing: frame extraction does not depend on how reads cut the byte stream. */
module ModbusRtu {
  import opened Foundation

  const MAXIMUM_FRAME: nat := 256

  const READ_HOLDING: byte := 0x03
  const READ_INPUT: byte := 0x04
  const WRITE_SINGLE: byte := 0x06
  const WRITE_MULTIPLE: byte := 0x10

  datatype Error = LengthError

  /** The request length a buffer's first bytes announce, if they announce one yet. */
  function FrameSize(b: seq<byte>): (n: Option<nat>)
    ensures n.Some? ==> 8 <= n.value <= 264
  {
    if |b| < 2 then None
    else if b[1] == READ_HOLDING || b[1] == READ_INPUT || b[1] == WRITE_SINGLE then Some(8)
    else if b[1] == WRITE_MULTIPLE then if |b| < 7 then None else Some(9 + b[6] as int)
    else None
  }

  /** Functions 3, 4 and 6 announce eight bytes; 16 announces nine and its byte count, once that has arrived; no other does. */
  lemma AnnouncedSizes(b: seq<byte>)
    ensures FrameSize(b) == Some(8) <==> |b| >= 2 && b[1] in [3, 4, 6]
    ensures FrameSize(b).Some? && FrameSize(b) != Some(8) <==> |b| >= 7 && b[1] == 16
    ensures |b| >= 7 && b[1] == 16 ==> FrameSize(b) == Some(9 + b[6] as int)
  {
  }

  datatype Extraction = Extraction(frames: seq<seq<byte>>, residual: seq<byte>)

  /** What one push leaves of a buffer: the frames it completes and the bytes that wait for more. */
  function Extract(b: seq<byte>): Result<Extraction, Error>
    decreases |b|
  {
    match FrameSize(b)
    case None => if |b| > MAXIMUM_FRAME then Err(LengthError) else Ok(Extraction([], b))
    case Some(n) =>
      if n > MAXIMUM_FRAME then Err(LengthError)
      else if |b| < n then Ok(Extraction([], b))
      else After([b[..n]], Extract(b[n..]))
  }

  function After(frames: seq<seq<byte>>, r: Result<Extraction, Error>): Result<Extraction, Error> {
    match r
    case Err(e) => Err(e)
    case Ok(x) => Ok(Extraction(frames + x.frames, x.residual))
  }

  class RtuFrameAssembler {
    var buffer: seq<byte>

    constructor ()
      ensures buffer == []
    {
      buffer := [];
    }

    /** A throwing push empties the buffer and returns none of the frames it had already cut. */
    method Push(bytes: seq<byte>) returns (r: Result<seq<seq<byte>>, Error>)
      modifies this
      ensures r.Ok? <==> Extract(old(buffer) + bytes).Ok?
      ensures r.Ok? ==> Extraction(r.value, buffer) == Extract(old(buffer) + bytes).value
      ensures r.Err? ==> buffer == []
    {
      buffer := buffer + bytes;
      var frames: seq<seq<byte>> := [];
      AfterNothing(Extract(buffer));
      while true
        invariant Extract(old(buffer) + bytes) == After(frames, Extract(buffer))
        decreases |buffer|
      {
        var size := FrameSize(buffer);
        if size.None? {
          if |buffer| > MAXIMUM_FRAME {
            buffer := [];
            return Err(LengthError);
          }
          break;
        }
        if size.value > MAXIMUM_FRAME {
          buffer := [];
          return Err(LengthError);
        }
        if |buffer| < size.value {
          break;
        }
        AfterAfter(frames, [buffer[..size.value]], Extract(buffer[size.value..]));
        frames := frames + [buffer[..size.value]];
        buffer := buffer[size.value..];
      }
      return Ok(frames);
    }

    /** Silence on the line hands over whatever is buffered. */
    method FinishOnSilence() returns (frame: Option<seq<byte>>)
      modifies this
      ensures buffer == []
      ensures frame == if old(buffer) == [] then None else Some(old(buffer))
    {
      if buffer == [] {
        return None;
      }
      frame := Some(buffer);
      buffer := [];
    }
  }

  lemma AfterAfter(f: seq<seq<byte>>, g: seq<seq<byte>>, r: Result<Extraction, Error>)
    ensures After(f, After(g, r)) == After(f + g, r)
  {
    if r.Ok? {
      assert f + (g + r.value.frames) == (f + g) + r.value.frames;
    }
  }

  /** Once announced, a frame's length does not change as more bytes arrive. */
  lemma FrameSizeStable(a: seq<byte>, b: seq<byte>)
    ensures FrameSize(a).Some? ==> FrameSize(a + b) == FrameSize(a)
    ensures |a| >= 7 ==> FrameSize(a + b) == FrameSize(a)
  {
  }

  /** Pushing a then b is pushing a + b: same error, else same frames and residual. */
  lemma {:induction false} ExtractSplit(a: seq<byte>, b: seq<byte>)
    ensures Extract(a).Err? ==> Extract(a + b).Err?
    ensures Extract(a).Ok? ==>
              Extract(a + b) == After(Extract(a).value.frames, Extract(Extract(a).value.residual + b))
    decreases |a|
  {
    FrameSizeStable(a, b);
    var n := FrameSize(a);
    if n.Some? && n.value <= MAXIMUM_FRAME && n.value <= |a| {
      var rest := a[n.value..];
      assert (a + b)[..n.value] == a[..n.value] && (a + b)[n.value..] == rest + b;
      ExtractSplit(rest, b);
      if Extract(rest).Ok? {
        AfterAfter([a[..n.value]], Extract(rest).value.frames, Extract(Extract(rest).value.residual + b));
      }
    } else if Extract(a).Ok? {
      AfterNothing(Extract(a + b));
    }
  }

  lemma AfterNothing(r: Result<Extraction, Error>)
    ensures After([], r) == r
  {
    if r.Ok? {
      assert [] + r.value.frames == r.value.frames;
    }
  }

  /** A whole sequence of reads, each pushed onto what the previous one left; the first error stops it. */
  ghost function PushAll(pieces: seq<seq<byte>>): Result<Extraction, Error>
    decreases |pieces|
  {
    if pieces == [] then Ok(Extraction([], []))
    else
      var before := PushAll(pieces[..|pieces| - 1]);
      if before.Err? then before
      else After(before.value.frames, Extract(before.value.residual + pieces[|pieces| - 1]))
  }

  ghost function Stream(pieces: seq<seq<byte>>): seq<byte> {
    if pieces == [] then [] else Stream(pieces[..|pieces| - 1]) + pieces[|pieces| - 1]
  }

  /** However the reads cut it, a byte stream yields the same error or the same frames and residual. */
  lemma {:induction false} ReadBoundariesInvisible(pieces: seq<seq<byte>>)
    ensures PushAll(pieces) == Extract(Stream(pieces))
    decreases |pieces|
  {
    if pieces != [] {
      var init := pieces[..|pieces| - 1];
      ReadBoundariesInvisible(init);
      ExtractSplit(Stream(init), pieces[|pieces| - 1]);
      if PushAll(init).Err? {
        assert PushAll(init).error == LengthError == Extract(Stream(pieces)).error;
      }
    }
  }

  function Flatten(frames: seq<seq<byte>>): seq<byte> {
    if frames == [] then [] else frames[0] + Flatten(frames[1..])
  }

  /** A frame of the announced length, and (for 0x10) a PDU of six bytes plus the byte count it carries. */
  ghost predicate WholeFrame(f: seq<byte>) {
    && 8 <= |f| <= MAXIMUM_FRAME && FrameSize(f) == Some(|f|)
    && (f[1] == WRITE_MULTIPLE ==> |Pdu(f)| == 6 + f[6] as int && Pdu(f)[5] == f[6])
    && (f[1] != WRITE_MULTIPLE ==> |Pdu(f)| == 5)
  }

  /** process_frame strips the unit identifier and the checksum. */
  function Pdu(f: seq<byte>): seq<byte>
    requires |f| >= 4
  {
    f[1..|f| - 2]
  }

  /** No byte is lost, duplicated or reordered; the buffer stays bounded; every frame has the handler's length. */
  lemma {:induction false} ExtractionSound(b: seq<byte>)
    requires Extract(b).Ok?
    ensures Flatten(Extract(b).value.frames) + Extract(b).value.residual == b
    ensures |Extract(b).value.residual| <= 256
    ensures forall f :: f in Extract(b).value.frames ==> WholeFrame(f)
    decreases |b|
  {
    var n := FrameSize(b);
    if n.Some? && n.value <= |b| {
      var frame, rest := b[..n.value], b[n.value..];
      ExtractionSound(rest);
      var x := Extract(rest).value;
      assert ([frame] + x.frames)[1..] == x.frames;
      assert frame + Flatten(x.frames) + x.residual == frame + (Flatten(x.frames) + x.residual);
      assert WholeFrame(frame);
    }
  }
}

/** The transport-neutral request handler and its length and quantity rules. */
module ModbusHandler {
  import opened Foundation
  import opened Arithmetic
  import opened ModbusRtu

  type u16 = x: nat | x < 0x1_0000

  const ILLEGAL_FUNCTION: byte := 1
  const ILLEGAL_VALUE: byte := 3
  const DEVICE_FAILURE: byte := 4

  datatype Request = Request(unit: byte, pdu: seq<byte>, broadcastAllowed: bool)

  datatype Write = Single(address: u16, value: u16) | Multiple(address: u16, values: seq<u16>)

  /** A register bank as the handler sees it: its answer to each read and each write. */
  datatype Bank = Bank(read: (byte, u16, u16) -> (byte, seq<u16>), write: Write -> byte)

  datatype Outcome = Outcome(response: Option<seq<byte>>, write: Option<Write>)

  datatype HandlerError = InvalidUnit

  function U16(hi: byte, lo: byte): u16 {
    hi * 256 + lo
  }

  function Be16(v: u16): seq<byte> {
    [v / 256, v % 256]
  }

  function EncodeRegisters(values: seq<u16>): (s: seq<byte>)
    ensures |s| == 2 * |values|
  {
    if values == [] then [] else EncodeRegisters(values[..|values| - 1]) + Be16(values[|values| - 1])
  }

  function DecodeRegisters(s: seq<byte>, n: nat): (values: seq<u16>)
    requires 2 * n <= |s|
    ensures |values| == n
  {
    seq(n, i requires 0 <= i < n => U16(s[2 * i], s[2 * i + 1]))
  }

  lemma {:induction false} RegistersRoundTrip(values: seq<u16>)
    ensures DecodeRegisters(EncodeRegisters(values), |values|) == values
    decreases |values|
  {
    if values != [] {
      var init, s := values[..|values| - 1], EncodeRegisters(values);
      RegistersRoundTrip(init);
      var t := EncodeRegisters(init);
      forall i | 0 <= i < |values| ensures DecodeRegisters(s, |values|)[i] == values[i] {
        if i < |init| {
          assert DecodeRegisters(t, |init|)[i] == init[i];
          assert s[2 * i] == t[2 * i] && s[2 * i + 1] == t[2 * i + 1];
        } else {
          assert s[2 * i] == values[i] / 256 && s[2 * i + 1] == values[i] % 256;
        }
      }
    }
  }

  /** Registers travel high byte first. */
  lemma HighByteFirst(v: u16)
    ensures EncodeRegisters([v]) == [v / 0x100, v % 0x100]
  {
    assert [v][..0] == [];
    assert EncodeRegisters([]) == [];
  }

  lemma {:induction false} RegistersReadable(s: seq<byte>, n: nat)
    requires |s| == 2 * n
    ensures EncodeRegisters(DecodeRegisters(s, n)) == s
  {
    var values := DecodeRegisters(s, n);
    if n > 0 {
      var init := s[..|s| - 2];
      RegistersReadable(init, n - 1);
      assert values[..n - 1] == DecodeRegisters(init, n - 1);
      assert Be16(values[n - 1]) == s[|s| - 2..];
    }
  }

  // ---------------------------------------------------------------- the client's side

  function EncodeRead(function_: byte, address: u16, count: u16): seq<byte> {
    [function_] + Be16(address) + Be16(count)
  }

  /** Writes a request can carry. */
  predicate Sendable(w: Write) {
    w.Multiple? ==> 1 <= |w.values| <= 123
  }

  function EncodeWrite(w: Write): seq<byte>
    requires Sendable(w)
  {
    match w
    case Single(address, value) => [WRITE_SINGLE] + Be16(address) + Be16(value)
    case Multiple(address, values) =>
      [WRITE_MULTIPLE] + Be16(address) + Be16(|values|) + [2 * |values|] + EncodeRegisters(values)
  }

  /** The registers in an answer to a read, as a client takes them out. */
  function DecodeAnswer(function_: byte, answer: seq<byte>): Option<seq<u16>> {
    if |answer| >= 2 && answer[0] == function_ && answer[1] % 2 == 0 && |answer| - 2 == answer[1]
    then Some(DecodeRegisters(answer[2..], answer[1] / 2)) else None
  }

  /** What confirms a write: a single one is echoed, a multiple one is answered with its address and quantity. */
  function Confirmation(w: Write): seq<byte>
    requires Sendable(w)
  {
    if w.Single? then EncodeWrite(w) else EncodeWrite(w)[..5]
  }

  function Exception(function_: byte, code: byte): seq<byte> {
    [if function_ < 128 then function_ + 128 else function_, code]
  }

  /** An exception sets the high bit of the function and carries its code: 1 illegal function, 3 illegal value, 4 device failure. */
  lemma ExceptionMeans(function_: byte, code: byte)
    ensures |Exception(function_, code)| == 2 && Exception(function_, code)[1] == code
    ensures Exception(function_, code)[0] >= 0x80 && Exception(function_, code)[0] % 0x80 == function_ % 0x80
    ensures ILLEGAL_FUNCTION == 1 && ILLEGAL_VALUE == 3 && DEVICE_FAILURE == 4
    ensures READ_HOLDING == 3 && READ_INPUT == 4 && WRITE_SINGLE == 6 && WRITE_MULTIPLE == 16
  {
  }

  predicate IsBroadcast(q: Request) {
    q.broadcastAllowed && q.unit == 0
  }

  // ---------------------------------------------------------------- what a good answer is

  ghost predicate IsRead(pdu: seq<byte>, address: u16, count: u16) {
    pdu != [] && pdu == EncodeRead(pdu[0], address, count) && 1 <= count <= 125
  }

  /** The client gets the bank's registers, or the bank's exception; a short bank is a device failure, anything else illegal. */
  ghost predicate ReadAnswered(pdu: seq<byte>, bank: Bank, response: seq<byte>)
    requires pdu != []
  {
    && (forall address: u16, count: u16 :: IsRead(pdu, address, count) ==>
          var (code, values) := bank.read(pdu[0], address, count);
          if code == 0 && |values| == count then DecodeAnswer(pdu[0], response) == Some(values)
          else response == Exception(pdu[0], if code != 0 then code else DEVICE_FAILURE))
    && ((forall address: u16, count: u16 :: !IsRead(pdu, address, count)) ==> response == Exception(pdu[0], ILLEGAL_VALUE))
  }

  ghost predicate IsWrite(pdu: seq<byte>, w: Write) {
    Sendable(w) && EncodeWrite(w) == pdu
  }

  /** Exactly a client's encoding of a write reaches the bank, as that write, and is confirmed unless the bank objects. */
  ghost predicate WriteAnswered(pdu: seq<byte>, bank: Bank, write: Option<Write>, response: seq<byte>)
    requires pdu != []
  {
    && (forall w :: write == Some(w) <==> IsWrite(pdu, w))
    && (write.Some? ==> response == if bank.write(write.value) != 0 then Exception(pdu[0], bank.write(write.value))
                                    else Confirmation(write.value))
    && (write.None? ==> response == Exception(pdu[0], ILLEGAL_VALUE))
  }

  // ---------------------------------------------------------------- the handler

  predicate WellFormedMultiple(pdu: seq<byte>) {
    && |pdu| >= 6
    && 1 <= U16(pdu[3], pdu[4]) <= 123
    && pdu[5] == 2 * U16(pdu[3], pdu[4])
    && |pdu| == 6 + pdu[5]
  }

  /** The write the handler's rules find in a request. */
  function ParseWrite(pdu: seq<byte>): Option<Write> {
    if pdu == [] then None
    else if pdu[0] == WRITE_SINGLE && |pdu| == 5 then Some(Single(U16(pdu[1], pdu[2]), U16(pdu[3], pdu[4])))
    else if pdu[0] == WRITE_MULTIPLE && WellFormedMultiple(pdu) then
      Some(Multiple(U16(pdu[1], pdu[2]), DecodeRegisters(pdu[6..], U16(pdu[3], pdu[4]))))
    else None
  }

  /** The rules accept exactly what a client encodes, and read it as what the client meant. */
  lemma WriteRoundTrip(pdu: seq<byte>, w: Write)
    ensures ParseWrite(pdu) == Some(w) <==> IsWrite(pdu, w)
  {
    if IsWrite(pdu, w) {
      EncodedParses(w);
    } else if ParseWrite(pdu) == Some(w) {
      ParsedEncodes(pdu, w);
    }
  }

  lemma EncodedParses(w: Write)
    requires Sendable(w)
    ensures ParseWrite(EncodeWrite(w)) == Some(w)
  {
    hide EncodeRegisters, DecodeRegisters;
    if w.Multiple? {
      RegistersRoundTrip(w.values);
      assert EncodeWrite(w)[6..] == EncodeRegisters(w.values);
    }
  }

  lemma ParsedEncodes(pdu: seq<byte>, w: Write)
    requires ParseWrite(pdu) == Some(w)
    ensures IsWrite(pdu, w)
  {
    hide EncodeRegisters, DecodeRegisters;
    if w.Multiple? {
      RegistersReadable(pdu[6..], U16(pdu[3], pdu[4]));
      assert pdu == pdu[..6] + pdu[6..];
      assert pdu[..6] == [pdu[0]] + Be16(U16(pdu[1], pdu[2])) + Be16(U16(pdu[3], pdu[4])) + [pdu[5]];
    } else {
      assert pdu == [pdu[0], pdu[1], pdu[2], pdu[3], pdu[4]];
    }
  }

  lemma ReadIs(pdu: seq<byte>, address: u16, count: u16)
    requires pdu != []
    ensures IsRead(pdu, address, count) <==>
              |pdu| == 5 && address == U16(pdu[1], pdu[2]) && count == U16(pdu[3], pdu[4]) && 1 <= count <= 125
  {
    if |pdu| == 5 {
      assert pdu == [pdu[0], pdu[1], pdu[2], pdu[3], pdu[4]];
    }
  }

  method EncodeResponse(function_: byte, values: seq<u16>) returns (pdu: seq<byte>)
    requires |values| <= 125
    ensures DecodeAnswer(function_, pdu) == Some(values) && |pdu| == 2 + 2 * |values|
  {
    hide DecodeAnswer, DecodeRegisters;
    pdu := [function_, 2 * |values|];
    ghost var head := pdu;
    for i := 0 to |values|
      invariant pdu == head + EncodeRegisters(values[..i])
    {
      assert values[..i + 1][..i] == values[..i];
      assert head + EncodeRegisters(values[..i]) + Be16(values[i]) == head + (EncodeRegisters(values[..i]) + Be16(values[i]));
      pdu := pdu + Be16(values[i]);
    }
    assert values[..|values|] == values;
    AnswerDecodes(function_, values);
  }

  lemma AnswerDecodes(function_: byte, values: seq<u16>)
    requires |values| <= 125
    ensures DecodeAnswer(function_, [function_, 2 * |values|] + EncodeRegisters(values)) == Some(values)
  {
    hide EncodeRegisters, DecodeRegisters;
    RegistersRoundTrip(values);
    var n := |values|;
    var head, tail := [function_, 2 * n], EncodeRegisters(values);
    var answer := head + tail;
    assert answer[2..] == tail;
    assert answer[0] == function_ && answer[1] == 2 * n && |answer| == 2 + 2 * n;
    DivMod(answer[1], 2, n, 0);
  }

  method DecodeValues(pdu: seq<byte>, count: nat) returns (values: seq<u16>)
    requires |pdu| == 6 + 2 * count
    ensures values == DecodeRegisters(pdu[6..], count)
  {
    values := [];
    for i := 0 to count
      invariant values == DecodeRegisters(pdu[6..], i)
    {
      values := values + [U16(pdu[6 + 2 * i], pdu[6 + 2 * i + 1])];
    }
  }

  method HandleRead(pdu: seq<byte>, bank: Bank) returns (response: seq<byte>)
    requires pdu != []
    ensures ReadAnswered(pdu, bank, response) && 2 <= |response| <= 252
  {
    hide IsRead, EncodeRegisters, DecodeRegisters, DecodeAnswer;
    forall address: u16, count: u16
      ensures IsRead(pdu, address, count) <==>
                |pdu| == 5 && address == U16(pdu[1], pdu[2]) && count == U16(pdu[3], pdu[4]) && 1 <= count <= 125
    {
      ReadIs(pdu, address, count);
    }
    if |pdu| != 5 {
      return Exception(pdu[0], ILLEGAL_VALUE);
    }
    var count := U16(pdu[3], pdu[4]);
    if count == 0 || count > 125 {
      return Exception(pdu[0], ILLEGAL_VALUE);
    }
    assert IsRead(pdu, U16(pdu[1], pdu[2]), count);
    var (code, values) := bank.read(pdu[0], U16(pdu[1], pdu[2]), count);
    if code != 0 {
      return Exception(pdu[0], code);
    }
    if |values| != count {
      return Exception(pdu[0], DEVICE_FAILURE);
    }
    response := EncodeResponse(pdu[0], values);
  }

  method HandleWrite(pdu: seq<byte>, bank: Bank) returns (write: Option<Write>, response: seq<byte>)
    requires pdu != [] && (pdu[0] == WRITE_SINGLE || pdu[0] == WRITE_MULTIPLE)
    ensures WriteAnswered(pdu, bank, write, response) && 2 <= |response| <= 5
  {
    hide EncodeRegisters, DecodeRegisters, IsWrite;
    forall w ensures ParseWrite(pdu) == Some(w) <==> IsWrite(pdu, w) {
      WriteRoundTrip(pdu, w);
    }
    if pdu[0] == WRITE_SINGLE {
      if |pdu| != 5 {
        return None, Exception(pdu[0], ILLEGAL_VALUE);
      }
      write := Some(Single(U16(pdu[1], pdu[2]), U16(pdu[3], pdu[4])));
      Confirmed(pdu, write.value);
      var code := bank.write(write.value);
      return write, if code != 0 then Exception(pdu[0], code) else pdu;
    }
    if |pdu| < 6 {
      return None, Exception(pdu[0], ILLEGAL_VALUE);
    }
    var count := U16(pdu[3], pdu[4]);
    if count == 0 || count > 123 || pdu[5] != count * 2 || |pdu| != 6 + pdu[5] {
      return None, Exception(pdu[0], ILLEGAL_VALUE);
    }
    var values := DecodeValues(pdu, count);
    write := Some(Multiple(U16(pdu[1], pdu[2]), values));
    Confirmed(pdu, write.value);
    var code := bank.write(write.value);
    return write, if code != 0 then Exception(pdu[0], code)
                  else [pdu[0]] + Be16(U16(pdu[1], pdu[2])) + Be16(count);
  }

  lemma Confirmed(pdu: seq<byte>, w: Write)
    requires IsWrite(pdu, w)
    ensures Sendable(w) && |Confirmation(w)| == 5
    ensures Confirmation(w) == if w.Single? then pdu else [pdu[0]] + Be16(w.address) + Be16(|w.values|)
  {
    hide EncodeRegisters;
  }

  predicate Addressed(q: Request, unitId: byte) {
    IsBroadcast(q) || q.unit == unitId
  }

  /** What the answer says, by function code. */
  ghost predicate Answered(pdu: seq<byte>, bank: Bank, write: Option<Write>, response: seq<byte>)
    requires pdu != []
  {
    if pdu[0] == READ_HOLDING || pdu[0] == READ_INPUT then ReadAnswered(pdu, bank, response)
    else if pdu[0] == WRITE_SINGLE || pdu[0] == WRITE_MULTIPLE then WriteAnswered(pdu, bank, write, response)
    else response == Exception(pdu[0], ILLEGAL_FUNCTION)
  }

  /**
   * The bank is written exactly by an addressed request that encodes a write; there is silence exactly for a broadcast or
   * a foreign request (unless the PDU is empty); an answer says what its function promises and fits a frame.
   */
  method Handle(q: Request, unitId: byte, bank: Bank) returns (r: Result<Outcome, HandlerError>)
    ensures r.Err? <==> unitId == 0 || unitId > 247
    ensures r.Ok? ==> forall w :: r.value.write == Some(w) <==> Addressed(q, unitId) && IsWrite(q.pdu, w)
    ensures r.Ok? ==> (r.value.response.None? <==> q.pdu != [] && (IsBroadcast(q) || q.unit != unitId))
    ensures r.Ok? && r.value.response.Some? ==> 2 <= |r.value.response.value| <= 252
    ensures r.Ok? && r.value.response.Some? && q.pdu != [] ==> Answered(q.pdu, bank, r.value.write, r.value.response.value)
  {
    hide IsWrite, ReadAnswered;
    var pdu := q.pdu;
    forall w ensures IsWrite(pdu, w) ==> pdu != [] && (pdu[0] == WRITE_SINGLE || pdu[0] == WRITE_MULTIPLE) {
      WriteFunction(pdu, w);
    }
    if unitId == 0 || unitId > 247 {
      return Err(InvalidUnit);
    }
    if pdu == [] {
      return Ok(Outcome(Some(Exception(0, ILLEGAL_FUNCTION)), None));
    }
    var f := pdu[0];
    var broadcast := q.broadcastAllowed && q.unit == 0;
    if !broadcast && q.unit != unitId {
      return Ok(Outcome(None, None));
    }
    var response: seq<byte>;
    var write: Option<Write> := None;
    if f == READ_HOLDING || f == READ_INPUT {
      response := HandleRead(pdu, bank);
    } else if f == WRITE_SINGLE || f == WRITE_MULTIPLE {
      write, response := HandleWrite(pdu, bank);
    } else {
      response := Exception(f, ILLEGAL_FUNCTION);
    }
    return Ok(Outcome(if broadcast then None else Some(response), write));
  }

  lemma WriteFunction(pdu: seq<byte>, w: Write)
    ensures IsWrite(pdu, w) ==> pdu != [] && (pdu[0] == WRITE_SINGLE || pdu[0] == WRITE_MULTIPLE)
  {
    hide EncodeRegisters;
  }

  // ---------------------------------------------------------------- the transports

  /** crc16 as its low and high byte. */
  ghost predicate GoodCrc(f: seq<byte>, crc: seq<byte> -> (byte, byte)) {
    |f| >= 4 && (f[|f| - 2], f[|f| - 1]) == crc(f[..|f| - 2])
  }

  /**
   * One received frame: without a good CRC nothing happens; otherwise a frame goes back exactly to a request for this
   * unit, never to a broadcast or a foreign one, and that frame is itself well checked and within 256 bytes.
   */
  method ProcessFrame(f: seq<byte>, unitId: byte, bank: Bank, crc: seq<byte> -> (byte, byte))
    returns (output: Option<seq<byte>>, write: Option<Write>)
    requires 1 <= unitId <= 247
    ensures output.Some? <==> GoodCrc(f, crc) && f[0] == unitId
    ensures output.Some? ==> 5 <= |output.value| <= MAXIMUM_FRAME && output.value[0] == unitId && GoodCrc(output.value, crc)
    ensures output.Some? ==> Answered(Pdu(f), bank, write, Pdu(output.value))
    ensures forall w :: write == Some(w) <==> GoodCrc(f, crc) && (f[0] == 0 || f[0] == unitId) && IsWrite(Pdu(f), w)
  {
    hide Answered, IsWrite;
    if |f| < 4 || (f[|f| - 2], f[|f| - 1]) != crc(f[..|f| - 2]) {
      return None, None;
    }
    var q := Request(f[0], Pdu(f), true);
    assert q.pdu != [];
    var r := Handle(q, unitId, bank);
    if r.value.response.None? {
      return None, r.value.write;
    }
    var body := [f[0]] + r.value.response.value;
    var (low, high) := crc(body);
    var frame := body + [low, high];
    assert frame[..|frame| - 2] == body;
    assert Pdu(frame) == r.value.response.value;
    return Some(frame), r.value.write;
  }

  /** An MBAP length the TCP server accepts leaves a PDU of at least one byte. */
  lemma TcpRequestsAreNotEmpty(length: u16, pdu: seq<byte>)
    requires length >= 2 && |pdu| == length - 1
    ensures pdu != []
  {
  }

  /** Every complete 0x10 frame the assembler emits satisfies the handler's length rule, whatever its quantity field. */
  lemma EmittedFramesPassLengthRule(f: seq<byte>)
    requires WholeFrame(f) && f[1] == WRITE_MULTIPLE
    ensures (exists w :: IsWrite(Pdu(f), w)) <==>
            1 <= U16(Pdu(f)[3], Pdu(f)[4]) <= 123 && Pdu(f)[5] == 2 * U16(Pdu(f)[3], Pdu(f)[4])
  {
    hide IsWrite, DecodeRegisters;
    var pdu := Pdu(f);
    forall w ensures ParseWrite(pdu) == Some(w) <==> IsWrite(pdu, w) {
      WriteRoundTrip(pdu, w);
    }
    if ParseWrite(pdu).Some? {
      assert IsWrite(pdu, ParseWrite(pdu).value);
    }
  }

  /** A request may ask for 1 to 125 registers and write 1 to 123. */
  lemma Limits(function_: byte, address: u16, count: u16, w: Write)
    ensures IsRead(EncodeRead(function_, address, count), address, count) <==> 0 < count < 126
    ensures w.Multiple? ==> (Sendable(w) <==> 0 < |w.values| < 124)
    ensures w.Single? ==> Sendable(w)
  {
  }
}
