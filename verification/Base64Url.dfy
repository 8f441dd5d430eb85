/** Unpadded base64url (section 5 of RFC 4648) with 32-bit accumulators, against its bit layout. */
module Base64Url {
  import opened Foundation
  import opened Arithmetic

  const WORD: nat := 0x1_0000_0000

  /** The alphabet, in order. */
  function Letter(v: nat): char
    requires v < 64
  {
    if v < 26 then 'A' + v as char
    else if v < 52 then 'a' + (v - 26) as char
    else if v < 62 then '0' + (v - 52) as char
    else if v == 62 then '-' else '_'
  }

  function SextetOf(c: char): (v: Option<nat>)
    ensures v.Some? ==> v.value < 64 && Letter(v.value) == c
  {
    if 'A' <= c <= 'Z' then Some((c - 'A') as nat)
    else if 'a' <= c <= 'z' then Some((c - 'a') as nat + 26)
    else if '0' <= c <= '9' then Some((c - '0') as nat + 52)
    else if c == '-' then Some(62) else if c == '_' then Some(63) else None
  }

  lemma LetterRoundTrip(v: nat)
    requires v < 64
    ensures SextetOf(Letter(v)) == Some(v)
  {
  }

  // ---------------------------------------------------------------- the bit layout

  function ByteAt(s: seq<byte>, i: nat): byte {
    if i < |s| then s[i] else 0
  }

  /** Bits 6k to 6k+5 of the bytes, most significant first, continued with zeros. */
  function Sextet(s: seq<byte>, k: nat): (v: nat)
    ensures v < 64
  {
    var q := k / 4 * 3;
    match k % 4
    case 0 => ByteAt(s, q) / 4
    case 1 => ByteAt(s, q) % 4 * 16 + ByteAt(s, q + 1) / 16
    case 2 => ByteAt(s, q + 1) % 16 * 4 + ByteAt(s, q + 2) / 64
    case _ => ByteAt(s, q + 2) % 64
  }

  function EncodedLength(n: nat): nat {
    (4 * n + 2) / 3
  }

  ghost function Encoded(s: seq<byte>): string {
    seq(EncodedLength(|s|), (k: nat) => Letter(Sextet(s, k)))
  }

  ghost predicate InAlphabet(t: string) {
    forall i :: 0 <= i < |t| ==> SextetOf(t[i]).Some?
  }

  function ValueAt(t: string, i: nat): (v: nat)
    ensures v < 64
  {
    if i < |t| && SextetOf(t[i]).Some? then SextetOf(t[i]).value else 0
  }

  /** Bits 8j to 8j+7 of the sextets. */
  function Octet(t: string, j: nat): byte {
    var q := j / 3 * 4;
    match j % 3
    case 0 => ValueAt(t, q) * 4 + ValueAt(t, q + 1) / 16
    case 1 => ValueAt(t, q + 1) % 16 * 16 + ValueAt(t, q + 2) / 4
    case _ => ValueAt(t, q + 2) % 4 * 64 + ValueAt(t, q + 3)
  }

  ghost function Decoded(t: string): seq<byte> {
    seq(3 * |t| / 4, (j: nat) => Octet(t, j))
  }

  // ---------------------------------------------------------------- quotients and remainders

  lemma Bound(a: nat, d: nat, n: nat)
    requires d > 0 && a < n * d
    ensures 0 <= a / d < n
  {
    Parts(a, d);
    if a / d >= n {
      Apart(n - 1, a / d, d);
    }
  }

  /** Shifting in w-sized digits modulo the word keeps the low m*w part exact. */
  lemma ShiftIn(accumulator: nat, m: nat, w: nat, c: nat, p: nat, v: nat)
    requires m > 0 && w > 0 && m * w * c == WORD && accumulator % m == p && v < w
    ensures (accumulator * w % WORD + v) % (m * w) == p * w + v
  {
    Parts(accumulator, m);
    Parts(accumulator * w, WORD);
    var h, t, mw := accumulator / m, accumulator * w / WORD, m * w;
    assert accumulator * w == h * mw + p * w;
    assert t * WORD == t * c * mw;
    assert (h - t * c) * mw == h * mw - t * c * mw;
    Apart(p, m, w);
    DivMod(accumulator * w % WORD + v, mw, h - t * c, p * w + v);
  }

  /** Reading the e-sized digit above k, and what stays below it. */
  lemma TakeTop(a: nat, e: nat, k: nat, p: nat)
    requires e > 0 && k > 0 && a % (e * k) == p
    ensures a / k % e == p / k && a % k == p % k
  {
    Parts(a, e * k);
    Parts(p, k);
    var h, u := a / (e * k), p / k;
    assert (h * e + u) * k == h * (e * k) + u * k;
    DivMod(a, k, h * e + u, p % k);
    Bound(p, k, e);
    DivMod(h * e + u, e, h, u);
  }

  // ---------------------------------------------------------------- the encoder

  function Pow2(bits: nat): (p: nat)
    ensures p > 0
  {
    match bits
    case 0 => 1
    case 2 => 4
    case 4 => 16
    case 6 => 64
    case 8 => 256
    case 10 => 1024
    case _ => 4096
  }

  /** The bits taken in and not yet emitted, as a number. */
  function PendingBytes(s: seq<byte>, i: nat, bits: nat): nat {
    match bits
    case 0 => 0
    case 2 => if i >= 1 then ByteAt(s, i - 1) % 4 else 0
    case 4 => if i >= 1 then ByteAt(s, i - 1) % 16 else 0
    case 6 => if i >= 1 then ByteAt(s, i - 1) % 64 else 0
    case 8 => if i >= 1 then ByteAt(s, i - 1) else 0
    case 10 => if i >= 2 then ByteAt(s, i - 2) % 4 * 256 + ByteAt(s, i - 1) else 0
    case _ => if i >= 2 then ByteAt(s, i - 2) % 16 * 256 + ByteAt(s, i - 1) else 0
  }

  /** The accumulator's low bits are the pending ones; what lies above them no longer matters. */
  ghost predicate Holds(accumulator: nat, bits: nat, pending: nat) {
    accumulator % Pow2(bits) == pending
  }

  lemma PushByte(s: seq<byte>, i: nat, accumulator: nat, bits: nat)
    requires i < |s| && (bits == 0 || (i >= 1 && (bits == 2 || bits == 4)))
    requires Holds(accumulator, bits, PendingBytes(s, i, bits))
    ensures Holds(accumulator * 256 % WORD + s[i], bits + 8, PendingBytes(s, i + 1, bits + 8))
  {
    var c := if bits == 0 then 0x100_0000 else if bits == 2 then 0x40_0000 else 0x10_0000;
    ShiftIn(accumulator, Pow2(bits), 256, c, PendingBytes(s, i, bits), s[i]);
  }

  lemma EmitSextet(s: seq<byte>, i: nat, accumulator: nat, bits: nat, k: nat)
    requires (bits == 6 || bits == 8 || bits == 10 || bits == 12) && 6 * k + bits == 8 * i
    requires Holds(accumulator, bits, PendingBytes(s, i, bits))
    ensures accumulator / Pow2(bits - 6) % 64 == Sextet(s, k)
    ensures Holds(accumulator, bits - 6, PendingBytes(s, i, bits - 6))
  {
    SextetPlace(i, bits, k);
    var x, y := if bits >= 10 then ByteAt(s, i - 2) else 0, ByteAt(s, i - 1);
    TakeTop(accumulator, 64, Pow2(bits - 6), PendingBytes(s, i, bits));
    TopOfBytes(x, y);
  }

  lemma TopOfBytes(x: byte, y: byte)
    ensures (x % 16 * 256 + y) / 64 == x % 16 * 4 + y / 64 && (x % 16 * 256 + y) % 64 == y % 64
    ensures (x % 4 * 256 + y) / 16 == x % 4 * 16 + y / 16 && (x % 4 * 256 + y) % 16 == y % 16
  {
    Parts(y, 64);
    DivMod(x % 16 * 256 + y, 64, x % 16 * 4 + y / 64, y % 64);
    Parts(y, 16);
    DivMod(x % 4 * 256 + y, 16, x % 4 * 16 + y / 16, y % 16);
  }

  lemma SextetPlace(i: nat, bits: nat, k: nat)
    requires 6 * k + bits == 8 * i && (bits == 2 || bits == 4 || bits == 6 || bits == 8 || bits == 10 || bits == 12)
    ensures bits == 8 ==> k % 4 == 0 && i - 1 == k / 4 * 3
    ensures bits == 10 || bits == 2 ==> k % 4 == 1 && (if bits == 2 then i - 1 else i - 2) == k / 4 * 3
    ensures bits == 12 || bits == 4 ==> k % 4 == 2 && (if bits == 4 then i - 1 else i - 2) == k / 4 * 3 + 1
    ensures bits == 6 ==> k % 4 == 3 && i - 1 == k / 4 * 3 + 2
  {
  }

  lemma LastSextet(s: seq<byte>, accumulator: nat, bits: nat, k: nat)
    requires (bits == 2 || bits == 4) && 6 * k + bits == 8 * |s|
    requires Holds(accumulator, bits, PendingBytes(s, |s|, bits))
    ensures accumulator * Pow2(6 - bits) % WORD % 64 == Sextet(s, k) && k + 1 == EncodedLength(|s|)
  {
    SextetPlace(|s|, bits, k);
    var c := 0x400_0000;
    ShiftIn(accumulator, Pow2(bits), Pow2(6 - bits), c, PendingBytes(s, |s|, bits), 0);
  }

  ghost predicate Spells(output: string, s: seq<byte>) {
    forall k :: 0 <= k < |output| ==> output[k] == Letter(Sextet(s, k))
  }

  method Encode(input: seq<byte>) returns (output: string)
    ensures output == Encoded(input)
  {
    hide Sextet, Letter, Holds, Pow2, PendingBytes;
    output := "";
    var accumulator: nat, bits: nat := 0, 0;
    NothingHeld();
    NoBytes(input);
    for i := 0 to |input|
      invariant (bits == 0 || bits == 2 || bits == 4) && 6 * |output| + bits == 8 * i
      invariant Holds(accumulator, bits, PendingBytes(input, i, bits)) && Spells(output, input)
    {
      PushByte(input, i, accumulator, bits);
      accumulator := accumulator * 256 % WORD + input[i];
      bits := bits + 8;
      while bits >= 6
        invariant (bits == 0 || bits == 2 || bits == 4 || bits == 6 || bits == 8 || bits == 10 || bits == 12)
        invariant 6 * |output| + bits == 8 * (i + 1)
        invariant Holds(accumulator, bits, PendingBytes(input, i + 1, bits)) && Spells(output, input)
      {
        EmitSextet(input, i + 1, accumulator, bits, |output|);
        bits := bits - 6;
        output := output + [Letter(accumulator / Pow2(bits) % 64)];
      }
    }
    if bits != 0 {
      LastSextet(input, accumulator, bits, |output|);
      output := output + [Letter(accumulator * Pow2(6 - bits) % WORD % 64)];
    }
    assert |output| == EncodedLength(|input|);
  }

  lemma NothingHeld()
    ensures Holds(0, 0, 0)
  {
  }

  lemma NoBytes(s: seq<byte>)
    ensures PendingBytes(s, 0, 0) == 0
  {
  }

  // ---------------------------------------------------------------- the decoder

  function PendingSextets(t: string, i: nat, bits: nat): nat {
    match bits
    case 0 => 0
    case 2 => if i >= 1 then ValueAt(t, i - 1) % 4 else 0
    case 4 => if i >= 1 then ValueAt(t, i - 1) % 16 else 0
    case 6 => if i >= 1 then ValueAt(t, i - 1) else 0
    case 8 => if i >= 2 then ValueAt(t, i - 2) % 4 * 64 + ValueAt(t, i - 1) else 0
    case 10 => if i >= 2 then ValueAt(t, i - 2) % 16 * 64 + ValueAt(t, i - 1) else 0
    case _ => if i >= 2 then ValueAt(t, i - 2) * 64 + ValueAt(t, i - 1) else 0
  }

  lemma PushSextet(t: string, i: nat, accumulator: nat, bits: nat)
    requires i < |t| && (bits == 0 || (i >= 1 && (bits == 2 || bits == 4 || bits == 6)))
    requires Holds(accumulator, bits, PendingSextets(t, i, bits))
    ensures Holds(accumulator * 64 % WORD + ValueAt(t, i), bits + 6, PendingSextets(t, i + 1, bits + 6))
  {
    hide ValueAt;
    var c := if bits == 0 then 0x400_0000 else if bits == 2 then 0x100_0000 else if bits == 4 then 0x40_0000 else 0x10_0000;
    ShiftIn(accumulator, Pow2(bits), 64, c, PendingSextets(t, i, bits), ValueAt(t, i));
  }

  lemma EmitOctet(t: string, i: nat, accumulator: nat, bits: nat, j: nat)
    requires (bits == 8 || bits == 10 || bits == 12) && 8 * j + bits == 6 * i && i >= 2
    requires Holds(accumulator, bits, PendingSextets(t, i, bits))
    ensures accumulator / Pow2(bits - 8) % 256 == Octet(t, j)
    ensures Holds(accumulator, bits - 8, PendingSextets(t, i, bits - 8))
  {
    hide ValueAt;
    OctetPlace(i, bits, j);
    TakeTop(accumulator, 256, Pow2(bits - 8), PendingSextets(t, i, bits));
    TopOfSextets(ValueAt(t, i - 2), ValueAt(t, i - 1));
  }

  lemma TopOfSextets(x: nat, y: nat)
    requires x < 64 && y < 64
    ensures (x * 64 + y) / 16 == x * 4 + y / 16 && (x * 64 + y) % 16 == y % 16
    ensures (x % 16 * 64 + y) / 4 == x % 16 * 16 + y / 4 && (x % 16 * 64 + y) % 4 == y % 4
  {
    Parts(y, 16);
    DivMod(x * 64 + y, 16, x * 4 + y / 16, y % 16);
    Parts(y, 4);
    DivMod(x % 16 * 64 + y, 4, x % 16 * 16 + y / 4, y % 4);
  }

  lemma OctetPlace(i: nat, bits: nat, j: nat)
    requires 8 * j + bits == 6 * i && (bits == 8 || bits == 10 || bits == 12)
    ensures bits == 12 ==> j % 3 == 0 && i - 2 == j / 3 * 4
    ensures bits == 10 ==> j % 3 == 1 && i - 2 == j / 3 * 4 + 1
    ensures bits == 8 ==> j % 3 == 2 && i - 2 == j / 3 * 4 + 2
  {
  }

  method Decode(input: string) returns (r: Result<seq<byte>, ()>)
    ensures r == if InAlphabet(input) then Ok(Decoded(input)) else Err(())
  {
    hide Octet, Holds, Pow2, PendingSextets;
    var output: seq<byte> := [];
    var accumulator: nat, bits: nat := 0, 0;
    NothingHeld();
    NoSextets(input);
    for i := 0 to |input|
      invariant (bits == 0 || bits == 2 || bits == 4 || bits == 6) && 8 * |output| + bits == 6 * i
      invariant Holds(accumulator, bits, PendingSextets(input, i, bits))
      invariant forall k :: 0 <= k < i ==> SextetOf(input[k]).Some?
      invariant forall j :: 0 <= j < |output| ==> output[j] == Octet(input, j)
    {
      var decoded := SextetOf(input[i]);
      if decoded.None? {
        return Err(());
      }
      PushSextet(input, i, accumulator, bits);
      accumulator := accumulator * 64 % WORD + decoded.value;
      bits := bits + 6;
      if bits >= 8 {
        EmitOctet(input, i + 1, accumulator, bits, |output|);
        bits := bits - 8;
        output := output + [accumulator / Pow2(bits) % 256];
      }
    }
    assert |output| == 3 * |input| / 4;
    assert output == Decoded(input);
    return Ok(output);
  }

  lemma NoSextets(t: string)
    ensures PendingSextets(t, 0, 0) == 0
  {
  }

  // ---------------------------------------------------------------- round trips

  lemma EncodedAt(s: seq<byte>, k: nat)
    requires k < EncodedLength(|s|)
    ensures k < |Encoded(s)| && SextetOf(Encoded(s)[k]).Some? && ValueAt(Encoded(s), k) == Sextet(s, k)
  {
    hide Sextet;
    LetterRoundTrip(Sextet(s, k));
  }

  /** Decoding what was encoded gives it back, for every byte string; the encoding is unpadded alphabet text. */
  lemma RoundTrip(s: seq<byte>)
    ensures InAlphabet(Encoded(s)) && Decoded(Encoded(s)) == s
  {
    var t := Encoded(s);
    forall k | 0 <= k < |t| ensures SextetOf(t[k]).Some? {
      EncodedAt(s, k);
    }
    assert 3 * |t| / 4 == |s|;
    forall j | 0 <= j < |s| ensures Octet(t, j) == s[j] {
      OctetBack(s, j);
    }
    hide Octet, Encoded;
    assert Decoded(t) == s;
  }

  lemma JoinFirst(x: byte, y: byte)
    ensures x / 4 * 4 + (x % 4 * 16 + y / 16) / 16 == x
  {
    Parts(x, 4);
    Bound(y, 16, 16);
    DivMod(x % 4 * 16 + y / 16, 16, x % 4, y / 16);
  }

  lemma JoinSecond(x: byte, y: byte, z: byte)
    ensures (x % 4 * 16 + y / 16) % 16 * 16 + (y % 16 * 4 + z / 64) / 4 == y
  {
    Parts(y, 16);
    Bound(y, 16, 16);
    Bound(z, 64, 4);
    DivMod(x % 4 * 16 + y / 16, 16, x % 4, y / 16);
    DivMod(y % 16 * 4 + z / 64, 4, y % 16, z / 64);
  }

  lemma JoinThird(y: byte, z: byte)
    ensures (y % 16 * 4 + z / 64) % 4 * 64 + z % 64 == z
  {
    Parts(z, 64);
    Bound(z, 64, 4);
    DivMod(y % 16 * 4 + z / 64, 4, y % 16, z / 64);
  }

  lemma Layout(s: seq<byte>, q: nat)
    ensures Sextet(s, 4 * q) == ByteAt(s, 3 * q) / 4
    ensures Sextet(s, 4 * q + 1) == ByteAt(s, 3 * q) % 4 * 16 + ByteAt(s, 3 * q + 1) / 16
    ensures Sextet(s, 4 * q + 2) == ByteAt(s, 3 * q + 1) % 16 * 4 + ByteAt(s, 3 * q + 2) / 64
    ensures Sextet(s, 4 * q + 3) == ByteAt(s, 3 * q + 2) % 64
  {
    hide ByteAt;
    DivMod(4 * q, 4, q, 0);
    DivMod(4 * q + 1, 4, q, 1);
    DivMod(4 * q + 2, 4, q, 2);
    DivMod(4 * q + 3, 4, q, 3);
  }

  lemma OctetLayout(t: string, q: nat)
    ensures Octet(t, 3 * q) == ValueAt(t, 4 * q) * 4 + ValueAt(t, 4 * q + 1) / 16
    ensures Octet(t, 3 * q + 1) == ValueAt(t, 4 * q + 1) % 16 * 16 + ValueAt(t, 4 * q + 2) / 4
    ensures Octet(t, 3 * q + 2) == ValueAt(t, 4 * q + 2) % 4 * 64 + ValueAt(t, 4 * q + 3)
  {
    hide ValueAt;
    DivMod(3 * q, 3, q, 0);
    DivMod(3 * q + 1, 3, q, 1);
    DivMod(3 * q + 2, 3, q, 2);
  }

  lemma OctetBack(s: seq<byte>, j: nat)
    requires j < |s|
    ensures Octet(Encoded(s), j) == s[j]
  {
    hide Encoded, ValueAt, Octet, Sextet;
    var q := j / 3;
    Parts(j, 3);
    Layout(s, q);
    OctetLayout(Encoded(s), q);
    var x, y, z := ByteAt(s, 3 * q), ByteAt(s, 3 * q + 1), ByteAt(s, 3 * q + 2);
    if j % 3 == 0 {
      EncodedAt(s, 4 * q);
      EncodedAt(s, 4 * q + 1);
      JoinFirst(x, y);
    } else if j % 3 == 1 {
      EncodedAt(s, 4 * q + 1);
      EncodedAt(s, 4 * q + 2);
      JoinSecond(x, y, z);
    } else {
      EncodedAt(s, 4 * q + 2);
      EncodedAt(s, 4 * q + 3);
      JoinThird(y, z);
    }
  }

  /** No leftover sextet, and no set bit beyond the last whole byte. */
  ghost predicate NothingDropped(t: string) {
    && |t| % 4 != 1
    && (|t| % 4 == 2 ==> ValueAt(t, |t| - 1) % 16 == 0)
    && (|t| % 4 == 3 ==> ValueAt(t, |t| - 1) % 4 == 0)
  }

  lemma DecodedAt(t: string, j: nat)
    ensures ByteAt(Decoded(t), j) == if j < 3 * |t| / 4 then Octet(t, j) else 0
  {
    hide Octet;
  }

  /** What encoding makes of four sextets' worth of decoded octets, the later of which may be missing. */
  lemma Rejoin(a: nat, b: nat, c: nat, d: nat)
    requires a < 64 && b < 64 && c < 64 && d < 64
    ensures (a * 4 + b / 16) / 4 == a
    ensures (a * 4 + b / 16) % 4 * 16 + (b % 16 * 16 + c / 4) / 16 == b
    ensures (a * 4 + b / 16) % 4 * 16 + 0 == b - b % 16
    ensures (b % 16 * 16 + c / 4) % 16 * 4 + (c % 4 * 64 + d) / 64 == c
    ensures (b % 16 * 16 + c / 4) % 16 * 4 + 0 == c - c % 4
    ensures (c % 4 * 64 + d) % 64 == d
  {
    Parts(b, 16);
    Parts(c, 4);
    Bound(b, 16, 4);
    Bound(c, 4, 16);
    DivMod(a * 4 + b / 16, 4, a, b / 16);
    DivMod(b % 16 * 16 + c / 4, 16, b % 16, c / 4);
    DivMod(c % 4 * 64 + d, 64, c % 4, d);
  }

  /** The last sextet of a short group loses the bits that do not complete a byte; every other one comes back. */
  lemma SextetBack(t: string, k: nat)
    requires k < |t| && |t| % 4 != 1
    ensures
      var v := ValueAt(t, k);
      Sextet(Decoded(t), k) ==
        if k == |t| - 1 && |t| % 4 == 2 then v - v % 16 else if k == |t| - 1 && |t| % 4 == 3 then v - v % 4 else v
  {
    hide Decoded, ValueAt, ByteAt, Octet, Sextet;
    var q, n := k / 4, |t|;
    Parts(k, 4);
    Parts(n, 4);
    DecodedLength(n);
    Layout(Decoded(t), q);
    OctetLayout(t, q);
    Rejoin(ValueAt(t, 4 * q), ValueAt(t, 4 * q + 1), ValueAt(t, 4 * q + 2), ValueAt(t, 4 * q + 3));
    if k == 4 * q {
      DecodedAt(t, 3 * q);
    } else if k == 4 * q + 1 {
      DecodedAt(t, 3 * q);
      DecodedAt(t, 3 * q + 1);
    } else if k == 4 * q + 2 {
      DecodedAt(t, 3 * q + 1);
      DecodedAt(t, 3 * q + 2);
    } else {
      DecodedAt(t, 3 * q + 2);
    }
  }

  lemma DecodedLength(n: nat)
    requires n % 4 != 1
    ensures 3 * n / 4 == 3 * (n / 4) + if n % 4 == 0 then 0 else n % 4 - 1
  {
    Parts(n, 4);
    if n % 4 == 0 {
      DivMod(3 * n, 4, 3 * (n / 4), 0);
    } else {
      DivMod(3 * n, 4, 3 * (n / 4) + n % 4 - 1, 4 - n % 4);
    }
  }

  /** The decoder also accepts text no encoder writes: encoding gives the text back exactly when nothing was dropped. */
  lemma ReencodesIffNothingDropped(t: string)
    requires InAlphabet(t)
    ensures Encoded(Decoded(t)) == t <==> NothingDropped(t)
  {
    hide SextetOf, Sextet, Octet;
    if NothingDropped(t) {
      assert |Encoded(Decoded(t))| == |t|;
      forall k | 0 <= k < |t| ensures Letter(Sextet(Decoded(t), k)) == t[k] {
        SextetBack(t, k);
      }
      assert Encoded(Decoded(t)) == t;
    } else if |t| % 4 == 1 {
      assert |Encoded(Decoded(t))| != |t|;
    } else {
      SextetBack(t, |t| - 1);
      EncodedAt(Decoded(t), |t| - 1);
    }
  }

  // ---------------------------------------------------------------- against the standard

  /** The alphabet of section 5 of RFC 4648: upper case, lower case, digits, hyphen, underscore. */
  lemma AlphabetOrder(v: nat)
    requires v < 64
    ensures v < 26 ==> Letter(v) as int == 65 + v
    ensures 26 <= v < 52 ==> Letter(v) as int == 97 + v - 26
    ensures 52 <= v < 62 ==> Letter(v) as int == 48 + v - 52
    ensures v == 62 ==> Letter(v) as int == 45
    ensures v == 63 ==> Letter(v) as int == 95
  {
  }

  /** The vectors f, fo and foo of section 10 of RFC 4648. */
  lemma StandardVectors()
    ensures Encoded([0x66]) == "Zg" && Encoded([0x66, 0x6f]) == "Zm8" && Encoded([0x66, 0x6f, 0x6f]) == "Zm9v"
  {
    OneByteVector();
    TwoByteVector();
    ThreeByteVector();
    hide Encoded;
  }

  lemma OneByteVector()
    ensures Encoded([0x66]) == "Zg"
  {
    var s: seq<byte> := [0x66];
    assert Sextet(s, 0) == 25 && Sextet(s, 1) == 32;
    hide Sextet;
  }

  lemma TwoByteVector()
    ensures Encoded([0x66, 0x6f]) == "Zm8"
  {
    var s: seq<byte> := [0x66, 0x6f];
    assert Sextet(s, 0) == 25 && Sextet(s, 1) == 38 && Sextet(s, 2) == 60;
    hide Sextet;
  }

  lemma ThreeByteVector()
    ensures Encoded([0x66, 0x6f, 0x6f]) == "Zm9v"
  {
    var s: seq<byte> := [0x66, 0x6f, 0x6f];
    assert Sextet(s, 0) == 25 && Sextet(s, 1) == 38 && Sextet(s, 2) == 61 && Sextet(s, 3) == 47;
    hide Sextet;
  }
}
