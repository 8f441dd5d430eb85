/** How ledger fields become SQLite columns: blobs of 64-bit integers, hexadecimal text, and a sample count with a rate. */
module LedgerCodec {
  import opened Foundation
  import opened Arithmetic

  datatype Error = BlobSizeMismatch | NotHex | InvalidMethod

  // ---------------------------------------------------------------- blobs

  const WORD: nat := 8
  const TWO64: nat := 0x1_0000_0000_0000_0000

  function ToBits(v: i64): u64 {
    if v < 0 then v + TWO64 else v
  }

  function FromBits(b: u64): i64 {
    if b > INT64_MAX then b - TWO64 else b
  }

  function Word(bits: u64): seq<byte> {
    Le(bits, WORD)
  }

  function Unword(s: seq<byte>): u64
    requires |s| == 8
  {
    Pow256Values();
    FromLe(s)
  }

  lemma WordRoundTrip(bits: u64)
    ensures |Word(bits)| == 8 && Unword(Word(bits)) == bits
  {
    Pow256Values();
    LeRoundTrip(bits, WORD);
  }

  function Blob(values: seq<u64>): (s: seq<byte>)
    ensures |s| == 8 * |values|
  {
    if values == [] then [] else Blob(values[..|values| - 1]) + Word(values[|values| - 1])
  }

  function Unblob(s: seq<byte>, count: nat): (r: Result<seq<u64>, Error>)
    ensures r.Ok? ==> |r.value| == count
  {
    if |s| != 8 * count then Err(BlobSizeMismatch)
    else Ok(seq(count, i requires 0 <= i < count => Unword(s[8 * i..8 * i + 8])))
  }

  method EncodeArray(values: seq<u64>) returns (s: seq<byte>)
    ensures s == Blob(values)
  {
    hide Word;
    s := [];
    for i := 0 to |values|
      invariant s == Blob(values[..i])
    {
      assert values[..i + 1][..i] == values[..i];
      s := s + Word(values[i]);
    }
    assert values[..|values|] == values;
  }

  method DecodeArray(s: seq<byte>, count: nat) returns (r: Result<seq<u64>, Error>)
    ensures r == Unblob(s, count)
  {
    hide Unword;
    if |s| != 8 * count {
      return Err(BlobSizeMismatch);
    }
    var values: seq<u64> := [];
    for i := 0 to count
      invariant |values| == i && forall k :: 0 <= k < i ==> values[k] == Unword(s[8 * k..8 * k + 8])
    {
      values := values + [Unword(s[8 * i..8 * i + 8])];
    }
    assert values == Unblob(s, count).value;
    return Ok(values);
  }

  lemma {:induction false} BlobWord(values: seq<u64>, i: nat)
    requires i < |values|
    ensures Blob(values)[8 * i..8 * i + 8] == Word(values[i])
    decreases |values|
  {
    hide Word;
    var init, last := values[..|values| - 1], values[|values| - 1];
    if i < |init| {
      BlobWord(init, i);
      assert Blob(values)[8 * i..8 * i + 8] == Blob(init)[8 * i..8 * i + 8];
    } else {
      WordRoundTrip(last);
    }
  }

  /** Every array written to a blob column is read back unchanged. */
  lemma BlobRoundTrip(values: seq<u64>)
    ensures Unblob(Blob(values), |values|) == Ok(values)
  {
    hide Word, Unword, Blob;
    var r := Unblob(Blob(values), |values|);
    forall i: nat | i < |values| ensures r.value[i] == values[i] {
      BlobWord(values, i);
      WordRoundTrip(values[i]);
    }
    assert r.value == values;
  }

  function Bits(values: seq<i64>): seq<u64> {
    seq(|values|, i requires 0 <= i < |values| => ToBits(values[i]))
  }

  /** Signed arrays travel as the two's-complement bits of each element. */
  function SignedBlob(values: seq<i64>): seq<byte> {
    Blob(Bits(values))
  }

  function SignedUnblob(s: seq<byte>, count: nat): (r: Result<seq<i64>, Error>)
    ensures r.Ok? ==> |r.value| == count
  {
    match Unblob(s, count)
    case Err(e) => Err(e)
    case Ok(bits) => Ok(seq(count, i requires 0 <= i < count => FromBits(bits[i])))
  }

  lemma SignedBlobRoundTrip(values: seq<i64>)
    ensures SignedUnblob(SignedBlob(values), |values|) == Ok(values)
  {
    hide Blob, Unblob;
    BlobRoundTrip(Bits(values));
    assert SignedUnblob(SignedBlob(values), |values|).value == values;
  }

  // ---------------------------------------------------------------- hexadecimal text

  function HexDigit(d: nat): char
    requires d < 16
  {
    if d < 10 then '0' + d as char else 'a' + (d - 10) as char
  }

  /** Digit value as std::from_chars reads it, either case. */
  function HexValue(c: char): (v: Option<nat>)
    ensures v.Some? ==> v.value < 16
  {
    if '0' <= c <= '9' then Some(c as int - '0' as int)
    else if 'a' <= c <= 'f' then Some(c as int - 'a' as int + 10)
    else if 'A' <= c <= 'F' then Some(c as int - 'A' as int + 10)
    else None
  }

  /** printf("%0*x") with n digits. */
  function Hex(v: nat, n: nat): (s: string)
    ensures |s| == n
  {
    if n == 0 then "" else Hex(v / 16, n - 1) + [HexDigit(v % 16)]
  }

  function Hex64(v: u64): string {
    Hex(v, 16)
  }

  function HexNumber(s: string): (v: Option<nat>) {
    if s == "" then Some(0)
    else
      var init, digit := HexNumber(s[..|s| - 1]), HexValue(s[|s| - 1]);
      if init.None? || digit.None? then None else Some(16 * init.value + digit.value)
  }

  /** Non-empty, nothing but digits, and no overflow. */
  function ParseHex64(s: string): Result<u64, Error> {
    var v := HexNumber(s);
    if s == "" || v.None? || v.value > UINT64_MAX then Err(NotHex) else Ok(v.value)
  }

  function Pow16(n: nat): nat {
    if n == 0 then 1 else 16 * Pow16(n - 1)
  }

  lemma {:induction false} HexNumberRoundTrip(v: nat, n: nat)
    requires v < Pow16(n)
    ensures HexNumber(Hex(v, n)) == Some(v)
  {
    if n > 0 {
      HexNumberRoundTrip(v / 16, n - 1);
      assert Hex(v, n)[..n - 1] == Hex(v / 16, n - 1);
    }
  }

  lemma HexRoundTrip(v: u64)
    ensures ParseHex64(Hex64(v)) == Ok(v)
  {
    assert Pow16(8) == 0x1_0000_0000 by {
      assert Pow16(4) == 65536;
      assert Pow16(8) == 65536 * Pow16(4);
    }
    assert Pow16(16) == 0x1_0000_0000 * Pow16(8);
    hide Hex, Pow16, HexNumber;
    HexNumberRoundTrip(v, 16);
  }

  // ---------------------------------------------------------------- sample windows

  const SECOND: nat := 1_000_000_000

  /** Samples in a calculation window and its duration in nanoseconds. */
  datatype Window = Window(samples: u32, duration: i64)

  /** The window a decoded record carries: sample count and the truncated duration at its rate. */
  function SourceWindow(samples: u32, rate: u32): Window
    requires rate > 0
  {
    SourceWindowBound(samples, rate);
    Window(samples, samples * SECOND / rate)
  }

  lemma SourceWindowBound(samples: u32, rate: u32)
    requires rate > 0
    ensures 0 <= samples * SECOND / rate <= samples * SECOND <= INT64_MAX
  {
    QuotientAntitone(samples * SECOND, 1, rate);
  }

  /** The rate written to the row; zero when it is undefined or does not fit. */
  function SampleRate(w: Window): u32 {
    if w.samples == 0 || w.duration <= 0 then 0
    else
      var rate := w.samples * SECOND / w.duration;
      if rate > UINT32_MAX then 0 else rate
  }

  /** The window a reload rebuilds from the row's sample count and rate. */
  function Rebuilt(samples: u32, rate: u32): Window {
    SourceWindowBound(samples, if rate > 1 then rate else 1);
    Window(samples, samples * SECOND / if rate > 1 then rate else 1)
  }

  lemma QuotientBounds(n: nat, d: nat)
    requires d > 0
    ensures n / d * d <= n < (n / d + 1) * d
  {
  }

  lemma QuotientLargest(n: nat, d: nat, q: nat)
    requires d > 0 && q * d <= n
    ensures q <= n / d
  {
    QuotientBounds(n, d);
    if q > n / d {
      ProductOrder(n / d + 1, q, d);
    }
  }

  lemma QuotientAntitone(n: nat, a: nat, b: nat)
    requires 0 < a <= b
    ensures n / b <= n / a
  {
    var q := n / b;
    QuotientBounds(n, b);
    ProductOrder(a, b, q);
    assert q * a <= q * b <= n;
    QuotientLargest(n, a, q);
  }

  /** Truncating twice recovers a truncated quotient: n / (n / q) == q for every q of the form n / k. */
  lemma QuotientInvolution(n: nat, k: nat)
    requires k > 0 && n / k > 0
    ensures n / (n / k) > 0 && n / (n / (n / k)) == n / k
  {
    var q := n / k;
    QuotientBounds(n, k);
    QuotientLargest(n, q, k);
    var k' := n / q;
    QuotientAntitone(n, k, k');
    QuotientBounds(n, q);
    QuotientLargest(n, k', q);
  }

  /** Can the row's 32-bit rate column represent this window? */
  predicate RateFits(samples: u32, rate: u32)
    requires rate > 0
  {
    var duration := samples * SECOND / rate;
    samples == 0 || (0 < duration && samples * SECOND / duration <= UINT32_MAX)
  }

  /** A decoded record's window survives the reload exactly when its duration is at least a nanosecond and the rate fits. */
  lemma WindowSurvivesReload(samples: u32, rate: u32)
    requires rate > 0
    ensures Rebuilt(samples, SampleRate(SourceWindow(samples, rate))) == SourceWindow(samples, rate) <==> RateFits(samples, rate)
  {
    SourceWindowBound(samples, rate);
    var n := samples * SECOND;
    var d := n / rate;
    if samples > 0 {
      if d > 0 {
        QuotientInvolution(n, rate);
        DivSelf(d);
      }
    }
  }

  lemma DivSelf(n: nat)
    requires n > 0
    ensures n / n == 1
  {
  }

  /** Any rate up to 2^31 per second whose window is at least one nanosecond long is kept. */
  lemma UsualRatesFit(samples: u32, rate: u32)
    requires 0 < rate <= 0x8000_0000 && rate <= samples * SECOND
    ensures RateFits(samples, rate)
  {
    var n := samples * SECOND;
    var d := n / rate;
    QuotientLargest(n, rate, 1);
    QuotientBounds(n, rate);
    ProductOrder(1, d, rate);
    QuotientBounds(n, d);
    assert n < d * (2 * rate) by { assert (d + 1) * rate == d * rate + rate; }
    if n / d >= 2 * rate {
      ProductOrder(2 * rate, n / d, d);
    }
  }

  // ---------------------------------------------------------------- what the columns look like

  /** Byte k of a word weighs 256 to the power k: the least significant byte comes first. */
  lemma {:induction false} WordPlaces(v: nat, n: nat, k: nat)
    requires k < n
    ensures Le(v, n)[k] == v / Pow256(k) % 256
    decreases n
  {
    hide Pow256;
    if k > 0 {
      WordPlaces(v / 256, n - 1, k - 1);
      DivDiv(v, 256, Pow256(k - 1));
      Pow256Next(k - 1);
    } else {
      Pow256Next(0);
    }
  }

  lemma Pow256Next(n: nat)
    ensures Pow256(n + 1) == 256 * Pow256(n) && Pow256(0) == 1
  {
  }

  /** Signed values travel in two's complement. */
  lemma TwosComplement(v: i64)
    ensures ToBits(v) == (if v >= 0 then v else 0x1_0000_0000_0000_0000 + v)
    ensures |Word(ToBits(v))| == 8
  {
  }

  /** A hexadecimal column has sixteen digits, the most significant first, in lower case. */
  lemma {:induction false} HexPlaces(v: nat, n: nat, k: nat)
    requires k < n
    ensures Pow16(n - 1 - k) > 0
    ensures
      var d := v / Pow16(n - 1 - k) % 16;
      Hex(v, n)[k] as int == if d < 10 then 48 + d else 97 + d - 10
    decreases n
  {
    hide Pow16;
    if k < n - 1 {
      HexPlaces(v / 16, n - 1, k);
      DivDiv(v, 16, Pow16(n - 2 - k));
      Pow16Next(n - 2 - k);
    } else {
      Pow16Next(0);
    }
  }

  lemma Pow16Next(n: nat)
    ensures Pow16(n + 1) == 16 * Pow16(n) && Pow16(0) == 1
  {
  }

  /** A window of samples at a rate lasts that many nanoseconds, rounded down; a stored rate is samples per second, rounded down. */
  lemma WindowMeans(samples: u32, rate: u32)
    requires rate > 0
    ensures
      var w := SourceWindow(samples, rate);
      && w.samples == samples && w.duration * rate <= samples * 1_000_000_000 < (w.duration + 1) * rate
  {
    QuotientBounds(samples * 1_000_000_000, rate);
  }

  lemma RateMeans(w: Window)
    ensures
      var rate := SampleRate(w);
      if w.samples == 0 || w.duration <= 0 || w.samples * 1_000_000_000 >= 0x1_0000_0000 * w.duration then rate == 0
      else rate * w.duration <= w.samples * 1_000_000_000 < (rate + 1) * w.duration
  {
    if w.samples > 0 && w.duration > 0 {
      var n, q := w.samples * 1_000_000_000, w.samples * 1_000_000_000 / w.duration;
      QuotientBounds(n, w.duration);
      if q <= UINT32_MAX {
        ProductOrder(q + 1, 0x1_0000_0000, w.duration);
      } else {
        ProductOrder(0x1_0000_0000, q, w.duration);
      }
    }
  }
}
