/** Lexicographic order, as std::lexicographical_compare, std::string and SQLite's BINARY collation have it. */
module Order {

  predicate LexLess(a: seq<int>, b: seq<int>) {
    if b == [] then false
    else if a == [] then true
    else a[0] < b[0] || (a[0] == b[0] && LexLess(a[1..], b[1..]))
  }

  lemma {:induction false} LexTotal(a: seq<int>, b: seq<int>)
    ensures !LexLess(a, b) && !LexLess(b, a) ==> a == b
    ensures !(LexLess(a, b) && LexLess(b, a))
  {
    if a != [] && b != [] && a[0] == b[0] {
      LexTotal(a[1..], b[1..]);
      assert a == [a[0]] + a[1..] && b == [b[0]] + b[1..];
    }
  }

  lemma {:induction false} LexTransitive(a: seq<int>, b: seq<int>, c: seq<int>)
    requires !LexLess(b, a) && !LexLess(c, b)
    ensures !LexLess(c, a)
  {
    if a != [] && b != [] && c != [] && a[0] == b[0] == c[0] {
      LexTransitive(a[1..], b[1..], c[1..]);
    }
  }

  function Codes(s: string): seq<int> {
    seq(|s|, i requires 0 <= i < |s| => s[i] as int)
  }

  predicate TextLess(a: string, b: string) {
    LexLess(Codes(a), Codes(b))
  }

  lemma TextTotal(a: string, b: string)
    ensures !TextLess(a, b) && !TextLess(b, a) ==> a == b
    ensures !(TextLess(a, b) && TextLess(b, a))
  {
    hide LexLess;
    LexTotal(Codes(a), Codes(b));
    if Codes(a) == Codes(b) {
      forall i | 0 <= i < |a| && |a| == |b| ensures a[i] == b[i] {
        assert Codes(a)[i] == Codes(b)[i];
      }
      assert |a| == |Codes(a)| == |b|;
    }
  }

  lemma TextTransitive(a: string, b: string, c: string)
    requires !TextLess(b, a) && !TextLess(c, b)
    ensures !TextLess(c, a)
  {
    LexTransitive(Codes(a), Codes(b), Codes(c));
  }

  /** The shorter of two texts that agree as far as it goes comes first; otherwise the first difference decides. */
  ghost predicate DecidedAt(a: seq<int>, b: seq<int>, i: nat) {
    && i <= |a| && i < |b| && a[..i] == b[..i] && (i == |a| || a[i] < b[i])
  }

  lemma {:induction false} LexMeans(a: seq<int>, b: seq<int>)
    ensures LexLess(a, b) <==> exists i: nat :: DecidedAt(a, b, i)
    decreases |a|
  {
    if a == [] && b != [] {
      assert DecidedAt(a, b, 0);
    } else if a != [] && b != [] {
      if a[0] < b[0] {
        assert DecidedAt(a, b, 0);
      } else if a[0] == b[0] {
        var c, d := a[1..], b[1..];
        LexMeans(c, d);
        forall i: nat ensures DecidedAt(a, b, i + 1) <==> DecidedAt(c, d, i) {
          if i < |b| - 1 && i <= |a| - 1 {
            assert a[..i + 1] == [a[0]] + c[..i] && b[..i + 1] == [b[0]] + d[..i];
            assert a[..i + 1][1..] == c[..i] && b[..i + 1][1..] == d[..i];
          }
        }
        if i: nat :| DecidedAt(c, d, i) {
          assert DecidedAt(a, b, i + 1);
        }
        if i: nat :| DecidedAt(a, b, i) {
          assert i > 0;
          assert DecidedAt(c, d, i - 1);
        }
      } else {
        forall i: nat ensures !DecidedAt(a, b, i) {
          if i > 0 && i <= |a| && i < |b| {
            assert a[..i][0] == a[0] && b[..i][0] == b[0];
          }
        }
      }
    }
  }
}
