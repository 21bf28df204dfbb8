/**
 * The order the Router ID step sorts by: `localeCompare` with `numeric: true`,
 * on dotted identifiers such as `10.1.1.1`. Runs of digits compare by their
 * value, so `2.0.0.0` sorts before `10.0.0.0`; the dots separate the runs.
 */
module DottedOrder {
  import opened Text

  /** The value of the run of digits a segment starts with (0 when it starts with none). */
  function SegmentValue(seg: string): nat {
    var e := SpanEnd(seg, 0, IsDigit);
    assert AllDigits(seg[..e]);
    DigitsValue(seg[..e])
  }

  /** The numeric values of the dot-separated segments of an identifier, in order. */
  function DottedKey(s: string): (key: seq<nat>)
    ensures |key| == |Split(s, '.')| && |key| >= 1
  {
    var parts := Split(s, '.');
    seq(|parts|, i requires 0 <= i < |parts| => SegmentValue(parts[i]))
  }

  /** Lexicographic order on numeric keys; a proper prefix comes first. */
  predicate LexLess(a: seq<nat>, b: seq<nat>)
    decreases |a|
  {
    if a == [] then b != []
    else b != [] && (a[0] < b[0] || (a[0] == b[0] && LexLess(a[1..], b[1..])))
  }

  /** `x` sorts strictly before `y`. */
  predicate DottedLess(x: string, y: string) {
    LexLess(DottedKey(x), DottedKey(y))
  }

  lemma {:induction false} LexLessIrreflexive(a: seq<nat>)
    ensures !LexLess(a, a)
    decreases |a|
  {
    if a != [] {
      LexLessIrreflexive(a[1..]);
    }
  }

  lemma {:induction false} LexLessTransitive(a: seq<nat>, b: seq<nat>, c: seq<nat>)
    requires LexLess(a, b) && LexLess(b, c)
    ensures LexLess(a, c)
    decreases |a|
  {
    if a != [] && a[0] == b[0] && b[0] == c[0] {
      LexLessTransitive(a[1..], b[1..], c[1..]);
    }
  }

  /** Two different keys are always ordered one way or the other. */
  lemma {:induction false} LexLessTotal(a: seq<nat>, b: seq<nat>)
    requires a != b
    ensures LexLess(a, b) || LexLess(b, a)
    decreases |a|
  {
    if a != [] && b != [] && a[0] == b[0] {
      assert a == [a[0]] + a[1..] && b == [b[0]] + b[1..];
      LexLessTotal(a[1..], b[1..]);
    }
  }

  /** Not-less is transitive too: keys are totally ordered. */
  lemma LexNotLessTransitive(a: seq<nat>, b: seq<nat>, c: seq<nat>)
    requires !LexLess(b, a) && !LexLess(c, b)
    ensures !LexLess(c, a)
  {
    if LexLess(c, a) {
      if a == b {
      } else {
        LexLessTotal(a, b);
        LexLessTransitive(c, a, b);
      }
    }
  }

  /** The order is a strict weak order on identifiers: irreflexive, transitive, and incomparability is key equality. */
  lemma DottedLessOrder(x: string, y: string, z: string)
    ensures !DottedLess(x, x)
    ensures DottedLess(x, y) && DottedLess(y, z) ==> DottedLess(x, z)
    ensures !DottedLess(x, y) && !DottedLess(y, x) <==> DottedKey(x) == DottedKey(y)
  {
    LexLessIrreflexive(DottedKey(x));
    if DottedLess(x, y) && DottedLess(y, z) {
      LexLessTransitive(DottedKey(x), DottedKey(y), DottedKey(z));
    }
    if DottedKey(x) != DottedKey(y) {
      LexLessTotal(DottedKey(x), DottedKey(y));
    } else {
      LexLessIrreflexive(DottedKey(x));
    }
  }
}
