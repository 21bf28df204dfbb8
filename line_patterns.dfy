/**
 * The languages of the parser's regular expressions, written as each expression
 * reads: a split of the text at given positions into the expression's parts. The
 * lemmas show that the scans of `LineShapes` accept exactly those texts, that they
 * capture what the expressions capture, that a search settles on the leftmost
 * match, and that the greedy `\(.*\)` settles on the rightmost closing parenthesis.
 */
module LinePatterns {
  import opened Wrappers
  import opened Text
  import opened LineShapes

  /** `\s+from\s+` from position `x`: white space up to `d`, the word `from`, white space up to `e`. */
  predicate TailWordSplit(line: string, x: nat, d: nat, e: nat) {
    x < d && d + 4 < e <= |line|
    && (forall t :: x <= t < d ==> IsJsSpace(line[t]))
    && StartsAt(line, d, "from")
    && (forall t :: d + 4 <= t < e ==> IsJsSpace(line[t]))
  }

  /** `([0-9.]+)\s+\(([0-9.]+)\)` from position `e`, its captures being `line[e..g]` and `line[h + 1..k]`. */
  predicate CapturesSplit(line: string, e: nat, g: nat, h: nat, k: nat) {
    e < g < h && h + 1 < k < |line|
    && (forall t :: e <= t < g ==> IsDotDigit(line[t]))
    && (forall t :: g <= t < h ==> IsJsSpace(line[t]))
    && line[h] == '('
    && (forall t :: h + 1 <= t < k ==> IsDotDigit(line[t]))
    && line[k] == ')'
  }

  /** `\s+from\s+([0-9.]+)\s+\(([0-9.]+)\)` from position `x`. */
  predicate TailSplit(line: string, x: nat, d: nat, e: nat, g: nat, h: nat, k: nat) {
    TailWordSplit(line, x, d, e) && CapturesSplit(line, e, g, h, k)
  }

  /** A tail the scan finds is in the tail's language, with the captures the expression takes. */
  lemma FromTailSound(line: string, x: nat)
    requires x <= |line| && FromTail(line, x).Some?
    ensures exists d: nat, e: nat, g: nat, h: nat, k: nat ::
      TailSplit(line, x, d, e, g, h, k) && FromTail(line, x) == Some((line[e..g], line[h + 1..k]))
  {
    var d := SpanEnd(line, x, IsJsSpace);
    var e := SpanEnd(line, d + 4, IsJsSpace);
    var g := SpanEnd(line, e, IsDotDigit);
    var h := SpanEnd(line, g, IsJsSpace);
    var k := SpanEnd(line, h + 1, IsDotDigit);
    assert FromTail(line, x) == Some((line[e..g], line[h + 1..k]));
    assert TailWordSplit(line, x, d, e);
    assert CapturesSplit(line, e, g, h, k);
    assert TailSplit(line, x, d, e, g, h, k);
  }

  /** Every split of the tail's language is found by the scan, with its captures. */
  lemma FromTailComplete(line: string, x: nat, d: nat, e: nat, g: nat, h: nat, k: nat)
    requires TailSplit(line, x, d, e, g, h, k)
    ensures FromTail(line, x) == Some((line[e..g], line[h + 1..k]))
  {
    TailWordEnds(line, x, d, e, g, h, k);
    TailCapturesEnd(line, e, g, h, k);
  }

  lemma TailWordEnds(line: string, x: nat, d: nat, e: nat, g: nat, h: nat, k: nat)
    requires TailWordSplit(line, x, d, e) && CapturesSplit(line, e, g, h, k)
    ensures SpanEnd(line, x, IsJsSpace) == d
    ensures SpanEnd(line, d + 4, IsJsSpace) == e
  {
    assert line[d] == line[d..d + 4][0] == 'f';
    SpanEndAt(line, x, d, IsJsSpace);
    assert IsDotDigit(line[e]);
    SpanEndAt(line, d + 4, e, IsJsSpace);
  }

  lemma TailCapturesEnd(line: string, e: nat, g: nat, h: nat, k: nat)
    requires CapturesSplit(line, e, g, h, k)
    ensures SpanEnd(line, e, IsDotDigit) == g
    ensures SpanEnd(line, g, IsJsSpace) == h
    ensures SpanEnd(line, h + 1, IsDotDigit) == k
  {
    assert IsJsSpace(line[g]);
    SpanEndAt(line, e, g, IsDotDigit);
    SpanEndAt(line, g, h, IsJsSpace);
    SpanEndAt(line, h + 1, k, IsDotDigit);
  }

  /** The optional group `\s+\(.*\)` from position `b`: white space, `(` at `c`, no line terminator, `)` at `q`. */
  predicate GroupSplit(line: string, b: nat, c: nat, q: nat) {
    b < c < q < |line|
    && (forall t :: b <= t < c ==> IsJsSpace(line[t]))
    && line[c] == '('
    && (forall t :: c + 1 <= t < q ==> IsNotLineTerminator(line[t]))
    && line[q] == ')'
  }

  /** A position the search returns satisfies the predicate searched for. */
  lemma {:induction false} LastWhereSound(closes: nat -> bool, lo: nat, hi: nat)
    requires LastWhere(closes, lo, hi).Some?
    ensures closes(LastWhere(closes, lo, hi).value)
    decreases hi
  {
    if !closes(hi - 1) {
      LastWhereSound(closes, lo, hi - 1);
    }
  }

  /** Every position in the range that satisfies the predicate is at or before the one the search returns. */
  lemma {:induction false} LastWhereRightmost(closes: nat -> bool, lo: nat, hi: nat, q: nat)
    requires lo <= q < hi && closes(q)
    ensures LastWhere(closes, lo, hi).Some? && q <= LastWhere(closes, lo, hi).value
    decreases hi
  {
    if q < hi - 1 && !closes(hi - 1) {
      LastWhereRightmost(closes, lo, hi - 1, q);
    }
  }

  /** A close the search returns is followed by a matching tail. */
  lemma LastCloseSound(line: string, lo: nat, hi: nat)
    requires hi <= |line| && LastClose(line, lo, hi).Some?
    ensures ClosesAt(line, LastClose(line, lo, hi).value)
  {
    LastWhereSound(Closes(line), lo, hi);
  }

  /** Every position that closes the group in the searched range is at or before the one the search returns. */
  lemma LastCloseRightmost(line: string, lo: nat, hi: nat, q: nat)
    requires hi <= |line| && lo <= q < hi && ClosesAt(line, q)
    ensures LastClose(line, lo, hi).Some? && q <= LastClose(line, lo, hi).value
  {
    assert Closes(line)(q);
    LastWhereRightmost(Closes(line), lo, hi, q);
  }

  /** A close the group's search returns ends a group of the group's language, and the tail matches after it. */
  lemma GroupCloseSound(line: string, b: nat)
    requires b <= |line| && GroupClose(line, b).Some?
    ensures exists c: nat :: GroupSplit(line, b, c, GroupClose(line, b).value)
    ensures ClosesAt(line, GroupClose(line, b).value)
  {
    var c := SpanEnd(line, b, IsJsSpace);
    LastCloseSound(line, c + 1, SpanEnd(line, c + 1, IsNotLineTerminator));
    GroupCloseOpens(line, b);
  }

  /** The group the search closes opens where the white space after the next hop ends. */
  lemma GroupCloseOpens(line: string, b: nat)
    requires b <= |line| && GroupClose(line, b).Some?
    ensures GroupSplit(line, b, SpanEnd(line, b, IsJsSpace), GroupClose(line, b).value)
  {
    var c := SpanEnd(line, b, IsJsSpace);
    var hi := SpanEnd(line, c + 1, IsNotLineTerminator);
    assert GroupClose(line, b) == GroupFrom(line, b, c) == LastClose(line, c + 1, hi);
    LastCloseSound(line, c + 1, hi);
  }

  /**
   * Every group of the group's language after which the tail matches is found: the
   * greedy `.*` backtracks from the end of the line, so the search returns the
   * rightmost such close.
   */
  lemma GroupCloseComplete(line: string, b: nat, c: nat, q: nat)
    requires GroupSplit(line, b, c, q) && ClosesAt(line, q)
    ensures GroupClose(line, b).Some? && q <= GroupClose(line, b).value
  {
    GroupReachesClose(line, b, c, q);
    var r := LastClose(line, c + 1, SpanEnd(line, c + 1, IsNotLineTerminator));
    LastCloseRightmost(line, c + 1, SpanEnd(line, c + 1, IsNotLineTerminator), q);
    GroupCloseFrom(line, b, c);
    assert GroupClose(line, b) == r;
  }

  lemma GroupReachesClose(line: string, b: nat, c: nat, q: nat)
    requires GroupSplit(line, b, c, q)
    ensures q < SpanEnd(line, c + 1, IsNotLineTerminator)
  {
    SpanEndPast(line, c + 1, q, IsNotLineTerminator);
  }

  lemma GroupCloseFrom(line: string, b: nat, c: nat)
    requires b < c < |line| && line[c] == '('
    requires forall t :: b <= t < c ==> IsJsSpace(line[t])
    ensures GroupClose(line, b) == LastClose(line, c + 1, SpanEnd(line, c + 1, IsNotLineTerminator))
  {
    assert GroupClose(line, b) == GroupFrom(line, b, c);
    SpanEndAt(line, b, c, IsJsSpace);
  }

  /** `^\s+([0-9.]+)`: white space up to `a`, then the next hop `line[a..b]`. */
  predicate HopSplit(line: string, a: nat, b: nat) {
    0 < a < b <= |line|
    && (forall t :: 0 <= t < a ==> IsJsSpace(line[t]))
    && (forall t :: a <= t < b ==> IsDotDigit(line[t]))
  }

  /** The from-line's tail starts at `x`: right after the next hop, or right after a group closing at `x - 1`. */
  predicate TailStart(line: string, b: nat, c: nat, x: nat) {
    x == b || (x > 0 && GroupSplit(line, b, c, x - 1))
  }

  /** With the next hop at `line[a..b]`, the from-line's match is the tail's match from the tail's position. */
  lemma MatchFromLineAt(line: string, a: nat, b: nat)
    requires HopSplit(line, a, b) && b < |line| && IsJsSpace(line[b])
    ensures MatchFromLine(line) == WithTail(line[a..b], FromTail(line, TailPosition(line, b)))
  {
    assert IsDotDigit(line[a]);
    SpanEndAt(line, 0, a, IsJsSpace);
    SpanEndAt(line, a, b, IsDotDigit);
  }

  /** The from-line's expression matches `line` with the split `a`, `b`, `c`, `x` and the captures of `m`. */
  predicate FromLineSplit(line: string, a: nat, b: nat, c: nat, x: nat, m: FromMatch) {
    HopSplit(line, a, b) && TailStart(line, b, c, x) && x <= |line|
    && m.nextHop == line[a..b]
    && FromTail(line, x) == Some((m.peerIp, m.routerId))
  }

  /** A matched from-line is in the from-line's language, with the expression's captures. */
  lemma MatchFromLineSound(line: string)
    requires MatchFromLine(line).Some?
    ensures exists a: nat, b: nat, c: nat, x: nat :: FromLineSplit(line, a, b, c, x, MatchFromLine(line).value)
  {
    var m := MatchFromLine(line).value;
    var a := SpanEnd(line, 0, IsJsSpace);
    var b := SpanEnd(line, a, IsDotDigit);
    var x := TailPosition(line, b);
    var c := TailOpen(line, b, x);
    assert FromLineSplit(line, a, b, c, x, m);
  }

  /** The position of the group's `(` when the tail starts after a group. */
  lemma TailOpen(line: string, b: nat, x: nat) returns (c: nat)
    requires b <= |line| && x == TailPosition(line, b)
    ensures TailStart(line, b, c, x)
  {
    c := SpanEnd(line, b, IsJsSpace);
    if x != b {
      GroupCloseOpens(line, b);
    }
  }

  /** Every line of the from-line's language is matched, and the next hop is the one the split names. */
  lemma MatchFromLineComplete(line: string, a: nat, b: nat, c: nat, x: nat)
    requires HopSplit(line, a, b) && TailStart(line, b, c, x) && x <= |line| && FromTail(line, x).Some?
    ensures MatchFromLine(line).Some? && MatchFromLine(line).value.nextHop == line[a..b]
  {
    if x == b {
      FromTailSound(line, x);
    }
    assert b < |line| && IsJsSpace(line[b]);
    MatchFromLineAt(line, a, b);
    var y := TailPosition(line, b);
    if x != b {
      GroupCloseComplete(line, b, c, x - 1);
    }
    if y != b {
      GroupCloseSound(line, b);
    }
    assert FromTail(line, y).Some?;
  }

  /** When the group can close, the captures are read after the rightmost close that lets the tail match. */
  lemma MatchFromLineGreedy(line: string, a: nat, b: nat, c: nat, q: nat)
    requires HopSplit(line, a, b) && GroupSplit(line, b, c, q) && ClosesAt(line, q)
    ensures GroupClose(line, b).Some? && q <= GroupClose(line, b).value
    ensures var caps := FromTail(line, GroupClose(line, b).value + 1);
      caps.Some? && MatchFromLine(line) == Some(FromMatch(line[a..b], caps.value.0, caps.value.1))
  {
    GroupCloseComplete(line, b, c, q);
    GroupCloseSound(line, b);
    MatchFromLineAt(line, a, b);
  }

  predicate IsOriginCode(w: string) {
    w == "IGP" || w == "EGP" || w == "Incomplete"
  }

  /** `Origin\s+(IGP|EGP|Incomplete)`, without regard to case, at `i`: the white space ends at `j`, where the code `w` is spelt. */
  predicate OriginSplit(line: string, i: nat, j: nat, w: string) {
    MatchesIgnoreCaseAt(line, i, "Origin") && i + 6 < j <= |line|
    && (forall t :: i + 6 <= t < j ==> IsJsSpace(line[t]))
    && IsOriginCode(w) && MatchesIgnoreCaseAt(line, j, w)
  }

  /** A code the scan reads at `i` is a match of the origin expression there, captured as the line spells it. */
  lemma OriginAtSound(line: string, i: nat)
    requires i <= |line| && OriginAt(line, i).Some?
    ensures exists j: nat, w :: OriginSplit(line, i, j, w) && OriginAt(line, i) == Some(line[j..j + |w|])
  {
    var j := SpanEnd(line, i + 6, IsJsSpace);
    var w := if MatchesIgnoreCaseAt(line, j, "IGP") then "IGP"
      else if MatchesIgnoreCaseAt(line, j, "EGP") then "EGP" else "Incomplete";
    assert OriginSplit(line, i, j, w);
  }

  /** Every match of the origin expression at `i` is read by the scan, with the capture the expression takes. */
  lemma OriginAtComplete(line: string, i: nat, j: nat, w: string)
    requires OriginSplit(line, i, j, w)
    ensures OriginAt(line, i) == Some(line[j..j + |w|])
  {
    assert UpperAscii(line[j + 0]) == UpperAscii(w[0]);
    SpanEndAt(line, i + 6, j, IsJsSpace);
    if w == "EGP" {
      assert UpperAscii(line[j + 0]) != UpperAscii("IGP"[0]);
    } else if w == "Incomplete" {
      assert UpperAscii(line[j + 1]) == UpperAscii(w[1]) != UpperAscii("IGP"[1]);
      assert UpperAscii(line[j + 0]) != UpperAscii("EGP"[0]);
    }
  }

  /** The search for the origin expression returns a match found at some position. */
  lemma {:induction false} OriginFromSound(line: string, i: nat)
    requires i <= |line| && OriginFrom(line, i).Some?
    ensures exists t: nat :: i <= t <= |line| && OriginAt(line, t) == OriginFrom(line, i)
    decreases |line| - i
  {
    if OriginAt(line, i).None? {
      OriginFromSound(line, i + 1);
    }
  }

  /** The search finds the origin expression whenever it matches at some position. */
  lemma {:induction false} OriginFromFinds(line: string, i: nat, t: nat)
    requires i <= t <= |line| && OriginAt(line, t).Some?
    ensures OriginFrom(line, i).Some?
    decreases |line| - i
  {
    if OriginAt(line, i).None? {
      assert i < t;
      OriginFromFinds(line, i + 1, t);
    }
  }

  /** The search returns the match at the leftmost position where the expression matches. */
  lemma OriginFromLeftmost(line: string, i: nat, t: nat)
    requires i <= t <= |line| && OriginAt(line, t).Some?
    requires forall u :: i <= u < t ==> OriginAt(line, u).None?
    ensures OriginFrom(line, i) == OriginAt(line, t)
  {
    OriginFromSkipsTo(line, i, t);
  }

  lemma {:induction false} OriginFromSkipsTo(line: string, i: nat, t: nat)
    requires i <= t <= |line|
    requires forall u :: i <= u < t ==> OriginAt(line, u).None?
    ensures OriginFrom(line, i) == OriginFrom(line, t)
    decreases t - i
  {
    if i < t {
      OriginFromSkips(line, i);
      OriginFromSkipsTo(line, i + 1, t);
    }
  }

  lemma OriginFromSkips(line: string, i: nat)
    requires i < |line| && OriginAt(line, i).None?
    ensures OriginFrom(line, i) == OriginFrom(line, i + 1)
  {
  }

  /** `word\s+(\d+)` at `i`: the white space ends at `j`, and the greedy `\d+` captures `line[j..k]`. */
  predicate NumberSplit(line: string, i: nat, word: string, j: nat, k: nat) {
    StartsAt(line, i, word) && i + |word| < j < k <= |line|
    && (forall t :: i + |word| <= t < j ==> IsJsSpace(line[t]))
    && AllDigits(line[j..k])
    && (k < |line| ==> !IsDigit(line[k]))
  }

  /** A number the scan reads at `i` is the value of a match of the number expression there. */
  lemma NumberAtSound(line: string, i: nat, word: string)
    requires i <= |line| && NumberAt(line, i, word).Some?
    ensures exists j: nat, k: nat :: NumberSplit(line, i, word, j, k) && NumberAt(line, i, word) == Some(DigitsValue(line[j..k]))
  {
    var j := SpanEnd(line, i + |word|, IsJsSpace);
    var k := SpanEnd(line, j, IsDigit);
    assert NumberSplit(line, i, word, j, k);
  }

  /** Every match of the number expression at `i` is read by the scan, as the value `parseInt` gives its capture. */
  lemma NumberAtComplete(line: string, i: nat, word: string, j: nat, k: nat)
    requires NumberSplit(line, i, word, j, k)
    ensures NumberAt(line, i, word) == Some(DigitsValue(line[j..k]))
  {
    assert IsDigit(line[j..k][0]);
    SpanEndAt(line, i + |word|, j, IsJsSpace);
    forall t | j <= t < k ensures IsDigit(line[t]) {
      assert line[t] == line[j..k][t - j];
    }
    SpanEndAt(line, j, k, IsDigit);
  }

  /** The search for a number returns the match at the leftmost position where the expression matches. */
  lemma NumberFromLeftmost(line: string, i: nat, word: string, t: nat)
    requires i <= t <= |line| && NumberAt(line, t, word).Some?
    requires forall u :: i <= u < t ==> NumberAt(line, u, word).None?
    ensures NumberFrom(line, i, word) == NumberAt(line, t, word)
  {
    NumberFromSkipsTo(line, i, word, t);
  }

  lemma {:induction false} NumberFromSkipsTo(line: string, i: nat, word: string, t: nat)
    requires i <= t <= |line|
    requires forall u :: i <= u < t ==> NumberAt(line, u, word).None?
    ensures NumberFrom(line, i, word) == NumberFrom(line, t, word)
    decreases t - i
  {
    if i < t {
      NumberFromSkips(line, i, word);
      NumberFromSkipsTo(line, i + 1, word, t);
    }
  }

  lemma NumberFromSkips(line: string, i: nat, word: string)
    requires i < |line| && NumberAt(line, i, word).None?
    ensures NumberFrom(line, i, word) == NumberFrom(line, i + 1, word)
  {
  }

  /** `entry for ([0-9./]+)` at `i`: the greedy class run captures `input[i + 10..e]`. */
  predicate PrefixSplit(input: string, i: nat, e: nat) {
    StartsAt(input, i, "entry for ") && i + 10 < e <= |input|
    && (forall t :: i + 10 <= t < e ==> IsPrefixChar(input[t]))
    && (e < |input| ==> !IsPrefixChar(input[e]))
  }

  /** A prefix the scan reads at `i` is the capture of a match of the prefix expression there. */
  lemma PrefixAtSound(input: string, i: nat)
    requires i <= |input| && PrefixAt(input, i).Some?
    ensures exists e: nat :: PrefixSplit(input, i, e) && PrefixAt(input, i) == Some(input[i + 10..e])
  {
    var e := SpanEnd(input, i + 10, IsPrefixChar);
    assert PrefixSplit(input, i, e);
  }

  /** Every match of the prefix expression at `i` is read by the scan, with its capture. */
  lemma PrefixAtComplete(input: string, i: nat, e: nat)
    requires PrefixSplit(input, i, e)
    ensures PrefixAt(input, i) == Some(input[i + 10..e])
  {
    SpanEndAt(input, i + 10, e, IsPrefixChar);
  }

  /** The search for the prefix returns the match at the leftmost position where the expression matches. */
  lemma PrefixFromLeftmost(input: string, i: nat, t: nat)
    requires i <= t <= |input| && PrefixAt(input, t).Some?
    requires forall u :: i <= u < t ==> PrefixAt(input, u).None?
    ensures PrefixFrom(input, i) == PrefixAt(input, t)
  {
    PrefixFromSkipsTo(input, i, t);
  }

  lemma {:induction false} PrefixFromSkipsTo(input: string, i: nat, t: nat)
    requires i <= t <= |input|
    requires forall u :: i <= u < t ==> PrefixAt(input, u).None?
    ensures PrefixFrom(input, i) == PrefixFrom(input, t)
    decreases t - i
  {
    if i < t {
      PrefixFromSkips(input, i);
      PrefixFromSkipsTo(input, i + 1, t);
    }
  }

  lemma PrefixFromSkips(input: string, i: nat)
    requires i < |input| && PrefixAt(input, i).None?
    ensures PrefixFrom(input, i) == PrefixFrom(input, i + 1)
  {
  }

  /** The dump's prefix is the capture of the first `entry for` match, as `input.match` returns it. */
  lemma GlobalPrefixFirst(input: string, t: nat)
    requires t <= |input| && PrefixAt(input, t).Some?
    requires forall u :: 0 <= u < t ==> PrefixAt(input, u).None?
    ensures GlobalPrefix(input) == PrefixAt(input, t).value
  {
    PrefixFromLeftmost(input, 0, t);
  }
}
