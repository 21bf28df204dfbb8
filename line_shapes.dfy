/**
 * The line shapes the route-dump parser recognises, each a regular expression in
 * the parser, written here as a scan over the characters of one line.
 *
 * Every scan below reads each class-repetition (`\s+`, `\d+`, `[0-9.]+`) to the end of
 * its run: in these patterns the character that follows a repetition is never in the
 * repeated class, so the regular expression's backtracking cannot succeed with a shorter
 * run. The one real backtracking choice, the greedy `\(.*\)` of the from-line, is a
 * search for the last closing parenthesis after which the rest of the line matches.
 */
module LineShapes {
  import opened Wrappers
  import opened Text

  predicate IsDotDigit(c: char) {
    IsDigit(c) || c == '.'
  }

  predicate IsPrefixChar(c: char) {
    IsDigit(c) || c == '.' || c == '/'
  }

  predicate IsDigitOrSpace(c: char) {
    IsDigit(c) || IsJsSpace(c)
  }

  /** `/^\s*Path\s+#\d+:/i.test(line)`: an explicit path header such as `  Path #2: Received by speaker 0`. */
  predicate IsPathHeader(line: string) {
    var i := SpanEnd(line, 0, IsJsSpace);
    MatchesIgnoreCaseAt(line, i, "Path")
    && var j := SpanEnd(line, i + 4, IsJsSpace);
    j > i + 4 && j < |line| && line[j] == '#'
    && var k := SpanEnd(line, j + 1, IsDigit);
    k > j + 1 && k < |line| && line[k] == ':'
  }

  /**
   * The language of the header expression written as the regular expression reads:
   * some split of the line's start into the pattern's parts.
   */
  predicate HeaderSplit(line: string, i: nat, j: nat, k: nat) {
    i + 4 < j < k < |line|
    && (forall t :: 0 <= t < i ==> IsJsSpace(line[t]))
    && MatchesIgnoreCaseAt(line, i, "Path")
    && (forall t :: i + 4 <= t < j ==> IsJsSpace(line[t]))
    && line[j] == '#'
    && j + 1 < k
    && (forall t :: j + 1 <= t < k ==> IsDigit(line[t]))
    && line[k] == ':'
  }

  /** A run of class characters of which the character right after is not a member ends where `SpanEnd` says. */
  lemma SpanEndAt(s: string, i: nat, e: nat, p: char -> bool)
    requires i <= e <= |s|
    requires forall t :: i <= t < e ==> p(s[t])
    requires e < |s| ==> !p(s[e])
    ensures SpanEnd(s, i, p) == e
  {
  }

  /** A run of class characters that reaches `q` ends after `q`. */
  lemma SpanEndPast(s: string, i: nat, q: nat, p: char -> bool)
    requires i <= q < |s|
    requires forall t :: i <= t <= q ==> p(s[t])
    ensures q < SpanEnd(s, i, p)
  {
  }

  /** Every line the scan accepts is in the header expression's language. */
  lemma HeaderScanSound(line: string)
    requires IsPathHeader(line)
    ensures exists i: nat, j: nat, k: nat :: HeaderSplit(line, i, j, k)
  {
    var i := SpanEnd(line, 0, IsJsSpace);
    var j := SpanEnd(line, i + 4, IsJsSpace);
    var k := SpanEnd(line, j + 1, IsDigit);
    assert HeaderSplit(line, i, j, k);
  }

  /** Every line of the header expression's language is accepted by the scan. */
  lemma HeaderScanComplete(line: string, i: nat, j: nat, k: nat)
    requires HeaderSplit(line, i, j, k)
    ensures IsPathHeader(line)
  {
    HeaderSpacesEnd(line, i, j, k);
    HeaderGapEnd(line, i, j, k);
    HeaderNumberEnd(line, i, j, k);
  }

  lemma HeaderSpacesEnd(line: string, i: nat, j: nat, k: nat)
    requires HeaderSplit(line, i, j, k)
    ensures SpanEnd(line, 0, IsJsSpace) == i
  {
    assert UpperAscii(line[i + 0]) == UpperAscii("Path"[0]);
    assert line[i] == 'P' || line[i] == 'p';
    SpanEndAt(line, 0, i, IsJsSpace);
  }

  lemma HeaderGapEnd(line: string, i: nat, j: nat, k: nat)
    requires HeaderSplit(line, i, j, k)
    ensures SpanEnd(line, i + 4, IsJsSpace) == j
  {
    SpanEndAt(line, i + 4, j, IsJsSpace);
  }

  lemma HeaderNumberEnd(line: string, i: nat, j: nat, k: nat)
    requires HeaderSplit(line, i, j, k)
    ensures SpanEnd(line, j + 1, IsDigit) == k
  {
    SpanEndAt(line, j + 1, k, IsDigit);
  }

  /** The three captures of a from-line: next hop, peer address and router identifier. */
  datatype FromMatch = FromMatch(nextHop: string, peerIp: string, routerId: string)

  /** A capture of the class `[0-9.]+`. */
  predicate IsDottedCapture(s: string) {
    |s| > 0 && forall t :: 0 <= t < |s| ==> IsDotDigit(s[t])
  }

  /** The tail `\s+from\s+([0-9.]+)\s+\(([0-9.]+)\)` read from position `x`; it yields the two captures. */
  function FromTail(line: string, x: nat): (m: Option<(string, string)>)
    requires x <= |line|
    ensures m.Some? ==> IsDottedCapture(m.value.0) && IsDottedCapture(m.value.1)
  {
    var d := SpanEnd(line, x, IsJsSpace);
    if d == x || !StartsAt(line, d, "from") then None
    else
      var e := SpanEnd(line, d + 4, IsJsSpace);
      var g := SpanEnd(line, e, IsDotDigit);
      var h := SpanEnd(line, g, IsJsSpace);
      if e == d + 4 || g == e || h == g || h == |line| || line[h] != '(' then None
      else
        var k := SpanEnd(line, h + 1, IsDotDigit);
        if k == h + 1 || k == |line| || line[k] != ')' then None
        else Some((line[e..g], line[h + 1..k]))
  }

  /** The greedy `\(.*\)` closes at `p` and the tail matches right after it. */
  predicate ClosesAt(line: string, p: nat) {
    p < |line| && line[p] == ')' && FromTail(line, p + 1).Some?
  }

  /** `ClosesAt` for the line, as the predicate the backtracking tests. */
  function Closes(line: string): nat -> bool {
    (p: nat) => ClosesAt(line, p)
  }

  /** The rightmost position in `[lo, hi)` at which `closes` holds, searched from `hi - 1` down, or none. */
  function LastWhere(closes: nat -> bool, lo: nat, hi: nat): (p: Option<nat>)
    ensures p.Some? ==> lo <= p.value < hi
    decreases hi
  {
    if hi <= lo then None
    else if closes(hi - 1) then Some(hi - 1)
    else LastWhere(closes, lo, hi - 1)
  }

  /**
   * The backtracking of `.*\)` over `line[lo..hi)`: the rightmost position that
   * closes the group, or none.
   */
  function LastClose(line: string, lo: nat, hi: nat): (p: Option<nat>)
    requires hi <= |line|
    ensures p.Some? ==> lo <= p.value < hi
  {
    LastWhere(Closes(line), lo, hi)
  }

  /** The optional group `(?:\s+\(.*\))` tried right after the next hop at `b`: where it closes, if it can. */
  function GroupClose(line: string, b: nat): (p: Option<nat>)
    requires b <= |line|
    ensures p.Some? ==> b < p.value < |line|
  {
    GroupFrom(line, b, SpanEnd(line, b, IsJsSpace))
  }

  /** The group's search once its white space has run from `b` to `c`. */
  function GroupFrom(line: string, b: nat, c: nat): (p: Option<nat>)
    requires b <= c <= |line|
    ensures p.Some? ==> c < p.value < |line|
  {
    if c > b && c < |line| && line[c] == '(' then LastClose(line, c + 1, SpanEnd(line, c + 1, IsNotLineTerminator))
    else None
  }

  /** Where the scan looks for the tail: after the group's close when the group closes, else right after the next hop. */
  function TailPosition(line: string, b: nat): (x: nat)
    requires b <= |line|
    ensures b <= x <= |line|
  {
    var group := GroupClose(line, b);
    if group.Some? then group.value + 1 else b
  }

  /**
   * `line.match(/^\s+([0-9.]+)(?:\s+\(.*\))?\s+from\s+([0-9.]+)\s+\(([0-9.]+)\)/)`,
   * e.g. `    81.228.69.237 (metric 2000) from 81.228.63.47 (81.228.65.237)`.
   */
  function MatchFromLine(line: string): (m: Option<FromMatch>)
    ensures m.Some? ==> m.value.nextHop != "" && m.value.peerIp != "" && m.value.routerId != ""
  {
    var a := SpanEnd(line, 0, IsJsSpace);
    var b := SpanEnd(line, a, IsDotDigit);
    if a == 0 || b == a then None
    else
      WithTail(line[a..b], FromTail(line, TailPosition(line, b)))
  }

  /** The from-line's match once its next hop `hop` and the tail's captures are known. */
  function WithTail(hop: string, tail: Option<(string, string)>): (m: Option<FromMatch>)
    requires hop != "" && (tail.Some? ==> tail.value.0 != "" && tail.value.1 != "")
    ensures m.Some? ==> m.value.nextHop != "" && m.value.peerIp != "" && m.value.routerId != ""
  {
    match tail
    case None => None
    case Some(caps) => Some(FromMatch(hop, caps.0, caps.1))
  }

  /** A line that opens a record: a path header or a from-line. */
  predicate IsBoundary(line: string) {
    IsPathHeader(line) || MatchFromLine(line).Some?
  }

  /** No line is both a path header and a from-line, so the two boundary kinds never compete. */
  lemma HeaderNotFromLine(line: string)
    requires IsPathHeader(line)
    ensures MatchFromLine(line) == None
  {
    var a := SpanEnd(line, 0, IsJsSpace);
    assert UpperAscii(line[a + 0]) == UpperAscii("Path"[0]);
    assert !IsDotDigit(line[a]);
  }

  /** The origin expression tried at position `i`: `Origin`, white space, then one of the three codes, all without regard to case. */
  function OriginAt(line: string, i: nat): Option<string>
    requires i <= |line|
  {
    if !MatchesIgnoreCaseAt(line, i, "Origin") then None
    else
      var j := SpanEnd(line, i + 6, IsJsSpace);
      if j == i + 6 then None
      else if MatchesIgnoreCaseAt(line, j, "IGP") then Some(line[j..j + 3])
      else if MatchesIgnoreCaseAt(line, j, "EGP") then Some(line[j..j + 3])
      else if MatchesIgnoreCaseAt(line, j, "Incomplete") then Some(line[j..j + 10])
      else None
  }

  /** The capture spells one of the three origin codes, in whatever letter case the line used. */
  predicate SpellsOriginCode(w: string) {
    (|w| == 3 && MatchesIgnoreCaseAt(w, 0, "IGP"))
    || (|w| == 3 && MatchesIgnoreCaseAt(w, 0, "EGP"))
    || (|w| == 10 && MatchesIgnoreCaseAt(w, 0, "Incomplete"))
  }

  /** The leftmost match of the origin expression at or after position `i`. */
  function OriginFrom(line: string, i: nat): (w: Option<string>)
    requires i <= |line|
    ensures w.Some? ==> SpellsOriginCode(w.value)
    decreases |line| - i
  {
    if OriginAt(line, i).Some? then OriginAt(line, i)
    else if i == |line| then None
    else OriginFrom(line, i + 1)
  }

  /** `line.match(/Origin\s+(IGP|EGP|Incomplete)/i)`, the captured code. */
  function MatchOrigin(line: string): Option<string> {
    OriginFrom(line, 0)
  }

  /** `word`, white space, then a run of digits, tried at position `i`; the value `parseInt` reads from the run. */
  function NumberAt(line: string, i: nat, word: string): Option<nat>
    requires i <= |line|
  {
    if !StartsAt(line, i, word) then None
    else
      var j := SpanEnd(line, i + |word|, IsJsSpace);
      var k := SpanEnd(line, j, IsDigit);
      if j == i + |word| || k == j then None
      else
        assert AllDigits(line[j..k]);
        Some(DigitsValue(line[j..k]))
  }

  /** The leftmost match of `word\s+(\d+)` at or after position `i`. */
  function NumberFrom(line: string, i: nat, word: string): (v: Option<nat>)
    requires i <= |line|
    ensures v.Some? ==> exists t :: i <= t <= |line| && NumberAt(line, t, word) == v
    ensures v.None? ==> forall t :: i <= t <= |line| ==> NumberAt(line, t, word).None?
    decreases |line| - i
  {
    if NumberAt(line, i, word).Some? then NumberAt(line, i, word)
    else if i == |line| then None
    else NumberFrom(line, i + 1, word)
  }

  /** `line.match(/metric\s+(\d+)/)` and its siblings for `localpref` and `weight`, read by `parseInt`. */
  function MatchNumberAfter(line: string, word: string): Option<nat> {
    NumberFrom(line, 0, word)
  }

  predicate AllDigitsOrSpaces(s: string) {
    forall t :: 0 <= t < |s| ==> IsDigitOrSpace(s[t])
  }

  /**
   * The AS path the line before a from-line supplies, if any: the line must be
   * non-empty, and once trimmed must not start with `Path` and must match
   * `/^[0-9\s]+$/`. `None` stands for the missing line before the first one.
   */
  function AsPathCandidate(prev: Option<string>): (path: Option<string>)
    ensures path.Some? <==> (prev.Some? && prev.value != ""
      && var t := Trim(prev.value); t != "" && !StartsWith(t, "Path") && AllDigitsOrSpaces(t))
    ensures path.Some? ==> path.value == Trim(prev.value)
    ensures path.Some? ==> path.value != "" && AllDigitsOrSpaces(path.value)
    ensures path.Some? ==> !IsJsSpace(path.value[0]) && !IsJsSpace(path.value[|path.value| - 1])
  {
    if prev.None? || prev.value == "" then None
    else
      var t := Trim(prev.value);
      if !StartsWith(t, "Path") && t != "" && AllDigitsOrSpaces(t) then Some(t) else None
  }

  /**
   * `!isNaN(Number(x))` for a piece of an AS path. `Number` ignores surrounding white
   * space and reads what remains as a decimal literal, an empty remainder being 0.
   */
  predicate IsNumericToken(x: string) {
    AllDigits(Trim(x))
  }

  /** How many pieces of a split count as AS numbers: non-empty and numeric. */
  function CountNumeric(pieces: seq<string>): (n: nat)
    ensures n <= |pieces|
    decreases |pieces|
  {
    if pieces == [] then 0
    else (if pieces[0] != "" && IsNumericToken(pieces[0]) then 1 else 0) + CountNumeric(pieces[1..])
  }

  /** `asPath.split(' ').filter(x => x && !isNaN(Number(x))).length` */
  function AsPathLength(asPath: string): nat {
    CountNumeric(Split(asPath, ' '))
  }

  /** `/entry for ([0-9./]+)/` tried at position `i`: the captured prefix. */
  function PrefixAt(input: string, i: nat): Option<string>
    requires i <= |input|
  {
    if !StartsAt(input, i, "entry for ") then None
    else
      var e := SpanEnd(input, i + 10, IsPrefixChar);
      if e == i + 10 then None else Some(input[i + 10..e])
  }

  function PrefixFrom(input: string, i: nat): (p: Option<string>)
    requires i <= |input|
    ensures p.Some? ==> exists t :: i <= t <= |input| && PrefixAt(input, t) == p
    ensures p.None? ==> forall t :: i <= t <= |input| ==> PrefixAt(input, t).None?
    decreases |input| - i
  {
    if PrefixAt(input, i).Some? then PrefixAt(input, i)
    else if i == |input| then None
    else PrefixFrom(input, i + 1)
  }

  /** The prefix every record of one parse carries: the first `entry for` capture, else `0.0.0.0/0`. */
  function GlobalPrefix(input: string): (prefix: string)
    ensures prefix != ""
    ensures prefix == "0.0.0.0/0" || exists t :: 0 <= t <= |input| && PrefixAt(input, t) == Some(prefix)
    ensures (forall t :: 0 <= t <= |input| ==> PrefixAt(input, t).None?) ==> prefix == "0.0.0.0/0"
  {
    var m := PrefixFrom(input, 0);
    if m.Some? then m.value else "0.0.0.0/0"
  }

  /** The comma-separated fields of a text, each trimmed: `raw.split(',').map(s => s.trim())`. */
  function TrimmedFields(raw: string): (fields: seq<string>)
    ensures |fields| == |Split(raw, ',')|
    ensures forall t :: 0 <= t < |fields| ==> fields[t] == Trim(Split(raw, ',')[t])
  {
    var parts := Split(raw, ',');
    seq(|parts|, t requires 0 <= t < |parts| => Trim(parts[t]))
  }

  /** The best-path flag read from a record's raw text. */
  predicate MarkedBest(raw: string) {
    Contains(raw, "best,") || Contains(raw, ", best") || "best" in TrimmedFields(raw)
  }
}
