/**
 * What the parser promises about the records it returns: where records begin and
 * end, how many there are, and that every field of a record is what the record's
 * own raw text says (the last mention winning), with the documented defaults.
 */
module ParserProperties {
  import opened Wrappers
  import opened Text
  import opened BgpTypes
  import opened Pools
  import opened LineShapes
  import opened Parsers

  /** The captures of the last from-line among `ls`. */
  function LastFrom(ls: seq<string>): (m: Option<FromMatch>)
    ensures m.Some? ==> m.value.nextHop != "" && m.value.peerIp != "" && m.value.routerId != ""
    decreases |ls|
  {
    if ls == [] then None
    else if MatchFromLine(ls[|ls| - 1]).Some? then MatchFromLine(ls[|ls| - 1])
    else LastFrom(ls[..|ls| - 1])
  }

  /** The origin code of the last `Origin` line among `ls` that names one. */
  function LastOrigin(ls: seq<string>): (o: Option<Origin>)
    ensures o.Some? ==> OriginText(o.value) != ""
    decreases |ls|
  {
    if ls == [] then None
    else
      var line := ls[|ls| - 1];
      if Contains(line, "Origin") && MatchOrigin(line).Some? then Some(ToOrigin(MatchOrigin(line).value))
      else LastOrigin(ls[..|ls| - 1])
  }

  /** The number after `word` on the last `Origin` line among `ls` that has one. */
  function LastNumber(ls: seq<string>, word: string): Option<nat>
    decreases |ls|
  {
    if ls == [] then None
    else
      var line := ls[|ls| - 1];
      if Contains(line, "Origin") && MatchNumberAfter(line, word).Some? then MatchNumberAfter(line, word)
      else LastNumber(ls[..|ls| - 1], word)
  }

  /** The next hop, peer and router identifier fields hold the captures of `m`, or nothing. */
  predicate FromFields(cur: Partial, m: Option<FromMatch>) {
    match m
    case None => cur.nextHop.None? && cur.peerIp.None? && cur.routerId.None?
    case Some(f) => cur.nextHop == Some(f.nextHop) && cur.peerIp == Some(f.peerIp) && cur.routerId == Some(f.routerId)
  }

  /** An AS path as the parser stores it: a non-empty, trimmed run of digits and white space. */
  predicate PathText(path: string) {
    path != "" && AllDigitsOrSpaces(path) && !IsJsSpace(path[0]) && !IsJsSpace(path[|path| - 1])
  }

  /** The from-line fields and the AS path of the open record are what its buffered lines say. */
  predicate FromPartMatches(cur: Partial, buffer: seq<string>) {
    FromFields(cur, LastFrom(buffer)) && (cur.asPath.Some? ==> PathText(cur.asPath.value))
  }

  /** The `Origin`-line fields of the open record are what its buffered lines say. */
  predicate OriginPartMatches(cur: Partial, buffer: seq<string>) {
    cur.origin == LastOrigin(buffer)
    && cur.med == LastNumber(buffer, "metric")
    && cur.localPref == LastNumber(buffer, "localpref")
    && cur.weight == LastNumber(buffer, "weight")
  }

  /** The open record's fields are what its buffered lines say. */
  predicate FieldsMatch(cur: Partial, buffer: seq<string>) {
    FromPartMatches(cur, buffer) && OriginPartMatches(cur, buffer)
  }

  predicate NoNewlines(ls: seq<string>) {
    forall k :: 0 <= k < |ls| ==> '\n' !in ls[k]
  }

  /** An open record: its buffer starts with the line that opened it, and its fields match the buffer. */
  predicate OpenRecordOk(cur: Partial, buffer: seq<string>) {
    |buffer| >= 1 && IsBoundary(buffer[0]) && NoNewlines(buffer) && FieldsMatch(cur, buffer)
  }

  /** The `Origin`-line fields of a record, read from its lines `ls`. */
  predicate OriginFieldsRead(r: BgpRoute, ls: seq<string>) {
    r.med == LastNumber(ls, "metric").GetOr(0)
    && r.localPref == LastNumber(ls, "localpref").GetOr(100)
    && r.weight == LastNumber(ls, "weight").GetOr(0)
    && r.origin == LastOrigin(ls).GetOr(Incomplete)
  }

  /** The from-line fields of a record, read from its lines `ls`. */
  predicate FromFieldsRead(r: BgpRoute, ls: seq<string>) {
    match LastFrom(ls)
    case Some(f) => r.nextHop == f.nextHop && r.peerIp == f.peerIp && r.routerId == f.routerId
    case None => r.nextHop == "0.0.0.0" && r.peerIp == "" && r.routerId == "0.0.0.0"
  }

  /** The flags of a record, read from its raw text, and the fields no line sets. */
  predicate FlagsRead(r: BgpRoute) {
    r.isIbgp == (Contains(r.rawLine, "internal") && !Contains(r.rawLine, "external"))
    && r.isBest == MarkedBest(r.rawLine)
    && r.igpMetric == 0
    && r.isValid
  }

  /**
   * A finished record agrees with its raw text: the text starts with a boundary line,
   * and every field but the AS path is read from it, with the defaults where it is silent.
   */
  predicate ReadsRaw(r: BgpRoute) {
    var ls := Split(r.rawLine, '\n');
    IsBoundary(ls[0]) && OriginFieldsRead(r, ls) && FromFieldsRead(r, ls) && FlagsRead(r)
  }

  /** The AS path is empty with length 0, or a stored path text whose length counts its numeric pieces. */
  predicate AsPathOk(r: BgpRoute) {
    if r.asPath == "" then r.asPathLength == 0 else PathText(r.asPath) && r.asPathLength == AsPathLength(r.asPath)
  }

  /** The record at position `k` of the parser's output. */
  predicate RecordOk(r: BgpRoute, k: nat) {
    r.index == k && r.id == k && ReadsRaw(r) && AsPathOk(r)
  }

  predicate RoutesOk(routes: seq<BgpRoute>) {
    forall k :: 0 <= k < |routes| ==> RecordOk(routes[k], k)
  }

  predicate StateOk(st: ScanState) {
    RoutesOk(st.routes) && (st.current.Some? ==> OpenRecordOk(st.current.value, st.buffer))
  }

  /** Finishing an open record yields a record that reads its raw text. */
  lemma FinalizeReadsRaw(cur: Partial, buffer: seq<string>, index: nat)
    requires OpenRecordOk(cur, buffer)
    ensures ReadsRaw(Finalize(cur, buffer, index))
  {
    var r := Finalize(cur, buffer, index);
    SplitJoin(buffer, '\n');
    assert Split(r.rawLine, '\n') == buffer;
    FinalizeOriginFields(cur, buffer, index);
    FinalizeFromFields(cur, buffer, index);
    FinalizeFlags(cur, buffer, index);
  }

  lemma FinalizeFlags(cur: Partial, buffer: seq<string>, index: nat)
    ensures FlagsRead(Finalize(cur, buffer, index))
  {
  }

  lemma FinalizeOriginFields(cur: Partial, buffer: seq<string>, index: nat)
    requires OriginPartMatches(cur, buffer)
    ensures OriginFieldsRead(Finalize(cur, buffer, index), buffer)
  {
  }

  lemma FinalizeFromFields(cur: Partial, buffer: seq<string>, index: nat)
    requires FromFields(cur, LastFrom(buffer))
    ensures FromFieldsRead(Finalize(cur, buffer, index), buffer)
  {
    var r := Finalize(cur, buffer, index);
    assert r.nextHop == OrElse(cur.nextHop, "0.0.0.0") && r.peerIp == OrElse(cur.peerIp, "")
      && r.routerId == OrElse(cur.routerId, "0.0.0.0");
  }

  /** Finishing an open record gives it its position, and an AS path that is either absent or stored text. */
  lemma FinalizeAsPath(cur: Partial, buffer: seq<string>, index: nat)
    requires cur.asPath.Some? ==> PathText(cur.asPath.value)
    ensures var r := Finalize(cur, buffer, index);
      r.index == index && r.id == index && AsPathOk(r)
  {
    var r := Finalize(cur, buffer, index);
    var path := OrElse(cur.asPath, "");
    assert r.asPath == path;
    assert r.asPathLength == if path == "" then 0 else AsPathLength(path);
    assert path != "" ==> PathText(path);
  }

  lemma ClosedOk(st: ScanState)
    requires StateOk(st)
    ensures RoutesOk(Closed(st))
  {
    if st.current.Some? {
      var r := Finalize(st.current.value, st.buffer, |st.routes|);
      FinalizeReadsRaw(st.current.value, st.buffer, |st.routes|);
      FinalizeAsPath(st.current.value, st.buffer, |st.routes|);
      assert RecordOk(r, |st.routes|);
      assert Closed(st) == st.routes + [r];
    }
  }

  /** Stamping a prefix on a record changes nothing its consistency depends on. */
  lemma StampedRecordOk(r: BgpRoute, k: nat, prefix: string)
    requires RecordOk(r, k)
    ensures RecordOk(r.(prefix := prefix), k)
  {
    var s := r.(prefix := prefix);
    assert s.rawLine == r.rawLine && s.asPath == r.asPath && s.asPathLength == r.asPathLength;
    assert OriginFieldsRead(s, Split(s.rawLine, '\n'));
    assert FromFieldsRead(s, Split(s.rawLine, '\n'));
    assert FlagsRead(s);
  }

  /** Stamping the dump's prefix on every record keeps each one consistent at its position. */
  lemma StampedOk(routes: seq<BgpRoute>, prefix: string)
    requires RoutesOk(routes)
    ensures forall k :: 0 <= k < |routes| ==>
      RecordOk(WithPrefix(routes, prefix)[k], k) && WithPrefix(routes, prefix)[k].prefix == prefix
  {
    var stamped := WithPrefix(routes, prefix);
    forall k | 0 <= k < |routes|
      ensures RecordOk(stamped[k], k) && stamped[k].prefix == prefix
    {
      StampedRecordOk(routes[k], k, prefix);
    }
  }

  /** The last from-line of a buffer grown by one line. */
  lemma LastFromGrown(buffer: seq<string>, line: string)
    ensures LastFrom(buffer + [line]) == if MatchFromLine(line).Some? then MatchFromLine(line) else LastFrom(buffer)
  {
    var grown := buffer + [line];
    assert grown[..|grown| - 1] == buffer;
  }

  /** The last origin code of a buffer grown by one line. */
  lemma LastOriginGrown(buffer: seq<string>, line: string)
    ensures LastOrigin(buffer + [line]) ==
      if Contains(line, "Origin") && MatchOrigin(line).Some? then Some(ToOrigin(MatchOrigin(line).value)) else LastOrigin(buffer)
  {
    var grown := buffer + [line];
    assert grown[..|grown| - 1] == buffer;
  }

  /** The last number after `word` in a buffer grown by one line. */
  lemma LastNumberGrown(buffer: seq<string>, line: string, word: string)
    ensures LastNumber(buffer + [line], word) ==
      if Contains(line, "Origin") && MatchNumberAfter(line, word).Some? then MatchNumberAfter(line, word) else LastNumber(buffer, word)
  {
    var grown := buffer + [line];
    assert grown[..|grown| - 1] == buffer;
  }

  /** A from-line's captures and AS path keep the from-line fields in step with the grown buffer. */
  lemma FillMatches(cur: Partial, buffer: seq<string>, line: string, prev: Option<string>)
    requires FromPartMatches(cur, buffer)
    ensures var m := MatchFromLine(line);
      FromPartMatches(if m.Some? then FillFrom(cur, m.value, prev) else cur, buffer + [line])
  {
    LastFromGrown(buffer, line);
    FillFieldsMatch(cur, LastFrom(buffer), MatchFromLine(line), LastFrom(buffer + [line]), prev);
  }

  /** The from-line fields, given only the last capture before the line (`before`), the line's own (`m`) and the result. */
  lemma FillFieldsMatch(cur: Partial, before: Option<FromMatch>, m: Option<FromMatch>, grown: Option<FromMatch>, prev: Option<string>)
    requires FromFields(cur, before) && (cur.asPath.Some? ==> PathText(cur.asPath.value))
    requires grown == if m.Some? then m else before
    ensures var filled := if m.Some? then FillFrom(cur, m.value, prev) else cur;
      FromFields(filled, grown) && (filled.asPath.Some? ==> PathText(filled.asPath.value))
  {
  }

  /** An `Origin` line keeps the `Origin`-line fields in step with the grown buffer. */
  lemma OriginLineMatches(cur: Partial, buffer: seq<string>, line: string)
    requires OriginPartMatches(cur, buffer)
    ensures OriginPartMatches(if Contains(line, "Origin") then ScanOriginLine(cur, line) else cur, buffer + [line])
  {
    LastOriginGrown(buffer, line);
    LastNumberGrown(buffer, line, "metric");
    LastNumberGrown(buffer, line, "localpref");
    LastNumberGrown(buffer, line, "weight");
  }

  /** Reading one more line keeps the open record's fields equal to what its lines say. */
  lemma AbsorbMatches(cur: Partial, buffer: seq<string>, line: string, prev: Option<string>)
    requires FieldsMatch(cur, buffer)
    ensures FieldsMatch(Absorb(cur, line, prev), buffer + [line])
  {
    var m := MatchFromLine(line);
    var filled := if m.Some? then FillFrom(cur, m.value, prev) else cur;
    FillMatches(cur, buffer, line, prev);
    assert OriginPartMatches(filled, buffer);
    OriginLineMatches(filled, buffer, line);
    assert FromPartMatches(Absorb(cur, line, prev), buffer + [line]);
  }

  /** The boundary rules keep the records consistent, and leave open either a fresh record at a boundary or the old one. */
  lemma OpenOk(st: ScanState, line: string)
    requires StateOk(st)
    ensures var o := Open(st, line);
      RoutesOk(o.routes)
      && (o.current.Some? ==> (o == st || (o.current.value == Blank && o.buffer == [] && IsBoundary(line))))
  {
    ClosedOk(st);
  }

  lemma ScanLineOk(st: ScanState, line: string, prev: Option<string>)
    requires StateOk(st) && '\n' !in line
    ensures StateOk(ScanLine(st, line, prev))
  {
    OpenOk(st, line);
    var o := Open(st, line);
    if o.current.Some? {
      var cur := o.current.value;
      assert FieldsMatch(cur, o.buffer);
      AbsorbMatches(cur, o.buffer, line, prev);
      var grown := o.buffer + [line];
      assert grown[0] == if o.buffer == [] then line else o.buffer[0];
      assert NoNewlines(grown);
    }
  }

  /** Every state of the scan keeps its records and its open record consistent. */
  lemma {:induction false} ScanOk(lines: seq<string>, n: nat)
    requires n <= |lines| && NoNewlines(lines)
    ensures StateOk(Scan(lines, n))
    decreases n
  {
    if n > 0 {
      ScanOk(lines, n - 1);
      ScanLineOk(Scan(lines, n - 1), lines[n - 1], Previous(lines, n - 1));
    }
  }

  /**
   * Every record of a parse sits at its own position, carries the dump's one prefix,
   * and agrees with its raw text; the last open record is finished like the others.
   */
  lemma ParsedRecords(input: string)
    ensures forall k :: 0 <= k < |ParseSpec(input)| ==>
      RecordOk(ParseSpec(input)[k], k) && ParseSpec(input)[k].prefix == GlobalPrefix(input)
  {
    var lines := Split(input, '\n');
    ScanOk(lines, |lines|);
    var routes := Closed(Scan(lines, |lines|));
    ClosedOk(Scan(lines, |lines|));
    StampedOk(routes, GlobalPrefix(input));
    assert ParseSpec(input) == WithPrefix(routes, GlobalPrefix(input));
  }

  /** A parse never repeats an identifier, so its output is a valid input to the decision process. */
  lemma ParsedIdsDistinct(input: string)
    ensures DistinctIds(ParseSpec(input))
  {
    ParsedRecords(input);
  }

  /** Header lines among the first `n`. */
  function Headers(lines: seq<string>, n: nat): nat
    requires n <= |lines|
  {
    if n == 0 then 0 else Headers(lines, n - 1) + (if IsPathHeader(lines[n - 1]) then 1 else 0)
  }

  /** Boundary lines (headers and from-lines) among the first `n`. */
  function Boundaries(lines: seq<string>, n: nat): nat
    requires n <= |lines|
  {
    if n == 0 then 0 else Boundaries(lines, n - 1) + (if IsBoundary(lines[n - 1]) then 1 else 0)
  }

  /** Records opened so far: the finished ones and the open one. */
  function Opened(st: ScanState): nat {
    |st.routes| + if st.current.Some? then 1 else 0
  }

  /** A header always opens a record; a from-line may; any other line never does, and an open record stays open. */
  lemma ScanLineCount(st: ScanState, line: string, prev: Option<string>)
    ensures IsPathHeader(line) ==> Opened(ScanLine(st, line, prev)) == Opened(st) + 1
    ensures Opened(st) <= Opened(ScanLine(st, line, prev)) <= Opened(st) + if IsBoundary(line) then 1 else 0
    ensures ScanLine(st, line, prev).current.Some? <==> st.current.Some? || IsBoundary(line)
  {
  }

  /** The counting facts about the state after the first `n` lines. */
  predicate CountOk(lines: seq<string>, n: nat, st: ScanState)
    requires n <= |lines|
  {
    Headers(lines, n) <= Opened(st) <= Boundaries(lines, n)
    && (st.current.Some? <==> Boundaries(lines, n) > 0)
  }

  /** One more line keeps the counting facts. */
  lemma CountStep(lines: seq<string>, n: nat)
    requires 0 < n <= |lines| && CountOk(lines, n - 1, Scan(lines, n - 1))
    ensures CountOk(lines, n, Scan(lines, n))
  {
    var st, line, prev := Scan(lines, n - 1), lines[n - 1], Previous(lines, n - 1);
    ScanStep(lines, n);
    ScanLineCount(st, line, prev);
  }

  lemma ScanStep(lines: seq<string>, n: nat)
    requires 0 < n <= |lines|
    ensures Scan(lines, n) == ScanLine(Scan(lines, n - 1), lines[n - 1], Previous(lines, n - 1))
  {
  }

  lemma {:induction false} ScanCount(lines: seq<string>, n: nat)
    requires n <= |lines|
    ensures CountOk(lines, n, Scan(lines, n))
    decreases n
  {
    if n > 0 {
      ScanCount(lines, n - 1);
      CountStep(lines, n);
    }
  }

  /**
   * Every header line yields a record of its own and no record comes without a
   * boundary line; in particular a dump with neither headers nor from-lines parses
   * to no records at all.
   */
  lemma RecordCount(input: string)
    ensures var lines := Split(input, '\n');
      Headers(lines, |lines|) <= |ParseSpec(input)| <= Boundaries(lines, |lines|)
      && (|ParseSpec(input)| == 0 <==> Boundaries(lines, |lines|) == 0)
  {
    var lines := Split(input, '\n');
    ScanCount(lines, |lines|);
  }

  /** Lines before the first boundary are neither buffered nor read. */
  lemma {:induction false} ScanBeforeBoundary(lines: seq<string>, n: nat)
    requires n <= |lines| && Boundaries(lines, n) == 0
    ensures Scan(lines, n) == Start
    decreases n
  {
    if n > 0 {
      ScanBeforeBoundary(lines, n - 1);
    }
  }

  /** A path header always finishes the open record, if any, and opens a new one with the header as its first line. */
  lemma HeaderOpensRecord(st: ScanState, line: string, prev: Option<string>)
    requires IsPathHeader(line)
    ensures var next := ScanLine(st, line, prev);
      next.routes == Closed(st) && next.buffer == [line] && next.current.Some?
  {
  }

  /** The boundary rules at a from-line: a fresh record unless the open one still lacks a next hop. */
  lemma OpenAtFromLine(st: ScanState, line: string)
    requires MatchFromLine(line).Some?
    ensures Open(st, line) ==
      if st.current.Some? && !HasNextHop(st.current.value) then st else ScanState(Closed(st), Some(Blank), [])
  {
    if IsPathHeader(line) {
      HeaderNotFromLine(line);
      assert false;
    }
  }

  /** An `Origin` line sets none of the from-line fields. */
  lemma OriginLineKeepsFrom(cur: Partial, line: string)
    ensures ScanOriginLine(cur, line).nextHop == cur.nextHop && ScanOriginLine(cur, line).asPath == cur.asPath
  {
  }

  /** Reading a from-line takes its next hop, and the AS path the line before it offers, if any. */
  lemma AbsorbFromLine(cur: Partial, line: string, prev: Option<string>)
    requires MatchFromLine(line).Some?
    ensures Absorb(cur, line, prev).nextHop == Some(MatchFromLine(line).value.nextHop)
    ensures Absorb(cur, line, prev).asPath ==
      if AsPathCandidate(prev).Some? then AsPathCandidate(prev) else cur.asPath
  {
    var filled := FillFrom(cur, MatchFromLine(line).value, prev);
    OriginLineKeepsFrom(filled, line);
    assert Absorb(cur, line, prev) == if Contains(line, "Origin") then ScanOriginLine(filled, line) else filled;
  }

  /**
   * A from-line opens a new record when none is open or the open one already has a
   * next hop; otherwise it completes the open record. Either way its next hop is taken.
   */
  lemma FromLineOpensRecord(st: ScanState, line: string, prev: Option<string>)
    requires MatchFromLine(line).Some?
    ensures st.current.None? || HasNextHop(st.current.value) ==>
      var next := ScanLine(st, line, prev);
      next.routes == Closed(st) && next.buffer == [line] && next.current.Some?
      && next.current.value.nextHop == Some(MatchFromLine(line).value.nextHop)
    ensures st.current.Some? && !HasNextHop(st.current.value) ==>
      var next := ScanLine(st, line, prev);
      next.routes == st.routes && next.buffer == st.buffer + [line] && next.current.Some?
      && next.current.value.nextHop == Some(MatchFromLine(line).value.nextHop)
  {
    var o := Open(st, line);
    OpenAtFromLine(st, line);
    var cur := o.current.value;
    AbsorbFromLine(cur, line, prev);
    ScanInsideRecord(st, line, prev);
    if st.current.Some? && !HasNextHop(st.current.value) {
      assert o == st;
    } else {
      assert o == ScanState(Closed(st), Some(Blank), []);
    }
  }

  /** Inside a record, a line is buffered and read into the record the boundary rules leave open. */
  lemma ScanInsideRecord(st: ScanState, line: string, prev: Option<string>)
    requires Open(st, line).current.Some?
    ensures var o := Open(st, line);
      ScanLine(st, line, prev) == ScanState(o.routes, Some(Absorb(o.current.value, line, prev)), o.buffer + [line])
  {
  }

  /** Any other line is skipped outside a record and buffered inside one, finishing nothing. */
  lemma OtherLineContinues(st: ScanState, line: string, prev: Option<string>)
    requires !IsBoundary(line)
    ensures st.current.None? ==> ScanLine(st, line, prev) == st
    ensures st.current.Some? ==>
      var next := ScanLine(st, line, prev);
      next.routes == st.routes && next.buffer == st.buffer + [line] && next.current.Some?
  {
  }

  /** A from-line takes its AS path from the line before it when that line is a path; otherwise the path is kept. */
  lemma AsPathBacktrack(st: ScanState, line: string, prev: Option<string>)
    requires MatchFromLine(line).Some?
    ensures var next := ScanLine(st, line, prev);
      next.current.Some?
      && next.current.value.asPath == (
        if AsPathCandidate(prev).Some? then AsPathCandidate(prev)
        else if st.current.Some? && !HasNextHop(st.current.value) then st.current.value.asPath
        else None)
  {
    var o := Open(st, line);
    OpenAtFromLine(st, line);
    AbsorbFromLine(o.current.value, line, prev);
    ScanInsideRecord(st, line, prev);
  }

  /** The AS path's filter `x => x && !isNaN(Number(x))`: the piece is non-empty and numeric. */
  predicate Kept(x: string) {
    x != "" && IsNumericToken(x)
  }

  /** The positions of the pieces that `keep` holds of. */
  function KeptIndices(keep: string -> bool, pieces: seq<string>): set<nat> {
    set k: nat | k < |pieces| && keep(pieces[k])
  }

  /** Counting the pieces of a concatenation counts each part. */
  lemma {:induction false} CountNumericAppend(a: seq<string>, b: seq<string>)
    ensures CountNumeric(a + b) == CountNumeric(a) + CountNumeric(b)
    decreases |a|
  {
    if a == [] {
      assert a + b == b;
    } else {
      assert (a + b)[0] == a[0];
      assert (a + b)[1..] == a[1..] + b;
      CountNumericAppend(a[1..], b);
    }
  }

  /** The count is the length of the filtered split: the number of pieces the filter keeps. */
  lemma {:induction false} CountNumericIndices(pieces: seq<string>)
    ensures CountNumeric(pieces) == |KeptIndices(Kept, pieces)|
    decreases |pieces|
  {
    if pieces != [] {
      var n := |pieces| - 1;
      var init := pieces[..n];
      assert pieces == init + [pieces[n]];
      CountNumericAppend(init, [pieces[n]]);
      CountNumericIndices(init);
      assert [pieces[n]][1..] == [];
      KeptIndicesGrow(Kept, pieces);
    }
  }

  /** `asPathLength` is the length of the AS path's split filtered by `x => x && !isNaN(Number(x))`. */
  lemma AsPathLengthFilters(asPath: string)
    ensures AsPathLength(asPath) == |KeptIndices(Kept, Split(asPath, ' '))|
  {
    CountNumericIndices(Split(asPath, ' '));
  }

  /** The kept positions of a split are those of all but its last piece, and the last one if `keep` holds of it. */
  lemma KeptIndicesGrow(keep: string -> bool, pieces: seq<string>)
    requires pieces != []
    ensures var n := |pieces| - 1;
      |KeptIndices(keep, pieces)| == |KeptIndices(keep, pieces[..n])| + (if keep(pieces[n]) then 1 else 0)
  {
    var n := |pieces| - 1;
    var s := KeptIndices(keep, pieces[..n]);
    assert n !in s;
    if keep(pieces[n]) {
      assert KeptIndices(keep, pieces) == s + {n};
    } else {
      assert KeptIndices(keep, pieces) == s;
    }
  }

  /** Non-empty pieces of digits are all counted. */
  lemma {:induction false} CountDigitPieces(pieces: seq<string>)
    requires forall k :: 0 <= k < |pieces| ==> pieces[k] != "" && AllDigits(pieces[k])
    ensures CountNumeric(pieces) == |pieces|
    decreases |pieces|
  {
    if pieces != [] {
      DigitsAreNumeric(pieces[0]);
      assert forall k :: 0 <= k < |pieces| - 1 ==> pieces[1..][k] == pieces[k + 1];
      CountDigitPieces(pieces[1..]);
    }
  }

  /** A run of digits is a numeric token: trimming leaves it as it is. */
  lemma DigitsAreNumeric(p: string)
    requires AllDigits(p)
    ensures IsNumericToken(p)
  {
    var t := TrimStart(p);
    assert AllDigits(t) by {
      forall k | 0 <= k < |t| ensures IsDigit(t[k]) {
        assert t[k] == p[|p| - |t| + k];
      }
    }
    var u := TrimEnd(t);
    assert AllDigits(u) by {
      forall k | 0 <= k < |u| ensures IsDigit(u[k]) {
        assert u[k] == t[k];
      }
    }
  }

  /** An AS path of AS numbers separated by single spaces has as many hops as numbers. */
  lemma AsPathLengthCountsNumbers(numbers: seq<string>)
    requires |numbers| >= 1
    requires forall k :: 0 <= k < |numbers| ==> numbers[k] != "" && AllDigits(numbers[k])
    ensures AsPathLength(Join(numbers, ' ')) == |numbers|
  {
    forall k | 0 <= k < |numbers| ensures ' ' !in numbers[k] {
      assert forall j :: 0 <= j < |numbers[k]| ==> numbers[k][j] != ' ';
    }
    SplitJoin(numbers, ' ');
    CountDigitPieces(numbers);
  }
}
