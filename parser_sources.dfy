/**
 * Where a parsed record's from-line fields and AS path come from in the dump: one
 * from-line of the whole input gives the next hop, the peer and the router ID, and
 * the input line right before that from-line gives the AS path when it is one. A
 * record without a from-line keeps the defaults.
 */
module ParserSources {
  import opened Wrappers
  import opened Text
  import opened BgpTypes
  import opened LineShapes
  import opened Parsers
  import opened ParserProperties

  /** The open record's from-line fields and AS path are those of the from-line `lines[j]` and the line before it. */
  predicate SourcedAt(lines: seq<string>, j: nat, cur: Partial)
    requires j < |lines|
  {
    MatchFromLine(lines[j]).Some?
    && var m := MatchFromLine(lines[j]).value;
    cur.nextHop == Some(m.nextHop) && cur.peerIp == Some(m.peerIp) && cur.routerId == Some(m.routerId)
    && cur.asPath == AsPathCandidate(Previous(lines, j))
  }

  /** The open record has read none of the from-line fields. */
  predicate Unsourced(cur: Partial) {
    cur.nextHop.None? && cur.peerIp.None? && cur.routerId.None? && cur.asPath.None?
  }

  /** The open record after the first `n` lines: no from-line read yet, or one of those lines is its source. */
  predicate OpenSourced(lines: seq<string>, n: nat, cur: Partial)
    requires n <= |lines|
  {
    Unsourced(cur) || exists j: nat :: j < n && SourcedAt(lines, j, cur)
  }

  /** The finished record's from-line fields and AS path are those of the from-line `lines[j]` and the line before it. */
  predicate RouteSourcedAt(lines: seq<string>, j: nat, r: BgpRoute)
    requires j < |lines|
  {
    MatchFromLine(lines[j]) == Some(FromMatch(r.nextHop, r.peerIp, r.routerId))
    && r.asPath == OrElse(AsPathCandidate(Previous(lines, j)), "")
  }

  /** A finished record either has a from-line of the dump as its source or carries the defaults. */
  predicate RouteSourced(lines: seq<string>, r: BgpRoute) {
    (r.nextHop == "0.0.0.0" && r.peerIp == "" && r.routerId == "0.0.0.0" && r.asPath == "")
    || exists j: nat :: j < |lines| && RouteSourcedAt(lines, j, r)
  }

  predicate SourcedOk(lines: seq<string>, n: nat, st: ScanState)
    requires n <= |lines|
  {
    (forall k :: 0 <= k < |st.routes| ==> RouteSourced(lines, st.routes[k]))
    && (st.current.Some? ==> OpenSourced(lines, n, st.current.value))
  }

  /** Finishing a record keeps its source, with the defaults for what it never read. */
  lemma FinalizeSourced(lines: seq<string>, n: nat, cur: Partial, buffer: seq<string>, index: nat)
    requires n <= |lines| && OpenSourced(lines, n, cur)
    ensures RouteSourced(lines, Finalize(cur, buffer, index))
  {
    var r := Finalize(cur, buffer, index);
    if !Unsourced(cur) {
      var j: nat :| j < n && SourcedAt(lines, j, cur);
      assert RouteSourcedAt(lines, j, r);
    }
  }

  lemma ClosedSourced(lines: seq<string>, n: nat, st: ScanState)
    requires n <= |lines| && SourcedOk(lines, n, st)
    ensures forall k :: 0 <= k < |Closed(st)| ==> RouteSourced(lines, Closed(st)[k])
  {
    if st.current.Some? {
      FinalizeSourced(lines, n, st.current.value, st.buffer, |st.routes|);
    }
  }

  /** A line that is not a from-line leaves the from-line fields and the AS path as they were. */
  lemma AbsorbKeepsSource(cur: Partial, line: string, prev: Option<string>)
    requires MatchFromLine(line).None?
    ensures var next := Absorb(cur, line, prev);
      next.nextHop == cur.nextHop && next.peerIp == cur.peerIp && next.routerId == cur.routerId
      && next.asPath == cur.asPath
  {
  }

  /** A from-line read into a record that has no from-line fields yet becomes its source. */
  lemma AbsorbTakesSource(cur: Partial, line: string, prev: Option<string>)
    requires MatchFromLine(line).Some? && Unsourced(cur)
    ensures var next := Absorb(cur, line, prev); var m := MatchFromLine(line).value;
      next.nextHop == Some(m.nextHop) && next.peerIp == Some(m.peerIp) && next.routerId == Some(m.routerId)
      && next.asPath == AsPathCandidate(prev)
  {
    var filled := FillFrom(cur, MatchFromLine(line).value, prev);
    assert Absorb(cur, line, prev) == if Contains(line, "Origin") then ScanOriginLine(filled, line) else filled;
  }

  /** At a from-line the record the boundary rules leave open has read no from-line fields. */
  lemma OpenAtFromLineUnsourced(lines: seq<string>, n: nat, st: ScanState, line: string)
    requires n <= |lines| && SourcedOk(lines, n, st) && MatchFromLine(line).Some?
    ensures Open(st, line).current.Some? && Unsourced(Open(st, line).current.value)
  {
    OpenAtFromLine(st, line);
    if st.current.Some? && !Unsourced(st.current.value) {
      SourcedHasNextHop(lines, n, st.current.value);
    }
  }

  /** A record that has read a from-line has a next hop, so the next from-line starts a new record. */
  lemma SourcedHasNextHop(lines: seq<string>, n: nat, cur: Partial)
    requires n <= |lines| && OpenSourced(lines, n, cur) && !Unsourced(cur)
    ensures HasNextHop(cur)
  {
    var j: nat :| j < n && SourcedAt(lines, j, cur);
  }

  /** Line `n - 1` keeps every record's source. */
  lemma SourcedStep(lines: seq<string>, n: nat)
    requires 0 < n <= |lines| && SourcedOk(lines, n - 1, Scan(lines, n - 1))
    ensures SourcedOk(lines, n, Scan(lines, n))
  {
    var st, line, prev := Scan(lines, n - 1), lines[n - 1], Previous(lines, n - 1);
    ScanStep(lines, n);
    var o := Open(st, line);
    ClosedSourced(lines, n - 1, st);
    assert o.routes == st.routes || o.routes == Closed(st);
    if o.current.Some? {
      ScanInsideRecord(st, line, prev);
      var cur := o.current.value;
      var next := Absorb(cur, line, prev);
      if MatchFromLine(line).Some? {
        OpenAtFromLineUnsourced(lines, n - 1, st, line);
        AbsorbTakesSource(cur, line, prev);
        assert SourcedAt(lines, n - 1, next);
      } else {
        AbsorbKeepsSource(cur, line, prev);
        OpenKeepsSource(lines, n - 1, st, line);
        if !Unsourced(cur) {
          var j: nat :| j < n - 1 && SourcedAt(lines, j, cur);
          assert SourcedAt(lines, j, next);
        }
      }
    }
  }

  /** Away from a from-line, the record the boundary rules leave open is fresh or the old one. */
  lemma OpenKeepsSource(lines: seq<string>, n: nat, st: ScanState, line: string)
    requires n <= |lines| && SourcedOk(lines, n, st) && MatchFromLine(line).None?
    ensures Open(st, line).current.Some? ==> OpenSourced(lines, n, Open(st, line).current.value)
  {
  }

  lemma {:induction false} ScanSourced(lines: seq<string>, n: nat)
    requires n <= |lines|
    ensures SourcedOk(lines, n, Scan(lines, n))
    decreases n
  {
    if n > 0 {
      ScanSourced(lines, n - 1);
      SourcedStep(lines, n);
    }
  }

  /**
   * Every parsed record takes its next hop, peer and router ID from one from-line of
   * the dump, and its AS path from the input line right before that from-line when
   * that line, trimmed, is digits and spaces not starting with `Path`; a record with
   * no from-line keeps the defaults.
   */
  lemma ParsedSources(input: string)
    ensures var lines := Split(input, '\n');
      forall k :: 0 <= k < |ParseSpec(input)| ==> RouteSourced(lines, ParseSpec(input)[k])
  {
    var lines := Split(input, '\n');
    ScanSourced(lines, |lines|);
    var routes := Closed(Scan(lines, |lines|));
    ClosedSourced(lines, |lines|, Scan(lines, |lines|));
    assert ParseSpec(input) == WithPrefix(routes, GlobalPrefix(input));
    forall k | 0 <= k < |routes| ensures RouteSourced(lines, ParseSpec(input)[k]) {
      StampedSourced(lines, routes[k], GlobalPrefix(input));
    }
  }

  /** Stamping the dump's prefix leaves a record's source alone. */
  lemma StampedSourced(lines: seq<string>, r: BgpRoute, prefix: string)
    requires RouteSourced(lines, r)
    ensures RouteSourced(lines, r.(prefix := prefix))
  {
    if !(r.nextHop == "0.0.0.0" && r.peerIp == "" && r.routerId == "0.0.0.0" && r.asPath == "") {
      var j: nat :| j < |lines| && RouteSourcedAt(lines, j, r);
      assert RouteSourcedAt(lines, j, r.(prefix := prefix));
    }
  }
}
