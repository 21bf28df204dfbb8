/**
 * The route-dump parser: one top-to-bottom pass over the lines of the dump, whose
 * only state is the list of finished records, the record being read (if any) and
 * the buffer of that record's lines.
 */
module Parsers {
  import opened Wrappers
  import opened Text
  import opened BgpTypes
  import opened LineShapes

  /**
   * The fields of the record being read (`Partial<BgpRoute>`); `None` is a field no
   * line has supplied. The parser never assigns `isIbgp` or `igpMetric` to it, so
   * they are absent here.
   */
  datatype Partial = Partial(
    nextHop: Option<string>,
    peerIp: Option<string>,
    routerId: Option<string>,
    asPath: Option<string>,
    origin: Option<Origin>,
    med: Option<nat>,
    localPref: Option<nat>,
    weight: Option<nat>)

  /** The empty record `{}`. */
  const Blank: Partial := Partial(None, None, None, None, None, None, None, None)

  /** `value || fallback` for an optional text: a missing or empty value gives way to the fallback. */
  function OrElse(value: Option<string>, fallback: string): string {
    if value.Some? && value.value != "" then value.value else fallback
  }

  /** The truthiness test `currentRoute.nextHop` that decides whether a from-line starts a new record. */
  predicate HasNextHop(cur: Partial) {
    cur.nextHop.Some? && cur.nextHop.value != ""
  }

  /**
   * `pushRoute`: the finished record built from the open one, its buffered lines and
   * its position among the records. The source draws a random identifier; here the
   * identifier is the position, like `index`.
   */
  function Finalize(cur: Partial, buffer: seq<string>, index: nat): BgpRoute {
    var raw := Join(buffer, '\n');
    // `isIbgp` starts false; the `internal` test may set it, and the later `external` test clears it.
    var isIbgp := if Contains(raw, "external") then false else Contains(raw, "internal");
    BgpRoute(
      id := index,
      index := index,
      prefix := "unknown",
      nextHop := OrElse(cur.nextHop, "0.0.0.0"),
      localPref := cur.localPref.GetOr(100),
      weight := cur.weight.GetOr(0),
      med := cur.med.GetOr(0),
      asPath := OrElse(cur.asPath, ""),
      asPathLength := if cur.asPath.Some? && cur.asPath.value != "" then AsPathLength(cur.asPath.value) else 0,
      origin := if cur.origin.Some? && OriginText(cur.origin.value) != "" then cur.origin.value else Incomplete,
      isIbgp := isIbgp,
      igpMetric := 0,
      routerId := OrElse(cur.routerId, "0.0.0.0"),
      peerIp := OrElse(cur.peerIp, ""),
      rawLine := raw,
      isValid := true,
      isBest := MarkedBest(raw))
  }

  /** The parser's state between two lines. */
  datatype ScanState = ScanState(routes: seq<BgpRoute>, current: Option<Partial>, buffer: seq<string>)

  const Start: ScanState := ScanState([], None, [])

  /** `if (currentRoute) pushRoute()`: the records once the open one, if any, is finished. */
  function Closed(st: ScanState): seq<BgpRoute> {
    if st.current.Some? then st.routes + [Finalize(st.current.value, st.buffer, |st.routes|)] else st.routes
  }

  /** The record-boundary rules applied to one line, before the line itself is read. */
  function Open(st: ScanState, line: string): ScanState {
    if IsPathHeader(line) then ScanState(Closed(st), Some(Blank), [])
    else if MatchFromLine(line).Some? then
      if st.current.Some? && HasNextHop(st.current.value) then ScanState(Closed(st), Some(Blank), [])
      else if st.current.None? then ScanState(st.routes, Some(Blank), [])
      else st
    else st
  }

  /** A from-line's captures, and the AS path the line before it may supply. */
  function FillFrom(cur: Partial, m: FromMatch, prev: Option<string>): Partial {
    var path := AsPathCandidate(prev);
    cur.(nextHop := Some(m.nextHop), peerIp := Some(m.peerIp), routerId := Some(m.routerId),
         asPath := if path.Some? then path else cur.asPath)
  }

  /** An `Origin` line: origin code, `metric`, `localpref` and `weight`, each taken when present. */
  function ScanOriginLine(cur: Partial, line: string): Partial {
    var origin := MatchOrigin(line);
    var metric := MatchNumberAfter(line, "metric");
    var localPref := MatchNumberAfter(line, "localpref");
    var weight := MatchNumberAfter(line, "weight");
    cur.(origin := if origin.Some? then Some(ToOrigin(origin.value)) else cur.origin,
         med := if metric.Some? then metric else cur.med,
         localPref := if localPref.Some? then localPref else cur.localPref,
         weight := if weight.Some? then weight else cur.weight)
  }

  /** What one line of the open record contributes to its fields. */
  function Absorb(cur: Partial, line: string, prev: Option<string>): Partial {
    var m := MatchFromLine(line);
    var filled := if m.Some? then FillFrom(cur, m.value, prev) else cur;
    if Contains(line, "Origin") then ScanOriginLine(filled, line) else filled
  }

  /** One turn of the loop: the boundary rules, then, inside a record, buffering and reading the line. */
  function ScanLine(st: ScanState, line: string, prev: Option<string>): ScanState {
    var o := Open(st, line);
    if o.current.Some? then
      ScanState(o.routes, Some(Absorb(o.current.value, line, prev)), o.buffer + [line])
    else o
  }

  /** `lines[i - 1]`, which is `undefined` for the first line. */
  function Previous(lines: seq<string>, i: nat): Option<string>
    requires i < |lines|
  {
    if i == 0 then None else Some(lines[i - 1])
  }

  /** The state after the first `n` lines. */
  function Scan(lines: seq<string>, n: nat): ScanState
    requires n <= |lines|
    decreases n
  {
    if n == 0 then Start else ScanLine(Scan(lines, n - 1), lines[n - 1], Previous(lines, n - 1))
  }

  /** `routes.map(r => ({ ...r, prefix }))` */
  function WithPrefix(routes: seq<BgpRoute>, prefix: string): (stamped: seq<BgpRoute>)
    ensures |stamped| == |routes|
    ensures forall k :: 0 <= k < |routes| ==> stamped[k] == routes[k].(prefix := prefix)
  {
    seq(|routes|, k requires 0 <= k < |routes| => routes[k].(prefix := prefix))
  }

  /** The records the parser returns for a dump. */
  function ParseSpec(input: string): seq<BgpRoute> {
    var lines := Split(input, '\n');
    WithPrefix(Closed(Scan(lines, |lines|)), GlobalPrefix(input))
  }

  /** `pushRoute`: finish the open record, if there is one, and append it. */
  method PushRoute(routes: seq<BgpRoute>, currentRoute: Option<Partial>, buffer: seq<string>)
    returns (pushed: seq<BgpRoute>)
    ensures pushed == Closed(ScanState(routes, currentRoute, buffer))
  {
    if currentRoute.None? {
      return routes;
    }
    pushed := routes + [Finalize(currentRoute.value, buffer, |routes|)];
  }

  /** The `Origin`-line part of the loop body: each of the four fields is assigned when its pattern matches. */
  method ReadOriginLine(cur: Partial, line: string) returns (next: Partial)
    ensures next == ScanOriginLine(cur, line)
  {
    next := cur;
    var originM := MatchOrigin(line);
    if originM.Some? {
      next := next.(origin := Some(ToOrigin(originM.value)));
    }
    var metricM := MatchNumberAfter(line, "metric");
    if metricM.Some? {
      next := next.(med := metricM);
    }
    var lpM := MatchNumberAfter(line, "localpref");
    if lpM.Some? {
      next := next.(localPref := lpM);
    }
    var weightM := MatchNumberAfter(line, "weight");
    if weightM.Some? {
      next := next.(weight := weightM);
    }
  }

  /** The loop body inside a record: a from-line's captures, the AS path backtrack, then the `Origin` fields. */
  method ReadLine(cur: Partial, line: string, fromMatch: Option<FromMatch>, prev: Option<string>) returns (next: Partial)
    requires fromMatch == MatchFromLine(line)
    ensures next == Absorb(cur, line, prev)
  {
    next := cur;
    if fromMatch.Some? {
      next := next.(nextHop := Some(fromMatch.value.nextHop), peerIp := Some(fromMatch.value.peerIp),
                    routerId := Some(fromMatch.value.routerId));
      if prev.Some? && prev.value != "" {
        var trimmed := Trim(prev.value);
        if !StartsWith(trimmed, "Path") && trimmed != "" && AllDigitsOrSpaces(trimmed) {
          next := next.(asPath := Some(trimmed));
        }
      }
    }
    if Contains(line, "Origin") {
      next := ReadOriginLine(next, line);
    }
  }

  /** `parseCiscoDetailed`: the scan over the dump's lines, as a loop over mutable state. */
  method ParseCiscoDetailed(input: string) returns (routes: seq<BgpRoute>)
    ensures routes == ParseSpec(input)
  {
    routes := [];
    var lines := Split(input, '\n');
    var currentRoute: Option<Partial> := None;
    var buffer: seq<string> := [];
    var globalPrefix := GlobalPrefix(input);
    for i := 0 to |lines|
      invariant ScanState(routes, currentRoute, buffer) == Scan(lines, i)
    {
      ghost var before := ScanState(routes, currentRoute, buffer);
      var line := lines[i];
      var pathMatch := IsPathHeader(line);
      var fromMatch := MatchFromLine(line);
      if pathMatch {
        routes := PushRoute(routes, currentRoute, buffer);
        currentRoute := Some(Blank);
        buffer := [];
      } else if fromMatch.Some? {
        if currentRoute.Some? && HasNextHop(currentRoute.value) {
          routes := PushRoute(routes, currentRoute, buffer);
          currentRoute := Some(Blank);
          buffer := [];
        }
        if currentRoute.None? {
          currentRoute := Some(Blank);
          buffer := [];
        }
      }
      assert ScanState(routes, currentRoute, buffer) == Open(before, line);
      if currentRoute.Some? {
        buffer := buffer + [line];
        var cur := ReadLine(currentRoute.value, line, fromMatch, Previous(lines, i));
        currentRoute := Some(cur);
      }
    }
    routes := PushRoute(routes, currentRoute, buffer);
    routes := WithPrefix(routes, globalPrefix);
  }

  /** `detectVendor`: which dialect a dump looks like; the first marker found decides. */
  function DetectVendor(input: string): (v: Vendor)
    ensures v != Auto && v != Arista
    ensures Contains(input, "BGP routing table entry for") ==> v == Cisco
    ensures v == Juniper <==>
      !Contains(input, "BGP routing table entry for") && Contains(input, "localpref") && Contains(input, "AS path")
    ensures v == Fortigate <==>
      !Contains(input, "BGP routing table entry for") && !(Contains(input, "localpref") && Contains(input, "AS path"))
      && Contains(input, "router info bgp")
  {
    if Contains(input, "BGP routing table entry for") then Cisco
    else if Contains(input, "localpref") && Contains(input, "AS path") then Juniper
    else if Contains(input, "router info bgp") then Fortigate
    else Cisco
  }

  /** `parse`: every dialect, named or detected, is read by the same scan. */
  method Parse(input: string, vendor: Vendor) returns (routes: seq<BgpRoute>)
    ensures routes == ParseSpec(input)
  {
    var v := if vendor == Auto then DetectVendor(input) else vendor;
    if v == Cisco || v == Arista {
      routes := ParseCiscoDetailed(input);
      return;
    }
    routes := ParseCiscoDetailed(input);
  }
}
