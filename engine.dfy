/**
 * The best-path decision process: nine elimination steps applied in a fixed
 * order to a pool of candidate routes, each step recorded in a trace with the
 * identifiers it kept, the identifiers it eliminated and a reason.
 */
module Engine {
  import opened Wrappers
  import opened Text
  import opened BgpTypes
  import opened Pools
  import opened DottedOrder

  /** The elimination steps of the decision process. */
  datatype Step =
    | Weight
    | LocalPref
    | LocallyOriginated
    | AsPathLength
    | OriginCode
    | Med
    | EbgpOverIbgp
    | IgpMetric
    | RouterId

  /** The steps in the order the process applies them, the Router ID tie-break last. */
  const PIPELINE: seq<Step> :=
    [Weight, LocalPref, LocallyOriginated, AsPathLength, OriginCode, Med, EbgpOverIbgp, IgpMetric, RouterId]

  function StepName(s: Step): string {
    match s
    case Weight => "Weight (Proprietary)"
    case LocalPref => "Local Preference"
    case LocallyOriginated => "Locally Originated"
    case AsPathLength => "AS Path Length"
    case OriginCode => "Origin Code"
    case Med => "MED"
    case EbgpOverIbgp => "eBGP over iBGP"
    case IgpMetric => "IGP Metric to Next Hop"
    case RouterId => "Router ID"
  }

  /** The rank of an origin code by its text: `IGP` first, `EGP` second, anything else last. */
  function OriginScore(o: Origin): (score: nat)
    ensures score <= 2
    ensures score == 0 <==> OriginText(o) == "IGP"
    ensures score == 1 <==> OriginText(o) == "EGP"
  {
    if OriginText(o) == "IGP" then 0 else if OriginText(o) == "EGP" then 1 else 2
  }

  function WeightOf(r: BgpRoute): nat { r.weight }
  function LocalPrefOf(r: BgpRoute): nat { r.localPref }
  function AsPathLengthOf(r: BgpRoute): nat { r.asPathLength }
  function OriginScoreOf(r: BgpRoute): nat { OriginScore(r.origin) }
  function MedOf(r: BgpRoute): nat { r.med }
  function IgpMetricOf(r: BgpRoute): nat { r.igpMetric }

  /** A locally originated path: one whose next hop is `0.0.0.0`. */
  predicate IsLocal(r: BgpRoute) { r.nextHop == "0.0.0.0" }

  predicate IsEbgp(r: BgpRoute) { !r.isIbgp }

  /** `c.some(r => r.nextHop === '0.0.0.0')` */
  predicate HasLocal(pool: seq<BgpRoute>) { exists r :: r in pool && IsLocal(r) }

  /** `c.some(r => !r.isIbgp)` */
  predicate HasEbgp(pool: seq<BgpRoute>) { exists r :: r in pool && IsEbgp(r) }

  /** `c.every(r => !r.isIbgp)` */
  predicate AllEbgp(pool: seq<BgpRoute>) { forall r :: r in pool ==> IsEbgp(r) }

  /** The test a filter that keeps everything applies. */
  predicate AnyRoute(r: BgpRoute) { true }

  /** The filter test `r => key(r) === v`. */
  function ValueIs(key: BgpRoute -> nat, v: nat): BgpRoute -> bool {
    (r: BgpRoute) => key(r) == v
  }

  /**
   * The position the Router ID step's stable sort brings to the front: the first
   * member of the pool whose router identifier no other member's sorts before.
   */
  function LowestRouterId(pool: seq<BgpRoute>): (k: nat)
    requires |pool| > 0
    ensures k < |pool|
    ensures forall j :: 0 <= j < |pool| ==> !DottedLess(pool[j].routerId, pool[k].routerId)
    ensures forall j :: 0 <= j < k ==> DottedLess(pool[k].routerId, pool[j].routerId)
    decreases |pool|
  {
    if |pool| == 1 then
      LexLessIrreflexive(DottedKey(pool[0].routerId));
      0
    else
      var m := LowestRouterId(pool[1..]) + 1;
      var lead, best := DottedKey(pool[0].routerId), DottedKey(pool[m].routerId);
      LexLessIrreflexive(lead);
      if LexLess(best, lead) then
        assert !LexLess(lead, best) by {
          if LexLess(lead, best) {
            LexLessTransitive(lead, best, lead);
            LexLessIrreflexive(lead);
          }
        }
        assert forall j :: 1 <= j < |pool| ==> pool[j] == pool[1..][j - 1];
        m
      else
        assert forall j :: 1 <= j < |pool| ==> !DottedLess(pool[j].routerId, pool[0].routerId) by {
          forall j | 1 <= j < |pool| ensures !DottedLess(pool[j].routerId, pool[0].routerId) {
            assert pool[j] == pool[1..][j - 1];
            LexNotLessTransitive(lead, best, DottedKey(pool[j].routerId));
          }
        }
        0
  }

  /**
   * The candidates a step's filter keeps from a non-empty pool: those with the
   * highest weight or local preference, the locally originated ones when there
   * are any, those with the lowest AS path length, origin rank, MED or IGP
   * metric, the eBGP ones when the pool mixes eBGP and iBGP, and a single route
   * with the lowest router identifier.
   */
  function StepFilter(s: Step, pool: seq<BgpRoute>): (winners: seq<BgpRoute>)
    requires |pool| > 0
    ensures 0 < |winners| <= |pool|
    ensures forall r :: r in winners ==> r in pool
    ensures DistinctIds(pool) ==> DistinctIds(winners)
    ensures s == RouterId ==> |winners| == 1
  {
    match s
    case Weight => KeepByValue(pool, WeightOf, MaxOf(pool, WeightOf))
    case LocalPref => KeepByValue(pool, LocalPrefOf, MaxOf(pool, LocalPrefOf))
    case LocallyOriginated =>
      if !HasLocal(pool) then pool else KeepSome(pool, IsLocal)
    case AsPathLength => KeepByValue(pool, AsPathLengthOf, MinOf(pool, AsPathLengthOf))
    case OriginCode => KeepByValue(pool, OriginScoreOf, MinOf(pool, OriginScoreOf))
    case Med => KeepByValue(pool, MedOf, MinOf(pool, MedOf))
    case EbgpOverIbgp =>
      if !HasEbgp(pool) then pool
      else if AllEbgp(pool) then pool
      else KeepSome(pool, IsEbgp)
    case IgpMetric => KeepByValue(pool, IgpMetricOf, MinOf(pool, IgpMetricOf))
    case RouterId => [pool[LowestRouterId(pool)]]
  }

  /** `pool.filter(p)` where some member passes `p`. */
  function KeepSome(pool: seq<BgpRoute>, p: BgpRoute -> bool): (kept: seq<BgpRoute>)
    requires exists r :: r in pool && p(r)
    ensures 0 < |kept| <= |pool|
    ensures kept == Keep(pool, p)
  {
    var r :| r in pool && p(r);
    assert r in Keep(pool, p);
    Keep(pool, p)
  }

  /** `pool.filter(r => key(r) === v)` where some member has the value `v`. */
  function KeepByValue(pool: seq<BgpRoute>, key: BgpRoute -> nat, v: nat): (kept: seq<BgpRoute>)
    requires exists r :: r in pool && key(r) == v
    ensures 0 < |kept| <= |pool|
    ensures kept == Keep(pool, ValueIs(key, v))
  {
    var r :| r in pool && key(r) == v;
    assert r in Keep(pool, ValueIs(key, v));
    Keep(pool, ValueIs(key, v))
  }

  /** The reason a step records after eliminating `l` in favour of `w`. */
  function FormatReason(s: Step, w: BgpRoute, l: BgpRoute): string {
    match s
    case Weight => "Higher Weight (" + NatToString(w.weight) + " > " + NatToString(l.weight) + ")"
    case LocalPref => "Higher Local Preference (" + NatToString(w.localPref) + " > " + NatToString(l.localPref) + ")"
    case LocallyOriginated => "Locally Originated (Next Hop 0.0.0.0)"
    case AsPathLength => "Shorter AS Path (" + NatToString(w.asPathLength) + " < " + NatToString(l.asPathLength) + ")"
    case OriginCode => "Lower Origin Type (" + OriginText(w.origin) + " < " + OriginText(l.origin) + ")"
    case Med => "Lower MED (" + NatToString(w.med) + " < " + NatToString(l.med) + ")"
    case EbgpOverIbgp => "eBGP Preferred over iBGP"
    case IgpMetric => "Lower IGP Metric (" + NatToString(w.igpMetric) + " < " + NatToString(l.igpMetric) + ")"
    case RouterId => "Lower Router ID (" + w.routerId + " < " + l.routerId + ")"
  }

  /**
   * The test a step's filter amounts to on a given pool: the Router ID step
   * keeps the one identifier its sort brings to the front.
   */
  function Selects(s: Step, pool: seq<BgpRoute>): BgpRoute -> bool
    requires |pool| > 0
  {
    match s
    case Weight => ValueIs(WeightOf, MaxOf(pool, WeightOf))
    case LocalPref => ValueIs(LocalPrefOf, MaxOf(pool, LocalPrefOf))
    case LocallyOriginated =>
      if HasLocal(pool) then IsLocal else AnyRoute
    case AsPathLength => ValueIs(AsPathLengthOf, MinOf(pool, AsPathLengthOf))
    case OriginCode => ValueIs(OriginScoreOf, MinOf(pool, OriginScoreOf))
    case Med => ValueIs(MedOf, MinOf(pool, MedOf))
    case EbgpOverIbgp =>
      if HasEbgp(pool) && !AllEbgp(pool) then IsEbgp
      else AnyRoute
    case IgpMetric => ValueIs(IgpMetricOf, MinOf(pool, IgpMetricOf))
    case RouterId => IdIn({pool[LowestRouterId(pool)].id})
  }

  /** Every step's filter is an order-preserving filter of the pool. */
  lemma FilterIsKeep(s: Step, pool: seq<BgpRoute>)
    requires |pool| > 0 && (s == RouterId ==> DistinctIds(pool))
    ensures StepFilter(s, pool) == Keep(pool, Selects(s, pool))
  {
    if s == RouterId {
      KeepSingleId(pool, LowestRouterId(pool));
    } else {
      OtherFilterIsKeep(s, pool);
    }
  }

  lemma OtherFilterIsKeep(s: Step, pool: seq<BgpRoute>)
    requires |pool| > 0 && s != RouterId
    ensures StepFilter(s, pool) == Keep(pool, Selects(s, pool))
  {
    if s == LocallyOriginated {
      LocalFilterIsKeep(pool);
    } else if s == EbgpOverIbgp {
      EbgpFilterIsKeep(pool);
    }
  }

  lemma LocalFilterIsKeep(pool: seq<BgpRoute>)
    requires |pool| > 0
    ensures StepFilter(LocallyOriginated, pool) == Keep(pool, Selects(LocallyOriginated, pool))
  {
    if HasLocal(pool) {
      assert StepFilter(LocallyOriginated, pool) == KeepSome(pool, IsLocal);
    } else {
      assert Selects(LocallyOriginated, pool) == AnyRoute;
      assert StepFilter(LocallyOriginated, pool) == pool;
      KeepTrue(pool, AnyRoute);
    }
  }

  lemma EbgpFilterIsKeep(pool: seq<BgpRoute>)
    requires |pool| > 0
    ensures StepFilter(EbgpOverIbgp, pool) == Keep(pool, Selects(EbgpOverIbgp, pool))
  {
    if HasEbgp(pool) && !AllEbgp(pool) {
      assert StepFilter(EbgpOverIbgp, pool) == KeepSome(pool, IsEbgp);
    } else {
      assert Selects(EbgpOverIbgp, pool) == AnyRoute;
      assert StepFilter(EbgpOverIbgp, pool) == pool;
      KeepTrue(pool, AnyRoute);
    }
  }

  /** The members a step eliminated: `previousCandidates.filter(c => !winnerIds.has(c.id))`. */
  function Losers(s: Step, pool: seq<BgpRoute>): seq<BgpRoute>
    requires |pool| > 0
  {
    Keep(pool, IdNotIn(IdSet(StepFilter(s, pool))))
  }

  /** The winners and the losers of a step split the pool, each in pool order. */
  lemma StepPartition(s: Step, pool: seq<BgpRoute>)
    requires |pool| > 0 && DistinctIds(pool)
    ensures Interleaves(pool, StepFilter(s, pool), Losers(s, pool))
    ensures |Losers(s, pool)| == |pool| - |StepFilter(s, pool)|
  {
    FilterIsKeep(s, pool);
    KeepLosersPartition(pool, Selects(s, pool));
    InterleavesLength(pool, StepFilter(s, pool), Losers(s, pool));
  }

  /** The candidates after one step: its winners when it eliminated someone, the pool unchanged otherwise. */
  function Eliminate(s: Step, pool: seq<BgpRoute>): (next: seq<BgpRoute>)
    ensures |next| <= |pool|
    ensures |pool| > 0 ==> |next| > 0
    ensures forall r :: r in next ==> r in pool
    ensures DistinctIds(pool) ==> DistinctIds(next)
  {
    if |pool| <= 1 then pool
    else
      var winners := StepFilter(s, pool);
      if |winners| == |pool| then pool else winners
  }

  /** Apart from the Router ID step, a step leaves exactly what its filter keeps. */
  lemma EliminateIsFilter(s: Step, pool: seq<BgpRoute>)
    requires |pool| > 1 && s != RouterId
    ensures Eliminate(s, pool) == StepFilter(s, pool)
  {
    FilterIsKeep(s, pool);
    if |StepFilter(s, pool)| == |pool| {
      KeepAll(pool, Selects(s, pool));
    }
  }

  /** The entry a step adds to the trace; a pool of at most one candidate adds none. */
  function StepEntry(s: Step, pool: seq<BgpRoute>): (entry: Option<StepResult>)
    requires DistinctIds(pool)
    ensures entry.None? <==> |pool| <= 1
  {
    if |pool| <= 1 then None
    else
      var winners := StepFilter(s, pool);
      if |winners| == |pool| then
        Some(StepResult(StepName(s), Ids(winners), [], "Tie"))
      else
        var losers := Losers(s, pool);
        StepPartition(s, pool);
        Some(StepResult(StepName(s), Ids(winners), Ids(losers), FormatReason(s, winners[0], losers[0])))
  }

  function Emitted(s: Step, pool: seq<BgpRoute>): seq<StepResult>
    requires DistinctIds(pool)
  {
    match StepEntry(s, pool)
    case None => []
    case Some(e) => [e]
  }

  /** The candidates left after applying the steps in order. */
  function Survivors(steps: seq<Step>, pool: seq<BgpRoute>): (final: seq<BgpRoute>)
    ensures |final| <= |pool|
    ensures |pool| > 0 ==> |final| > 0
    ensures forall r :: r in final ==> r in pool
    ensures DistinctIds(pool) ==> DistinctIds(final)
    decreases |steps|
  {
    if steps == [] then pool else Survivors(steps[1..], Eliminate(steps[0], pool))
  }

  /** The entries the steps add to the trace, in order. */
  function Trace(steps: seq<Step>, pool: seq<BgpRoute>): (trace: seq<StepResult>)
    requires DistinctIds(pool)
    ensures |trace| <= |steps|
    decreases |steps|
  {
    if steps == [] then []
    else Emitted(steps[0], pool) + Trace(steps[1..], Eliminate(steps[0], pool))
  }

  /** The first entry of every trace: every candidate passes the reachability check. */
  function NextHopStep(routes: seq<BgpRoute>): StepResult {
    StepResult("Next Hop Reachability", Ids(routes), [], "Next Hop must be accessible")
  }

  /** The outcome of the decision process on a list of candidate routes. */
  function Analyze(routes: seq<BgpRoute>): (result: AnalysisResult)
    requires DistinctIds(routes)
    ensures routes == [] ==> result == AnalysisResult(None, [], Some("No routes provided"))
    ensures result.error.Some? <==> routes == []
    ensures result.winner.Some? <==> routes != []
    ensures result.winner.Some? ==> result.winner.value in routes
  {
    if |routes| == 0 then AnalysisResult(None, [], Some("No routes provided"))
    else
      var final := Survivors(PIPELINE, routes);
      AnalysisResult(Some(final[0]), [NextHopStep(routes)] + Trace(PIPELINE, routes), None)
  }

  /** The first pending step runs on the current candidates; the later ones run on what it leaves. */
  lemma RunsFirst(pending: seq<Step>, pool: seq<BgpRoute>, steps: seq<StepResult>, trace: seq<StepResult>, final: seq<BgpRoute>)
    requires pending != [] && DistinctIds(pool)
    requires trace == steps + Trace(pending, pool) && final == Survivors(pending, pool)
    ensures trace == steps + Emitted(pending[0], pool) + Trace(pending[1..], Eliminate(pending[0], pool))
    ensures final == Survivors(pending[1..], Eliminate(pending[0], pool))
  {
    var head, rest := Emitted(pending[0], pool), Trace(pending[1..], Eliminate(pending[0], pool));
    assert Trace(pending, pool) == head + rest;
    assert steps + (head + rest) == steps + head + rest;
  }

  lemma AnalyzeNonEmpty(routes: seq<BgpRoute>)
    requires DistinctIds(routes) && routes != []
    ensures Analyze(routes)
      == AnalysisResult(Some(Survivors(PIPELINE, routes)[0]), [NextHopStep(routes)] + Trace(PIPELINE, routes), None)
  {
  }

  /** One step of the process: filters the candidates and appends the step's entry. */
  method RecordStep(s: Step, candidates: seq<BgpRoute>, steps: seq<StepResult>)
    returns (nextCandidates: seq<BgpRoute>, nextSteps: seq<StepResult>)
    requires DistinctIds(candidates)
    ensures nextCandidates == Eliminate(s, candidates)
    ensures nextSteps == steps + Emitted(s, candidates)
  {
    nextCandidates, nextSteps := candidates, steps;
    if |candidates| <= 1 {
      return;
    }
    var previousCandidates := candidates;
    var winners := StepFilter(s, candidates);
    if |winners| == |candidates| {
      nextSteps := steps + [StepResult(StepName(s), Ids(winners), [], "Tie")];
      return;
    }
    var winnerIds := IdSet(winners);
    var losers := Keep(previousCandidates, IdNotIn(winnerIds));
    nextCandidates := winners;
    StepPartition(s, candidates);
    var reason := FormatReason(s, winners[0], losers[0]);
    nextSteps := steps + [StepResult(StepName(s), Ids(winners), Ids(losers), reason)];
  }

  /** Runs the decision process over the candidates; the caller's list is never changed. */
  method CompareRoutes(routes: seq<BgpRoute>) returns (result: AnalysisResult)
    requires DistinctIds(routes)
    ensures result == Analyze(routes)
  {
    if |routes| == 0 {
      return AnalysisResult(None, [], Some("No routes provided"));
    }
    var candidates := routes;
    var steps: seq<StepResult> := [];
    var nextHopStep := StepResult("Next Hop Reachability", [], [], "Next Hop must be accessible");
    nextHopStep := nextHopStep.(winnerIds := Ids(candidates));
    steps := steps + [nextHopStep];
    // The steps still to come, and the trace and candidates the whole process ends with.
    ghost var pending := PIPELINE;
    ghost var trace, final := [NextHopStep(routes)] + Trace(PIPELINE, routes), Survivors(PIPELINE, routes);
    assert steps == [NextHopStep(routes)];
    assert pending[0] == Weight;
    RunsFirst(pending, candidates, steps, trace, final);
    candidates, steps := RecordStep(Weight, candidates, steps);
    pending := pending[1..];
    assert pending[0] == LocalPref;
    RunsFirst(pending, candidates, steps, trace, final);
    candidates, steps := RecordStep(LocalPref, candidates, steps);
    pending := pending[1..];
    assert pending[0] == LocallyOriginated;
    RunsFirst(pending, candidates, steps, trace, final);
    candidates, steps := RecordStep(LocallyOriginated, candidates, steps);
    pending := pending[1..];
    assert pending[0] == AsPathLength;
    RunsFirst(pending, candidates, steps, trace, final);
    candidates, steps := RecordStep(AsPathLength, candidates, steps);
    pending := pending[1..];
    assert pending[0] == OriginCode;
    RunsFirst(pending, candidates, steps, trace, final);
    candidates, steps := RecordStep(OriginCode, candidates, steps);
    pending := pending[1..];
    assert pending[0] == Med;
    RunsFirst(pending, candidates, steps, trace, final);
    candidates, steps := RecordStep(Med, candidates, steps);
    pending := pending[1..];
    assert pending[0] == EbgpOverIbgp;
    RunsFirst(pending, candidates, steps, trace, final);
    candidates, steps := RecordStep(EbgpOverIbgp, candidates, steps);
    pending := pending[1..];
    assert pending[0] == IgpMetric;
    RunsFirst(pending, candidates, steps, trace, final);
    candidates, steps := RecordStep(IgpMetric, candidates, steps);
    pending := pending[1..];
    assert pending[0] == RouterId;
    RunsFirst(pending, candidates, steps, trace, final);
    candidates, steps := RecordStep(RouterId, candidates, steps);
    pending := pending[1..];
    assert pending == [];
    assert trace == steps && final == candidates;
    AnalyzeNonEmpty(routes);
    result := AnalysisResult(Some(candidates[0]), steps, None);
  }
}
