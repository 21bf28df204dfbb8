/**
 * What the decision process guarantees: each step keeps exactly the candidates
 * no other candidate beats at that step, the winner is a candidate no other
 * beats under the steps taken in order, ties are broken in favour of the
 * earliest candidate, and the trace accounts for every elimination.
 */
module EngineProperties {
  import opened Wrappers
  import opened Text
  import opened BgpTypes
  import opened Pools
  import opened DottedOrder
  import opened Engine

  /** `a` is strictly preferred to `b` by step `s` alone: the reference definition of each rule. */
  predicate StepBetter(s: Step, a: BgpRoute, b: BgpRoute) {
    match s
    case Weight => a.weight > b.weight
    case LocalPref => a.localPref > b.localPref
    case LocallyOriginated => IsLocal(a) && !IsLocal(b)
    case AsPathLength => a.asPathLength < b.asPathLength
    case OriginCode => OriginScore(a.origin) < OriginScore(b.origin)
    case Med => a.med < b.med
    case EbgpOverIbgp => IsEbgp(a) && !IsEbgp(b)
    case IgpMetric => a.igpMetric < b.igpMetric
    case RouterId => DottedLess(a.routerId, b.routerId)
  }

  /** `a` is preferred to `b` by the steps taken in order: the first step that separates them decides. */
  predicate Better(steps: seq<Step>, a: BgpRoute, b: BgpRoute)
    decreases |steps|
  {
    steps != []
    && (StepBetter(steps[0], a, b) || (!StepBetter(steps[0], b, a) && Better(steps[1..], a, b)))
  }

  /** No member of the pool is strictly preferred to `r` by step `s`. */
  predicate Unbeaten(s: Step, pool: seq<BgpRoute>, r: BgpRoute) {
    forall o :: o in pool ==> !StepBetter(s, o, r)
  }

  /** The Router ID tie-break, which always leaves a single candidate, comes last if at all. */
  predicate TieBreakLast(steps: seq<Step>) {
    forall k :: 0 <= k < |steps| - 1 ==> steps[k] != RouterId
  }

  /** Each step's preference is a strict weak order. */
  lemma StepOrder(s: Step, a: BgpRoute, b: BgpRoute, c: BgpRoute)
    ensures !StepBetter(s, a, a)
    ensures StepBetter(s, a, b) && StepBetter(s, b, c) ==> StepBetter(s, a, c)
    ensures StepBetter(s, a, b) ==> StepBetter(s, a, c) || StepBetter(s, c, b)
  {
    if s == RouterId {
      var ka, kb, kc := DottedKey(a.routerId), DottedKey(b.routerId), DottedKey(c.routerId);
      LexLessIrreflexive(ka);
      if LexLess(ka, kb) && LexLess(kb, kc) {
        LexLessTransitive(ka, kb, kc);
      }
      if !LexLess(ka, kc) && !LexLess(kc, kb) {
        LexNotLessTransitive(kb, kc, ka);
      }
    }
  }

  /** The combined preference is a strict weak order as well. */
  lemma {:induction false} BetterOrder(steps: seq<Step>, a: BgpRoute, b: BgpRoute, c: BgpRoute)
    ensures !Better(steps, a, a)
    ensures Better(steps, a, b) && Better(steps, b, c) ==> Better(steps, a, c)
    decreases |steps|
  {
    if steps != [] {
      var s := steps[0];
      BetterOrder(steps[1..], a, b, c);
      StepOrder(s, a, b, c);
      StepOrder(s, b, c, a);
      StepOrder(s, c, a, b);
    }
  }

  /** A filter keeping the maximal values of a key keeps exactly the members no one exceeds. */
  lemma KeepMax(pool: seq<BgpRoute>, key: BgpRoute -> nat)
    requires |pool| > 0
    ensures forall r ::
      (r in Keep(pool, ValueIs(key, MaxOf(pool, key))) <==> r in pool && forall o :: o in pool ==> key(o) <= key(r))
  {
    var m := MaxOf(pool, key);
    var top :| top in pool && key(top) == m;
  }

  /** A filter keeping the minimal values of a key keeps exactly the members no one undercuts. */
  lemma KeepMin(pool: seq<BgpRoute>, key: BgpRoute -> nat)
    requires |pool| > 0
    ensures forall r ::
      (r in Keep(pool, ValueIs(key, MinOf(pool, key))) <==> r in pool && forall o :: o in pool ==> key(r) <= key(o))
  {
    var m := MinOf(pool, key);
    var low :| low in pool && key(low) == m;
  }

  /** Every step but the Router ID tie-break keeps exactly the candidates that step does not beat. */
  lemma StepFilterUnbeaten(s: Step, pool: seq<BgpRoute>)
    requires |pool| > 0 && s != RouterId
    ensures forall r :: r in StepFilter(s, pool) <==> r in pool && Unbeaten(s, pool, r)
  {
    match s
    case Weight => KeepMax(pool, WeightOf);
    case LocalPref => KeepMax(pool, LocalPrefOf);
    case AsPathLength => KeepMin(pool, AsPathLengthOf);
    case OriginCode => KeepMin(pool, OriginScoreOf);
    case Med => KeepMin(pool, MedOf);
    case IgpMetric => KeepMin(pool, IgpMetricOf);
    case LocallyOriginated =>
    case EbgpOverIbgp =>
  }

  /** The Router ID step keeps one candidate: the earliest whose identifier no other sorts before. */
  lemma RouterIdFilter(pool: seq<BgpRoute>)
    requires |pool| > 0
    ensures exists k ::
      (0 <= k < |pool| && StepFilter(RouterId, pool) == [pool[k]] && Unbeaten(RouterId, pool, pool[k])
       && forall j :: 0 <= j < k ==> StepBetter(RouterId, pool[k], pool[j]))
  {
    var k := LowestRouterId(pool);
    assert StepFilter(RouterId, pool) == [pool[k]];
  }

  /** When the pool offers both eBGP and iBGP paths, only the eBGP ones go on. */
  lemma EbgpPreferred(pool: seq<BgpRoute>)
    requires exists r :: r in pool && IsEbgp(r)
    requires exists r :: r in pool && !IsEbgp(r)
    ensures forall r :: r in StepFilter(EbgpOverIbgp, pool) <==> r in pool && IsEbgp(r)
  {
  }

  /** A locally originated path, when there is one, excludes every other path. */
  lemma LocalPreferred(pool: seq<BgpRoute>)
    requires exists r :: r in pool && IsLocal(r)
    ensures forall r :: r in StepFilter(LocallyOriginated, pool) <==> r in pool && IsLocal(r)
  {
  }

  /** The candidates a step lets through are all tied at that step. */
  lemma EliminateTies(s: Step, pool: seq<BgpRoute>, a: BgpRoute, b: BgpRoute)
    requires a in Eliminate(s, pool) && b in Eliminate(s, pool)
    ensures !StepBetter(s, a, b)
  {
    if |pool| <= 1 || s == RouterId {
      assert a == b;
      StepOrder(s, a, b, b);
    } else {
      EliminateIsFilter(s, pool);
      StepFilterUnbeaten(s, pool);
    }
  }

  /**
   * A candidate a step drops is strictly worse, at that step, than every
   * candidate it keeps; the Router ID step drops only candidates whose
   * identifier does not sort before the one it keeps.
   */
  lemma EliminateBeats(s: Step, pool: seq<BgpRoute>, w: BgpRoute, r: BgpRoute)
    requires w in Eliminate(s, pool) && r in pool && r !in Eliminate(s, pool)
    ensures s != RouterId ==> StepBetter(s, w, r)
    ensures !StepBetter(s, r, w)
  {
    if s == RouterId {
      RouterIdFilter(pool);
    } else {
      StepFilterUnbeaten(s, pool);
      var o :| o in pool && StepBetter(s, o, r);
      StepOrder(s, o, r, w);
      StepOrder(s, w, r, r);
      StepOrder(s, r, w, r);
    }
  }

  /** No candidate is preferred to any survivor of the steps. */
  lemma {:induction false} SurvivorsOptimal(steps: seq<Step>, pool: seq<BgpRoute>, w: BgpRoute, r: BgpRoute)
    requires TieBreakLast(steps)
    requires w in Survivors(steps, pool) && r in pool
    ensures !Better(steps, r, w)
    decreases |steps|
  {
    if steps != [] {
      var s, next := steps[0], Eliminate(steps[0], pool);
      assert TieBreakLast(steps[1..]) by {
        forall k | 0 <= k < |steps[1..]| - 1 ensures steps[1..][k] != RouterId {
          assert steps[1..][k] == steps[k + 1];
        }
      }
      assert w in next;
      if r in next {
        EliminateTies(s, pool, r, w);
        EliminateTies(s, pool, w, r);
        SurvivorsOptimal(steps[1..], next, w, r);
      } else {
        EliminateBeats(s, pool, w, r);
        if s == RouterId {
          assert steps[1..] == [];
        }
      }
    }
  }

  /**
   * Ties go to the earliest candidate: every candidate listed before the first
   * survivor is strictly worse than it under the steps taken in order.
   */
  lemma {:induction false} SurvivorFirst(steps: seq<Step>, pool: seq<BgpRoute>, i: nat, j: nat)
    requires TieBreakLast(steps) && DistinctIds(pool)
    requires j < i < |pool| && pool[i] == Survivors(steps, pool)[0]
    ensures Better(steps, pool[i], pool[j])
    decreases |steps|
  {
    var w := pool[i];
    if steps != [] {
      var s, next := steps[0], Eliminate(steps[0], pool);
      assert TieBreakLast(steps[1..]) by {
        forall k | 0 <= k < |steps[1..]| - 1 ensures steps[1..][k] != RouterId {
          assert steps[1..][k] == steps[k + 1];
        }
      }
      assert w in next by {
        assert Survivors(steps, pool)[0] in Survivors(steps, pool);
      }
      if pool[j] !in next {
        EliminateBeats(s, pool, w, pool[j]);
        if s == RouterId {
          RouterIdFilter(pool);
          var k :| 0 <= k < |pool| && StepFilter(RouterId, pool) == [pool[k]]
            && forall j :: 0 <= j < k ==> StepBetter(RouterId, pool[k], pool[j]);
          assert pool[k] == w;
          assert pool[k].id == pool[i].id;
        }
      } else {
        EliminateTies(s, pool, w, pool[j]);
        EliminateTies(s, pool, pool[j], w);
        if next == pool {
          SurvivorFirst(steps[1..], next, i, j);
        } else {
          FilterIsKeep(s, pool);
          var j', i' := KeepOrder(pool, Selects(s, pool), j, i);
          SurvivorFirst(steps[1..], next, i', j');
        }
      }
    }
  }

  /** Once the Router ID step has run, a single candidate remains. */
  lemma {:induction false} SurvivorsSingle(steps: seq<Step>, pool: seq<BgpRoute>)
    requires RouterId in steps && |pool| > 0
    ensures |Survivors(steps, pool)| == 1
    decreases |steps|
  {
    var next := Eliminate(steps[0], pool);
    if steps[0] == RouterId {
      assert |next| == 1;
      SurvivorsUnchanged(steps[1..], next);
    } else {
      assert RouterId in steps[1..] by {
        var k :| 0 <= k < |steps| && steps[k] == RouterId;
        assert steps[1..][k - 1] == RouterId;
      }
      SurvivorsSingle(steps[1..], next);
    }
  }

  /** No step removes the last candidate. */
  lemma {:induction false} SurvivorsUnchanged(steps: seq<Step>, pool: seq<BgpRoute>)
    requires |pool| == 1
    ensures Survivors(steps, pool) == pool
    decreases |steps|
  {
    if steps != [] {
      SurvivorsUnchanged(steps[1..], pool);
    }
  }

  /**
   * The trace accounts for every elimination: each entry splits the identifiers
   * still in play into those it kept and those it eliminated, in order, and the
   * next entry starts from those it kept.
   */
  predicate Chains(ids: seq<nat>, trace: seq<StepResult>)
    decreases |trace|
  {
    trace == []
    || (Interleaves(ids, trace[0].winnerIds, trace[0].loserIds) && Chains(trace[0].winnerIds, trace[1..]))
  }

  /** The identifiers still in play after the last entry of a trace. */
  function LastWinners(ids: seq<nat>, trace: seq<StepResult>): seq<nat>
    decreases |trace|
  {
    if trace == [] then ids else LastWinners(trace[0].winnerIds, trace[1..])
  }

  /** No reason a step gives for eliminating a candidate reads as a tie. */
  lemma ReasonNotTie(s: Step, w: BgpRoute, l: BgpRoute)
    ensures FormatReason(s, w, l) != "Tie"
  {
    assert FormatReason(s, w, l)[0] != 'T';
  }

  /**
   * The entry of a step that runs: it carries the step's name and the
   * identifiers of the candidates it leaves, its winners and losers split the
   * pool, and it reads "Tie" exactly when it eliminated nobody.
   */
  lemma StepEntryFacts(s: Step, pool: seq<BgpRoute>)
    requires DistinctIds(pool) && |pool| > 1
    ensures StepEntry(s, pool).value.stepName == StepName(s)
    ensures StepEntry(s, pool).value.winnerIds == Ids(Eliminate(s, pool))
    ensures Interleaves(Ids(pool), StepEntry(s, pool).value.winnerIds, StepEntry(s, pool).value.loserIds)
    ensures StepEntry(s, pool).value.reason == "Tie" <==> StepEntry(s, pool).value.loserIds == []
    ensures StepEntry(s, pool).value.loserIds == [] <==> Eliminate(s, pool) == pool
  {
    var winners := StepFilter(s, pool);
    FilterIsKeep(s, pool);
    if |winners| == |pool| {
      KeepAll(pool, Selects(s, pool));
      InterleavesAll(Ids(pool));
    } else {
      StepPartition(s, pool);
      InterleavesIds(pool, winners, Losers(s, pool));
      ReasonNotTie(s, winners[0], Losers(s, pool)[0]);
    }
  }

  /**
   * The reason an eliminating step records compares its first winner with its
   * first loser, and the comparison it states holds: the winner is strictly
   * preferred by that step (for the Router ID step, the loser's identifier
   * does not sort before the winner's).
   */
  lemma ReasonJustified(s: Step, pool: seq<BgpRoute>)
    requires DistinctIds(pool) && |pool| > 1
    requires StepEntry(s, pool).value.reason != "Tie"
    ensures var e := StepEntry(s, pool).value;
      e.winnerIds != [] && e.loserIds != []
      && exists w, l ::
        (w in Eliminate(s, pool) && l in pool && l !in Eliminate(s, pool)
         && e.winnerIds[0] == w.id && e.loserIds[0] == l.id && e.reason == FormatReason(s, w, l)
         && !StepBetter(s, l, w) && (s != RouterId ==> StepBetter(s, w, l)))
  {
    var winners, losers := StepFilter(s, pool), Losers(s, pool);
    StepPartition(s, pool);
    assert |winners| < |pool|;
    var w, l := winners[0], losers[0];
    var e := StepEntry(s, pool).value;
    assert e == StepResult(StepName(s), Ids(winners), Ids(losers), FormatReason(s, w, l));
    assert w in winners && l in losers;
    LosersOutside(pool, winners, l);
    EliminateBeats(s, pool, w, l);
  }

  /** The trace explains the outcome: it chains from the input's identifiers to the survivors' identifiers. */
  lemma {:induction false} TraceExplains(steps: seq<Step>, pool: seq<BgpRoute>)
    requires DistinctIds(pool)
    ensures Chains(Ids(pool), Trace(steps, pool))
    ensures LastWinners(Ids(pool), Trace(steps, pool)) == Ids(Survivors(steps, pool))
    decreases |steps|
  {
    if steps != [] {
      var s, next := steps[0], Eliminate(steps[0], pool);
      TraceExplains(steps[1..], next);
      if |pool| <= 1 {
        assert Trace(steps, pool) == Trace(steps[1..], pool);
      } else {
        StepEntryFacts(s, pool);
        var e := StepEntry(s, pool).value;
        var rest := Trace(steps[1..], next);
        assert Trace(steps, pool) == [e] + rest;
        assert ([e] + rest)[1..] == rest;
      }
    }
  }

  /**
   * On a non-empty list the process names a winner from the list that no other
   * route is preferred to, and every route listed before it is strictly worse.
   */
  lemma AnalyzeWinner(routes: seq<BgpRoute>)
    requires DistinctIds(routes) && routes != []
    ensures Analyze(routes).error == None && Analyze(routes).winner.Some?
    ensures Analyze(routes).winner.value in routes
    ensures forall r :: r in routes ==> !Better(PIPELINE, r, Analyze(routes).winner.value)
    ensures forall i, j ::
      (0 <= j < i < |routes| && routes[i] == Analyze(routes).winner.value ==> Better(PIPELINE, routes[i], routes[j]))
  {
    PipelineTieBreakLast();
    FirstSurvivorBest(PIPELINE, routes);
    AnalyzeFirstSurvivor(routes);
  }

  /** The process's steps end with the tie-break and use it nowhere else. */
  lemma PipelineTieBreakLast()
    ensures TieBreakLast(PIPELINE)
  {
  }

  lemma AnalyzeFirstSurvivor(routes: seq<BgpRoute>)
    requires DistinctIds(routes) && routes != []
    ensures Analyze(routes).winner == Some(Survivors(PIPELINE, routes)[0])
  {
  }

  /** The first survivor of steps ending with the tie-break is preferred to, or as good as and listed before, every route. */
  lemma FirstSurvivorBest(steps: seq<Step>, pool: seq<BgpRoute>)
    requires TieBreakLast(steps) && DistinctIds(pool) && pool != []
    ensures forall r :: r in pool ==> !Better(steps, r, Survivors(steps, pool)[0])
    ensures forall i, j ::
      (0 <= j < i < |pool| && pool[i] == Survivors(steps, pool)[0] ==> Better(steps, pool[i], pool[j]))
  {
    var w := Survivors(steps, pool)[0];
    forall r | r in pool ensures !Better(steps, r, w) {
      SurvivorsOptimal(steps, pool, w, r);
    }
    forall i, j | 0 <= j < i < |pool| && pool[i] == w ensures Better(steps, pool[i], pool[j]) {
      SurvivorFirst(steps, pool, i, j);
    }
  }

  /**
   * The trace of a non-empty list starts with the reachability entry and chains
   * from all the routes' identifiers down to the winner's alone.
   */
  lemma AnalyzeTrace(routes: seq<BgpRoute>)
    requires DistinctIds(routes) && routes != []
    ensures Analyze(routes).steps[0] == NextHopStep(routes)
    ensures Chains(Ids(routes), Analyze(routes).steps)
    ensures LastWinners(Ids(routes), Analyze(routes).steps) == [Analyze(routes).winner.value.id]
  {
    FullTraceExplains(PIPELINE, routes);
  }

  /** With the reachability entry in front, a trace ending in the tie-break chains down to one identifier. */
  lemma FullTraceExplains(steps: seq<Step>, pool: seq<BgpRoute>)
    requires DistinctIds(pool) && pool != [] && RouterId in steps
    ensures Chains(Ids(pool), [NextHopStep(pool)] + Trace(steps, pool))
    ensures LastWinners(Ids(pool), [NextHopStep(pool)] + Trace(steps, pool)) == [Survivors(steps, pool)[0].id]
  {
    var final, trace := Survivors(steps, pool), Trace(steps, pool);
    assert ([NextHopStep(pool)] + trace)[1..] == trace;
    SurvivorsSingle(steps, pool);
    TraceExplains(steps, pool);
    InterleavesAll(Ids(pool));
    assert Ids(final) == [final[0].id];
  }

  /**
   * The winner is determined by the preference alone: a route that no other
   * route is preferred to, and that beats every route listed before it, is the
   * winner.
   */
  lemma WinnerCharacterized(routes: seq<BgpRoute>, i: nat)
    requires DistinctIds(routes) && i < |routes|
    requires forall r :: r in routes ==> !Better(PIPELINE, r, routes[i])
    requires forall j :: 0 <= j < i ==> Better(PIPELINE, routes[i], routes[j])
    ensures Analyze(routes).winner == Some(routes[i])
  {
    PipelineTieBreakLast();
    FirstSurvivorUnique(PIPELINE, routes, i);
    AnalyzeFirstSurvivor(routes);
  }

  /** Only one route can be preferred to every other while beating every route listed before it. */
  lemma FirstSurvivorUnique(steps: seq<Step>, pool: seq<BgpRoute>, i: nat)
    requires TieBreakLast(steps) && DistinctIds(pool) && i < |pool|
    requires forall r :: r in pool ==> !Better(steps, r, pool[i])
    requires forall j :: 0 <= j < i ==> Better(steps, pool[i], pool[j])
    ensures Survivors(steps, pool)[0] == pool[i]
  {
    FirstSurvivorBest(steps, pool);
    var w := Survivors(steps, pool)[0];
    assert w in Survivors(steps, pool);
    var k :| 0 <= k < |pool| && pool[k] == w;
  }

  /** Weight is compared first: the winner carries the highest weight among the routes. */
  lemma HighestWeightWins(routes: seq<BgpRoute>)
    requires DistinctIds(routes) && routes != []
    ensures Analyze(routes).winner.value.weight == MaxOf(routes, WeightOf)
  {
    AnalyzeFirstSurvivor(routes);
    PipelineTieBreakLast();
    assert PIPELINE[0] == Weight;
    FirstSurvivorHighestWeight(PIPELINE, routes);
  }

  /** When weight is the first step, the first survivor carries the highest weight of the pool. */
  lemma FirstSurvivorHighestWeight(steps: seq<Step>, pool: seq<BgpRoute>)
    requires TieBreakLast(steps) && steps != [] && steps[0] == Weight && pool != []
    ensures Survivors(steps, pool)[0].weight == MaxOf(pool, WeightOf)
  {
    var w := Survivors(steps, pool)[0];
    assert w in Survivors(steps, pool);
    var top :| top in pool && WeightOf(top) == MaxOf(pool, WeightOf);
    SurvivorsOptimal(steps, pool, w, top);
    FirstStepDecides(steps, top, w);
    assert WeightOf(w) <= MaxOf(pool, WeightOf);
  }

  /** A route no other route is preferred to is not beaten by the first step either. */
  lemma FirstStepDecides(steps: seq<Step>, a: BgpRoute, b: BgpRoute)
    requires steps != [] && !Better(steps, a, b)
    ensures !StepBetter(steps[0], a, b)
  {
  }
}
