/**
 * Candidate pools: `Array.prototype.filter`, `map(c => c.id)`, `Math.max`/`Math.min`
 * over a mapped pool, and the facts about them the decision engine relies on.
 */
module Pools {
  import opened BgpTypes

  /** No two positions of the pool hold the same identifier. */
  predicate DistinctIds(pool: seq<BgpRoute>) {
    forall i, j :: 0 <= i < j < |pool| ==> pool[i].id != pool[j].id
  }

  /** `pool.filter(p)`: the members satisfying `p`, in pool order. */
  function Keep(pool: seq<BgpRoute>, p: BgpRoute -> bool): (kept: seq<BgpRoute>)
    ensures |kept| <= |pool|
    ensures forall r :: r in kept <==> r in pool && p(r)
    ensures DistinctIds(pool) ==> DistinctIds(kept)
    decreases |pool|
  {
    if pool == [] then []
    else
      var rest := Keep(pool[1..], p);
      if p(pool[0]) then
        assert DistinctIds(pool) ==> forall r :: r in rest ==> r.id != pool[0].id by {
          if DistinctIds(pool) {
            forall r | r in rest ensures r.id != pool[0].id {
              var j :| 0 <= j < |pool[1..]| && pool[1..][j] == r;
              assert pool[j + 1] == r;
            }
          }
        }
        [pool[0]] + rest
      else rest
  }

  /** `pool.map(c => c.id)` */
  function Ids(pool: seq<BgpRoute>): (ids: seq<nat>)
    ensures |ids| == |pool|
    ensures forall i :: 0 <= i < |pool| ==> ids[i] == pool[i].id
  {
    seq(|pool|, i requires 0 <= i < |pool| => pool[i].id)
  }

  /** `new Set(pool.map(c => c.id))` */
  function IdSet(pool: seq<BgpRoute>): set<nat> {
    set r | r in pool :: r.id
  }

  function IdIn(ids: set<nat>): BgpRoute -> bool {
    (r: BgpRoute) => r.id in ids
  }

  /** The loser test `c => !winnerIds.has(c.id)`. */
  function IdNotIn(ids: set<nat>): BgpRoute -> bool {
    (r: BgpRoute) => r.id !in ids
  }

  function Complement(p: BgpRoute -> bool): BgpRoute -> bool {
    (r: BgpRoute) => !p(r)
  }

  /**
   * `xs` is a merge of `a` and `b`: every element of `xs` goes to exactly one of
   * them, and each keeps the order it had in `xs`.
   */
  predicate Interleaves<T(==)>(xs: seq<T>, a: seq<T>, b: seq<T>)
    decreases |xs|
  {
    if xs == [] then a == [] && b == []
    else
      (a != [] && a[0] == xs[0] && Interleaves(xs[1..], a[1..], b))
      || (b != [] && b[0] == xs[0] && Interleaves(xs[1..], a, b[1..]))
  }

  /** `Math.max(...pool.map(key))` for a non-empty pool. */
  function MaxOf(pool: seq<BgpRoute>, key: BgpRoute -> nat): (m: nat)
    requires |pool| > 0
    ensures forall r :: r in pool ==> key(r) <= m
    ensures exists r :: r in pool && key(r) == m
    decreases |pool|
  {
    if |pool| == 1 then key(pool[0])
    else
      var rest := MaxOf(pool[1..], key);
      assert forall r :: r in pool ==> r == pool[0] || r in pool[1..];
      if key(pool[0]) > rest then key(pool[0]) else rest
  }

  /** `Math.min(...pool.map(key))` for a non-empty pool. */
  function MinOf(pool: seq<BgpRoute>, key: BgpRoute -> nat): (m: nat)
    requires |pool| > 0
    ensures forall r :: r in pool ==> m <= key(r)
    ensures exists r :: r in pool && key(r) == m
    decreases |pool|
  {
    if |pool| == 1 then key(pool[0])
    else
      var rest := MinOf(pool[1..], key);
      assert forall r :: r in pool ==> r == pool[0] || r in pool[1..];
      if key(pool[0]) < rest then key(pool[0]) else rest
  }

  lemma {:induction false} InterleavesLength<T>(xs: seq<T>, a: seq<T>, b: seq<T>)
    requires Interleaves(xs, a, b)
    ensures |xs| == |a| + |b|
    decreases |xs|
  {
    if xs != [] {
      if a != [] && a[0] == xs[0] && Interleaves(xs[1..], a[1..], b) {
        InterleavesLength(xs[1..], a[1..], b);
      } else {
        InterleavesLength(xs[1..], a, b[1..]);
      }
    }
  }

  /** A sequence is the merge of itself and nothing. */
  lemma {:induction false} InterleavesAll<T>(xs: seq<T>)
    ensures Interleaves(xs, xs, [])
    decreases |xs|
  {
    if xs != [] {
      InterleavesAll(xs[1..]);
    }
  }

  /** A filter and its complement split the pool, each half in pool order. */
  lemma {:induction false} KeepInterleaves(pool: seq<BgpRoute>, p: BgpRoute -> bool)
    ensures Interleaves(pool, Keep(pool, p), Keep(pool, Complement(p)))
    decreases |pool|
  {
    if pool != [] {
      KeepInterleaves(pool[1..], p);
      var a, b := Keep(pool, p), Keep(pool, Complement(p));
      if p(pool[0]) {
        assert a[1..] == Keep(pool[1..], p);
        assert b == Keep(pool[1..], Complement(p));
      } else {
        assert a == Keep(pool[1..], p);
        assert b[1..] == Keep(pool[1..], Complement(p));
      }
    }
  }

  /** Filters that agree on every member of the pool keep the same members. */
  lemma {:induction false} KeepExt(pool: seq<BgpRoute>, p: BgpRoute -> bool, q: BgpRoute -> bool)
    requires forall r :: r in pool ==> p(r) == q(r)
    ensures Keep(pool, p) == Keep(pool, q)
    decreases |pool|
  {
    if pool != [] {
      assert forall r :: r in pool[1..] ==> r in pool;
      KeepExt(pool[1..], p, q);
    }
  }

  /** A filter that drops nothing returns the pool itself. */
  lemma {:induction false} KeepAll(pool: seq<BgpRoute>, p: BgpRoute -> bool)
    requires |Keep(pool, p)| == |pool|
    ensures Keep(pool, p) == pool
    decreases |pool|
  {
    if pool != [] {
      if p(pool[0]) {
        KeepAll(pool[1..], p);
      }
    }
  }

  /** A filter every member passes returns the pool itself. */
  lemma {:induction false} KeepTrue(pool: seq<BgpRoute>, p: BgpRoute -> bool)
    requires forall r :: r in pool ==> p(r)
    ensures Keep(pool, p) == pool
    decreases |pool|
  {
    if pool != [] {
      assert forall r :: r in pool[1..] ==> r in pool;
      KeepTrue(pool[1..], p);
    }
  }

  /** How many of the first `j` members pass the filter. */
  function KeptBefore(pool: seq<BgpRoute>, p: BgpRoute -> bool, j: nat): nat
    requires j <= |pool|
    decreases j
  {
    if j == 0 then 0 else (if p(pool[0]) then 1 else 0) + KeptBefore(pool[1..], p, j - 1)
  }

  /** A member that passes a filter is kept, after exactly the passing members before it. */
  lemma {:induction false} KeepIndex(pool: seq<BgpRoute>, p: BgpRoute -> bool, j: nat)
    requires j < |pool| && p(pool[j])
    ensures KeptBefore(pool, p, j) < |Keep(pool, p)| && Keep(pool, p)[KeptBefore(pool, p, j)] == pool[j]
    decreases |pool|
  {
    var rest := Keep(pool[1..], p);
    if j == 0 {
      assert Keep(pool, p) == [pool[0]] + rest;
    } else {
      assert pool[1..][j - 1] == pool[j];
      KeepIndex(pool[1..], p, j - 1);
      if p(pool[0]) {
        assert Keep(pool, p) == [pool[0]] + rest;
      } else {
        assert Keep(pool, p) == rest;
      }
    }
  }

  /** A passing member counts towards every later position. */
  lemma {:induction false} KeptBeforeGrows(pool: seq<BgpRoute>, p: BgpRoute -> bool, i: nat, j: nat)
    requires i < j <= |pool| && p(pool[i])
    ensures KeptBefore(pool, p, i) < KeptBefore(pool, p, j)
    decreases j
  {
    if i > 0 {
      assert pool[1..][i - 1] == pool[i];
      KeptBeforeGrows(pool[1..], p, i - 1, j - 1);
    } else {
      assert KeptBefore(pool, p, j) >= 1;
    }
  }

  /** Two members that both pass a filter stay in the same order after it. */
  lemma KeepOrder(pool: seq<BgpRoute>, p: BgpRoute -> bool, i: nat, j: nat) returns (i': nat, j': nat)
    requires i < j < |pool| && p(pool[i]) && p(pool[j])
    ensures i' < j' < |Keep(pool, p)|
    ensures Keep(pool, p)[i'] == pool[i] && Keep(pool, p)[j'] == pool[j]
  {
    KeepIndex(pool, p, i);
    KeepIndex(pool, p, j);
    KeptBeforeGrows(pool, p, i, j);
    i', j' := KeptBefore(pool, p, i), KeptBefore(pool, p, j);
  }

  /** Mapping identifiers over a merge gives a merge of the identifier lists. */
  lemma {:induction false} InterleavesIds(xs: seq<BgpRoute>, a: seq<BgpRoute>, b: seq<BgpRoute>)
    requires Interleaves(xs, a, b)
    ensures Interleaves(Ids(xs), Ids(a), Ids(b))
    decreases |xs|
  {
    if xs != [] {
      assert Ids(xs)[1..] == Ids(xs[1..]);
      if a != [] && a[0] == xs[0] && Interleaves(xs[1..], a[1..], b) {
        InterleavesIds(xs[1..], a[1..], b);
        assert Ids(a)[1..] == Ids(a[1..]);
      } else {
        InterleavesIds(xs[1..], a, b[1..]);
        assert Ids(b)[1..] == Ids(b[1..]);
      }
    }
  }

  /**
   * With distinct identifiers, the losers computed by identifier
   * (`previousCandidates.filter(c => !winnerIds.has(c.id))`) are exactly the
   * members the filter dropped, so winners and losers split the pool in order.
   */
  lemma KeepLosersPartition(pool: seq<BgpRoute>, p: BgpRoute -> bool)
    requires DistinctIds(pool)
    ensures Interleaves(pool, Keep(pool, p), Keep(pool, IdNotIn(IdSet(Keep(pool, p)))))
  {
    var w := Keep(pool, p);
    forall r | r in pool ensures IdNotIn(IdSet(w))(r) == Complement(p)(r) {
      if r.id in IdSet(w) {
        var d :| d in w && d.id == r.id;
        var i :| 0 <= i < |pool| && pool[i] == r;
        var j :| 0 <= j < |pool| && pool[j] == d;
        assert i == j;
      }
    }
    KeepExt(pool, IdNotIn(IdSet(w)), Complement(p));
    KeepInterleaves(pool, p);
  }

  /** A member kept by the identifier-based loser test is not among the winners. */
  lemma LosersOutside(pool: seq<BgpRoute>, winners: seq<BgpRoute>, l: BgpRoute)
    requires l in Keep(pool, IdNotIn(IdSet(winners)))
    ensures l !in winners
  {
    assert l.id !in IdSet(winners);
  }

  /** With distinct identifiers, selecting one member's identifier selects exactly that member. */
  lemma {:induction false} KeepSingleId(pool: seq<BgpRoute>, k: nat)
    requires DistinctIds(pool) && k < |pool|
    ensures Keep(pool, IdIn({pool[k].id})) == [pool[k]]
    decreases |pool|
  {
    var rest := pool[1..];
    assert DistinctIds(rest) by {
      forall i, j | 0 <= i < j < |rest| ensures rest[i].id != rest[j].id {
        assert rest[i] == pool[i + 1] && rest[j] == pool[j + 1];
      }
    }
    if k == 0 {
      forall r | r in rest ensures !IdIn({pool[0].id})(r) {
        var j :| 0 <= j < |rest| && rest[j] == r;
        assert pool[j + 1] == r;
      }
      KeepExt(rest, IdIn({pool[0].id}), (r: BgpRoute) => false);
      KeepNone(rest);
    } else {
      assert rest[k - 1] == pool[k];
      KeepSingleId(rest, k - 1);
    }
  }

  lemma {:induction false} KeepNone(pool: seq<BgpRoute>)
    decreases |pool|
    ensures Keep(pool, (r: BgpRoute) => false) == []
  {
    if pool != [] {
      KeepNone(pool[1..]);
    }
  }
}
