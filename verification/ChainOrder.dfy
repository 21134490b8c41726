/**
 * The execution order without the algorithm: steps stand in order of the position of their last need, and
 * steps with the same last need in string order. There is one such order.
 */
module ChainOrder {
  import opened Wrappers
  import opened SortedIds
  import opened ChainCompiler
  import opened ChainTheorems

  /** One past the position of the last of `needs` in `order`; 0 when none stands there. */
  function Rank(order: seq<string>, needs: seq<string>): nat {
    if order == [] then 0
    else if order[|order| - 1] in needs then |order|
    else Rank(order[..|order| - 1], needs)
  }

  predicate Earlier(order: seq<string>, x: ChainStep, y: ChainStep) {
    var r, s := Rank(order, x.needs), Rank(order, y.needs);
    r < s || (r == s && Less(x.stepId, y.stepId))
  }

  ghost predicate InTurn(steps: seq<ChainStep>, order: seq<string>, i: nat, j: nat)
    requires i < |order| && j < |order|
  {
    forall x, y :: x in steps && y in steps && x.stepId == order[i] && y.stepId == order[j] ==> Earlier(order, x, y)
  }

  ghost predicate FifoOrder(steps: seq<ChainStep>, order: seq<string>) {
    forall i, j :: 0 <= i < j < |order| ==> InTurn(steps, order, i, j)
  }

  lemma {:induction false} RankExtends(order: seq<string>, more: seq<string>, needs: seq<string>)
    requires forall x :: x in more ==> x !in needs
    ensures Rank(order + more, needs) == Rank(order, needs)
  {
    if more == [] {
      assert order + more == order;
    } else {
      var n := |more| - 1;
      RankExtends(order, more[..n], needs);
      assert (order + more)[..|order + more| - 1] == order + more[..n];
    }
  }

  lemma {:induction false} RankBounded(order: seq<string>, needs: seq<string>)
    ensures Rank(order, needs) <= |order|
  {
    if order != [] {
      RankBounded(order[..|order| - 1], needs);
    }
  }

  lemma TailIsApart(order: seq<string>, k: nat)
    requires Distinct(order) && k <= |order|
    ensures forall x :: x in order[k..] ==> x !in order[..k]
  {
    forall x | x in order[k..] ensures x !in order[..k] {
      var j :| 0 <= j < |order| - k && order[k..][j] == x;
      assert order[k + j] == x;
    }
  }

  /** Needs that all stand in a prefix have their rank there. */
  lemma RankInPrefix(order: seq<string>, k: nat, needs: seq<string>)
    requires Distinct(order) && k <= |order| && forall n :: n in needs ==> n in order[..k]
    ensures Rank(order, needs) == Rank(order[..k], needs) <= k
  {
    TailIsApart(order, k);
    RankExtends(order[..k], order[k..], needs);
    RankBounded(order[..k], needs);
    assert order == order[..k] + order[k..];
  }

  // ----- Kahn's loop keeps to it -----

  /** A step that waits or is done has its rank among the steps already done. */
  lemma RankDone(steps: seq<ChainStep>, ready: seq<string>, order: seq<string>, x: ChainStep)
    requires KahnState(steps, ready, order) && x in steps && x.stepId in order + ready
    ensures Rank(order + ready, x.needs) == Rank(order, x.needs) <= |order|
  {
    var i :| 0 <= i < |steps| && steps[i] == x;
    assert (order + ready)[..|order|] == order;
    RankInPrefix(order + ready, |order|, x.needs);
  }

  /** A step that the next pop releases ranks right behind the popped one. */
  lemma RankReleased(steps: seq<ChainStep>, ready: seq<string>, order: seq<string>, x: ChainStep)
    requires KahnState(steps, ready, order) && ready != [] && x in steps
    requires x.stepId in Released(steps, order, ready[0])
    ensures Rank((order + [ready[0]]) + NextReady(steps, ready, order), x.needs) == |order| + 1
  {
    var cur := ready[0];
    var all := (order + [cur]) + NextReady(steps, ready, order);
    ReleasedElements(steps, order, cur);
    NextElements(steps, ready, order);
    var i :| 0 <= i < |steps| && steps[i] == x;
    assert all[..|order| + 1] == order + [cur];
    RankInPrefix(all, |order| + 1, x.needs);
  }

  /** A pop does not change the rank of a step that was waiting or done. */
  lemma OldRank(steps: seq<ChainStep>, ready: seq<string>, order: seq<string>, x: ChainStep)
    requires KahnState(steps, ready, order) && ready != [] && x in steps && x.stepId in order + ready
    ensures Rank((order + [ready[0]]) + NextReady(steps, ready, order), x.needs) == Rank(order + ready, x.needs) <= |order|
  {
    RankDone(steps, ready, order, x);
    NextElements(steps, ready, order);
    var all := (order + [ready[0]]) + NextReady(steps, ready, order);
    var i :| 0 <= i < |steps| && steps[i] == x;
    assert all[..|order|] == order;
    RankInPrefix(all, |order|, x.needs);
  }

  lemma OldBeforeNew(steps: seq<ChainStep>, ready: seq<string>, order: seq<string>, x: ChainStep, y: ChainStep)
    requires KahnState(steps, ready, order) && ready != [] && x in steps && y in steps
    requires x.stepId in order + ready && y.stepId in Released(steps, order, ready[0])
    ensures Earlier((order + [ready[0]]) + NextReady(steps, ready, order), x, y)
  {
    OldRank(steps, ready, order, x);
    RankReleased(steps, ready, order, y);
  }

  lemma NewInOrder(steps: seq<ChainStep>, ready: seq<string>, order: seq<string>, x: ChainStep, y: ChainStep)
    requires KahnState(steps, ready, order) && ready != [] && x in steps && y in steps && Less(x.stepId, y.stepId)
    requires x.stepId in Released(steps, order, ready[0]) && y.stepId in Released(steps, order, ready[0])
    ensures Earlier((order + [ready[0]]) + NextReady(steps, ready, order), x, y)
  {
    RankReleased(steps, ready, order, x);
    RankReleased(steps, ready, order, y);
  }

  /** Where the steps of the next pop stand: behind all others, in string order. */
  lemma ReleasedStand(steps: seq<ChainStep>, ready: seq<string>, order: seq<string>, i: nat, j: nat)
    requires KahnState(steps, ready, order) && ready != []
    requires var all := (order + [ready[0]]) + NextReady(steps, ready, order);
      |order + ready| <= j < |all| && i < j
    ensures var all, released := (order + [ready[0]]) + NextReady(steps, ready, order), Released(steps, order, ready[0]);
      && all[j] in released
      && (i < |order + ready| ==> all[i] in order + ready)
      && (i >= |order + ready| ==> all[i] in released && Less(all[i], all[j]))
  {
    var released := Released(steps, order, ready[0]);
    var was, all := order + ready, (order + [ready[0]]) + NextReady(steps, ready, order);
    ReleasedElements(steps, order, ready[0]);
    SortedElements(released);
    SortedAscending(released);
    assert all == was + Sorted(released);
    assert all[j] == Sorted(released)[j - |was|];
  }

  lemma ReleasedInTurn(steps: seq<ChainStep>, ready: seq<string>, order: seq<string>, i: nat, j: nat)
    requires KahnState(steps, ready, order) && ready != []
    requires var all := (order + [ready[0]]) + NextReady(steps, ready, order);
      |order + ready| <= j < |all| && i < j
    ensures InTurn(steps, (order + [ready[0]]) + NextReady(steps, ready, order), i, j)
  {
    var all := (order + [ready[0]]) + NextReady(steps, ready, order);
    ReleasedStand(steps, ready, order, i, j);
    forall x, y | x in steps && y in steps && x.stepId == all[i] && y.stepId == all[j] ensures Earlier(all, x, y) {
      if i < |order + ready| {
        OldBeforeNew(steps, ready, order, x, y);
      } else {
        NewInOrder(steps, ready, order, x, y);
      }
    }
  }

  lemma FifoNext(steps: seq<ChainStep>, ready: seq<string>, order: seq<string>)
    requires KahnState(steps, ready, order) && ready != [] && FifoOrder(steps, order + ready)
    ensures FifoOrder(steps, (order + [ready[0]]) + NextReady(steps, ready, order))
  {
    var was, all := order + ready, (order + [ready[0]]) + NextReady(steps, ready, order);
    assert all == was + Sorted(Released(steps, order, ready[0]));
    forall i, j | 0 <= i < j < |all| ensures InTurn(steps, all, i, j) {
      if j >= |was| {
        ReleasedInTurn(steps, ready, order, i, j);
      } else {
        OldInTurn(steps, ready, order, i, j);
      }
    }
  }

  lemma OldInTurn(steps: seq<ChainStep>, ready: seq<string>, order: seq<string>, i: nat, j: nat)
    requires KahnState(steps, ready, order) && ready != [] && FifoOrder(steps, order + ready)
    requires i < j < |order + ready|
    ensures var all := (order + [ready[0]]) + NextReady(steps, ready, order);
      j < |all| && InTurn(steps, all, i, j)
  {
    var was, all := order + ready, (order + [ready[0]]) + NextReady(steps, ready, order);
    assert all == was + Sorted(Released(steps, order, ready[0]));
    assert InTurn(steps, was, i, j);
    forall x, y | x in steps && y in steps && x.stepId == all[i] && y.stepId == all[j] ensures Earlier(all, x, y) {
      assert was[i] in was && was[j] in was && Earlier(was, x, y);
      OldRank(steps, ready, order, x);
      OldRank(steps, ready, order, y);
    }
  }

  lemma FifoStart(steps: seq<ChainStep>)
    requires UniqueIds(steps)
    ensures FifoOrder(steps, [] + Sorted(Roots(steps)))
  {
    var ready := Sorted(Roots(steps));
    RootsElements(steps);
    SortedAscending(Roots(steps));
    assert [] + ready == ready;
    forall i, j | 0 <= i < j < |ready| ensures InTurn(steps, ready, i, j) {
      forall x, y | x in steps && y in steps && x.stepId == ready[i] && y.stepId == ready[j]
        ensures Earlier(ready, x, y)
      {
        assert ready[i] in ready && ready[j] in ready;
        RootRank(steps, x);
        RootRank(steps, y);
      }
    }
  }

  lemma RootRank(steps: seq<ChainStep>, x: ChainStep)
    requires UniqueIds(steps) && x in steps && x.stepId in Sorted(Roots(steps))
    ensures Rank(Sorted(Roots(steps)), x.needs) == 0
  {
    var ready := Sorted(Roots(steps));
    KahnStart(steps);
    assert [] + ready == ready;
    RankDone(steps, ready, [], x);
  }

  lemma {:induction false} KahnIsFifo(steps: seq<ChainStep>, ready: seq<string>, order: seq<string>)
    requires KahnState(steps, ready, order) && FifoOrder(steps, order + ready)
    ensures FifoOrder(steps, Kahn(steps, ready, order))
    decreases |steps| - |order|
  {
    if ready == [] {
      assert order + ready == order;
    } else {
      OrderIsBounded(steps, ready, order);
      KahnNext(steps, ready, order);
      FifoNext(steps, ready, order);
      KahnIsFifo(steps, NextReady(steps, ready, order), order + [ready[0]]);
    }
  }

  // ----- There is one such order -----

  lemma InPrefix(s: seq<string>, j: nat, k: nat)
    requires j < |s| && k <= |s|
    ensures j < k ==> s[j] in s[..k]
  {
  }

  lemma SameTurn(steps: seq<ChainStep>, a: seq<string>, b: seq<string>, k: nat, x: ChainStep, y: ChainStep)
    requires IsArrangement(steps, a) && Topological(steps, a) && FifoOrder(steps, a)
    requires IsArrangement(steps, b) && Topological(steps, b)
    requires k < |a| && k < |b| && a[..k] == b[..k] && x in steps && y in steps
    requires a[k] == x.stepId && b[k] == y.stepId && x.stepId != y.stepId
    ensures Rank(a, x.needs) == Rank(a[..k], x.needs) && Rank(b, x.needs) == Rank(a[..k], x.needs)
    ensures Earlier(a, x, y)
  {
    var p, q :| 0 <= p < |steps| && steps[p] == x && 0 <= q < |steps| && steps[q] == y;
    assert HasStep(steps, y.stepId);
    var j :| 0 <= j < |a| && a[j] == y.stepId;
    DistinctPrefix(b, k);
    InPrefix(a, j, k);
    assert InTurn(steps, a, k, j);
    RankInPrefix(a, k, x.needs);
    RankInPrefix(b, k, x.needs);
  }

  lemma FifoUniqueAt(steps: seq<ChainStep>, a: seq<string>, b: seq<string>, k: nat)
    requires UniqueIds(steps)
    requires IsArrangement(steps, a) && Topological(steps, a) && FifoOrder(steps, a)
    requires IsArrangement(steps, b) && Topological(steps, b) && FifoOrder(steps, b)
    requires k < |steps| && a[..k] == b[..k]
    ensures a[k] == b[k]
  {
    assert HasStep(steps, a[k]) && HasStep(steps, b[k]);
    var p, q :| 0 <= p < |steps| && steps[p].stepId == a[k] && 0 <= q < |steps| && steps[q].stepId == b[k];
    var x, y := steps[p], steps[q];
    if a[k] != b[k] {
      SameTurn(steps, a, b, k, x, y);
      SameTurn(steps, b, a, k, y, x);
      if Less(x.stepId, y.stepId) && Less(y.stepId, x.stepId) {
        LessTransitive(x.stepId, y.stepId, x.stepId);
      }
      LessIrreflexive(x.stepId);
      assert false;
    }
  }

  lemma {:induction false} FifoUnique(steps: seq<ChainStep>, a: seq<string>, b: seq<string>, k: nat)
    requires UniqueIds(steps) && k <= |steps|
    requires IsArrangement(steps, a) && Topological(steps, a) && FifoOrder(steps, a)
    requires IsArrangement(steps, b) && Topological(steps, b) && FifoOrder(steps, b)
    ensures a[..k] == b[..k]
  {
    if k > 0 {
      FifoUnique(steps, a, b, k - 1);
      FifoUniqueAt(steps, a, b, k - 1);
      assert a[..k] == a[..k - 1] + [a[k - 1]] && b[..k] == b[..k - 1] + [b[k - 1]];
    }
  }

  /**
   * The order that Kahn's algorithm emits for all the steps is the one arrangement in which every step
   * comes after its needs, steps are ordered by their last need, and ties are in string order.
   */
  lemma KahnOrderIff(steps: seq<ChainStep>, order: seq<string>)
    requires UniqueIds(steps) && |KahnOrder(steps)| == |steps|
    ensures order == KahnOrder(steps) <==>
      IsArrangement(steps, order) && Topological(steps, order) && FifoOrder(steps, order)
  {
    var kahn := KahnOrder(steps);
    CompleteOrderIsArrangement(steps);
    KahnStart(steps);
    FifoStart(steps);
    KahnIsFifo(steps, Sorted(Roots(steps)), []);
    if IsArrangement(steps, order) && Topological(steps, order) && FifoOrder(steps, order) {
      FifoUnique(steps, order, kahn, |steps|);
      assert order[..|steps|] == order && kahn[..|steps|] == kahn;
    }
  }
}
