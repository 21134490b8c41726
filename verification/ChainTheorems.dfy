/**
 * What an accepted chain looks like: acceptance is acyclicity without repeated needs, and the order is
 * topological and layered by longest path.
 */
module ChainTheorems {
  import opened Wrappers
  import opened JsonValues
  import opened SortedIds
  import opened ChainCompiler

  // ----- The needs graph -----

  ghost predicate Edge(steps: seq<ChainStep>, dependent: string, need: string) {
    exists i :: 0 <= i < |steps| && steps[i].stepId == dependent && need in steps[i].needs
  }

  ghost predicate Walk(steps: seq<ChainStep>, p: seq<string>) {
    p != [] && forall k :: 0 <= k < |p| - 1 ==> Edge(steps, p[k], p[k + 1])
  }

  ghost predicate CycleIn(steps: seq<ChainStep>, p: seq<string>) {
    Walk(steps, p) && |p| >= 2 && p[0] == p[|p| - 1]
  }

  ghost predicate Acyclic(steps: seq<ChainStep>) {
    !exists p :: CycleIn(steps, p)
  }

  predicate NoRepeatedNeeds(steps: seq<ChainStep>) {
    forall i :: 0 <= i < |steps| ==> Distinct(steps[i].needs)
  }

  /** Each step comes after everything it needs. */
  ghost predicate Topological(steps: seq<ChainStep>, order: seq<string>) {
    forall i, k :: 0 <= i < |steps| && 0 <= k < |order| && steps[i].stepId == order[k] ==>
      forall n :: n in steps[i].needs ==> n in order[..k]
  }

  ghost predicate IsArrangement(steps: seq<ChainStep>, order: seq<string>) {
    && |order| == |steps|
    && Distinct(order)
    && forall x :: x in order <==> HasStep(steps, x)
  }

  ghost predicate NeedsKnown(steps: seq<ChainStep>) {
    NeedsKnownFrom(steps, 0)
  }

  ghost predicate NeedsKnownFrom(steps: seq<ChainStep>, first: nat) {
    forall i, n :: first <= i < |steps| && n in steps[i].needs ==> HasStep(steps, n) && n != steps[i].stepId
  }

  // ----- Acceptance implies acyclicity -----

  lemma {:induction false} WalkGoesBack(steps: seq<ChainStep>, order: seq<string>, p: seq<string>, k: nat)
    requires UniqueIds(steps) && Distinct(order) && Topological(steps, order)
    requires Walk(steps, p) && k < |order| && p[0] == order[k]
    ensures |p| <= k + 1
    ensures p[|p| - 1] in order[..k + 1]
    ensures |p| >= 2 ==> p[|p| - 1] in order[..k]
  {
    if |p| >= 2 {
      assert Edge(steps, p[0], p[1]);
      var i :| 0 <= i < |steps| && steps[i].stepId == p[0] && p[1] in steps[i].needs;
      var m :| 0 <= m < k && order[m] == p[1];
      forall j | 0 <= j < |p[1..]| - 1 ensures Edge(steps, p[1..][j], p[1..][j + 1]) {
        assert Edge(steps, p[j + 1], p[j + 2]);
      }
      WalkGoesBack(steps, order, p[1..], m);
      assert order[..m + 1] <= order[..k];
    }
  }

  lemma TopologicalIsAcyclic(steps: seq<ChainStep>, order: seq<string>)
    requires UniqueIds(steps) && Topological(steps, order) && IsArrangement(steps, order)
    ensures Acyclic(steps)
  {
    forall p | CycleIn(steps, p) ensures false {
      assert Edge(steps, p[0], p[1]);
      assert HasStep(steps, p[0]);
      var k :| 0 <= k < |order| && order[k] == p[0];
      WalkGoesBack(steps, order, p, k);
      DistinctPrefix(order, k);
    }
  }

  // ----- Acyclicity implies acceptance: the pigeonhole argument -----

  ghost predicate Stuck(steps: seq<ChainStep>, done: seq<string>, x: string) {
    HasStep(steps, x) && x !in done
  }

  /** A step Kahn's algorithm never reaches needs another one it never reaches. */
  lemma StuckNeedsStuck(steps: seq<ChainStep>, done: seq<string>, x: string) returns (n: string)
    requires KahnState(steps, [], done) && NeedsKnown(steps) && NoRepeatedNeeds(steps)
    requires Stuck(steps, done, x)
    ensures Edge(steps, x, n) && Stuck(steps, done, n)
  {
    var i :| 0 <= i < |steps| && steps[i].stepId == x;
    assert done + [] == done;
    n :| n in steps[i].needs && n !in done;
  }

  lemma {:induction false} StuckWalk(steps: seq<ChainStep>, done: seq<string>, x: string, length: nat)
    returns (p: seq<string>)
    requires KahnState(steps, [], done) && NeedsKnown(steps) && NoRepeatedNeeds(steps)
    requires Stuck(steps, done, x)
    ensures |p| == length + 1 && p[0] == x && Walk(steps, p)
    ensures forall y :: y in p ==> Stuck(steps, done, y)
    decreases length
  {
    if length == 0 {
      p := [x];
    } else {
      var n := StuckNeedsStuck(steps, done, x);
      var rest := StuckWalk(steps, done, n, length - 1);
      p := [x] + rest;
      forall k | 0 <= k < |p| - 1 ensures Edge(steps, p[k], p[k + 1]) {
        if k > 0 { assert Edge(steps, rest[k - 1], rest[k]); }
      }
    }
  }

  lemma RepeatMakesCycle(steps: seq<ChainStep>, p: seq<string>, i: nat, j: nat)
    requires Walk(steps, p) && i < j < |p| && p[i] == p[j]
    ensures !Acyclic(steps)
  {
    var c := p[i..j + 1];
    forall k | 0 <= k < |c| - 1 ensures Edge(steps, c[k], c[k + 1]) {
      assert Edge(steps, p[i + k], p[i + k + 1]);
    }
    assert CycleIn(steps, c);
  }

  lemma IdsCover(steps: seq<ChainStep>, xs: seq<string>)
    requires forall x :: x in xs ==> HasStep(steps, x)
    ensures |Elements(xs)| <= |steps|
  {
    forall x | x in xs ensures x in Ids(steps) {
      var i :| 0 <= i < |steps| && steps[i].stepId == x;
      assert Ids(steps)[i] == x;
    }
    SubsetCount(Elements(xs), Elements(Ids(steps)));
    ElementsCount(Ids(steps));
  }

  lemma StuckMeansCycle(steps: seq<ChainStep>, done: seq<string>, x: string)
    requires KahnState(steps, [], done) && NeedsKnown(steps) && NoRepeatedNeeds(steps)
    requires Stuck(steps, done, x)
    ensures !Acyclic(steps)
  {
    var p := StuckWalk(steps, done, x, |steps|);
    IdsCover(steps, p);
    ElementsCount(p);
    var i, j :| 0 <= i < j < |p| && p[i] == p[j];
    RepeatMakesCycle(steps, p, i, j);
  }

  // ----- The iff -----

  lemma CompleteOrderIsArrangement(steps: seq<ChainStep>)
    requires UniqueIds(steps) && |KahnOrder(steps)| == |steps|
    ensures IsArrangement(steps, KahnOrder(steps)) && Topological(steps, KahnOrder(steps))
    ensures NoRepeatedNeeds(steps)
  {
    var order := KahnOrder(steps);
    assert order + [] == order;
    ElementsCount(order);
    ElementsCount(Ids(steps));
    forall x | x in order ensures x in Ids(steps) {
      var i :| 0 <= i < |steps| && steps[i].stepId == x;
      assert Ids(steps)[i] == x;
    }
    SubsetCount(Elements(order), Elements(Ids(steps)));
    forall x | HasStep(steps, x) ensures x in order {
      var i :| 0 <= i < |steps| && steps[i].stepId == x;
      assert Ids(steps)[i] == x;
      assert x in Elements(Ids(steps));
    }
    forall i | 0 <= i < |steps| ensures Distinct(steps[i].needs) {
      assert HasStep(steps, steps[i].stepId);
      assert Ready(steps[i], order);
    }
  }

  /** Kahn's algorithm emits every step exactly when no need is repeated and there is no cycle. */
  lemma KahnCompleteIff(steps: seq<ChainStep>)
    requires UniqueIds(steps) && NeedsKnown(steps)
    ensures |KahnOrder(steps)| == |steps| <==> Acyclic(steps) && NoRepeatedNeeds(steps)
  {
    var order := KahnOrder(steps);
    assert order + [] == order;
    if |order| == |steps| {
      CompleteOrderIsArrangement(steps);
      TopologicalIsAcyclic(steps, order);
    } else if NoRepeatedNeeds(steps) {
      OrderIsBounded(steps, [], order);
      ElementsCount(Ids(steps));
      ElementsCount(order);
      assert Distinct(Ids(steps));
      assert !(Elements(Ids(steps)) <= Elements(order)) by {
        if Elements(Ids(steps)) <= Elements(order) {
          SubsetCount(Elements(Ids(steps)), Elements(order));
        }
      }
      var x :| x in Elements(Ids(steps)) && x !in Elements(order);
      assert Stuck(steps, order, x);
      StuckMeansCycle(steps, order, x);
    }
  }

  lemma {:induction false} NeedErrorMeans(steps: seq<ChainStep>, step: ChainStep, j: nat)
    requires j <= |step.needs|
    ensures NeedError(steps, step, j).None? <==>
      forall k :: j <= k < |step.needs| ==> HasStep(steps, step.needs[k]) && step.needs[k] != step.stepId
    decreases |step.needs| - j
  {
    if j < |step.needs| {
      NeedErrorMeans(steps, step, j + 1);
    }
  }

  lemma {:induction false} NeedsErrorMeans(steps: seq<ChainStep>, i: nat)
    requires i <= |steps|
    ensures NeedsError(steps, i).None? <==> NeedsKnownFrom(steps, i)
    decreases |steps| - i
  {
    if i < |steps| {
      NeedErrorMeans(steps, steps[i], 0);
      NeedsErrorMeans(steps, i + 1);
    }
  }

  lemma CompileStepsIff(chainId: string, version: int, steps: seq<ChainStep>)
    requires UniqueIds(steps)
    ensures var r := CompileSteps(chainId, version, steps);
      && (r.Success? <==> NeedsKnown(steps) && Acyclic(steps) && NoRepeatedNeeds(steps))
      && (r.Success? ==> r.value == CompiledChain(chainId, version, steps, KahnOrder(steps)))
      && (r.Success? ==> |KahnOrder(steps)| == |steps|)
  {
    NeedsErrorMeans(steps, 0);
    if NeedsKnown(steps) {
      KahnCompleteIff(steps);
    }
  }

  /**
   * Compilation: once the fields parse, it succeeds if and only if the needs are known, the graph is
   * acyclic and no step repeats a need; the emitted order is then topological and holds every step once.
   */
  lemma CompileSucceedsIff(allowed: set<string>, chainId: string, version: int, definition: seq<Field>,
                           raws: seq<Json>, steps: seq<ChainStep>)
    requires GetField(definition, Steps) == Arr(raws) && raws != []
    requires ParseSteps(allowed, raws, []) == Success(steps)
    ensures CompileSpec(allowed, chainId, version, definition).Success? <==>
      NeedsKnown(steps) && Acyclic(steps) && NoRepeatedNeeds(steps)
    ensures CompileSpec(allowed, chainId, version, definition).Success? ==>
      var order := CompileSpec(allowed, chainId, version, definition).value.executionOrder;
      IsArrangement(steps, order) && Topological(steps, order)
  {
    ParsedIdsUnique(allowed, raws, []);
    CompileStepsIff(chainId, version, steps);
    if CompileSteps(chainId, version, steps).Success? {
      CompleteOrderIsArrangement(steps);
    }
  }

  /** Acyclicity alone is not enough: a step that lists its one need twice is reported as a cycle. */
  lemma RepeatedNeedRejected(a: string, b: string, kind: string)
    requires a != b
    ensures var steps := [ChainStep(a, kind, Null, []), ChainStep(b, kind, Null, [a, a])];
      && UniqueIds(steps) && NeedsKnown(steps) && Acyclic(steps)
      && CompileSteps([], 1, steps) == Failure(Cycle)
  {
    var steps := [ChainStep(a, kind, Null, []), ChainStep(b, kind, Null, [a, a])];
    assert HasStep(steps, a) && HasStep(steps, b) by {
      assert steps[0].stepId == a && steps[1].stepId == b;
    }
    assert [a, b][..1] == [a];
    TopologicalIsAcyclic(steps, [a, b]);
    assert !NoRepeatedNeeds(steps) by {
      var needs := steps[1].needs;
      assert needs[0] == needs[1];
    }
    NeedsErrorMeans(steps, 0);
    CompileStepsIff([], 1, steps);
  }

  // ----- Layering -----

  /** d is the depth of each step: 0 without needs, otherwise one more than its deepest need. */
  ghost predicate IsDepth(steps: seq<ChainStep>, d: map<string, nat>) {
    forall i :: 0 <= i < |steps| ==>
      && steps[i].stepId in d
      && (forall n :: n in steps[i].needs ==> n in d && d[n] < d[steps[i].stepId])
      && (d[steps[i].stepId] > 0 ==> exists n :: n in steps[i].needs && d[n] + 1 == d[steps[i].stepId])
  }

  ghost predicate NonDecreasing(d: map<string, nat>, s: seq<string>) {
    forall i, j :: 0 <= i < j < |s| ==> s[i] in d && s[j] in d && d[s[i]] <= d[s[j]]
  }

  ghost predicate AtMost(d: map<string, nat>, s: seq<string>, bound: nat) {
    forall x :: x in s ==> x in d && d[x] <= bound
  }

  /** The FIFO queue spans at most two consecutive layers. */
  ghost predicate Layered(d: map<string, nat>, ready: seq<string>, order: seq<string>) {
    && NonDecreasing(d, order + ready)
    && (ready != [] ==> ready[0] in d && AtMost(d, ready, d[ready[0]] + 1))
  }

  lemma ReleasedDepth(steps: seq<ChainStep>, d: map<string, nat>, ready: seq<string>, order: seq<string>)
    requires KahnState(steps, ready, order) && ready != [] && IsDepth(steps, d) && Layered(d, ready, order)
    ensures forall x :: x in Released(steps, order, ready[0]) ==> x in d && d[x] == d[ready[0]] + 1
  {
    var cur := ready[0];
    ReleasedElements(steps, order, cur);
    forall x | x in Released(steps, order, cur) ensures x in d && d[x] == d[cur] + 1 {
      var i :| 0 <= i < |steps| && steps[i].stepId == x;
      var n :| n in steps[i].needs && d[n] + 1 == d[x];
      var k :| 0 <= k < |order + [cur]| && (order + [cur])[k] == n;
      assert (order + ready)[|order|] == cur;
      assert (order + ready)[k] == n;
    }
  }

  lemma NonDecreasingConcat(d: map<string, nat>, a: seq<string>, b: seq<string>, bound: nat)
    requires NonDecreasing(d, a) && AtMost(d, a, bound)
    requires forall x :: x in b ==> x in d && d[x] == bound
    ensures NonDecreasing(d, a + b)
  {
    forall i, j | 0 <= i < j < |a + b|
      ensures (a + b)[i] in d && (a + b)[j] in d && d[(a + b)[i]] <= d[(a + b)[j]]
    {
      assert (a + b)[i] in a || (a + b)[i] in b;
      assert j >= |a| ==> (a + b)[j] in b;
    }
  }

  /** Everything done or waiting is at most one layer deeper than the head of the queue. */
  lemma QueueSpan(d: map<string, nat>, ready: seq<string>, order: seq<string>)
    requires ready != [] && Layered(d, ready, order)
    ensures AtMost(d, order, d[ready[0]]) && AtMost(d, order + ready, d[ready[0]] + 1)
  {
    forall x | x in order ensures x in d && d[x] <= d[ready[0]] {
      var k :| 0 <= k < |order| && order[k] == x;
      assert (order + ready)[k] == x && (order + ready)[|order|] == ready[0];
    }
  }

  lemma LayeredNext(steps: seq<ChainStep>, d: map<string, nat>, ready: seq<string>, order: seq<string>)
    requires KahnState(steps, ready, order) && ready != [] && IsDepth(steps, d) && Layered(d, ready, order)
    ensures Layered(d, NextReady(steps, ready, order), order + [ready[0]])
  {
    var added := Sorted(Released(steps, order, ready[0]));
    var ready' := NextReady(steps, ready, order);
    ReleasedDepth(steps, d, ready, order);
    SortedElements(Released(steps, order, ready[0]));
    QueueSpan(d, ready, order);
    NonDecreasingConcat(d, order + ready, added, d[ready[0]] + 1);
    assert (order + [ready[0]]) + ready' == (order + ready) + added;
    if ready' != [] {
      HeadGrows(d, ready, order, added);
      forall x | x in ready' ensures x in d && d[x] <= d[ready'[0]] + 1 {
        assert x in ready || x in added;
      }
    }
  }

  lemma HeadGrows(d: map<string, nat>, ready: seq<string>, order: seq<string>, added: seq<string>)
    requires ready != [] && Layered(d, ready, order) && ready[1..] + added != []
    requires forall x :: x in added ==> x in d && d[x] == d[ready[0]] + 1
    ensures var head := (ready[1..] + added)[0]; head in d && d[ready[0]] <= d[head]
  {
    if |ready| > 1 {
      assert (order + ready)[|order|] == ready[0] && (order + ready)[|order| + 1] == ready[1];
    } else {
      assert (ready[1..] + added)[0] in added;
    }
  }

  lemma {:induction false} KahnLayered(steps: seq<ChainStep>, d: map<string, nat>, ready: seq<string>, order: seq<string>)
    requires KahnState(steps, ready, order) && IsDepth(steps, d) && Layered(d, ready, order)
    ensures NonDecreasing(d, Kahn(steps, ready, order))
    decreases |steps| - |order|
  {
    if ready == [] {
      assert order + [] == order;
    } else {
      OrderIsBounded(steps, ready, order);
      KahnNext(steps, ready, order);
      LayeredNext(steps, d, ready, order);
      KahnLayered(steps, d, NextReady(steps, ready, order), order + [ready[0]]);
    }
  }

  /** The length of the longest chain of needs below a step. */
  ghost predicate LongestWalk(steps: seq<ChainStep>, x: string, length: nat) {
    && (exists p :: Walk(steps, p) && p[0] == x && |p| == length + 1)
    && (forall p :: Walk(steps, p) && p[0] == x ==> |p| <= length + 1)
  }

  lemma {:induction false} WalkFitsDepth(steps: seq<ChainStep>, d: map<string, nat>, p: seq<string>)
    requires IsDepth(steps, d) && Walk(steps, p) && p[0] in d
    ensures |p| <= d[p[0]] + 1
  {
    if |p| >= 2 {
      assert Edge(steps, p[0], p[1]);
      forall j | 0 <= j < |p[1..]| - 1 ensures Edge(steps, p[1..][j], p[1..][j + 1]) {
        assert Edge(steps, p[j + 1], p[j + 2]);
      }
      WalkFitsDepth(steps, d, p[1..]);
    }
  }

  lemma {:induction false} DeepestWalk(steps: seq<ChainStep>, d: map<string, nat>, x: string) returns (p: seq<string>)
    requires UniqueIds(steps) && NeedsKnown(steps) && IsDepth(steps, d) && HasStep(steps, x)
    ensures x in d && Walk(steps, p) && p[0] == x && |p| == d[x] + 1
    decreases if x in d then d[x] else 0
  {
    var i :| 0 <= i < |steps| && steps[i].stepId == x;
    if d[x] == 0 {
      p := [x];
    } else {
      var n :| n in steps[i].needs && d[n] + 1 == d[x];
      var rest := DeepestWalk(steps, d, n);
      p := [x] + rest;
      forall k | 0 <= k < |p| - 1 ensures Edge(steps, p[k], p[k + 1]) {
        if k > 0 { assert Edge(steps, rest[k - 1], rest[k]); }
      }
    }
  }

  lemma DepthIsLongestWalk(steps: seq<ChainStep>, d: map<string, nat>, x: string)
    requires UniqueIds(steps) && NeedsKnown(steps) && IsDepth(steps, d) && HasStep(steps, x)
    ensures x in d && LongestWalk(steps, x, d[x])
  {
    var p := DeepestWalk(steps, d, x);
    forall q | Walk(steps, q) && q[0] == x ensures |q| <= d[x] + 1 {
      WalkFitsDepth(steps, d, q);
    }
  }

  /** One more than the largest depth among `needs`; 0 when there are none. */
  function Above(d: map<string, nat>, needs: seq<string>): (h: nat)
    requires forall n :: n in needs ==> n in d
    ensures forall n :: n in needs ==> d[n] < h
    ensures h > 0 ==> exists n :: n in needs && d[n] + 1 == h
  {
    if needs == [] then 0
    else
      var rest := Above(d, needs[1..]);
      assert needs[0] in needs && forall n :: n in needs[1..] ==> n in needs;
      assert forall n :: n in needs ==> n == needs[0] || n in needs[1..];
      if d[needs[0]] + 1 > rest then d[needs[0]] + 1 else rest
  }

  ghost predicate DepthUpTo(steps: seq<ChainStep>, done: seq<string>, d: map<string, nat>) {
    && (forall x :: x in d <==> x in done)
    && forall i :: 0 <= i < |steps| && steps[i].stepId in done ==>
      && (forall n :: n in steps[i].needs ==> n in d && d[n] < d[steps[i].stepId])
      && (d[steps[i].stepId] > 0 ==> exists n :: n in steps[i].needs && d[n] + 1 == d[steps[i].stepId])
  }

  lemma DepthExtends(steps: seq<ChainStep>, done: seq<string>, e: map<string, nat>, i: nat)
    requires UniqueIds(steps) && DepthUpTo(steps, done, e) && i < |steps| && steps[i].stepId !in done
    requires forall n :: n in steps[i].needs ==> n in done
    ensures DepthUpTo(steps, done + [steps[i].stepId], e[steps[i].stepId := Above(e, steps[i].needs)])
  {
    var x := steps[i].stepId;
    var d := e[x := Above(e, steps[i].needs)];
    forall j | 0 <= j < |steps| && steps[j].stepId in done + [x]
      ensures forall n :: n in steps[j].needs ==> n in d && d[n] < d[steps[j].stepId]
      ensures d[steps[j].stepId] > 0 ==> exists n :: n in steps[j].needs && d[n] + 1 == d[steps[j].stepId]
    {
      var y := steps[j].stepId;
      assert y == x ==> j == i;
      assert forall n :: n in steps[j].needs ==> n in e && n != x && d[n] == e[n];
      if d[y] > 0 {
        var n :| n in steps[j].needs && e[n] + 1 == d[y];
        assert d[n] + 1 == d[y];
      }
    }
  }

  /** A topological order gives every step a depth. */
  lemma {:induction false} DepthOf(steps: seq<ChainStep>, order: seq<string>, k: nat) returns (d: map<string, nat>)
    requires UniqueIds(steps) && Distinct(order) && Topological(steps, order) && k <= |order|
    requires forall x :: x in order ==> HasStep(steps, x)
    ensures DepthUpTo(steps, order[..k], d)
  {
    if k == 0 {
      d := map[];
    } else {
      var e := DepthOf(steps, order, k - 1);
      var x := order[k - 1];
      assert HasStep(steps, x);
      var i :| 0 <= i < |steps| && steps[i].stepId == x;
      DistinctPrefix(order, k - 1);
      DepthExtends(steps, order[..k - 1], e, i);
      assert order[..k] == order[..k - 1] + [x];
      d := e[x := Above(e, steps[i].needs)];
    }
  }

  lemma DepthExists(steps: seq<ChainStep>) returns (d: map<string, nat>)
    requires UniqueIds(steps) && |KahnOrder(steps)| == |steps|
    ensures IsDepth(steps, d)
  {
    var order := KahnOrder(steps);
    CompleteOrderIsArrangement(steps);
    d := DepthOf(steps, order, |order|);
    assert order[..|order|] == order;
    forall i | 0 <= i < |steps| ensures steps[i].stepId in order {
      assert HasStep(steps, steps[i].stepId);
    }
  }

  /** Steps come out in non-decreasing longest-path depth: no wave starts before the previous ended. */
  lemma KahnIsLayered(steps: seq<ChainStep>) returns (depth: map<string, nat>)
    requires UniqueIds(steps) && NeedsKnown(steps) && |KahnOrder(steps)| == |steps|
    ensures forall x :: HasStep(steps, x) ==> x in depth && LongestWalk(steps, x, depth[x])
    ensures forall i, j :: 0 <= i < j < |steps| ==>
      var order := KahnOrder(steps);
      order[i] in depth && order[j] in depth && depth[order[i]] <= depth[order[j]]
  {
    depth := DepthExists(steps);
    forall x | HasStep(steps, x) ensures x in depth && LongestWalk(steps, x, depth[x]) {
      DepthIsLongestWalk(steps, depth, x);
    }
    LayeredStart(steps, depth);
    KahnStart(steps);
    KahnLayered(steps, depth, Sorted(Roots(steps)), []);
  }

  lemma RootDepth(steps: seq<ChainStep>, d: map<string, nat>, x: string)
    requires UniqueIds(steps) && IsDepth(steps, d) && x in Roots(steps)
    ensures x in d && d[x] == 0
  {
    RootsElements(steps);
    var i :| 0 <= i < |steps| && steps[i].stepId == x;
    assert steps[i].needs == [];
  }

  lemma LayeredStart(steps: seq<ChainStep>, d: map<string, nat>)
    requires UniqueIds(steps) && IsDepth(steps, d)
    ensures Layered(d, Sorted(Roots(steps)), [])
  {
    var ready := Sorted(Roots(steps));
    SortedElements(Roots(steps));
    forall x | x in ready ensures x in d && d[x] == 0 {
      RootDepth(steps, d, x);
    }
    FlatIsLayered(d, ready);
  }

  lemma FlatIsLayered(d: map<string, nat>, ready: seq<string>)
    requires forall x :: x in ready ==> x in d && d[x] == 0
    ensures Layered(d, ready, [])
  {
    assert [] + ready == ready;
  }
}
