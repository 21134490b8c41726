/**
 * The chain compiler: validation of the step list, then Kahn's algorithm with a FIFO ready list
 * and sorted insertion. The dict of steps keeps its insertion order, so it is a sequence here.
 */
module ChainCompiler {
  import opened Wrappers
  import opened JsonValues
  import opened SortedIds

  datatype ChainStep = ChainStep(stepId: string, kind: string, config: Json, needs: seq<string>)

  datatype CompiledChain =
    CompiledChain(chainId: string, version: int, steps: seq<ChainStep>, executionOrder: seq<string>)

  /** The ChainCompileErrors, and the TypeError that an unhashable step type raises. */
  datatype CompileError =
    | NoStepList
    | StepNotObject
    | MissingStepId
    | DuplicateStepId(stepId: string)
    | UnknownType(stepId: string)
    | UnhashableType(stepId: string)
    | BadNeeds(stepId: string)
    | UnknownNeed(stepId: string, need: string)
    | SelfDependency(stepId: string)
    | Cycle

  const ALLOWED_STEP_TYPES: set<string> := {"http", "mcp", "a2a", "wait", "sub_chain"}

  // ----- Validation -----

  predicate HasStep(steps: seq<ChainStep>, id: string) {
    exists i :: 0 <= i < |steps| && steps[i].stepId == id
  }

  function Strings(items: seq<Json>): Option<seq<string>> {
    if items == [] then Some([])
    else if !items[0].Str? then None
    else
      var rest := Strings(items[1..]);
      if rest.None? then None else Some([items[0].s] + rest.value)
  }

  function NeedsOf(raw: Json): Option<seq<string>> {
    var needs := Get(raw, Needs);
    if !Truthy(needs) then Some([])
    else if !needs.Arr? then None
    else Strings(needs.items)
  }

  /** One raw step, given the identifiers already taken. */
  function ParseStep(allowed: set<string>, raw: Json, done: seq<ChainStep>): Result<ChainStep, CompileError> {
    if !raw.Obj? then Failure(StepNotObject)
    else
      var id := Or(Get(raw, StepId), Get(raw, Id));
      if !Truthy(id) || !id.Str? then Failure(MissingStepId)
      else if HasStep(done, id.s) then Failure(DuplicateStepId(id.s))
      else
        var kind := Get(raw, Type);
        if kind.Arr? || kind.Obj? then Failure(UnhashableType(id.s))
        else if !kind.Str? || kind.s !in allowed then Failure(UnknownType(id.s))
        else
          var needs := NeedsOf(raw);
          if needs.None? then Failure(BadNeeds(id.s))
          else
            Success(ChainStep(id.s, kind.s, Or(Get(raw, Config), Obj([])), needs.value))
  }

  function ParseSteps(allowed: set<string>, raws: seq<Json>, done: seq<ChainStep>)
    : Result<seq<ChainStep>, CompileError>
  {
    if raws == [] then Success(done)
    else
      var step := ParseStep(allowed, raws[0], done);
      if step.Failure? then Failure(step.error)
      else ParseSteps(allowed, raws[1..], done + [step.value])
  }

  /** The first bad need of one step, from position j on. */
  function NeedError(steps: seq<ChainStep>, step: ChainStep, j: nat): Option<CompileError>
    requires j <= |step.needs|
    decreases |step.needs| - j
  {
    if j == |step.needs| then None
    else if !HasStep(steps, step.needs[j]) then Some(UnknownNeed(step.stepId, step.needs[j]))
    else if step.needs[j] == step.stepId then Some(SelfDependency(step.stepId))
    else NeedError(steps, step, j + 1)
  }

  /** The first bad need of the steps from position i on. */
  function NeedsError(steps: seq<ChainStep>, i: nat): Option<CompileError>
    requires i <= |steps|
    decreases |steps| - i
  {
    if i == |steps| then None
    else
      var error := NeedError(steps, steps[i], 0);
      if error.Some? then error else NeedsError(steps, i + 1)
  }

  // ----- Kahn's algorithm, without the counters -----

  ghost predicate UniqueIds(steps: seq<ChainStep>) {
    forall i, j :: 0 <= i < j < |steps| ==> steps[i].stepId != steps[j].stepId
  }

  /** What the counters stand for: no need is repeated and every need is done. */
  predicate Ready(step: ChainStep, done: seq<string>) {
    Distinct(step.needs) && forall n :: n in step.needs ==> n in done
  }

  /** The steps that popping `cur` makes ready, in step order. */
  function Released(steps: seq<ChainStep>, done: seq<string>, cur: string): seq<string> {
    if steps == [] then []
    else
      var last := steps[|steps| - 1];
      Released(steps[..|steps| - 1], done, cur) +
      (if cur in last.needs && Ready(last, done + [cur]) then [last.stepId] else [])
  }

  function Roots(steps: seq<ChainStep>): seq<string> {
    if steps == [] then []
    else
      var last := steps[|steps| - 1];
      Roots(steps[..|steps| - 1]) + (if last.needs == [] then [last.stepId] else [])
  }

  /** What holds each time round the loop: `order` is done, `ready` waits. */
  ghost predicate KahnState(steps: seq<ChainStep>, ready: seq<string>, order: seq<string>) {
    && UniqueIds(steps)
    && Distinct(order + ready)
    && (forall x :: x in order + ready ==> HasStep(steps, x))
    && (forall i :: 0 <= i < |steps| ==> (steps[i].stepId in order + ready <==> Ready(steps[i], order)))
    && (forall k, i :: 0 <= k < |order| && 0 <= i < |steps| && steps[i].stepId == order[k] ==>
         Ready(steps[i], order[..k]))
  }

  function NextReady(steps: seq<ChainStep>, ready: seq<string>, order: seq<string>): seq<string>
    requires ready != []
  {
    ready[1..] + Sorted(Released(steps, order, ready[0]))
  }

  lemma {:induction false} ReleasedElements(steps: seq<ChainStep>, done: seq<string>, cur: string)
    requires UniqueIds(steps)
    ensures forall i :: 0 <= i < |steps| ==>
      (steps[i].stepId in Released(steps, done, cur) <==> cur in steps[i].needs && Ready(steps[i], done + [cur]))
    ensures forall x :: x in Released(steps, done, cur) ==> HasStep(steps, x)
    ensures Distinct(Released(steps, done, cur))
  {
    if steps != [] {
      var last := |steps| - 1;
      ReleasedElements(steps[..last], done, cur);
      var front := Released(steps[..last], done, cur);
      forall x | x in front ensures HasStep(steps, x) && x != steps[last].stepId {
        var i :| 0 <= i < last && steps[..last][i].stepId == x;
      }
      forall i | 0 <= i < |steps|
        ensures steps[i].stepId in Released(steps, done, cur) <==>
          cur in steps[i].needs && Ready(steps[i], done + [cur])
      {
        if i < last { assert steps[..last][i] == steps[i]; }
      }
    }
  }

  lemma {:induction false} RootsElements(steps: seq<ChainStep>)
    requires UniqueIds(steps)
    ensures forall i :: 0 <= i < |steps| ==> (steps[i].stepId in Roots(steps) <==> steps[i].needs == [])
    ensures forall x :: x in Roots(steps) ==> HasStep(steps, x)
    ensures Distinct(Roots(steps))
  {
    if steps != [] {
      var last := |steps| - 1;
      RootsElements(steps[..last]);
      forall x | x in Roots(steps[..last]) ensures HasStep(steps, x) && x != steps[last].stepId {
        var i :| 0 <= i < last && steps[..last][i].stepId == x;
      }
      forall i | 0 <= i < |steps| ensures steps[i].stepId in Roots(steps) <==> steps[i].needs == [] {
        if i < last { assert steps[..last][i] == steps[i]; }
      }
    }
  }

  lemma KahnStart(steps: seq<ChainStep>)
    requires UniqueIds(steps)
    ensures KahnState(steps, Sorted(Roots(steps)), [])
  {
    RootsElements(steps);
    SortedElements(Roots(steps));
    SortedAscending(Roots(steps));
    AscendingDistinct(Sorted(Roots(steps)));
    assert [] + Sorted(Roots(steps)) == Sorted(Roots(steps));
    forall i | 0 <= i < |steps|
      ensures steps[i].stepId in Sorted(Roots(steps)) <==> Ready(steps[i], [])
    {
      if steps[i].needs != [] { assert steps[i].needs[0] in steps[i].needs; }
    }
  }

  lemma HeadIsNew(steps: seq<ChainStep>, ready: seq<string>, order: seq<string>)
    requires KahnState(steps, ready, order) && ready != []
    ensures ready[0] !in order
  {
    DistinctPrefix(order + ready, |order|);
    assert (order + ready)[..|order|] == order;
  }

  /** Nothing that popping `ready[0]` releases was released before. */
  lemma ReleasedIsNew(steps: seq<ChainStep>, ready: seq<string>, order: seq<string>)
    requires KahnState(steps, ready, order) && ready != []
    ensures forall x :: x in Released(steps, order, ready[0]) ==> x !in order + ready
  {
    var cur := ready[0];
    HeadIsNew(steps, ready, order);
    ReleasedElements(steps, order, cur);
    forall x | x in Released(steps, order, cur) ensures x !in order + ready {
      var i :| 0 <= i < |steps| && steps[i].stepId == x;
      assert !Ready(steps[i], order);
    }
  }

  lemma NextElements(steps: seq<ChainStep>, ready: seq<string>, order: seq<string>)
    requires KahnState(steps, ready, order) && ready != []
    ensures var all := (order + [ready[0]]) + NextReady(steps, ready, order);
      && Distinct(all)
      && (forall x :: x in all <==> x in order + ready || x in Released(steps, order, ready[0]))
  {
    var released := Released(steps, order, ready[0]);
    ReleasedElements(steps, order, ready[0]);
    ReleasedIsNew(steps, ready, order);
    SortedElements(released);
    SortedAscending(released);
    AscendingDistinct(Sorted(released));
    DistinctConcat(order + ready, Sorted(released));
    assert (order + [ready[0]]) + NextReady(steps, ready, order) == (order + ready) + Sorted(released);
  }

  lemma KahnNext(steps: seq<ChainStep>, ready: seq<string>, order: seq<string>)
    requires KahnState(steps, ready, order) && ready != []
    ensures KahnState(steps, NextReady(steps, ready, order), order + [ready[0]])
  {
    var cur := ready[0];
    var ready', order' := NextReady(steps, ready, order), order + [cur];
    ReleasedElements(steps, order, cur);
    NextElements(steps, ready, order);
    forall i | 0 <= i < |steps|
      ensures steps[i].stepId in order' + ready' <==> Ready(steps[i], order')
    {
      NextIsReady(steps, ready, order, i);
    }
    forall k, i | 0 <= k < |order'| && 0 <= i < |steps| && steps[i].stepId == order'[k]
      ensures Ready(steps[i], order'[..k])
    {
      assert order'[..k] == order[..k];
      if k == |order| {
        assert order[..k] == order;
        assert cur in order + ready;
      }
    }
  }

  lemma NextIsReady(steps: seq<ChainStep>, ready: seq<string>, order: seq<string>, i: nat)
    requires KahnState(steps, ready, order) && ready != [] && i < |steps|
    ensures steps[i].stepId in (order + [ready[0]]) + NextReady(steps, ready, order) <==>
      Ready(steps[i], order + [ready[0]])
  {
    ReleasedElements(steps, order, ready[0]);
    NextElements(steps, ready, order);
  }

  function Ids(steps: seq<ChainStep>): seq<string> {
    seq(|steps|, i requires 0 <= i < |steps| => steps[i].stepId)
  }

  lemma OrderIsBounded(steps: seq<ChainStep>, ready: seq<string>, order: seq<string>)
    requires KahnState(steps, ready, order)
    ensures |order + ready| <= |steps|
  {
    var all := order + ready;
    forall x | x in all ensures x in Ids(steps) {
      var i :| 0 <= i < |steps| && steps[i].stepId == x;
      assert Ids(steps)[i] == x;
    }
    ElementsCount(all);
    ElementsCount(Ids(steps));
    SubsetCount(Elements(all), Elements(Ids(steps)));
  }

  /** The order in which Kahn's algorithm emits steps from a given loop state. */
  ghost function Kahn(steps: seq<ChainStep>, ready: seq<string>, order: seq<string>): (result: seq<string>)
    requires KahnState(steps, ready, order)
    ensures KahnState(steps, [], result)
    decreases |steps| - |order|
  {
    if ready == [] then order
    else
      OrderIsBounded(steps, ready, order);
      KahnNext(steps, ready, order);
      Kahn(steps, NextReady(steps, ready, order), order + [ready[0]])
  }

  ghost function KahnOrder(steps: seq<ChainStep>): (result: seq<string>)
    requires UniqueIds(steps)
    ensures KahnState(steps, [], result)
  {
    KahnStart(steps);
    Kahn(steps, Sorted(Roots(steps)), [])
  }

  lemma {:induction false} ParsedIdsUnique(allowed: set<string>, raws: seq<Json>, done: seq<ChainStep>)
    requires UniqueIds(done)
    ensures var r := ParseSteps(allowed, raws, done); r.Success? ==> UniqueIds(r.value)
  {
    if raws != [] {
      var step := ParseStep(allowed, raws[0], done);
      if step.Success? {
        ParsedIdsUnique(allowed, raws[1..], done + [step.value]);
      }
    }
  }

  /** compile_chain as a function of its arguments, for any whitelist of step types. */
  ghost function CompileSpec(allowed: set<string>, chainId: string, version: int, definition: seq<Field>)
    : Result<CompiledChain, CompileError>
  {
    var rawSteps := GetField(definition, Steps);
    if !rawSteps.Arr? || rawSteps.items == [] then Failure(NoStepList)
    else
      var steps := ParseSteps(allowed, rawSteps.items, []);
      if steps.Failure? then Failure(steps.error)
      else
        ParsedIdsUnique(allowed, rawSteps.items, []);
        CompileSteps(chainId, version, steps.value)
  }

  /** Everything after the step list is parsed. */
  ghost function CompileSteps(chainId: string, version: int, steps: seq<ChainStep>)
    : Result<CompiledChain, CompileError>
    requires UniqueIds(steps)
  {
    var error := NeedsError(steps, 0);
    if error.Some? then Failure(error.value)
    else
      var order := KahnOrder(steps);
      if |order| != |steps| then Failure(Cycle)
      else Success(CompiledChain(chainId, version, steps, order))
  }

  // ----- The counters -----

  ghost function Pending(step: ChainStep, order: seq<string>): int {
    |step.needs| - |Elements(step.needs) * Elements(order)|
  }

  lemma PendingZero(step: ChainStep, order: seq<string>)
    ensures Pending(step, order) == 0 <==> Ready(step, order)
  {
    var needs, both := Elements(step.needs), Elements(step.needs) * Elements(order);
    ElementsCount(step.needs);
    SubsetCount(both, needs);
    assert forall n :: n in step.needs <==> n in needs;
    assert both == needs <==> forall n :: n in step.needs ==> n in order;
  }

  lemma PendingDrops(step: ChainStep, order: seq<string>, cur: string)
    requires cur !in order
    ensures Pending(step, order + [cur]) == Pending(step, order) - (if cur in step.needs then 1 else 0)
  {
    var needs, done := Elements(step.needs), Elements(order);
    assert Elements(order + [cur]) == done + {cur};
    if cur in step.needs {
      assert needs * (done + {cur}) == needs * done + {cur};
    } else {
      assert needs * (done + {cur}) == needs * done;
    }
  }

  ghost predicate Counts(steps: seq<ChainStep>, indeg: map<string, int>, order: seq<string>) {
    forall i :: 0 <= i < |steps| ==>
      steps[i].stepId in indeg && indeg[steps[i].stepId] == Pending(steps[i], order)
  }

  /** Halfway through Release: the steps before `i` have seen `cur` leave, the others not yet. */
  ghost predicate Midway(steps: seq<ChainStep>, indeg: map<string, int>, order: seq<string>, cur: string, i: nat) {
    forall k :: 0 <= k < |steps| ==>
      && steps[k].stepId in indeg
      && indeg[steps[k].stepId] == Pending(steps[k], if k < i then order + [cur] else order)
  }

  lemma MidwayNext(steps: seq<ChainStep>, indeg: map<string, int>, order: seq<string>, cur: string, i: nat)
    requires UniqueIds(steps) && i < |steps| && cur !in order && Midway(steps, indeg, order, cur, i)
    ensures Midway(steps, indeg[steps[i].stepId := Pending(steps[i], order + [cur])], order, cur, i + 1)
  {
  }

  lemma ReleasedNext(steps: seq<ChainStep>, order: seq<string>, cur: string, i: nat)
    requires i < |steps|
    ensures Released(steps[..i + 1], order, cur) == Released(steps[..i], order, cur) +
      if cur in steps[i].needs && Ready(steps[i], order + [cur]) then [steps[i].stepId] else []
  {
    assert steps[..i + 1][..i] == steps[..i];
  }

  // ----- The compiler -----

  method CheckNeeds(steps: seq<ChainStep>) returns (error: Option<CompileError>)
    ensures error == NeedsError(steps, 0)
  {
    for i := 0 to |steps|
      invariant NeedsError(steps, 0) == NeedsError(steps, i)
    {
      var step := steps[i];
      for j := 0 to |step.needs|
        invariant NeedError(steps, step, 0) == NeedError(steps, step, j)
      {
        if !HasStep(steps, step.needs[j]) {
          return Some(UnknownNeed(step.stepId, step.needs[j]));
        }
        if step.needs[j] == step.stepId {
          return Some(SelfDependency(step.stepId));
        }
      }
    }
    return None;
  }

  method CountNeeds(steps: seq<ChainStep>) returns (indeg: map<string, int>)
    requires UniqueIds(steps)
    ensures Counts(steps, indeg, [])
  {
    indeg := map[];
    for i := 0 to |steps|
      invariant forall k :: 0 <= k < i ==>
        steps[k].stepId in indeg && indeg[steps[k].stepId] == |steps[k].needs|
    {
      indeg := indeg[steps[i].stepId := 0];
      for j := 0 to |steps[i].needs|
        invariant forall k :: 0 <= k < i ==>
          steps[k].stepId in indeg && indeg[steps[k].stepId] == |steps[k].needs|
        invariant steps[i].stepId in indeg && indeg[steps[i].stepId] == j
      {
        indeg := indeg[steps[i].stepId := indeg[steps[i].stepId] + 1];
      }
    }
    forall i | 0 <= i < |steps| ensures Pending(steps[i], []) == |steps[i].needs| {
      assert Elements(steps[i].needs) * Elements([]) == {};
    }
  }

  method InitiallyReady(steps: seq<ChainStep>, indeg: map<string, int>) returns (ready: seq<string>)
    requires UniqueIds(steps) && Counts(steps, indeg, [])
    ensures ready == Sorted(Roots(steps))
  {
    var zero := [];
    for i := 0 to |steps|
      invariant zero == Roots(steps[..i])
    {
      assert steps[..i + 1][..i] == steps[..i];
      assert Elements(steps[i].needs) * Elements([]) == {};
      if indeg[steps[i].stepId] == 0 {
        zero := zero + [steps[i].stepId];
      }
    }
    assert steps[..|steps|] == steps;
    ready := Sorted(zero);
  }

  /** The inner loop: decrement the dependents of `cur` and collect those that reach zero. */
  method Release(steps: seq<ChainStep>, indeg: map<string, int>, cur: string, ghost order: seq<string>)
    returns (indeg': map<string, int>, nextReady: seq<string>)
    requires UniqueIds(steps) && Counts(steps, indeg, order) && cur !in order
    ensures Counts(steps, indeg', order + [cur])
    ensures nextReady == Released(steps, order, cur)
  {
    indeg' := indeg;
    nextReady := [];
    for i := 0 to |steps|
      invariant nextReady == Released(steps[..i], order, cur)
      invariant Midway(steps, indeg', order, cur, i)
    {
      var step := steps[i];
      ReleasedNext(steps, order, cur, i);
      MidwayNext(steps, indeg', order, cur, i);
      PendingDrops(step, order, cur);
      PendingZero(step, order + [cur]);
      if cur in step.needs {
        indeg' := indeg'[step.stepId := indeg'[step.stepId] - 1];
        if indeg'[step.stepId] == 0 {
          nextReady := nextReady + [step.stepId];
        }
      }
    }
    assert steps[..|steps|] == steps;
  }

  method TopologicalOrder(steps: seq<ChainStep>) returns (order: seq<string>)
    requires UniqueIds(steps)
    ensures order == KahnOrder(steps)
  {
    var indeg := CountNeeds(steps);
    var ready := InitiallyReady(steps, indeg);
    KahnStart(steps);
    order := [];
    while ready != []
      invariant KahnState(steps, ready, order) && Counts(steps, indeg, order)
      invariant KahnOrder(steps) == Kahn(steps, ready, order)
      decreases |steps| - |order|
    {
      OrderIsBounded(steps, ready, order);
      KahnNext(steps, ready, order);
      var cur := ready[0];
      HeadIsNew(steps, ready, order);
      var nextReady;
      indeg, nextReady := Release(steps, indeg, cur, order);
      ready := ready[1..] + Sorted(nextReady);
      order := order + [cur];
    }
  }

  method Compile(chainId: string, version: int, definition: seq<Field>)
    returns (result: Result<CompiledChain, CompileError>)
    ensures result == CompileSpec(ALLOWED_STEP_TYPES, chainId, version, definition)
  {
    var rawSteps := GetField(definition, Steps);
    if !rawSteps.Arr? || rawSteps.items == [] {
      return Failure(NoStepList);
    }
    var steps := [];
    for i := 0 to |rawSteps.items|
      invariant ParseSteps(ALLOWED_STEP_TYPES, rawSteps.items, []) ==
        ParseSteps(ALLOWED_STEP_TYPES, rawSteps.items[i..], steps)
    {
      assert rawSteps.items[i..][1..] == rawSteps.items[i + 1..];
      var step := ParseStep(ALLOWED_STEP_TYPES, rawSteps.items[i], steps);
      if step.Failure? {
        return Failure(step.error);
      }
      steps := steps + [step.value];
    }
    ParsedIdsUnique(ALLOWED_STEP_TYPES, rawSteps.items, []);
    var error := CheckNeeds(steps);
    if error.Some? {
      return Failure(error.value);
    }
    var order := TopologicalOrder(steps);
    if |order| != |steps| {
      return Failure(Cycle);
    }
    return Success(CompiledChain(chainId, version, steps, order));
  }
}
