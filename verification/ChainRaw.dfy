/**
 * What compilation means for the definition itself: which steps a raw list denotes, when it is accepted,
 * and in which order it runs, without the parser or the algorithm.
 */
module ChainRaw {
  import opened Wrappers
  import opened JsonValues
  import opened SortedIds
  import opened ChainCompiler
  import opened ChainTheorems
  import opened ChainArrangement
  import opened ChainOrder

  /** A needs member: blank for none, else a list of exactly these strings. */
  predicate DenotesNeeds(v: Json, needs: seq<string>) {
    || (Blank(v) && needs == [])
    || (v.Arr? && |v.items| == |needs| && forall j :: 0 <= j < |needs| ==> v.items[j] == Str(needs[j]))
  }

  /** The identifier is step_id, or id where step_id is blank; type is whitelisted; config defaults to {}. */
  ghost predicate Denotes(allowed: set<string>, raw: Json, step: ChainStep) {
    && raw.Obj? && step.stepId != ""
    && (|| Get(raw, StepId) == Str(step.stepId)
        || (Blank(Get(raw, StepId)) && Get(raw, Id) == Str(step.stepId)))
    && Get(raw, Type) == Str(step.kind) && step.kind in allowed
    && DenotesNeeds(Get(raw, Needs), step.needs)
    && step.config == (if Blank(Get(raw, Config)) then Obj([]) else Get(raw, Config))
  }

  lemma {:induction false} StringsMean(items: seq<Json>, needs: seq<string>)
    ensures Strings(items) == Some(needs) <==>
      |items| == |needs| && forall j :: 0 <= j < |needs| ==> items[j] == Str(needs[j])
  {
    if items != [] && needs != [] {
      StringsMean(items[1..], needs[1..]);
      assert needs == [needs[0]] + needs[1..];
      if |items| == |needs| && forall j :: 0 <= j < |needs| ==> items[j] == Str(needs[j]) {
        assert forall j :: 0 <= j < |needs| - 1 ==> items[1..][j] == Str(needs[1..][j]);
      }
      if Strings(items) == Some(needs) {
        forall j | 0 <= j < |needs| ensures items[j] == Str(needs[j]) {
          if j > 0 { assert items[1..][j - 1] == Str(needs[1..][j - 1]); }
        }
      }
    }
  }

  lemma NeedsMean(raw: Json, needs: seq<string>)
    ensures NeedsOf(raw) == Some(needs) <==> DenotesNeeds(Get(raw, Needs), needs)
  {
    var v := Get(raw, Needs);
    TruthyMeans(v);
    if v.Arr? {
      StringsMean(v.items, needs);
    }
  }

  /** A raw step parses to exactly the step that it denotes. */
  lemma StepDenotes(allowed: set<string>, raw: Json, step: ChainStep)
    ensures ParseStep(allowed, raw, []) == Success(step) <==> Denotes(allowed, raw, step)
  {
    TruthyMeans(Get(raw, StepId));
    TruthyMeans(Get(raw, Id));
    TruthyMeans(Get(raw, Config));
    NeedsMean(raw, step.needs);
    var parsed := ParseStep(allowed, raw, []);
    if parsed.Success? {
      NeedsMean(raw, parsed.value.needs);
    }
    assert !HasStep([], step.stepId);
  }

  ghost predicate DenotesAll(allowed: set<string>, raws: seq<Json>, steps: seq<ChainStep>) {
    |steps| == |raws| && forall i :: 0 <= i < |raws| ==> Denotes(allowed, raws[i], steps[i])
  }

  lemma OneDenotes(allowed: set<string>, raw: Json, step: ChainStep)
    ensures Denotes(allowed, raw, step) <==> Parses(allowed, raw) && StepOf(allowed, raw) == step
  {
    StepDenotes(allowed, raw, step);
  }

  lemma AllDenote(allowed: set<string>, raws: seq<Json>, steps: seq<ChainStep>)
    ensures DenotesAll(allowed, raws, steps) <==> AllParse(allowed, raws) && steps == StepsOf(allowed, raws)
  {
    var parsed := StepsOf(allowed, raws);
    if |steps| == |raws| {
      forall i | 0 <= i < |raws|
        ensures Denotes(allowed, raws[i], steps[i]) <==> Parses(allowed, raws[i]) && parsed[i] == steps[i]
      {
        OneDenotes(allowed, raws[i], steps[i]);
      }
    }
  }

  /** A step list parses to exactly the steps that it denotes, when their identifiers are distinct. */
  lemma StepsDenote(allowed: set<string>, raws: seq<Json>, steps: seq<ChainStep>)
    ensures ParseSteps(allowed, raws, []) == Success(steps) <==>
      DenotesAll(allowed, raws, steps) && UniqueIds(steps)
  {
    ParseStepsMeans(allowed, raws, []);
    assert [] + StepsOf(allowed, raws) == StepsOf(allowed, raws);
    AllDenote(allowed, raws, steps);
  }

  /** A chain that a definition may compile to. */
  ghost predicate ChainOf(allowed: set<string>, chainId: string, version: int, raws: seq<Json>, chain: CompiledChain) {
    && chain.chainId == chainId && chain.version == version
    && DenotesAll(allowed, raws, chain.steps) && UniqueIds(chain.steps)
    && NeedsKnown(chain.steps) && Acyclic(chain.steps) && NoRepeatedNeeds(chain.steps)
    && IsArrangement(chain.steps, chain.executionOrder) && Topological(chain.steps, chain.executionOrder)
    && FifoOrder(chain.steps, chain.executionOrder)
  }

  /**
   * The whole compiler: a definition compiles to a chain if and only if its step list is not empty and
   * denotes the chain's steps, with distinct identifiers, known needs, no repeated need and no cycle, and
   * the chain's order is the topological one by last need and string order.
   */
  lemma CompilesToIff(allowed: set<string>, chainId: string, version: int, definition: seq<Field>, chain: CompiledChain)
    ensures CompileSpec(allowed, chainId, version, definition) == Success(chain) <==>
      var list := GetField(definition, Steps);
      list.Arr? && list.items != [] && ChainOf(allowed, chainId, version, list.items, chain)
  {
    var list := GetField(definition, Steps);
    if list.Arr? && list.items != [] {
      StepsDenote(allowed, list.items, chain.steps);
      var parsed := ParseSteps(allowed, list.items, []);
      if parsed.Success? {
        StepsDenote(allowed, list.items, parsed.value);
        CompileStepsIff(chainId, version, parsed.value);
        if CompileSteps(chainId, version, parsed.value).Success? {
          KahnOrderIff(parsed.value, chain.executionOrder);
        }
      }
    }
  }

  predicate StandsBefore(order: seq<string>, x: string, y: string) {
    exists j, k :: 0 <= j < k < |order| && order[j] == x && order[k] == y
  }

  /** Every raw need stands in the order, before the step that needs it. */
  lemma RawNeedsComeFirst(allowed: set<string>, chainId: string, version: int, definition: seq<Field>,
                          raws: seq<Json>, chain: CompiledChain, i: nat, n: string)
    requires GetField(definition, Steps) == Arr(raws) && i < |raws|
    requires CompileSpec(allowed, chainId, version, definition) == Success(chain)
    requires Get(raws[i], Needs).Arr? && Str(n) in Get(raws[i], Needs).items
    ensures i < |chain.steps| && Denotes(allowed, raws[i], chain.steps[i])
    ensures StandsBefore(chain.executionOrder, n, chain.steps[i].stepId)
  {
    CompilesToIff(allowed, chainId, version, definition, chain);
    var order, step := chain.executionOrder, chain.steps[i];
    assert Denotes(allowed, raws[i], step);
    var m :| 0 <= m < |Get(raws[i], Needs).items| && Get(raws[i], Needs).items[m] == Str(n);
    assert step.needs[m] == n;
    assert HasStep(chain.steps, step.stepId);
    var k :| 0 <= k < |order| && order[k] == step.stepId;
    assert n in order[..k];
    var j :| 0 <= j < k && order[j] == n;
  }

  // ----- Why a definition is refused -----

  ghost predicate NamedBy(raw: Json, id: string) {
    && raw.Obj? && id != ""
    && (Get(raw, StepId) == Str(id) || (Blank(Get(raw, StepId)) && Get(raw, Id) == Str(id)))
  }

  ghost predicate TypeIn(allowed: set<string>, raw: Json) {
    Get(raw, Type).Str? && Get(raw, Type).s in allowed
  }

  /** `error` is what is wrong with a raw step that comes after the steps `done`. */
  ghost predicate Fault(allowed: set<string>, raw: Json, done: seq<ChainStep>, error: CompileError) {
    match error
    case StepNotObject => !raw.Obj?
    case MissingStepId => raw.Obj? && forall id :: !NamedBy(raw, id)
    case DuplicateStepId(id) => NamedBy(raw, id) && HasStep(done, id)
    case UnhashableType(id) => NamedBy(raw, id) && !HasStep(done, id) && (Get(raw, Type).Arr? || Get(raw, Type).Obj?)
    case UnknownType(id) =>
      && NamedBy(raw, id) && !HasStep(done, id)
      && !Get(raw, Type).Arr? && !Get(raw, Type).Obj? && !TypeIn(allowed, raw)
    case BadNeeds(id) =>
      && NamedBy(raw, id) && !HasStep(done, id) && TypeIn(allowed, raw)
      && forall needs :: !DenotesNeeds(Get(raw, Needs), needs)
    case _ => false
  }

  lemma StepFault(allowed: set<string>, raw: Json, done: seq<ChainStep>)
    requires ParseStep(allowed, raw, done).Failure?
    ensures Fault(allowed, raw, done, ParseStep(allowed, raw, done).error)
  {
    TruthyMeans(Get(raw, StepId));
    TruthyMeans(Get(raw, Id));
    forall needs ensures NeedsOf(raw) == Some(needs) <==> DenotesNeeds(Get(raw, Needs), needs) {
      NeedsMean(raw, needs);
    }
  }

  /** A refused step list is refused for its first bad step. */
  lemma {:induction false} FirstFault(allowed: set<string>, raws: seq<Json>, done: seq<ChainStep>)
    returns (i: nat, before: seq<ChainStep>)
    requires ParseSteps(allowed, raws, done).Failure?
    ensures i < |raws| && ParseSteps(allowed, raws[..i], done) == Success(before)
    ensures Fault(allowed, raws[i], before, ParseSteps(allowed, raws, done).error)
  {
    var step := ParseStep(allowed, raws[0], done);
    if step.Failure? {
      i, before := 0, done;
      StepFault(allowed, raws[0], done);
    } else {
      i, before := FirstFault(allowed, raws[1..], done + [step.value]);
      i := i + 1;
      assert raws[..i][0] == raws[0] && raws[..i][1..] == raws[1..][..i - 1];
    }
  }

  predicate GoodNeed(steps: seq<ChainStep>, i: nat, j: nat)
    requires i < |steps| && j < |steps[i].needs|
  {
    HasStep(steps, steps[i].needs[j]) && steps[i].needs[j] != steps[i].stepId
  }

  lemma {:induction false} FirstBadInStep(steps: seq<ChainStep>, i: nat, from: nat) returns (j: nat)
    requires i < |steps| && from <= |steps[i].needs| && NeedError(steps, steps[i], from).Some?
    ensures from <= j < |steps[i].needs| && !GoodNeed(steps, i, j)
    ensures forall l :: from <= l < j ==> GoodNeed(steps, i, l)
    ensures NeedError(steps, steps[i], from).value ==
      if HasStep(steps, steps[i].needs[j]) then SelfDependency(steps[i].stepId)
      else UnknownNeed(steps[i].stepId, steps[i].needs[j])
    decreases |steps[i].needs| - from
  {
    if GoodNeed(steps, i, from) {
      j := FirstBadInStep(steps, i, from + 1);
    } else {
      j := from;
    }
  }

  /** Needs are refused for the first one, in step order, that is unknown or the step itself. */
  lemma {:induction false} FirstBadNeed(steps: seq<ChainStep>, from: nat) returns (i: nat, j: nat)
    requires from <= |steps| && NeedsError(steps, from).Some?
    ensures from <= i < |steps| && j < |steps[i].needs| && !GoodNeed(steps, i, j)
    ensures forall l :: 0 <= l < j ==> GoodNeed(steps, i, l)
    ensures forall k, l :: from <= k < i && 0 <= l < |steps[k].needs| ==> GoodNeed(steps, k, l)
    ensures NeedsError(steps, from).value ==
      if HasStep(steps, steps[i].needs[j]) then SelfDependency(steps[i].stepId)
      else UnknownNeed(steps[i].stepId, steps[i].needs[j])
    decreases |steps| - from
  {
    if NeedError(steps, steps[from], 0).Some? {
      i := from;
      j := FirstBadInStep(steps, from, 0);
    } else {
      NeedErrorMeans(steps, steps[from], 0);
      i, j := FirstBadNeed(steps, from + 1);
    }
  }

  /**
   * The refusals in their order: no list; then a bad step; then a bad need; and a cycle is reported
   * exactly for steps that are otherwise fine and have a cycle or a repeated need.
   */
  lemma RefusedFor(allowed: set<string>, chainId: string, version: int, definition: seq<Field>)
    ensures var r, list := CompileSpec(allowed, chainId, version, definition), GetField(definition, Steps);
      && (r == Failure(NoStepList) <==> !list.Arr? || list.items == [])
      && (list.Arr? && list.items != [] ==> var parsed := ParseSteps(allowed, list.items, []);
          && (parsed.Failure? ==> r == Failure(parsed.error))
          && (parsed.Success? ==> var bad := NeedsError(parsed.value, 0);
              && (bad.Some? ==> r == Failure(bad.value))
              && (r == Failure(Cycle) <==>
                  NeedsKnown(parsed.value) && !(Acyclic(parsed.value) && NoRepeatedNeeds(parsed.value)))))
  {
    var list := GetField(definition, Steps);
    if list.Arr? && list.items != [] {
      var parsed := ParseSteps(allowed, list.items, []);
      if parsed.Success? {
        ParsedIdsUnique(allowed, list.items, []);
        CompileStepsIff(chainId, version, parsed.value);
        NeedsErrorMeans(parsed.value, 0);
        if NeedsError(parsed.value, 0).Some? {
          var i, j := FirstBadNeed(parsed.value, 0);
        }
      } else {
        var i, before := FirstFault(allowed, list.items, []);
      }
    }
  }
}
