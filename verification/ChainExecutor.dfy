/**
 * Executing a compiled chain: the context is threaded through the steps in execution order.
 * For executors that read only their needs and the initial context, every topological order gives
 * the same results: those of a recursive evaluator that follows the needs.
 */
module ChainExecutor {
  import opened Wrappers
  import opened JsonValues
  import opened SortedIds
  import opened ChainCompiler
  import opened ChainTheorems

  type Context = map<string, Json>

  /** A step executor: None stands for an exception. */
  type Executor = (ChainStep, Context) -> Option<Json>

  datatype ExecutionError = NoExecutor(kind: string) | StepRaised(stepId: string)

  function Find(steps: seq<ChainStep>, id: string): (step: ChainStep)
    requires HasStep(steps, id)
    ensures step in steps && step.stepId == id
  {
    if steps[0].stepId == id then steps[0]
    else
      assert HasStep(steps[1..], id) by {
        var i :| 0 <= i < |steps| && steps[i].stepId == id;
        assert steps[1..][i - 1] == steps[i];
      }
      Find(steps[1..], id)
  }

  /** The steps of `order` that are still to run, given the results so far. */
  function Run(steps: seq<ChainStep>, exes: map<string, Executor>, initial: Context,
               order: seq<string>, results: Context): Result<Context, ExecutionError>
    requires forall x :: x in order ==> HasStep(steps, x)
    decreases |order|
  {
    if order == [] then Success(results)
    else
      var step := Find(steps, order[0]);
      if step.kind !in exes then Failure(NoExecutor(step.kind))
      else
        var out := exes[step.kind](step, initial + results);
        if out.None? then Failure(StepRaised(order[0]))
        else Run(steps, exes, initial, order[1..], results[order[0] := out.value])
  }

  method Execute(chain: CompiledChain, defaults: map<string, Executor>, overrides: map<string, Executor>,
                 initial: Context)
    returns (r: Result<Context, ExecutionError>)
    requires forall x :: x in chain.executionOrder ==> HasStep(chain.steps, x)
    ensures r == Run(chain.steps, defaults + overrides, initial, chain.executionOrder, map[])
  {
    var exes := defaults + overrides;
    var order := chain.executionOrder;
    var ctx := initial;
    var results: Context := map[];
    for i := 0 to |order|
      invariant ctx == initial + results
      invariant Run(chain.steps, exes, initial, order, map[]) == Run(chain.steps, exes, initial, order[i..], results)
    {
      assert order[i..][0] == order[i] && order[i..][1..] == order[i + 1..];
      var step := Find(chain.steps, order[i]);
      if step.kind !in exes {
        return Failure(NoExecutor(step.kind));
      }
      var out := exes[step.kind](step, ctx);
      if out.None? {
        return Failure(StepRaised(order[i]));
      }
      results := results[order[i] := out.value];
      ctx := ctx[order[i] := out.value];
    }
    return Success(results);
  }

  // ----- Executors that read only their needs -----

  /** The contexts agree on what `step` may read: its needs, and keys that are not step results. */
  ghost predicate Agree(steps: seq<ChainStep>, step: ChainStep, c: Context, d: Context) {
    forall k :: k in step.needs || !HasStep(steps, k) ==>
      (k in c <==> k in d) && (k in c ==> c[k] == d[k])
  }

  ghost predicate Local(steps: seq<ChainStep>, exes: map<string, Executor>) {
    forall step, c, d :: step in steps && step.kind in exes && Agree(steps, step, c, d) ==>
      exes[step.kind](step, c) == exes[step.kind](step, d)
  }

  /** What `step` yields in context `c`; None when it has no executor or raises. */
  function Yield(exes: map<string, Executor>, step: ChainStep, c: Context): Option<Json> {
    if step.kind in exes then exes[step.kind](step, c) else None
  }

  lemma LocalYield(steps: seq<ChainStep>, exes: map<string, Executor>, step: ChainStep, c: Context, d: Context)
    requires Local(steps, exes) && step in steps && Agree(steps, step, c, d)
    ensures Yield(exes, step, c) == Yield(exes, step, d)
  {
  }

  /** Results in which every step's value is what it yields from the others. */
  ghost predicate Solution(steps: seq<ChainStep>, exes: map<string, Executor>, initial: Context, r: Context) {
    && (forall x :: x in r <==> HasStep(steps, x))
    && forall x :: HasStep(steps, x) ==> Yield(exes, Find(steps, x), initial + r) == Some(r[x])
  }

  function Prefix(r: Context, done: seq<string>): Context {
    map x | x in done && x in r :: r[x]
  }

  lemma FindInOrder(steps: seq<ChainStep>, order: seq<string>, k: nat)
    requires Topological(steps, order) && k < |order| && HasStep(steps, order[k])
    ensures forall n :: n in Find(steps, order[k]).needs ==> n in order[..k]
  {
    var step := Find(steps, order[k]);
    var i :| 0 <= i < |steps| && steps[i] == step;
  }

  /** Before its turn, a step already sees what it will see in the end. */
  lemma AgreeAtTurn(steps: seq<ChainStep>, initial: Context, order: seq<string>, r: Context, k: nat)
    requires Topological(steps, order) && IsArrangement(steps, order) && k < |order|
    requires forall x :: x in r ==> HasStep(steps, x)
    requires forall x :: x in order[..k] ==> x in r
    ensures Agree(steps, Find(steps, order[k]), initial + Prefix(r, order[..k]), initial + r)
  {
    FindInOrder(steps, order, k);
  }

  lemma RunStep(steps: seq<ChainStep>, exes: map<string, Executor>, initial: Context,
                order: seq<string>, k: nat, results: Context, v: Json)
    requires k < |order| && forall x :: x in order ==> HasStep(steps, x)
    requires Yield(exes, Find(steps, order[k]), initial + results) == Some(v)
    ensures Run(steps, exes, initial, order[k..], results) ==
      Run(steps, exes, initial, order[k + 1..], results[order[k] := v])
  {
    assert order[k..][0] == order[k] && order[k..][1..] == order[k + 1..];
  }

  lemma PrefixExtends(r: Context, order: seq<string>, k: nat)
    requires k < |order| && order[k] in r
    ensures Prefix(r, order[..k + 1]) == Prefix(r, order[..k])[order[k] := r[order[k]]]
  {
    assert order[..k + 1] == order[..k] + [order[k]];
  }

  /** At its turn, a step yields what the solution has for it. */
  lemma SolutionAtTurn(steps: seq<ChainStep>, exes: map<string, Executor>, initial: Context,
                       order: seq<string>, r: Context, k: nat)
    requires Topological(steps, order) && IsArrangement(steps, order) && k < |order|
    requires Local(steps, exes) && Solution(steps, exes, initial, r)
    ensures HasStep(steps, order[k]) && order[k] in r
    ensures Yield(exes, Find(steps, order[k]), initial + Prefix(r, order[..k])) == Some(r[order[k]])
  {
    AgreeAtTurn(steps, initial, order, r, k);
    LocalYield(steps, exes, Find(steps, order[k]), initial + Prefix(r, order[..k]), initial + r);
  }

  lemma PrefixIsAll(steps: seq<ChainStep>, order: seq<string>, r: Context)
    requires IsArrangement(steps, order) && forall x :: x in r <==> HasStep(steps, x)
    ensures Prefix(r, order) == r
  {
  }

  /** A solution is found by running any topological order. */
  lemma {:induction false} RunFindsSolution(steps: seq<ChainStep>, exes: map<string, Executor>, initial: Context,
                                            order: seq<string>, r: Context, k: nat)
    requires Topological(steps, order) && IsArrangement(steps, order) && k <= |order|
    requires Local(steps, exes) && Solution(steps, exes, initial, r)
    ensures Run(steps, exes, initial, order[k..], Prefix(r, order[..k])) == Success(r)
    decreases |order| - k
  {
    if k == |order| {
      assert order[..k] == order;
      PrefixIsAll(steps, order, r);
    } else {
      SolutionAtTurn(steps, exes, initial, order, r, k);
      RunStep(steps, exes, initial, order, k, Prefix(r, order[..k]), r[order[k]]);
      PrefixExtends(r, order, k);
      RunFindsSolution(steps, exes, initial, order, r, k + 1);
    }
  }

  /** The results so far: one for each step already run, each as it will still be in the end. */
  ghost predicate Partial(steps: seq<ChainStep>, exes: map<string, Executor>, initial: Context,
                          done: seq<string>, results: Context)
  {
    && (forall x :: x in results <==> x in done)
    && forall x :: x in done && HasStep(steps, x) ==>
      Yield(exes, Find(steps, x), initial + results) == Some(results[x])
  }

  lemma PartialExtends(steps: seq<ChainStep>, exes: map<string, Executor>, initial: Context,
                       order: seq<string>, results: Context, k: nat, v: Json)
    requires Topological(steps, order) && IsArrangement(steps, order) && k < |order| && Local(steps, exes)
    requires Partial(steps, exes, initial, order[..k], results)
    requires Yield(exes, Find(steps, order[k]), initial + results) == Some(v)
    ensures Partial(steps, exes, initial, order[..k + 1], results[order[k] := v])
  {
    var x, after := order[k], results[order[k] := v];
    DistinctPrefix(order, k);
    assert order[..k + 1] == order[..k] + [x];
    forall y | y in order[..k + 1]
      ensures HasStep(steps, y)
      ensures Yield(exes, Find(steps, y), initial + after) == Yield(exes, Find(steps, y), initial + results)
    {
      var m :| 0 <= m <= k && order[m] == y;
      FindInOrder(steps, order, m);
      assert order[..m] <= order[..k];
      assert HasStep(steps, x);
      LocalYield(steps, exes, Find(steps, y), initial + after, initial + results);
    }
  }

  /** Whatever a topological order computes is a solution. */
  lemma {:induction false} RunIsSolution(steps: seq<ChainStep>, exes: map<string, Executor>, initial: Context,
                                         order: seq<string>, results: Context, k: nat)
    requires Topological(steps, order) && IsArrangement(steps, order) && k <= |order|
    requires Local(steps, exes) && Partial(steps, exes, initial, order[..k], results)
    ensures var r := Run(steps, exes, initial, order[k..], results);
      r.Success? ==> Solution(steps, exes, initial, r.value)
    decreases |order| - k
  {
    if k == |order| {
      assert order[..k] == order;
    } else {
      var out := Yield(exes, Find(steps, order[k]), initial + results);
      if out.Some? {
        PartialExtends(steps, exes, initial, order, results, k, out.value);
        assert order[k..][1..] == order[k + 1..];
        RunIsSolution(steps, exes, initial, order, results[order[k] := out.value], k + 1);
      }
    }
  }

  /** Executing along a topological order succeeds with r exactly when r is a solution. */
  lemma RunIffSolution(steps: seq<ChainStep>, exes: map<string, Executor>, initial: Context,
                       order: seq<string>, r: Context)
    requires Topological(steps, order) && IsArrangement(steps, order) && Local(steps, exes)
    ensures Run(steps, exes, initial, order, map[]) == Success(r) <==> Solution(steps, exes, initial, r)
  {
    assert order[0..] == order && order[..0] == [];
    RunIsSolution(steps, exes, initial, order, map[], 0);
    if Solution(steps, exes, initial, r) {
      RunFindsSolution(steps, exes, initial, order, r, 0);
      assert Prefix(r, []) == map[];
    }
  }

  /**
   * Confluence: any two topological orders succeed with the same results, or both raise. Only which
   * step raises first may differ.
   */
  lemma Confluence(steps: seq<ChainStep>, exes: map<string, Executor>, initial: Context,
                   order1: seq<string>, order2: seq<string>)
    requires Topological(steps, order1) && IsArrangement(steps, order1)
    requires Topological(steps, order2) && IsArrangement(steps, order2)
    requires Local(steps, exes)
    ensures var r1, r2 := Run(steps, exes, initial, order1, map[]), Run(steps, exes, initial, order2, map[]);
      r1 == r2 || (r1.Failure? && r2.Failure?)
  {
    var r1, r2 := Run(steps, exes, initial, order1, map[]), Run(steps, exes, initial, order2, map[]);
    if r1.Success? {
      RunIffSolution(steps, exes, initial, order1, r1.value);
      RunIffSolution(steps, exes, initial, order2, r1.value);
    } else if r2.Success? {
      RunIffSolution(steps, exes, initial, order1, r2.value);
      RunIffSolution(steps, exes, initial, order2, r2.value);
    }
  }

  /** A successful run never overwrites an earlier result. */
  lemma {:induction false} EarlierKept(steps: seq<ChainStep>, exes: map<string, Executor>, initial: Context,
                                       order: seq<string>, results: Context, k: nat, r: Context)
    requires Distinct(order) && k <= |order| && forall x :: x in order ==> HasStep(steps, x)
    requires forall x :: x in results <==> x in order[..k]
    requires Run(steps, exes, initial, order[k..], results) == Success(r)
    ensures results == Prefix(r, order[..k]) && forall x :: x in order ==> x in r
    decreases |order| - k
  {
    if k == |order| {
      assert order[..k] == order;
    } else {
      var v := Yield(exes, Find(steps, order[k]), initial + results).value;
      RunStep(steps, exes, initial, order, k, results, v);
      DistinctPrefix(order, k);
      assert order[..k + 1] == order[..k] + [order[k]];
      EarlierKept(steps, exes, initial, order, results[order[k] := v], k + 1, r);
    }
  }

  lemma NextYield(steps: seq<ChainStep>, exes: map<string, Executor>, initial: Context,
                  order: seq<string>, r: Context, k: nat)
    requires IsArrangement(steps, order) && k < |order| && forall x :: x in order ==> x in r
    requires Run(steps, exes, initial, order[k..], Prefix(r, order[..k])) == Success(r)
    ensures Yield(exes, Find(steps, order[k]), initial + Prefix(r, order[..k])) == Some(r[order[k]])
  {
    var seen := Prefix(r, order[..k]);
    var v := Yield(exes, Find(steps, order[k]), initial + seen).value;
    RunStep(steps, exes, initial, order, k, seen, v);
    assert order[..k + 1] == order[..k] + [order[k]];
    EarlierKept(steps, exes, initial, order, seen[order[k] := v], k + 1, r);
    assert Prefix(r, order[..k + 1])[order[k]] == v;
  }

  /** A successful run passes through the results of every prefix of its order. */
  lemma {:induction false} TurnReached(steps: seq<ChainStep>, exes: map<string, Executor>, initial: Context,
                                       order: seq<string>, r: Context, k: nat)
    requires IsArrangement(steps, order) && k <= |order|
    requires Run(steps, exes, initial, order, map[]) == Success(r)
    ensures Run(steps, exes, initial, order[k..], Prefix(r, order[..k])) == Success(r)
    ensures forall x :: x in order ==> x in r
  {
    if k == 0 {
      assert order[0..] == order && Prefix(r, order[..0]) == map[];
      EarlierKept(steps, exes, initial, order, map[], 0, r);
    } else {
      TurnReached(steps, exes, initial, order, r, k - 1);
      NextYield(steps, exes, initial, order, r, k - 1);
      RunStep(steps, exes, initial, order, k - 1, Prefix(r, order[..k - 1]), r[order[k - 1]]);
      PrefixExtends(r, order, k - 1);
    }
  }

  /**
   * When a run succeeds, for whatever executors, the k-th step runs with exactly the earlier results in
   * the context, all its needs among them, what it yields is its result, and no step runs twice.
   */
  lemma ContextAtTurn(steps: seq<ChainStep>, exes: map<string, Executor>, initial: Context,
                      order: seq<string>, r: Context, k: nat)
    requires Topological(steps, order) && IsArrangement(steps, order) && k < |order|
    requires Run(steps, exes, initial, order, map[]) == Success(r)
    ensures order[k] in r
    ensures var seen := Prefix(r, order[..k]);
      && Run(steps, exes, initial, order[k..], seen) == Success(r)
      && Yield(exes, Find(steps, order[k]), initial + seen) == Some(r[order[k]])
      && (forall n :: n in Find(steps, order[k]).needs ==> n in seen && seen[n] == r[n])
      && order[k] !in seen
  {
    TurnReached(steps, exes, initial, order, r, k);
    NextYield(steps, exes, initial, order, r, k);
    FindInOrder(steps, order, k);
    DistinctPrefix(order, k);
  }

  /**
   * When a run fails, it is at the first step that has no executor or raises: the steps before it have
   * their results, and the error names what is missing or who raised.
   */
  lemma {:induction false} FailsAt(steps: seq<ChainStep>, exes: map<string, Executor>, initial: Context,
                                   order: seq<string>, results: Context)
    returns (k: nat, seen: Context)
    requires forall x :: x in order ==> HasStep(steps, x)
    requires Run(steps, exes, initial, order, results).Failure?
    ensures k < |order| && forall x :: x in seen <==> x in results || x in order[..k]
    ensures Run(steps, exes, initial, order[..k], results) == Success(seen)
    ensures var step, error := Find(steps, order[k]), Run(steps, exes, initial, order, results).error;
      && (step.kind !in exes ==> error == NoExecutor(step.kind))
      && (step.kind in exes ==> exes[step.kind](step, initial + seen) == None && error == StepRaised(order[k]))
    decreases |order|
  {
    var v := Yield(exes, Find(steps, order[0]), initial + results);
    if v.None? {
      k, seen := 0, results;
    } else {
      k, seen := FailsAt(steps, exes, initial, order[1..], results[order[0] := v.value]);
      k := k + 1;
      assert order[..k][0] == order[0] && order[..k][1..] == order[1..][..k - 1];
      assert order[..k] == [order[0]] + order[1..][..k - 1];
    }
  }

  // ----- The recursive evaluator -----

  ghost predicate Below(steps: seq<ChainStep>, d: map<string, nat>, needs: seq<string>, bound: nat) {
    forall n :: n in needs ==> HasStep(steps, n) && n in d && d[n] < bound
  }

  lemma NeedsAreBelow(steps: seq<ChainStep>, d: map<string, nat>, id: string)
    requires NeedsKnown(steps) && IsDepth(steps, d) && HasStep(steps, id)
    ensures id in d && Below(steps, d, Find(steps, id).needs, d[id])
  {
    var i :| 0 <= i < |steps| && steps[i] == Find(steps, id);
  }

  /** The value of a step, computed from the values of its needs. */
  ghost function Eval(steps: seq<ChainStep>, exes: map<string, Executor>, initial: Context,
                      d: map<string, nat>, id: string): Option<Json>
    requires NeedsKnown(steps) && IsDepth(steps, d) && HasStep(steps, id)
    decreases if id in d then d[id] else 0, 1, 0
  {
    NeedsAreBelow(steps, d, id);
    var step := Find(steps, id);
    var values := EvalNeeds(steps, exes, initial, d, step.needs, d[id]);
    if values.Some? then Yield(exes, step, initial + values.value) else None
  }

  ghost function EvalNeeds(steps: seq<ChainStep>, exes: map<string, Executor>, initial: Context,
                           d: map<string, nat>, needs: seq<string>, bound: nat): Option<Context>
    requires NeedsKnown(steps) && IsDepth(steps, d) && Below(steps, d, needs, bound)
    decreases bound, 0, |needs|
  {
    if needs == [] then Some(map[])
    else
      var last := needs[|needs| - 1];
      var value := Eval(steps, exes, initial, d, last);
      var rest := EvalNeeds(steps, exes, initial, d, needs[..|needs| - 1], bound);
      if value.Some? && rest.Some? then Some(rest.value[last := value.value]) else None
  }

  lemma {:induction false} NeedsFromValues(steps: seq<ChainStep>, exes: map<string, Executor>, initial: Context,
                                           d: map<string, nat>, r: Context, needs: seq<string>, bound: nat)
    requires NeedsKnown(steps) && IsDepth(steps, d) && Below(steps, d, needs, bound)
    requires forall n :: n in needs ==> n in r && Eval(steps, exes, initial, d, n) == Some(r[n])
    ensures EvalNeeds(steps, exes, initial, d, needs, bound) == Some(Prefix(r, needs))
    decreases |needs|
  {
    if needs == [] {
      assert Prefix(r, needs) == map[];
    } else {
      var k := |needs| - 1;
      NeedsFromValues(steps, exes, initial, d, r, needs[..k], bound);
      PrefixExtends(r, needs, k);
      assert needs[..k + 1] == needs;
    }
  }

  lemma EvalFromNeeds(steps: seq<ChainStep>, exes: map<string, Executor>, initial: Context,
                      d: map<string, nat>, r: Context, id: string)
    requires NeedsKnown(steps) && IsDepth(steps, d) && HasStep(steps, id) && Local(steps, exes)
    requires forall n :: n in Find(steps, id).needs ==>
      HasStep(steps, n) && n in r && Eval(steps, exes, initial, d, n) == Some(r[n])
    requires forall x :: x in r ==> HasStep(steps, x)
    ensures Eval(steps, exes, initial, d, id) == Yield(exes, Find(steps, id), initial + r)
  {
    var step := Find(steps, id);
    NeedsAreBelow(steps, d, id);
    NeedsFromValues(steps, exes, initial, d, r, step.needs, d[id]);
    LocalYield(steps, exes, step, initial + Prefix(r, step.needs), initial + r);
  }

  lemma {:induction false} EvalOfSolution(steps: seq<ChainStep>, exes: map<string, Executor>, initial: Context,
                                          d: map<string, nat>, r: Context, id: string)
    requires NeedsKnown(steps) && IsDepth(steps, d) && HasStep(steps, id)
    requires Local(steps, exes) && Solution(steps, exes, initial, r)
    ensures Eval(steps, exes, initial, d, id) == Some(r[id])
    decreases if id in d then d[id] else 0
  {
    forall n | n in Find(steps, id).needs
      ensures HasStep(steps, n) && Eval(steps, exes, initial, d, n) == Some(r[n])
    {
      NeedsAreBelow(steps, d, id);
      EvalOfSolution(steps, exes, initial, d, r, n);
    }
    EvalFromNeeds(steps, exes, initial, d, r, id);
  }

  lemma EvalSolves(steps: seq<ChainStep>, exes: map<string, Executor>, initial: Context, d: map<string, nat>, r: Context)
    requires NeedsKnown(steps) && IsDepth(steps, d) && Local(steps, exes)
    requires forall x :: x in r <==> HasStep(steps, x)
    requires forall x :: HasStep(steps, x) ==> Eval(steps, exes, initial, d, x) == Some(r[x])
    ensures Solution(steps, exes, initial, r)
  {
    forall x | HasStep(steps, x) ensures Yield(exes, Find(steps, x), initial + r) == Some(r[x]) {
      forall n | n in Find(steps, x).needs ensures HasStep(steps, n) {
        NeedsAreBelow(steps, d, x);
      }
      EvalFromNeeds(steps, exes, initial, d, r, x);
    }
  }

  /** Executing along any topological order is evaluating every step along its needs. */
  lemma RunIsEvaluation(steps: seq<ChainStep>, exes: map<string, Executor>, initial: Context,
                        order: seq<string>, d: map<string, nat>, r: Context)
    requires Topological(steps, order) && IsArrangement(steps, order) && Local(steps, exes)
    requires NeedsKnown(steps) && IsDepth(steps, d)
    requires forall x :: x in r <==> HasStep(steps, x)
    ensures Run(steps, exes, initial, order, map[]) == Success(r) <==>
      forall x :: HasStep(steps, x) ==> Eval(steps, exes, initial, d, x) == Some(r[x])
  {
    RunIffSolution(steps, exes, initial, order, r);
    if Solution(steps, exes, initial, r) {
      forall x | HasStep(steps, x) ensures Eval(steps, exes, initial, d, x) == Some(r[x]) {
        EvalOfSolution(steps, exes, initial, d, r, x);
      }
    }
    if forall x :: HasStep(steps, x) ==> Eval(steps, exes, initial, d, x) == Some(r[x]) {
      EvalSolves(steps, exes, initial, d, r);
    }
  }
}
