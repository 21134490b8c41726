/**
 * The compiler's answer does not depend on how a definition is arranged: permuting the steps, and
 * the needs inside each step, changes neither acceptance nor the execution order.
 */
module ChainArrangement {
  import opened Wrappers
  import opened JsonValues
  import opened SortedIds
  import opened ChainCompiler
  import opened ChainTheorems

  /** p and q are inverse permutations of 0..n. */
  ghost predicate Inverse(p: seq<nat>, q: seq<nat>, n: nat) {
    && |p| == n && |q| == n
    && (forall i :: 0 <= i < n ==> p[i] < n && q[i] < n)
    && (forall i :: 0 <= i < n ==> q[p[i]] == i && p[q[i]] == i)
  }

  // ----- Raw steps -----

  /** The same raw step, up to the arrangement of its needs list. */
  ghost predicate SameRaw(a: Json, b: Json) {
    a == b ||
    (&& a.Obj? && b.Obj?
     && Get(a, StepId) == Get(b, StepId) && Get(a, Id) == Get(b, Id)
     && Get(a, Type) == Get(b, Type) && Get(a, Config) == Get(b, Config)
     && Get(a, Needs).Arr? && Get(b, Needs).Arr?
     && multiset(Get(a, Needs).items) == multiset(Get(b, Needs).items))
  }

  ghost predicate SameRaws(a: seq<Json>, b: seq<Json>, p: seq<nat>, q: seq<nat>) {
    |a| == |b| && Inverse(p, q, |a|) && forall i :: 0 <= i < |b| ==> SameRaw(a[p[i]], b[i])
  }

  // ----- Parsed steps -----

  ghost predicate SameStep(a: ChainStep, b: ChainStep) {
    a.stepId == b.stepId && multiset(a.needs) == multiset(b.needs)
  }

  ghost predicate SameSteps(a: seq<ChainStep>, b: seq<ChainStep>, p: seq<nat>, q: seq<nat>) {
    |a| == |b| && Inverse(p, q, |a|) && forall i :: 0 <= i < |b| ==> SameStep(a[p[i]], b[i])
  }

  lemma {:induction false} StringsAll(items: seq<Json>)
    ensures Strings(items).Some? <==> forall x :: x in items ==> x.Str?
    ensures Strings(items).Some? ==>
      && |Strings(items).value| == |items|
      && forall i :: 0 <= i < |items| ==> items[i] == Str(Strings(items).value[i])
  {
    if items != [] {
      StringsAll(items[1..]);
      assert items == [items[0]] + items[1..];
    }
  }

  lemma {:induction false} StringsCount(items: seq<Json>, s: string)
    requires Strings(items).Some?
    ensures multiset(Strings(items).value)[s] == multiset(items)[Str(s)]
  {
    if items != [] {
      StringsCount(items[1..], s);
      assert items == [items[0]] + items[1..];
      var rest := Strings(items[1..]).value;
      assert multiset(Strings(items).value) == multiset{items[0].s} + multiset(rest);
      assert multiset(items) == multiset{items[0]} + multiset(items[1..]);
    }
  }

  lemma StringsArranged(a: seq<Json>, b: seq<Json>)
    requires multiset(a) == multiset(b)
    ensures Strings(a).Some? <==> Strings(b).Some?
    ensures Strings(a).Some? ==> multiset(Strings(a).value) == multiset(Strings(b).value)
  {
    assert forall x :: x in a <==> x in multiset(a);
    assert forall x :: x in b <==> x in multiset(b);
    StringsAll(a);
    StringsAll(b);
    if Strings(a).Some? {
      forall s ensures multiset(Strings(a).value)[s] == multiset(Strings(b).value)[s] {
        StringsCount(a, s);
        StringsCount(b, s);
      }
    }
  }

  lemma NeedsArranged(a: Json, b: Json)
    requires SameRaw(a, b)
    ensures NeedsOf(a).Some? <==> NeedsOf(b).Some?
    ensures NeedsOf(a).Some? ==> multiset(NeedsOf(a).value) == multiset(NeedsOf(b).value)
  {
    if a != b {
      var x, y := Get(a, Needs).items, Get(b, Needs).items;
      assert |x| == |multiset(x)| == |multiset(y)| == |y|;
      StringsArranged(x, y);
    }
  }

  lemma ParseArranged(allowed: set<string>, a: Json, b: Json)
    requires SameRaw(a, b)
    ensures var x, y := ParseStep(allowed, a, []), ParseStep(allowed, b, []);
      && (x.Success? <==> y.Success?)
      && (x.Success? ==> SameStep(x.value, y.value))
  {
    if a != b {
      NeedsArranged(a, b);
      var x, y := ParseStep(allowed, a, []), ParseStep(allowed, b, []);
      assert x.Success? ==> NeedsOf(a) == Some(x.value.needs);
      assert y.Success? ==> NeedsOf(b) == Some(y.value.needs);
    }
  }

  // ----- The step list is parsed step by step -----

  ghost predicate Parses(allowed: set<string>, raw: Json) {
    ParseStep(allowed, raw, []).Success?
  }

  ghost predicate AllParse(allowed: set<string>, raws: seq<Json>) {
    forall i :: 0 <= i < |raws| ==> Parses(allowed, raws[i])
  }

  lemma AllParseNext(allowed: set<string>, raws: seq<Json>)
    requires raws != []
    ensures AllParse(allowed, raws) <==> Parses(allowed, raws[0]) && AllParse(allowed, raws[1..])
  {
    if AllParse(allowed, raws[1..]) {
      forall i | 1 <= i < |raws| ensures raws[i] == raws[1..][i - 1] {
      }
    }
  }

  function StepOf(allowed: set<string>, raw: Json): ChainStep {
    var step := ParseStep(allowed, raw, []);
    if step.Success? then step.value else ChainStep([], [], Null, [])
  }

  function StepsOf(allowed: set<string>, raws: seq<Json>): seq<ChainStep> {
    seq(|raws|, i requires 0 <= i < |raws| => StepOf(allowed, raws[i]))
  }

  lemma ParseAfter(allowed: set<string>, raw: Json, done: seq<ChainStep>)
    ensures ParseStep(allowed, raw, done).Success? <==>
      Parses(allowed, raw) && !HasStep(done, StepOf(allowed, raw).stepId)
    ensures ParseStep(allowed, raw, done).Success? ==>
      ParseStep(allowed, raw, done).value == StepOf(allowed, raw)
  {
    assert forall id :: !HasStep([], id);
  }

  lemma UniqueAppend(done: seq<ChainStep>, step: ChainStep)
    requires UniqueIds(done)
    ensures UniqueIds(done + [step]) <==> !HasStep(done, step.stepId)
  {
    var all := done + [step];
    if HasStep(done, step.stepId) {
      var i :| 0 <= i < |done| && done[i].stepId == step.stepId;
      assert all[i].stepId == all[|done|].stepId;
    }
  }

  lemma UniquePrefix(steps: seq<ChainStep>, k: nat)
    requires k <= |steps|
    ensures UniqueIds(steps) ==> UniqueIds(steps[..k])
  {
  }

  lemma {:induction false} ParseStepsMeans(allowed: set<string>, raws: seq<Json>, done: seq<ChainStep>)
    requires UniqueIds(done)
    ensures var r := ParseSteps(allowed, raws, done);
      && (r.Success? <==> AllParse(allowed, raws) && UniqueIds(done + StepsOf(allowed, raws)))
      && (r.Success? ==> r.value == done + StepsOf(allowed, raws))
  {
    if raws == [] {
      assert done + StepsOf(allowed, raws) == done;
    } else {
      var step := StepOf(allowed, raws[0]);
      var all := done + StepsOf(allowed, raws);
      ParseAfter(allowed, raws[0], done);
      UniqueAppend(done, step);
      assert StepsOf(allowed, raws) == [step] + StepsOf(allowed, raws[1..]);
      assert all == (done + [step]) + StepsOf(allowed, raws[1..]);
      UniquePrefix(all, |done| + 1);
      assert all[..|done| + 1] == done + [step];
      if ParseStep(allowed, raws[0], done).Success? {
        ParseStepsMeans(allowed, raws[1..], done + [step]);
      }
      AllParseNext(allowed, raws);
    }
  }

  // ----- The needs graph is the same -----

  lemma DistinctByCount<T>(s: seq<T>)
    ensures Distinct(s) <==> forall x :: multiset(s)[x] <= 1
  {
    ElementsCount(s);
    if Distinct(s) {
      forall x ensures multiset(s)[x] <= 1 {
        CountOfDistinct(s, x);
      }
    } else {
      var i, j :| 0 <= i < j < |s| && s[i] == s[j];
      assert s == s[..j] + [s[j]] + s[j + 1..];
      assert s[i] in s[..j] && s[i] in multiset(s[..j]);
      assert multiset(s) == multiset(s[..j]) + multiset{s[j]} + multiset(s[j + 1..]);
      assert multiset(s)[s[j]] >= 2;
    }
  }

  lemma {:induction false} CountOfDistinct<T>(s: seq<T>, x: T)
    requires Distinct(s)
    ensures multiset(s)[x] <= 1
  {
    if s != [] {
      CountOfDistinct(s[1..], x);
      assert s == [s[0]] + s[1..];
      if s[0] == x {
        assert x !in s[1..];
        assert x !in multiset(s[1..]);
      }
    }
  }

  lemma SameReady(a: ChainStep, b: ChainStep, done: seq<string>)
    requires SameStep(a, b)
    ensures Ready(a, done) <==> Ready(b, done)
    ensures forall n :: n in a.needs <==> n in b.needs
    ensures a.needs == [] <==> b.needs == []
    ensures Distinct(a.needs) <==> Distinct(b.needs)
  {
    DistinctByCount(a.needs);
    DistinctByCount(b.needs);
    forall n ensures n in a.needs <==> n in b.needs {
      assert n in a.needs <==> n in multiset(a.needs);
      assert n in b.needs <==> n in multiset(b.needs);
    }
    assert |a.needs| == |multiset(a.needs)| == |multiset(b.needs)| == |b.needs|;
  }

  lemma SameIds(a: seq<ChainStep>, b: seq<ChainStep>, p: seq<nat>, q: seq<nat>)
    requires SameSteps(a, b, p, q)
    ensures UniqueIds(a) <==> UniqueIds(b)
    ensures forall x :: HasStep(a, x) <==> HasStep(b, x)
  {
    forall i | 0 <= i < |a| ensures a[i].stepId == b[q[i]].stepId {
      assert SameStep(a[p[q[i]]], b[q[i]]);
    }
    forall x ensures HasStep(a, x) <==> HasStep(b, x) {
      if HasStep(a, x) { StepArranged(a, b, p, q, x); }
      if HasStep(b, x) { StepArranged(b, a, q, p, x); }
    }
    if UniqueIds(a) { UniqueArranged(a, b, p, q); }
    if UniqueIds(b) { UniqueArranged(b, a, q, p); }
  }

  lemma StepArranged(a: seq<ChainStep>, b: seq<ChainStep>, p: seq<nat>, q: seq<nat>, x: string)
    requires |a| == |b| && Inverse(p, q, |a|) && HasStep(a, x)
    requires forall i :: 0 <= i < |b| ==> b[i].stepId == a[p[i]].stepId
    ensures HasStep(b, x)
  {
    var i :| 0 <= i < |a| && a[i].stepId == x;
    assert b[q[i]].stepId == a[p[q[i]]].stepId == x;
  }

  lemma UniqueArranged(a: seq<ChainStep>, b: seq<ChainStep>, p: seq<nat>, q: seq<nat>)
    requires |a| == |b| && Inverse(p, q, |a|) && UniqueIds(a)
    requires forall i :: 0 <= i < |b| ==> b[i].stepId == a[p[i]].stepId
    ensures UniqueIds(b)
  {
    forall i, j | 0 <= i < j < |b| ensures b[i].stepId != b[j].stepId {
      assert q[p[i]] == i && q[p[j]] == j;
      assert p[i] < p[j] || p[j] < p[i];
    }
  }

  lemma SameNeedsKnown(a: seq<ChainStep>, b: seq<ChainStep>, p: seq<nat>, q: seq<nat>)
    requires SameSteps(a, b, p, q) && NeedsKnown(a)
    ensures NeedsKnown(b)
  {
    SameIds(a, b, p, q);
    forall i, n | 0 <= i < |b| && n in b[i].needs ensures HasStep(b, n) && n != b[i].stepId {
      SameReady(a[p[i]], b[i], []);
      assert HasStep(a, n);
    }
  }

  lemma Flip(a: seq<ChainStep>, b: seq<ChainStep>, p: seq<nat>, q: seq<nat>)
    requires SameSteps(a, b, p, q)
    ensures SameSteps(b, a, q, p)
  {
    forall i | 0 <= i < |a| ensures SameStep(b[q[i]], a[i]) {
      assert SameStep(a[p[q[i]]], b[q[i]]);
    }
  }

  lemma SameReleased(a: seq<ChainStep>, b: seq<ChainStep>, p: seq<nat>, q: seq<nat>, done: seq<string>, cur: string)
    requires SameSteps(a, b, p, q) && UniqueIds(a) && UniqueIds(b)
    ensures Sorted(Released(a, done, cur)) == Sorted(Released(b, done, cur))
  {
    ReleasedElements(a, done, cur);
    ReleasedElements(b, done, cur);
    ReleasedSubset(a, b, p, q, done, cur);
    Flip(a, b, p, q);
    ReleasedSubset(b, a, q, p, done, cur);
    SortedCanonical(Released(a, done, cur), Released(b, done, cur));
  }

  lemma ReleasedSubset(a: seq<ChainStep>, b: seq<ChainStep>, p: seq<nat>, q: seq<nat>, done: seq<string>, cur: string)
    requires SameSteps(a, b, p, q) && UniqueIds(a) && UniqueIds(b)
    ensures forall x :: x in Released(b, done, cur) ==> x in Released(a, done, cur)
  {
    ReleasedElements(a, done, cur);
    ReleasedElements(b, done, cur);
    forall x | x in Released(b, done, cur) ensures x in Released(a, done, cur) {
      var i :| 0 <= i < |b| && b[i].stepId == x;
      SameReady(a[p[i]], b[i], done + [cur]);
    }
  }

  lemma RootsSubset(a: seq<ChainStep>, b: seq<ChainStep>, p: seq<nat>, q: seq<nat>)
    requires SameSteps(a, b, p, q) && UniqueIds(a) && UniqueIds(b)
    ensures forall x :: x in Roots(b) ==> x in Roots(a)
  {
    RootsElements(a);
    RootsElements(b);
    forall x | x in Roots(b) ensures x in Roots(a) {
      var i :| 0 <= i < |b| && b[i].stepId == x;
      SameReady(a[p[i]], b[i], []);
    }
  }

  lemma SameRoots(a: seq<ChainStep>, b: seq<ChainStep>, p: seq<nat>, q: seq<nat>)
    requires SameSteps(a, b, p, q) && UniqueIds(a) && UniqueIds(b)
    ensures Sorted(Roots(a)) == Sorted(Roots(b))
  {
    RootsElements(a);
    RootsElements(b);
    RootsSubset(a, b, p, q);
    Flip(a, b, p, q);
    RootsSubset(b, a, q, p);
    SortedCanonical(Roots(a), Roots(b));
  }

  lemma {:induction false} SameKahn(a: seq<ChainStep>, b: seq<ChainStep>, p: seq<nat>, q: seq<nat>,
                                    ready: seq<string>, order: seq<string>)
    requires SameSteps(a, b, p, q)
    requires KahnState(a, ready, order) && KahnState(b, ready, order)
    ensures Kahn(a, ready, order) == Kahn(b, ready, order)
    decreases |a| - |order|
  {
    if ready != [] {
      OrderIsBounded(a, ready, order);
      KahnNext(a, ready, order);
      KahnNext(b, ready, order);
      SameReleased(a, b, p, q, order, ready[0]);
      SameKahn(a, b, p, q, NextReady(a, ready, order), order + [ready[0]]);
    }
  }

  lemma SameKahnOrder(a: seq<ChainStep>, b: seq<ChainStep>, p: seq<nat>, q: seq<nat>)
    requires SameSteps(a, b, p, q) && UniqueIds(a) && UniqueIds(b)
    ensures KahnOrder(a) == KahnOrder(b)
  {
    KahnStart(a);
    KahnStart(b);
    SameRoots(a, b, p, q);
    SameKahn(a, b, p, q, Sorted(Roots(a)), []);
  }

  /** What a caller sees: whether the definition is accepted, and the execution order if so. */
  ghost function Outcome(r: Result<CompiledChain, CompileError>): Option<seq<string>> {
    if r.Success? then Some(r.value.executionOrder) else None
  }

  lemma StepsOutcome(chainId: string, version: int, steps: seq<ChainStep>)
    requires UniqueIds(steps)
    ensures Outcome(CompileSteps(chainId, version, steps)) ==
      if NeedsKnown(steps) && |KahnOrder(steps)| == |steps| then Some(KahnOrder(steps)) else None
  {
    NeedsErrorMeans(steps, 0);
  }

  lemma SameCompileSteps(chainId: string, version: int, a: seq<ChainStep>, b: seq<ChainStep>, p: seq<nat>, q: seq<nat>)
    requires SameSteps(a, b, p, q) && UniqueIds(a) && UniqueIds(b)
    ensures Outcome(CompileSteps(chainId, version, a)) == Outcome(CompileSteps(chainId, version, b))
  {
    StepsOutcome(chainId, version, a);
    StepsOutcome(chainId, version, b);
    Flip(a, b, p, q);
    if NeedsKnown(a) { SameNeedsKnown(a, b, p, q); }
    if NeedsKnown(b) { SameNeedsKnown(b, a, q, p); }
    SameKahnOrder(a, b, p, q);
  }

  lemma DefinitionOutcome(allowed: set<string>, chainId: string, version: int, d: seq<Field>, raws: seq<Json>)
    requires GetField(d, Steps) == Arr(raws)
    ensures Outcome(CompileSpec(allowed, chainId, version, d)) ==
      if raws != [] && AllParse(allowed, raws) && UniqueIds(StepsOf(allowed, raws)) then
        Outcome(CompileSteps(chainId, version, StepsOf(allowed, raws)))
      else None
  {
    ParseStepsMeans(allowed, raws, []);
    assert [] + StepsOf(allowed, raws) == StepsOf(allowed, raws);
  }

  lemma SameParses(allowed: set<string>, a: seq<Json>, b: seq<Json>, p: seq<nat>, q: seq<nat>)
    requires SameRaws(a, b, p, q)
    ensures AllParse(allowed, a) <==> AllParse(allowed, b)
    ensures AllParse(allowed, a) ==> SameSteps(StepsOf(allowed, a), StepsOf(allowed, b), p, q)
  {
    forall i | 0 <= i < |b|
      ensures Parses(allowed, a[p[i]]) <==> Parses(allowed, b[i])
      ensures Parses(allowed, b[i]) ==> SameStep(StepOf(allowed, a[p[i]]), StepOf(allowed, b[i]))
    {
      ParseArranged(allowed, a[p[i]], b[i]);
    }
    forall i | 0 <= i < |a| ensures Parses(allowed, a[i]) <==> Parses(allowed, b[q[i]]) {
      assert p[q[i]] == i;
    }
  }

  /** Order-independence: rearranged definitions are accepted alike and run in the same order. */
  lemma ArrangementIrrelevant(allowed: set<string>, chainId: string, version: int,
                              d: seq<Field>, e: seq<Field>, a: seq<Json>, b: seq<Json>, p: seq<nat>, q: seq<nat>)
    requires GetField(d, Steps) == Arr(a) && GetField(e, Steps) == Arr(b) && SameRaws(a, b, p, q)
    ensures Outcome(CompileSpec(allowed, chainId, version, d)) == Outcome(CompileSpec(allowed, chainId, version, e))
  {
    DefinitionOutcome(allowed, chainId, version, d, a);
    DefinitionOutcome(allowed, chainId, version, e, b);
    SameParses(allowed, a, b, p, q);
    if AllParse(allowed, a) {
      SameIds(StepsOf(allowed, a), StepsOf(allowed, b), p, q);
      if UniqueIds(StepsOf(allowed, a)) {
        SameCompileSteps(chainId, version, StepsOf(allowed, a), StepsOf(allowed, b), p, q);
      }
    }
  }
}
