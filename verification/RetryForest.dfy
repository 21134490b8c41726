/** Retry links over whole histories: a forest that points to strictly older runs. */
module RetryForest {
  import opened Wrappers
  import opened RunLifecycle
  import opened RunHistory
  import Stability = RunStability

  ghost predicate SerialsDistinct(births: map<string, Birth>) {
    && (forall r :: r in births ==> births[r].serial < |births|)
    && (forall r, q :: r in births && q in births && births[r].serial == births[q].serial ==> r == q)
  }

  /** Links point to older runs and count up the attempts; serial numbers are distinct. */
  ghost predicate Forest(births: map<string, Birth>) {
    && SerialsDistinct(births)
    && (forall r :: r in births && births[r].retryOf.None? ==> births[r].attempt == 1)
    && (forall r :: r in births && births[r].retryOf.Some? ==> LinkOk(births, r, births[r].retryOf.value))
  }

  predicate LinkOk(births: map<string, Birth>, r: string, p: string)
    requires r in births
  {
    p in births && births[p].serial < births[r].serial && births[r].attempt == births[p].attempt + 1
  }

  /** The rows agree with the history. */
  ghost predicate RowsMatch(w: World) {
    forall r :: r in w.runs ==>
      r in w.births && w.births[r].retryOf == w.runs[r].retryOf && w.births[r].attempt == w.runs[r].attempt
  }

  /** The number of retry links from a run back to its root. */
  ghost function Links(births: map<string, Birth>, r: string): nat
    requires Forest(births) && r in births
    decreases births[r].serial
  {
    if births[r].retryOf.None? then 0
    else
      assert LinkOk(births, r, births[r].retryOf.value);
      1 + Links(births, births[r].retryOf.value)
  }

  /** The run a retry chain started with. */
  ghost function Root(births: map<string, Birth>, r: string): (root: string)
    requires Forest(births) && r in births
    ensures root in births && births[root].retryOf.None? && births[root].serial <= births[r].serial
    decreases births[r].serial
  {
    if births[r].retryOf.None? then r
    else
      assert LinkOk(births, r, births[r].retryOf.value);
      Root(births, births[r].retryOf.value)
  }

  /** The run that `n` retry links lead to. */
  ghost function Ancestor(births: map<string, Birth>, r: string, n: nat): string
    requires Forest(births) && r in births && n <= Links(births, r)
    decreases n
  {
    if n == 0 then r
    else
      assert LinkOk(births, r, births[r].retryOf.value);
      Ancestor(births, births[r].retryOf.value, n - 1)
  }

  /** Every ancestor is an older run of the same tree, with as many attempts fewer as there are links between. */
  lemma {:induction false} AncestorIsOlder(births: map<string, Birth>, r: string, n: nat)
    requires Forest(births) && r in births && n <= Links(births, r)
    ensures var p := Ancestor(births, r, n);
      && p in births && births[p].attempt == births[r].attempt - n
      && Root(births, p) == Root(births, r)
      && (n > 0 ==> births[p].serial < births[r].serial)
    decreases n
  {
    if n > 0 {
      assert LinkOk(births, r, births[r].retryOf.value);
      AncestorIsOlder(births, births[r].retryOf.value, n - 1);
    }
  }

  /** Following all links of a run ends in its root. */
  lemma {:induction false} LinksEndInRoot(births: map<string, Birth>, r: string)
    requires Forest(births) && r in births
    ensures Ancestor(births, r, Links(births, r)) == Root(births, r)
    decreases births[r].serial
  {
    if births[r].retryOf.Some? {
      assert LinkOk(births, r, births[r].retryOf.value);
      LinksEndInRoot(births, births[r].retryOf.value);
    }
  }

  lemma {:induction false} AttemptCountsLinks(births: map<string, Birth>, r: string)
    requires Forest(births) && r in births
    ensures births[r].attempt == 1 + Links(births, r)
    decreases births[r].serial
  {
    if births[r].retryOf.Some? {
      assert LinkOk(births, r, births[r].retryOf.value);
      AttemptCountsLinks(births, births[r].retryOf.value);
    }
  }

  lemma BirthKeepsSerials(births: map<string, Birth>, r: string, birth: Birth)
    requires SerialsDistinct(births) && r !in births && birth.serial == |births|
    ensures SerialsDistinct(births[r := birth])
  {
    assert births[r := birth].Keys == births.Keys + {r};
  }

  lemma BirthKeepsForest(births: map<string, Birth>, r: string, retryOf: Option<string>, attempt: nat)
    requires Forest(births) && r !in births
    requires retryOf.None? ==> attempt == 1
    requires retryOf.Some? ==> retryOf.value in births && attempt == births[retryOf.value].attempt + 1
    ensures Forest(births[r := Birth(retryOf, attempt, |births|)])
  {
    var births' := births[r := Birth(retryOf, attempt, |births|)];
    BirthKeepsSerials(births, r, births'[r]);
    forall q | q in births' && births'[q].retryOf.Some? ensures LinkOk(births', q, births'[q].retryOf.value) {
      if q != r { assert LinkOk(births, q, births[q].retryOf.value); }
    }
  }

  /** Rows are removed, or change in other fields. */
  ghost predicate SameLinks(w: World, w': World) {
    && w'.births == w.births
    && forall r :: r in w'.runs ==>
         r in w.runs && w'.runs[r].retryOf == w.runs[r].retryOf && w'.runs[r].attempt == w.runs[r].attempt
  }

  predicate Creates(e: Event) {
    e.TickRun? || e.Trigger? || e.Retry?
  }

  lemma BeginKeepsLinks(w: World, r: string, adapters: Adapters)
    ensures SameLinks(w, BeginWorld(w, r, adapters))
  {
    if r in w.runs {
      BeginRowFacts(w.schedules, w.runs[r], adapters, w.clock);
      var row := BeginRow(w.schedules, w.runs[r], adapters, w.clock);
      assert SameLinks(w, CallWorld(w, r, row));
      assert SameLinks(w, EndWorld(w, r, row));
    }
  }

  lemma DispatchKeepsLinks(w: World, e: Event)
    requires Enabled(w, e) && (e.Begin? || e.Finish? || e.Cancel? || e.Crash?)
    ensures SameLinks(w, Effect(w, e))
  {
    match e
    case Begin(r, adapters) => BeginKeepsLinks(w, r, adapters);
    case Finish(r, outcome) => assert SameLinks(w, FinishWorld(w, r, outcome));
    case Cancel(r) => assert SameLinks(w, CancelWorld(w, r));
    case Crash(r) =>
  }

  lemma OthersKeepLinks(w: World, e: Event)
    requires Enabled(w, e) && !Creates(e)
    ensures SameLinks(w, Effect(w, e))
  {
    if Stability.Elsewhere(e) {
      Stability.ElsewhereOnlyRemoves(w, e);
    } else {
      DispatchKeepsLinks(w, e);
    }
  }

  lemma AddKeepsForest(w: World, r: string, row: RunRow, queueUp: bool)
    requires Forest(w.births) && RowsMatch(w) && r !in w.births
    requires row.retryOf.None? ==> row.attempt == 1
    requires row.retryOf.Some? ==>
      row.retryOf.value in w.births && row.attempt == w.births[row.retryOf.value].attempt + 1
    ensures Forest(AddRun(w, r, row, queueUp).births) && RowsMatch(AddRun(w, r, row, queueUp))
  {
    BirthKeepsForest(w.births, r, row.retryOf, row.attempt);
  }

  lemma EffectKeepsForest(w: World, e: Event)
    requires Enabled(w, e) && Forest(w.births) && RowsMatch(w)
    ensures Forest(Effect(w, e).births) && RowsMatch(Effect(w, e))
  {
    if !Creates(e) {
      OthersKeepLinks(w, e);
    } else {
      match e
      case TickRun(s, r, queueUp) => AddKeepsForest(w, r, NewRun(s, 1, None), queueUp);
      case Trigger(s, r, quota, queueUp) => AddKeepsForest(w, r, NewRun(s, 1, None), queueUp);
      case Retry(r, fresh_, queueUp) =>
        var row := RetryRow(w.schedules, w.runs, r);
        if row.Success? {
          PositiveAttempt(w.births, r);
          AddKeepsForest(w, fresh_, row.value, queueUp);
        }
    }
  }

  lemma PositiveAttempt(births: map<string, Birth>, r: string)
    requires Forest(births) && r in births
    ensures births[r].attempt >= 1
  {
    AttemptCountsLinks(births, r);
  }

  lemma {:induction false} AlwaysForest(start: int, history: seq<Timed>, w: World)
    requires After(start, history) == Some(w)
    ensures Forest(w.births) && RowsMatch(w)
  {
    if history != [] {
      var front, t := history[..|history| - 1], history[|history| - 1];
      var before := After(start, front).value;
      AlwaysForest(start, front, before);
      EffectKeepsForest(before.(clock := t.now), t.event);
    }
  }

  /**
   * Retry forest: in every history, deletions included, the retry links form a forest pointing to
   * strictly older runs; following a run's links ends in the one root of its tree, a first attempt; and
   * a run's attempt is one more than the number of its links.
   */
  lemma RetriesFormForest(start: int, history: seq<Timed>, w: World)
    requires After(start, history) == Some(w)
    ensures Forest(w.births) && RowsMatch(w)
    ensures forall r :: r in w.births ==>
      && w.births[r].attempt == 1 + Links(w.births, r)
      && Ancestor(w.births, r, Links(w.births, r)) == Root(w.births, r)
      && w.births[Root(w.births, r)].retryOf.None? && w.births[Root(w.births, r)].attempt == 1
  {
    AlwaysForest(start, history, w);
    forall r | r in w.births
      ensures w.births[r].attempt == 1 + Links(w.births, r)
      ensures Ancestor(w.births, r, Links(w.births, r)) == Root(w.births, r)
      ensures w.births[Root(w.births, r)].attempt == 1
    {
      AttemptCountsLinks(w.births, r);
      LinksEndInRoot(w.births, r);
      AttemptCountsLinks(w.births, Root(w.births, r));
    }
  }

  /** No retry or delete ever acts on a scheduled, claimed, queued or running run. */
  lemma ActiveRunsUntouched(w: World, e: Event)
    requires Enabled(w, e) && (e.Retry? || e.Delete?) && e.r in w.runs && Active(w.runs[e.r].status)
    ensures Effect(w, e) == w
  {
  }
}
