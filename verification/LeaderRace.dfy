/**
 * The leader lock with single cache operations interleaved: acquire reads, sets and confirms; renew
 * reads and sets; release reads and deletes; the entry may expire at any time. Every acquire call has
 * its own token, so calls are named by their tokens.
 */
module LeaderRace {
  import opened Wrappers

  type Token = nat

  /** What one cache operation does to the key. */
  datatype Effect = Observed | Wrote(token: Token) | Cleared

  /** An acquire call; the times are positions in the log of operations. */
  datatype Call = Call(readAt: nat, sawNone: bool, setAt: Option<nat>, confirmAt: Option<nat>, held: bool)

  datatype State = State(log: seq<Effect>, calls: map<Token, Call>, renewing: set<Token>, releasing: set<Token>)

  datatype Op =
    | Open(t: Token) | SetKey(t: Token) | Confirm(t: Token)
    | RenewRead(t: Token) | RenewSet(t: Token)
    | ReleaseRead(t: Token) | ReleaseDelete(t: Token)
    | Expire

  /** The cached token after the logged operations. */
  function Key(log: seq<Effect>): Option<Token> {
    if log == [] then None
    else
      match log[|log| - 1]
      case Observed => Key(log[..|log| - 1])
      case Wrote(t) => Some(t)
      case Cleared => None
  }

  predicate Returned(call: Call) {
    !call.sawNone || call.confirmAt.Some?
  }

  predicate Enabled(st: State, op: Op) {
    match op
    case Open(t) => t !in st.calls
    case SetKey(t) => t in st.calls && st.calls[t].sawNone && st.calls[t].setAt.None?
    case Confirm(t) => t in st.calls && st.calls[t].setAt.Some? && st.calls[t].confirmAt.None?
    case RenewRead(t) => t in st.calls && Returned(st.calls[t])
    case RenewSet(t) => t in st.renewing
    case ReleaseRead(t) => t in st.calls && Returned(st.calls[t])
    case ReleaseDelete(t) => t in st.releasing
    case Expire => Key(st.log).Some?
  }

  function Step(st: State, op: Op): State
    requires Enabled(st, op)
  {
    var now, key := |st.log|, Key(st.log);
    match op
    case Open(t) =>
      st.(log := st.log + [Observed], calls := st.calls[t := Call(now, key.None?, None, None, false)])
    case SetKey(t) =>
      st.(log := st.log + [Wrote(t)], calls := st.calls[t := st.calls[t].(setAt := Some(now))])
    case Confirm(t) =>
      st.(log := st.log + [Observed],
          calls := st.calls[t := st.calls[t].(confirmAt := Some(now), held := key == Some(t))])
    case RenewRead(t) =>
      st.(log := st.log + [Observed], renewing := if key == Some(t) then st.renewing + {t} else st.renewing)
    case RenewSet(t) =>
      st.(log := st.log + [Wrote(t)], renewing := st.renewing - {t})
    case ReleaseRead(t) =>
      st.(log := st.log + [Observed], releasing := if key == Some(t) then st.releasing + {t} else st.releasing)
    case ReleaseDelete(t) =>
      st.(log := st.log + [Cleared], releasing := st.releasing - {t})
    case Expire =>
      st.(log := st.log + [Cleared])
  }

  const START := State([], map[], {}, {})

  /** The state after an interleaving; None when some operation is not enabled in its turn. */
  function After(ops: seq<Op>): Option<State> {
    if ops == [] then Some(START)
    else
      var before := After(ops[..|ops| - 1]);
      var op := ops[|ops| - 1];
      if before.Some? && Enabled(before.value, op) then Some(Step(before.value, op)) else None
  }

  /** What each operation leaves in the cache: sets write their token, deletion and expiry clear, reads change nothing. */
  lemma CacheAfter(st: State, op: Op)
    requires Enabled(st, op)
    ensures Key(Step(st, op).log) ==
      match op
      case Open(_) | Confirm(_) | RenewRead(_) | ReleaseRead(_) => Key(st.log)
      case SetKey(t) => Some(t)
      case RenewSet(t) => Some(t)
      case ReleaseDelete(_) | Expire => None
  {
    var log := Step(st, op).log;
    assert log[..|log| - 1] == st.log;
  }

  // ----- The log explains every call -----

  /** No write and no clearing at the positions from `i` up to `j`. */
  ghost predicate Quiet(log: seq<Effect>, i: nat, j: nat) {
    forall k :: i <= k < j && k < |log| ==> log[k] == Observed
  }

  /** The entry neither expires nor is deleted between `i` and `j`. */
  ghost predicate NeverCleared(log: seq<Effect>, i: nat, j: nat) {
    forall k :: i <= k < j && k < |log| ==> log[k] != Cleared
  }

  ghost predicate CallExplained(log: seq<Effect>, t: Token, c: Call) {
    && c.readAt < |log| && log[c.readAt] == Observed
    && (c.sawNone <==> Key(log[..c.readAt]) == None)
    && (c.setAt.Some? ==>
         c.sawNone && c.readAt < c.setAt.value < |log| && log[c.setAt.value] == Wrote(t))
    && (c.confirmAt.Some? ==>
         && c.setAt.Some? && c.setAt.value < c.confirmAt.value < |log| && log[c.confirmAt.value] == Observed
         && (c.held <==> Key(log[..c.confirmAt.value]) == Some(t)))
    && (c.held ==> c.confirmAt.Some?)
  }

  /** A token is written by its acquire, and after that only by renewals of a confirmed call. */
  ghost predicate WriteExplained(st: State, k: nat)
    requires k < |st.log|
  {
    st.log[k].Wrote? ==>
      && var t := st.log[k].token;
      && t in st.calls && st.calls[t].setAt.Some?
      && (k == st.calls[t].setAt.value || (st.calls[t].confirmAt.Some? && st.calls[t].confirmAt.value < k))
  }

  ghost predicate Explained(st: State) {
    && (forall t :: t in st.calls ==> CallExplained(st.log, t, st.calls[t]))
    && (forall k :: 0 <= k < |st.log| ==> WriteExplained(st, k))
    && (forall t :: t in st.renewing ==> t in st.calls && st.calls[t].confirmAt.Some?)
  }

  lemma {:induction false} KeyWasWritten(log: seq<Effect>) returns (k: nat)
    requires Key(log).Some?
    ensures k < |log| && log[k] == Wrote(Key(log).value) && Quiet(log, k + 1, |log|)
  {
    var last := |log| - 1;
    if log[last] == Observed {
      k := KeyWasWritten(log[..last]);
    } else {
      k := last;
    }
  }

  lemma {:induction false} KeyStays(log: seq<Effect>, i: nat)
    requires i < |log| && Quiet(log, i + 1, |log|)
    ensures log[i].Wrote? ==> Key(log) == Some(log[i].token)
    ensures log[i].Cleared? ==> Key(log) == None
    decreases |log|
  {
    if i < |log| - 1 {
      KeyStays(log[..|log| - 1], i);
    }
  }

  lemma {:induction false} KeyLives(log: seq<Effect>, i: nat)
    requires i < |log| && log[i].Wrote? && NeverCleared(log, i + 1, |log|)
    ensures Key(log).Some?
    decreases |log|
  {
    if i < |log| - 1 {
      KeyLives(log[..|log| - 1], i);
    }
  }

  lemma CallStaysExplained(log: seq<Effect>, e: Effect, t: Token, c: Call)
    requires CallExplained(log, t, c)
    ensures CallExplained(log + [e], t, c)
  {
    assert (log + [e])[..c.readAt] == log[..c.readAt];
    if c.confirmAt.Some? {
      assert (log + [e])[..c.confirmAt.value] == log[..c.confirmAt.value];
    }
  }

  /** A returned call that finds its own token in the cache was confirmed. */
  lemma RenewerIsConfirmed(st: State, t: Token)
    requires Explained(st) && Enabled(st, RenewRead(t)) && Key(st.log) == Some(t)
    ensures st.calls[t].confirmAt.Some?
  {
    var k := KeyWasWritten(st.log);
    assert WriteExplained(st, k);
    assert CallExplained(st.log, t, st.calls[t]);
  }

  lemma WriteStaysExplained(st: State, op: Op, k: nat)
    requires Enabled(st, op) && k < |st.log| && WriteExplained(st, k)
    ensures WriteExplained(Step(st, op), k)
  {
  }

  /** The one call that an operation changes is explained by the extended log. */
  lemma ChangedCallExplained(st: State, op: Op)
    requires Enabled(st, op) && (op.Open? || op.SetKey? || op.Confirm?)
    requires op.t in st.calls ==> CallExplained(st.log, op.t, st.calls[op.t])
    ensures var st' := Step(st, op); CallExplained(st'.log, op.t, st'.calls[op.t])
  {
    var e := if op.SetKey? then Wrote(op.t) else Observed;
    assert (st.log + [e])[..|st.log|] == st.log;
    if op.t in st.calls {
      CallStaysExplained(st.log, e, op.t, st.calls[op.t]);
    }
  }

  lemma CallsStayExplained(st: State, op: Op)
    requires Enabled(st, op) && forall t :: t in st.calls ==> CallExplained(st.log, t, st.calls[t])
    ensures var st' := Step(st, op); forall t :: t in st'.calls ==> CallExplained(st'.log, t, st'.calls[t])
  {
    var st' := Step(st, op);
    var e := st'.log[|st.log|];
    assert st'.log == st.log + [e];
    forall t | t in st'.calls ensures CallExplained(st'.log, t, st'.calls[t]) {
      if (op.Open? || op.SetKey? || op.Confirm?) && op.t == t {
        ChangedCallExplained(st, op);
      } else {
        assert st'.calls[t] == st.calls[t];
        CallStaysExplained(st.log, e, t, st.calls[t]);
      }
    }
  }

  lemma WritesStayExplained(st: State, op: Op)
    requires Enabled(st, op) && Explained(st)
    ensures var st' := Step(st, op); forall k :: 0 <= k < |st'.log| ==> WriteExplained(st', k)
  {
    var st' := Step(st, op);
    forall k | 0 <= k < |st'.log| ensures WriteExplained(st', k) {
      if k < |st.log| {
        WriteStaysExplained(st, op, k);
      } else if op.RenewSet? {
        assert CallExplained(st.log, op.t, st.calls[op.t]);
      }
    }
  }

  lemma RenewersStayConfirmed(st: State, op: Op)
    requires Enabled(st, op) && Explained(st)
    ensures var st' := Step(st, op);
      forall t :: t in st'.renewing ==> t in st'.calls && st'.calls[t].confirmAt.Some?
  {
    if op.RenewRead? && Key(st.log) == Some(op.t) {
      RenewerIsConfirmed(st, op.t);
    }
  }

  lemma StepKeepsExplained(st: State, op: Op)
    requires Enabled(st, op) && Explained(st)
    ensures Explained(Step(st, op))
  {
    CallsStayExplained(st, op);
    WritesStayExplained(st, op);
    RenewersStayConfirmed(st, op);
  }

  lemma {:induction false} AlwaysExplained(ops: seq<Op>, st: State)
    requires After(ops) == Some(st)
    ensures Explained(st)
  {
    if ops != [] {
      var front := ops[..|ops| - 1];
      AlwaysExplained(front, After(front).value);
      StepKeepsExplained(After(front).value, ops[|ops| - 1]);
    }
  }

  // ----- Who is told that it holds the lock -----

  ghost predicate Confirmed(st: State, t: Token) {
    t in st.calls && st.calls[t].setAt.Some? && st.calls[t].confirmAt.Some?
  }

  ghost predicate Holds(st: State, t: Token) {
    Confirmed(st, t) && st.calls[t].held
  }

  /** The last write before a confirm that finds its own token is that call's own set. */
  lemma HeldIsQuiet(st: State, t: Token)
    requires Explained(st) && Holds(st, t)
    ensures Quiet(st.log, st.calls[t].setAt.value + 1, st.calls[t].confirmAt.value)
  {
    var c := st.calls[t];
    assert CallExplained(st.log, t, c);
    var k := KeyWasWritten(st.log[..c.confirmAt.value]);
    assert WriteExplained(st, k);
  }

  lemma QuietIsHeld(st: State, t: Token)
    requires Explained(st) && Confirmed(st, t)
    requires Quiet(st.log, st.calls[t].setAt.value + 1, st.calls[t].confirmAt.value)
    ensures Holds(st, t)
  {
    var c := st.calls[t];
    assert CallExplained(st.log, t, c);
    KeyStays(st.log[..c.confirmAt.value], c.setAt.value);
  }

  /**
   * A confirmed acquire is told that it holds the lock exactly when nothing was written and nothing
   * expired or was deleted between its set and its confirming read.
   */
  lemma HeldIffQuiet(ops: seq<Op>, st: State, t: Token)
    requires After(ops) == Some(st) && Confirmed(st, t)
    ensures Holds(st, t) <==> Quiet(st.log, st.calls[t].setAt.value + 1, st.calls[t].confirmAt.value)
  {
    AlwaysExplained(ops, st);
    if Holds(st, t) {
      HeldIsQuiet(st, t);
    }
    if Quiet(st.log, st.calls[t].setAt.value + 1, st.calls[t].confirmAt.value) {
      QuietIsHeld(st, t);
    }
  }

  /** A read that follows a live write sees a token. */
  lemma LateReaderSees(st: State, t: Token, k: nat)
    requires Explained(st) && t in st.calls
    requires k < st.calls[t].readAt && k < |st.log| && st.log[k].Wrote?
    requires NeverCleared(st.log, k + 1, st.calls[t].readAt)
    ensures !st.calls[t].sawNone
  {
    assert CallExplained(st.log, t, st.calls[t]);
    KeyLives(st.log[..st.calls[t].readAt], k);
  }

  lemma ConfirmBeforeSet(st: State, a: Token, b: Token)
    requires Explained(st) && Holds(st, a) && Holds(st, b) && st.calls[a].setAt.value < st.calls[b].setAt.value
    ensures st.calls[a].readAt < st.calls[a].setAt.value < st.calls[a].confirmAt.value < st.calls[b].setAt.value
  {
    var ca, cb := st.calls[a], st.calls[b];
    assert CallExplained(st.log, a, ca) && CallExplained(st.log, b, cb);
    HeldIsQuiet(st, a);
    assert st.log[cb.setAt.value] != Observed;
  }

  lemma ReadBeforeSet(st: State, a: Token, b: Token)
    requires Explained(st) && Holds(st, a) && Holds(st, b)
    requires st.calls[a].setAt.value < st.calls[b].setAt.value
    requires NeverCleared(st.log, st.calls[a].setAt.value + 1, st.calls[b].setAt.value)
    ensures st.calls[b].readAt < st.calls[a].setAt.value
  {
    var ca, cb := st.calls[a], st.calls[b];
    assert CallExplained(st.log, a, ca) && CallExplained(st.log, b, cb);
    assert st.log[ca.setAt.value] != st.log[cb.readAt];
    if ca.setAt.value < cb.readAt {
      LateReaderSees(st, b, ca.setAt.value);
    }
  }

  /**
   * The race window: when two acquires are both told that they hold the lock, the earlier setter's
   * confirm precedes the later set; and unless the entry was cleared between the two sets, the later
   * setter's opening read precedes the earlier set.
   */
  lemma RaceWindow(ops: seq<Op>, st: State, a: Token, b: Token)
    requires After(ops) == Some(st) && Holds(st, a) && Holds(st, b)
    requires st.calls[a].setAt.value < st.calls[b].setAt.value
    ensures var ca, cb := st.calls[a], st.calls[b];
      && ca.confirmAt.value < cb.setAt.value
      && ca.readAt < cb.setAt.value
      && (NeverCleared(st.log, ca.setAt.value + 1, cb.setAt.value) ==> cb.readAt < ca.setAt.value)
  {
    AlwaysExplained(ops, st);
    ConfirmBeforeSet(st, a, b);
    if NeverCleared(st.log, st.calls[a].setAt.value + 1, st.calls[b].setAt.value) {
      ReadBeforeSet(st, a, b);
    }
  }

  /** An acquire whose opening read follows a write that is still live is refused, and never writes. */
  lemma LateReaderRefused(ops: seq<Op>, st: State, t: Token, k: nat)
    requires After(ops) == Some(st) && t in st.calls
    requires k < st.calls[t].readAt && k < |st.log| && st.log[k].Wrote?
    requires NeverCleared(st.log, k + 1, st.calls[t].readAt)
    ensures !st.calls[t].held && Returned(st.calls[t])
    ensures forall j :: 0 <= j < |st.log| ==> st.log[j] != Wrote(t)
  {
    AlwaysExplained(ops, st);
    LateReaderSees(st, t, k);
    assert CallExplained(st.log, t, st.calls[t]);
    forall j | 0 <= j < |st.log| ensures st.log[j] != Wrote(t) {
      assert WriteExplained(st, j);
    }
  }

  /** Only the sets of a and b write, and the entry is never cleared. */
  ghost predicate OnlyContenders(st: State, a: Token, b: Token) {
    && Confirmed(st, a) && Confirmed(st, b)
    && forall k :: 0 <= k < |st.log| ==>
         st.log[k] == Observed || k == st.calls[a].setAt.value || k == st.calls[b].setAt.value
  }

  /**
   * The window is exact: two undisturbed contenders both hold the lock if and only if the one that
   * sets first confirms before the other sets.
   */
  lemma BothHoldIff(ops: seq<Op>, st: State, a: Token, b: Token)
    requires After(ops) == Some(st) && OnlyContenders(st, a, b)
    requires st.calls[a].setAt.value < st.calls[b].setAt.value
    ensures Holds(st, a) && Holds(st, b) <==> st.calls[a].confirmAt.value < st.calls[b].setAt.value
  {
    AlwaysExplained(ops, st);
    var ca, cb := st.calls[a], st.calls[b];
    assert CallExplained(st.log, a, ca) && CallExplained(st.log, b, cb);
    HeldIffQuiet(ops, st, a);
    HeldIffQuiet(ops, st, b);
  }

  /** Both calls read before either sets, and the entry is never cleared: their holding overlaps. */
  ghost predicate Overlap(st: State, a: Token, b: Token) {
    && a != b && Holds(st, a) && Holds(st, b) && NeverCleared(st.log, 0, |st.log|)
    && st.calls[a].readAt < st.calls[b].setAt.value && st.calls[b].readAt < st.calls[a].setAt.value
    && st.calls[a].readAt < st.calls[a].setAt.value && st.calls[b].readAt < st.calls[b].setAt.value
  }

  /**
   * Mutual exclusion does fail: two calls that both read before either sets can both be told yes, while
   * nothing ever expires or is released.
   */
  lemma TwoHolders()
    ensures exists ops, st, a, b :: After(ops) == Some(st) && Overlap(st, a, b)
  {
    var ops, st := BothRead();
    var ops2, st2 := Claim(ops, st, 1);
    var ops4, st4 := Claim(ops2, st2, 2);
    assert st4.log == [Observed, Observed, Wrote(1), Observed, Wrote(2), Observed];
    assert Overlap(st4, 1, 2);
  }

  /** A call that saw no token sets the key and confirms at once. */
  lemma Claim(ops: seq<Op>, st: State, t: Token) returns (ops': seq<Op>, st': State)
    requires After(ops) == Some(st) && Enabled(st, SetKey(t)) && st.calls[t].confirmAt.None?
    ensures After(ops') == Some(st') && st'.log == st.log + [Wrote(t), Observed]
    ensures st'.calls == st.calls[t := Call(st.calls[t].readAt, true, Some(|st.log|), Some(|st.log| + 1), true)]
  {
    var st1 := Step(st, SetKey(t));
    AfterNext(ops, SetKey(t));
    AfterNext(ops + [SetKey(t)], Confirm(t));
    ops' := ops + [SetKey(t)] + [Confirm(t)];
    st' := Step(st1, Confirm(t));
    assert st'.log == st.log + [Wrote(t), Observed];
  }

  lemma BothRead() returns (ops: seq<Op>, st: State)
    ensures After(ops) == Some(st) && st.log == [Observed, Observed]
    ensures st.calls == map[1 := Call(0, true, None, None, false), 2 := Call(1, true, None, None, false)]
  {
    AfterNext([], Open(1));
    var st1 := Step(START, Open(1));
    assert Key([]) == None;
    AfterNext([] + [Open(1)], Open(2));
    assert st1.log == [Observed] && Key(st1.log) == None;
    ops := [] + [Open(1)] + [Open(2)];
    st := Step(st1, Open(2));
  }

  lemma AfterNext(ops: seq<Op>, op: Op)
    ensures After(ops + [op]) ==
      var before := After(ops);
      if before.Some? && Enabled(before.value, op) then Some(Step(before.value, op)) else None
  {
    assert (ops + [op])[..|ops|] == ops;
  }
}
