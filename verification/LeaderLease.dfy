/**
 * The leader lock with acquire, renew and release as atomic steps: leases with a time to live.
 */
module LeaderLease {
  import opened Wrappers

  type Token = nat

  /** The cached token and the instant at which the entry expires. */
  datatype Entry = Entry(token: Token, expiresAt: int)

  /** The cache read: an expired entry is absent. */
  function Get(entry: Option<Entry>, now: int): Option<Token> {
    if entry.Some? && now < entry.value.expiresAt then Some(entry.value.token) else None
  }

  class LeaderCache {
    var entry: Option<Entry>

    constructor ()
      ensures entry == None
    {
      entry := None;
    }

    /** acquire: read, set when absent, confirm. */
    method Acquire(token: Token, now: int, ttl: nat) returns (held: bool)
      modifies this
      ensures entry == AcquireEntry(old(entry), token, now, ttl)
      ensures held <==> (old(entry).None? || old(entry).value.expiresAt <= now) && ttl > 0
      ensures held <==> Get(old(entry), now).None? && ttl > 0
      ensures held ==> entry == Some(Entry(token, now + ttl))
      ensures old(entry).Some? && now < old(entry).value.expiresAt ==> entry == old(entry)
    {
      var existing := Get(entry, now);
      if existing.Some? {
        return false;
      }
      entry := Some(Entry(token, now + ttl));
      var confirmed := Get(entry, now);
      return confirmed == Some(token);
    }

    method Renew(token: Token, now: int, ttl: nat) returns (renewed: bool)
      modifies this
      ensures renewed <==>
        old(entry).Some? && old(entry).value.token == token && now < old(entry).value.expiresAt
      ensures entry == if renewed then Some(Entry(token, now + ttl)) else old(entry)
      ensures entry == RenewEntry(old(entry), token, now, ttl)
    {
      var current := Get(entry, now);
      if current != Some(token) {
        return false;
      }
      entry := Some(Entry(token, now + ttl));
      return true;
    }

    method Release(token: Token, now: int)
      modifies this
      ensures entry == ReleaseEntry(old(entry), token, now)
      ensures entry ==
        if old(entry).Some? && old(entry).value.token == token && now < old(entry).value.expiresAt then None
        else old(entry)
    {
      var current := Get(entry, now);
      if current == Some(token) {
        entry := None;
      }
    }
  }

  function AcquireEntry(entry: Option<Entry>, token: Token, now: int, ttl: nat): Option<Entry> {
    if Get(entry, now).None? then Some(Entry(token, now + ttl)) else entry
  }

  /** A call that does not hold the lock leaves the entry alone. */
  function RenewEntry(entry: Option<Entry>, token: Token, now: int, ttl: nat): Option<Entry> {
    if Get(entry, now) == Some(token) then Some(Entry(token, now + ttl)) else entry
  }

  function ReleaseEntry(entry: Option<Entry>, token: Token, now: int): Option<Entry> {
    if Get(entry, now) == Some(token) then None else entry
  }

  // ----- Histories of leases -----

  /** The lease of one winning acquire is valid from `since` until just before `until`. */
  datatype Lease = Lease(token: Token, since: int, until: int)

  datatype Lock = Lock(entry: Option<Entry>, leases: seq<Lease>, clock: int)

  datatype Event =
    | Acquire(token: Token, now: int, ttl: nat)
    | Renew(token: Token, now: int, ttl: nat)
    | Release(token: Token, now: int)

  /** The newest lease now ends at `until`. */
  function CutLast(leases: seq<Lease>, until: int): seq<Lease> {
    if leases == [] then []
    else leases[..|leases| - 1] + [leases[|leases| - 1].(until := until)]
  }

  function Step(lock: Lock, e: Event): Lock {
    var key := Get(lock.entry, e.now);
    match e
    case Acquire(t, now, ttl) =>
      Lock(AcquireEntry(lock.entry, t, now, ttl),
           if key.None? then lock.leases + [Lease(t, now, now + ttl)] else lock.leases,
           now)
    case Renew(t, now, ttl) =>
      Lock(RenewEntry(lock.entry, t, now, ttl),
           if key == Some(t) then CutLast(lock.leases, now + ttl) else lock.leases,
           now)
    case Release(t, now) =>
      Lock(ReleaseEntry(lock.entry, t, now),
           if key == Some(t) then CutLast(lock.leases, now) else lock.leases,
           now)
  }

  function After(start: int, events: seq<Event>): Lock {
    if events == [] then Lock(None, [], start)
    else Step(After(start, events[..|events| - 1]), events[|events| - 1])
  }

  /** The clock does not go back. */
  ghost predicate Timely(start: int, events: seq<Event>) {
    && (events != [] ==> start <= events[0].now)
    && forall i, j :: 0 <= i < j < |events| ==> events[i].now <= events[j].now
  }

  /** The cache entry is the newest lease. */
  ghost predicate EntryIsLast(lock: Lock)
    requires lock.entry.Some?
  {
    && lock.leases != []
    && var last := lock.leases[|lock.leases| - 1];
       last.token == lock.entry.value.token && last.until == lock.entry.value.expiresAt
  }

  predicate ValidAt(lease: Lease, t: int) {
    lease.since <= t < lease.until
  }

  ghost predicate Consistent(lock: Lock) {
    && (forall i, j :: 0 <= i < j < |lock.leases| ==> lock.leases[i].until <= lock.leases[j].since)
    && (forall i :: 0 <= i < |lock.leases| ==> lock.leases[i].since <= lock.clock)
    && (lock.entry.Some? ==> EntryIsLast(lock))
    && (lock.entry.None? ==> forall i :: 0 <= i < |lock.leases| ==> lock.leases[i].until <= lock.clock)
  }

  /** An expired or absent entry means that every lease is over. */
  lemma AbsentMeansOver(lock: Lock, now: int)
    requires Consistent(lock) && lock.clock <= now && Get(lock.entry, now).None?
    ensures forall i :: 0 <= i < |lock.leases| ==> lock.leases[i].until <= now
  {
    var n := |lock.leases|;
    if lock.entry.Some? {
      assert forall i :: 0 <= i < n - 1 ==> lock.leases[i].until <= lock.leases[n - 1].since;
    }
  }

  lemma AcquireKeepsConsistent(lock: Lock, t: Token, now: int, ttl: nat)
    requires Consistent(lock) && lock.clock <= now
    ensures Consistent(Step(lock, Acquire(t, now, ttl)))
  {
    if Get(lock.entry, now).None? {
      AbsentMeansOver(lock, now);
    }
  }

  /** Renewing and releasing move the end of the newest lease, together with the entry. */
  lemma CutKeepsConsistent(lock: Lock, until: int, now: int, entry: Option<Entry>)
    requires Consistent(lock) && lock.clock <= now && lock.entry.Some?
    requires if entry.None? then until <= now else entry.value == Entry(lock.entry.value.token, until)
    ensures Consistent(Lock(entry, CutLast(lock.leases, until), now))
  {
    var n := |lock.leases|;
    var cut := CutLast(lock.leases, until);
    assert forall i :: 0 <= i < n - 1 ==> cut[i] == lock.leases[i] && cut[i].until <= lock.leases[n - 1].since;
  }

  lemma StepKeepsConsistent(lock: Lock, e: Event)
    requires Consistent(lock) && lock.clock <= e.now
    ensures Consistent(Step(lock, e))
  {
    match e
    case Acquire(t, now, ttl) =>
      AcquireKeepsConsistent(lock, t, now, ttl);
    case Renew(t, now, ttl) =>
      if Get(lock.entry, now) == Some(t) {
        CutKeepsConsistent(lock, now + ttl, now, Some(Entry(t, now + ttl)));
      }
    case Release(t, now) =>
      if Get(lock.entry, now) == Some(t) {
        CutKeepsConsistent(lock, now, now, None);
      }
  }

  lemma {:induction false} AlwaysConsistent(start: int, events: seq<Event>)
    requires Timely(start, events)
    ensures Consistent(After(start, events))
    ensures After(start, events).clock == if events == [] then start else events[|events| - 1].now
  {
    if events != [] {
      AlwaysConsistent(start, events[..|events| - 1]);
      StepKeepsConsistent(After(start, events[..|events| - 1]), events[|events| - 1]);
    }
  }

  /** Disjoint leases: at no instant are two leases valid, and a valid lease is what the cache shows. */
  lemma LeasesDisjoint(start: int, events: seq<Event>)
    requires Timely(start, events)
    ensures var lock := After(start, events);
      && (forall i, j, t :: 0 <= i < j < |lock.leases| ==>
           !(ValidAt(lock.leases[i], t) && ValidAt(lock.leases[j], t)))
      && (forall i :: 0 <= i < |lock.leases| && lock.clock < lock.leases[i].until ==>
           Get(lock.entry, lock.clock) == Some(lock.leases[i].token))
  {
    AlwaysConsistent(start, events);
    var lock := After(start, events);
    var last := |lock.leases| - 1;
    assert forall i :: 0 <= i < last ==> lock.leases[i].until <= lock.leases[last].since <= lock.clock;
  }
}
