/**
 Cache-backed try-locks (`apps/core/common/locks.py`).

 A lock is one cache entry whose value is the owner's random token. `cache.add` is atomic,
 but renewing is a `get` followed by a `set`, and releasing is a `get` followed by a `delete`:
 other processes may run between the two halves. The module models every cache operation as
 one step of a transition system with any number of owners on any number of keys.
 */
module Locks {
  import opened Options

  type Key = string
  type Owner = nat    // a holder's token: `uuid4` makes it unique to one `named_lock` call

  datatype Entry = Entry(owner: Owner, expiry: int)

  // ---------------------------------------------------------------------------------------
  // The cache
  // ---------------------------------------------------------------------------------------

  /** An entry counts until its expiry instant. */
  predicate Live(cache: map<Key, Entry>, key: Key, now: int) {
    key in cache && now < cache[key].expiry
  }

  predicate OwnedBy(cache: map<Key, Entry>, key: Key, owner: Owner, now: int) {
    Live(cache, key, now) && cache[key].owner == owner
  }

  class TtlCache {
    var entries: map<Key, Entry>

    constructor ()
      ensures entries == map[]
    {
      entries := map[];
    }

    /** Store unless a live entry is present. */
    method Add(key: Key, owner: Owner, timeout: nat, now: int) returns (added: bool)
      modifies this
      ensures added == !old(Live(entries, key, now))
      ensures added ==> entries == old(entries)[key := Entry(owner, now + timeout)]
      ensures !added ==> entries == old(entries)
    {
      added := !Live(entries, key, now);
      if added {
        entries := entries[key := Entry(owner, now + timeout)];
      }
    }

    method Get(key: Key, now: int) returns (found: Option<Owner>)
      ensures forall o: Owner :: found == Some(o) <==> OwnedBy(entries, key, o, now)
    {
      found := if Live(entries, key, now) then Some(entries[key].owner) else None;
    }

    method Set(key: Key, owner: Owner, timeout: nat, now: int)
      modifies this
      ensures entries == old(entries)[key := Entry(owner, now + timeout)]
    {
      entries := entries[key := Entry(owner, now + timeout)];
    }

    method Delete(key: Key)
      modifies this
      ensures entries == old(entries) - {key}
    {
      entries := entries - {key};
    }
  }

  // ---------------------------------------------------------------------------------------
  // One holder, with everyone else's work between its two cache operations as a parameter
  // ---------------------------------------------------------------------------------------

  class LockLease {
    const name: Key
    const token: Owner
    const timeout: nat
    const added: bool       // what `cache.add` answered; the release test looks at this
    var acquired: bool

    constructor (name: Key, token: Owner, timeout: nat, acquired: bool)
      ensures this.name == name && this.token == token && this.timeout == timeout
      ensures this.added == this.acquired == acquired
    {
      this.name, this.token, this.timeout := name, token, timeout;
      this.added, this.acquired := acquired, acquired;
    }

    /** Re-stamp the lease if the entry read at `tGet` is still ours. `between` is what the cache
        holds when the second operation starts, whatever other processes did meanwhile. */
    method Renew(cache: TtlCache, tGet: int, between: map<Key, Entry>, tSet: int) returns (ours: bool)
      modifies this, cache
      ensures ours == acquired == old(acquired && OwnedBy(cache.entries, name, token, tGet))
      ensures ours ==> cache.entries == between[name := Entry(token, tSet + timeout)]
      ensures !ours ==> cache.entries == old(cache.entries)
    {
      if !acquired {
        return false;
      }
      var found := cache.Get(name, tGet);
      if found != Some(token) {
        assert !OwnedBy(cache.entries, name, token, tGet);
        acquired := false;
        return false;
      }
      assert OwnedBy(cache.entries, name, token, tGet);
      cache.entries := between;
      cache.Set(name, token, timeout, tSet);
      return true;
    }

    /** Leaving the `with` block: delete the key if the entry read at `tGet` is ours. */
    method Release(cache: TtlCache, tGet: int, between: map<Key, Entry>)
      modifies cache
      ensures added && old(OwnedBy(cache.entries, name, token, tGet)) ==> cache.entries == between - {name}
      ensures !(added && old(OwnedBy(cache.entries, name, token, tGet))) ==> cache.entries == old(cache.entries)
    {
      if added {
        var found := cache.Get(name, tGet);
        if found == Some(token) {
          assert OwnedBy(cache.entries, name, token, tGet);
          cache.entries := between;
          cache.Delete(name);
        } else {
          assert !OwnedBy(cache.entries, name, token, tGet);
        }
      }
    }
  }

  // ---------------------------------------------------------------------------------------
  // All holders at once
  // ---------------------------------------------------------------------------------------

  /** Where a holder is. The two `Read` phases sit between the halves of renew and release and
      remember the expiry of the entry that was read. */
  datatype Phase =
    | Missed                 // `cache.add` failed
    | Held
    | Lost                   // a renew found somebody else's entry, or none
    | RenewRead(seen: int)
    | ReleaseRead(seen: int)
    | Done

  /** `deadline` is the expiry this holder stamped last. */
  datatype Holder = Holder(key: Key, timeout: nat, deadline: int, phase: Phase)

  datatype State = State(now: int, cache: map<Key, Entry>, holders: map<Owner, Holder>)

  datatype Step =
    | Tick(to: int)
    | Acquire(who: Owner, key: Key, timeout: nat)
    | RenewGet(who: Owner)
    | RenewSet(who: Owner)
    | ReleaseGet(who: Owner)
    | ReleaseDelete(who: Owner)

  predicate Enabled(s: State, step: Step) {
    match step
    case Tick(to) => s.now <= to
    case Acquire(a, _, _) => a !in s.holders
    case RenewGet(a) => a in s.holders && s.holders[a].phase == Held
    case RenewSet(a) => a in s.holders && s.holders[a].phase.RenewRead?
    case ReleaseGet(a) => a in s.holders && s.holders[a].phase in {Held, Lost}
    case ReleaseDelete(a) => a in s.holders && s.holders[a].phase.ReleaseRead?
  }

  /** A step that is not enabled changes nothing, so every list of steps is a run. */
  function Apply(s: State, step: Step): (s': State) {
    if !Enabled(s, step) then s else
    match step
    case Tick(to) => s.(now := to)
    case Acquire(a, key, timeout) =>
      if Live(s.cache, key, s.now) then
        s.(holders := s.holders[a := Holder(key, timeout, s.now, Missed)])
      else
        s.(cache := s.cache[key := Entry(a, s.now + timeout)],
           holders := s.holders[a := Holder(key, timeout, s.now + timeout, Held)])
    case RenewGet(a) =>
      var h := s.holders[a];
      var phase := if OwnedBy(s.cache, h.key, a, s.now) then RenewRead(s.cache[h.key].expiry) else Lost;
      s.(holders := s.holders[a := h.(phase := phase)])
    case RenewSet(a) =>
      var h := s.holders[a];
      s.(cache := s.cache[h.key := Entry(a, s.now + h.timeout)],
         holders := s.holders[a := h.(deadline := s.now + h.timeout, phase := Held)])
    case ReleaseGet(a) =>
      var h := s.holders[a];
      var phase := if OwnedBy(s.cache, h.key, a, s.now) then ReleaseRead(s.cache[h.key].expiry) else Done;
      s.(holders := s.holders[a := h.(phase := phase)])
    case ReleaseDelete(a) =>
      var h := s.holders[a];
      s.(cache := s.cache - {h.key}, holders := s.holders[a := h.(phase := Done)])
  }

  /** The second half of a renew or a release happens before the entry it read expires. */
  predicate Timely(s: State, step: Step) {
    Enabled(s, step) ==>
      match step
      case RenewSet(a) => s.now < s.holders[a].phase.seen
      case ReleaseDelete(a) => s.now < s.holders[a].phase.seen
      case _ => true
  }

  function After(s: State, steps: seq<Step>): State
    decreases |steps|
  {
    if steps == [] then s else After(Apply(s, steps[0]), steps[1..])
  }

  predicate TimelyRun(s: State, steps: seq<Step>)
    decreases |steps|
  {
    steps == [] || (Timely(s, steps[0]) && TimelyRun(Apply(s, steps[0]), steps[1..]))
  }

  const Start := State(0, map[], map[])

  /** Holding on paper: the last stamp has not run out and the lock was not given up. */
  predicate InLease(s: State, a: Owner) {
    && a in s.holders
    && (s.holders[a].phase.Held? || s.holders[a].phase.RenewRead? || s.holders[a].phase.ReleaseRead?)
    && s.now < s.holders[a].deadline
  }

  predicate StampedBy(s: State, key: Key, entry: Entry) {
    && entry.owner in s.holders
    && s.holders[entry.owner].key == key
    && s.holders[entry.owner].deadline == entry.expiry
  }

  /** Whoever is in its lease owns the live entry, with the expiry it stamped. */
  ghost predicate LeaseInv(s: State) {
    && (forall a :: InLease(s, a) ==>
          s.holders[a].key in s.cache && s.cache[s.holders[a].key] == Entry(a, s.holders[a].deadline))
    && (forall a :: a in s.holders && s.holders[a].phase.RenewRead? ==>
          s.holders[a].phase.seen == s.holders[a].deadline)
    && (forall a :: a in s.holders && s.holders[a].phase.ReleaseRead? ==>
          s.holders[a].phase.seen == s.holders[a].deadline)
    && (forall a :: a in s.holders && s.holders[a].phase.Lost? ==> s.holders[a].deadline <= s.now)
    && (forall k :: k in s.cache ==> StampedBy(s, k, s.cache[k]))
  }

  lemma AcquireKeepsLeaseInv(s: State, b: Owner, key: Key, timeout: nat)
    requires LeaseInv(s) && Enabled(s, Acquire(b, key, timeout))
    ensures LeaseInv(Apply(s, Acquire(b, key, timeout)))
  {
    var s' := Apply(s, Acquire(b, key, timeout));
    assert forall a :: a != b && InLease(s', a) ==> InLease(s, a);
  }

  /** The clock and the reads leave the cache alone and put nobody into a lease. */
  lemma ReadKeepsLeaseInv(s: State, step: Step)
    requires LeaseInv(s) && Enabled(s, step) && (step.Tick? || step.RenewGet? || step.ReleaseGet?)
    ensures LeaseInv(Apply(s, step))
  {
    var s' := Apply(s, step);
    if step.RenewGet? {
      assert InLease(s, step.who) <==> s.now < s.holders[step.who].deadline;
    }
    assert forall a :: InLease(s', a) ==> InLease(s, a);
  }

  /** A timely write comes from the holder in its lease, so nobody else's lease is on that key. */
  lemma WriteKeepsLeaseInv(s: State, step: Step)
    requires LeaseInv(s) && Enabled(s, step) && Timely(s, step) && (step.RenewSet? || step.ReleaseDelete?)
    ensures LeaseInv(Apply(s, step))
  {
    var s' := Apply(s, step);
    assert InLease(s, step.who);
    assert forall a :: a != step.who && InLease(s', a) ==> InLease(s, a);
  }

  lemma StepKeepsLeaseInv(s: State, step: Step)
    requires LeaseInv(s) && Timely(s, step)
    ensures LeaseInv(Apply(s, step))
  {
    if Enabled(s, step) {
      match step
      case Acquire(b, key, timeout) => AcquireKeepsLeaseInv(s, b, key, timeout);
      case RenewSet(_) => WriteKeepsLeaseInv(s, step);
      case ReleaseDelete(_) => WriteKeepsLeaseInv(s, step);
      case _ => ReadKeepsLeaseInv(s, step);
    }
  }

  /** A step moves no holder onto another key, nor back into its lease. */
  lemma StepKeepsHolder(s: State, step: Step, a: Owner)
    requires LeaseInv(s) && Timely(s, step) && a in s.holders
    ensures a in Apply(s, step).holders && Apply(s, step).holders[a].key == s.holders[a].key
    ensures InLease(Apply(s, step), a) ==> InLease(s, a)
  {
  }

  lemma {:induction false} TimelyRunKeepsLeaseInv(s: State, steps: seq<Step>)
    requires LeaseInv(s) && TimelyRun(s, steps)
    ensures LeaseInv(After(s, steps))
    decreases |steps|
  {
    if steps != [] {
      StepKeepsLeaseInv(s, steps[0]);
      TimelyRunKeepsLeaseInv(Apply(s, steps[0]), steps[1..]);
    }
  }

  /** In every timely run, at most one holder per key is within its lease, and it owns the entry. */
  lemma MutualExclusion(steps: seq<Step>, a: Owner, b: Owner)
    requires TimelyRun(Start, steps)
    requires InLease(After(Start, steps), a) && InLease(After(Start, steps), b)
    requires After(Start, steps).holders[a].key == After(Start, steps).holders[b].key
    ensures a == b
    ensures OwnedBy(After(Start, steps).cache, After(Start, steps).holders[a].key, a, After(Start, steps).now)
  {
    TimelyRunKeepsLeaseInv(Start, steps);
  }

  /** Extending a timely run by the second half of a renew or release touches only one's own entry:
      the entry overwritten or deleted belongs to the holder doing it, and no other key changes. */
  lemma WritesOnlyOwnEntry(steps: seq<Step>, step: Step)
    requires TimelyRun(Start, steps)
    requires step.RenewSet? || step.ReleaseDelete?
    requires Enabled(After(Start, steps), step) && Timely(After(Start, steps), step)
    ensures var s := After(Start, steps); var key := s.holders[step.who].key;
            && OwnedBy(s.cache, key, step.who, s.now)
            && Apply(s, step).cache - {key} == s.cache - {key}
  {
    TimelyRunKeepsLeaseInv(Start, steps);
    assert InLease(After(Start, steps), step.who);
  }

  /** A holder that renews before its deadline is never displaced: the `get` still finds its token,
      and nobody else can acquire the key. */
  lemma RenewInTimeSucceeds(steps: seq<Step>, a: Owner, b: Owner, timeout: nat)
    requires TimelyRun(Start, steps)
    requires InLease(After(Start, steps), a) && After(Start, steps).holders[a].phase == Held
    requires b !in After(Start, steps).holders
    ensures var s := After(Start, steps); var key := s.holders[a].key;
            && Apply(s, RenewGet(a)).holders[a].phase == RenewRead(s.holders[a].deadline)
            && Apply(s, Acquire(b, key, timeout)).holders[b].phase == Missed
            && Apply(s, Acquire(b, key, timeout)).cache == s.cache
  {
    TimelyRunKeepsLeaseInv(Start, steps);
  }

  /** The holder `a` keeps renewing: each tick of the clock ends less than `timeout` after its last stamp,
      and it does not release. A stamp is the `set` that follows a `get` of its own; `stamped` is when the
      last one was, and `reading` says that a `get` is waiting for its `set`. */
  predicate KeepsRenewing(a: Owner, timeout: nat, now: int, stamped: int, reading: bool, steps: seq<Step>)
    decreases |steps|
  {
    steps == [] ||
    match steps[0]
    case Tick(to) =>
      (now <= to ==> to < stamped + timeout)
      && KeepsRenewing(a, timeout, if now <= to then to else now, stamped, reading, steps[1..])
    case RenewGet(b) => KeepsRenewing(a, timeout, now, stamped, reading || a == b, steps[1..])
    case RenewSet(b) =>
      if a == b && reading then KeepsRenewing(a, timeout, now, now, false, steps[1..])
      else KeepsRenewing(a, timeout, now, stamped, reading, steps[1..])
    case ReleaseGet(b) => a != b && KeepsRenewing(a, timeout, now, stamped, reading, steps[1..])
    case _ => KeepsRenewing(a, timeout, now, stamped, reading, steps[1..])
  }

  /** The holder is in its lease, between renewals or in the middle of one. */
  predicate HoldsOn(s: State, a: Owner, timeout: nat, stamped: int, reading: bool) {
    && InLease(s, a) && s.holders[a].timeout == timeout && s.holders[a].deadline == stamped + timeout
    && stamped <= s.now
    && (if reading then s.holders[a].phase.RenewRead? else s.holders[a].phase.Held?)
  }

  /** A holder whose stamps are less than `timeout` apart is in its lease at every moment, whatever the other
      holders do in time. */
  lemma {:induction false} RenewingHolderIsNeverDisplaced(s: State, steps: seq<Step>, n: nat, a: Owner,
                                                          timeout: nat, stamped: int, reading: bool)
    requires LeaseInv(s) && TimelyRun(s, steps) && n <= |steps|
    requires HoldsOn(s, a, timeout, stamped, reading)
    requires KeepsRenewing(a, timeout, s.now, stamped, reading, steps)
    ensures InLease(After(s, steps[..n]), a)
    ensures var now := After(s, steps[..n]);
            OwnedBy(now.cache, s.holders[a].key, a, now.now) && now.holders[a].key == s.holders[a].key
    decreases |steps|
  {
    if n > 0 {
      var step := steps[0];
      var next := Apply(s, step);
      StepKeepsLeaseInv(s, step);
      assert steps[..n][1..] == steps[1..][..n - 1];
      var stamps := step == RenewSet(a) && reading;
      var stamped' := if stamps then s.now else stamped;
      var reading' := if stamps then false else if step == RenewGet(a) then true else reading;
      HoldsOnStep(s, step, a, timeout, stamped, reading);
      RenewingHolderIsNeverDisplaced(next, steps[1..], n - 1, a, timeout, stamped', reading');
    }
  }

  lemma HoldsOnStep(s: State, step: Step, a: Owner, timeout: nat, stamped: int, reading: bool)
    requires LeaseInv(s) && Timely(s, step) && HoldsOn(s, a, timeout, stamped, reading)
    requires step.Tick? && s.now <= step.to ==> step.to < stamped + timeout
    requires step != ReleaseGet(a)
    ensures var stamps := step == RenewSet(a) && reading;
            && HoldsOn(Apply(s, step), a, timeout, if stamps then s.now else stamped,
                       if stamps then false else if step == RenewGet(a) then true else reading)
            && Apply(s, step).holders[a].key == s.holders[a].key
  {
  }

  ghost predicate StampsArePast(s: State) {
    forall a :: a in s.holders ==> s.holders[a].deadline <= s.now + s.holders[a].timeout
  }

  lemma {:induction false} RunKeepsStampsPast(s: State, steps: seq<Step>)
    requires StampsArePast(s)
    ensures StampsArePast(After(s, steps))
    decreases |steps|
  {
    if steps != [] {
      RunKeepsStampsPast(Apply(s, steps[0]), steps[1..]);
    }
  }

  /** The same from the start of time: after any timely run in which `a` holds the lock. */
  lemma RenewingKeepsTheLock(before: seq<Step>, steps: seq<Step>, n: nat, a: Owner)
    requires TimelyRun(Start, before) && TimelyRun(After(Start, before), steps) && n <= |steps|
    requires var s := After(Start, before);
             && InLease(s, a) && s.holders[a].phase == Held
             && KeepsRenewing(a, s.holders[a].timeout, s.now, s.holders[a].deadline - s.holders[a].timeout, false, steps)
    ensures var s := After(Start, before); var now := After(s, steps[..n]);
            InLease(now, a) && OwnedBy(now.cache, s.holders[a].key, a, now.now)
  {
    var s := After(Start, before);
    TimelyRunKeepsLeaseInv(Start, before);
    RunKeepsStampsPast(Start, before);
    RenewingHolderIsNeverDisplaced(s, steps, n, a, s.holders[a].timeout, s.holders[a].deadline - s.holders[a].timeout,
                                   false);
  }

  /** A free key is taken, for the whole timeout. */
  lemma FreeKeyIsTaken(s: State, a: Owner, key: Key, timeout: nat)
    requires a !in s.holders && !Live(s.cache, key, s.now)
    ensures var s' := Apply(s, Acquire(a, key, timeout));
            && s'.holders[a] == Holder(key, timeout, s.now + timeout, Held)
            && key in s'.cache && s'.cache[key] == Entry(a, s.now + timeout)
            && s'.cache - {key} == s.cache - {key}
            && (timeout > 0 ==> InLease(s', a))
  {
  }

  /** A holder that releases in time gives the key up: nobody's entry is left on it, and the next to come
      takes it. */
  lemma ReleaseFreesTheKey(steps: seq<Step>, a: Owner, b: Owner, timeout: nat)
    requires TimelyRun(Start, steps)
    requires InLease(After(Start, steps), a) && After(Start, steps).holders[a].phase == Held
    requires b !in After(Start, steps).holders
    ensures var s := After(Start, steps); var key := s.holders[a].key;
            var s' := Apply(Apply(s, ReleaseGet(a)), ReleaseDelete(a));
            && Timely(Apply(s, ReleaseGet(a)), ReleaseDelete(a))
            && key !in s'.cache && s'.cache - {key} == s.cache - {key} && !InLease(s', a)
            && Apply(s', Acquire(b, key, timeout)).holders[b].phase == Held
  {
    TimelyRunKeepsLeaseInv(Start, steps);
  }

  /** A holder whose lease ran out is told the truth: if a renew reports `Lost`, the deadline passed. */
  lemma LostOnlyAfterDeadline(steps: seq<Step>, a: Owner)
    requires TimelyRun(Start, steps)
    requires Enabled(After(Start, steps), RenewGet(a))
    ensures Apply(After(Start, steps), RenewGet(a)).holders[a].phase == Lost
            <==> (After(Start, steps).holders[a].deadline <= After(Start, steps).now)
  {
    TimelyRunKeepsLeaseInv(Start, steps);
    var s := After(Start, steps);
    if s.now < s.holders[a].deadline {
      assert InLease(s, a);
    }
  }

  /** The timeliness assumption cannot be dropped: whenever the second half of a renew or release
      is late, one more acquisition by a newcomer is enough for it to destroy a foreign live entry. */
  lemma LateWriteCanClobber(steps: seq<Step>, late: Step, newcomer: Owner, timeout: nat)
    requires TimelyRun(Start, steps)
    requires late.RenewSet? || late.ReleaseDelete?
    requires Enabled(After(Start, steps), late) && !Timely(After(Start, steps), late)
    requires newcomer !in After(Start, steps).holders && timeout > 0
    ensures var s := After(Start, steps); var key := s.holders[late.who].key;
            var s1 := Apply(s, Acquire(newcomer, key, timeout));
            && Live(s1.cache, key, s1.now) && s1.cache[key].owner != late.who
            && Enabled(s1, late)
            && !OwnedBy(Apply(s1, late).cache, key, s1.cache[key].owner, s1.now)
  {
    TimelyRunKeepsLeaseInv(Start, steps);
  }
}
