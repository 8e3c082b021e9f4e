/**
 Replacing the sources of a feed (`SourceService.set_sources` in
 `apps/core/feeds/services/sources.py`, with the watermark policy of `apps/core/feeds/policy.py`).

 Rows are those of one (account, feed), keyed by the hash of their spec, which the database keeps
 unique. SHA-256 of the canonical spec is taken to be injective: a `Hash` is built from its spec.
 */
module SetSources {
  import opened Options
  import Locks

  /** A spec in canonical form: its kind and its sorted-key JSON. */
  datatype Spec = Spec(kind: string, json: string)

  datatype Hash = Sha256(spec: Spec)

  type Tags = map<string, string>

  datatype Row = Row(id: string, kind: string, spec: Spec, mark: Option<int>, meta: Tags, fieldMap: Tags)

  datatype Input = Input(spec: Spec, startAt: Option<int>, meta: Tags, fieldMap: Tags)

  type Rows = map<Hash, Row>

  /** The wanted sources by hash. */
  type Wanted = map<Hash, Input>

  datatype Counts = Counts(added: nat, removed: nat, persisted: nat, sourceCount: nat)

  datatype Outcome = Done(counts: Counts) | PolicyError | Busy

  /** What the call depends on besides the table: the loaded connectors, the URL policy, the wall clock
      at the moment a new row is checked, and the ids handed to new rows. */
  datatype Env = Env(kinds: set<string>, safe: Spec -> bool, clock: Hash -> int, newId: Hash -> string)

  // ---------------------------------------------------------------------------------------
  // Specification
  // ---------------------------------------------------------------------------------------

  /** The first input of each spec. */
  function FirstOfEach(items: seq<Input>): Wanted
    decreases |items|
  {
    if items == [] then map[]
    else
      var before, last := FirstOfEach(items[..|items| - 1]), items[|items| - 1];
      if Sha256(last.spec) in before then before else before[Sha256(last.spec) := last]
  }

  /** `default_and_enforce_source_watermark`: missing means now, the future is refused. */
  function StartMark(item: Input, now: int): Option<int> {
    match item.startAt
    case None => Some(now)
    case Some(t) => if t > now then None else Some(t)
  }

  /** Some source to be added starts in the future. */
  predicate FutureAdded(rows: Rows, wanted: Wanted, env: Env) {
    exists h :: h in wanted && h !in rows && StartMark(wanted[h], env.clock(h)).None?
  }

  predicate Admissible(items: seq<Input>, env: Env) {
    forall item :: item in items ==> item.spec.kind in env.kinds && env.safe(item.spec)
  }

  function NewRow(h: Hash, item: Input, env: Env): Row {
    Row(env.newId(h), item.spec.kind, item.spec, StartMark(item, env.clock(h)), item.meta, item.fieldMap)
  }

  /** The reconciled table. */
  function Reconcile(rows: Rows, wanted: Wanted, env: Env): Rows {
    map h | h in wanted ::
      if h in rows then rows[h].(meta := wanted[h].meta, fieldMap := wanted[h].fieldMap)
      else NewRow(h, wanted[h], env)
  }

  function CountsOf(rows: Rows, wanted: Wanted): Counts {
    Counts(|wanted.Keys - rows.Keys|, |rows.Keys - wanted.Keys|, |rows.Keys * wanted.Keys|, |wanted.Keys|)
  }

  // ---------------------------------------------------------------------------------------
  // The service
  // ---------------------------------------------------------------------------------------

  class SourceService {
    var rows: Rows

    constructor ()
      ensures rows == map[]
    {
      rows := map[];
    }

    /** `set_sources`, given whether the feed's lock was acquired. The counts are those of the table
        as it is, dry run or not; the table changes only on a real, admitted, locked call. */
    method SetSources(items: seq<Input>, dryRun: bool, acquired: bool, env: Env) returns (outcome: Outcome)
      modifies this
      ensures outcome.PolicyError? <==>
                || (exists item :: item in items && !(item.spec.kind in env.kinds && env.safe(item.spec)))
                || (!dryRun && acquired && exists i :: StartsInTheFuture(old(rows), items, env, i))
      ensures outcome.Busy? <==>
                !dryRun && !acquired && forall item :: item in items ==> item.spec.kind in env.kinds && env.safe(item.spec)
      ensures outcome.Done? ==>
                var given := set item | item in items :: Sha256(item.spec);
                && outcome.counts.added == |given - old(rows).Keys| && outcome.counts.removed == |old(rows).Keys - given|
                && outcome.counts.persisted == |given * old(rows).Keys| && outcome.counts.sourceCount == |given|
      ensures outcome.Done? && !dryRun ==> rows == Reconcile(old(rows), FirstOfEach(items), env)
      ensures !outcome.Done? || dryRun ==> rows == old(rows)
    {
      if !Admissible(items, env) {
        return PolicyError;
      }
      var wanted := Dedup(items);
      CountsAre(rows, items);
      FutureAddedIff(rows, items, env);
      if dryRun {
        return Done(CountsOf(rows, wanted));
      }
      if !acquired {
        return Busy;
      }
      var counts := CountsOf(rows, wanted);
      DiffOfFreshView(rows, wanted, env);
      var ok := ApplyDiff(View(rows), wanted, env);
      return if ok then Done(counts) else PolicyError;
    }

    /** The first loop: keep the first input of each spec. */
    method Dedup(items: seq<Input>) returns (wanted: Wanted)
      ensures wanted == FirstOfEach(items)
    {
      wanted := map[];
      for i := 0 to |items|
        invariant wanted == FirstOfEach(items[..i])
      {
        assert items[..i + 1][..i] == items[..i];
        var h := Sha256(items[i].spec);
        if h !in wanted {
          wanted := wanted[h := items[i]];
        }
      }
      assert items[..|items|] == items;
    }

    /** The transaction: delete, insert, refresh, by the difference between the snapshot `seen` and
        what is wanted. A refused watermark rolls everything back. */
    method ApplyDiff(seen: map<Hash, (Tags, Tags)>, wanted: Wanted, env: Env) returns (ok: bool)
      modifies this
      ensures ok <==> Accepted(seen, wanted, env)
      ensures ok ==> rows == Diffed(old(rows), seen, wanted, env)
      ensures !ok ==> rows == old(rows)
    {
      var before := rows;
      rows := rows - (seen.Keys - wanted.Keys);
      if !Accepted(seen, wanted, env) {
        rows := before;
        return false;
      }
      // ignore_conflicts: a row that appeared meanwhile stays as it is
      rows := (map h | h in wanted && h !in seen :: NewRow(h, wanted[h], env)) + rows;
      assert rows == Inserted(before, seen, wanted, env);
      Refresh(wanted, set h | h in seen && h in wanted && seen[h] != (wanted[h].meta, wanted[h].fieldMap));
      return true;
    }

    /** One UPDATE for each row whose tags or field map changed. */
    method Refresh(wanted: Wanted, dirty: set<Hash>)
      requires dirty <= wanted.Keys
      modifies this
      ensures rows == Refreshed(old(rows), wanted, dirty)
    {
      var todo := dirty;
      while todo != {}
        invariant todo <= dirty
        invariant rows == Refreshed(old(rows), wanted, dirty - todo)
      {
        var h :| h in todo;
        if h in rows {
          rows := rows[h := rows[h].(meta := wanted[h].meta, fieldMap := wanted[h].fieldMap)];
        }
        todo := todo - {h};
      }
      assert dirty - todo == dirty;
    }
  }

  /** What the snapshot reads of each row. */
  function View(rows: Rows): map<Hash, (Tags, Tags)> {
    map h | h in rows :: (rows[h].meta, rows[h].fieldMap)
  }

  /** No row to be inserted starts in the future. */
  predicate Accepted(seen: map<Hash, (Tags, Tags)>, wanted: Wanted, env: Env) {
    forall h :: h in wanted && h !in seen ==> StartMark(wanted[h], env.clock(h)).Some?
  }

  function Inserted(rows: Rows, seen: map<Hash, (Tags, Tags)>, wanted: Wanted, env: Env): Rows {
    (map h | h in wanted && h !in seen :: NewRow(h, wanted[h], env)) + (rows - (seen.Keys - wanted.Keys))
  }

  function Refreshed(rows: Rows, wanted: Wanted, which: set<Hash>): Rows
    requires which <= wanted.Keys
  {
    map h | h in rows :: if h in which then rows[h].(meta := wanted[h].meta, fieldMap := wanted[h].fieldMap) else rows[h]
  }

  /** The table after applying the difference between an earlier snapshot and what is wanted. */
  function Diffed(rows: Rows, seen: map<Hash, (Tags, Tags)>, wanted: Wanted, env: Env): Rows {
    Refreshed(Inserted(rows, seen, wanted, env), wanted,
              set h | h in seen && h in wanted && seen[h] != (wanted[h].meta, wanted[h].fieldMap))
  }

  /** With an up-to-date snapshot the difference is the reconciliation: the rows skipped as unchanged
      are already as wanted. */
  lemma DiffOfFreshView(rows: Rows, wanted: Wanted, env: Env)
    ensures Diffed(rows, View(rows), wanted, env) == Reconcile(rows, wanted, env)
    ensures Accepted(View(rows), wanted, env) <==> !FutureAdded(rows, wanted, env)
  {
    var diffed := Diffed(rows, View(rows), wanted, env);
    assert Inserted(rows, View(rows), wanted, env).Keys == wanted.Keys;
    forall h | h in wanted ensures diffed[h] == Reconcile(rows, wanted, env)[h] {
      assert h in rows ==> View(rows)[h] == (rows[h].meta, rows[h].fieldMap);
    }
  }

  // ---------------------------------------------------------------------------------------
  // What reconciling promises
  // ---------------------------------------------------------------------------------------

  ghost predicate IsFirst(items: seq<Input>, i: nat) {
    i < |items| && forall j :: 0 <= j < i ==> items[j].spec != items[i].spec
  }

  /** The wanted sources are those of the input. */
  lemma {:induction false} FirstOfEachKeys(items: seq<Input>)
    ensures forall h :: h in FirstOfEach(items) <==> exists item :: item in items && Sha256(item.spec) == h
    decreases |items|
  {
    if items != [] {
      var init, last := items[..|items| - 1], items[|items| - 1];
      FirstOfEachKeys(init);
      assert forall item :: item in items <==> item in init || item == last;
    }
  }

  /** Each is taken with the values of its first occurrence. */
  lemma {:induction false} FirstOfEachIsFirst(items: seq<Input>, i: nat)
    requires IsFirst(items, i)
    ensures Sha256(items[i].spec) in FirstOfEach(items) && FirstOfEach(items)[Sha256(items[i].spec)] == items[i]
    decreases |items|
  {
    var init := items[..|items| - 1];
    FirstOfEachKeys(init);
    if i < |init| {
      FirstOfEachIsFirst(init, i);
    }
  }

  /** Input `i` is the first of its spec, which no row has, and asks to start after the present. */
  ghost predicate StartsInTheFuture(rows: Rows, items: seq<Input>, env: Env, i: int) {
    && 0 <= i < |items| && IsFirst(items, i) && Sha256(items[i].spec) !in rows
    && items[i].startAt.Some? && items[i].startAt.value > env.clock(Sha256(items[i].spec))
  }

  lemma {:induction false} EachHasAFirst(items: seq<Input>, h: Hash)
    requires h in FirstOfEach(items)
    ensures exists i :: 0 <= i < |items| && IsFirst(items, i) && Sha256(items[i].spec) == h
    decreases |items|
  {
    var n := |items| - 1;
    var init := items[..n];
    if h in FirstOfEach(init) {
      EachHasAFirst(init, h);
      var i :| 0 <= i < |init| && IsFirst(init, i) && Sha256(init[i].spec) == h;
      assert IsFirst(items, i);
    } else {
      FirstOfEachKeys(init);
      assert forall j :: 0 <= j < n ==> init[j] in init && items[j] == init[j];
      assert IsFirst(items, n);
    }
  }

  lemma FutureAddedIff(rows: Rows, items: seq<Input>, env: Env)
    ensures FutureAdded(rows, FirstOfEach(items), env) <==> exists i :: StartsInTheFuture(rows, items, env, i)
  {
    if h :| h in FirstOfEach(items) && h !in rows && StartMark(FirstOfEach(items)[h], env.clock(h)).None? {
      EachHasAFirst(items, h);
      var i :| 0 <= i < |items| && IsFirst(items, i) && Sha256(items[i].spec) == h;
      FirstOfEachIsFirst(items, i);
      assert StartsInTheFuture(rows, items, env, i);
    }
    if i :| StartsInTheFuture(rows, items, env, i) {
      FirstOfEachIsFirst(items, i);
      assert StartMark(FirstOfEach(items)[Sha256(items[i].spec)], env.clock(Sha256(items[i].spec))).None?;
    }
  }

  lemma CountsAre(rows: Rows, items: seq<Input>)
    ensures var given := set item | item in items :: Sha256(item.spec);
            CountsOf(rows, FirstOfEach(items))
            == Counts(|given - rows.Keys|, |rows.Keys - given|, |given * rows.Keys|, |given|)
  {
    FirstOfEachKeys(items);
    var given := set item | item in items :: Sha256(item.spec);
    assert FirstOfEach(items).Keys == given;
    assert rows.Keys * given == given * rows.Keys;
  }

  /** The table holds exactly the specs of the input. A source that persists keeps its row id, spec and
      watermark; a new one starts at its given past instant or now, never in the future; tags and field
      map are those of the spec's first occurrence. */
  lemma ReconcileIsExact(rows: Rows, items: seq<Input>, env: Env, i: nat)
    requires IsFirst(items, i)
    requires !FutureAdded(rows, FirstOfEach(items), env)
    ensures var after := Reconcile(rows, FirstOfEach(items), env); var h := Sha256(items[i].spec);
            && (forall k :: k in after <==> exists item :: item in items && Sha256(item.spec) == k)
            && h in after && after[h].meta == items[i].meta && after[h].fieldMap == items[i].fieldMap
            && (h in rows ==> after[h].mark == rows[h].mark && after[h].id == rows[h].id
                              && after[h].spec == rows[h].spec && after[h].kind == rows[h].kind)
            && (h !in rows ==> after[h].spec == items[i].spec && after[h].kind == items[i].spec.kind
                               && after[h].id == env.newId(h)
                               && after[h].mark.Some? && after[h].mark.value <= env.clock(h)
                               && (items[i].startAt.Some? ==> after[h].mark == items[i].startAt)
                               && (items[i].startAt.None? ==> after[h].mark == Some(env.clock(h))))
  {
    FirstOfEachKeys(items);
    FirstOfEachIsFirst(items, i);
    var h := Sha256(items[i].spec);
    assert items[i] in items;
    assert StartMark(FirstOfEach(items)[h], env.clock(h)).Some? || h in rows;
  }

  /** The counts balance against the table before and after. */
  lemma CountsBalance(rows: Rows, wanted: Wanted, env: Env)
    ensures var c := CountsOf(rows, wanted);
            && |rows| + c.added == c.sourceCount + c.removed
            && c.persisted + c.added == c.sourceCount == |Reconcile(rows, wanted, env)|
            && c.persisted + c.removed == |rows|
  {
    SetsBalance(rows.Keys, wanted.Keys);
    assert Reconcile(rows, wanted, env).Keys == wanted.Keys;
    assert |rows| == |rows.Keys| && |Reconcile(rows, wanted, env)| == |wanted.Keys|;
  }

  lemma SetsBalance(a: set<Hash>, b: set<Hash>)
    ensures |a| + |b - a| == |b| + |a - b|
    ensures |a * b| + |b - a| == |b| && |a * b| + |a - b| == |a|
  {
    assert b == (b - a) + a * b;
    assert a == (a - b) + a * b;
  }

  /** Repeating a call adds nothing, removes nothing and rewrites nothing, whatever the clock says. */
  lemma RepeatingChangesNothing(rows: Rows, wanted: Wanted, first: Env, second: Env)
    ensures var after := Reconcile(rows, wanted, first);
            && Reconcile(after, wanted, second) == after
            && CountsOf(after, wanted) == Counts(0, 0, |wanted|, |wanted|)
            && (forall h :: h in after ==> View(after)[h] == (wanted[h].meta, wanted[h].fieldMap))
            && !FutureAdded(after, wanted, second)
  {
    var after := Reconcile(rows, wanted, first);
    assert after.Keys == wanted.Keys;
    assert wanted.Keys - after.Keys == {} && after.Keys - wanted.Keys == {};
    assert after.Keys * wanted.Keys == wanted.Keys;
    assert |wanted.Keys| == |wanted|;
    forall h | h in wanted ensures Reconcile(after, wanted, second)[h] == after[h] {
    }
  }

  // ---------------------------------------------------------------------------------------
  // Concurrent callers
  // ---------------------------------------------------------------------------------------

  /** One applied call. */
  datatype Call = Call(wanted: Wanted, env: Env)

  /** `seen` are the snapshots of the callers between reading and applying, `applied` the calls that
      committed, in order. All callers use the same lock. */
  datatype State = State(lock: Locks.State, rows: Rows, seen: map<Locks.Owner, map<Hash, (Tags, Tags)>>,
                         applied: seq<Call>)

  datatype Step =
    | Lock(step: Locks.Step)
    | Snapshot(who: Locks.Owner)
    | Commit(who: Locks.Owner, call: Call)

  const LOCK: Locks.Key := "feed_set_lock"

  predicate Inside(s: State, a: Locks.Owner) {
    a in s.lock.holders && s.lock.holders[a].phase == Locks.Held && s.lock.holders[a].key == LOCK
  }

  /** A call with a future watermark rolls back, so it does not commit. */
  predicate Enabled(s: State, step: Step) {
    match step
    case Lock(_) => true
    case Snapshot(a) => Inside(s, a)
    case Commit(a, call) => Inside(s, a) && a in s.seen && Accepted(s.seen[a], call.wanted, call.env)
  }

  function Apply(s: State, step: Step): State {
    if !Enabled(s, step) then s else
    match step
    case Lock(l) => s.(lock := Locks.Apply(s.lock, l))
    case Snapshot(a) => s.(seen := s.seen[a := View(s.rows)])
    case Commit(a, call) =>
      s.(rows := Diffed(s.rows, s.seen[a], call.wanted, call.env), seen := s.seen - {a},
         applied := s.applied + [call])
  }

  /** The transaction runs within the lock's timeout. */
  predicate Timely(s: State, step: Step) {
    Enabled(s, step) ==>
      match step
      case Lock(l) => Locks.Timely(s.lock, l)
      case Snapshot(a) => Locks.InLease(s.lock, a)
      case Commit(a, _) => Locks.InLease(s.lock, a)
  }

  function After(s: State, steps: seq<Step>): State
    decreases |steps|
  {
    if steps == [] then s else After(Apply(s, steps[0]), steps[1..])
  }

  predicate TimelyRun(s: State, steps: seq<Step>)
    decreases |steps|
  {
    steps == [] || (Timely(s, steps[0]) && TimelyRun(Apply(s, steps[0]), steps[1..]))
  }

  /** The calls one after the other. */
  function InOrder(rows: Rows, calls: seq<Call>): Rows
    decreases |calls|
  {
    if calls == [] then rows
    else
      var last := calls[|calls| - 1];
      Reconcile(InOrder(rows, calls[..|calls| - 1]), last.wanted, last.env)
  }

  ghost predicate Inv(first: Rows, s: State) {
    && Locks.LeaseInv(s.lock)
    && s.rows == InOrder(first, s.applied)
    && (forall a :: a in s.seen ==> a in s.lock.holders && s.lock.holders[a].key == LOCK)
    && (forall a :: a in s.seen && Locks.InLease(s.lock, a) ==> s.seen[a] == View(s.rows))
  }

  lemma LockStepKeepsInv(first: Rows, s: State, l: Locks.Step)
    requires Inv(first, s) && Locks.Timely(s.lock, l)
    ensures Inv(first, Apply(s, Lock(l)))
  {
    Locks.StepKeepsLeaseInv(s.lock, l);
    forall a | a in s.seen {
      Locks.StepKeepsHolder(s.lock, l, a);
    }
  }

  /** The committing caller is alone in its lease, so its snapshot is up to date and nobody else's counts. */
  lemma CommitKeepsInv(first: Rows, s: State, a: Locks.Owner, call: Call)
    requires Inv(first, s) && Enabled(s, Commit(a, call)) && Locks.InLease(s.lock, a)
    ensures Inv(first, Apply(s, Commit(a, call)))
  {
    var s' := Apply(s, Commit(a, call));
    DiffOfFreshView(s.rows, call.wanted, call.env);
    assert s'.applied[..|s.applied|] == s.applied;
    assert forall b :: b in s'.seen ==> !Locks.InLease(s.lock, b);
  }

  lemma StepKeepsInv(first: Rows, s: State, step: Step)
    requires Inv(first, s) && Timely(s, step)
    ensures Inv(first, Apply(s, step))
  {
    if Enabled(s, step) {
      match step
      case Lock(l) => LockStepKeepsInv(first, s, l);
      case Snapshot(a) =>
      case Commit(a, call) => CommitKeepsInv(first, s, a, call);
    }
  }

  lemma {:induction false} RunKeepsInv(first: Rows, s: State, steps: seq<Step>)
    requires Inv(first, s) && TimelyRun(s, steps)
    ensures Inv(first, After(s, steps))
    decreases |steps|
  {
    if steps != [] {
      StepKeepsInv(first, s, steps[0]);
      RunKeepsInv(first, Apply(s, steps[0]), steps[1..]);
    }
  }

  /** However callers interleave, if each applies within the lock's timeout the table is what the
      committed calls give one after the other, in the order they committed. */
  lemma CallsAreSerialised(rows: Rows, steps: seq<Step>)
    requires TimelyRun(State(Locks.Start, rows, map[], []), steps)
    ensures var s := After(State(Locks.Start, rows, map[], []), steps); s.rows == InOrder(rows, s.applied)
  {
    RunKeepsInv(rows, State(Locks.Start, rows, map[], []), steps);
  }

  /** A caller that takes the lock, reads and commits. */
  function WholeCall(b: Locks.Owner, timeout: nat, call: Call): seq<Step> {
    [Lock(Locks.Acquire(b, LOCK, timeout)), Snapshot(b), Commit(b, call)]
  }

  /** On a free lock such a caller is in time and reconciles the table. */
  lemma WholeCallReconciles(s: State, b: Locks.Owner, timeout: nat, call: Call)
    requires !Locks.Live(s.lock.cache, LOCK, s.lock.now) && b !in s.lock.holders && timeout > 0
    requires Accepted(View(s.rows), call.wanted, call.env)
    ensures TimelyRun(s, WholeCall(b, timeout, call))
    ensures var s' := After(s, WholeCall(b, timeout, call));
            && s'.rows == Reconcile(s.rows, call.wanted, call.env) && s'.applied == s.applied + [call]
            && (forall c :: c != b && c in s.seen ==> c in s'.seen && s'.seen[c] == s.seen[c])
            && (forall c :: Inside(s, c) ==> Inside(s', c))
  {
    DiffOfFreshView(s.rows, call.wanted, call.env);
    ThreeSteps(s, WholeCall(b, timeout, call));
  }

  /** A commit changes the table by the difference from the snapshot: it keeps what it neither saw nor wants,
      and adds what it wants and did not see. */
  lemma CommitByView(s: State, a: Locks.Owner, call: Call)
    requires Enabled(s, Commit(a, call))
    ensures var s' := Apply(s, Commit(a, call));
            && s'.applied == s.applied + [call]
            && (forall h :: h in s.rows && h !in s.seen[a] ==> h in s'.rows)
            && s'.rows.Keys == (s.rows.Keys - (s.seen[a].Keys - call.wanted.Keys)) + (call.wanted.Keys - s.seen[a].Keys)
  {
  }

  /** The caller has a snapshot and still believes it holds the lock, but its lease has run out and the lock
      is free. */
  predicate IsLate(s: State, a: Locks.Owner) {
    Inside(s, a) && a in s.seen && !Locks.InLease(s.lock, a) && !Locks.Live(s.lock.cache, LOCK, s.lock.now)
  }

  /** The time bound is needed everywhere: take any state with a late caller that a timely run reaches. A
      newcomer who is in time and adds a source, which the late caller neither saw nor wants, is followed by
      the late commit: the source stays, and the table is not what the calls give in the order they committed. */
  lemma LateCommitMixesTwoSets(rows: Rows, steps: seq<Step>, s: State, a: Locks.Owner, b: Locks.Owner, timeout: nat,
                               late: Call, call: Call, h: Hash)
    requires var start := State(Locks.Start, rows, map[], []); TimelyRun(start, steps) && s == After(start, steps)
    requires IsLate(s, a) && b !in s.lock.holders && timeout > 0
    requires Accepted(s.seen[a], late.wanted, late.env) && Accepted(View(s.rows), call.wanted, call.env)
    requires h in call.wanted && h !in s.seen[a] && h !in late.wanted
    ensures TimelyRun(s, WholeCall(b, timeout, call))
    ensures var s' := Apply(After(s, WholeCall(b, timeout, call)), Commit(a, late));
            s'.applied == s.applied + [call] + [late] && h in s'.rows && s'.rows != InOrder(rows, s'.applied)
  {
    assert a in s.lock.holders;
    WholeCallReconciles(s, b, timeout, call);
    var next := After(s, WholeCall(b, timeout, call));
    CommitByView(next, a, late);
    LastCallDecides(rows, s.applied + [call], late);
  }

  lemma ThreeSteps(s: State, steps: seq<Step>)
    requires |steps| == 3
    ensures var s1 := Apply(s, steps[0]); var s2 := Apply(s1, steps[1]); var s3 := Apply(s2, steps[2]);
            && After(s, steps) == s3
            && (TimelyRun(s, steps) <==> Timely(s, steps[0]) && Timely(s1, steps[1]) && Timely(s2, steps[2]))
  {
    var s1 := Apply(s, steps[0]);
    var s2 := Apply(s1, steps[1]);
    var s3 := Apply(s2, steps[2]);
    var two, one := steps[1..], steps[1..][1..];
    assert two[0] == steps[1] && one[0] == steps[2] && one[1..] == [];
    assert After(s2, one) == After(s3, []) == s3;
    assert TimelyRun(s2, one) <==> Timely(s2, steps[2]);
  }

  /** In serial order only what the last call wants is left. */
  lemma LastCallDecides(rows: Rows, calls: seq<Call>, last: Call)
    ensures InOrder(rows, calls + [last]).Keys == last.wanted.Keys
  {
    assert (calls + [last])[..|calls|] == calls;
  }

  /** The first caller takes the lock, reads the table and then stays away until the lock has run out. */
  function Overrun(timeout: nat): seq<Step> {
    [Lock(Locks.Acquire(1, LOCK, timeout)), Snapshot(1), Lock(Locks.Tick(timeout))]
  }

  lemma OverrunIsLate(timeout: nat)
    requires timeout > 0
    ensures var none: Rows := map[]; var start := State(Locks.Start, none, map[], []); var s := After(start, Overrun(timeout));
            && TimelyRun(start, Overrun(timeout)) && IsLate(s, 1) && s.seen[1] == map[]
            && s.rows == none && s.applied == [] && 2 !in s.lock.holders
  {
    var none: Rows := map[];
    assert View(none) == map[];
    ThreeSteps(State(Locks.Start, none, map[], []), Overrun(timeout));
  }

  /** An instance, from the empty table: two callers, of whom the first outlives its lock, leave the union of
      their sets, which neither order of the calls gives. */
  lemma OverrunMixesTwoSets(a: Hash, b: Hash, x: Input, y: Input, env: Env, timeout: nat)
    requires a != b && x.startAt.None? && y.startAt.None? && timeout > 0
    ensures var none: Rows := map[];
            var one, two := Call(map[a := x], env), Call(map[b := y], env);
            var late := After(State(Locks.Start, none, map[], []), Overrun(timeout));
            var s := Apply(After(late, WholeCall(2, timeout, two)), Commit(1, one));
            && s.applied == [two] + [one] && s.rows.Keys == {a, b}
            && InOrder(none, [two] + [one]).Keys == {a} && InOrder(none, [one] + [two]).Keys == {b}
  {
    var none: Rows := map[];
    var one, two := Call(map[a := x], env), Call(map[b := y], env);
    var late := After(State(Locks.Start, none, map[], []), Overrun(timeout));
    OverrunIsLate(timeout);
    WholeCallReconciles(late, 2, timeout, two);
    CommitByView(After(late, WholeCall(2, timeout, two)), 1, one);
    LastCallDecides(none, [two], one);
    LastCallDecides(none, [one], two);
  }
}
