/**
 Backfills (`apps/core/watches/views_backfill.py`, `apps/core/watches/operations/backfill.py`): an action
 is run again over the items its predecessor passed. The dry run predicts, from counts alone, what the
 job will delete and enqueue.
 */
module Backfill {
  import opened Options

  type Action = string
  type Item = string
  type Feed = string

  datatype RunState = Pending | Running | Succeeded | Gated | Failed | Errored | Skipped

  datatype Run = Run(state: RunState, scheduledAt: int, completedAt: Option<int>)

  /** Runs of one watch are unique on action and item. */
  datatype RunKey = RunKey(action: Action, item: Item)

  type Runs = map<RunKey, Run>

  datatype FeedItem = FeedItem(feed: Feed, occurredAt: Option<int>)

  type Items = map<Item, FeedItem>

  /** The actions of one path with their ranks. */
  type Path = map<Action, nat>

  datatype Windows = Windows(occurredSince: Option<int>, occurredUntil: Option<int>,
                             completedSince: Option<int>, completedUntil: Option<int>)

  /** The runs of the action before the target, or for the first action the items of the watch's feeds. */
  datatype Source = Head(feeds: set<Feed>) | After(action: Action)

  datatype Counts = Counts(matched: nat, present: nat, pruned: int, deleted: nat, enqueued: int)

  /** The job row: `deleteStamp` and `deleted` are written once the deletes are done. */
  datatype Job = Job(replace: bool, deleteStamp: Option<int>, deleted: nat)

  /** `_ENQUEUE_CHUNK` */
  const CHUNK: nat := 500

  // ---------------------------------------------------------------------------------------
  // The chain of actions
  // ---------------------------------------------------------------------------------------

  ghost predicate UniqueRanks(path: Path) {
    forall a, b :: a in path && b in path && path[a] == path[b] ==> a == b
  }

  /** `next_in_chain`: the least greater rank. */
  ghost predicate IsNext(path: Path, a: Action, b: Action) {
    a in path && b in path && path[a] < path[b] && forall c :: c in path && path[a] < path[c] ==> path[b] <= path[c]
  }

  ghost predicate IsTail(path: Path, a: Action) {
    forall c :: !IsNext(path, a, c)
  }

  /** What `chain_from` yields: the target, then next after next until there is none. */
  ghost predicate IsChain(path: Path, target: Action, chain: seq<Action>) {
    && target in path && chain != [] && chain[0] == target
    && (forall i :: 1 <= i < |chain| ==> IsNext(path, chain[i - 1], chain[i]))
    && IsTail(path, chain[|chain| - 1])
  }

  /** `prev_in_chain`: the greatest smaller rank, and the head source when there is none. */
  ghost predicate IsSourceOf(path: Path, target: Action, source: Source) {
    && target in path
    && (source.Head? ==> forall c :: c in path ==> path[target] <= path[c])
    && (source.After? ==> IsNext(path, source.action, target))
  }

  function Elements<T>(s: seq<T>): set<T> {
    set x | x in s
  }

  lemma {:induction false} ChainRanks(path: Path, chain: seq<Action>, i: nat, j: nat)
    requires forall k :: 1 <= k < |chain| ==> IsNext(path, chain[k - 1], chain[k])
    requires i < j < |chain|
    ensures chain[i] in path && chain[j] in path && path[chain[i]] < path[chain[j]]
    decreases j
  {
    assert IsNext(path, chain[j - 1], chain[j]);
    if i < j - 1 {
      ChainRanks(path, chain, i, j - 1);
    }
  }

  /** The chain holds each action at or after the target once, and nothing else; so not the source. */
  lemma ChainIsTheRest(path: Path, target: Action, chain: seq<Action>)
    requires UniqueRanks(path) && IsChain(path, target, chain)
    ensures forall i, j :: 0 <= i < j < |chain| ==> chain[i] != chain[j]
    ensures forall a :: a in chain <==> a in path && path[target] <= path[a]
  {
    forall i, j | 0 <= i < j < |chain|
      ensures chain[i] != chain[j] && chain[j] in path && path[target] <= path[chain[j]]
    {
      ChainRanks(path, chain, i, j);
      ChainRanks(path, chain, 0, j);
    }
    forall a | a in path && path[target] <= path[a]
      ensures a in chain
    {
      Reaches(path, chain, a, |chain| - 1);
    }
  }

  lemma {:induction false} Reaches(path: Path, chain: seq<Action>, a: Action, n: nat)
    requires UniqueRanks(path) && n < |chain| && chain[0] in path && a in path
    requires forall i :: 1 <= i < |chain| ==> IsNext(path, chain[i - 1], chain[i])
    requires IsTail(path, chain[|chain| - 1])
    requires path[chain[0]] <= path[a]
    ensures chain[n] in path
    ensures path[a] <= path[chain[n]] ==> a in chain
    ensures n == |chain| - 1 ==> a in chain
  {
    if n == 0 {
      if path[a] <= path[chain[0]] {
        assert a == chain[0];
      }
    } else {
      Reaches(path, chain, a, n - 1);
      assert IsNext(path, chain[n - 1], chain[n]);
      if path[chain[n - 1]] < path[a] <= path[chain[n]] {
        assert a == chain[n];
      }
    }
    if n == |chain| - 1 && path[chain[n]] < path[a] {
      LeastAbove(path, path.Keys, chain[n], a);
    }
  }

  /** Some action has the least rank above a given one, if any is above it. */
  lemma {:induction false} LeastAbove(path: Path, among: set<Action>, a: Action, b: Action)
    requires among <= path.Keys && a in path && b in among && path[a] < path[b]
    requires forall c :: c in path.Keys - among && path[a] < path[c] ==> path[b] <= path[c]
    ensures exists c :: IsNext(path, a, c)
    decreases among
  {
    if c :| c in among && path[a] < path[c] < path[b] {
      LeastAbove(path, among - {b}, a, c);
    } else {
      assert IsNext(path, a, b);
    }
  }

  // ---------------------------------------------------------------------------------------
  // What is selected
  // ---------------------------------------------------------------------------------------

  predicate InBounds(at: Option<int>, since: Option<int>, until: Option<int>) {
    && (since.Some? ==> at.Some? && since.value <= at.value)
    && (until.Some? ==> at.Some? && at.value < until.value)
  }

  /** Items with a successful run of `source` in the windows. The occurred window looks the item up. */
  function Passed(runs: Runs, items: Items, source: Action, w: Windows): set<Item> {
    set k | k in runs && k.action == source && runs[k].state == Succeeded
            && InBounds(runs[k].completedAt, w.completedSince, w.completedUntil)
            && ((w.occurredSince.None? && w.occurredUntil.None?)
                || (k.item in items && InBounds(items[k.item].occurredAt, w.occurredSince, w.occurredUntil)))
      :: k.item
  }

  /** What the source offers, and what of it still exists. */
  function Matching(runs: Runs, items: Items, source: Source, w: Windows): set<Item> {
    match source
    case Head(feeds) =>
      set i | i in items && items[i].feed in feeds && InBounds(items[i].occurredAt, w.occurredSince, w.occurredUntil)
    case After(action) => Passed(runs, items, action, w)
  }

  function Present(runs: Runs, items: Items, source: Source, w: Windows): set<Item> {
    set i | i in Matching(runs, items, source, w) && i in items
  }

  /** A clean final state, or a failure that used up its attempts. */
  predicate Deletable(r: Run) {
    r.state == Succeeded || r.state == Gated || r.state == Errored || r.state == Skipped
    || (r.state == Failed && r.completedAt.Some?)
  }

  /** Work the drain still owns: queued, running, or failed with attempts left. */
  predicate InFlight(r: Run) {
    r.state == Pending || r.state == Running || (r.state == Failed && r.completedAt.None?)
  }

  /** A run is either in flight or deletable, and which one can be read off its state. */
  lemma DeletableIsFinished(r: Run)
    ensures Deletable(r) <==>
              r.state == Succeeded || r.state == Gated || r.state == Errored || r.state == Skipped
              || (r.state == Failed && r.completedAt.Some?)
    ensures Deletable(r) <==> !InFlight(r)
  {
  }

  /** The runs of these actions on these items that have reached a final state. */
  function Finished(runs: Runs, actions: set<Action>, among: set<Item>): set<RunKey> {
    set k | k in runs && k.action in actions && k.item in among
            && (runs[k].state == Succeeded || runs[k].state == Gated || runs[k].state == Errored
                || runs[k].state == Skipped || (runs[k].state == Failed && runs[k].completedAt.Some?))
  }

  /** An item is offered by the action before the target exactly when that action's run on it succeeded, was
      completed from the one bound until before the other, and the item's own time fits its window too; a
      bound that is set excludes what has no time. Of those, the items that still exist are present. */
  lemma PresentAfterIs(runs: Runs, items: Items, action: Action, w: Windows, i: Item)
    ensures var passed :=
              && RunKey(action, i) in runs && runs[RunKey(action, i)].state == Succeeded
              && var done := runs[RunKey(action, i)].completedAt;
                 && (w.completedSince.Some? ==> done.Some? && w.completedSince.value <= done.value)
                 && (w.completedUntil.Some? ==> done.Some? && done.value < w.completedUntil.value);
            var occurred :=
              && (w.occurredSince.Some? ==>
                    i in items && items[i].occurredAt.Some? && w.occurredSince.value <= items[i].occurredAt.value)
              && (w.occurredUntil.Some? ==>
                    i in items && items[i].occurredAt.Some? && items[i].occurredAt.value < w.occurredUntil.value);
            && (i in Matching(runs, items, After(action), w) <==> passed && occurred)
            && (i in Present(runs, items, After(action), w) <==> passed && occurred && i in items)
  {
    var k := RunKey(action, i);
    if i in Passed(runs, items, action, w) {
      var k' :| k' in runs && k'.action == action && k'.item == i && runs[k'].state == Succeeded
        && InBounds(runs[k'].completedAt, w.completedSince, w.completedUntil)
        && ((w.occurredSince.None? && w.occurredUntil.None?)
            || (i in items && InBounds(items[i].occurredAt, w.occurredSince, w.occurredUntil)));
      assert k' == k;
    }
  }

  /** A first action is offered the items of the watch's feeds whose time fits the window; all exist. */
  lemma PresentHeadIs(runs: Runs, items: Items, feeds: set<Feed>, w: Windows, i: Item)
    ensures i in Present(runs, items, Head(feeds), w) <==>
              && i in items && items[i].feed in feeds
              && (w.occurredSince.Some? ==>
                    items[i].occurredAt.Some? && w.occurredSince.value <= items[i].occurredAt.value)
              && (w.occurredUntil.Some? ==>
                    items[i].occurredAt.Some? && items[i].occurredAt.value < w.occurredUntil.value)
    ensures Matching(runs, items, Head(feeds), w) == Present(runs, items, Head(feeds), w)
  {
  }

  function With(runs: Runs, action: Action, among: set<Item>): set<Item> {
    set i | i in among && RunKey(action, i) in runs
  }

  function WithTerminal(runs: Runs, action: Action, among: set<Item>): set<Item> {
    set i | i in among && RunKey(action, i) in runs && Deletable(runs[RunKey(action, i)])
  }

  function Lacking(runs: Runs, action: Action, among: set<Item>): set<Item> {
    set i | i in among && RunKey(action, i) !in runs
  }

  /** The finished runs of these actions on these items. */
  function Doomed(runs: Runs, actions: set<Action>, among: set<Item>): set<RunKey> {
    set k | k in runs && k.action in actions && k.item in among && Deletable(runs[k])
  }

  // ---------------------------------------------------------------------------------------
  // The dry run
  // ---------------------------------------------------------------------------------------

  lemma WithTerminalIs(runs: Runs, action: Action, among: set<Item>)
    ensures WithTerminal(runs, action, among)
            == set i | i in among && RunKey(action, i) in runs && !InFlight(runs[RunKey(action, i)])
  {
    forall i | i in among && RunKey(action, i) in runs
      ensures Deletable(runs[RunKey(action, i)]) <==> !InFlight(runs[RunKey(action, i)])
    {
      DeletableIsFinished(runs[RunKey(action, i)]);
    }
  }

  /** The query counts runs; since runs are unique on action and item, that is the number of given items
      that have such a run. */
  method CountRunsForAction(runs: Runs, action: Action, among: set<Item>, terminalOnly: bool) returns (n: nat)
    ensures n == if terminalOnly then |WithTerminal(runs, action, among)| else |With(runs, action, among)|
    ensures !terminalOnly ==> n == |set i | i in among && RunKey(action, i) in runs|
    ensures terminalOnly ==>
              n == |set i | i in among && RunKey(action, i) in runs && !InFlight(runs[RunKey(action, i)])|
  {
    WithTerminalIs(runs, action, among);
    var rows := set k | k in runs && k.action == action && k.item in among;
    if terminalOnly {
      rows := set k | k in rows && Deletable(runs[k]);
      KeysOfAction(action, WithTerminal(runs, action, among), rows);
    } else {
      KeysOfAction(action, With(runs, action, among), rows);
    }
    n := |rows|;
  }

  /** What a job would report. */
  function Predicted(runs: Runs, items: Items, source: Source, w: Windows, target: Action, chain: seq<Action>,
                     replace: bool): Counts {
    var p := Present(runs, items, source, w);
    var doomed := if replace then Doomed(runs, Elements(chain), p) else {};
    Counts(|Matching(runs, items, source, w)|, |p|, |Matching(runs, items, source, w) - p|, |doomed|,
           |Lacking(runs - doomed, target, p)|)
  }

  /** The prediction by state: the deletes are the finished runs, work in flight not among them, and the
      enqueues are the items that would then have no run of the target. */
  lemma PredictedIs(runs: Runs, items: Items, source: Source, w: Windows, target: Action, chain: seq<Action>,
                    replace: bool)
    ensures var p := Present(runs, items, source, w);
            var finished := if replace then Finished(runs, Elements(chain), p) else {};
            var counts := Predicted(runs, items, source, w, target, chain, replace);
            && counts.deleted == |finished|
            && (forall k :: k in finished ==> !InFlight(runs[k]))
            && counts.enqueued == |set i | i in p && (RunKey(target, i) !in runs || RunKey(target, i) in finished)|
  {
    var p := Present(runs, items, source, w);
    DoomedAreFinished(runs, Elements(chain), p);
    var gone := if replace then Doomed(runs, Elements(chain), p) else {};
    assert Lacking(runs - gone, target, p)
        == set i | i in p && (RunKey(target, i) !in runs || RunKey(target, i) in gone);
  }

  lemma DoomedAreFinished(runs: Runs, actions: set<Action>, among: set<Item>)
    ensures Doomed(runs, actions, among) == Finished(runs, actions, among)
  {
    forall k | k in runs
      ensures k in Doomed(runs, actions, among) <==> k in Finished(runs, actions, among)
    {
      DeletableIsFinished(runs[k]);
    }
  }

  /** `_preview`: sums and differences of counts. They come to the number of finished runs along the chain,
      and the number of present items left without a run of the target once those are deleted. */
  method Preview(runs: Runs, items: Items, source: Source, w: Windows, path: Path, target: Action,
                 chain: seq<Action>, replace: bool) returns (p: Counts)
    requires UniqueRanks(path) && IsChain(path, target, chain)
    ensures p == Predicted(runs, items, source, w, target, chain, replace)
  {
    var matched, present := Matching(runs, items, source, w), Present(runs, items, source, w);
    var existing := CountRunsForAction(runs, target, present, false);
    var wouldDelete: int, wouldEnqueue: int := 0, 0;
    Pruned(matched, present);
    if replace {
      ChainIsTheRest(path, target, chain);
      EnqueueArithmetic(runs, chain, target, present);
      wouldDelete := CountAlong(runs, chain, present);
      var terminal := CountRunsForAction(runs, target, present, true);
      wouldEnqueue := |present| - existing + terminal;
    } else {
      LackingIsTheRest(runs, target, present);
      assert runs - {} == runs;
      wouldEnqueue := |present| - existing;
    }
    p := Counts(|matched|, |present|, |matched| - |present|, wouldDelete, wouldEnqueue);
  }

  /** The sum over `chain_from`: one count per action. */
  method CountAlong(runs: Runs, chain: seq<Action>, present: set<Item>) returns (n: nat)
    requires forall i, j :: 0 <= i < j < |chain| ==> chain[i] != chain[j]
    ensures n == |Doomed(runs, Elements(chain), present)|
  {
    n := 0;
    for i := 0 to |chain|
      invariant n == |Doomed(runs, Elements(chain[..i]), present)|
    {
      var more := CountRunsForAction(runs, chain[i], present, true);
      DoomedSnoc(runs, chain[..i], chain[i], present);
      assert chain[..i + 1] == chain[..i] + [chain[i]];
      n := n + more;
    }
    assert chain[..|chain|] == chain;
  }

  lemma Pruned(matched: set<Item>, present: set<Item>)
    requires present <= matched
    ensures |matched| - |present| == |matched - present|
  {
    assert matched == present + (matched - present);
  }

  lemma DoomedSnoc(runs: Runs, actions: seq<Action>, action: Action, among: set<Item>)
    requires action !in actions
    ensures |Doomed(runs, Elements(actions + [action]), among)|
            == |Doomed(runs, Elements(actions), among)| + |WithTerminal(runs, action, among)|
  {
    var more := Doomed(runs, {action}, among);
    assert Elements(actions + [action]) == Elements(actions) + {action};
    assert Doomed(runs, Elements(actions + [action]), among) == Doomed(runs, Elements(actions), among) + more;
    KeysOfAction(action, WithTerminal(runs, action, among), more);
  }

  /** Runs of one action are as many as their items. */
  lemma {:induction false} KeysOfAction(action: Action, among: set<Item>, keys: set<RunKey>)
    requires forall k :: k in keys <==> k.action == action && k.item in among
    ensures |keys| == |among|
    decreases among
  {
    if i :| i in among {
      KeysOfAction(action, among - {i}, keys - {RunKey(action, i)});
      assert RunKey(action, i) in keys;
    } else {
      assert keys == {};
    }
  }

  lemma LackingIsTheRest(runs: Runs, action: Action, among: set<Item>)
    ensures |Lacking(runs, action, among)| == |among| - |With(runs, action, among)|
  {
    assert among == With(runs, action, among) + Lacking(runs, action, among);
  }

  lemma EnqueueArithmetic(runs: Runs, chain: seq<Action>, target: Action, among: set<Item>)
    requires target in chain
    ensures |Lacking(runs - Doomed(runs, Elements(chain), among), target, among)|
            == |among| - |With(runs, target, among)| + |WithTerminal(runs, target, among)|
  {
    var left := runs - Doomed(runs, Elements(chain), among);
    assert Lacking(left, target, among) == Lacking(runs, target, among) + WithTerminal(runs, target, among);
    LackingIsTheRest(runs, target, among);
  }

  // ---------------------------------------------------------------------------------------
  // The job
  // ---------------------------------------------------------------------------------------

  function KeysOf(action: Action, among: set<Item>): set<RunKey> {
    set i | i in among :: RunKey(action, i)
  }

  /** Pending runs of `action` for the items that have none. */
  function Enqueued(runs: Runs, action: Action, among: set<Item>, now: int): Runs {
    runs + map k | k in KeysOf(action, among) && k !in runs :: Run(Pending, now, None)
  }

  lemma InKeysOf(action: Action, among: set<Item>, k: RunKey)
    ensures k in KeysOf(action, among) <==> k.action == action && k.item in among
  {
    if k.action == action {
      assert RunKey(action, k.item) == k;
    }
  }

  lemma EnqueuedAt(runs: Runs, action: Action, among: set<Item>, now: int, k: RunKey)
    ensures k in Enqueued(runs, action, among, now) <==> k in runs || (k.action == action && k.item in among)
    ensures k in runs ==> Enqueued(runs, action, among, now)[k] == runs[k]
    ensures k in Enqueued(runs, action, among, now) && k !in runs ==>
              Enqueued(runs, action, among, now)[k] == Run(Pending, now, None)
  {
    InKeysOf(action, among, k);
  }

  lemma EnqueuedKeys(runs: Runs, action: Action, among: set<Item>, now: int)
    ensures Enqueued(runs, action, among, now).Keys == runs.Keys + KeysOf(action, Lacking(runs, action, among))
  {
    forall k
      ensures k in Enqueued(runs, action, among, now) <==> k in runs || k in KeysOf(action, Lacking(runs, action, among))
    {
      EnqueuedAt(runs, action, among, now, k);
      InKeysOf(action, Lacking(runs, action, among), k);
      assert k.action == action ==> RunKey(action, k.item) == k;
    }
  }

  /** The table grows by one run for each item that lacked one. */
  lemma EnqueuedGrows(runs: Runs, action: Action, among: set<Item>, now: int)
    ensures |Enqueued(runs, action, among, now)| == |runs| + |Lacking(runs, action, among)|
  {
    var after, lacking := Enqueued(runs, action, among, now), Lacking(runs, action, among);
    EnqueuedKeys(runs, action, among, now);
    forall k
      ensures k in KeysOf(action, lacking) <==> k.action == action && k.item in lacking
    {
      InKeysOf(action, lacking, k);
    }
    KeysOfAction(action, lacking, KeysOf(action, lacking));
    assert KeysOf(action, lacking) !! runs.Keys;
    assert |after| == |after.Keys| && |runs| == |runs.Keys|;
  }

  lemma EnqueuedInSteps(runs: Runs, action: Action, a: set<Item>, b: set<Item>, now: int)
    ensures Enqueued(Enqueued(runs, action, a, now), action, b, now) == Enqueued(runs, action, a + b, now)
  {
    var once := Enqueued(runs, action, a, now);
    var twice, whole := Enqueued(once, action, b, now), Enqueued(runs, action, a + b, now);
    forall k
      ensures k in twice <==> k in whole
      ensures k in twice ==> twice[k] == whole[k]
    {
      EnqueuedAt(runs, action, a, now, k);
      EnqueuedAt(once, action, b, now, k);
      EnqueuedAt(runs, action, a + b, now, k);
    }
  }

  lemma LackingInSteps(runs: Runs, action: Action, a: set<Item>, b: set<Item>, now: int)
    requires a !! b
    ensures |Lacking(runs, action, a)| + |Lacking(Enqueued(runs, action, a, now), action, b)|
            == |Lacking(runs, action, a + b)|
  {
    forall i | i in b
      ensures RunKey(action, i) in Enqueued(runs, action, a, now) <==> RunKey(action, i) in runs
    {
      EnqueuedAt(runs, action, a, now, RunKey(action, i));
    }
    assert Lacking(Enqueued(runs, action, a, now), action, b) == Lacking(runs, action, b);
    assert Lacking(runs, action, a + b) == Lacking(runs, action, a) + Lacking(runs, action, b);
  }

  class BackfillOperation {
    const items: Items
    const source: Source
    const windows: Windows
    const target: Action
    const chain: seq<Action>
    var runs: Runs
    var job: Job

    constructor (runs: Runs, items: Items, source: Source, windows: Windows, target: Action, chain: seq<Action>,
                 job: Job)
      ensures this.runs == runs && this.items == items && this.source == source && this.windows == windows
      ensures this.target == target && this.chain == chain && this.job == job
    {
      this.runs, this.items, this.source, this.windows := runs, items, source, windows;
      this.target, this.chain, this.job := target, chain, job;
    }

    /** One DELETE; its subquery selects the present items as the table then stands. */
    method DeleteTerminalForAction(action: Action) returns (n: nat)
      modifies this`runs
      ensures runs == old(runs) - Doomed(old(runs), {action}, Present(old(runs), items, source, windows))
      ensures n == |WithTerminal(old(runs), action, Present(old(runs), items, source, windows))|
      ensures forall k :: k in runs ==> k in old(runs) && runs[k] == old(runs)[k]
      ensures forall k :: k in old(runs) ==>
                (k !in runs <==> k.action == action && k.item in Present(old(runs), items, source, windows)
                                 && !InFlight(old(runs)[k]))
    {
      forall k | k in runs {
        DeletableIsFinished(runs[k]);
      }
      var present := Present(runs, items, source, windows);
      n := |WithTerminal(runs, action, present)|;
      runs := runs - Doomed(runs, {action}, present);
    }

    /** `_delete_phase`: deletes once, and stamps the job when done. */
    method DeletePhase(path: Path, now: int) returns (deleted: nat)
      requires UniqueRanks(path) && IsChain(path, target, chain) && IsSourceOf(path, target, source)
      modifies this
      ensures runs == old(runs) - ToDelete(old(runs), items, source, windows, chain, old(job))
      ensures job == Stamped(old(runs), items, source, windows, chain, old(job), now)
      ensures deleted == if job.replace then job.deleted else 0
      ensures ByState(old(runs), runs, Elements(chain), Present(old(runs), items, source, windows),
                      old(job.replace && job.deleteStamp.None?))
      ensures old(job.replace && job.deleteStamp.None?) ==> deleted == |old(runs)| - |runs|
    {
      DeletesByState(runs, items, source, windows, chain, job);
      if !job.replace {
        return 0;
      }
      if job.deleteStamp.Some? {
        return job.deleted;
      }
      deleted := DeleteChain(path);
      job := job.(deleteStamp := Some(now), deleted := deleted);
    }

    /** Its loop over `chain_from`. */
    method DeleteChain(path: Path) returns (deleted: nat)
      requires UniqueRanks(path) && IsChain(path, target, chain) && IsSourceOf(path, target, source)
      modifies this`runs
      ensures runs == old(runs) - Doomed(old(runs), Elements(chain), Present(old(runs), items, source, windows))
      ensures deleted == |Doomed(old(runs), Elements(chain), Present(old(runs), items, source, windows))|
    {
      deleted := 0;
      ChainIsTheRest(path, target, chain);
      SourceIsOutside(path, target, chain, source);
      ghost var before, present := runs, Present(runs, items, source, windows);
      for i := 0 to |chain|
        invariant runs == before - Doomed(before, Elements(chain[..i]), present)
        invariant deleted == |Doomed(before, Elements(chain[..i]), present)|
      {
        PresentIsStable(before, items, source, windows, chain[..i], present);
        DoomedSnoc(before, chain[..i], chain[i], present);
        DeleteOneMore(before, chain[..i], chain[i], present);
        assert chain[..i + 1] == chain[..i] + [chain[i]];
        var n := DeleteTerminalForAction(chain[i]);
        deleted := deleted + n;
      }
      assert chain[..|chain|] == chain;
    }

    /** `enqueue_many` over a stream of distinct ids, a chunk at a time: per chunk one SELECT of the ids that
        have a run, and one INSERT of the others. */
    method EnqueueMany(stream: seq<Item>, now: int) returns (created: nat)
      requires forall i, j :: 0 <= i < j < |stream| ==> stream[i] != stream[j]
      modifies this`runs
      ensures runs == Enqueued(old(runs), target, Elements(stream), now)
      ensures created == |Lacking(old(runs), target, Elements(stream))|
    {
      created := 0;
      var i := 0;
      assert runs == Enqueued(runs, target, {}, now);
      while i < |stream|
        invariant 0 <= i <= |stream|
        invariant runs == Enqueued(old(runs), target, Elements(stream[..i]), now)
        invariant created == |Lacking(old(runs), target, Elements(stream[..i]))|
      {
        var next := if i + CHUNK <= |stream| then i + CHUNK else |stream|;
        var chunk := Elements(stream[i..next]);
        assert stream[..next] == stream[..i] + stream[i..next];
        assert Elements(stream[..next]) == Elements(stream[..i]) + chunk;
        assert Elements(stream[..i]) !! chunk;
        EnqueuedInSteps(old(runs), target, Elements(stream[..i]), chunk, now);
        LackingInSteps(old(runs), target, Elements(stream[..i]), chunk, now);
        created := created + |Lacking(runs, target, chunk)|;
        runs := Enqueued(runs, target, chunk, now);
        i := next;
      }
      assert stream[..|stream|] == stream;
    }

    /** `run`: on a job that has not deleted yet the counts are those the dry run predicts. `stream` is what
        the lazy iterator of present items yields once the deletes are done. */
    method Execute(path: Path, stream: seq<Item>, now: int) returns (counts: Counts)
      requires UniqueRanks(path) && IsChain(path, target, chain) && IsSourceOf(path, target, source)
      requires forall i, j :: 0 <= i < j < |stream| ==> stream[i] != stream[j]
      requires Elements(stream) == Present(runs - ToDelete(runs, items, source, windows, chain, job),
                                           items, source, windows)
      modifies this
      ensures runs == Enqueued(old(runs) - ToDelete(old(runs), items, source, windows, chain, old(job)), target,
                               Present(old(runs), items, source, windows), now)
      ensures job == Stamped(old(runs), items, source, windows, chain, old(job), now)
      ensures !old(job.replace) || old(job.deleteStamp.None?) ==>
                counts == Predicted(old(runs), items, source, windows, target, chain, old(job.replace))
      ensures old(job.replace && job.deleteStamp.Some?) ==>
                && counts.deleted == old(job.deleted)
                && counts.enqueued == |Lacking(old(runs), target, Present(old(runs), items, source, windows))|
      ensures !old(job.replace) || old(job.deleteStamp.None?) ==>
                |runs| == |old(runs)| - counts.deleted + counts.enqueued
      ensures KeepsInFlight(old(runs), runs)
      ensures old(job.replace && job.deleteStamp.None?) ==>
                ReplacesFinished(old(runs), runs, target, Elements(chain), Present(old(runs), items, source, windows), now)
    {
      var matched, present := Matching(runs, items, source, windows), Present(runs, items, source, windows);
      DeletingIsStable(runs, items, source, windows, path, target, chain, job);
      JobCounts(runs, items, source, windows, target, chain, job);
      var deleted := DeletePhase(path, now);
      ghost var left := runs;
      EnqueuedGrows(left, target, Elements(stream), now);
      var enqueued := EnqueueMany(stream, now);
      EnqueuingKeeps(old(runs), left, target, Elements(chain), Present(old(runs), items, source, windows),
                     old(job.replace && job.deleteStamp.None?), now);
      counts := Counts(|matched|, |present|, |matched| - |present|, deleted, enqueued);
    }
  }

  /** Work in flight is still there, as it was. */
  predicate KeepsInFlight(before: Runs, after: Runs) {
    forall k :: k in before && InFlight(before[k]) ==> k in after && after[k] == before[k]
  }

  /** The deletes by state: work in flight stays, no other run changes, and when `deleting` exactly the finished
      runs of the chain on present items are gone. */
  ghost predicate ByState(before: Runs, after: Runs, actions: set<Action>, among: set<Item>, deleting: bool) {
    && KeepsInFlight(before, after)
    && (forall k :: k in after ==> k in before && after[k] == before[k])
    && (forall k :: k in before ==> (k !in after <==> deleting && k in Finished(before, actions, among)))
  }

  /** Of the finished runs of the chain on present items none is left; only fresh pending ones of the target
      stand in their place. */
  ghost predicate ReplacesFinished(before: Runs, after: Runs, target: Action, actions: set<Action>, among: set<Item>,
                                   now: int) {
    forall k :: k in Finished(before, actions, among) && k in after ==>
      k.action == target && after[k] == Run(Pending, now, None)
  }

  lemma DeletesByState(runs: Runs, items: Items, source: Source, w: Windows, chain: seq<Action>, job: Job)
    ensures var gone := ToDelete(runs, items, source, w, chain, job);
            && ByState(runs, runs - gone, Elements(chain), Present(runs, items, source, w),
                       job.replace && job.deleteStamp.None?)
            && |runs - gone| + |gone| == |runs|
  {
    var gone := ToDelete(runs, items, source, w, chain, job);
    DoomedAreFinished(runs, Elements(chain), Present(runs, items, source, w));
    assert gone <= runs.Keys;
    assert (runs - gone).Keys == runs.Keys - gone;
    assert |runs| == |runs.Keys| && |runs - gone| == |(runs - gone).Keys|;
  }

  lemma EnqueuingKeeps(before: Runs, left: Runs, target: Action, actions: set<Action>, among: set<Item>,
                       deleting: bool, now: int)
    requires ByState(before, left, actions, among, deleting)
    ensures KeepsInFlight(before, Enqueued(left, target, among, now))
    ensures deleting ==> ReplacesFinished(before, Enqueued(left, target, among, now), target, actions, among, now)
  {
    forall k
      ensures k in left ==> k in Enqueued(left, target, among, now) && Enqueued(left, target, among, now)[k] == left[k]
      ensures k in Enqueued(left, target, among, now) && k !in left ==>
                k.action == target && Enqueued(left, target, among, now)[k] == Run(Pending, now, None)
    {
      EnqueuedAt(left, target, among, now, k);
    }
  }

  function ToDelete(runs: Runs, items: Items, source: Source, w: Windows, chain: seq<Action>, job: Job): set<RunKey> {
    if job.replace && job.deleteStamp.None? then Doomed(runs, Elements(chain), Present(runs, items, source, w)) else {}
  }

  function Stamped(runs: Runs, items: Items, source: Source, w: Windows, chain: seq<Action>, job: Job, now: int): Job {
    if job.replace && job.deleteStamp.None?
    then job.(deleteStamp := Some(now), deleted := |ToDelete(runs, items, source, w, chain, job)|) else job
  }

  /** The prediction, in terms of what a job deletes; a stamped job deletes nothing. */
  lemma JobCounts(runs: Runs, items: Items, source: Source, w: Windows, target: Action, chain: seq<Action>, job: Job)
    ensures var gone, present := ToDelete(runs, items, source, w, chain, job), Present(runs, items, source, w);
            && (!job.replace || job.deleteStamp.None? ==>
                  Predicted(runs, items, source, w, target, chain, job.replace)
                  == Counts(|Matching(runs, items, source, w)|, |present|,
                            |Matching(runs, items, source, w)| - |present|, |gone|, |Lacking(runs - gone, target, present)|))
            && (job.replace && job.deleteStamp.Some? ==> runs - gone == runs)
  {
    Pruned(Matching(runs, items, source, w), Present(runs, items, source, w));
    assert runs - {} == runs;
  }

  lemma SourceIsOutside(path: Path, target: Action, chain: seq<Action>, source: Source)
    requires UniqueRanks(path) && IsChain(path, target, chain) && IsSourceOf(path, target, source)
    ensures source.After? ==> source.action !in chain
  {
    ChainIsTheRest(path, target, chain);
  }

  /** Deleting runs of the chain does not change what the source offers, so the predictions, the deletes and
      the enqueue all see the same items although each looks again. */
  lemma PresentIsStable(runs: Runs, items: Items, source: Source, w: Windows, actions: seq<Action>, among: set<Item>)
    requires source.After? ==> source.action !in actions
    ensures var left := runs - Doomed(runs, Elements(actions), among);
            && Matching(left, items, source, w) == Matching(runs, items, source, w)
            && Present(left, items, source, w) == Present(runs, items, source, w)
  {
    PresentIgnores(runs, items, source, w, Doomed(runs, Elements(actions), among));
  }

  lemma PresentIgnores(runs: Runs, items: Items, source: Source, w: Windows, gone: set<RunKey>)
    requires source.After? ==> forall k :: k in gone ==> k.action != source.action
    ensures Matching(runs - gone, items, source, w) == Matching(runs, items, source, w)
    ensures Present(runs - gone, items, source, w) == Present(runs, items, source, w)
  {
    var left := runs - gone;
    if source.After? {
      forall k: RunKey | k.action == source.action
        ensures k in left <==> k in runs
        ensures k in runs ==> left[k] == runs[k]
      {
      }
      assert Passed(left, items, source.action, w) == Passed(runs, items, source.action, w);
    }
  }

  lemma DeletingIsStable(runs: Runs, items: Items, source: Source, w: Windows, path: Path, target: Action,
                         chain: seq<Action>, job: Job)
    requires UniqueRanks(path) && IsChain(path, target, chain) && IsSourceOf(path, target, source)
    ensures Present(runs - ToDelete(runs, items, source, w, chain, job), items, source, w)
            == Present(runs, items, source, w)
  {
    SourceIsOutside(path, target, chain, source);
    PresentIsStable(runs, items, source, w, chain, Present(runs, items, source, w));
    assert runs - {} == runs;
  }

  lemma DeleteOneMore(runs: Runs, actions: seq<Action>, action: Action, among: set<Item>)
    requires action !in actions
    ensures var left := runs - Doomed(runs, Elements(actions), among);
            && left - Doomed(left, {action}, among) == runs - Doomed(runs, Elements(actions + [action]), among)
            && WithTerminal(left, action, among) == WithTerminal(runs, action, among)
  {
    assert Elements(actions + [action]) == Elements(actions) + {action};
  }

  // ---------------------------------------------------------------------------------------
  // Crashes and retries
  // ---------------------------------------------------------------------------------------

  /** A job that dies after its deletes were stamped and the items of `first` were enqueued, and is run again
      later. Meanwhile the drain may have finished runs of the target and enqueued runs of later actions: of
      `mid` only the keys of the target are known. The second attempt finds nothing to delete, so whatever
      became of the replacements stays; the target then has runs for the same items as after one undisturbed
      attempt, and the two attempts together enqueue what that one would have. */
  lemma RetryEndsAlike(runs: Runs, items: Items, source: Source, w: Windows, chain: seq<Action>, job: Job,
                       target: Action, present: set<Item>, first: set<Item>, mid: Runs, now: int, later: int)
    requires job.replace && job.deleteStamp.None? && first <= present
    requires var left := runs - ToDelete(runs, items, source, w, chain, job);
             forall k: RunKey :: k.action == target ==> (k in mid <==> k in Enqueued(left, target, first, now))
    ensures var stamped := Stamped(runs, items, source, w, chain, job, now);
            && ToDelete(mid, items, source, w, chain, stamped) == {}
            && Stamped(mid, items, source, w, chain, stamped, later) == stamped
    ensures var left := runs - ToDelete(runs, items, source, w, chain, job);
            var once, whole := Enqueued(mid, target, present, later), Enqueued(left, target, present, now);
            && (forall k: RunKey :: k.action == target ==> (k in once <==> k in whole))
            && (forall k :: k in mid ==> k in once && once[k] == mid[k])
            && |Lacking(left, target, first)| + |Lacking(mid, target, present)| == |Lacking(left, target, present)|
  {
    RetryEnqueues(runs - ToDelete(runs, items, source, w, chain, job), target, present, first, mid, now, later);
  }

  lemma RetryEnqueues(left: Runs, target: Action, present: set<Item>, first: set<Item>, mid: Runs, now: int, later: int)
    requires first <= present
    requires forall k: RunKey :: k.action == target ==> (k in mid <==> k in Enqueued(left, target, first, now))
    ensures var once, whole := Enqueued(mid, target, present, later), Enqueued(left, target, present, now);
            && (forall k: RunKey :: k.action == target ==> (k in once <==> k in whole))
            && (forall k :: k in mid ==> k in once && once[k] == mid[k])
    ensures |Lacking(left, target, first)| + |Lacking(mid, target, present)| == |Lacking(left, target, present)|
  {
    var once, whole := Enqueued(mid, target, present, later), Enqueued(left, target, present, now);
    forall k: RunKey
      ensures k.action == target ==> (k in once <==> k in whole)
      ensures k.action == target ==> (k in mid <==> k in left || k.item in first)
      ensures k in mid ==> k in once && once[k] == mid[k]
    {
      EnqueuedAt(left, target, first, now, k);
      EnqueuedAt(mid, target, present, later, k);
      EnqueuedAt(left, target, present, now, k);
    }
    forall i
      ensures RunKey(target, i) in mid <==> RunKey(target, i) in left || i in first
    {
      assert RunKey(target, i).action == target;
    }
    LackingSplits(left, mid, target, present, first);
  }

  lemma LackingSplits(left: Runs, mid: Runs, target: Action, present: set<Item>, first: set<Item>)
    requires first <= present
    requires forall i :: RunKey(target, i) in mid <==> RunKey(target, i) in left || i in first
    ensures |Lacking(left, target, first)| + |Lacking(mid, target, present)| == |Lacking(left, target, present)|
  {
    assert Lacking(left, target, present) == Lacking(left, target, first) + Lacking(mid, target, present);
  }

  /** A job that dies before the stamp, with some of the runs already deleted, deletes the rest on its next
      attempt. It then reports only that rest: the count agrees with the dry run exactly when the first
      attempt had deleted nothing. */
  lemma DeletedIsExactIff(runs: Runs, items: Items, source: Source, w: Windows, path: Path, target: Action,
                          chain: seq<Action>, gone: set<RunKey>)
    requires UniqueRanks(path) && IsChain(path, target, chain) && IsSourceOf(path, target, source)
    requires gone <= Doomed(runs, Elements(chain), Present(runs, items, source, w))
    ensures var job, mid := Job(true, None, 0), runs - gone;
            var again := ToDelete(mid, items, source, w, chain, job);
            && mid - again == runs - ToDelete(runs, items, source, w, chain, job)
            && (|again| == Predicted(runs, items, source, w, target, chain, true).deleted <==> gone == {})
  {
    var present := Present(runs, items, source, w);
    SourceIsOutside(path, target, chain, source);
    PresentIgnores(runs, items, source, w, gone);
    DoomedMinus(runs, Elements(chain), present, gone);
  }

  lemma DoomedMinus(runs: Runs, actions: set<Action>, among: set<Item>, gone: set<RunKey>)
    requires gone <= Doomed(runs, actions, among)
    ensures var doomed, again := Doomed(runs, actions, among), Doomed(runs - gone, actions, among);
            (runs - gone) - again == runs - doomed && (|again| == |doomed| <==> gone == {})
  {
    var doomed := Doomed(runs, actions, among);
    assert Doomed(runs - gone, actions, among) == doomed - gone;
    assert doomed == gone + (doomed - gone);
  }
}
