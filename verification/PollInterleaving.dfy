/**
 Overlapping pollers of one feed (`apps/core/feeds/services/polling.py`, `_reddit_batch.py`,
 `sources.py`). The poll lock can be lost, so any number of pollers may run at once, each from the
 watermark it happened to read. A poll of one source is four kinds of steps: read the row, fetch,
 record some more of the payloads, advance the watermark. Between any two of them other pollers step,
 new posts appear, and the poller itself may die.

 A fetch is taken to be complete: it returns every visible post newer than the mark it started from.
 Posts that appear later are newer than those already visible.
 */
module PollInterleaving {
  import opened Options
  import opened FeedItems
  import opened FeedPolling

  type PollerId = nat

  datatype Phase = Reading | Recording(todo: seq<Post>, newest: Option<int>)

  /** A poll of one source in flight, with the watermark it read. */
  datatype Poller = Poller(source: SourceId, snap: Option<int>, phase: Phase)

  /** `recorded` holds every item ever recorded (pruning old items is not a loss), and `polled` the
      sources that some poller went through to the end. */
  datatype World = World(visible: map<SourceId, set<Post>>, recorded: set<ItemKey>, marks: Marks,
                         pollers: map<PollerId, Poller>, polled: set<SourceId>)

  datatype Step =
    | Appear(source: SourceId, post: Post)
    | Begin(who: PollerId, source: SourceId)
    | Fetch(who: PollerId, posts: seq<Post>)
    | Record(who: PollerId, count: nat)
    | Finish(who: PollerId)
    | Die(who: PollerId)

  /** A complete, truthful fetch from a watermark. Whether posts exactly at the mark come along
      depends on the connector. A source without a mark may get anything. */
  ghost predicate Fetched(visible: set<Post>, snap: Option<int>, posts: seq<Post>) {
    && (forall p :: p in posts ==> p in visible)
    && (snap.Some? ==> forall p :: p in visible && p.at > snap.value ==> p in posts)
  }

  ghost predicate Enabled(w: World, step: Step) {
    match step
    case Appear(s, p) => s in w.visible && forall q :: q in w.visible[s] ==> q.at < p.at
    case Begin(a, s) => a !in w.pollers && s in w.marks && s in w.visible
    case Fetch(a, posts) =>
      && a in w.pollers && w.pollers[a].phase == Reading && w.pollers[a].source in w.visible
      && Fetched(w.visible[w.pollers[a].source], w.pollers[a].snap, posts)
    case Record(a, n) => a in w.pollers && w.pollers[a].phase.Recording? && n <= |w.pollers[a].phase.todo|
    case Finish(a) => a in w.pollers && w.pollers[a].phase.Recording? && w.pollers[a].phase.todo == []
    case Die(a) => a in w.pollers
  }

  /** The newest time a poller knows of: its mark and its posts. */
  function NewestOf(snap: Option<int>, posts: seq<Post>): Option<int> {
    if snap.Some? then Some(Newest(snap.value, posts))
    else if posts == [] then None
    else Some(Newest(posts[0].at, posts))
  }

  ghost function Apply(w: World, step: Step): World {
    if !Enabled(w, step) then w else
    match step
    case Appear(s, p) => w.(visible := w.visible[s := w.visible[s] + {p}])
    case Begin(a, s) => w.(pollers := w.pollers[a := Poller(s, w.marks[s], Reading)])
    case Fetch(a, posts) =>
      var p := w.pollers[a];
      w.(pollers := w.pollers[a := p.(phase := Recording(posts, NewestOf(p.snap, posts)))])
    case Record(a, n) =>
      var p := w.pollers[a];
      w.(recorded := w.recorded + KeysOf(p.phase.todo[..n]),
         pollers := w.pollers[a := p.(phase := p.phase.(todo := p.phase.todo[n..]))])
    case Finish(a) =>
      var p := w.pollers[a];
      w.(marks := if p.phase.newest.Some? && p.phase.newest != p.snap
                  then Advance(w.marks, p.source, p.phase.newest.value) else w.marks,
         pollers := w.pollers - {a}, polled := w.polled + {p.source})
    case Die(a) => w.(pollers := w.pollers - {a})
  }

  ghost function After(w: World, steps: seq<Step>): World
    decreases |steps|
  {
    if steps == [] then w else After(Apply(w, steps[0]), steps[1..])
  }

  lemma {:induction false} NewestOfIsMaximum(snap: Option<int>, posts: seq<Post>)
    ensures snap.Some? || posts != [] <==> NewestOf(snap, posts).Some?
    ensures snap.Some? ==> snap.value <= NewestOf(snap, posts).value
    ensures forall p :: p in posts ==> p.at <= NewestOf(snap, posts).value
    ensures NewestOf(snap, posts) == snap || exists p :: p in posts && NewestOf(snap, posts) == Some(p.at)
  {
    if snap.Some? {
      NewestIsMaximum(snap.value, posts);
    } else if posts != [] {
      NewestIsMaximum(posts[0].at, posts);
      assert posts[0] in posts;
    }
  }

  lemma KeysOfSplit(posts: seq<Post>, n: nat)
    requires n <= |posts|
    ensures KeysOf(posts) == KeysOf(posts[..n]) + KeysOf(posts[n..])
  {
    assert posts == posts[..n] + posts[n..];
  }

  // ---------------------------------------------------------------------------------------
  // Nothing is stranded
  // ---------------------------------------------------------------------------------------

  /** Every post of `s` after `floor` and up to `upTo` is recorded, counting what `todo` still holds. */
  ghost predicate Covered(w: World, s: SourceId, floor: int, upTo: int, todo: set<ItemKey>)
    requires s in w.visible
  {
    forall p :: p in w.visible[s] && floor < p.at <= upTo ==> p.key in w.recorded || p.key in todo
  }

  /** A watermark is the floor, or no newer than something already visible. */
  ghost predicate Grounded(w: World, s: SourceId, floor: int, mark: int)
    requires s in w.visible
  {
    mark == floor || exists p :: p in w.visible[s] && mark <= p.at
  }

  /** What holds of source `s`, whose mark was `floor` at the start. */
  ghost predicate GoodSource(w: World, s: SourceId, floor: int) {
    && s in w.visible && s in w.marks && w.marks[s].Some?
    && floor <= w.marks[s].value
    && Grounded(w, s, floor, w.marks[s].value)
    && Covered(w, s, floor, w.marks[s].value, {})
    && (forall a :: a in w.pollers && w.pollers[a].source == s ==> GoodPoller(w, w.pollers[a], floor))
  }

  ghost predicate GoodPoller(w: World, p: Poller, floor: int)
    requires p.source in w.visible && p.source in w.marks && w.marks[p.source].Some?
  {
    && p.snap.Some? && floor <= p.snap.value <= w.marks[p.source].value
    && (p.phase.Recording? ==>
          && p.phase.newest.Some? && p.snap.value <= p.phase.newest.value
          && Grounded(w, p.source, floor, p.phase.newest.value)
          && Covered(w, p.source, floor, p.phase.newest.value, KeysOf(p.phase.todo)))
  }

  lemma AppearKeepsGood(w: World, s: SourceId, floor: int, t: SourceId, post: Post)
    requires GoodSource(w, s, floor) && Enabled(w, Appear(t, post))
    ensures GoodSource(Apply(w, Appear(t, post)), s, floor)
  {
    var w' := Apply(w, Appear(t, post));
    forall mark, todo | Grounded(w, s, floor, mark) && Covered(w, s, floor, mark, todo)
      ensures Grounded(w', s, floor, mark) && Covered(w', s, floor, mark, todo)
    {
      if mark != floor {
        var p :| p in w.visible[s] && mark <= p.at;
        assert p in w'.visible[s];
      }
    }
    forall a | a in w'.pollers && w'.pollers[a].source == s
      ensures GoodPoller(w', w'.pollers[a], floor)
    {
      assert GoodPoller(w, w.pollers[a], floor);
    }
  }

  lemma FetchKeepsGood(w: World, s: SourceId, floor: int, a: PollerId, posts: seq<Post>)
    requires GoodSource(w, s, floor) && Enabled(w, Fetch(a, posts))
    ensures GoodSource(Apply(w, Fetch(a, posts)), s, floor)
  {
    var w' := Apply(w, Fetch(a, posts));
    var p := w.pollers[a];
    if p.source == s {
      assert GoodPoller(w, p, floor);
      NewestOfIsMaximum(p.snap, posts);
      var newest := NewestOf(p.snap, posts).value;
      assert Grounded(w, s, floor, newest) by {
        if newest != p.snap.value {
          var q :| q in posts && newest == q.at;
          assert q in w.visible[s];
        } else if newest != floor {
          assert w.marks[s].value != floor;
        }
      }
      assert Covered(w, s, floor, newest, KeysOf(posts)) by {
        forall q | q in w.visible[s] && floor < q.at <= newest
          ensures q.key in w.recorded || q.key in KeysOf(posts)
        {
          if q.at <= p.snap.value {
            assert q.at <= w.marks[s].value;
          }
        }
      }
      assert GoodPoller(w', w'.pollers[a], floor);
    }
    forall b | b in w'.pollers && w'.pollers[b].source == s && b != a
      ensures GoodPoller(w', w'.pollers[b], floor)
    {
      assert GoodPoller(w, w.pollers[b], floor);
    }
  }

  lemma RecordKeepsGood(w: World, s: SourceId, floor: int, a: PollerId, n: nat)
    requires GoodSource(w, s, floor) && Enabled(w, Record(a, n))
    ensures GoodSource(Apply(w, Record(a, n)), s, floor)
  {
    var w' := Apply(w, Record(a, n));
    KeysOfSplit(w.pollers[a].phase.todo, n);
    forall b | b in w'.pollers && w'.pollers[b].source == s
      ensures GoodPoller(w', w'.pollers[b], floor)
    {
      assert GoodPoller(w, w.pollers[b], floor);
    }
  }

  lemma FinishKeepsGood(w: World, s: SourceId, floor: int, a: PollerId)
    requires GoodSource(w, s, floor) && Enabled(w, Finish(a))
    ensures GoodSource(Apply(w, Finish(a)), s, floor)
  {
    var w' := Apply(w, Finish(a));
    var p := w.pollers[a];
    if p.source == s {
      assert GoodPoller(w, p, floor);
      assert KeysOf(p.phase.todo) == {};
    }
    forall b | b in w'.pollers && w'.pollers[b].source == s
      ensures GoodPoller(w', w'.pollers[b], floor)
    {
      assert GoodPoller(w, w.pollers[b], floor);
    }
  }

  lemma StepKeepsGood(w: World, step: Step, s: SourceId, floor: int)
    requires GoodSource(w, s, floor)
    ensures GoodSource(Apply(w, step), s, floor)
  {
    if !Enabled(w, step) { return; }
    match step
    case Appear(t, p) => AppearKeepsGood(w, s, floor, t, p);
    case Fetch(a, posts) => FetchKeepsGood(w, s, floor, a, posts);
    case Record(a, n) => RecordKeepsGood(w, s, floor, a, n);
    case Finish(a) => FinishKeepsGood(w, s, floor, a);
    case Begin(_, _) =>
      var w' := Apply(w, step);
      assert forall b :: b in w.pollers && w.pollers[b].source == s ==> GoodPoller(w', w.pollers[b], floor);
    case Die(_) =>
      var w' := Apply(w, step);
      assert forall b :: b in w.pollers && w.pollers[b].source == s ==> GoodPoller(w', w.pollers[b], floor);
  }

  lemma {:induction false} RunKeepsGood(w: World, steps: seq<Step>, s: SourceId, floor: int)
    requires GoodSource(w, s, floor)
    ensures GoodSource(After(w, steps), s, floor)
    decreases |steps|
  {
    if steps != [] {
      StepKeepsGood(w, steps[0], s, floor);
      RunKeepsGood(Apply(w, steps[0]), steps[1..], s, floor);
    }
  }

  /** No post is ever stranded. Start anywhere with no poller in flight; let posts appear, pollers
      overlap from stale marks, connectors fail midway and workers die, in any order. Every visible
      post newer than the source's initial mark and not newer than its current mark was recorded. */
  lemma NoPostIsStranded(w: World, steps: seq<Step>, s: SourceId)
    requires w.pollers == map[] && s in w.visible && s in w.marks && w.marks[s].Some?
    ensures var w' := After(w, steps);
            && s in w'.visible && s in w'.marks && w'.marks[s].Some?
            && forall p :: p in w'.visible[s] && w.marks[s].value < p.at <= w'.marks[s].value ==>
                 p.key in w'.recorded
  {
    RunKeepsGood(w, steps, s, w.marks[s].value);
  }

  /** Marks never go back and records never vanish, over every run. */
  lemma {:induction false} MarksOnlyAdvance(w: World, steps: seq<Step>, s: SourceId)
    requires s in w.marks
    ensures s in After(w, steps).marks && NotBefore(w.marks[s], After(w, steps).marks[s])
    ensures w.recorded <= After(w, steps).recorded
    decreases |steps|
  {
    if steps != [] {
      MarksOnlyAdvance(Apply(w, steps[0]), steps[1..], s);
    }
  }

  // ---------------------------------------------------------------------------------------
  // Overlap is harmless
  // ---------------------------------------------------------------------------------------

  /** What a connector returns from a mark; `ties` says whether it keeps posts exactly at the mark. */
  ghost function Past(visible: set<Post>, mark: int, ties: bool): set<Post> {
    set p | p in visible && (mark < p.at || (ties && mark == p.at))
  }

  /** Every poller survives, nothing new appears, and connectors keep to their rule for ties. */
  ghost predicate Quiet(w: World, ties: map<SourceId, bool>, step: Step) {
    match step
    case Appear(_, _) => false
    case Die(_) => false
    case Fetch(a, posts) =>
      Enabled(w, step) ==>
        && w.pollers[a].source in ties && w.pollers[a].snap.Some?
        && (set p | p in posts) == Past(w.visible[w.pollers[a].source], w.pollers[a].snap.value,
                                        ties[w.pollers[a].source])
    case _ => true
  }

  ghost predicate QuietRun(w: World, ties: map<SourceId, bool>, steps: seq<Step>)
    decreases |steps|
  {
    steps == [] || (Quiet(w, ties, steps[0]) && QuietRun(Apply(w, steps[0]), ties, steps[1..]))
  }

  /** What one poll of `s` from its mark in `w` records. */
  ghost function Harvest(w: World, ties: map<SourceId, bool>, s: SourceId): set<ItemKey>
    requires s in w.visible && s in ties && s in w.marks && w.marks[s].Some?
  {
    set p | p in Past(w.visible[s], w.marks[s].value, ties[s]) :: p.key
  }

  /** `m` is where one poll of `s` in `w` moves its mark. */
  ghost predicate IsTarget(w: World, s: SourceId, m: int)
    requires s in w.visible && s in w.marks && w.marks[s].Some?
  {
    && w.marks[s].value <= m
    && (forall p :: p in w.visible[s] ==> p.at <= m)
    && (m == w.marks[s].value || exists p :: p in w.visible[s] && p.at == m)
  }

  /** A start all the runs below share: no poller, and every source has a mark and a rule for ties. */
  ghost predicate Ready(w: World, ties: map<SourceId, bool>) {
    && w.pollers == map[] && w.polled == {}
    && w.visible.Keys == w.marks.Keys == ties.Keys
    && forall s :: s in w.marks ==> w.marks[s].Some?
  }

  /** How a run in progress relates to its start `o`, seen from one source. */
  ghost predicate OnCourse(o: World, ties: map<SourceId, bool>, w: World, s: SourceId)
    requires Ready(o, ties)
  {
    s in o.marks ==>
      && s in w.marks && w.marks[s].Some?
      && (s !in w.polled ==> w.marks[s] == o.marks[s])
      && (s in w.polled ==> IsTarget(o, s, w.marks[s].value) && Harvest(o, ties, s) <= w.recorded)
  }

  ghost predicate PollerOnCourse(o: World, ties: map<SourceId, bool>, w: World, p: Poller)
    requires Ready(o, ties)
  {
    && p.source in o.marks && p.snap.Some?
    && (p.snap == o.marks[p.source] || (IsTarget(o, p.source, p.snap.value) && p.source in w.polled))
    && (p.phase.Recording? ==>
          && p.phase.newest.Some? && IsTarget(o, p.source, p.phase.newest.value)
          && KeysOf(p.phase.todo) <= Harvest(o, ties, p.source)
          && Harvest(o, ties, p.source) <= w.recorded + KeysOf(p.phase.todo))
  }

  /** Some poller works on `s` or has finished it. */
  ghost predicate Touched(w: World, s: SourceId) {
    s in w.polled || exists a :: a in w.pollers && w.pollers[a].source == s
  }

  /** Every record is an old one or part of the harvest of a touched source. */
  ghost predicate Accounted(o: World, ties: map<SourceId, bool>, w: World)
    requires Ready(o, ties)
  {
    && o.recorded <= w.recorded
    && forall k :: k in w.recorded && k !in o.recorded ==>
         exists s :: s in o.marks && k in Harvest(o, ties, s) && Touched(w, s)
  }

  ghost predicate Course(o: World, ties: map<SourceId, bool>, w: World)
    requires Ready(o, ties)
  {
    && w.visible == o.visible && w.marks.Keys == o.marks.Keys && w.polled <= o.marks.Keys
    && (forall s :: OnCourse(o, ties, w, s))
    && (forall a :: a in w.pollers ==> PollerOnCourse(o, ties, w, w.pollers[a]))
    && Accounted(o, ties, w)
  }

  lemma TargetIsUnique(o: World, s: SourceId, m: int, n: int)
    requires s in o.visible && s in o.marks && o.marks[s].Some?
    requires IsTarget(o, s, m) && IsTarget(o, s, n)
    ensures m == n
  {
  }

  /** A complete fetch, from the initial mark or from the target, leads to the target. */
  lemma FetchReachesTarget(o: World, ties: map<SourceId, bool>, w: World, a: PollerId, posts: seq<Post>)
    requires Ready(o, ties) && Course(o, ties, w)
    requires Enabled(w, Fetch(a, posts)) && Quiet(w, ties, Fetch(a, posts))
    ensures PollerOnCourse(o, ties, Apply(w, Fetch(a, posts)), Apply(w, Fetch(a, posts)).pollers[a])
  {
    var p := w.pollers[a];
    var s := p.source;
    assert OnCourse(o, ties, w, s);
    NewestOfIsMaximum(p.snap, posts);
    var newest := NewestOf(p.snap, posts).value;
    assert forall q :: q in posts <==> q in (set q' | q' in posts);
    assert IsTarget(o, s, newest) by {
      forall q | q in o.visible[s] ensures q.at <= newest {
        if q.at > p.snap.value {
          assert q in posts;
        }
      }
      if newest != p.snap.value {
        var q :| q in posts && newest == q.at;
        assert q in o.visible[s];
      }
    }
    assert KeysOf(posts) <= Harvest(o, ties, s) by {
      forall k | k in KeysOf(posts) ensures k in Harvest(o, ties, s) {
        var q :| q in posts && q.key == k;
        assert q in Past(w.visible[s], p.snap.value, ties[s]);
        assert q in Past(o.visible[s], o.marks[s].value, ties[s]);
      }
    }
    assert Harvest(o, ties, s) <= w.recorded + KeysOf(posts) by {
      if p.snap == o.marks[s] {
        forall k | k in Harvest(o, ties, s) ensures k in KeysOf(posts) {
          var q :| q in Past(o.visible[s], o.marks[s].value, ties[s]) && q.key == k;
          assert q in posts;
        }
      }
    }
  }

  lemma StepKeepsCourse(o: World, ties: map<SourceId, bool>, w: World, step: Step)
    requires Ready(o, ties) && Course(o, ties, w) && Quiet(w, ties, step)
    ensures Course(o, ties, Apply(w, step))
  {
    if !Enabled(w, step) { return; }
    match step
    case Begin(a, s) => BeginKeepsCourse(o, ties, w, a, s);
    case Fetch(a, posts) =>
      FetchReachesTarget(o, ties, w, a, posts);
      var w' := Apply(w, step);
      assert forall b :: b in w'.pollers ==> w'.pollers[b].source == w.pollers[b].source;
      SameTouch(o, ties, w, w');
      KeepsOthers(o, ties, w, w', a);
    case Record(a, n) => RecordKeepsCourse(o, ties, w, a, n);
    case Finish(a) => FinishKeepsCourse(o, ties, w, a);
  }

  /** Accounting carries over when the records are the same and no source is abandoned. */
  lemma SameTouch(o: World, ties: map<SourceId, bool>, w: World, w': World)
    requires Ready(o, ties) && Accounted(o, ties, w)
    requires w'.recorded == w.recorded
    requires forall s :: Touched(w, s) ==> Touched(w', s)
    ensures Accounted(o, ties, w')
  {
    forall k | k in w'.recorded && k !in o.recorded
      ensures exists s :: s in o.marks && k in Harvest(o, ties, s) && Touched(w', s)
    {
      var s :| s in o.marks && k in Harvest(o, ties, s) && Touched(w, s);
      assert Touched(w', s);
    }
  }

  /** What a step of poller `a` leaves true of the sources and of the other pollers. */
  lemma KeepsOthers(o: World, ties: map<SourceId, bool>, w: World, w': World, a: PollerId)
    requires Ready(o, ties) && Course(o, ties, w)
    requires w'.visible == w.visible && w'.marks == w.marks && w'.polled == w.polled
    requires w.recorded <= w'.recorded
    requires forall b :: b in w'.pollers && b != a ==> b in w.pollers && w'.pollers[b] == w.pollers[b]
    ensures forall s :: OnCourse(o, ties, w', s)
    ensures forall b :: b in w'.pollers && b != a ==> PollerOnCourse(o, ties, w', w'.pollers[b])
  {
    forall s ensures OnCourse(o, ties, w', s) {
      assert OnCourse(o, ties, w, s);
    }
    forall b | b in w'.pollers && b != a
      ensures PollerOnCourse(o, ties, w', w'.pollers[b])
    {
      assert PollerOnCourse(o, ties, w, w.pollers[b]);
    }
  }

  lemma BeginKeepsCourse(o: World, ties: map<SourceId, bool>, w: World, a: PollerId, s: SourceId)
    requires Ready(o, ties) && Course(o, ties, w) && Enabled(w, Begin(a, s))
    ensures Course(o, ties, Apply(w, Begin(a, s)))
  {
    var w' := Apply(w, Begin(a, s));
    assert OnCourse(o, ties, w, s);
    assert PollerOnCourse(o, ties, w', w'.pollers[a]);
    forall t | Touched(w, t) ensures Touched(w', t) {
      if t !in w.polled {
        var b :| b in w.pollers && w.pollers[b].source == t;
        assert w'.pollers[b].source == t;
      }
    }
    SameTouch(o, ties, w, w');
    KeepsOthers(o, ties, w, w', a);
  }

  lemma RecordKeepsCourse(o: World, ties: map<SourceId, bool>, w: World, a: PollerId, n: nat)
    requires Ready(o, ties) && Course(o, ties, w) && Enabled(w, Record(a, n))
    ensures Course(o, ties, Apply(w, Record(a, n)))
  {
    var w' := Apply(w, Record(a, n));
    var p := w.pollers[a];
    assert PollerOnCourse(o, ties, w, p);
    KeysOfSplit(p.phase.todo, n);
    assert PollerOnCourse(o, ties, w', w'.pollers[a]);
    KeepsOthers(o, ties, w, w', a);
    forall t | Touched(w, t) ensures Touched(w', t) {
      if t !in w.polled {
        var b :| b in w.pollers && w.pollers[b].source == t;
        assert w'.pollers[b].source == t;
      }
    }
    forall k | k in w'.recorded && k !in o.recorded
      ensures exists s :: s in o.marks && k in Harvest(o, ties, s) && Touched(w', s)
    {
      if k in w.recorded {
        var s :| s in o.marks && k in Harvest(o, ties, s) && Touched(w, s);
        assert Touched(w', s);
      } else {
        assert k in Harvest(o, ties, p.source);
        assert w'.pollers[a].source == p.source;
        assert Touched(w', p.source);
      }
    }
  }

  lemma FinishKeepsCourse(o: World, ties: map<SourceId, bool>, w: World, a: PollerId)
    requires Ready(o, ties) && Course(o, ties, w) && Enabled(w, Finish(a))
    ensures Course(o, ties, Apply(w, Finish(a)))
  {
    var w' := Apply(w, Finish(a));
    var p := w.pollers[a];
    var t := p.source;
    assert PollerOnCourse(o, ties, w, p);
    assert OnCourse(o, ties, w, t);
    assert KeysOf(p.phase.todo) == {};
    forall s ensures OnCourse(o, ties, w', s) {
      assert OnCourse(o, ties, w, s);
      if s == t && t in w.polled {
        TargetIsUnique(o, t, w.marks[t].value, p.phase.newest.value);
      }
    }
    forall b | b in w'.pollers ensures PollerOnCourse(o, ties, w', w'.pollers[b]) {
      assert PollerOnCourse(o, ties, w, w.pollers[b]);
    }
    forall s | Touched(w, s) ensures Touched(w', s) {
      if s !in w'.polled {
        var b :| b in w.pollers && w.pollers[b].source == s;
        assert b in w'.pollers && w'.pollers[b].source == s;
      }
    }
    SameTouch(o, ties, w, w');
  }

  lemma {:induction false} RunKeepsCourse(o: World, ties: map<SourceId, bool>, w: World, steps: seq<Step>)
    requires Ready(o, ties) && Course(o, ties, w) && QuietRun(w, ties, steps)
    ensures Course(o, ties, After(w, steps))
    decreases |steps|
  {
    if steps != [] {
      StepKeepsCourse(o, ties, w, steps[0]);
      RunKeepsCourse(o, ties, Apply(w, steps[0]), steps[1..]);
    }
  }

  /** The outcome of polling exactly the sources in `polled`, each at least once, whatever the order. */
  ghost predicate IsOutcome(o: World, ties: map<SourceId, bool>, w: World)
    requires Ready(o, ties)
  {
    && w.polled <= o.marks.Keys && w.marks.Keys == o.marks.Keys
    && (forall s :: s in o.marks && s !in w.polled ==> w.marks[s] == o.marks[s])
    && (forall s :: s in w.polled ==> w.marks[s].Some? && IsTarget(o, s, w.marks[s].value))
    && (forall k :: k in w.recorded <==>
          k in o.recorded || exists s :: s in w.polled && k in Harvest(o, ties, s))
  }

  /** Overlap costs nothing: when all pollers have finished, the records and the marks depend only on
      which sources were polled, not on how the steps interleaved or how stale the marks were. */
  lemma OverlapIsHarmless(o: World, ties: map<SourceId, bool>, steps: seq<Step>)
    requires Ready(o, ties) && QuietRun(o, ties, steps)
    requires After(o, steps).pollers == map[]
    ensures IsOutcome(o, ties, After(o, steps))
  {
    assert forall s :: OnCourse(o, ties, o, s);
    RunKeepsCourse(o, ties, o, steps);
    var w := After(o, steps);
    forall s | s in o.marks
      ensures s !in w.polled ==> w.marks[s] == o.marks[s]
      ensures s in w.polled ==> w.marks[s].Some? && IsTarget(o, s, w.marks[s].value)
      ensures s in w.polled ==> Harvest(o, ties, s) <= w.recorded
    {
      assert OnCourse(o, ties, w, s);
    }
  }

  /** So an overlapping run and a serial run over the same sources end alike. */
  lemma AnyOrderEndsAlike(o: World, ties: map<SourceId, bool>, steps: seq<Step>, serial: seq<Step>)
    requires Ready(o, ties) && QuietRun(o, ties, steps) && QuietRun(o, ties, serial)
    requires After(o, steps).pollers == map[] && After(o, serial).pollers == map[]
    requires After(o, steps).polled == After(o, serial).polled
    ensures After(o, steps).marks == After(o, serial).marks
    ensures After(o, steps).recorded == After(o, serial).recorded
  {
    OverlapIsHarmless(o, ties, steps);
    OverlapIsHarmless(o, ties, serial);
    var w, v := After(o, steps), After(o, serial);
    forall s | s in w.marks ensures w.marks[s] == v.marks[s] {
      if s in w.polled {
        TargetIsUnique(o, s, w.marks[s].value, v.marks[s].value);
      }
    }
    assert forall k :: k in w.recorded <==> k in v.recorded;
  }

  // ---------------------------------------------------------------------------------------
  // The cycle of FeedPolling is a run of this system
  // ---------------------------------------------------------------------------------------

  /** `PollOne`, the specification of `_poll_source`, does to the records and the marks exactly what
      the steps of one uninterrupted poller do. */
  lemma PollOneIsARun(w: World, feed: Feed, source: Source, posts: seq<Post>, a: PollerId)
    requires a !in w.pollers && source.id in w.visible && source.id in w.marks
    requires feed.log.Keys == w.recorded && feed.marks == w.marks
    requires source.mark == w.marks[source.id] && source.mark.Some?
    requires Fetched(w.visible[source.id], source.mark, posts)
    ensures var w' := After(w, [Begin(a, source.id), Fetch(a, posts), Record(a, |posts|), Finish(a)]);
            var feed' := PollOne(feed, source, Stream(posts, false));
            && w'.recorded == feed'.log.Keys && w'.marks == feed'.marks
            && w'.pollers == w.pollers && w'.visible == w.visible
  {
    InsertAddsKeys(feed.log, source.tag, posts);
    var steps := [Begin(a, source.id), Fetch(a, posts), Record(a, |posts|), Finish(a)];
    AfterFour(w, steps);
    var w3 := Apply(Apply(Apply(w, steps[0]), steps[1]), steps[2]);
    RecordAll(w, source, posts, |posts|, a);
    assert posts[..|posts|] == posts && posts[|posts|..] == [];
    assert Apply(w3, Finish(a)).pollers == w.pollers;
  }

  /** The same when the connector breaks before yielding `unseen`: the full chunks are recorded and
      the poller is gone. */
  lemma BrokenPollIsARun(w: World, feed: Feed, source: Source, posts: seq<Post>, unseen: seq<Post>, a: PollerId)
    requires a !in w.pollers && source.id in w.visible && source.id in w.marks
    requires feed.log.Keys == w.recorded && feed.marks == w.marks
    requires source.mark == w.marks[source.id] && source.mark.Some?
    requires Fetched(w.visible[source.id], source.mark, posts + unseen)
    ensures var stored := |Stored(Stream(posts, true))|;
            var w' := After(w, [Begin(a, source.id), Fetch(a, posts + unseen), Record(a, stored), Die(a)]);
            var feed' := PollOne(feed, source, Stream(posts, true));
            && w'.recorded == feed'.log.Keys && w'.marks == feed'.marks
            && w'.pollers == w.pollers && w'.visible == w.visible
  {
    var stored := Stored(Stream(posts, true));
    InsertAddsKeys(feed.log, source.tag, stored);
    AfterFour(w, [Begin(a, source.id), Fetch(a, posts + unseen), Record(a, |stored|), Die(a)]);
    RecordThenDie(w, source, posts + unseen, |stored|, a);
    assert (posts + unseen)[..|stored|] == stored;
  }

  /** A poller that dies after recording some of its posts leaves just those behind. */
  lemma RecordThenDie(w: World, source: Source, posts: seq<Post>, n: nat, a: PollerId)
    requires a !in w.pollers && source.id in w.visible && source.id in w.marks && n <= |posts|
    requires Fetched(w.visible[source.id], w.marks[source.id], posts)
    ensures Apply(Apply(Apply(Apply(w, Begin(a, source.id)), Fetch(a, posts)), Record(a, n)), Die(a))
            == w.(recorded := w.recorded + KeysOf(posts[..n]))
  {
    RecordAll(w, source, posts, n, a);
    var w3 := Apply(Apply(Apply(w, Begin(a, source.id)), Fetch(a, posts)), Record(a, n));
    assert w3.pollers - {a} == w.pollers;
  }

  lemma RecordAll(w: World, source: Source, posts: seq<Post>, n: nat, a: PollerId)
    requires a !in w.pollers && source.id in w.visible && source.id in w.marks && n <= |posts|
    requires Fetched(w.visible[source.id], w.marks[source.id], posts)
    ensures var w' := Apply(Apply(Apply(w, Begin(a, source.id)), Fetch(a, posts)), Record(a, n));
            w' == w.(recorded := w.recorded + KeysOf(posts[..n]),
                     pollers := w.pollers[a := Poller(source.id, w.marks[source.id],
                       Recording(posts[n..], NewestOf(w.marks[source.id], posts)))])
  {
    var mark := w.marks[source.id];
    var w1 := Apply(w, Begin(a, source.id));
    assert w1.pollers[a] == Poller(source.id, mark, Reading);
    var w2 := Apply(w1, Fetch(a, posts));
    var p2 := Poller(source.id, mark, Recording(posts, NewestOf(mark, posts)));
    assert w2 == w1.(pollers := w1.pollers[a := p2]);
    assert w1.pollers[a := p2] == w.pollers[a := p2];
    var p3 := p2.(phase := Recording(posts[n..], NewestOf(mark, posts)));
    assert w2.pollers[a := p3] == w.pollers[a := p3];
  }

  lemma AfterFour(w: World, steps: seq<Step>)
    requires |steps| == 4
    ensures After(w, steps) == Apply(Apply(Apply(Apply(w, steps[0]), steps[1]), steps[2]), steps[3])
  {
    assert steps[1..][1..] == steps[2..];
    assert steps[2..][1..] == steps[3..];
    assert steps[3..][1..] == [];
    assert After(Apply(Apply(w, steps[0]), steps[1]), steps[2..])
           == After(Apply(Apply(Apply(w, steps[0]), steps[1]), steps[2]), steps[3..]);
  }
}
