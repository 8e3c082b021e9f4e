/**
 One poll cycle of a feed, source by source (`apps/core/feeds/services/polling.py`), and the
 watermark update it rests on (`apps/core/feeds/services/sources.py`, `advance_watermark`).

 Times are integers. A connector is a parameter: what it yields is a `Stream`.
 */
module FeedPolling {
  import opened Options
  import opened FeedItems
  import opened Sums

  type SourceId = string

  type Marks = map<SourceId, Option<int>>

  /** A source row as the cycle read it; the stored watermark may have moved since. */
  datatype Source = Source(id: SourceId, mark: Option<int>, tag: Label)

  /** The persistent state a cycle works on. */
  datatype Feed = Feed(log: ItemLog, marks: Marks)

  // ---------------------------------------------------------------------------------------
  // Specification
  // ---------------------------------------------------------------------------------------

  function Max(a: int, b: int): int {
    if a < b then b else a
  }

  /** The newest of a watermark and the posts' times. */
  function Newest(mark: int, posts: seq<Post>): int
    decreases |posts|
  {
    if posts == [] then mark else Newest(Max(mark, posts[0].at), posts[1..])
  }

  lemma {:induction false} NewestConcat(mark: int, xs: seq<Post>, ys: seq<Post>)
    ensures Newest(mark, xs + ys) == Newest(Newest(mark, xs), ys)
    decreases |xs|
  {
    if xs == [] {
      assert xs + ys == ys;
    } else {
      assert (xs + ys)[1..] == xs[1..] + ys;
      NewestConcat(Max(mark, xs[0].at), xs[1..], ys);
    }
  }

  /** `Newest` is the least upper bound of the mark and the posts. */
  lemma {:induction false} NewestIsMaximum(mark: int, posts: seq<Post>)
    ensures mark <= Newest(mark, posts)
    ensures forall p :: p in posts ==> p.at <= Newest(mark, posts)
    ensures Newest(mark, posts) == mark || exists p :: p in posts && p.at == Newest(mark, posts)
    decreases |posts|
  {
    if posts != [] {
      NewestIsMaximum(Max(mark, posts[0].at), posts[1..]);
      assert posts == [posts[0]] + posts[1..];
      if Newest(mark, posts) != mark && Newest(mark, posts) != posts[0].at {
        var p :| p in posts[1..] && p.at == Newest(mark, posts);
        assert p in posts;
      }
    }
  }

  /** The conditional UPDATE: strictly forward, or from NULL. */
  function Advance(marks: Marks, id: SourceId, value: int): Marks {
    if id in marks && (marks[id].None? || marks[id].value < value) then marks[id := Some(value)] else marks
  }

  /** One source polled: on success everything is recorded and the mark moves to the newest post; a
      broken stream records its full chunks and leaves the mark; a NULL mark does nothing at all. */
  function PollOne(feed: Feed, source: Source, stream: Stream): Feed {
    if source.mark.None? then feed
    else if stream.breaks then feed.(log := Insert(feed.log, source.tag, Stored(stream)))
    else
      var newest := Newest(source.mark.value, stream.posts);
      Feed(Insert(feed.log, source.tag, stream.posts),
           if newest != source.mark.value then Advance(feed.marks, source.id, newest) else feed.marks)
  }

  // ---------------------------------------------------------------------------------------
  // The operation
  // ---------------------------------------------------------------------------------------

  /** `_PolledSource`: watches the payloads that flow through it. */
  class PolledSource {
    var newest: int
    var observed: nat

    constructor (initialNewest: int)
      ensures newest == initialNewest && observed == 0
    {
      newest, observed := initialNewest, 0;
    }

    method Watch(posts: seq<Post>)
      modifies this
      ensures newest == Newest(old(newest), posts)
      ensures observed == old(observed) + |posts|
    {
      for i := 0 to |posts|
        invariant newest == Newest(old(newest), posts[..i])
        invariant observed == old(observed) + i
      {
        assert posts[..i + 1] == posts[..i] + [posts[i]];
        NewestConcat(old(newest), posts[..i], [posts[i]]);
        assert Newest(newest, [posts[i]]) == Newest(Max(newest, posts[i].at), [posts[i]][1..]);
        observed := observed + 1;
        if posts[i].at > newest {
          newest := posts[i].at;
        }
      }
      assert posts[..|posts|] == posts;
    }
  }

  /** How polling one source ended. `Crashed` is an error the cycle does not recover from. */
  datatype Outcome = Polled(observed: nat, recorded: nat) | Failed | Crashed

  /** One turn of the cycle: the row read, whether the lease could be renewed before it, whether its
      spec validates, whether a connector is registered for its kind, and what that yields. */
  datatype Turn = Turn(source: Source, beat: bool, valid: bool, registered: bool, stream: Stream)

  datatype Report = Report(observed: nat, recorded: nat, succeeded: nat)

  class FeedPollOperation {
    const itemSvc: FeedItemService
    var marks: Marks

    constructor (itemSvc: FeedItemService, marks: Marks)
      ensures this.itemSvc == itemSvc && this.marks == marks
    {
      this.itemSvc, this.marks := itemSvc, marks;
    }

    ghost function Contents(): Feed
      reads this, itemSvc
    {
      Feed(itemSvc.items, marks)
    }

    /** `advance_watermark`; returns the row count. */
    method AdvanceWatermark(id: SourceId, value: int) returns (rows: nat)
      modifies this
      ensures marks == Advance(old(marks), id, value)
      ensures id in old(marks) && (old(marks)[id].None? || old(marks)[id].value < value) ==>
                rows == 1 && marks == old(marks)[id := Some(value)]
      ensures !(id in old(marks) && (old(marks)[id].None? || old(marks)[id].value < value)) ==>
                rows == 0 && marks == old(marks)
    {
      if id in marks && (marks[id].None? || marks[id].value < value) {
        marks := marks[id := Some(value)];
        return 1;
      }
      return 0;
    }

    /** `_poll_source`. The connector is looked up before anything else, and a kind without one fails like
        a broken stream. */
    method PollSource(source: Source, registered: bool, stream: Stream) returns (outcome: Outcome)
      modifies this, itemSvc
      ensures Contents() == if registered then PollOne(old(Contents()), source, stream) else old(Contents())
      ensures outcome.Crashed? <==> registered && source.mark.None?
      ensures outcome.Failed? <==> !registered || (source.mark.Some? && stream.breaks)
      ensures !outcome.Polled? ==> marks == old(marks)
      ensures outcome.Crashed? || !registered ==> itemSvc.items == old(itemSvc.items)
      ensures outcome.Polled? ==>
                && Stores(old(itemSvc.items), source.tag, stream.posts, itemSvc.items)
                && outcome.observed == |stream.posts|
                && outcome.recorded == RowsBuilt(old(itemSvc.items), source.tag, stream.posts)
    {
      if !registered {
        return Failed;     // the registry raises an error the cycle recovers from
      }
      if source.mark.None? {
        return Crashed;    // wrapping the stream looks up the time zone of a missing datetime
      }
      var polled := new PolledSource(source.mark.value);
      polled.Watch(stream.posts);
      var recorded := itemSvc.RecordItems(source.tag, stream);
      if recorded.None? {
        return Failed;
      }
      assert Stored(stream) == stream.posts;
      if polled.newest != source.mark.value {
        var _ := AdvanceWatermark(source.id, polled.newest);
      }
      return Polled(polled.observed, recorded.value);
    }

    /** The body of that loop, past the heartbeat: skip a malformed row, count a success, swallow a
        failure. */
    method Take(report: Report, turn: Turn) returns (report': Report, crashed: bool)
      modifies this, itemSvc
      ensures crashed <==> Crashes(turn)
      ensures Contents() == PollTurn(old(Contents()), turn)
      ensures report' == CountTurn(report, old(Contents()), turn)
    {
      if !turn.valid {
        return report, false;
      }
      var outcome := PollSource(turn.source, turn.registered, turn.stream);
      match outcome
      case Crashed => return report, true;
      case Failed => return report, false;
      case Polled(observed, recorded) =>
        return Report(report.observed + observed, report.recorded + recorded, report.succeeded + 1), false;
    }

    /** The loop of `run` over the sources that are not batched, after a batch that reported `group`. It goes
        through `done` turns and stops at the first renewal that fails or the first crash; it skips malformed
        rows and survives failures. The counters are sums over the turns gone through. */
    method Run(group: Report, turns: seq<Turn>) returns (report: Report, crashed: bool, ghost done: nat)
      modifies this, itemSvc
      ensures done <= |turns|
      ensures forall k :: 0 <= k < done ==>
                turns[k].beat && !(turns[k].valid && turns[k].registered && turns[k].source.mark.None?)
      ensures done < |turns| ==>
                !turns[done].beat || (turns[done].valid && turns[done].registered && turns[done].source.mark.None?)
      ensures crashed <==> done < |turns| && turns[done].beat
      ensures Contents() == PollAll(old(Contents()), turns[..done])
      ensures report == Summed(group, old(Contents()), turns, done)
    {
      report, crashed, done := group, false, 0;
      var i := 0;
      while i < |turns|
        invariant 0 <= i <= |turns| && done == i && !crashed
        invariant forall k :: 0 <= k < i ==>
          turns[k].beat && !(turns[k].valid && turns[k].registered && turns[k].source.mark.None?)
        invariant Contents() == PollAll(old(Contents()), turns[..i])
        invariant report == Summed(group, old(Contents()), turns, i)
      {
        var turn := turns[i];
        if !turn.beat {
          return;
        }
        OneMoreTurn(group, old(Contents()), turns, i);
        report, crashed := Take(report, turn);
        if crashed {
          return;
        }
        i, done := i + 1, done + 1;
      }
    }
  }

  /** What turn `k` adds to the counters: its posts, the rows built from them, and itself, if it succeeds. */
  function ObservedIn(turns: seq<Turn>, k: nat): nat {
    if k < |turns| && Succeeds(turns[k]) then |turns[k].stream.posts| else 0
  }

  function RecordedIn(feed: Feed, turns: seq<Turn>, k: nat): nat {
    if k < |turns| && Succeeds(turns[k]) then
      RowsBuilt(PollAll(feed, turns[..k]).log, turns[k].source.tag, turns[k].stream.posts)
    else 0
  }

  function SucceededIn(turns: seq<Turn>, k: nat): nat {
    if k < |turns| && turns[k].valid && turns[k].registered && turns[k].source.mark.Some? && !turns[k].stream.breaks
    then 1 else 0
  }

  /** The counters after the first `n` turns, on top of those of the batch. */
  function Summed(group: Report, feed: Feed, turns: seq<Turn>, n: nat): Report {
    Report(group.observed + SumTo(n, k => ObservedIn(turns, k)),
           group.recorded + SumTo(n, k => RecordedIn(feed, turns, k)),
           group.succeeded + SumTo(n, k => SucceededIn(turns, k)))
  }

  lemma OneMoreTurn(group: Report, feed: Feed, turns: seq<Turn>, i: nat)
    requires i < |turns|
    ensures PollAll(feed, turns[..i + 1]) == PollTurn(PollAll(feed, turns[..i]), turns[i])
    ensures Summed(group, feed, turns, i + 1)
            == CountTurn(Summed(group, feed, turns, i), PollAll(feed, turns[..i]), turns[i])
  {
    assert turns[..i + 1] == turns[..i] + [turns[i]];
    PollAllStep(feed, turns[..i], turns[i]);
  }

  /** The turn reaches an error the cycle does not recover from. */
  predicate Crashes(turn: Turn) {
    turn.valid && turn.registered && turn.source.mark.None?
  }

  predicate Succeeds(turn: Turn) {
    turn.valid && turn.registered && turn.source.mark.Some? && !turn.stream.breaks
  }

  function PollTurn(feed: Feed, turn: Turn): Feed {
    if turn.valid && turn.registered then PollOne(feed, turn.source, turn.stream) else feed
  }

  function PollAll(feed: Feed, turns: seq<Turn>): Feed
    decreases |turns|
  {
    if turns == [] then feed else PollAll(PollTurn(feed, turns[0]), turns[1..])
  }

  function CountTurn(report: Report, feed: Feed, turn: Turn): Report {
    if Succeeds(turn) then
      Report(report.observed + |turn.stream.posts|,
             report.recorded + RowsBuilt(feed.log, turn.source.tag, turn.stream.posts),
             report.succeeded + 1)
    else report
  }

  lemma {:induction false} PollAllStep(feed: Feed, turns: seq<Turn>, turn: Turn)
    ensures PollAll(feed, turns + [turn]) == PollTurn(PollAll(feed, turns), turn)
    decreases |turns|
  {
    if turns == [] {
      assert [turn][1..] == [];
    } else {
      assert (turns + [turn])[1..] == turns[1..] + [turn];
      PollAllStep(PollTurn(feed, turns[0]), turns[1..], turn);
    }
  }

  // ---------------------------------------------------------------------------------------
  // What a whole cycle keeps
  // ---------------------------------------------------------------------------------------

  predicate NotBefore(a: Option<int>, b: Option<int>) {
    a.None? || (b.Some? && a.value <= b.value)
  }

  /** A turn may record: its spec validates, a connector is there, and the row has a watermark. */
  ghost predicate MayRecord(turn: Turn, k: ItemKey) {
    turn.valid && turn.registered && turn.source.mark.Some? && exists p :: p in turn.stream.posts && p.key == k
  }

  /** A cycle records every post of its successful turns, and nothing but posts of turns that may record. */
  lemma {:induction false} CycleRecords(feed: Feed, turns: seq<Turn>, k: ItemKey)
    ensures (exists i, p :: 0 <= i < |turns| && Succeeds(turns[i]) && p in turns[i].stream.posts && p.key == k) ==>
              k in PollAll(feed, turns).log
    ensures k in PollAll(feed, turns).log && k !in feed.log ==>
              exists i :: 0 <= i < |turns| && MayRecord(turns[i], k)
    decreases |turns|
  {
    if turns != [] {
      var turn, rest := turns[0], turns[1..];
      var mid := PollTurn(feed, turn);
      InsertAddsKeys(feed.log, turn.source.tag, Stored(turn.stream));
      CycleRecords(mid, rest, k);
      CycleKeepsKeys(mid, rest);
      if k in PollAll(feed, turns).log && k !in feed.log {
        if k in mid.log {
          assert MayRecord(turns[0], k);
        } else {
          var i :| 0 <= i < |rest| && MayRecord(rest[i], k);
          assert turns[i + 1] == rest[i];
        }
      }
      if i, p :| 0 <= i < |turns| && Succeeds(turns[i]) && p in turns[i].stream.posts && p.key == k {
        if i == 0 {
          assert p.key in KeysOf(turn.stream.posts);
        } else {
          assert rest[i - 1] == turns[i];
        }
      }
    }
  }

  lemma {:induction false} CycleKeepsKeys(feed: Feed, turns: seq<Turn>)
    ensures feed.log.Keys <= PollAll(feed, turns).log.Keys
    decreases |turns|
  {
    if turns != [] {
      InsertAddsKeys(feed.log, turns[0].source.tag, Stored(turns[0].stream));
      CycleKeepsKeys(PollTurn(feed, turns[0]), turns[1..]);
    }
  }

  /** Over any list of turns no mark goes back and no stored item changes, and a mark moves only if
      some turn of its own source succeeded with a post newer than the row it started from. */
  lemma {:induction false} CycleIsMonotone(feed: Feed, turns: seq<Turn>, id: SourceId)
    ensures var after := PollAll(feed, turns);
            && after.marks.Keys == feed.marks.Keys
            && feed.log.Keys <= after.log.Keys
            && (forall k :: k in feed.log ==> after.log[k] == feed.log[k])
            && (id in feed.marks ==> NotBefore(feed.marks[id], after.marks[id]))
            && (id in feed.marks && after.marks[id] != feed.marks[id] ==>
                  exists i, p :: 0 <= i < |turns| && Succeeds(turns[i]) && turns[i].source.id == id
                    && p in turns[i].stream.posts && after.marks[id] == Some(p.at)
                    && turns[i].source.mark.value < p.at)
    decreases |turns|
  {
    if turns != [] {
      var turn := turns[0];
      var mid := PollTurn(feed, turn);
      InsertAddsKeys(feed.log, turn.source.tag, Stored(turn.stream));
      CycleIsMonotone(mid, turns[1..], id);
      var after := PollAll(feed, turns);
      if id in feed.marks && after.marks[id] != feed.marks[id] {
        if after.marks[id] != mid.marks[id] {
          var i, p :| 0 <= i < |turns[1..]| && Succeeds(turns[1..][i]) && turns[1..][i].source.id == id
            && p in turns[1..][i].stream.posts && after.marks[id] == Some(p.at)
            && turns[1..][i].source.mark.value < p.at;
          assert turns[i + 1] == turns[1..][i];
        } else {
          NewestIsMaximum(turn.source.mark.value, turn.stream.posts);
          var p :| p in turn.stream.posts && p.at == Newest(turn.source.mark.value, turn.stream.posts);
          assert Succeeds(turns[0]) && p in turns[0].stream.posts;
        }
      }
    }
  }
}
