/**
 Polling the Reddit sources of a feed with combined requests
 (`apps/core/feeds/services/_reddit_batch.py`).

 One request fetches the merged, newest-first listing of many subreddits from the earliest of their
 watermarks; the posts are scattered back by subreddit tag, cut off at each source's own watermark,
 recorded, and each watermark advances to the newest post of its own subreddit.
 */
module RedditBatch {
  import opened Options
  import opened FeedItems
  import opened FeedPolling
  import PollInterleaving
  import opened ChunkPacking
  import opened Text
  import opened Sums

  // ---------------------------------------------------------------------------------------
  // Which rows take part
  // ---------------------------------------------------------------------------------------

  /** A source row before validation: its spec may not parse, or may be of another kind. */
  datatype Spec = Malformed | OtherKind | Reddit(sub: string)

  datatype Row = Row(source: Source, spec: Spec)

  predicate Covers(pairs: seq<Pair>, sub: string) {
    exists p :: p in pairs && Lower(p.sub) == sub
  }

  /** The pairs kept of a list of rows: a subreddit seen before, in whatever case, is skipped. */
  function Kept(rows: seq<Row>): seq<Pair>
    decreases |rows|
  {
    if rows == [] then []
    else
      var before, last := Kept(rows[..|rows| - 1]), rows[|rows| - 1];
      if last.spec.Reddit? && !Covers(before, Lower(last.spec.sub))
      then before + [Pair(last.source, last.spec.sub)] else before
  }

  /** `_parse_reddit`. */
  method ParseReddit(rows: seq<Row>) returns (pairs: seq<Pair>)
    ensures pairs == Kept(rows)
  {
    pairs := [];
    var seen: set<string> := {};
    for n := 0 to |rows|
      invariant pairs == Kept(rows[..n])
      invariant forall sub :: sub in seen <==> Covers(pairs, sub)
    {
      assert rows[..n + 1][..n] == rows[..n];
      var row := rows[n];
      if row.spec.Reddit? && Lower(row.spec.sub) !in seen {
        var pair := Pair(row.source, row.spec.sub);
        assert forall p :: p in pairs + [pair] <==> p in pairs || p == pair;
        pairs := pairs + [pair];
        seen := seen + {Lower(row.spec.sub)};
      }
    }
    assert rows[..|rows|] == rows;
  }

  /** Row `i` is the first one for its subreddit. */
  ghost predicate IsFirst(rows: seq<Row>, i: nat) {
    && i < |rows| && rows[i].spec.Reddit?
    && forall j :: 0 <= j < i && rows[j].spec.Reddit? ==> Lower(rows[j].spec.sub) != Lower(rows[i].spec.sub)
  }

  /** Every subreddit with a valid row is kept, no subreddit is kept twice, so none is fetched or
      recorded twice. */
  lemma {:induction false} KeptCoversEachOnce(rows: seq<Row>)
    ensures forall sub :: Covers(Kept(rows), sub) <==>
              exists r :: r in rows && r.spec.Reddit? && Lower(r.spec.sub) == sub
    ensures forall i, j :: 0 <= i < j < |Kept(rows)| ==> Lower(Kept(rows)[i].sub) != Lower(Kept(rows)[j].sub)
    decreases |rows|
  {
    if rows != [] {
      var init, last := rows[..|rows| - 1], rows[|rows| - 1];
      KeptCoversEachOnce(init);
      assert forall r :: r in rows <==> r in init || r == last;
      var before := Kept(init);
      assert forall p :: p in Kept(rows) ==> p in before || p == Pair(last.source, last.spec.sub);
      assert forall i :: 0 <= i < |before| ==> before[i] in before && Kept(rows)[i] == before[i];
      forall sub
        ensures Covers(Kept(rows), sub) <==> exists r :: r in rows && r.spec.Reddit? && Lower(r.spec.sub) == sub
      {
        if Covers(before, sub) {
          var p :| p in before && Lower(p.sub) == sub;
          assert p in Kept(rows);
        }
        if last.spec.Reddit? && Lower(last.spec.sub) == sub && !Covers(before, sub) {
          assert Pair(last.source, last.spec.sub) in Kept(rows);
        }
      }
    }
  }

  /** The row kept for a subreddit is the first one. */
  lemma {:induction false} KeptAreFirsts(rows: seq<Row>, i: nat)
    requires IsFirst(rows, i)
    ensures Pair(rows[i].source, rows[i].spec.sub) in Kept(rows)
    decreases |rows|
  {
    var init := rows[..|rows| - 1];
    if i < |init| {
      assert IsFirst(init, i);
      KeptAreFirsts(init, i);
    } else {
      KeptCoversEachOnce(init);
      assert !Covers(Kept(init), Lower(rows[i].spec.sub));
    }
  }

  /** No two pairs kept differ only in the case of their slug, and each valid row's slug is kept in some case. */
  lemma KeptUpToCase(rows: seq<Row>)
    ensures forall i, j :: 0 <= i < j < |Kept(rows)| ==> !DifferOnlyInCase(Kept(rows)[i].sub, Kept(rows)[j].sub)
    ensures forall r :: r in rows && r.spec.Reddit? ==>
              exists p :: p in Kept(rows) && DifferOnlyInCase(p.sub, r.spec.sub)
  {
    KeptCoversEachOnce(rows);
    forall i, j | 0 <= i < j < |Kept(rows)|
      ensures !DifferOnlyInCase(Kept(rows)[i].sub, Kept(rows)[j].sub)
    {
      LowerAgreesIff(Kept(rows)[i].sub, Kept(rows)[j].sub);
    }
    forall r | r in rows && r.spec.Reddit?
      ensures exists p :: p in Kept(rows) && DifferOnlyInCase(p.sub, r.spec.sub)
    {
      assert Covers(Kept(rows), Lower(r.spec.sub));
      var p :| p in Kept(rows) && Lower(p.sub) == Lower(r.spec.sub);
      LowerAgreesIff(p.sub, r.spec.sub);
    }
  }

  // ---------------------------------------------------------------------------------------
  // The listing and the walk
  // ---------------------------------------------------------------------------------------

  /** `/new` is sorted newest first. */
  predicate NewestFirst(listing: seq<Post>) {
    forall i, j :: 0 <= i < j < |listing| ==> listing[i].at >= listing[j].at
  }

  /** The connector's walk: stop at the first post strictly older than `since`. */
  function Walk(listing: seq<Post>, since: Option<int>): seq<Post>
    decreases |listing|
  {
    if listing == [] || (since.Some? && listing[0].at < since.value) then []
    else [listing[0]] + Walk(listing[1..], since)
  }

  /** The posts tagged with a subreddit, in order. */
  function Bucket(posts: seq<Post>, sub: string): seq<Post>
    decreases |posts|
  {
    if posts == [] then []
    else if Lower(posts[0].sub) == sub then [posts[0]] + Bucket(posts[1..], sub)
    else Bucket(posts[1..], sub)
  }

  /** The posts not older than a mark, in order; without a mark, all of them. */
  function CutOff(posts: seq<Post>, mark: Option<int>): seq<Post>
    decreases |posts|
  {
    if mark.None? then posts
    else if posts == [] then []
    else if posts[0].at >= mark.value then [posts[0]] + CutOff(posts[1..], mark)
    else CutOff(posts[1..], mark)
  }

  /** The posts strictly newer than a mark: the rule of connectors that skip ties. */
  function StrictlyAfter(posts: seq<Post>, mark: int): seq<Post> {
    CutOff(posts, Some(mark + 1))
  }

  /** The earliest mark present. */
  function Since(chunk: seq<Pair>): (since: Option<int>)
    ensures since.None? <==> forall p :: p in chunk ==> p.source.mark.None?
    ensures since.Some? ==> forall p :: p in chunk && p.source.mark.Some? ==> since.value <= p.source.mark.value
    ensures since.Some? ==> exists p :: p in chunk && p.source.mark == since
    decreases |chunk|
  {
    if chunk == [] then None
    else
      var rest := Since(chunk[1..]);
      assert chunk == [chunk[0]] + chunk[1..];
      match chunk[0].source.mark
      case None => rest
      case Some(m) => if rest.Some? && rest.value < m then rest else Some(m)
  }

  // ---------------------------------------------------------------------------------------
  // One chunk
  // ---------------------------------------------------------------------------------------

  function ItemsOf(pair: Pair, posts: seq<Post>): seq<Post> {
    CutOff(Bucket(posts, Lower(pair.sub)), pair.source.mark)
  }

  /** One source of a chunk, given the posts of the combined fetch. */
  function PollSub(feed: Feed, pair: Pair, posts: seq<Post>): Feed {
    var items := ItemsOf(pair, posts);
    Feed(Insert(feed.log, pair.source.tag, items),
         if items == [] then feed.marks
         else
           var newest := Newest(items[0].at, items);
           if pair.source.mark.None? || newest > pair.source.mark.value
           then Advance(feed.marks, pair.source.id, newest) else feed.marks)
  }

  function PollSubs(feed: Feed, chunk: seq<Pair>, posts: seq<Post>): Feed
    decreases |chunk|
  {
    if chunk == [] then feed else PollSubs(PollSub(feed, chunk[0], posts), chunk[1..], posts)
  }

  /** The counters of a chunk that was fetched. */
  function CountSubs(feed: Feed, chunk: seq<Pair>, posts: seq<Post>): Report
    decreases |chunk|
  {
    if chunk == [] then Report(0, 0, 0)
    else
      var rest := CountSubs(PollSub(feed, chunk[0], posts), chunk[1..], posts);
      var items := ItemsOf(chunk[0], posts);
      Report(|items| + rest.observed, RowsBuilt(feed.log, chunk[0].source.tag, items) + rest.recorded,
             1 + rest.succeeded)
  }

  lemma {:induction false} OneMoreSub(feed: Feed, chunk: seq<Pair>, pair: Pair, posts: seq<Post>)
    ensures var mid := PollSubs(feed, chunk, posts); var items := ItemsOf(pair, posts);
            && PollSubs(feed, chunk + [pair], posts) == PollSub(mid, pair, posts)
            && CountSubs(feed, chunk + [pair], posts)
               == Report(CountSubs(feed, chunk, posts).observed + |items|,
                         CountSubs(feed, chunk, posts).recorded + RowsBuilt(mid.log, pair.source.tag, items),
                         CountSubs(feed, chunk, posts).succeeded + 1)
    decreases |chunk|
  {
    if chunk == [] {
      assert chunk + [pair] == [pair];
      assert [pair][1..] == [];
    } else {
      assert (chunk + [pair])[1..] == chunk[1..] + [pair];
      OneMoreSub(PollSub(feed, chunk[0], posts), chunk[1..], pair, posts);
    }
  }

  lemma {:induction false} BucketConcat(xs: seq<Post>, ys: seq<Post>, sub: string)
    ensures Bucket(xs + ys, sub) == Bucket(xs, sub) + Bucket(ys, sub)
    decreases |xs|
  {
    if xs == [] {
      assert xs + ys == ys;
    } else {
      assert (xs + ys)[1..] == xs[1..] + ys;
      BucketConcat(xs[1..], ys, sub);
    }
  }

  class RedditBatch {
    const op: FeedPollOperation

    constructor (op: FeedPollOperation)
      ensures this.op == op
    {
      this.op := op;
    }

    /** The scattering loop: one bucket per tag that occurs. */
    method Scatter(posts: seq<Post>) returns (buckets: map<string, seq<Post>>)
      ensures forall sub :: (if sub in buckets then buckets[sub] else []) == Bucket(posts, sub)
    {
      buckets := map[];
      for i := 0 to |posts|
        invariant forall sub :: (if sub in buckets then buckets[sub] else []) == Bucket(posts[..i], sub)
      {
        assert posts[..i + 1] == posts[..i] + [posts[i]];
        var tag := Lower(posts[i].sub);
        forall sub
          ensures Bucket(posts[..i + 1], sub) == Bucket(posts[..i], sub) + if tag == sub then [posts[i]] else []
        {
          BucketConcat(posts[..i], [posts[i]], sub);
          assert [posts[i]][1..] == [];
        }
        buckets := buckets[tag := (if tag in buckets then buckets[tag] else []) + [posts[i]]];
      }
      assert posts[..|posts|] == posts;
    }

    /** `_poll_chunk`. A fetch that breaks leaves everything as it was. */
    method PollChunk(chunk: seq<Pair>, fetched: Stream) returns (report: Report)
      modifies op, op.itemSvc
      ensures fetched.breaks ==> op.Contents() == old(op.Contents()) && report == Report(0, 0, 0)
      ensures !fetched.breaks ==>
                && op.Contents() == PollSubs(old(op.Contents()), chunk, fetched.posts)
                && report == CountSubs(old(op.Contents()), chunk, fetched.posts)
                && report.succeeded == |chunk|
    {
      var buckets := Scatter(fetched.posts);
      if fetched.breaks {
        return Report(0, 0, 0);
      }
      report := Report(0, 0, 0);
      for i := 0 to |chunk|
        invariant op.Contents() == PollSubs(old(op.Contents()), chunk[..i], fetched.posts)
        invariant report == CountSubs(old(op.Contents()), chunk[..i], fetched.posts)
        invariant report.succeeded == i
      {
        assert chunk[..i + 1] == chunk[..i] + [chunk[i]];
        OneMoreSub(old(op.Contents()), chunk[..i], chunk[i], fetched.posts);
        var sub := Lower(chunk[i].sub);
        var items := CutOff(if sub in buckets then buckets[sub] else [], chunk[i].source.mark);
        var recorded := PollPair(chunk[i], items);
        report := Report(report.observed + |items|, report.recorded + recorded, report.succeeded + 1);
      }
      assert chunk[..|chunk|] == chunk;
    }

    /** Record the items of one source and advance its mark past them. */
    method PollPair(pair: Pair, items: seq<Post>) returns (recorded: nat)
      modifies op, op.itemSvc
      ensures op.itemSvc.items == Insert(old(op.itemSvc.items), pair.source.tag, items)
      ensures recorded == RowsBuilt(old(op.itemSvc.items), pair.source.tag, items)
      ensures op.marks ==
              if items == [] then old(op.marks)
              else
                var newest := Newest(items[0].at, items);
                if pair.source.mark.None? || newest > pair.source.mark.value
                then Advance(old(op.marks), pair.source.id, newest) else old(op.marks)
    {
      var n := op.itemSvc.RecordItems(pair.source.tag, Stream(items, false));
      recorded := n.value;
      var newest := NewestAt(items);
      if newest.Some? && (pair.source.mark.None? || newest.value > pair.source.mark.value) {
        var _ := op.AdvanceWatermark(pair.source.id, newest.value);
      }
    }

    /** `max(..., default=None)` over the times of the items. */
    method NewestAt(items: seq<Post>) returns (newest: Option<int>)
      ensures newest == if items == [] then None else Some(Newest(items[0].at, items))
    {
      if items == [] {
        return None;
      }
      var best := items[0].at;
      for i := 0 to |items|
        invariant best == Newest(items[0].at, items[..i])
      {
        assert items[..i + 1] == items[..i] + [items[i]];
        NewestConcat(items[0].at, items[..i], [items[i]]);
        assert Newest(best, [items[i]]) == Newest(Max(best, items[i].at), [items[i]][1..]);
        best := Max(best, items[i].at);
      }
      assert items[..|items|] == items;
      return Some(best);
    }
  }

  // ---------------------------------------------------------------------------------------
  // The whole group
  // ---------------------------------------------------------------------------------------

  /** Polling the first `n` chunks, chunk `i` answered by `fetch(i)`. */
  function PollChunks(feed: Feed, chunks: seq<seq<Pair>>, fetch: nat -> Stream, n: nat): Feed
    requires n <= |chunks|
  {
    if n == 0 then feed
    else
      var before := PollChunks(feed, chunks, fetch, n - 1);
      if fetch(n - 1).breaks then before else PollSubs(before, chunks[n - 1], fetch(n - 1).posts)
  }

  /** The sources credited: all of every chunk whose fetch came through. */
  function Credited(chunks: seq<seq<Pair>>, fetch: nat -> Stream, n: nat): nat
    requires n <= |chunks|
  {
    if n == 0 then 0
    else Credited(chunks, fetch, n - 1) + if fetch(n - 1).breaks then 0 else |chunks[n - 1]|
  }

  /** The counters of the first `n` chunks: those of each fetched chunk from the state it was polled in. */
  function CountChunks(feed: Feed, chunks: seq<seq<Pair>>, fetch: nat -> Stream, n: nat): Report
    requires n <= |chunks|
  {
    if n == 0 then Report(0, 0, 0)
    else
      var so, before := CountChunks(feed, chunks, fetch, n - 1), PollChunks(feed, chunks, fetch, n - 1);
      if fetch(n - 1).breaks then so
      else
        var more := CountSubs(before, chunks[n - 1], fetch(n - 1).posts);
        Report(so.observed + more.observed, so.recorded + more.recorded, so.succeeded + more.succeeded)
  }

  /** The loop of `poll_reddit_group`: chunk by chunk until the lease is lost. */
  method PollPacked(batch: RedditBatch, chunks: seq<seq<Pair>>, beat: nat -> bool, fetch: nat -> Stream)
    returns (report: Report, polled: nat)
    modifies batch.op, batch.op.itemSvc
    ensures polled <= |chunks| && (forall i: nat :: i < polled ==> beat(i))
    ensures polled < |chunks| ==> !beat(polled)
    ensures batch.op.Contents() == PollChunks(old(batch.op.Contents()), chunks, fetch, polled)
    ensures report == CountChunks(old(batch.op.Contents()), chunks, fetch, polled)
    ensures report.succeeded == Credited(chunks, fetch, polled)
  {
    report, polled := Report(0, 0, 0), 0;
    while polled < |chunks| && beat(polled)
      invariant polled <= |chunks|
      invariant forall i: nat :: i < polled ==> beat(i)
      invariant batch.op.Contents() == PollChunks(old(batch.op.Contents()), chunks, fetch, polled)
      invariant report == CountChunks(old(batch.op.Contents()), chunks, fetch, polled)
      invariant report.succeeded == Credited(chunks, fetch, polled)
    {
      var r := batch.PollChunk(chunks[polled], fetch(polled));
      report := Report(report.observed + r.observed, report.recorded + r.recorded, report.succeeded + r.succeeded);
      polled := polled + 1;
    }
  }

  /** `poll_reddit_group`: parse, pack, poll. */
  method PollRedditGroup(batch: RedditBatch, rows: seq<Row>, beat: nat -> bool, fetch: nat -> Stream)
    returns (report: Report, chunks: seq<seq<Pair>>, polled: nat)
    modifies batch.op, batch.op.itemSvc
    ensures Partition(Kept(rows), chunks) && Within(chunks, BUDGET) && Full(chunks, BUDGET)
    ensures polled <= |chunks| && (forall i: nat :: i < polled ==> beat(i))
    ensures polled < |chunks| ==> !beat(polled)
    ensures batch.op.Contents() == PollChunks(old(batch.op.Contents()), chunks, fetch, polled)
    ensures report == CountChunks(old(batch.op.Contents()), chunks, fetch, polled)
    ensures report.succeeded == Credited(chunks, fetch, polled)
  {
    var pairs := ParseReddit(rows);
    chunks := IterUrlBudgetChunks(pairs, BUDGET);
    report, polled := PollPacked(batch, chunks, beat, fetch);
  }

  // ---------------------------------------------------------------------------------------
  // A combined poll is as good as polling the sources one by one
  // ---------------------------------------------------------------------------------------

  /** On a newest-first listing, stopping at the first old post is the same as filtering. */
  lemma {:induction false} WalkIsCutOff(listing: seq<Post>, since: Option<int>)
    requires NewestFirst(listing)
    ensures Walk(listing, since) == CutOff(listing, since)
    decreases |listing|
  {
    if since.None? {
      WalkIsAll(listing);
    } else if listing != [] {
      WalkIsCutOff(listing[1..], since);
      if listing[0].at < since.value {
        AllOlderIsNothing(listing, since);
      }
    }
  }

  lemma {:induction false} WalkIsAll(listing: seq<Post>)
    ensures Walk(listing, None) == listing
    decreases |listing|
  {
    if listing != [] {
      WalkIsAll(listing[1..]);
    }
  }

  lemma {:induction false} AllOlderIsNothing(posts: seq<Post>, mark: Option<int>)
    requires mark.Some? && forall i :: 0 <= i < |posts| ==> posts[i].at < mark.value
    ensures CutOff(posts, mark) == []
    decreases |posts|
  {
    if posts != [] {
      assert forall i :: 0 <= i < |posts[1..]| ==> posts[1..][i] == posts[i + 1];
      AllOlderIsNothing(posts[1..], mark);
    }
  }

  /** Scattering after an earlier cut loses nothing a later cut keeps. */
  lemma {:induction false} CutAndScatterCommute(listing: seq<Post>, since: Option<int>, sub: string, mark: int)
    requires since.Some? ==> since.value <= mark
    ensures CutOff(Bucket(CutOff(listing, since), sub), Some(mark)) == CutOff(Bucket(listing, sub), Some(mark))
    decreases |listing|
  {
    if listing != [] {
      CutAndScatterCommute(listing[1..], since, sub, mark);
    }
  }

  lemma {:induction false} BucketMembers(posts: seq<Post>, sub: string)
    ensures forall p :: p in Bucket(posts, sub) <==> p in posts && Lower(p.sub) == sub
    decreases |posts|
  {
    if posts != [] {
      BucketMembers(posts[1..], sub);
      assert posts == [posts[0]] + posts[1..];
    }
  }

  lemma {:induction false} BucketIsNewestFirst(posts: seq<Post>, sub: string)
    requires NewestFirst(posts)
    ensures NewestFirst(Bucket(posts, sub))
    decreases |posts|
  {
    if posts != [] {
      var rest := Bucket(posts[1..], sub);
      BucketIsNewestFirst(posts[1..], sub);
      BucketMembers(posts[1..], sub);
      forall i | 0 <= i < |rest|
        ensures rest[i].at <= posts[0].at
      {
        assert rest[i] in posts[1..];
      }
    }
  }

  lemma {:induction false} CutOffMembers(posts: seq<Post>, mark: Option<int>)
    ensures forall p :: p in CutOff(posts, mark) <==> p in posts && (mark.Some? ==> p.at >= mark.value)
    decreases |posts|
  {
    if mark.Some? && posts != [] {
      CutOffMembers(posts[1..], mark);
      assert posts == [posts[0]] + posts[1..];
    }
  }

  /** A source gets exactly the posts tagged with its slug, in whatever case, that are not older than its mark. */
  lemma ItemsAre(pair: Pair, posts: seq<Post>)
    ensures forall p :: p in ItemsOf(pair, posts) <==>
              && p in posts && DifferOnlyInCase(p.sub, pair.sub)
              && (pair.source.mark.Some? ==> pair.source.mark.value <= p.at)
  {
    BucketMembers(posts, Lower(pair.sub));
    CutOffMembers(Bucket(posts, Lower(pair.sub)), pair.source.mark);
    forall p
      ensures p in ItemsOf(pair, posts) <==>
                && p in posts && DifferOnlyInCase(p.sub, pair.sub)
                && (pair.source.mark.Some? ==> pair.source.mark.value <= p.at)
    {
      LowerAgreesIff(p.sub, pair.sub);
    }
  }

  /** A source without a mark records every post of its subreddit and starts at the newest. */
  lemma NullMarkBootstraps(feed: Feed, pair: Pair, posts: seq<Post>, q: Post)
    requires pair.source.mark.None? && pair.source.id in feed.marks && feed.marks[pair.source.id].None?
    requires q in posts && DifferOnlyInCase(q.sub, pair.sub)
    ensures var after := PollSub(feed, pair, posts); var mark := after.marks[pair.source.id];
            && mark.Some?
            && (forall p :: p in posts && DifferOnlyInCase(p.sub, pair.sub) ==> p.key in after.log && p.at <= mark.value)
            && (exists p :: p in posts && DifferOnlyInCase(p.sub, pair.sub) && p.at == mark.value)
  {
    var items := ItemsOf(pair, posts);
    ItemsAre(pair, posts);
    assert q in items && items[0] in items;
    NewestIsMaximum(items[0].at, items);
    InsertAddsKeys(feed.log, pair.source.tag, items);
    forall p | p in posts && DifferOnlyInCase(p.sub, pair.sub)
      ensures p.key in PollSub(feed, pair, posts).log
    {
      assert p in items && p.key in KeysOf(items);
    }
  }

  /** The posts source `k` of a chunk gets, and the rows built of them. */
  function ObservedOf(chunk: seq<Pair>, posts: seq<Post>, k: nat): nat {
    if k < |chunk| then |ItemsOf(chunk[k], posts)| else 0
  }

  function RecordedOf(feed: Feed, chunk: seq<Pair>, posts: seq<Post>, k: nat): nat {
    if k < |chunk| then
      RowsBuilt(PollSubs(feed, chunk[..k], posts).log, chunk[k].source.tag, ItemsOf(chunk[k], posts))
    else 0
  }

  /** The counters of a chunk are sums over its sources. */
  lemma {:induction false} ChunkCounters(feed: Feed, chunk: seq<Pair>, posts: seq<Post>)
    ensures CountSubs(feed, chunk, posts)
            == Report(SumTo(|chunk|, k => ObservedOf(chunk, posts, k)),
                      SumTo(|chunk|, k => RecordedOf(feed, chunk, posts, k)), |chunk|)
    decreases |chunk|
  {
    if chunk != [] {
      var n := |chunk| - 1;
      var init := chunk[..n];
      ChunkCounters(feed, init, posts);
      OneMoreSub(feed, init, chunk[n], posts);
      assert chunk == init + [chunk[n]];
      assert forall k :: 0 <= k < n ==> init[..k] == chunk[..k];
      SumsAgree(n, k => ObservedOf(init, posts, k), k => ObservedOf(chunk, posts, k));
      SumsAgree(n, k => RecordedOf(feed, init, posts, k), k => RecordedOf(feed, chunk, posts, k));
    }
  }

  lemma {:induction false} SumsAgree(n: nat, f: nat -> nat, g: nat -> nat)
    requires forall k: nat :: k < n ==> f(k) == g(k)
    ensures SumTo(n, f) == SumTo(n, g)
  {
    if n > 0 {
      SumsAgree(n - 1, f, g);
    }
  }

  /** What one Reddit source gets when its own listing is walked from its own mark. */
  function SingleFetch(listing: seq<Post>, pair: Pair): Stream {
    Stream(Walk(Bucket(listing, Lower(pair.sub)), pair.source.mark), false)
  }

  /** The items scattered to a source are the very posts its own walk would have yielded. */
  lemma ScatteredItemsAreTheSingleWalk(listing: seq<Post>, chunk: seq<Pair>, pair: Pair)
    requires NewestFirst(listing) && pair in chunk && pair.source.mark.Some?
    ensures ItemsOf(pair, Walk(listing, Since(chunk))) == SingleFetch(listing, pair).posts
  {
    var sub := Lower(pair.sub);
    WalkIsCutOff(listing, Since(chunk));
    BucketIsNewestFirst(listing, sub);
    WalkIsCutOff(Bucket(listing, sub), pair.source.mark);
    CutAndScatterCommute(listing, Since(chunk), sub, pair.source.mark.value);
  }

  lemma PollSubIsPollOne(feed: Feed, pair: Pair, posts: seq<Post>)
    requires pair.source.mark.Some?
    ensures PollSub(feed, pair, posts) == PollOne(feed, pair.source, Stream(ItemsOf(pair, posts), false))
  {
    var items, mark := ItemsOf(pair, posts), pair.source.mark.value;
    CutOffMembers(Bucket(posts, Lower(pair.sub)), pair.source.mark);
    if items != [] {
      assert items[0] in items;
      assert Newest(mark, items) == Newest(Max(mark, items[0].at), items[1..]);
      assert Newest(items[0].at, items) == Newest(Max(items[0].at, items[0].at), items[1..]);
      assert Max(mark, items[0].at) == items[0].at;
      NewestIsMaximum(mark, items);
    }
  }

  /** The sources of a chunk polled one by one, each with a request of its own. */
  function PollSingles(feed: Feed, chunk: seq<Pair>, listing: seq<Post>): Feed
    decreases |chunk|
  {
    if chunk == [] then feed
    else PollSingles(PollOne(feed, chunk[0].source, SingleFetch(listing, chunk[0])), chunk[1..], listing)
  }

  lemma {:induction false} SubsAreSingles(feed: Feed, chunk: seq<Pair>, rest: seq<Pair>, listing: seq<Post>)
    requires NewestFirst(listing) && forall p :: p in rest ==> p in chunk && p.source.mark.Some?
    ensures PollSubs(feed, rest, Walk(listing, Since(chunk))) == PollSingles(feed, rest, listing)
    decreases |rest|
  {
    if rest != [] {
      assert rest[0] in rest;
      ScatteredItemsAreTheSingleWalk(listing, chunk, rest[0]);
      PollSubIsPollOne(feed, rest[0], Walk(listing, Since(chunk)));
      SubsAreSingles(PollSub(feed, rest[0], Walk(listing, Since(chunk))), chunk, rest[1..], listing);
    }
  }

  /** One combined request does to the stored items and to every watermark exactly what a request per
      source does, whenever all the watermarks are set and the walk is not cut short. */
  lemma BatchRefinesSinglePolls(feed: Feed, chunk: seq<Pair>, listing: seq<Post>)
    requires NewestFirst(listing) && forall p :: p in chunk ==> p.source.mark.Some?
    ensures PollSubs(feed, chunk, Walk(listing, Since(chunk))) == PollSingles(feed, chunk, listing)
  {
    SubsAreSingles(feed, chunk, chunk, listing);
  }

  /** Against a connector that skips posts exactly at the mark, the batch moves every watermark alike
      and additionally records precisely the posts tied with the mark. */
  lemma AgainstASkippingConnector(feed: Feed, pair: Pair, listing: seq<Post>, chunk: seq<Pair>)
    requires NewestFirst(listing) && pair in chunk && pair.source.mark.Some?
    ensures var mark := pair.source.mark.value;
            var own := Bucket(listing, Lower(pair.sub));
            var batch := PollSub(feed, pair, Walk(listing, Since(chunk)));
            var single := PollOne(feed, pair.source, Stream(StrictlyAfter(own, mark), false));
            && batch.marks == single.marks
            && batch.log.Keys == single.log.Keys + set p | p in own && p.at == mark :: p.key
  {
    var mark := pair.source.mark.value;
    var own := Bucket(listing, Lower(pair.sub));
    var items, after := CutOff(own, Some(mark)), StrictlyAfter(own, mark);
    ScatteredItemsAreTheSingleWalk(listing, chunk, pair);
    BucketIsNewestFirst(listing, Lower(pair.sub));
    WalkIsCutOff(own, Some(mark));
    PollSubIsPollOne(feed, pair, Walk(listing, Since(chunk)));
    TiesMakeTheDifference(own, mark);
    InsertAddsKeys(feed.log, pair.source.tag, items);
    InsertAddsKeys(feed.log, pair.source.tag, after);
  }

  lemma TiesMakeTheDifference(own: seq<Post>, mark: int)
    ensures Newest(mark, CutOff(own, Some(mark))) == Newest(mark, StrictlyAfter(own, mark))
    ensures KeysOf(CutOff(own, Some(mark)))
            == KeysOf(StrictlyAfter(own, mark)) + set p | p in own && p.at == mark :: p.key
  {
    var items, after := CutOff(own, Some(mark)), StrictlyAfter(own, mark);
    CutOffMembers(own, Some(mark));
    CutOffMembers(own, Some(mark + 1));
    NewestIsMaximum(mark, items);
    NewestIsMaximum(mark, after);
    assert forall p :: p in items <==> p in after || (p in own && p.at == mark);
  }

  /** So the items a source gets out of a combined fetch are a complete fetch from its own mark, in the
      sense of `PollInterleaving`: what is proved there of overlapping pollers covers the batch. */
  lemma BatchItemsAreACompleteFetch(listing: seq<Post>, chunk: seq<Pair>, pair: Pair)
    requires NewestFirst(listing) && pair in chunk
    ensures PollInterleaving.Fetched((set p | p in listing && Lower(p.sub) == Lower(pair.sub)), pair.source.mark,
                                     ItemsOf(pair, Walk(listing, Since(chunk))))
  {
    var sub := Lower(pair.sub);
    var posts := Walk(listing, Since(chunk));
    WalkIsCutOff(listing, Since(chunk));
    CutOffMembers(listing, Since(chunk));
    BucketMembers(posts, sub);
    CutOffMembers(Bucket(posts, sub), pair.source.mark);
  }

  /** Posts tagged with no subreddit of the chunk change nothing, wherever they stand. */
  lemma {:induction false} StrayPostsAreIgnored(feed: Feed, chunk: seq<Pair>, xs: seq<Post>, stray: Post, ys: seq<Post>)
    requires forall p :: p in chunk ==> Lower(p.sub) != Lower(stray.sub)
    ensures PollSubs(feed, chunk, xs + [stray] + ys) == PollSubs(feed, chunk, xs + ys)
    decreases |chunk|
  {
    if chunk != [] {
      var sub := Lower(chunk[0].sub);
      BucketConcat(xs + [stray], ys, sub);
      BucketConcat(xs, [stray], sub);
      BucketConcat(xs, ys, sub);
      assert [stray][1..] == [];
      assert chunk[0] in chunk;
      assert Bucket(xs + [stray] + ys, sub) == Bucket(xs + ys, sub);
      StrayPostsAreIgnored(PollSub(feed, chunk[0], xs + [stray] + ys), chunk[1..], xs, stray, ys);
    }
  }

  lemma EmptyOrNot(posts: seq<Post>)
    ensures posts == [] || exists p :: p in posts
  {
    if posts != [] {
      assert posts[0] in posts;
    }
  }

  /** A source none of whose posts were fetched keeps its mark, and so does a row not in the chunk. */
  lemma {:induction false} QuietSourceKeepsItsMark(feed: Feed, chunk: seq<Pair>, posts: seq<Post>, id: SourceId)
    requires forall p :: p in chunk && p.source.id == id ==> forall q :: q in posts ==> Lower(q.sub) != Lower(p.sub)
    ensures id in feed.marks ==>
              id in PollSubs(feed, chunk, posts).marks && PollSubs(feed, chunk, posts).marks[id] == feed.marks[id]
    decreases |chunk|
  {
    if chunk != [] {
      var pair := chunk[0];
      assert pair in chunk;
      BucketMembers(posts, Lower(pair.sub));
      CutOffMembers(Bucket(posts, Lower(pair.sub)), pair.source.mark);
      EmptyOrNot(ItemsOf(pair, posts));
      QuietSourceKeepsItsMark(PollSub(feed, pair, posts), chunk[1..], posts, id);
    }
  }

  // ---------------------------------------------------------------------------------------
  // When the walk is cut short
  // ---------------------------------------------------------------------------------------

  /** A new post of the source is not recorded, and older than the mark the source now has. */
  ghost predicate Stranded(after: Feed, pair: Pair, listing: seq<Post>, p: Post)
    requires pair.source.mark.Some? && pair.source.id in after.marks && after.marks[pair.source.id].Some?
  {
    && p in listing && Lower(p.sub) == Lower(pair.sub)
    && pair.source.mark.value < p.at < after.marks[pair.source.id].value
    && p.key !in after.log
  }

  /** Post `i` of the source was fetched. Post `j` of it was not: it is new and strictly older, was not
      recorded before, and is not a repetition of a post that was fetched. */
  ghost predicate SplitByTheCut(feed: Feed, pair: Pair, listing: seq<Post>, n: nat, i: int, j: int)
    requires pair.source.mark.Some? && n <= |listing|
  {
    && 0 <= i < n <= j < |listing|
    && Lower(listing[i].sub) == Lower(pair.sub) == Lower(listing[j].sub)
    && listing[i].at > listing[j].at > pair.source.mark.value
    && listing[j].key !in feed.log && listing[j].key !in KeysOf(ItemsOf(pair, listing[..n]))
  }

  /** The request returned only the newest `n` posts of the listing. A source then has an unrecorded post
      behind its mark exactly when one of its posts made the cut and a strictly older new one, not recorded
      and not a repetition, did not. */
  lemma TruncationStrandsIff(feed: Feed, pair: Pair, listing: seq<Post>, n: nat)
    requires NewestFirst(listing) && n <= |listing|
    requires pair.source.mark.Some? && pair.source.id in feed.marks && feed.marks[pair.source.id] == pair.source.mark
    ensures var after := PollSub(feed, pair, listing[..n]);
            && pair.source.id in after.marks && after.marks[pair.source.id].Some?
            && ((exists p :: Stranded(after, pair, listing, p)) <==>
                (exists i, j :: SplitByTheCut(feed, pair, listing, n, i, j)))
  {
    var after := PollSub(feed, pair, listing[..n]);
    AfterTheCut(feed, pair, listing[..n]);
    if p :| Stranded(after, pair, listing, p) {
      StrandedIsSplit(feed, pair, listing, n, p);
    }
    if i, j :| SplitByTheCut(feed, pair, listing, n, i, j) {
      SplitIsStranded(feed, pair, listing, n, i, j);
    }
  }

  /** The source as the next cycle reads it. */
  function Reread(pair: Pair, marks: Marks): Pair
    requires pair.source.id in marks
  {
    pair.(source := pair.source.(mark := marks[pair.source.id]))
  }

  /** A post behind the mark is lost for good: no later fetch that returns it gives it to the source. */
  lemma StrandedIsNeverReadAgain(after: Feed, pair: Pair, listing: seq<Post>, p: Post, posts: seq<Post>)
    requires pair.source.mark.Some? && pair.source.id in after.marks && after.marks[pair.source.id].Some?
    requires Stranded(after, pair, listing, p)
    ensures p !in ItemsOf(Reread(pair, after.marks), posts)
  {
    CutOffMembers(Bucket(posts, Lower(pair.sub)), after.marks[pair.source.id]);
  }

  /** A post tied with the mark is not lost, fetched or not: the next complete walk gives it to the source,
      and it is recorded then. */
  lemma TieIsReadAgain(after: Feed, pair: Pair, listing: seq<Post>, p: Post, chunk: seq<Pair>)
    requires NewestFirst(listing) && p in listing && Lower(p.sub) == Lower(pair.sub)
    requires pair.source.id in after.marks && after.marks[pair.source.id] == Some(p.at)
    requires Reread(pair, after.marks) in chunk
    ensures p in ItemsOf(Reread(pair, after.marks), Walk(listing, Since(chunk)))
    ensures p.key in PollSub(after, Reread(pair, after.marks), Walk(listing, Since(chunk))).log
  {
    var again := Reread(pair, after.marks);
    var items := ItemsOf(again, Walk(listing, Since(chunk)));
    BatchItemsAreACompleteFetch(listing, chunk, again);
    ScatteredItemsAreTheSingleWalk(listing, chunk, again);
    BucketIsNewestFirst(listing, Lower(pair.sub));
    BucketMembers(listing, Lower(pair.sub));
    WalkIsCutOff(Bucket(listing, Lower(pair.sub)), again.source.mark);
    CutOffMembers(Bucket(listing, Lower(pair.sub)), again.source.mark);
    InsertAddsKeys(after.log, pair.source.tag, items);
    assert p.key in KeysOf(items);
  }

  /** What a source holds after a poll of some posts. */
  lemma AfterTheCut(feed: Feed, pair: Pair, posts: seq<Post>)
    requires pair.source.mark.Some? && pair.source.id in feed.marks && feed.marks[pair.source.id] == pair.source.mark
    ensures var after, items := PollSub(feed, pair, posts), ItemsOf(pair, posts);
            && pair.source.id in after.marks
            && after.marks[pair.source.id] == Some(Newest(pair.source.mark.value, items))
            && after.log.Keys == feed.log.Keys + KeysOf(items)
            && (forall p :: p in items <==>
                  p in posts && Lower(p.sub) == Lower(pair.sub) && p.at >= pair.source.mark.value)
  {
    var items := ItemsOf(pair, posts);
    PollSubIsPollOne(feed, pair, posts);
    BucketMembers(posts, Lower(pair.sub));
    CutOffMembers(Bucket(posts, Lower(pair.sub)), pair.source.mark);
    NewestIsMaximum(pair.source.mark.value, items);
    InsertAddsKeys(feed.log, pair.source.tag, items);
  }

  lemma StrandedIsSplit(feed: Feed, pair: Pair, listing: seq<Post>, n: nat, p: Post)
    requires NewestFirst(listing) && n <= |listing|
    requires pair.source.mark.Some? && pair.source.id in feed.marks && feed.marks[pair.source.id] == pair.source.mark
    requires var after := PollSub(feed, pair, listing[..n]);
             && pair.source.id in after.marks && after.marks[pair.source.id].Some?
             && Stranded(after, pair, listing, p)
    ensures exists i, j :: SplitByTheCut(feed, pair, listing, n, i, j)
  {
    var posts, mark := listing[..n], pair.source.mark.value;
    var items := ItemsOf(pair, posts);
    AfterTheCut(feed, pair, posts);
    NewestIsMaximum(mark, items);
    var j :| 0 <= j < |listing| && listing[j] == p;
    assert p in items ==> p.key in KeysOf(items);
    assert forall k :: 0 <= k < n ==> posts[k] == listing[k];
    var q :| q in items && q.at == Newest(mark, items);
    var i :| 0 <= i < |posts| && posts[i] == q;
    assert SplitByTheCut(feed, pair, listing, n, i, j);
  }

  lemma SplitIsStranded(feed: Feed, pair: Pair, listing: seq<Post>, n: nat, i: int, j: int)
    requires NewestFirst(listing) && n <= |listing|
    requires pair.source.mark.Some? && pair.source.id in feed.marks && feed.marks[pair.source.id] == pair.source.mark
    requires SplitByTheCut(feed, pair, listing, n, i, j)
    ensures var after := PollSub(feed, pair, listing[..n]);
            && pair.source.id in after.marks && after.marks[pair.source.id].Some?
            && Stranded(after, pair, listing, listing[j])
  {
    var posts := listing[..n];
    AfterTheCut(feed, pair, posts);
    NewestIsMaximum(pair.source.mark.value, ItemsOf(pair, posts));
    assert posts[i] == listing[i] && listing[i] in ItemsOf(pair, posts);
  }
}
