/**
 The item log of a feed (`apps/core/feeds/services/feeds/_items.py`, `record_items`).

 Items are unique on (source kind, external id) within the feed. Payloads arrive as a stream and are
 stored in chunks; an error while pulling the next payload loses only the chunk being filled.
 */
module FeedItems {
  import opened Options

  datatype ItemKey = ItemKey(sourceKind: string, externalId: string)

  /** A payload of a connector; `sub` is the subreddit of a Reddit post. */
  datatype Post = Post(key: ItemKey, at: int, sub: string)

  /** How a row is labelled: the display name and the tags of the source that produced it. */
  datatype Label = Label(display: string, meta: map<string, string>)

  datatype Item = Item(tag: Label, at: int)

  type ItemLog = map<ItemKey, Item>

  /** What pulling from a connector gives: some payloads, then the end or an error. */
  datatype Stream = Stream(posts: seq<Post>, breaks: bool)

  const CHUNK_SIZE: nat := 200

  // ---------------------------------------------------------------------------------------
  // Specification
  // ---------------------------------------------------------------------------------------

  /** Insert each post unless its key is present: the first one to arrive wins. */
  function Insert(log: ItemLog, tag: Label, posts: seq<Post>): ItemLog
    decreases |posts|
  {
    if posts == [] then log
    else Insert(InsertOne(log, tag, posts[0]), tag, posts[1..])
  }

  function InsertOne(log: ItemLog, tag: Label, post: Post): ItemLog {
    if post.key in log then log else log[post.key := Item(tag, post.at)]
  }

  /** The log gains exactly the keys of the posts, and no row that was there changes. */
  lemma {:induction false} InsertAddsKeys(log: ItemLog, tag: Label, posts: seq<Post>)
    ensures Insert(log, tag, posts).Keys == log.Keys + KeysOf(posts)
    ensures forall k :: k in log ==> Insert(log, tag, posts)[k] == log[k]
    decreases |posts|
  {
    if posts != [] {
      InsertAddsKeys(InsertOne(log, tag, posts[0]), tag, posts[1..]);
      assert posts == [posts[0]] + posts[1..];
    }
  }

  /** Post `i` is the first of the list with its key. */
  ghost predicate IsFirst(posts: seq<Post>, i: int) {
    0 <= i < |posts| && forall j :: 0 <= j < i ==> posts[j].key != posts[i].key
  }

  /** A new row carries the label of the source and the time of the first post with its key. */
  lemma {:induction false} InsertStoresTheFirst(log: ItemLog, tag: Label, posts: seq<Post>, i: nat)
    requires IsFirst(posts, i) && posts[i].key !in log
    ensures posts[i].key in Insert(log, tag, posts)
    ensures Insert(log, tag, posts)[posts[i].key].tag == tag
    ensures Insert(log, tag, posts)[posts[i].key].at == posts[i].at
    decreases |posts|
  {
    var log' := InsertOne(log, tag, posts[0]);
    InsertAddsKeys(log', tag, posts[1..]);
    if i > 0 {
      assert posts[i].key !in log';
      InsertStoresTheFirst(log', tag, posts[1..], i - 1);
    }
  }

  /** What storing a list of posts does, row by row: old rows stay as they were, the new keys are those of
      the posts, and each new row is labelled and timed as its first post says. */
  ghost predicate Stores(before: ItemLog, tag: Label, posts: seq<Post>, after: ItemLog) {
    && (forall k :: k in after <==> k in before || exists p :: p in posts && p.key == k)
    && (forall k :: k in before ==> k in after && after[k] == before[k])
    && (forall i :: IsFirst(posts, i) && posts[i].key !in before ==>
          posts[i].key in after && after[posts[i].key].tag == tag && after[posts[i].key].at == posts[i].at)
  }

  lemma InsertStores(log: ItemLog, tag: Label, posts: seq<Post>)
    ensures Stores(log, tag, posts, Insert(log, tag, posts))
  {
    var after := Insert(log, tag, posts);
    InsertAddsKeys(log, tag, posts);
    forall k
      ensures k in after <==> k in log || exists p :: p in posts && p.key == k
    {
      assert k in KeysOf(posts) <==> exists p :: p in posts && p.key == k;
    }
    forall i | IsFirst(posts, i) && posts[i].key !in log
      ensures posts[i].key in after && after[posts[i].key].tag == tag && after[posts[i].key].at == posts[i].at
    {
      InsertStoresTheFirst(log, tag, posts, i);
    }
  }

  function KeysOf(posts: seq<Post>): set<ItemKey> {
    set p | p in posts :: p.key
  }

  lemma {:induction false} InsertConcat(log: ItemLog, tag: Label, xs: seq<Post>, ys: seq<Post>)
    ensures Insert(log, tag, xs + ys) == Insert(Insert(log, tag, xs), tag, ys)
    decreases |xs|
  {
    if xs == [] {
      assert xs + ys == ys;
    } else {
      assert (xs + ys)[1..] == xs[1..] + ys;
      var first := xs[0];
      InsertConcat(InsertOne(log, tag, first), tag, xs[1..], ys);
    }
  }

  /** Inserting what is there already changes nothing: a repeated poll is harmless. */
  lemma {:induction false} InsertAgain(log: ItemLog, tag: Label, posts: seq<Post>)
    requires KeysOf(posts) <= log.Keys
    ensures Insert(log, tag, posts) == log
    decreases |posts|
  {
    if posts != [] {
      assert posts[0].key in KeysOf(posts);
      assert KeysOf(posts[1..]) <= KeysOf(posts);
      InsertAgain(log, tag, posts[1..]);
    }
  }

  /** The posts a chunk's SELECT does not find. */
  function Unseen(log: ItemLog, posts: seq<Post>): seq<Post>
    decreases |posts|
  {
    if posts == [] then []
    else if posts[0].key in log then Unseen(log, posts[1..])
    else [posts[0]] + Unseen(log, posts[1..])
  }

  /** What is stored of a stream: everything, or the full chunks before the error. */
  function Stored(stream: Stream): seq<Post> {
    if stream.breaks then stream.posts[..FullChunks(|stream.posts|)] else stream.posts
  }

  /** The greatest multiple of the chunk size up to `n`. */
  function FullChunks(n: nat): (m: nat)
    ensures m <= n < m + CHUNK_SIZE && m % CHUNK_SIZE == 0
  {
    n - n % CHUNK_SIZE
  }

  lemma FullChunksAre(q: nat, n: nat)
    requires q * CHUNK_SIZE <= n < (q + 1) * CHUNK_SIZE
    ensures FullChunks(n) == q * CHUNK_SIZE
  {
  }

  // ---------------------------------------------------------------------------------------
  // The service
  // ---------------------------------------------------------------------------------------

  class FeedItemService {
    var items: ItemLog

    constructor ()
      ensures items == map[]
    {
      items := map[];
    }

    /** SELECT the keys present, then insert the rest ignoring conflicts. Returns the number of rows
        built, which is the number of unseen posts of the chunk. */
    method RecordChunk(tag: Label, chunk: seq<Post>) returns (created: nat)
      modifies this
      ensures items == Insert(old(items), tag, chunk) && Stores(old(items), tag, chunk, items)
      ensures created == |Unseen(old(items), chunk)|
    {
      var existing := items.Keys;
      var rows: seq<Post> := [];
      for i := 0 to |chunk|
        invariant items == old(items)
        invariant rows == Unseen(items, chunk[..i])
      {
        assert chunk[..i + 1] == chunk[..i] + [chunk[i]];
        UnseenConcat(items, chunk[..i], [chunk[i]]);
        if chunk[i].key !in existing {
          rows := rows + [chunk[i]];
        }
      }
      assert chunk[..|chunk|] == chunk;
      BulkCreate(tag, rows);
      InsertUnseen(old(items), old(items), tag, chunk);
      InsertStores(old(items), tag, chunk);
      return |rows|;
    }

    /** `bulk_create(..., ignore_conflicts=True)`: a row whose key is taken is dropped. */
    method BulkCreate(tag: Label, rows: seq<Post>)
      modifies this
      ensures items == Insert(old(items), tag, rows) && Stores(old(items), tag, rows, items)
    {
      for i := 0 to |rows|
        invariant items == Insert(old(items), tag, rows[..i])
      {
        assert rows[..i + 1] == rows[..i] + [rows[i]];
        InsertConcat(old(items), tag, rows[..i], [rows[i]]);
        if rows[i].key !in items {
          items := items[rows[i].key := Item(tag, rows[i].at)];
        }
      }
      assert rows[..|rows|] == rows;
      InsertStores(old(items), tag, rows);
    }

    /** `record_items`. On a broken stream the error propagates, no count is returned, and what was stored is
        the chunks that were full. */
    method RecordItems(tag: Label, stream: Stream) returns (created: Option<nat>)
      modifies this
      ensures items == Insert(old(items), tag, Stored(stream))
      ensures !stream.breaks ==> Stores(old(items), tag, stream.posts, items)
      ensures stream.breaks ==>
                Stores(old(items), tag, stream.posts[..|stream.posts| - |stream.posts| % CHUNK_SIZE], items)
      ensures created.None? <==> stream.breaks
      ensures created.Some? ==> created.value == RowsBuilt(old(items), tag, stream.posts)
    {
      created := ConsumeStream(tag, stream);
      StreamStores(old(items), tag, stream);
    }

    /** Its loop over the payloads. */
    method ConsumeStream(tag: Label, stream: Stream) returns (created: Option<nat>)
      modifies this
      ensures items == Insert(old(items), tag, Stored(stream))
      ensures created.None? <==> stream.breaks
      ensures created.Some? ==> created.value == RowsBuilt(old(items), tag, stream.posts)
    {
      var total := 0;
      var chunk: seq<Post> := [];
      var posts := stream.posts;
      var done := 0;
      ghost var q := 0;
      for i := 0 to |posts|
        invariant |chunk| < CHUNK_SIZE
        invariant done == i - |chunk| == q * CHUNK_SIZE
        invariant chunk == posts[done..i]
        invariant items == Insert(old(items), tag, posts[..done])
        invariant total + RowsBuilt(items, tag, posts[done..]) == RowsBuilt(old(items), tag, posts)
      {
        assert posts[done..i] + [posts[i]] == posts[done..i + 1];
        chunk := chunk + [posts[i]];
        if |chunk| >= CHUNK_SIZE {
          assert i + 1 == done + CHUNK_SIZE;
          ChunkStep(old(items), tag, posts, done, i + 1);
          var n := RecordChunk(tag, chunk);
          assert items == Insert(old(items), tag, posts[..i + 1]);
          total, done, chunk := total + n, i + 1, [];
          q := q + 1;
          assert total + RowsBuilt(items, tag, posts[done..]) == RowsBuilt(old(items), tag, posts);
        }
      }
      if stream.breaks {
        FullChunksAre(q, |posts|);
        return None;
      }
      if |chunk| > 0 {
        ChunkStep(old(items), tag, posts, done, |posts|);
        var n := RecordChunk(tag, chunk);
        total := total + n;
      }
      assert posts[..|posts|] == posts;
      return Some(total);
    }
  }

  lemma StreamStores(log: ItemLog, tag: Label, stream: Stream)
    ensures !stream.breaks ==> Stores(log, tag, stream.posts, Insert(log, tag, Stored(stream)))
    ensures stream.breaks ==>
              Stores(log, tag, stream.posts[..|stream.posts| - |stream.posts| % CHUNK_SIZE],
                     Insert(log, tag, Stored(stream)))
  {
    InsertStores(log, tag, Stored(stream));
  }

  /** Storing one more chunk of a stream whose first `done` posts are stored. */
  lemma ChunkStep(log: ItemLog, tag: Label, posts: seq<Post>, done: nat, next: nat)
    requires done < next <= |posts|
    requires next == done + CHUNK_SIZE || (next == |posts| && next - done < CHUNK_SIZE)
    ensures Insert(log, tag, posts[..next]) == Insert(Insert(log, tag, posts[..done]), tag, posts[done..next])
    ensures next - done == CHUNK_SIZE ==>
              RowsBuilt(Insert(log, tag, posts[..done]), tag, posts[done..])
              == |Unseen(Insert(log, tag, posts[..done]), posts[done..next])|
                 + RowsBuilt(Insert(log, tag, posts[..next]), tag, posts[next..])
    ensures next == |posts| && next - done < CHUNK_SIZE ==>
              RowsBuilt(Insert(log, tag, posts[..done]), tag, posts[done..])
              == |Unseen(Insert(log, tag, posts[..done]), posts[done..next])|
  {
    assert posts[..next] == posts[..done] + posts[done..next];
    InsertConcat(log, tag, posts[..done], posts[done..next]);
    if next - done == CHUNK_SIZE {
      assert posts[done..][..CHUNK_SIZE] == posts[done..next];
      assert posts[done..][CHUNK_SIZE..] == posts[next..];
    } else {
      assert posts[done..] == posts[done..next];
    }
  }

  /** The count `record_items` reports: per chunk, the posts unseen when the chunk is stored. */
  function RowsBuilt(log: ItemLog, tag: Label, posts: seq<Post>): nat
    decreases |posts|
  {
    if |posts| < CHUNK_SIZE then |Unseen(log, posts)|
    else
      |Unseen(log, posts[..CHUNK_SIZE])|
      + RowsBuilt(Insert(log, tag, posts[..CHUNK_SIZE]), tag, posts[CHUNK_SIZE..])
  }

  lemma {:induction false} UnseenConcat(log: ItemLog, xs: seq<Post>, ys: seq<Post>)
    ensures Unseen(log, xs + ys) == Unseen(log, xs) + Unseen(log, ys)
    decreases |xs|
  {
    if xs == [] {
      assert xs + ys == ys;
    } else {
      assert (xs + ys)[1..] == xs[1..] + ys;
      UnseenConcat(log, xs[1..], ys);
    }
  }

  /** Leaving out the posts a stale SELECT already found does not change what gets inserted. */
  lemma {:induction false} InsertUnseen(seen: ItemLog, log: ItemLog, tag: Label, posts: seq<Post>)
    requires seen.Keys <= log.Keys
    ensures Insert(log, tag, Unseen(seen, posts)) == Insert(log, tag, posts)
    decreases |posts|
  {
    if posts != [] {
      var first := posts[0];
      var log' := InsertOne(log, tag, first);
      InsertUnseen(seen, log', tag, posts[1..]);
      if first.key !in seen {
        assert Unseen(seen, posts)[1..] == Unseen(seen, posts[1..]);
      }
    }
  }

  // ---------------------------------------------------------------------------------------
  // Is the count the number of new rows?
  // ---------------------------------------------------------------------------------------

  predicate DistinctKeys(posts: seq<Post>) {
    forall i, j :: 0 <= i < j < |posts| ==> posts[i].key != posts[j].key
  }

  /** No chunk holds the same unseen item twice. */
  predicate NoRepeatInAChunk(log: ItemLog, tag: Label, posts: seq<Post>)
    decreases |posts|
  {
    if |posts| < CHUNK_SIZE then DistinctKeys(Unseen(log, posts))
    else
      && DistinctKeys(Unseen(log, posts[..CHUNK_SIZE]))
      && NoRepeatInAChunk(Insert(log, tag, posts[..CHUNK_SIZE]), tag, posts[CHUNK_SIZE..])
  }

  lemma {:induction false} KeysCount(posts: seq<Post>)
    ensures |KeysOf(posts)| <= |posts|
    ensures |KeysOf(posts)| == |posts| <==> DistinctKeys(posts)
    decreases |posts|
  {
    if posts != [] {
      var init, last := posts[..|posts| - 1], posts[|posts| - 1];
      KeysCount(init);
      assert posts == init + [last];
      KeysCountSnoc(init, last);
    }
  }

  lemma KeysCountSnoc(init: seq<Post>, last: Post)
    requires |KeysOf(init)| <= |init| && (|KeysOf(init)| == |init| <==> DistinctKeys(init))
    ensures |KeysOf(init + [last])| <= |init + [last]|
    ensures |KeysOf(init + [last])| == |init + [last]| <==> DistinctKeys(init + [last])
  {
    KeysOfSnoc(init, last);
  }

  lemma KeysOfSnoc(init: seq<Post>, last: Post)
    ensures KeysOf(init + [last]) == KeysOf(init) + {last.key}
    ensures |KeysOf(init + [last])| == |KeysOf(init)| + if last.key in KeysOf(init) then 0 else 1
    ensures DistinctKeys(init + [last]) <==> DistinctKeys(init) && last.key !in KeysOf(init)
  {
    var posts := init + [last];
    assert forall p :: p in posts <==> p in init || p == last;
    if last.key in KeysOf(init) {
      assert KeysOf(posts) == KeysOf(init);
    }
    DistinctSnoc(init, last);
  }

  lemma DistinctSnoc(init: seq<Post>, last: Post)
    ensures DistinctKeys(init + [last]) <==> DistinctKeys(init) && last.key !in KeysOf(init)
  {
    var posts := init + [last];
    assert forall i :: 0 <= i < |init| ==> posts[i] == init[i] && init[i].key in KeysOf(init);
    if last.key in KeysOf(init) {
      var i :| 0 <= i < |init| && init[i].key == last.key;
      assert posts[i].key == posts[|init|].key;
    }
  }

  lemma {:induction false} UnseenKeys(log: ItemLog, posts: seq<Post>)
    ensures KeysOf(Unseen(log, posts)) == KeysOf(posts) - log.Keys
    decreases |posts|
  {
    if posts != [] {
      assert posts == [posts[0]] + posts[1..];
      UnseenKeys(log, posts[1..]);
      assert KeysOf(posts) == {posts[0].key} + KeysOf(posts[1..]);
      if posts[0].key !in log {
        assert KeysOf(Unseen(log, posts)) == {posts[0].key} + KeysOf(Unseen(log, posts[1..]));
      }
    }
  }

  lemma ChunkGrowth(log: ItemLog, tag: Label, chunk: seq<Post>)
    ensures |Insert(log, tag, chunk)| <= |log| + |Unseen(log, chunk)|
    ensures |Insert(log, tag, chunk)| == |log| + |Unseen(log, chunk)| <==> DistinctKeys(Unseen(log, chunk))
  {
    UnseenKeys(log, chunk);
    KeysCount(Unseen(log, chunk));
    var log' := Insert(log, tag, chunk);
    InsertAddsKeys(log, tag, chunk);
    assert log'.Keys == log.Keys + KeysOf(Unseen(log, chunk));
    assert |log'.Keys| == |log.Keys| + |KeysOf(Unseen(log, chunk))|;
  }

  /** The reported count is never too small, and it equals the number of rows added exactly when no
      chunk repeats an unseen item: SELECT-then-INSERT counts a repetition twice and stores it once. */
  lemma {:induction false} CountIsExactIff(log: ItemLog, tag: Label, posts: seq<Post>)
    ensures |Insert(log, tag, posts)| <= |log| + RowsBuilt(log, tag, posts)
    ensures |Insert(log, tag, posts)| == |log| + RowsBuilt(log, tag, posts)
            <==> NoRepeatInAChunk(log, tag, posts)
    decreases |posts|
  {
    if |posts| < CHUNK_SIZE {
      ChunkGrowth(log, tag, posts);
    } else {
      var head, tail := posts[..CHUNK_SIZE], posts[CHUNK_SIZE..];
      assert posts == head + tail;
      InsertConcat(log, tag, head, tail);
      ChunkGrowth(log, tag, head);
      CountIsExactIff(Insert(log, tag, head), tag, tail);
    }
  }

  /** A Reddit post cross-posted twice in one response is counted as two new rows. */
  lemma CountCanOverstate(tag: Label, p: Post)
    ensures RowsBuilt(map[], tag, [p, p]) == 2
    ensures |Insert(map[], tag, [p, p])| == 1
  {
    var log: ItemLog := map[];
    assert Unseen(log, [p, p][1..][1..]) == [];
    assert Unseen(log, [p, p][1..]) == [p];
    assert Unseen(log, [p, p]) == [p, p];
    InsertAddsKeys(log, tag, [p, p]);
    assert KeysOf([p, p]) == {p.key};
    assert Insert(log, tag, [p, p]).Keys == {p.key};
    assert |Insert(log, tag, [p, p]).Keys| == 1;
  }
}
