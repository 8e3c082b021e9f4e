/**
 Packing subreddits into combined requests (`_iter_url_budget_chunks` in
 `apps/core/feeds/services/_reddit_batch.py`): the slugs of a chunk are joined with `+` in one URL
 whose length is bounded.
 */
module ChunkPacking {
  import opened FeedPolling

  /** A source row and the subreddit slug of its validated spec. */
  datatype Pair = Pair(source: Source, sub: string)

  const MAX_COMBINED_URL_BYTES: nat := 7500
  const COMBINED_URL_OVERHEAD: nat := 75
  const BUDGET: nat := MAX_COMBINED_URL_BYTES - COMBINED_URL_OVERHEAD

  // ---------------------------------------------------------------------------------------
  // Specification
  // ---------------------------------------------------------------------------------------

  /** The slugs as they appear in the URL. */
  function Join(pairs: seq<Pair>): string
    decreases |pairs|
  {
    if pairs == [] then ""
    else if |pairs| == 1 then pairs[0].sub
    else pairs[0].sub + "+" + Join(pairs[1..])
  }

  /** Every slug with a separator of its own: one more than the joined length. */
  function Weight(pairs: seq<Pair>): nat
    decreases |pairs|
  {
    if pairs == [] then 0 else |pairs[0].sub| + 1 + Weight(pairs[1..])
  }

  lemma {:induction false} JoinLength(pairs: seq<Pair>)
    ensures pairs != [] ==> |Join(pairs)| + 1 == Weight(pairs)
    decreases |pairs|
  {
    if |pairs| > 1 {
      JoinLength(pairs[1..]);
    } else if |pairs| == 1 {
      assert pairs[1..] == [];
    }
  }

  lemma {:induction false} WeightConcat(xs: seq<Pair>, ys: seq<Pair>)
    ensures Weight(xs + ys) == Weight(xs) + Weight(ys)
    decreases |xs|
  {
    if xs == [] {
      assert xs + ys == ys;
    } else {
      assert (xs + ys)[1..] == xs[1..] + ys;
      WeightConcat(xs[1..], ys);
    }
  }

  lemma WeightOne(p: Pair)
    ensures Weight([p]) == |p.sub| + 1
  {
    assert [p][1..] == [];
  }

  /** A stretch weighs no more than a stretch around it. */
  lemma WeightOfPart(pairs: seq<Pair>, a: nat, b: nat, c: nat, d: nat)
    requires a <= b <= c <= d <= |pairs|
    ensures Weight(pairs[b..c]) <= Weight(pairs[a..d])
  {
    assert pairs[a..d] == pairs[a..b] + pairs[b..c] + pairs[c..d];
    WeightConcat(pairs[a..b] + pairs[b..c], pairs[c..d]);
    WeightConcat(pairs[a..b], pairs[b..c]);
  }

  function Concat(chunks: seq<seq<Pair>>): seq<Pair>
    decreases |chunks|
  {
    if chunks == [] then [] else Concat(chunks[..|chunks| - 1]) + chunks[|chunks| - 1]
  }

  /** A way to cut `pairs` into chunks, none of them empty. */
  ghost predicate Partition(pairs: seq<Pair>, chunks: seq<seq<Pair>>) {
    Concat(chunks) == pairs && forall i :: 0 <= i < |chunks| ==> chunks[i] != []
  }

  /** How much of the budget a chunk uses before it is closed: after the first chunk, the separator
      counted for a pair that opened a new chunk stays counted. */
  function Slack(i: nat): nat {
    if i == 0 then 0 else 1
  }

  // ---------------------------------------------------------------------------------------
  // The loop
  // ---------------------------------------------------------------------------------------

  /** The chunks keep the order and lose nothing; each fits the budget when its slugs do; and none
      could have taken the first pair of the next, up to the one byte miscounted after a flush. */
  method IterUrlBudgetChunks(pairs: seq<Pair>, budget: nat) returns (chunks: seq<seq<Pair>>)
    ensures Partition(pairs, chunks)
    ensures (forall p :: p in pairs ==> |p.sub| <= budget) ==> Fits(chunks, budget)
    ensures Within(chunks, budget) && Full(chunks, budget)
  {
    chunks := [];
    var cur: seq<Pair> := [];
    var used := 0;
    for n := 0 to |pairs|
      invariant n == 0 ==> chunks == [] && cur == [] && used == 0
      invariant n > 0 ==> Open(pairs[..n], chunks, cur, used, budget)
    {
      var pair := pairs[n];
      var add := |pair.sub| + if cur != [] then 1 else 0;
      assert pairs[..n + 1] == pairs[..n] + [pair];
      if n == 0 {
        FirstChunk(pair, budget);
      } else if used + add > budget {
        NextChunk(pairs[..n], chunks, cur, used, pair, budget);
      } else {
        ExtendChunk(pairs[..n], chunks, cur, used, pair, budget);
      }
      if cur != [] && used + add > budget {
        chunks := chunks + [cur];
        cur, used := [], 0;
      }
      assert cur == [] ==> cur + [pair] == [pair];
      cur := cur + [pair];
      used := used + add;
    }
    assert pairs[..|pairs|] == pairs;
    if cur != [] {
      chunks := chunks + [cur];
    }
    WithinFits(pairs, chunks, budget);
  }

  /** The state of the loop once it has taken `before`: closed chunks, the open one, what it counts. */
  ghost predicate Open(before: seq<Pair>, chunks: seq<seq<Pair>>, cur: seq<Pair>, used: int, budget: nat) {
    && cur != []
    && Partition(before, chunks + [cur]) && Within(chunks + [cur], budget) && Full(chunks + [cur], budget)
    && used + 1 == Weight(cur) + Slack(|chunks|)
  }

  /** Every joined chunk is within the budget. */
  predicate Fits(chunks: seq<seq<Pair>>, budget: nat) {
    forall i :: 0 <= i < |chunks| ==> |Join(chunks[i])| <= budget
  }

  /** A chunk of several pairs is within what it may use; a single pair is never split. */
  predicate Within(chunks: seq<seq<Pair>>, budget: nat) {
    forall i :: 0 <= i < |chunks| ==> |chunks[i]| == 1 || |Join(chunks[i])| <= budget - Slack(i)
  }

  /** No chunk but the last could have taken the first pair of the next. */
  predicate Full(chunks: seq<seq<Pair>>, budget: nat) {
    forall i :: 0 <= i < |chunks| - 1 ==> NextOverflows(chunks, i, budget)
  }

  predicate NextOverflows(chunks: seq<seq<Pair>>, i: nat, budget: nat)
    requires i < |chunks| - 1
  {
    chunks[i + 1] != [] && |Join(chunks[i] + [chunks[i + 1][0]])| > budget - Slack(i)
  }

  lemma WithinFits(pairs: seq<Pair>, chunks: seq<seq<Pair>>, budget: nat)
    requires Partition(pairs, chunks) && Within(chunks, budget)
    ensures (forall p :: p in pairs ==> |p.sub| <= budget) ==> Fits(chunks, budget)
  {
    if forall p :: p in pairs ==> |p.sub| <= budget {
      forall i | 0 <= i < |chunks| ensures |Join(chunks[i])| <= budget {
        ChunkIsASlice(pairs, chunks, i);
        if |chunks[i]| == 1 {
          assert chunks[i][0] in pairs;
        }
      }
    }
  }

  lemma FirstChunk(pair: Pair, budget: nat)
    ensures Open([pair], [], [pair], |pair.sub|, budget)
  {
    var chunks: seq<seq<Pair>> := [];
    assert (chunks + [[pair]])[..0] == [];
    WeightOne(pair);
  }

  /** The open chunk takes another pair. */
  lemma ExtendChunk(before: seq<Pair>, chunks: seq<seq<Pair>>, cur: seq<Pair>, used: int, pair: Pair, budget: nat)
    requires Open(before, chunks, cur, used, budget) && used + |pair.sub| + 1 <= budget
    ensures Open(before + [pair], chunks, cur + [pair], used + |pair.sub| + 1, budget)
  {
    var old', new' := chunks + [cur], chunks + [cur + [pair]];
    assert old'[..|chunks|] == chunks == new'[..|chunks|];
    WeightOne(pair);
    WeightConcat(cur, [pair]);
    JoinLength(cur + [pair]);
    assert forall i :: 0 <= i < |chunks| ==> new'[i] == old'[i];
    forall i | 0 <= i < |new'| - 1 ensures NextOverflows(new', i, budget) {
      assert NextOverflows(old', i, budget);
    }
  }

  /** The open chunk is closed and the pair starts the next one. */
  lemma NextChunk(before: seq<Pair>, chunks: seq<seq<Pair>>, cur: seq<Pair>, used: int, pair: Pair, budget: nat)
    requires Open(before, chunks, cur, used, budget) && used + |pair.sub| + 1 > budget
    ensures Open(before + [pair], chunks + [cur], [pair], |pair.sub| + 1, budget)
  {
    var old', new' := chunks + [cur], chunks + [cur] + [[pair]];
    assert new'[..|old'|] == old';
    WeightOne(pair);
    WeightConcat(cur, [pair]);
    JoinLength(cur + [pair]);
    assert forall i :: 0 <= i < |old'| ==> new'[i] == old'[i];
    forall i | 0 <= i < |new'| - 1 ensures NextOverflows(new', i, budget) {
      assert i < |chunks| ==> NextOverflows(old', i, budget);
    }
  }

  // ---------------------------------------------------------------------------------------
  // How many requests
  // ---------------------------------------------------------------------------------------

  /** Where chunk `k` starts in the concatenation. */
  function Cut(chunks: seq<seq<Pair>>, k: nat): nat
    requires k <= |chunks|
  {
    |Concat(chunks[..k])|
  }

  lemma CutAll(chunks: seq<seq<Pair>>)
    ensures Cut(chunks, |chunks|) == |Concat(chunks)|
  {
    assert chunks[..|chunks|] == chunks;
  }

  lemma {:induction false} ChunkIsASlice(pairs: seq<Pair>, chunks: seq<seq<Pair>>, k: nat)
    requires Concat(chunks) == pairs && k < |chunks|
    ensures Cut(chunks, k) + |chunks[k]| == Cut(chunks, k + 1) <= |pairs|
    ensures chunks[k] == pairs[Cut(chunks, k)..Cut(chunks, k + 1)]
    decreases |chunks|
  {
    var last := |chunks| - 1;
    assert chunks[..k + 1][..k] == chunks[..k];
    if k < last {
      var init := chunks[..last];
      ChunkIsASlice(Concat(init), init, k);
      assert init[..k] == chunks[..k] && init[..k + 1] == chunks[..k + 1];
    } else {
      assert chunks[..k + 1] == chunks;
    }
  }

  /** The greedy cut is never behind any other partition into chunks one byte smaller. */
  lemma {:induction false} GreedyStaysAhead(pairs: seq<Pair>, budget: nat, greedy: seq<seq<Pair>>,
                                               other: seq<seq<Pair>>, k: nat)
    requires Partition(pairs, greedy) && Partition(pairs, other)
    requires budget >= 1 && Full(greedy, budget) && Fits(other, budget - 1)
    requires k <= |greedy| && k <= |other|
    ensures Cut(other, k) <= Cut(greedy, k)
    decreases k
  {
    if k > 0 {
      GreedyStaysAhead(pairs, budget, greedy, other, k - 1);
      GreedyStep(pairs, budget, greedy, other, k - 1);
    }
  }

  lemma GreedyStep(pairs: seq<Pair>, budget: nat, greedy: seq<seq<Pair>>, other: seq<seq<Pair>>, k: nat)
    requires Partition(pairs, greedy) && Partition(pairs, other)
    requires budget >= 1 && Full(greedy, budget) && Fits(other, budget - 1)
    requires k < |greedy| && k < |other| && Cut(other, k) <= Cut(greedy, k)
    ensures Cut(other, k + 1) <= Cut(greedy, k + 1)
  {
    ChunkIsASlice(pairs, greedy, k);
    ChunkIsASlice(pairs, other, k);
    CutAll(greedy);
    if k + 1 < |greedy| && Cut(other, k + 1) > Cut(greedy, k + 1) {
      OneMoreIsASlice(pairs, greedy, k);
      assert NextOverflows(greedy, k, budget);
      TooMuchForOneChunk(pairs, budget, Cut(greedy, k), Cut(greedy, k + 1), Cut(other, k), Cut(other, k + 1));
    }
  }

  /** A chunk and the first pair of the next are a slice. */
  lemma OneMoreIsASlice(pairs: seq<Pair>, chunks: seq<seq<Pair>>, k: nat)
    requires Partition(pairs, chunks) && k + 1 < |chunks|
    ensures Cut(chunks, k) <= Cut(chunks, k + 1) < |pairs|
    ensures chunks[k] + [chunks[k + 1][0]] == pairs[Cut(chunks, k)..Cut(chunks, k + 1) + 1]
  {
    ChunkIsASlice(pairs, chunks, k);
    ChunkIsASlice(pairs, chunks, k + 1);
  }

  lemma TooMuchForOneChunk(pairs: seq<Pair>, budget: nat, from: nat, to: nat, a: nat, d: nat)
    requires a <= from <= to < d <= |pairs|
    requires |Join(pairs[from..to + 1])| > budget - 1
    ensures |Join(pairs[a..d])| > budget - 1
  {
    JoinLength(pairs[from..to + 1]);
    JoinLength(pairs[a..d]);
    WeightOfPart(pairs, a, from, to + 1, d);
  }

  /** The packing makes no more requests than the best contiguous packing with one byte less. */
  lemma PackingIsNearOptimal(pairs: seq<Pair>, budget: nat, greedy: seq<seq<Pair>>,
                                other: seq<seq<Pair>>)
    requires Partition(pairs, greedy) && Partition(pairs, other)
    requires budget >= 1 && Full(greedy, budget) && Fits(other, budget - 1)
    ensures |greedy| <= |other|
  {
    if |other| < |greedy| {
      GreedyStaysAhead(pairs, budget, greedy, other, |other|);
      assert other[..|other|] == other;
      ChunkIsASlice(pairs, greedy, |other|);
    }
  }

  /** The three promises leave no choice: they determine the chunks. */
  lemma {:induction false} PackingIsDetermined(pairs: seq<Pair>, budget: nat, one: seq<seq<Pair>>,
                                               two: seq<seq<Pair>>, k: nat)
    requires Partition(pairs, one) && Within(one, budget) && Full(one, budget)
    requires Partition(pairs, two) && Within(two, budget) && Full(two, budget)
    requires k <= |one|
    ensures k <= |two| && Cut(one, k) == Cut(two, k) && one[..k] == two[..k]
    decreases k
  {
    if k == 0 { return; }
    PackingIsDetermined(pairs, budget, one, two, k - 1);
    CutAll(two);
    ChunkIsASlice(pairs, one, k - 1);
    if k <= |two| {
      ChunkIsASlice(pairs, two, k - 1);
      CannotBeLonger(pairs, budget, one, two, k - 1);
      CannotBeLonger(pairs, budget, two, one, k - 1);
      assert one[..k] == one[..k - 1] + [one[k - 1]];
      assert two[..k] == two[..k - 1] + [two[k - 1]];
    }
  }

  lemma CannotBeLonger(pairs: seq<Pair>, budget: nat, short: seq<seq<Pair>>, long: seq<seq<Pair>>, k: nat)
    requires Partition(pairs, short) && Full(short, budget)
    requires Partition(pairs, long) && Within(long, budget)
    requires k < |short| && k < |long| && Cut(short, k) == Cut(long, k)
    ensures Cut(long, k + 1) <= Cut(short, k + 1)
  {
    ChunkIsASlice(pairs, short, k);
    ChunkIsASlice(pairs, long, k);
    if Cut(short, k + 1) < Cut(long, k + 1) {
      CutAll(short);
      if k + 1 < |short| {
        var from, to := Cut(short, k), Cut(short, k + 1);
        OneMoreIsASlice(pairs, short, k);
        assert NextOverflows(short, k, budget);
        TooMuchForOneChunk(pairs, budget + 1 - Slack(k), from, to, from, Cut(long, k + 1));
      }
    }
  }

  /** The byte less is needed: here three requests are made where two would fit the budget. */
  lemma PackingWastesAByte(s: Source)
    ensures var pairs := [Pair(s, "aaa"), Pair(s, "b"), Pair(s, "c")];
            var made, enough := [[pairs[0]], [pairs[1]], [pairs[2]]], [[pairs[0]], [pairs[1], pairs[2]]];
            && Partition(pairs, made) && Within(made, 3) && Full(made, 3)
            && Partition(pairs, enough) && Fits(enough, 3)
  {
    var pairs := [Pair(s, "aaa"), Pair(s, "b"), Pair(s, "c")];
    var made, enough := [[pairs[0]], [pairs[1]], [pairs[2]]], [[pairs[0]], [pairs[1], pairs[2]]];
    ConcatThree([pairs[0]], [pairs[1]], [pairs[2]]);
    ConcatThree([pairs[0]], [pairs[1], pairs[2]], []);
    assert Join([pairs[0]]) == "aaa";
    assert [pairs[1], pairs[2]][1..] == [pairs[2]];
    assert Join([pairs[1], pairs[2]]) == "b+c";
    assert Join([pairs[0], pairs[1]]) == "aaa+b" by {
      assert [pairs[0], pairs[1]][1..] == [pairs[1]];
    }
    assert NextOverflows(made, 0, 3) by {
      assert made[0] + [made[1][0]] == [pairs[0], pairs[1]];
    }
    assert NextOverflows(made, 1, 3) by {
      assert made[1] + [made[2][0]] == [pairs[1], pairs[2]];
    }
  }

  lemma ConcatThree(a: seq<Pair>, b: seq<Pair>, c: seq<Pair>)
    ensures Concat([a, b]) == a + b && Concat([a, b, c]) == a + b + c
  {
    var one, two, three := [a], [a, b], [a, b, c];
    assert three[..2] == two && two[..1] == one && one[..0] == [];
    assert Concat(one) == Concat(one[..0]) + a;
    assert Concat(two) == Concat(two[..1]) + b;
    assert Concat(three) == Concat(three[..2]) + c;
  }
}
