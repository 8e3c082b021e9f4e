/**
 What the slug migration does where one row is rewritten to the slug another row has at the moment
 (`apps/core/feeds/migrations/0002_lowercase_reddit_subreddit_slugs.py`): exactly when it is idempotent,
 and exactly when it loses a watermark, both read off the table before the run.
 */
module SlugChains {
  import opened Options
  import opened SlugTable

  ghost predicate IsChained(c: Canon, o: Table, i: Id) {
    exists j :: Chained(c, o, i, j)
  }

  // ---------------------------------------------------------------------------------------
  // Which rows are left
  // ---------------------------------------------------------------------------------------

  /** Row `r` of the table stands for row `k`: it is of its class and the loop will not move it again. */
  predicate StandsFor(c: Canon, o: Table, t: Table, done: set<Id>, k: Id, r: Id) {
    r in t && SameClass(c, o, k, r) && (r in done || Canonical(c, o[r]))
  }

  ghost predicate IsRepresented(c: Canon, o: Table, t: Table, done: set<Id>, k: Id) {
    exists r :: StandsFor(c, o, t, done, k, r)
  }

  /** Canonical rows stay; of the rows treated, the chained ones are gone and the others are represented. */
  ghost predicate Sorted(c: Canon, o: Table, t: Table, done: set<Id>) {
    && (forall k :: k in o && o[k].kind == REDDIT && Canonical(c, o[k]) ==> k in t)
    && (forall k :: k in done && IsChained(c, o, k) ==> k !in t)
    && (forall k :: k in done && !IsChained(c, o, k) ==> IsRepresented(c, o, t, done, k))
  }

  /** The loop is about to treat row `id`. */
  ghost predicate AtTurn(c: Canon, o: Table, t: Table, done: set<Id>, id: Id) {
    && ToReddit(c) && WellWritten(o) && Unique(o) && Halfway(c, o, t, done) && Sorted(c, o, t, done)
    && id in o && o[id].kind == REDDIT && id !in done && id in t
    && (forall i :: i in o && o[i].kind == REDDIT && i < id ==> i in done)
    && (forall i :: i in done ==> i < id && i in o && o[i].kind == REDDIT)
  }

  lemma OthersStayRepresented(c: Canon, o: Table, t: Table, t': Table, done: set<Id>, id: Id)
    requires Sorted(c, o, t, done) && id !in done && t.Keys - {id} <= t'.Keys <= t.Keys
    requires id !in t' ==> !(id in o && Canonical(c, o[id]))
    ensures forall k :: k in done && !IsChained(c, o, k) ==> IsRepresented(c, o, t', done + {id}, k)
  {
    forall k | k in done && !IsChained(c, o, k)
      ensures IsRepresented(c, o, t', done + {id}, k)
    {
      assert IsRepresented(c, o, t, done, k);
      var r :| StandsFor(c, o, t, done, k, r);
      assert StandsFor(c, o, t', done + {id}, k, r);
    }
  }

  lemma SkipSorts(c: Canon, o: Table, t: Table, done: set<Id>, id: Id)
    requires AtTurn(c, o, t, done, id) && Canonical(c, o[id])
    ensures Sorted(c, o, t, done + {id})
  {
    OthersStayRepresented(c, o, t, t, done, id);
    assert StandsFor(c, o, t, done + {id}, id, id);
    assert forall j :: !Chained(c, o, id, j);
  }

  lemma MergeSorts(c: Canon, o: Table, t: Table, done: set<Id>, id: Id, s: Id)
    requires AtTurn(c, o, t, done, id) && !Canonical(c, o[id]) && s in Survivors(c, t, id, o[id])
    ensures Sorted(c, o, Merged(t, id, s, o[id].mark), done + {id})
  {
    var t' := Merged(t, id, s, o[id].mark);
    assert t'.Keys == t.Keys - {id};
    OthersStayRepresented(c, o, t, t', done, id);
    if !IsChained(c, o, id) {
      SurvivorIsInClass(c, o, t, done, id, s);
      assert StandsFor(c, o, t', done + {id}, id, s);
    }
  }

  lemma RewriteSorts(c: Canon, o: Table, t: Table, done: set<Id>, id: Id)
    requires AtTurn(c, o, t, done, id) && !Canonical(c, o[id]) && Survivors(c, t, id, o[id]) == {}
    ensures Sorted(c, o, StepRow(c, t, id, o[id]), done + {id})
  {
    var t' := StepRow(c, t, id, o[id]);
    OthersStayRepresented(c, o, t, t', done, id);
    if j :| Chained(c, o, id, j) {
      LinkIsTheSurvivor(c, o, t, done, id, j);
    }
    assert StandsFor(c, o, t', done + {id}, id, id);
  }

  lemma StepSorts(c: Canon, o: Table, t: Table, done: set<Id>, id: Id)
    requires AtTurn(c, o, t, done, id)
    ensures Sorted(c, o, StepRow(c, t, id, o[id]), done + {id})
  {
    if Canonical(c, o[id]) {
      SkipSorts(c, o, t, done, id);
    } else if Survivors(c, t, id, o[id]) != {} {
      MergeSorts(c, o, t, done, id, First(Survivors(c, t, id, o[id])));
    } else {
      RewriteSorts(c, o, t, done, id);
    }
  }

  /** The loop's next turn, from a closed scan of what comes before it. */
  lemma {:induction false} TurnComes(c: Canon, o: Table, order: seq<Id>)
    requires ToReddit(c) && WellWritten(o) && Unique(o) && Scan(o, order) && Closed(o, order) && order != []
    ensures var done, id := order[..|order| - 1], order[|order| - 1];
            && Scan(o, done) && Closed(o, done)
            && AtTurn(c, o, Migrate(c, o, o, done), Ids(done), id)
            && Ids(order) == Ids(done) + {id}
    decreases |order|, 0
  {
    var done, id := order[..|order| - 1], order[|order| - 1];
    ScanSnoc(o, order);
    ClosedInit(o, order);
    MigrateKeepsHalfway(c, o, done);
    MigrateSorts(c, o, done);
    forall i | i in o && o[i].kind == REDDIT && i < id
      ensures i in Ids(done)
    {
      assert i in Ids(order);
    }
  }

  lemma {:induction false} MigrateSorts(c: Canon, o: Table, order: seq<Id>)
    requires ToReddit(c) && WellWritten(o) && Unique(o) && Scan(o, order) && Closed(o, order)
    ensures Sorted(c, o, Migrate(c, o, o, order), Ids(order))
    decreases |order|, 1
  {
    if order != [] {
      var done, id := order[..|order| - 1], order[|order| - 1];
      TurnComes(c, o, order);
      StepSorts(c, o, Migrate(c, o, o, done), Ids(done), id);
    }
  }

  lemma ScanIsClosed(o: Table, order: seq<Id>)
    requires ScanOf(o, order)
    ensures Scan(o, order) && Closed(o, order)
    ensures forall i :: i in Ids(order) <==> i in o && o[i].kind == REDDIT
  {
  }

  // ---------------------------------------------------------------------------------------
  // Running it twice
  // ---------------------------------------------------------------------------------------

  /** The migration is idempotent exactly on the tables where every Reddit row settles in one pass or is to
      be merged into a later row that moves on. */
  lemma IdempotentExactlyIf(c: Canon, o: Table, order: seq<Id>, again: seq<Id>)
    requires ToReddit(c) && WellWritten(o) && Unique(o) && ScanOf(o, order)
    requires ScanOf(Migrate(c, o, o, order), again)
    ensures var t := Migrate(c, o, o, order);
            && (Migrate(c, t, t, again) == t <==>
                  forall i :: i in o && o[i].kind == REDDIT ==> Steady(c, o[i].spec) || IsChained(c, o, i))
  {
    SecondRunByWhatIsLeft(c, o, order, again);
    forall i | i in o && o[i].kind == REDDIT && !IsChained(c, o, i)
      ensures LeftOver(c, o, order, Steady(c, o[i].spec))
    {
      SomeoneIsLeft(c, o, order, i);
    }
    forall i | i in Migrate(c, o, o, order) && Migrate(c, o, o, order)[i].kind == REDDIT
      ensures i in o && o[i].kind == REDDIT && !IsChained(c, o, i)
    {
      LeftIsUnchained(c, o, order, i);
    }
  }

  /** Some row left had a spec that settles in one pass, or one that does not. */
  ghost predicate LeftOver(c: Canon, o: Table, order: seq<Id>, steady: bool)
    requires ScanOf(o, order)
  {
    var t := Migrate(c, o, o, order);
    exists r :: r in t && t[r].kind == REDDIT && r in o && Steady(c, o[r].spec) == steady
  }

  lemma SomeoneIsLeft(c: Canon, o: Table, order: seq<Id>, i: Id)
    requires ToReddit(c) && WellWritten(o) && Unique(o) && ScanOf(o, order)
    requires i in o && o[i].kind == REDDIT && !IsChained(c, o, i)
    ensures LeftOver(c, o, order, Steady(c, o[i].spec))
  {
    var t := Migrate(c, o, o, order);
    ScanIsClosed(o, order);
    MigrateKeepsHalfway(c, o, order);
    MigrateSorts(c, o, order);
    assert IsRepresented(c, o, t, Ids(order), i);
    var r :| StandsFor(c, o, t, Ids(order), i, r);
    assert Looks(c, o, t, r, r in Ids(order));
  }

  lemma LeftIsUnchained(c: Canon, o: Table, order: seq<Id>, i: Id)
    requires ToReddit(c) && WellWritten(o) && Unique(o) && ScanOf(o, order)
    requires i in Migrate(c, o, o, order) && Migrate(c, o, o, order)[i].kind == REDDIT
    ensures i in o && o[i].kind == REDDIT && !IsChained(c, o, i)
  {
    ScanIsClosed(o, order);
    MigrateKeepsHalfway(c, o, order);
    MigrateSorts(c, o, order);
    assert Looks(c, o, Migrate(c, o, o, order), i, i in Ids(order));
  }

  // ---------------------------------------------------------------------------------------
  // Which rows are merged
  // ---------------------------------------------------------------------------------------

  /** Row `k` has the spec that row `j` is going to get, and still has it at the turn of `j`. */
  predicate Awaits(c: Canon, o: Table, j: Id, k: Id) {
    && j in o && k in o && k != j && o[k].account == o[j].account && o[k].feed == o[j].feed
    && o[k].spec == c(o[j].spec) && (j < k || Canonical(c, o[k]))
  }

  /** Row `k` is rewritten before row `j` to the spec `j` is going to get, or merged into one that has it. */
  ghost predicate Precedes(c: Canon, o: Table, j: Id, k: Id) {
    k < j && SameClass(c, o, k, j) && !IsChained(c, o, k)
  }

  ghost predicate WillMerge(c: Canon, o: Table, j: Id) {
    (exists k :: Awaits(c, o, j, k)) || (exists k :: Precedes(c, o, j, k))
  }

  /** At its turn, a row finds a survivor exactly when the first table says so. */
  lemma FindsSurvivorIff(c: Canon, o: Table, t: Table, done: set<Id>, j: Id)
    requires AtTurn(c, o, t, done, j) && !Canonical(c, o[j])
    ensures Survivors(c, t, j, o[j]) != {} <==> WillMerge(c, o, j)
  {
    if s :| s in Survivors(c, t, j, o[j]) {
      SurvivorWasForeseen(c, o, t, done, j, s);
    }
    if k :| Awaits(c, o, j, k) {
      assert k in t && Looks(c, o, t, k, k in done);
      assert k in Survivors(c, t, j, o[j]);
    }
    if k :| Precedes(c, o, j, k) {
      assert IsRepresented(c, o, t, done, k);
      var r :| StandsFor(c, o, t, done, k, r);
      assert Looks(c, o, t, r, r in done);
      assert r in Survivors(c, t, j, o[j]);
    }
  }

  lemma SurvivorWasForeseen(c: Canon, o: Table, t: Table, done: set<Id>, j: Id, s: Id)
    requires AtTurn(c, o, t, done, j) && !Canonical(c, o[j]) && s in Survivors(c, t, j, o[j])
    ensures WillMerge(c, o, j)
  {
    assert Looks(c, o, t, s, s in done);
    if s in done && !Canonical(c, o[s]) {
      assert Precedes(c, o, j, s);
    } else {
      assert Awaits(c, o, j, s);
    }
  }

  lemma {:induction false} MergedIsGone(c: Canon, o: Table, order: seq<Id>, j: Id)
    requires ToReddit(c) && WellWritten(o) && Unique(o) && Scan(o, order) && Closed(o, order)
    requires j in o && !Canonical(c, o[j]) && WillMerge(c, o, j)
    ensures j in order ==> j !in Migrate(c, o, o, order)
    decreases |order|
  {
    if order != [] {
      var done, id := order[..|order| - 1], order[|order| - 1];
      if id == j {
        MergedAtItsTurn(c, o, order, j);
      } else {
        ScanSnoc(o, order);
        ClosedInit(o, order);
        MergedIsGone(c, o, done, j);
        StepAddsNoRow(c, Migrate(c, o, o, done), id, o[id]);
        assert order == done + [id];
      }
    }
  }

  lemma MergedAtItsTurn(c: Canon, o: Table, order: seq<Id>, j: Id)
    requires ToReddit(c) && WellWritten(o) && Unique(o) && Scan(o, order) && Closed(o, order)
    requires j in o && !Canonical(c, o[j]) && WillMerge(c, o, j) && order != [] && order[|order| - 1] == j
    ensures j !in Migrate(c, o, o, order)
  {
    var done := order[..|order| - 1];
    TurnComes(c, o, order);
    FindsSurvivorIff(c, o, Migrate(c, o, o, done), Ids(done), j);
    MergeRemoves(c, Migrate(c, o, o, done), j, o[j]);
  }

  lemma MergeRemoves(c: Canon, t: Table, id: Id, row: Row)
    requires !Canonical(c, row) && Survivors(c, t, id, row) != {}
    ensures id !in StepRow(c, t, id, row)
  {
  }

  lemma StepAddsNoRow(c: Canon, t: Table, id: Id, row: Row)
    ensures StepRow(c, t, id, row).Keys <= t.Keys
  {
  }

  // ---------------------------------------------------------------------------------------
  // Exactly when a watermark is lost
  // ---------------------------------------------------------------------------------------

  function Iterated(c: Canon, spec: Spec, n: nat): Spec {
    if n == 0 then spec else c(Iterated(c, spec, n - 1))
  }

  /** The spec is one the first leads to, in any number of passes. */
  ghost predicate LeadsTo(c: Canon, from: Spec, to: Spec) {
    exists n: nat :: Iterated(c, from, n) == to
  }

  /** Row `k` of the table carries on for row `i`: its spec is one that row's spec leads to, and it has at
      least its watermark. */
  ghost predicate CarriesOn(c: Canon, o: Table, t: Table, i: Id, k: Id) {
    && i in o && k in t && t[k].account == o[i].account && t[k].feed == o[i].feed
    && LeadsTo(c, o[i].spec, t[k].spec) && AtLeast(t[k].mark, o[i].mark)
  }

  ghost predicate HasHeir(c: Canon, o: Table, t: Table, i: Id) {
    exists k :: CarriesOn(c, o, t, i, k)
  }

  /** No Reddit row's watermark is lost, however far its subreddit's rows moved. */
  ghost predicate NothingLost(c: Canon, o: Table, t: Table) {
    forall i {:trigger HasHeir(c, o, t, i)} :: i in o && o[i].kind == REDDIT ==> HasHeir(c, o, t, i)
  }

  /** A row is merged into one that is itself merged later, with the watermark it had at the start. */
  ghost predicate Leaks(c: Canon, o: Table, i: Id, j: Id) {
    Chained(c, o, i, j) && WillMerge(c, o, j)
  }

  ghost predicate NoLeak(c: Canon, o: Table) {
    forall i, j :: !Leaks(c, o, i, j)
  }

  /** Rows ahead have changed only by taking in a row chained to them. */
  ghost predicate AheadUntouched(c: Canon, o: Table, t: Table, done: set<Id>) {
    forall k :: k in o && k in t && k !in done && !Canonical(c, o[k]) && (forall i :: !Chained(c, o, i, k)) ==>
      t[k] == o[k]
  }

  lemma OnePassFurther(c: Canon, from: Spec, to: Spec)
    requires LeadsTo(c, from, to)
    ensures LeadsTo(c, from, c(to))
  {
    var n: nat :| Iterated(c, from, n) == to;
    assert Iterated(c, from, n + 1) == c(to);
  }

  /** A row about to be merged took in nothing itself. */
  lemma MergedIsUntouched(c: Canon, o: Table, t: Table, done: set<Id>, id: Id, s: Id)
    requires AtTurn(c, o, t, done, id) && !Canonical(c, o[id]) && s in Survivors(c, t, id, o[id])
    requires NoLeak(c, o) && AheadUntouched(c, o, t, done)
    ensures t[id] == o[id] && t[s].spec == c(o[id].spec)
    ensures s in done || Canonical(c, o[s]) || Chained(c, o, id, s)
  {
    SurvivorWasForeseen(c, o, t, done, id, s);
    forall i
      ensures !Chained(c, o, i, id)
    {
      assert !Leaks(c, o, i, id);
    }
    assert Looks(c, o, t, s, s in done);
  }

  lemma HeirMoves(c: Canon, o: Table, t: Table, id: Id, s: Id)
    requires NothingLost(c, o, t) && id in o && id in t && t[id] == o[id]
    requires s in t && s != id && t[s].account == t[id].account && t[s].feed == t[id].feed
    requires t[s].spec == c(t[id].spec)
    ensures NothingLost(c, o, Merged(t, id, s, o[id].mark))
  {
    var t' := Merged(t, id, s, o[id].mark);
    forall i | i in o && o[i].kind == REDDIT
      ensures HasHeir(c, o, t', i)
    {
      assert HasHeir(c, o, t, i);
      var k :| CarriesOn(c, o, t, i, k);
      if k == id {
        OnePassFurther(c, o[i].spec, t[id].spec);
        assert CarriesOn(c, o, t', i, s);
      } else {
        assert CarriesOn(c, o, t', i, k);
      }
    }
  }

  lemma MergeLosesNone(c: Canon, o: Table, t: Table, done: set<Id>, id: Id, s: Id)
    requires AtTurn(c, o, t, done, id) && !Canonical(c, o[id]) && s in Survivors(c, t, id, o[id])
    requires NoLeak(c, o) && NothingLost(c, o, t) && AheadUntouched(c, o, t, done)
    ensures NothingLost(c, o, Merged(t, id, s, o[id].mark))
    ensures AheadUntouched(c, o, Merged(t, id, s, o[id].mark), done + {id})
  {
    MergedIsUntouched(c, o, t, done, id, s);
    HeirMoves(c, o, t, id, s);
  }

  lemma RewriteLosesNone(c: Canon, o: Table, t: Table, done: set<Id>, id: Id)
    requires AtTurn(c, o, t, done, id) && (Canonical(c, o[id]) || Survivors(c, t, id, o[id]) == {})
    requires NothingLost(c, o, t) && AheadUntouched(c, o, t, done)
    ensures NothingLost(c, o, StepRow(c, t, id, o[id]))
    ensures AheadUntouched(c, o, StepRow(c, t, id, o[id]), done + {id})
  {
    var t' := StepRow(c, t, id, o[id]);
    assert Looks(c, o, t, id, false);
    forall i | i in o && o[i].kind == REDDIT
      ensures HasHeir(c, o, t', i)
    {
      assert HasHeir(c, o, t, i);
      var k :| CarriesOn(c, o, t, i, k);
      if k == id {
        OnePassFurther(c, o[i].spec, t[id].spec);
      }
      assert CarriesOn(c, o, t', i, k);
    }
  }

  lemma StartLosesNone(c: Canon, o: Table)
    ensures NothingLost(c, o, o)
  {
    forall i | i in o && o[i].kind == REDDIT
      ensures HasHeir(c, o, o, i)
    {
      assert Iterated(c, o[i].spec, 0) == o[i].spec;
      assert CarriesOn(c, o, o, i, i);
    }
  }

  lemma {:induction false} MigrateLosesNone(c: Canon, o: Table, order: seq<Id>)
    requires ToReddit(c) && WellWritten(o) && Unique(o) && Scan(o, order) && Closed(o, order) && NoLeak(c, o)
    ensures NothingLost(c, o, Migrate(c, o, o, order))
    ensures AheadUntouched(c, o, Migrate(c, o, o, order), Ids(order))
    decreases |order|
  {
    if order == [] {
      StartLosesNone(c, o);
    } else {
      var done, id := order[..|order| - 1], order[|order| - 1];
      TurnComes(c, o, order);
      MigrateLosesNone(c, o, done);
      var t := Migrate(c, o, o, done);
      if Canonical(c, o[id]) || Survivors(c, t, id, o[id]) == {} {
        RewriteLosesNone(c, o, t, Ids(done), id);
      } else {
        MergeLosesNone(c, o, t, Ids(done), id, First(Survivors(c, t, id, o[id])));
      }
    }
  }

  ghost predicate LosslessWith(c: Canon, o: Table, order: seq<Id>, marks: Id -> Option<int>)
    requires ScanOf(o, order)
  {
    NothingLost(c, Remarked(o, marks), Migrate(c, Remarked(o, marks), Remarked(o, marks), order))
  }

  lemma RemarkedMergesAlike(c: Canon, o: Table, marks: Id -> Option<int>, i: Id, j: Id)
    ensures var r := Remarked(o, marks);
            (Leaks(c, r, i, j) <==> Leaks(c, o, i, j)) && (WillMerge(c, r, j) <==> WillMerge(c, o, j))
  {
    var r := Remarked(o, marks);
    forall a, b
      ensures Chained(c, r, a, b) <==> Chained(c, o, a, b)
    {
    }
    forall a
      ensures IsChained(c, r, a) <==> IsChained(c, o, a)
    {
      if b :| Chained(c, r, a, b) { assert Chained(c, o, a, b); }
      if b :| Chained(c, o, a, b) { assert Chained(c, r, a, b); }
    }
    forall k
      ensures Awaits(c, r, j, k) <==> Awaits(c, o, j, k)
      ensures Precedes(c, r, j, k) <==> Precedes(c, o, j, k)
    {
    }
  }

  /** The migration loses no watermark, whatever the watermarks are, exactly when no row is merged into a
      later row that is itself merged. */
  lemma LosslessExactlyIf(c: Canon, o: Table, order: seq<Id>)
    requires ToReddit(c) && WellWritten(o) && Unique(o) && ScanOf(o, order)
    ensures (forall marks :: LosslessWith(c, o, order, marks)) <==> NoLeak(c, o)
  {
    if NoLeak(c, o) {
      forall marks
        ensures LosslessWith(c, o, order, marks)
      {
        var r := Remarked(o, marks);
        RemarkedIsAlike(c, o, order, marks);
        forall i, j
          ensures !Leaks(c, r, i, j)
        {
          RemarkedMergesAlike(c, o, marks, i, j);
        }
        MigrateLosesNone(c, r, order);
      }
    } else {
      var i, j :| Leaks(c, o, i, j);
      LeakLoses(c, o, order, i, j);
    }
  }

  lemma LeakLoses(c: Canon, o: Table, order: seq<Id>, i: Id, j: Id)
    requires ToReddit(c) && WellWritten(o) && Unique(o) && ScanOf(o, order) && Leaks(c, o, i, j)
    ensures !LosslessWith(c, o, order, k => if k == i then Some(0) else None)
  {
    var marks: Id -> Option<int> := k => if k == i then Some(0) else None;
    var r := Remarked(o, marks);
    RemarkedIsAlike(c, o, order, marks);
    RemarkedMergesAlike(c, o, marks, i, j);
    ProgressMovesToTheNextLink(c, r, order, i, j);
    MergedIsGone(c, r, order, j);
    var t := Migrate(c, r, r, order);
    forall k
      ensures !CarriesOn(c, r, t, i, k)
    {
    }
    assert !HasHeir(c, r, t, i);
  }
}
