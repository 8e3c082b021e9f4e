/**
 The loop of the slug migration (`apps/core/feeds/migrations/0002_lowercase_reddit_subreddit_slugs.py`).

 The table is keyed by row id, and the loop goes over a snapshot of the Reddit rows in id order while
 it rewrites and deletes rows. How a spec is normalised is a parameter here; module `SlugMigration`
 supplies it. SHA-256 of the sorted-key JSON of a spec is taken to be injective: a `Hash` is built from
 its spec. Watermarks are integers, NULL is `None`.
 */
module SlugTable {
  import opened Options

  type Id = nat

  /** A stored spec: its kind, its slug if it has one, and its other JSON fields. */
  datatype Spec = Spec(kind: string, slug: Option<string>, other: map<string, string>)

  datatype Hash = Sha256(spec: Spec)

  datatype Row = Row(account: string, feed: string, kind: string, spec: Spec, hash: Hash, mark: Option<int>)

  type Table = map<Id, Row>

  const REDDIT := "reddit_subreddit"

  /** Maps a stored spec to the one it is rewritten to. */
  type Canon = Spec -> Spec

  // ---------------------------------------------------------------------------------------
  // One row
  // ---------------------------------------------------------------------------------------

  /** Normalising once is enough. */
  predicate Steady(c: Canon, spec: Spec) {
    c(c(spec)) == c(spec)
  }

  /** Normal specs are those of subreddits. */
  ghost predicate ToReddit(c: Canon) {
    forall spec :: c(spec).kind == REDDIT
  }

  predicate Canonical(c: Canon, row: Row) {
    row.spec == c(row.spec) && row.hash == Sha256(row.spec)
  }

  /** The other rows of the account and feed that already have the hash the row is about to get. */
  function Survivors(c: Canon, t: Table, id: Id, row: Row): set<Id> {
    set s | s in t && s != id && t[s].account == row.account && t[s].feed == row.feed
            && t[s].hash == Sha256(c(row.spec))
  }

  predicate Lowest(ids: set<Id>, m: Id) {
    m in ids && forall i :: i in ids ==> m <= i
  }

  lemma LowestExists(ids: set<Id>)
    requires ids != {}
    ensures exists m :: Lowest(ids, m)
    decreases |ids|
  {
    var i :| i in ids;
    var rest := ids - {i};
    if rest != {} {
      LowestExists(rest);
      var m :| Lowest(rest, m);
      assert forall j :: j in ids ==> j == i || j in rest;
      assert Lowest(ids, if i < m then i else m);
    } else {
      assert forall j :: j in ids ==> j == i by {
        assert forall j :: j in ids ==> j in rest || j == i;
      }
      assert Lowest(ids, i);
    }
  }

  function First(ids: set<Id>): (m: Id)
    requires ids != {}
    ensures Lowest(ids, m)
  {
    LowestExists(ids);
    var m :| Lowest(ids, m);
    m
  }

  /** Watermark `a` has got further than `b`; NULL has got nowhere. */
  predicate Further(a: Option<int>, b: Option<int>) {
    a.Some? && (b.None? || a.value > b.value)
  }

  /** Row `id` dropped in favour of `s`, which takes over the watermark if it is further. */
  function Merged(t: Table, id: Id, s: Id, mark: Option<int>): Table
    requires s in t
  {
    (if Further(mark, t[s].mark) then t[s := t[s].(mark := mark)] else t) - {id}
  }

  /** What the loop does for one row of the snapshot: skip it, merge it into a survivor, or rewrite it. */
  function StepRow(c: Canon, t: Table, id: Id, row: Row): Table {
    if id !in t || Canonical(c, row) then t
    else
      var survivors := Survivors(c, t, id, row);
      if survivors != {} then
        Merged(t, id, First(survivors), row.mark)
      else t[id := t[id].(spec := c(row.spec), hash := Sha256(c(row.spec)))]
  }

  /** The loop over the ids of a snapshot `o`. */
  function Migrate(c: Canon, o: Table, t: Table, order: seq<Id>): Table
    requires forall i :: i in order ==> i in o
    decreases |order|
  {
    if order == [] then t
    else
      var done := order[..|order| - 1];
      StepRow(c, Migrate(c, o, t, done), order[|order| - 1], o[order[|order| - 1]])
  }

  /** The snapshot query: the Reddit rows in id order. */
  ghost predicate ScanOf(t: Table, order: seq<Id>) {
    && (forall i, j :: 0 <= i < j < |order| ==> order[i] < order[j])
    && (forall i :: i in order <==> i in t && t[i].kind == REDDIT)
  }

  class Sources {
    var rows: Table

    constructor (rows: Table)
      ensures this.rows == rows
    {
      this.rows := rows;
    }

    /** `_normalize_reddit_slugs`. */
    method NormalizeRedditSlugs(c: Canon, order: seq<Id>)
      requires ScanOf(rows, order)
      modifies this
      ensures rows == Migrate(c, old(rows), old(rows), order)
    {
      var snapshot := rows;
      for n := 0 to |order|
        invariant rows == Migrate(c, snapshot, snapshot, order[..n])
      {
        assert order[..n + 1][..n] == order[..n];
        var id := order[n];
        var row := snapshot[id];
        if id in rows && !Canonical(c, row) {
          var spec := c(row.spec);
          var survivors := Survivors(c, rows, id, row);
          if survivors != {} {
            var s := First(survivors);
            if Further(row.mark, rows[s].mark) {
              rows := rows[s := rows[s].(mark := row.mark)];
            }
            rows := rows - {id};
          } else {
            rows := rows[id := rows[id].(spec := spec, hash := Sha256(spec))];
          }
        }
      }
      assert order[..|order|] == order;
    }
  }

  // ---------------------------------------------------------------------------------------
  // What every run keeps
  // ---------------------------------------------------------------------------------------

  /** The database's unique constraint. */
  predicate Unique(t: Table) {
    forall i, j | i in t && j in t && i != j ::
      t[i].account != t[j].account || t[i].feed != t[j].feed || t[i].hash != t[j].hash
  }

  /** Rows are written with the hash and the kind of their spec. */
  predicate WellWritten(t: Table) {
    forall i :: i in t ==> t[i].hash == Sha256(t[i].spec) && t[i].kind == t[i].spec.kind
  }

  /** Row `i` as it must look: rewritten once its turn is over, with only its watermark free to move. */
  predicate Looks(c: Canon, o: Table, t: Table, i: Id, processed: bool)
    requires i in o && i in t
  {
    var spec := if processed && o[i].kind == REDDIT then c(o[i].spec) else o[i].spec;
    && t[i].account == o[i].account && t[i].feed == o[i].feed && t[i].kind == o[i].kind
    && t[i].spec == spec && t[i].hash == Sha256(spec)
    && (o[i].kind != REDDIT ==> t[i] == o[i])
  }

  /** The state of the loop after the rows in `done`. */
  ghost predicate Halfway(c: Canon, o: Table, t: Table, done: set<Id>) {
    && Unique(t)
    && t.Keys <= o.Keys
    && (forall i :: i in o && (i !in done || o[i].kind != REDDIT) ==> i in t)
    && (forall i :: i in t ==> Looks(c, o, t, i, i in done))
  }

  lemma MergeKeepsHalfway(c: Canon, o: Table, t: Table, done: set<Id>, id: Id, s: Id)
    requires ToReddit(c) && WellWritten(o) && Halfway(c, o, t, done)
    requires id in o && id in t && o[id].kind == REDDIT && s in Survivors(c, t, id, o[id])
    ensures Halfway(c, o, Merged(t, id, s, o[id].mark), done + {id})
  {
    var t' := Merged(t, id, s, o[id].mark);
    assert Looks(c, o, t, s, s in done);
    assert t[s].spec == c(o[id].spec);
    assert t'.Keys == t.Keys - {id};
    forall i | i in t' ensures Looks(c, o, t', i, i in done + {id}) {
      assert Looks(c, o, t, i, i in done);
    }
  }

  lemma RewriteKeepsHalfway(c: Canon, o: Table, t: Table, done: set<Id>, id: Id)
    requires WellWritten(o) && Halfway(c, o, t, done)
    requires id in o && id in t && o[id].kind == REDDIT && id !in done && Survivors(c, t, id, o[id]) == {}
    ensures Halfway(c, o, t[id := t[id].(spec := c(o[id].spec), hash := Sha256(c(o[id].spec)))], done + {id})
  {
    var t' := t[id := t[id].(spec := c(o[id].spec), hash := Sha256(c(o[id].spec)))];
    assert Looks(c, o, t, id, false);
    assert forall j :: j in t && j != id ==> j !in Survivors(c, t, id, o[id]);
    forall i | i in t' ensures Looks(c, o, t', i, i in done + {id}) {
      assert Looks(c, o, t, i, i in done);
    }
  }

  lemma SkipKeepsHalfway(c: Canon, o: Table, t: Table, done: set<Id>, id: Id)
    requires Halfway(c, o, t, done) && id in o && id in t && id !in done && Canonical(c, o[id])
    ensures Halfway(c, o, t, done + {id})
  {
    forall i | i in t ensures Looks(c, o, t, i, i in done + {id}) {
      assert Looks(c, o, t, i, i in done);
    }
  }

  lemma StepKeepsHalfway(c: Canon, o: Table, t: Table, done: set<Id>, id: Id)
    requires ToReddit(c) && WellWritten(o) && Halfway(c, o, t, done)
    requires id in o && o[id].kind == REDDIT && id !in done
    ensures Halfway(c, o, StepRow(c, t, id, o[id]), done + {id})
  {
    if Canonical(c, o[id]) {
      SkipKeepsHalfway(c, o, t, done, id);
    } else if Survivors(c, t, id, o[id]) != {} {
      MergeKeepsHalfway(c, o, t, done, id, First(Survivors(c, t, id, o[id])));
    } else {
      RewriteKeepsHalfway(c, o, t, done, id);
    }
  }

  function Ids(order: seq<Id>): set<Id> {
    set i | i in order
  }

  /** An ascending list of Reddit rows. */
  ghost predicate Scan(o: Table, order: seq<Id>) {
    && (forall i :: i in order ==> i in o && o[i].kind == REDDIT)
    && (forall i, j :: 0 <= i < j < |order| ==> order[i] < order[j])
  }

  lemma ScanSnoc(o: Table, order: seq<Id>)
    requires Scan(o, order) && order != []
    ensures var done, id := order[..|order| - 1], order[|order| - 1];
            && Scan(o, done) && id in o && o[id].kind == REDDIT
            && Ids(order) == Ids(done) + {id}
            && forall i :: i in Ids(done) ==> i < id
  {
    var done, id := order[..|order| - 1], order[|order| - 1];
    assert order == done + [id];
    assert forall i :: i in order <==> i in done || i == id;
  }

  lemma {:induction false} MigrateKeepsHalfway(c: Canon, o: Table, order: seq<Id>)
    requires ToReddit(c) && WellWritten(o) && Unique(o) && Scan(o, order)
    ensures Halfway(c, o, Migrate(c, o, o, order), Ids(order))
    decreases |order|
  {
    if order == [] {
      assert forall i :: i in o ==> Looks(c, o, o, i, false);
    } else {
      var done := order[..|order| - 1];
      ScanSnoc(o, order);
      MigrateKeepsHalfway(c, o, done);
      StepKeepsHalfway(c, o, Migrate(c, o, o, done), Ids(done), order[|order| - 1]);
    }
  }

  /** At every moment of the loop, for any table whatever its slugs: the unique constraint holds, other
      rows are untouched, and a Reddit row changes nothing but its spec, hash and watermark. */
  lemma UniqueAllAlong(c: Canon, o: Table, order: seq<Id>, n: nat)
    requires ToReddit(c) && WellWritten(o) && Unique(o) && ScanOf(o, order) && n <= |order|
    ensures forall i :: i in order[..n] ==> i in o
    ensures var t := Migrate(c, o, o, order[..n]);
            && Unique(t) && WellWritten(t)
            && (forall i :: i in o && o[i].kind != REDDIT ==> i in t && t[i] == o[i])
            && (forall i :: i in t ==> i in o && t[i].(spec := o[i].spec, hash := o[i].hash, mark := o[i].mark) == o[i])
  {
    var done := order[..n];
    assert forall i :: i in done ==> i in order;
    MigrateKeepsHalfway(c, o, done);
    var t := Migrate(c, o, o, done);
    forall i | i in t
      ensures t[i].hash == Sha256(t[i].spec) && t[i].kind == t[i].spec.kind
      ensures t[i].(spec := o[i].spec, hash := o[i].hash, mark := o[i].mark) == o[i]
    {
      assert Looks(c, o, t, i, i in Ids(done));
    }
    forall i | i in o && o[i].kind != REDDIT ensures i in t && t[i] == o[i] {
      assert i !in Ids(done);
      assert Looks(c, o, t, i, i in Ids(done));
    }
  }

  // ---------------------------------------------------------------------------------------
  // Running it twice
  // ---------------------------------------------------------------------------------------

  lemma {:induction false} NothingToDo(c: Canon, o: Table, order: seq<Id>)
    requires forall i :: i in order ==> i in o && Canonical(c, o[i])
    ensures Migrate(c, o, o, order) == o
    decreases |order|
  {
    if order != [] {
      assert forall i :: i in order[..|order| - 1] ==> i in order;
      NothingToDo(c, o, order[..|order| - 1]);
    }
  }

  /** A second run does nothing exactly when every row left had a spec that settles in one pass. */
  lemma SecondRunByWhatIsLeft(c: Canon, o: Table, order: seq<Id>, again: seq<Id>)
    requires ToReddit(c) && WellWritten(o) && Unique(o) && ScanOf(o, order)
    requires ScanOf(Migrate(c, o, o, order), again)
    ensures var t := Migrate(c, o, o, order);
            && (Migrate(c, t, t, again) == t <==>
                  forall i :: i in t && t[i].kind == REDDIT ==> i in o && Steady(c, o[i].spec))
  {
    var t := Migrate(c, o, o, order);
    MigrateKeepsHalfway(c, o, order);
    forall i | i in t && t[i].kind == REDDIT
      ensures i in o && (Canonical(c, t[i]) <==> Steady(c, o[i].spec))
    {
      assert Looks(c, o, t, i, i in Ids(order));
      assert i in Ids(order);
    }
    if forall i :: i in t && t[i].kind == REDDIT ==> Steady(c, o[i].spec) {
      NothingToDo(c, t, again);
    } else {
      var i :| i in t && t[i].kind == REDDIT && !Steady(c, o[i].spec);
      UniqueAllAlong(c, o, order, |order|);
      assert order[..|order|] == order;
      SomethingToDo(c, t, again, i);
    }
  }

  lemma SomethingToDo(c: Canon, t: Table, again: seq<Id>, i: Id)
    requires ToReddit(c) && WellWritten(t) && Unique(t) && ScanOf(t, again)
    requires i in t && t[i].kind == REDDIT && !Canonical(c, t[i])
    ensures Migrate(c, t, t, again) != t
  {
    var after := Migrate(c, t, t, again);
    MigrateKeepsHalfway(c, t, again);
    if i in after {
      assert Looks(c, t, after, i, i in Ids(again));
    }
  }

  // ---------------------------------------------------------------------------------------
  // One row per subreddit, with the furthest watermark
  // ---------------------------------------------------------------------------------------

  /** The rows that end up with the same account, feed and slug. */
  predicate SameClass(c: Canon, o: Table, i: Id, j: Id) {
    && i in o && j in o && o[i].kind == REDDIT && o[j].kind == REDDIT
    && o[i].account == o[j].account && o[i].feed == o[j].feed
    && c(o[i].spec) == c(o[j].spec)
  }

  /** Row `i` is going to get the spec that the later row `j` has now, and `j` is not going to keep it. */
  predicate Chained(c: Canon, o: Table, i: Id, j: Id) {
    && i in o && j in o && i < j && o[i].kind == REDDIT && o[j].kind == REDDIT
    && o[i].account == o[j].account && o[i].feed == o[j].feed
    && c(o[i].spec) == o[j].spec && o[j].spec != c(o[j].spec)
  }

  ghost predicate NoChain(c: Canon, o: Table) {
    forall i, j :: !Chained(c, o, i, j)
  }

  /** Specs that settle in one pass never chain. */
  lemma SteadyNeverChains(c: Canon, o: Table)
    requires forall i :: i in o && o[i].kind == REDDIT ==> Steady(c, o[i].spec)
    ensures NoChain(c, o)
  {
  }

  /** The scan has passed every Reddit row up to its last one. */
  ghost predicate Closed(o: Table, order: seq<Id>) {
    forall i, n :: 0 <= n < |order| && i in o && o[i].kind == REDDIT && i <= order[n] ==> i in order
  }

  lemma ClosedInit(o: Table, order: seq<Id>)
    requires Scan(o, order) && Closed(o, order) && order != []
    ensures Closed(o, order[..|order| - 1])
  {
    var done := order[..|order| - 1];
    forall i, n | 0 <= n < |done| && i in o && o[i].kind == REDDIT && i <= done[n]
      ensures i in done
    {
      assert i <= order[n] && i in order;
      var k :| 0 <= k < |order| && order[k] == i;
      assert k < |done| ==> done[k] == i;
    }
  }

  predicate AtLeast(a: Option<int>, b: Option<int>) {
    b.None? || (a.Some? && a.value >= b.value)
  }

  /** Row `k` is the deterministic survivor of its class: the one in canonical form from the start, or
      else the one with the lowest id. */
  ghost predicate Chosen(c: Canon, o: Table, k: Id) {
    && k in o && o[k].kind == REDDIT
    && (Canonical(c, o[k]) || forall i :: SameClass(c, o, i, k) ==> !Canonical(c, o[i]) && k <= i)
  }

  /** Row `j` of the table holds at least the progress row `i` had at the start. */
  predicate Holds(c: Canon, o: Table, t: Table, i: Id, j: Id) {
    j in t && SameClass(c, o, i, j) && AtLeast(t[j].mark, o[i].mark)
  }

  ghost predicate HasHolder(c: Canon, o: Table, t: Table, i: Id) {
    exists j :: Holds(c, o, t, i, j)
  }

  /** Progress is never lost within a class. */
  ghost predicate NoLoss(c: Canon, o: Table, t: Table) {
    forall i {:trigger HasHolder(c, o, t, i)} :: i in o && o[i].kind == REDDIT ==> HasHolder(c, o, t, i)
  }

  predicate From(c: Canon, o: Table, i: Id, j: Id, mark: Option<int>) {
    SameClass(c, o, i, j) && mark == o[i].mark
  }

  ghost predicate HasOrigin(c: Canon, o: Table, j: Id, mark: Option<int>) {
    exists i :: From(c, o, i, j, mark)
  }

  /** Nor is it invented. */
  ghost predicate Honest(c: Canon, o: Table, t: Table) {
    forall j {:trigger HasOrigin(c, o, j, t[j].mark)} :: j in t && j in o && o[j].kind == REDDIT ==>
      HasOrigin(c, o, j, t[j].mark)
  }

  /** Rows not yet treated are as they were, unless they are in canonical form. */
  ghost predicate Untouched(c: Canon, o: Table, t: Table, done: set<Id>) {
    forall i :: i in o && i in t && i !in done && !Canonical(c, o[i]) ==> t[i] == o[i]
  }

  ghost predicate ChosenStay(c: Canon, o: Table, t: Table) {
    forall k :: Chosen(c, o, k) ==> k in t
  }

  lemma SurvivorIsInClass(c: Canon, o: Table, t: Table, done: set<Id>, id: Id, s: Id)
    requires ToReddit(c) && WellWritten(o) && Halfway(c, o, t, done)
    requires id in o && o[id].kind == REDDIT && s in Survivors(c, t, id, o[id])
    requires forall i :: i in o && o[i].kind == REDDIT && i < id ==> i in done
    requires forall j :: !Chained(c, o, id, j)
    ensures SameClass(c, o, id, s)
    ensures s in done || Canonical(c, o[s])
  {
    assert Looks(c, o, t, s, s in done);
    assert !Chained(c, o, id, s);
  }

  lemma MergeLosesNothing(c: Canon, o: Table, t: Table, id: Id, s: Id)
    requires NoLoss(c, o, t) && id in t && id in o && t[id].mark == o[id].mark
    requires s in t && s != id && SameClass(c, o, id, s)
    ensures NoLoss(c, o, Merged(t, id, s, o[id].mark))
  {
    var t' := Merged(t, id, s, o[id].mark);
    forall i | i in o && o[i].kind == REDDIT ensures HasHolder(c, o, t', i) {
      assert HasHolder(c, o, t, i);
      var j :| Holds(c, o, t, i, j);
      assert Holds(c, o, t', i, if j == id then s else j);
    }
  }

  lemma MergeIsHonest(c: Canon, o: Table, t: Table, id: Id, s: Id)
    requires Honest(c, o, t) && s in t && SameClass(c, o, id, s)
    ensures Honest(c, o, Merged(t, id, s, o[id].mark))
  {
    var t' := Merged(t, id, s, o[id].mark);
    assert From(c, o, id, s, o[id].mark);
    forall j | j in t' && j in o && o[j].kind == REDDIT ensures HasOrigin(c, o, j, t'[j].mark) {
      if t'[j] == t[j] {
        assert HasOrigin(c, o, j, t[j].mark);
        var i :| From(c, o, i, j, t[j].mark);
        assert From(c, o, i, j, t'[j].mark);
      }
    }
  }

  /** A row about to be merged is not the chosen one: there is a canonical or an earlier one. */
  lemma MergedIsNotChosen(c: Canon, o: Table, done: set<Id>, id: Id, s: Id)
    requires SameClass(c, o, id, s) && s != id && !Canonical(c, o[id])
    requires s in done || Canonical(c, o[s])
    requires forall i :: i in done ==> i < id
    ensures !Chosen(c, o, id)
  {
    assert SameClass(c, o, s, id);
  }

  lemma MergeKeeps(c: Canon, o: Table, t: Table, done: set<Id>, id: Id)
    requires ToReddit(c) && WellWritten(o) && NoChain(c, o) && Halfway(c, o, t, done)
    requires forall i :: i in o && o[i].kind == REDDIT && i < id ==> i in done
    requires NoLoss(c, o, t) && Honest(c, o, t) && Untouched(c, o, t, done) && ChosenStay(c, o, t)
    requires id in o && o[id].kind == REDDIT && id !in done && !Canonical(c, o[id])
    requires forall i :: i in done ==> i < id
    requires Survivors(c, t, id, o[id]) != {}
    ensures var t' := StepRow(c, t, id, o[id]);
            NoLoss(c, o, t') && Honest(c, o, t') && Untouched(c, o, t', done + {id}) && ChosenStay(c, o, t')
  {
    var s := First(Survivors(c, t, id, o[id]));
    SurvivorIsInClass(c, o, t, done, id, s);
    MergeLosesNothing(c, o, t, id, s);
    MergeIsHonest(c, o, t, id, s);
    MergedIsNotChosen(c, o, done, id, s);
  }

  lemma RewriteKeeps(c: Canon, o: Table, t: Table, done: set<Id>, id: Id)
    requires NoLoss(c, o, t) && Honest(c, o, t) && Untouched(c, o, t, done) && ChosenStay(c, o, t)
    requires id in o && id in t && (Canonical(c, o[id]) || Survivors(c, t, id, o[id]) == {})
    ensures var t' := StepRow(c, t, id, o[id]);
            NoLoss(c, o, t') && Honest(c, o, t') && Untouched(c, o, t', done + {id}) && ChosenStay(c, o, t')
  {
    var t' := StepRow(c, t, id, o[id]);
    assert t'.Keys == t.Keys;
    assert forall i :: i in t ==> t'[i].mark == t[i].mark;
    forall i | i in o && o[i].kind == REDDIT ensures HasHolder(c, o, t', i) {
      assert HasHolder(c, o, t, i);
      var j :| Holds(c, o, t, i, j);
      assert Holds(c, o, t', i, j);
    }
    forall j | j in t' && j in o && o[j].kind == REDDIT ensures HasOrigin(c, o, j, t'[j].mark) {
      assert HasOrigin(c, o, j, t[j].mark);
    }
  }

  lemma StartKeeps(c: Canon, o: Table)
    ensures NoLoss(c, o, o) && Honest(c, o, o) && Untouched(c, o, o, {}) && ChosenStay(c, o, o)
  {
    forall i | i in o && o[i].kind == REDDIT
      ensures HasHolder(c, o, o, i) && HasOrigin(c, o, i, o[i].mark)
    {
      assert Holds(c, o, o, i, i) && From(c, o, i, i, o[i].mark);
    }
  }

  lemma {:induction false} MigrateKeeps(c: Canon, o: Table, order: seq<Id>)
    requires ToReddit(c) && WellWritten(o) && Unique(o) && NoChain(c, o) && Scan(o, order) && Closed(o, order)
    ensures var t := Migrate(c, o, o, order);
            NoLoss(c, o, t) && Honest(c, o, t) && Untouched(c, o, t, Ids(order)) && ChosenStay(c, o, t)
    decreases |order|
  {
    if order == [] {
      StartKeeps(c, o);
    } else {
      var done, id := order[..|order| - 1], order[|order| - 1];
      ScanSnoc(o, order);
      ClosedInit(o, order);
      MigrateKeepsHalfway(c, o, done);
      MigrateKeeps(c, o, done);
      forall i | i in o && o[i].kind == REDDIT && i < id
        ensures i in Ids(done)
      {
        assert i in Ids(order);
      }
      var t := Migrate(c, o, o, done);
      if Canonical(c, o[id]) || Survivors(c, t, id, o[id]) == {} {
        RewriteKeeps(c, o, t, Ids(done), id);
      } else {
        MergeKeeps(c, o, t, Ids(done), id);
      }
    }
  }

  /** Where no two rows chain, each subreddit of a feed ends with exactly one row. It is the chosen one, it
      is in canonical form, and it carries the furthest watermark of the rows it stands for. */
  lemma OneRowPerSubreddit(c: Canon, o: Table, order: seq<Id>, k: Id)
    requires ToReddit(c) && WellWritten(o) && Unique(o) && NoChain(c, o) && ScanOf(o, order)
    requires Chosen(c, o, k)
    ensures var t := Migrate(c, o, o, order);
            && (forall i :: i in t && SameClass(c, o, i, k) <==> i == k)
            && t[k].spec == c(o[k].spec) && t[k].hash == Sha256(t[k].spec)
            && (forall i :: SameClass(c, o, i, k) ==> AtLeast(t[k].mark, o[i].mark))
            && HasOrigin(c, o, k, t[k].mark)
  {
    MigrateKeepsHalfway(c, o, order);
    MigrateKeeps(c, o, order);
    var t := Migrate(c, o, o, order);
    assert k in t && Looks(c, o, t, k, true);
    OnlyOneLeft(c, o, t, Ids(order), k);
    assert HasOrigin(c, o, k, t[k].mark);
    forall i | SameClass(c, o, i, k) ensures AtLeast(t[k].mark, o[i].mark) {
      assert HasHolder(c, o, t, i);
      var j :| Holds(c, o, t, i, j);
      assert SameClass(c, o, j, k);
    }
  }

  lemma OnlyOneLeft(c: Canon, o: Table, t: Table, done: set<Id>, k: Id)
    requires Halfway(c, o, t, done) && k in t && k in o && o[k].kind == REDDIT
    requires forall i :: i in o && o[i].kind == REDDIT ==> i in done
    ensures forall i :: i in t && SameClass(c, o, i, k) <==> i == k
  {
    assert Looks(c, o, t, k, true);
    forall i | i in t && SameClass(c, o, i, k) ensures i == k {
      assert Looks(c, o, t, i, true);
    }
  }

  /** Every Reddit row belongs to a class with a chosen row. */
  lemma EveryClassHasAChosenRow(c: Canon, o: Table, i: Id)
    requires i in o && o[i].kind == REDDIT
    ensures exists k :: Chosen(c, o, k) && SameClass(c, o, i, k)
  {
    if j :| SameClass(c, o, j, i) && Canonical(c, o[j]) {
      assert Chosen(c, o, j) && SameClass(c, o, i, j);
    } else {
      var members := set j | j in o && SameClass(c, o, j, i);
      assert SameClass(c, o, i, i) && i in members;
      var k := First(members);
      assert SameClass(c, o, k, i);
      forall j | SameClass(c, o, j, k) ensures !Canonical(c, o[j]) && k <= j {
        assert SameClass(c, o, j, i) && j in members;
      }
      assert Chosen(c, o, k) && SameClass(c, o, i, k);
    }
  }

  // ---------------------------------------------------------------------------------------
  // When every class keeps a row with its progress
  // ---------------------------------------------------------------------------------------

  /** The table with other watermarks. */
  function Remarked(o: Table, marks: Id -> Option<int>): Table {
    map i | i in o :: o[i].(mark := marks(i))
  }

  ghost predicate SafeWith(c: Canon, o: Table, order: seq<Id>, marks: Id -> Option<int>)
    requires ScanOf(o, order)
  {
    NoLoss(c, Remarked(o, marks), Migrate(c, Remarked(o, marks), Remarked(o, marks), order))
  }

  lemma RemarkedIsAlike(c: Canon, o: Table, order: seq<Id>, marks: Id -> Option<int>)
    requires WellWritten(o) && Unique(o) && ScanOf(o, order)
    ensures var r := Remarked(o, marks);
            && WellWritten(r) && Unique(r) && ScanOf(r, order) && Scan(r, order) && Closed(r, order)
            && forall i, j :: Chained(c, r, i, j) <==> Chained(c, o, i, j)
  {
  }

  /** Only row `i` has made progress; before its turn it holds it, after its turn only `j` may. */
  ghost predicate OnlyProgress(t: Table, i: Id, j: Id, passed: bool) {
    && (!passed ==> i in t && t[i].mark == Some(0) && forall k :: k in t && k != i ==> t[k].mark == None)
    && (passed ==> i !in t && forall k :: k in t && k != j ==> t[k].mark == None)
  }

  lemma {:induction false} ProgressMovesToTheNextLink(c: Canon, o: Table, order: seq<Id>, i: Id, j: Id)
    requires ToReddit(c) && WellWritten(o) && Unique(o) && Scan(o, order)
    requires Chained(c, o, i, j) && OnlyProgress(o, i, j, false)
    ensures OnlyProgress(Migrate(c, o, o, order), i, j, i in order)
    decreases |order|
  {
    if order != [] {
      var done, id := order[..|order| - 1], order[|order| - 1];
      ScanSnoc(o, order);
      assert order == done + [id];
      MigrateKeepsHalfway(c, o, done);
      ProgressMovesToTheNextLink(c, o, done, i, j);
      var t := Migrate(c, o, o, done);
      if id == i {
        LinkIsTheSurvivor(c, o, t, Ids(done), i, j);
      } else {
        OthersMoveNoProgress(c, o, t, id, i, j, i in done);
      }
    }
  }

  /** A row without progress leaves the watermarks where they are. */
  lemma OthersMoveNoProgress(c: Canon, o: Table, t: Table, id: Id, i: Id, j: Id, passed: bool)
    requires id in o && id != i && o[id].mark == None && OnlyProgress(t, i, j, passed)
    ensures OnlyProgress(StepRow(c, t, id, o[id]), i, j, passed)
  {
    var t' := StepRow(c, t, id, o[id]);
    assert forall k :: k in t' <==> k in t && (k != id || id in t');
    assert forall k :: k in t' ==> t'[k].mark == t[k].mark;
  }

  /** At its turn row `i` finds row `j`, and no other, with its hash to be. */
  lemma LinkIsTheSurvivor(c: Canon, o: Table, t: Table, done: set<Id>, i: Id, j: Id)
    requires WellWritten(o) && Unique(o) && Halfway(c, o, t, done)
    requires Chained(c, o, i, j) && i in t && forall k :: k in done ==> k < i
    ensures !Canonical(c, o[i])
    ensures Survivors(c, t, i, o[i]) == {j}
  {
    assert j in t && Looks(c, o, t, j, false);
    assert j in Survivors(c, t, i, o[i]);
  }

  /** Every one-pass class keeps a row that holds its progress, whatever the watermarks are, exactly when no
      two rows chain. */
  lemma ClassesKeepTheirProgressIff(c: Canon, o: Table, order: seq<Id>)
    requires ToReddit(c) && WellWritten(o) && Unique(o) && ScanOf(o, order)
    ensures (forall marks :: SafeWith(c, o, order, marks)) <==> NoChain(c, o)
  {
    if NoChain(c, o) {
      forall marks
        ensures SafeWith(c, o, order, marks)
      {
        RemarkedIsAlike(c, o, order, marks);
        MigrateKeeps(c, Remarked(o, marks), order);
      }
    } else {
      var i, j :| Chained(c, o, i, j);
      ChainLosesProgress(c, o, order, i, j);
    }
  }

  lemma ChainLosesProgress(c: Canon, o: Table, order: seq<Id>, i: Id, j: Id)
    requires ToReddit(c) && WellWritten(o) && Unique(o) && ScanOf(o, order) && Chained(c, o, i, j)
    ensures !SafeWith(c, o, order, k => if k == i then Some(0) else None)
  {
    var marks: Id -> Option<int> := k => if k == i then Some(0) else None;
    var r := Remarked(o, marks);
    RemarkedIsAlike(c, o, order, marks);
    assert Chained(c, r, i, j);
    ProgressMovesToTheNextLink(c, r, order, i, j);
    var t := Migrate(c, r, r, order);
    forall k
      ensures !Holds(c, r, t, i, k)
    {
    }
    assert !HasHolder(c, r, t, i);
  }

  /** An instance: with a spec that takes two passes to settle, a row merges into one that is itself about
      to merge, from a snapshot that predates the first merge, and its progress is gone altogether. */
  lemma UnsteadySpecLosesProgress(c: Canon, x: Spec, y: Spec, z: Spec)
    requires x.kind == y.kind == z.kind == REDDIT && x != y && y != z && x != z
    requires c(x) == y && c(y) == z && c(z) == z
    ensures var o: Table := map[1 := Row("a", "f", REDDIT, x, Sha256(x), Some(10)),
                                2 := Row("a", "f", REDDIT, y, Sha256(y), Some(5)),
                                3 := Row("a", "f", REDDIT, z, Sha256(z), Some(1))];
            Migrate(c, o, o, [1, 2, 3]) == map[3 := Row("a", "f", REDDIT, z, Sha256(z), Some(5))]
  {
    var o: Table := map[1 := Row("a", "f", REDDIT, x, Sha256(x), Some(10)),
                        2 := Row("a", "f", REDDIT, y, Sha256(y), Some(5)),
                        3 := Row("a", "f", REDDIT, z, Sha256(z), Some(1))];
    assert [1, 2, 3][..2] == [1, 2] && [1, 2][..1] == [1] && [1][..0] == [];
    var t1 := Migrate(c, o, o, [1]);
    assert Survivors(c, o, 1, o[1]) == {2};
    assert t1 == map[2 := o[2].(mark := Some(10)), 3 := o[3]];
    var t2 := Migrate(c, o, o, [1, 2]);
    assert Survivors(c, t1, 2, o[2]) == {3};
    assert t2 == map[3 := o[3].(mark := Some(5))];
  }
}
