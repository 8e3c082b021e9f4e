/**
 The waitlist (`apps/core/waitlist/services/waitlist.py`): a public sign-up form posted any number of
 times, one row per address, one welcome email per row, and a vote that behaves as a set.
 */
module Waitlist {
  import opened Text
  import MailQueue

  /** The values of `WaitlistSourceInterest` in their declared order, and any other string. */
  datatype Vote = LinkedIn | Slack | X | Bluesky | Mastodon | GitHub | Other | Unlisted(value: string)

  const SOURCES: seq<Vote> := [LinkedIn, Slack, X, Bluesky, Mastodon, GitHub, Other]

  /** The sort key; strings outside the enum all share the last place. */
  function Rank(v: Vote): nat {
    match v
    case LinkedIn => 0
    case Slack => 1
    case X => 2
    case Bluesky => 3
    case Mastodon => 4
    case GitHub => 5
    case Other => 6
    case Unlisted(_) => 7
  }

  // ---------------------------------------------------------------------------------------
  // The canonical vote
  // ---------------------------------------------------------------------------------------

  /** Puts `v` behind everything that does not rank above it, as a stable sort does. */
  function Insert(s: seq<Vote>, v: Vote): seq<Vote> {
    if s == [] || Rank(s[|s| - 1]) <= Rank(v) then s + [v]
    else Insert(s[..|s| - 1], v) + [s[|s| - 1]]
  }

  /** `_canonical`, given the order in which the set of votes happens to iterate. */
  function Canonical(order: seq<Vote>): seq<Vote> {
    if order == [] then [] else Insert(Canonical(order[..|order| - 1]), order[|order| - 1])
  }

  function Elements(s: seq<Vote>): set<Vote> {
    set v | v in s
  }

  ghost predicate Distinct(s: seq<Vote>) {
    forall i, j :: 0 <= i < j < |s| ==> s[i] != s[j]
  }

  /** `order` is one way a set with these elements can iterate. */
  ghost predicate Iterates(order: seq<Vote>, votes: set<Vote>) {
    Distinct(order) && Elements(order) == votes
  }

  ghost predicate Ascending(s: seq<Vote>) {
    forall i, j :: 0 <= i < j < |s| ==> Rank(s[i]) <= Rank(s[j])
  }

  ghost predicate StrictlyAscending(s: seq<Vote>) {
    forall i, j :: 0 <= i < j < |s| ==> Rank(s[i]) < Rank(s[j])
  }

  lemma ElementsSnoc(s: seq<Vote>, v: Vote)
    ensures Elements(s + [v]) == Elements(s) + {v}
  {
  }

  lemma {:induction false} InsertElements(s: seq<Vote>, v: Vote)
    ensures Elements(Insert(s, v)) == Elements(s) + {v}
  {
    if s == [] || Rank(s[|s| - 1]) <= Rank(v) {
      ElementsSnoc(s, v);
    } else {
      var init, last := s[..|s| - 1], s[|s| - 1];
      InsertElements(init, v);
      ElementsSnoc(Insert(init, v), last);
      ElementsSnoc(init, last);
      assert s == init + [last];
    }
  }

  lemma {:induction false} InsertAscends(s: seq<Vote>, v: Vote)
    requires Ascending(s)
    ensures Ascending(Insert(s, v))
  {
    if s != [] && Rank(s[|s| - 1]) > Rank(v) {
      var init, last := s[..|s| - 1], s[|s| - 1];
      InsertAscends(init, v);
      InsertElements(init, v);
      var r := Insert(init, v);
      forall i | 0 <= i < |r|
        ensures Rank(r[i]) <= Rank(last)
      {
        assert r[i] in Elements(init) + {v};
      }
    }
  }

  lemma {:induction false} InsertDistinct(s: seq<Vote>, v: Vote)
    requires Distinct(s) && v !in s
    ensures Distinct(Insert(s, v))
  {
    if s != [] && Rank(s[|s| - 1]) > Rank(v) {
      var init, last := s[..|s| - 1], s[|s| - 1];
      InsertDistinct(init, v);
      InsertElements(init, v);
      var r := Insert(init, v);
      forall i | 0 <= i < |r|
        ensures r[i] != last
      {
        assert r[i] in Elements(init) + {v};
      }
    }
  }

  lemma {:induction false} CanonicalElements(order: seq<Vote>)
    ensures Elements(Canonical(order)) == Elements(order)
    ensures Other in Canonical(order) <==> Other in order
  {
    if order != [] {
      var init, last := order[..|order| - 1], order[|order| - 1];
      CanonicalElements(init);
      ElementsSnoc(init, last);
      InsertElements(Canonical(init), last);
      assert order == init + [last];
    }
    assert Other in Elements(Canonical(order)) <==> Other in Elements(order);
  }

  /** Canonicalising sorts by rank and keeps exactly the votes cast. */
  lemma {:induction false} CanonicalSorts(order: seq<Vote>)
    requires Distinct(order)
    ensures Ascending(Canonical(order)) && Distinct(Canonical(order))
    ensures Elements(Canonical(order)) == Elements(order)
  {
    if order != [] {
      var init, last := order[..|order| - 1], order[|order| - 1];
      CanonicalSorts(init);
      assert order == init + [last] && last !in init;
      assert last !in Elements(Canonical(init));
      ElementsSnoc(init, last);
      InsertElements(Canonical(init), last);
      InsertAscends(Canonical(init), last);
      InsertDistinct(Canonical(init), last);
    }
  }

  /** A strictly ascending sequence is determined by its elements. */
  lemma {:induction false} AscendingIsUnique(a: seq<Vote>, b: seq<Vote>)
    requires StrictlyAscending(a) && StrictlyAscending(b)
    requires Elements(a) == Elements(b)
    ensures a == b
  {
    assert |b| > 0 ==> b[0] in Elements(b);
    if a != [] {
      assert a[0] in Elements(b);
      var j :| 0 <= j < |b| && b[j] == a[0];
      assert b[0] in Elements(a);
      var i :| 0 <= i < |a| && a[i] == b[0];
      assert a[0] == b[0];
      forall v
        ensures v in Elements(a[1..]) <==> v in Elements(b[1..])
      {
        TailHas(a, v);
        TailHas(b, v);
      }
      AscendingIsUnique(a[1..], b[1..]);
      assert a == [a[0]] + a[1..] && b == [b[0]] + b[1..];
    }
  }

  lemma TailHas(s: seq<Vote>, v: Vote)
    requires StrictlyAscending(s) && s != []
    ensures v in Elements(s[1..]) <==> v in Elements(s) && v != s[0]
  {
    if v in s && v != s[0] {
      var i :| 0 <= i < |s| && s[i] == v;
      assert s[1..][i - 1] == v;
    }
  }

  ghost predicate AtMostOneUnlisted(votes: set<Vote>) {
    forall u, w :: u in votes && w in votes && u.Unlisted? && w.Unlisted? ==> u == w
  }

  lemma CanonicalIsStrict(order: seq<Vote>)
    requires Distinct(order) && AtMostOneUnlisted(Elements(order))
    ensures StrictlyAscending(Canonical(order))
  {
    CanonicalSorts(order);
    var s := Canonical(order);
    forall i, j | 0 <= i < j < |s|
      ensures Rank(s[i]) < Rank(s[j])
    {
      assert s[i] in Elements(s) && s[j] in Elements(s);
      RankTies(s[i], s[j]);
    }
  }

  lemma RankTies(u: Vote, w: Vote)
    ensures Rank(u) == Rank(w) <==> u == w || (u.Unlisted? && w.Unlisted?)
  {
  }

  function Unlisteds(s: seq<Vote>): seq<Vote> {
    if s == [] then []
    else Unlisteds(s[..|s| - 1]) + (if s[|s| - 1].Unlisted? then [s[|s| - 1]] else [])
  }

  lemma {:induction false} InsertIsStable(s: seq<Vote>, v: Vote)
    ensures Unlisteds(Insert(s, v)) == Unlisteds(s) + (if v.Unlisted? then [v] else [])
  {
    if s == [] || Rank(s[|s| - 1]) <= Rank(v) {
      assert (s + [v])[..|s|] == s;
    } else {
      var init, last := s[..|s| - 1], s[|s| - 1];
      InsertIsStable(init, v);
      assert (Insert(init, v) + [last])[..|Insert(init, v)|] == Insert(init, v);
    }
  }

  /** Strings outside the enum keep the set's iteration order. */
  lemma {:induction false} CanonicalIsStable(order: seq<Vote>)
    ensures Unlisteds(Canonical(order)) == Unlisteds(order)
  {
    if order != [] {
      CanonicalIsStable(order[..|order| - 1]);
      InsertIsStable(Canonical(order[..|order| - 1]), order[|order| - 1]);
    }
  }

  ghost predicate DependsOnlyOnTheSet(votes: set<Vote>) {
    forall a, b :: Iterates(a, votes) && Iterates(b, votes) ==> Canonical(a) == Canonical(b)
  }

  ghost function Enumeration(votes: set<Vote>): (order: seq<Vote>)
    ensures Iterates(order, votes)
  {
    if votes == {} then []
    else
      var v :| v in votes;
      ElementsSnoc(Enumeration(votes - {v}), v);
      Enumeration(votes - {v}) + [v]
  }

  lemma SameSetSameVote(a: seq<Vote>, b: seq<Vote>)
    requires Distinct(a) && Distinct(b) && Elements(a) == Elements(b)
    requires AtMostOneUnlisted(Elements(a))
    ensures Canonical(a) == Canonical(b)
  {
    CanonicalSorts(a);
    CanonicalSorts(b);
    CanonicalIsStrict(a);
    CanonicalIsStrict(b);
    AscendingIsUnique(Canonical(a), Canonical(b));
  }

  lemma TwoUnlistedTwoOrders(votes: set<Vote>, u: Vote, w: Vote)
    requires u in votes && w in votes && u.Unlisted? && w.Unlisted? && u != w
    ensures !DependsOnlyOnTheSet(votes)
  {
    var rest := Enumeration(votes - {u, w});
    assert (votes - {u, w}) + {u, w} == votes == (votes - {u, w}) + {w, u};
    AppendTwo(rest, u, w);
    AppendTwo(rest, w, u);
    TwoOrders(rest, u, w);
    Refutes(votes, rest + [u, w], rest + [w, u]);
  }

  lemma Refutes(votes: set<Vote>, a: seq<Vote>, b: seq<Vote>)
    requires Iterates(a, votes) && Iterates(b, votes) && Canonical(a) != Canonical(b)
    ensures !DependsOnlyOnTheSet(votes)
  {
  }

  lemma AppendTwo(rest: seq<Vote>, u: Vote, w: Vote)
    requires Distinct(rest) && u !in Elements(rest) && w !in Elements(rest) && u != w
    ensures Distinct(rest + [u, w]) && Elements(rest + [u, w]) == Elements(rest) + {u, w}
  {
    ElementsSnoc(rest, u);
    ElementsSnoc(rest + [u], w);
    assert rest + [u, w] == rest + [u] + [w];
  }

  /** The vote is a set, whatever order the set iterates in, exactly when at most one string in it is
      outside the enum. */
  lemma SetSemanticsIff(votes: set<Vote>)
    ensures DependsOnlyOnTheSet(votes) <==> AtMostOneUnlisted(votes)
  {
    if AtMostOneUnlisted(votes) {
      forall a, b | Iterates(a, votes) && Iterates(b, votes)
        ensures Canonical(a) == Canonical(b)
      {
        SameSetSameVote(a, b);
      }
    } else {
      var u, w :| u in votes && w in votes && u.Unlisted? && w.Unlisted? && u != w;
      TwoUnlistedTwoOrders(votes, u, w);
    }
  }

  lemma TwoOrders(rest: seq<Vote>, u: Vote, w: Vote)
    requires u.Unlisted? && w.Unlisted? && u != w
    ensures Canonical(rest + [u, w]) != Canonical(rest + [w, u])
  {
    CanonicalIsStable(rest + [u, w]);
    CanonicalIsStable(rest + [w, u]);
    UnlistedsOfTwo(rest, u, w);
    UnlistedsOfTwo(rest, w, u);
    var n := |Unlisteds(rest)|;
    assert Unlisteds(rest + [u, w])[n] == u && Unlisteds(rest + [w, u])[n] == w;
  }

  lemma UnlistedsOfTwo(rest: seq<Vote>, u: Vote, w: Vote)
    requires u.Unlisted? && w.Unlisted?
    ensures Unlisteds(rest + [u, w]) == Unlisteds(rest) + [u, w]
  {
    assert (rest + [u, w])[..|rest| + 1] == rest + [u];
    assert (rest + [u])[..|rest|] == rest;
  }

  /** Canonicalising a canonical vote changes nothing, in whatever order it is read back. */
  lemma CanonicalIsIdempotent(order: seq<Vote>, again: seq<Vote>)
    requires Distinct(order) && AtMostOneUnlisted(Elements(order))
    requires Iterates(again, Elements(Canonical(order)))
    ensures Canonical(again) == Canonical(order)
  {
    CanonicalSorts(order);
    SameSetSameVote(again, order);
  }

  /** For votes of the enum the result is the enum's own sequence, filtered. */
  lemma CanonicalFollowsTheEnum(order: seq<Vote>, i: nat, j: nat)
    requires Distinct(order) && forall v :: v in order ==> !v.Unlisted?
    requires i < j < |SOURCES| && SOURCES[i] in order && SOURCES[j] in order
    ensures exists p, q :: 0 <= p < q < |Canonical(order)| && Canonical(order)[p] == SOURCES[i]
                           && Canonical(order)[q] == SOURCES[j]
  {
    CanonicalSorts(order);
    var s := Canonical(order);
    assert SOURCES[i] in Elements(s) && SOURCES[j] in Elements(s);
    var p :| 0 <= p < |s| && s[p] == SOURCES[i];
    var q :| 0 <= q < |s| && s[q] == SOURCES[j];
    assert Rank(SOURCES[i]) == i && Rank(SOURCES[j]) == j;
  }

  // ---------------------------------------------------------------------------------------
  // Signing up
  // ---------------------------------------------------------------------------------------

  /** `saves` counts the UPDATEs a row has had, and stands for `updated_at`. */
  datatype Entry = Entry(id: string, source: string, votes: seq<Vote>, other: string, saves: nat)

  /** One call: `order` is the order the set of its votes iterates in, `id` the key drawn for the row it
      may create, `at` the clock, and `dies` says the process stops right after the insert. */
  datatype Call = Call(email: string, source: string, order: seq<Vote>, other: string,
                       id: string, at: int, dies: bool)

  datatype Site = Site(rows: map<string, Entry>, mail: map<MailQueue.Key, MailQueue.Row>)

  const TEMPLATE: string := "waitlistWelcome"
  const SUBJECT: string := "You're on the OpenMagpie waitlist"
  const KEY_PREFIX: string := "waitlist-welcome:"
  const SITE_URL: string := "siteUrl"

  function Normalised(email: string): string {
    Lower(Strip(email))
  }

  function WelcomeKey(id: string): MailQueue.Key {
    KEY_PREFIX + id
  }

  function Welcome(email: string, siteUrl: string): MailQueue.Mail {
    MailQueue.Mail(email, TEMPLATE, SUBJECT, map[SITE_URL := siteUrl])
  }

  function OtherOf(call: Call): string {
    if Other in Canonical(call.order) then call.other else ""
  }

  function Created(call: Call): Entry {
    Entry(call.id, call.source, Canonical(call.order), OtherOf(call), 0)
  }

  function Voted(row: Entry, call: Call): Entry {
    var votes := Canonical(call.order);
    if votes != [] && (row.votes != votes || row.other != OtherOf(call))
    then row.(votes := votes, other := OtherOf(call), saves := row.saves + 1)
    else row
  }

  function Step(site: Site, call: Call, siteUrl: string): Site {
    var email := Normalised(call.email);
    if email in site.rows then
      Site(site.rows[email := Voted(site.rows[email], call)], site.mail)
    else
      var key := WelcomeKey(call.id);
      Site(site.rows[email := Created(call)],
           if call.dies || key in site.mail then site.mail
           else site.mail[key := MailQueue.FreshRow(Welcome(email, siteUrl), call.at)])
  }

  class WaitlistService {
    var rows: map<string, Entry>
    const mailer: MailQueue.Mailer
    const siteUrl: string

    constructor (mailer: MailQueue.Mailer, siteUrl: string)
      ensures rows == map[] && this.mailer == mailer && this.siteUrl == siteUrl
    {
      rows := map[];
      this.mailer := mailer;
      this.siteUrl := siteUrl;
    }

    method Signup(call: Call) returns (email: string, created: bool)
      requires !call.dies
      modifies this, mailer
      ensures email == Normalised(call.email) && (created <==> email !in old(rows))
      ensures Site(rows, mailer.rows) == Step(Site(old(rows), old(mailer.rows)), call, siteUrl)
    {
      email := Normalised(call.email);
      var votes := Canonical(call.order);
      var other := if Other in votes then call.other else "";
      created := email !in rows;
      if created {
        rows := rows[email := Entry(call.id, call.source, votes, other, 0)];
        var _ := mailer.Enqueue(WelcomeKey(call.id), Welcome(email, siteUrl), call.at);
      } else if votes != [] && (rows[email].votes != votes || rows[email].other != other) {
        rows := rows[email := rows[email].(votes := votes, other := other, saves := rows[email].saves + 1)];
      }
    }
  }

  // ---------------------------------------------------------------------------------------
  // Any sequence of sign-ups
  // ---------------------------------------------------------------------------------------

  function Run(calls: seq<Call>, siteUrl: string): Site {
    if calls == [] then Site(map[], map[])
    else Step(Run(calls[..|calls| - 1], siteUrl), calls[|calls| - 1], siteUrl)
  }

  /** The first call for an address, or -1. */
  function First(calls: seq<Call>, email: string): int {
    if calls == [] then -1
    else
      var n := |calls| - 1;
      var earlier := First(calls[..n], email);
      if earlier >= 0 then earlier else if Normalised(calls[n].email) == email then n else -1
  }

  /** The last call for an address that carries a vote, or -1. */
  function LastVote(calls: seq<Call>, email: string): int {
    if calls == [] then -1
    else
      var n := |calls| - 1;
      if Normalised(calls[n].email) == email && calls[n].order != [] then n else LastVote(calls[..n], email)
  }

  lemma {:induction false} FirstIsACall(calls: seq<Call>, email: string)
    ensures -1 <= First(calls, email) < |calls|
    ensures First(calls, email) >= 0 ==> Normalised(calls[First(calls, email)].email) == email
  {
    if calls != [] {
      FirstIsACall(calls[..|calls| - 1], email);
    }
  }

  lemma {:induction false} LastVoteIsACall(calls: seq<Call>, email: string)
    ensures -1 <= LastVote(calls, email) < |calls|
    ensures LastVote(calls, email) >= 0 ==> First(calls, email) >= 0
  {
    if calls != [] {
      LastVoteIsACall(calls[..|calls| - 1], email);
    }
  }

  lemma VoteIsEmptyIff(order: seq<Vote>)
    ensures Canonical(order) == [] <==> order == []
  {
  }

  ghost predicate RowAsFolded(calls: seq<Call>, row: Entry, email: string)
    requires First(calls, email) >= 0
  {
    FirstIsACall(calls, email);
    LastVoteIsACall(calls, email);
    var born, vote := calls[First(calls, email)], LastVote(calls, email);
    && row.id == born.id
    && row.source == born.source
    && row.votes == (if vote >= 0 then Canonical(calls[vote].order) else [])
    && row.other == (if vote >= 0 && Other in calls[vote].order then calls[vote].other else "")
  }

  /** Whatever is posted, there is a row for exactly the addresses seen. Its id and source are those of
      the first call, its vote and free text those of the last call that voted. */
  lemma {:induction false} RowsAreAFold(calls: seq<Call>, siteUrl: string, email: string)
    ensures email in Run(calls, siteUrl).rows <==> First(calls, email) >= 0
    ensures email in Run(calls, siteUrl).rows ==> RowAsFolded(calls, Run(calls, siteUrl).rows[email], email)
  {
    if calls != [] {
      var n := |calls| - 1;
      RowsAreAFold(calls[..n], siteUrl, email);
      FirstIsACall(calls[..n], email);
      LastVoteIsACall(calls[..n], email);
      VoteIsEmptyIff(calls[n].order);
      CanonicalElements(calls[n].order);
    }
  }

  /** Keys are drawn afresh: no two calls carry the same id. */
  ghost predicate DistinctIds(calls: seq<Call>) {
    forall i, j :: 0 <= i < j < |calls| ==> calls[i].id != calls[j].id
  }

  lemma NormalisedTwice(email: string)
    ensures Normalised(Normalised(email)) == Normalised(email)
  {
    LowerFacts(Strip(email));
    StripTrims(email);
    StripFixes(Normalised(email));
  }

  /** Spelling the address in other capitals or with white space around it makes no difference. */
  lemma SameAddress(p: string, x: string, q: string, p': string, y: string, q': string)
    requires Blank(p) && Blank(q) && Blank(p') && Blank(q') && Trimmed(x) && Trimmed(y)
    ensures Normalised(p + x + q) == Normalised(p' + y + q') <==> DifferOnlyInCase(x, y)
    ensures DifferOnlyInCase(Normalised(p + x + q), x)
    ensures forall c :: c in Normalised(p + x + q) ==> !('A' <= c <= 'Z')
  {
    StripDrops(p, x, q);
    StripDrops(p', y, q');
    LowerAgreesIff(x, y);
    LowerIs(x);
  }

  lemma WelcomeKeysDiffer(a: string, b: string)
    ensures WelcomeKey(a) == WelcomeKey(b) <==> a == b
  {
    assert (KEY_PREFIX + a)[|KEY_PREFIX|..] == a && (KEY_PREFIX + b)[|KEY_PREFIX|..] == b;
  }

  /** The email was queued for the row that call `i` created. */
  ghost predicate Births(calls: seq<Call>, i: int) {
    0 <= i < |calls| && First(calls, Normalised(calls[i].email)) == i
  }

  lemma BirthsInit(calls: seq<Call>, i: nat)
    requires i < |calls| - 1
    ensures Births(calls, i) <==> Births(calls[..|calls| - 1], i)
  {
    FirstIsACall(calls[..|calls| - 1], Normalised(calls[i].email));
  }

  /** Every queued welcome belongs to a row. */
  lemma {:induction false} WelcomesHaveRows(calls: seq<Call>, siteUrl: string, key: MailQueue.Key)
    requires key in Run(calls, siteUrl).mail
    ensures exists i :: Births(calls, i) && key == WelcomeKey(calls[i].id)
  {
    if calls != [] {
      var n := |calls| - 1;
      var init := calls[..n];
      if key in Run(init, siteUrl).mail {
        WelcomesHaveRows(init, siteUrl, key);
        var i :| Births(init, i) && key == WelcomeKey(init[i].id);
        BirthsInit(calls, i);
        assert calls[i] == init[i];
      } else {
        RowsAreAFold(init, siteUrl, Normalised(calls[n].email));
        FirstIsACall(init, Normalised(calls[n].email));
        assert Births(calls, n);
      }
    }
  }

  lemma KeyIsUnused(calls: seq<Call>, siteUrl: string)
    requires DistinctIds(calls) && calls != []
    ensures WelcomeKey(calls[|calls| - 1].id) !in Run(calls[..|calls| - 1], siteUrl).mail
  {
    var init, id := calls[..|calls| - 1], calls[|calls| - 1].id;
    if WelcomeKey(id) in Run(init, siteUrl).mail {
      WelcomesHaveRows(init, siteUrl, WelcomeKey(id));
      var j :| Births(init, j) && WelcomeKey(id) == WelcomeKey(init[j].id);
      WelcomeKeysDiffer(id, calls[j].id);
      assert false;
    }
  }

  /** What the queue holds for a row: its welcome, or nothing if the creating call died. */
  ghost predicate WelcomedAsLived(site: Site, call: Call, siteUrl: string) {
    var key := WelcomeKey(call.id);
    && (key in site.mail <==> !call.dies)
    && (key in site.mail ==>
          && site.mail[key].mail == MailQueue.Mail(Normalised(call.email), TEMPLATE, SUBJECT, map[SITE_URL := siteUrl])
          && site.mail[key].state == MailQueue.Pending && site.mail[key].attempts == 0
          && site.mail[key].scheduledAt == call.at)
  }

  lemma CreationWelcomes(site: Site, call: Call, siteUrl: string)
    requires Normalised(call.email) !in site.rows && WelcomeKey(call.id) !in site.mail
    ensures WelcomedAsLived(Step(site, call, siteUrl), call, siteUrl)
  {
    NormalisedTwice(call.email);
  }

  lemma LaterCallsKeepWelcomes(site: Site, call: Call, later: Call, siteUrl: string)
    requires WelcomedAsLived(site, call, siteUrl) && call.id != later.id
    ensures WelcomedAsLived(Step(site, later, siteUrl), call, siteUrl)
  {
    WelcomeKeysDiffer(call.id, later.id);
  }

  /** A row whose creating call lived to queue it has exactly one welcome, under the row's own key and to
      its own address, however often it is posted again; a row whose creating call died never gets one. */
  lemma {:induction false} OneWelcomePerRow(calls: seq<Call>, siteUrl: string, i: nat)
    requires DistinctIds(calls) && Births(calls, i)
    ensures WelcomedAsLived(Run(calls, siteUrl), calls[i], siteUrl)
  {
    var n := |calls| - 1;
    var init := calls[..n];
    if i < n {
      BirthsInit(calls, i);
      OneWelcomePerRow(init, siteUrl, i);
      LaterCallsKeepWelcomes(Run(init, siteUrl), calls[i], calls[n], siteUrl);
    } else {
      FirstIsACall(init, Normalised(calls[n].email));
      RowsAreAFold(init, siteUrl, Normalised(calls[n].email));
      KeyIsUnused(calls, siteUrl);
      CreationWelcomes(Run(init, siteUrl), calls[n], siteUrl);
    }
  }

  /** The address on a queued welcome is the row's, unchanged by the queue's own normalising. */
  lemma WelcomeAddress(email: string, siteUrl: string, at: int)
    ensures MailQueue.FreshRow(Welcome(Normalised(email), siteUrl), at).mail == Welcome(Normalised(email), siteUrl)
  {
    NormalisedTwice(email);
  }

  /** Posting again what is on record writes nothing, in whatever order the votes come. */
  lemma ResubmittingIsANoOp(site: Site, call: Call, again: Call, siteUrl: string)
    requires Distinct(call.order) && AtMostOneUnlisted(Elements(call.order))
    requires Iterates(again.order, Elements(call.order)) && again.other == call.other
    requires Normalised(again.email) == Normalised(call.email)
    ensures Step(Step(site, call, siteUrl), again, siteUrl) == Step(site, call, siteUrl)
  {
    SameSetSameVote(again.order, call.order);
    VoteIsEmptyIff(call.order);
    var once := Step(site, call, siteUrl);
    var email := Normalised(call.email);
    assert once.rows[email := once.rows[email]] == once.rows;
  }
}
