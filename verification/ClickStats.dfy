/** The batched roll-up `stats_for` (`apps/core/links/services/short_link.py`). */
module ClickStats {
  import opened ShortLinks
  import opened Sums

  /** ID_IN_CHUNK */
  const CHUNK: nat := 500

  /** UNKNOWN_COUNTRY */
  const UNKNOWN: string := "??"

  type Tally = map<string, nat>

  datatype Stats = Stats(total: nat, unique: nat, byCountry: Tally)

  /** A row of the by-country query. */
  datatype Group = Group(link: string, country: string, n: nat)

  // ---------------------------------------------------------------------------------------
  // What a link's statistics are
  // ---------------------------------------------------------------------------------------

  /** The clicks of one link. */
  function Of(rows: seq<Click>, link: string): seq<Click> {
    if rows == [] then []
    else Of(rows[..|rows| - 1], link) + (if rows[|rows| - 1].link == link then [rows[|rows| - 1]] else [])
  }

  function Count(clicks: seq<Click>, country: string): nat {
    if clicks == [] then 0
    else Count(clicks[..|clicks| - 1], country) + (if clicks[|clicks| - 1].country == country then 1 else 0)
  }

  /** The distinct visitors with an address. */
  function Visitors(clicks: seq<Click>): set<string> {
    set c | c in clicks && c.ip != "" :: c.ip
  }

  /** What is shown for a country code: clicks without one are shown as unknown, and when a client also
      sent the placeholder itself, the smaller of the two counts is what remains. */
  function Shown(clicks: seq<Click>, code: string): nat {
    var blank, placeholder := Count(clicks, ""), Count(clicks, UNKNOWN);
    if code == "" then 0
    else if code != UNKNOWN then Count(clicks, code)
    else if blank == 0 then placeholder
    else if placeholder == 0 || blank <= placeholder then blank
    else placeholder
  }

  function Codes(clicks: seq<Click>): set<string> {
    set c | c in clicks :: Label(c.country)
  }

  function Label(country: string): string {
    if country == "" then UNKNOWN else country
  }

  function StatsOf(rows: seq<Click>, link: string): Stats {
    var clicks := Of(rows, link);
    Stats(|clicks|, |Visitors(clicks)|, map code | code in Codes(clicks) :: Shown(clicks, code))
  }

  // ---------------------------------------------------------------------------------------
  // The queries
  // ---------------------------------------------------------------------------------------

  /** The by-country query for a chunk of ids: one group per link and country that occur together,
      largest first, groups of one size in any order. */
  ghost predicate Answers(rows: seq<Click>, chunk: seq<string>, groups: seq<Group>) {
    && (forall i :: 0 <= i < |groups| ==> GroupHolds(rows, chunk, groups[i]))
    && (forall i, j :: 0 <= i < j < |groups| ==>
          groups[i].n >= groups[j].n && (groups[i].link != groups[j].link || groups[i].country != groups[j].country))
    && (forall link, country :: link in chunk && Count(Of(rows, link), country) > 0 ==> Has(groups, link, country))
  }

  ghost predicate GroupHolds(rows: seq<Click>, chunk: seq<string>, g: Group) {
    g.link in chunk && g.n == Count(Of(rows, g.link), g.country) > 0
  }

  ghost predicate Has(groups: seq<Group>, link: string, country: string) {
    exists i :: 0 <= i < |groups| && groups[i].link == link && groups[i].country == country
  }

  // ---------------------------------------------------------------------------------------
  // Filling the dictionary
  // ---------------------------------------------------------------------------------------

  function Written(countries: map<string, Tally>, g: Group): map<string, Tally> {
    countries[g.link := (if g.link in countries then countries[g.link] else map[])[Label(g.country) := g.n]]
  }

  function WrittenAll(countries: map<string, Tally>, groups: seq<Group>): map<string, Tally> {
    if groups == [] then countries
    else Written(WrittenAll(countries, groups[..|groups| - 1]), groups[|groups| - 1])
  }

  function Lookup(countries: map<string, Tally>, link: string, code: string): nat {
    if link in countries && code in countries[link] then countries[link][code] else 0
  }

  /** The last group shown under this code, else what was there before. */
  function LastShown(groups: seq<Group>, link: string, code: string, before: nat): nat {
    if groups == [] then before
    else
      var last := groups[|groups| - 1];
      if last.link == link && Label(last.country) == code then last.n
      else LastShown(groups[..|groups| - 1], link, code, before)
  }

  lemma {:induction false} WrittenAllLooksUp(countries: map<string, Tally>, groups: seq<Group>, link: string,
                                             code: string)
    ensures Lookup(WrittenAll(countries, groups), link, code)
            == LastShown(groups, link, code, Lookup(countries, link, code))
  {
    if groups != [] {
      WrittenAllLooksUp(countries, groups[..|groups| - 1], link, code);
    }
  }

  lemma {:induction false} LastShownIs(groups: seq<Group>, link: string, code: string, before: nat, k: int)
    requires -1 <= k < |groups|
    requires k >= 0 ==> groups[k].link == link && Label(groups[k].country) == code
    requires forall i :: k < i < |groups| ==> groups[i].link != link || Label(groups[i].country) != code
    ensures LastShown(groups, link, code, before) == if k >= 0 then groups[k].n else before
  {
    if k < |groups| - 1 {
      LastShownIs(groups[..|groups| - 1], link, code, before, k);
    }
  }

  lemma {:induction false} CountIsPositive(clicks: seq<Click>, country: string)
    ensures Count(clicks, country) > 0 <==> exists c :: c in clicks && c.country == country
  {
    if clicks != [] {
      var init, last := clicks[..|clicks| - 1], clicks[|clicks| - 1];
      CountIsPositive(init, country);
      assert clicks == init + [last];
      assert last in clicks;
      assert forall c :: c in init ==> c in clicks;
    }
  }

  lemma LabelsOf(country: string, code: string)
    ensures Label(country) == code <==>
              code != "" && (country == code || (country == "" && code == UNKNOWN))
  {
  }

  /** After a chunk's groups are written, a link of the chunk shows its own counts, and any other link
      what it showed before. */
  lemma ChunkShows(rows: seq<Click>, chunk: seq<string>, groups: seq<Group>, link: string, code: string,
                   before: nat)
    requires Answers(rows, chunk, groups)
    ensures var n := Shown(Of(rows, link), code);
            LastShown(groups, link, code, before) == if link in chunk && n > 0 then n else before
  {
    var clicks := Of(rows, link);
    if link !in chunk || code == "" {
      assert forall i :: 0 <= i < |groups| ==> GroupHolds(rows, chunk, groups[i]);
      LastShownIs(groups, link, code, before, -1);
    } else {
      var a := Find(rows, chunk, groups, link, code);
      var b := Find(rows, chunk, groups, link, "");
      b := if code == UNKNOWN then b else -1;
      LastShownIs(groups, link, code, before, if a > b then a else b);
    }
  }

  /** Where the group of this link and country is, or -1. */
  lemma Find(rows: seq<Click>, chunk: seq<string>, groups: seq<Group>, link: string, country: string)
    returns (k: int)
    requires Answers(rows, chunk, groups) && link in chunk
    ensures -1 <= k < |groups|
    ensures k >= 0 <==> Count(Of(rows, link), country) > 0
    ensures k >= 0 ==> groups[k] == Group(link, country, Count(Of(rows, link), country))
    ensures forall i :: 0 <= i < |groups| && groups[i].link == link && groups[i].country == country ==> i == k
  {
    if Count(Of(rows, link), country) > 0 {
      assert Has(groups, link, country);
      k :| 0 <= k < |groups| && groups[k].link == link && groups[k].country == country;
      assert GroupHolds(rows, chunk, groups[k]);
    } else {
      k := -1;
      assert forall i :: 0 <= i < |groups| ==> GroupHolds(rows, chunk, groups[i]);
    }
  }

  ghost predicate AllPositive(countries: map<string, Tally>) {
    forall link, code :: link in countries && code in countries[link] ==> countries[link][code] > 0
  }

  ghost predicate Filled(rows: seq<Click>, done: set<string>, countries: map<string, Tally>) {
    && AllPositive(countries)
    && forall link, code :: Lookup(countries, link, code) == if link in done then Shown(Of(rows, link), code) else 0
  }

  lemma {:induction false} WrittenStaysPositive(countries: map<string, Tally>, groups: seq<Group>)
    requires AllPositive(countries) && forall i :: 0 <= i < |groups| ==> groups[i].n > 0
    ensures AllPositive(WrittenAll(countries, groups))
  {
    if groups != [] {
      WrittenStaysPositive(countries, groups[..|groups| - 1]);
    }
  }

  lemma FillChunk(rows: seq<Click>, done: set<string>, countries: map<string, Tally>, chunk: seq<string>,
                  groups: seq<Group>)
    requires Filled(rows, done, countries) && Answers(rows, chunk, groups)
    ensures Filled(rows, done + (set id | id in chunk), WrittenAll(countries, groups))
  {
    assert forall i :: 0 <= i < |groups| ==> GroupHolds(rows, chunk, groups[i]);
    WrittenStaysPositive(countries, groups);
    forall link, code
      ensures Lookup(WrittenAll(countries, groups), link, code)
              == if link in done + (set id | id in chunk) then Shown(Of(rows, link), code) else 0
    {
      WrittenAllLooksUp(countries, groups, link, code);
      ChunkShows(rows, chunk, groups, link, code, Lookup(countries, link, code));
    }
  }

  lemma ShownIsPositive(clicks: seq<Click>, code: string)
    ensures Shown(clicks, code) > 0 <==> code in Codes(clicks)
  {
    CountIsPositive(clicks, code);
    CountIsPositive(clicks, "");
    if code in Codes(clicks) {
      var c :| c in clicks && Label(c.country) == code;
      LabelsOf(c.country, code);
    } else {
      forall c | c in clicks
        ensures Label(c.country) != code
      {
        assert Label(c.country) in Codes(clicks);
      }
    }
  }

  lemma FilledIsComplete(rows: seq<Click>, done: set<string>, countries: map<string, Tally>, link: string)
    requires Filled(rows, done, countries) && link in done
    ensures (if link in countries then countries[link] else map[]) == StatsOf(rows, link).byCountry
  {
    var clicks := Of(rows, link);
    var got := if link in countries then countries[link] else map[];
    forall code
      ensures code in got <==> code in Codes(clicks)
      ensures code in got ==> got[code] == Shown(clicks, code)
    {
      ShownIsPositive(clicks, code);
      assert Lookup(countries, link, code) == Shown(clicks, code);
    }
  }

  // ---------------------------------------------------------------------------------------
  // The roll-up
  // ---------------------------------------------------------------------------------------

  /** `itertools.batched` by ID_IN_CHUNK. */
  function Batched(ids: seq<string>): seq<seq<string>>
    decreases |ids|
  {
    if ids == [] then []
    else if |ids| <= CHUNK then [ids]
    else [ids[..CHUNK]] + Batched(ids[CHUNK..])
  }

  lemma {:induction false} BatchedCovers(ids: seq<string>, id: string)
    requires id in ids
    ensures exists k :: 0 <= k < |Batched(ids)| && id in Batched(ids)[k]
    decreases |ids|
  {
    if |ids| <= CHUNK || id in ids[..CHUNK] {
      assert id in Batched(ids)[0];
    } else {
      BatchedCovers(ids[CHUNK..], id);
      var k :| 0 <= k < |Batched(ids[CHUNK..])| && id in Batched(ids[CHUNK..])[k];
      assert Batched(ids)[k + 1] == Batched(ids[CHUNK..])[k];
    }
  }

  /** `totals` after the totals query of these ids. */
  function TotalsOf(rows: seq<Click>, ids: set<string>): map<string, (nat, nat)> {
    map id | id in ids && Of(rows, id) != [] :: (|Of(rows, id)|, |Visitors(Of(rows, id))|)
  }

  lemma TotalsMerge(rows: seq<Click>, done: set<string>, chunk: set<string>)
    ensures TotalsOf(rows, done) + TotalsOf(rows, chunk) == TotalsOf(rows, done + chunk)
  {
  }

  /** Takes in the groups of one chunk. */
  method AddGroups(start: map<string, Tally>, groups: seq<Group>) returns (countries: map<string, Tally>)
    ensures countries == WrittenAll(start, groups)
  {
    countries := start;
    for j := 0 to |groups|
      invariant countries == WrittenAll(start, groups[..j])
    {
      var g := groups[j];
      assert groups[..j + 1][..j] == groups[..j];
      ghost var before := countries;
      if g.link !in countries {
        countries := countries[g.link := map[]];
      }
      var tally: Tally := countries[g.link];
      countries := countries[g.link := tally[Label(g.country) := g.n]];
      assert countries == Written(before, g);
    }
    assert groups[..|groups|] == groups;
  }

  function Assembled(totals: map<string, (nat, nat)>, countries: map<string, Tally>, id: string): Stats {
    Stats(if id in totals then totals[id].0 else 0, if id in totals then totals[id].1 else 0,
          if id in countries then countries[id] else map[])
  }

  lemma AssembledIs(rows: seq<Click>, done: set<string>, countries: map<string, Tally>, id: string)
    requires Filled(rows, done, countries) && id in done
    ensures Assembled(TotalsOf(rows, done), countries, id) == StatsOf(rows, id)
  {
    FilledIsComplete(rows, done, countries, id);
    assert Of(rows, id) == [] ==> Visitors(Of(rows, id)) == {};
  }

  function Ids(batches: seq<seq<string>>): set<string> {
    set k, id | 0 <= k < |batches| && id in batches[k] :: id
  }

  lemma IdsSnoc(batches: seq<seq<string>>, batch: seq<string>)
    ensures Ids(batches + [batch]) == Ids(batches) + set id | id in batch
  {
    var more := batches + [batch];
    forall id
      ensures id in Ids(more) <==> id in Ids(batches) || id in batch
    {
      if id in batch {
        assert id in more[|batches|];
      }
      if id in Ids(batches) {
        var k :| 0 <= k < |batches| && id in batches[k];
        assert id in more[k];
      }
    }
  }

  /** `stats_for`: every id asked for gets the statistics of its own clicks, whatever the chunking, however
      often it is repeated, and in whatever order the database returns groups of equal size. */
  method StatsFor(rows: seq<Click>, ids: seq<string>, answers: seq<seq<Group>>) returns (stats: map<string, Stats>)
    requires |answers| == |Batched(ids)|
    requires forall k :: 0 <= k < |answers| ==> Answers(rows, Batched(ids)[k], answers[k])
    ensures forall id :: id in stats <==> id in ids
    ensures forall id :: id in ids ==> stats[id] == StatsOf(rows, id)
  {
    var totals: map<string, (nat, nat)>, countries: map<string, Tally> := map[], map[];
    var batches := Batched(ids);
    for k := 0 to |batches|
      invariant totals == TotalsOf(rows, Ids(batches[..k]))
      invariant Filled(rows, Ids(batches[..k]), countries)
    {
      ghost var done := Ids(batches[..k]);
      var chunk := set id | id in batches[k];
      TotalsMerge(rows, done, chunk);
      FillChunk(rows, done, countries, batches[k], answers[k]);
      IdsSnoc(batches[..k], batches[k]);
      assert batches[..k + 1] == batches[..k] + [batches[k]];
      totals := totals + TotalsOf(rows, chunk);
      countries := AddGroups(countries, answers[k]);
    }
    assert batches[..|batches|] == batches;
    forall id | id in ids
      ensures Assembled(totals, countries, id) == StatsOf(rows, id)
    {
      BatchedCovers(ids, id);
      AssembledIs(rows, Ids(batches), countries, id);
    }
    stats := map id | id in ids :: Assembled(totals, countries, id);
  }

  // ---------------------------------------------------------------------------------------
  // What the numbers mean
  // ---------------------------------------------------------------------------------------

  lemma {:induction false} VisitorsAtMost(clicks: seq<Click>)
    ensures |Visitors(clicks)| <= |clicks|
  {
    if clicks != [] {
      var init, last := clicks[..|clicks| - 1], clicks[|clicks| - 1];
      VisitorsAtMost(init);
      assert clicks == init + [last];
      assert Visitors(clicks) == if last.ip != "" then Visitors(init) + {last.ip} else Visitors(init);
    }
  }

  /** Never more visitors than recorded clicks. */
  lemma UniqueAtMostTotal(rows: seq<Click>, link: string)
    ensures StatsOf(rows, link).unique <= StatsOf(rows, link).total
  {
    VisitorsAtMost(Of(rows, link));
  }

  function At(m: Tally, k: string): nat {
    if k in m then m[k] else 0
  }

  /** Clicks per stored country, the empty one included. */
  function Raw(clicks: seq<Click>): Tally {
    if clicks == [] then map[]
    else
      var before, country := Raw(clicks[..|clicks| - 1]), clicks[|clicks| - 1].country;
      before[country := At(before, country) + 1]
  }

  lemma {:induction false} RawIsCount(clicks: seq<Click>, country: string)
    ensures country in Raw(clicks) <==> Count(clicks, country) > 0
    ensures At(Raw(clicks), country) == Count(clicks, country)
  {
    if clicks != [] {
      RawIsCount(clicks[..|clicks| - 1], country);
    }
  }

  lemma {:induction false} RawAddsUp(clicks: seq<Click>)
    ensures Sum(Raw(clicks)) == |clicks|
  {
    if clicks != [] {
      var before, country := Raw(clicks[..|clicks| - 1]), clicks[|clicks| - 1].country;
      RawAddsUp(clicks[..|clicks| - 1]);
      AddingOne(before, country, At(before, country));
    }
  }

  lemma AddingOne(m: Tally, k: string, n: nat)
    requires n == if k in m then m[k] else 0
    ensures Sum(m[k := n + 1]) == Sum(m) + 1
  {
    SumUpdate(m, k, n + 1);
    if k in m {
      SumWithout(m, k);
    }
  }

  ghost predicate BothUnknowns(clicks: seq<Click>) {
    Count(clicks, "") > 0 && Count(clicks, UNKNOWN) > 0
  }

  lemma ShownByRaw(clicks: seq<Click>, code: string)
    ensures code in Codes(clicks) <==> Shown(clicks, code) > 0
    ensures code != "" && code != UNKNOWN ==> Shown(clicks, code) == At(Raw(clicks), code)
    ensures "" !in Codes(clicks)
    ensures Shown(clicks, UNKNOWN) == if At(Raw(clicks), "") == 0 then At(Raw(clicks), UNKNOWN)
                                      else if At(Raw(clicks), UNKNOWN) == 0 then At(Raw(clicks), "")
                                      else Smaller(At(Raw(clicks), ""), At(Raw(clicks), UNKNOWN))
  {
    ShownIsPositive(clicks, code);
    ShownIsPositive(clicks, "");
    RawIsCount(clicks, code);
    RawIsCount(clicks, "");
    RawIsCount(clicks, UNKNOWN);
  }

  function Smaller(a: nat, b: nat): nat {
    if a <= b then a else b
  }

  lemma ShownShape(shown: Tally, raw: Tally, none: string, unknown: string)
    requires none != unknown && none !in shown
    requires forall code :: code in raw ==> raw[code] > 0
    requires forall code :: code != none && code != unknown ==>
               (code in shown <==> code in raw) && (code in raw ==> shown[code] == raw[code])
    requires unknown in shown <==> none in raw || unknown in raw
    requires none !in raw && unknown in raw ==> shown[unknown] == raw[unknown]
    ensures none !in raw ==> shown == raw
    ensures none in raw ==> shown == (raw - {none})[unknown := shown[unknown]]
  {
  }

  lemma ByCountryByRaw(rows: seq<Click>, link: string, code: string)
    ensures var clicks, shown := Of(rows, link), StatsOf(rows, link).byCountry;
            && (code in shown <==> Shown(clicks, code) > 0)
            && (code in shown ==> shown[code] == Shown(clicks, code))
            && (code in Raw(clicks) ==> Raw(clicks)[code] > 0)
            && (code in Raw(clicks) <==> At(Raw(clicks), code) > 0)
  {
    ShownByRaw(Of(rows, link), code);
    RawIsCount(Of(rows, link), code);
  }

  /** The per-country numbers add up to the total, short of the larger of the two unknown groups when the
      link has clicks both without a country and with the placeholder as one. */
  lemma CountriesAddUp(rows: seq<Click>, link: string)
    ensures var clicks, stats := Of(rows, link), StatsOf(rows, link);
            Sum(stats.byCountry) + (if BothUnknowns(clicks) then Larger(clicks) else 0) == stats.total
  {
    var clicks := Of(rows, link);
    var shown, raw, n := StatsOf(rows, link).byCountry, Raw(clicks), Shown(clicks, UNKNOWN);
    RawAddsUp(clicks);
    RawIsCount(clicks, "");
    RawIsCount(clicks, UNKNOWN);
    ByCountryByRaw(rows, link, "");
    ByCountryByRaw(rows, link, UNKNOWN);
    ShownByRaw(clicks, UNKNOWN);
    forall code
      ensures code in raw ==> raw[code] > 0
      ensures code != "" && code != UNKNOWN ==> (code in shown <==> code in raw)
      ensures code != "" && code != UNKNOWN && code in raw ==> shown[code] == raw[code]
    {
      ByCountryByRaw(rows, link, code);
      ShownByRaw(clicks, code);
    }
    ShownShape(shown, raw, "", UNKNOWN);
    if "" in raw {
      MergingTwo(raw, "", UNKNOWN, n);
    }
  }

  lemma MergingTwo(m: Tally, a: string, b: string, n: nat)
    requires a in m && a != b
    ensures Sum((m - {a})[b := n]) + m[a] + (if b in m then m[b] else 0) == Sum(m) + n
  {
    SumWithout(m, a);
    SumUpdate(m - {a}, b, n);
    if b in m {
      SumWithout(m - {a}, b);
    }
  }

  function Larger(clicks: seq<Click>): nat {
    if Count(clicks, "") <= Count(clicks, UNKNOWN) then Count(clicks, UNKNOWN) else Count(clicks, "")
  }

  /** So they add up exactly when not both are stored. */
  lemma CountriesAddUpIff(rows: seq<Click>, link: string)
    ensures Sum(StatsOf(rows, link).byCountry) == StatsOf(rows, link).total <==> !BothUnknowns(Of(rows, link))
  {
    CountriesAddUp(rows, link);
  }

  // ---------------------------------------------------------------------------------------
  // The same numbers, counted over the rows of the table
  // ---------------------------------------------------------------------------------------

  /** Which rows of the table are of a link, and which of those of a country. */
  function IndicesOf(rows: seq<Click>, link: string): set<int> {
    set i | 0 <= i < |rows| && rows[i].link == link
  }

  function IndicesIn(rows: seq<Click>, link: string, country: string): set<int> {
    set i | 0 <= i < |rows| && rows[i].link == link && rows[i].country == country
  }

  lemma OfSnoc(rows: seq<Click>, link: string)
    requires rows != []
    ensures var n := |rows| - 1;
            Of(rows, link) == if rows[n].link == link then Of(rows[..n], link) + [rows[n]] else Of(rows[..n], link)
  {
    assert Of(rows[..|rows| - 1], link) + [] == Of(rows[..|rows| - 1], link);
  }

  lemma IndicesSnoc(rows: seq<Click>, link: string, country: string)
    requires rows != []
    ensures var n := |rows| - 1;
            && IndicesOf(rows, link) == IndicesOf(rows[..n], link) + (if rows[n].link == link then {n} else {})
            && IndicesIn(rows, link, country)
               == IndicesIn(rows[..n], link, country)
                  + (if rows[n].link == link && rows[n].country == country then {n} else {})
            && n !in IndicesOf(rows[..n], link) && n !in IndicesIn(rows[..n], link, country)
  {
  }

  lemma CountSnoc(clicks: seq<Click>, c: Click, country: string)
    ensures Count(clicks + [c], country) == Count(clicks, country) + if c.country == country then 1 else 0
  {
    assert (clicks + [c])[..|clicks|] == clicks;
  }

  lemma {:induction false} CountOfIs(rows: seq<Click>, link: string, country: string)
    ensures Count(Of(rows, link), country) == |IndicesIn(rows, link, country)|
  {
    if rows != [] {
      var init, last := rows[..|rows| - 1], rows[|rows| - 1];
      CountOfIs(init, link, country);
      OfSnoc(rows, link);
      IndicesSnoc(rows, link, country);
      CountSnoc(Of(init, link), last, country);
    }
  }

  lemma {:induction false} LengthOfIs(rows: seq<Click>, link: string)
    ensures |Of(rows, link)| == |IndicesOf(rows, link)|
  {
    if rows != [] {
      LengthOfIs(rows[..|rows| - 1], link);
      OfSnoc(rows, link);
      IndicesSnoc(rows, link, "");
    }
  }

  lemma {:induction false} OfHas(rows: seq<Click>, link: string, c: Click)
    ensures c in Of(rows, link) <==> c in rows && c.link == link
  {
    if rows != [] {
      var init, last := rows[..|rows| - 1], rows[|rows| - 1];
      OfHas(init, link, c);
      assert rows == init + [last];
    }
  }

  /** The total is the number of rows of the link, the visitors are its distinct addresses that are not blank,
      and a country is shown with the number of its rows; for the placeholder the rows without a country
      count too, or the fewer of the two kinds when there are both. */
  lemma StatsAre(rows: seq<Click>, link: string, code: string)
    ensures var stats := StatsOf(rows, link);
            var blank, own := |IndicesIn(rows, link, "")|, |IndicesIn(rows, link, code)|;
            && stats.total == |IndicesOf(rows, link)|
            && stats.unique == |set c | c in rows && c.link == link && c.ip != "" :: c.ip|
            && "" !in stats.byCountry
            && (code != "" && code != "??" ==>
                  (code in stats.byCountry <==> own > 0) && (own > 0 ==> stats.byCountry[code] == own))
            && (code == "??" ==>
                  && (code in stats.byCountry <==> own > 0 || blank > 0)
                  && (own > 0 && blank == 0 ==> stats.byCountry[code] == own)
                  && (own == 0 && blank > 0 ==> stats.byCountry[code] == blank)
                  && (own > 0 && blank > 0 ==> stats.byCountry[code] <= own && stats.byCountry[code] <= blank
                                               && (stats.byCountry[code] == own || stats.byCountry[code] == blank)))
  {
    var clicks := Of(rows, link);
    LengthOfIs(rows, link);
    CountOfIs(rows, link, code);
    CountOfIs(rows, link, "");
    ShownIsPositive(clicks, code);
    ShownIsPositive(clicks, "");
    VisitorsOfAre(rows, link);
  }

  lemma VisitorsOfAre(rows: seq<Click>, link: string)
    ensures Visitors(Of(rows, link)) == set c | c in rows && c.link == link && c.ip != "" :: c.ip
  {
    forall c
      ensures c in Of(rows, link) <==> c in rows && c.link == link
    {
      OfHas(rows, link, c);
    }
  }
}
