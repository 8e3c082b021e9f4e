/**
 Short-link clicks (`apps/core/links/services/short_link.py`): a repeat visit inside the dedup window
 writes no row, and the rows are rolled up per link in batches.
 */
module ShortLinks {
  import opened Spacing
  import Locks

  /** CLICK_DEDUP_WINDOW_SECONDS */
  const WINDOW: nat := 1800

  const KEY_PREFIX: string := "clickdedup:"

  /** A `ClickEvent` row; `at` is the instant of the visit, when the cache is asked. The row's `created_at` is
      stamped at the insert, a little later. */
  datatype Click = Click(link: string, ip: string, country: string, at: int)

  // ---------------------------------------------------------------------------------------
  // Recording
  // ---------------------------------------------------------------------------------------

  /** One visit. `ip` is the hashed address, empty when there is none; `cacheUp` and `saves` say whether
      the cache answers and whether the insert succeeds. */
  datatype Hit = Hit(link: string, ip: string, country: string, at: int, cacheUp: bool, saves: bool)

  datatype State = State(cache: map<Locks.Key, Locks.Entry>, rows: seq<Click>)

  function CacheKey(link: string, ip: string): Locks.Key {
    KEY_PREFIX + link + ":" + ip
  }

  /** Only visits with an address are looked up, and a broken cache has seen nobody. */
  predicate Dropped(st: State, h: Hit) {
    h.ip != "" && h.cacheUp && Locks.Live(st.cache, CacheKey(h.link, h.ip), h.at)
  }

  function Step(st: State, h: Hit): State {
    if Dropped(st, h) then st
    else
      State(if h.ip != "" && h.cacheUp
            then st.cache[CacheKey(h.link, h.ip) := Locks.Entry(1, h.at + WINDOW)] else st.cache,
            if h.saves then st.rows + [Click(h.link, h.ip, h.country, h.at)] else st.rows)
  }

  class ClickRecorder {
    const cache: Locks.TtlCache
    var rows: seq<Click>

    constructor (cache: Locks.TtlCache)
      ensures this.cache == cache && rows == []
    {
      this.cache := cache;
      rows := [];
    }

    method SeenRecently(link: string, ip: string, now: int, cacheUp: bool) returns (seen: bool)
      modifies cache
      ensures seen <==> cacheUp && Locks.Live(old(cache.entries), CacheKey(link, ip), now)
      ensures cache.entries == if cacheUp && !seen
                               then old(cache.entries)[CacheKey(link, ip) := Locks.Entry(1, now + WINDOW)]
                               else old(cache.entries)
    {
      if !cacheUp {
        return false;
      }
      var added := cache.Add(CacheKey(link, ip), 1, WINDOW, now);
      seen := !added;
    }

    method RecordClick(h: Hit)
      modifies this, cache
      ensures State(cache.entries, rows) == Step(State(old(cache.entries), old(rows)), h)
      ensures rows == old(rows) || rows == old(rows) + [Click(h.link, h.ip, h.country, h.at)]
      ensures rows == old(rows) <==>
                || !h.saves
                || (h.ip != "" && h.cacheUp && CacheKey(h.link, h.ip) in old(cache.entries)
                    && h.at < old(cache.entries)[CacheKey(h.link, h.ip)].expiry)
    {
      if h.ip != "" {
        var seen := SeenRecently(h.link, h.ip, h.at, h.cacheUp);
        if seen {
          return;
        }
      }
      if h.saves {
        rows := rows + [Click(h.link, h.ip, h.country, h.at)];
      }
    }
  }

  function Run(st: State, hits: seq<Hit>): State {
    if hits == [] then st else Step(Run(st, hits[..|hits| - 1]), hits[|hits| - 1])
  }

  /** When the recorded clicks of one visitor on one link happened. */
  function Visits(rows: seq<Click>, link: string, ip: string): seq<int> {
    if rows == [] then []
    else
      var last := rows[|rows| - 1];
      Visits(rows[..|rows| - 1], link, ip) + (if last.link == link && last.ip == ip then [last.at] else [])
  }

  lemma VisitsSnoc(rows: seq<Click>, c: Click, link: string, ip: string)
    ensures Visits(rows + [c], link, ip)
            == Visits(rows, link, ip) + (if c.link == link && c.ip == ip then [c.at] else [])
  {
    assert (rows + [c])[..|rows|] == rows;
  }

  /** The cache answered whenever this visitor came. */
  ghost predicate CacheUpFor(hits: seq<Hit>, link: string, ip: string) {
    forall i :: 0 <= i < |hits| && hits[i].link == link && hits[i].ip == ip ==> hits[i].cacheUp
  }

  /** The entry outlasts the window of every recorded click. */
  ghost predicate Guarded(st: State, link: string, ip: string) {
    Spaced(Visits(st.rows, link, ip), WINDOW)
    && Outlasts(st.cache, CacheKey(link, ip), Visits(st.rows, link, ip))
  }

  ghost predicate Outlasts(cache: map<Locks.Key, Locks.Entry>, key: Locks.Key, visits: seq<int>) {
    visits == [] || (key in cache && forall i :: 0 <= i < |visits| ==> visits[i] + WINDOW <= cache[key].expiry)
  }

  lemma StepGuards(st: State, h: Hit, link: string, ip: string)
    requires Guarded(st, link, ip) && ip != ""
    requires h.link == link && h.ip == ip ==> h.cacheUp
    ensures Guarded(Step(st, h), link, ip)
  {
    if !Dropped(st, h) {
      VisitsSnoc(st.rows, Click(h.link, h.ip, h.country, h.at), link, ip);
      var v, key, other := Visits(st.rows, link, ip), CacheKey(link, ip), CacheKey(h.link, h.ip);
      if h.ip != "" && h.cacheUp {
        ReplacingOutlasts(st.cache, key, other, h.at, v, h.link == link && h.ip == ip);
      }
    }
  }

  /** An entry is only replaced once it is dead, so the new one outlasts what the old one did. */
  lemma ReplacingOutlasts(cache: map<Locks.Key, Locks.Entry>, key: Locks.Key, other: Locks.Key, at: int,
                          visits: seq<int>, same: bool)
    requires Spaced(visits, WINDOW) && Outlasts(cache, key, visits)
    requires !Locks.Live(cache, other, at) && (same ==> key == other)
    ensures Outlasts(cache[other := Locks.Entry(1, at + WINDOW)], key, visits)
    ensures same ==> Spaced(visits + [at], WINDOW)
    ensures same ==> Outlasts(cache[other := Locks.Entry(1, at + WINDOW)], key, visits + [at])
  {
  }

  lemma {:induction false} RunGuards(hits: seq<Hit>, link: string, ip: string)
    requires ip != "" && CacheUpFor(hits, link, ip)
    ensures Guarded(Run(State(map[], []), hits), link, ip)
  {
    if hits != [] {
      RunGuards(hits[..|hits| - 1], link, ip);
      StepGuards(Run(State(map[], []), hits[..|hits| - 1]), hits[|hits| - 1], link, ip);
    }
  }

  /** Whoever else clicks what, and even with clocks that disagree, the recorded clicks of one visitor on
      one link are at least a window apart, so a stretch of `t` seconds holds at most `t / WINDOW + 1`. */
  lemma RecordedClicksAreSpaced(hits: seq<Hit>, link: string, ip: string, lo: int, t: nat)
    requires ip != "" && CacheUpFor(hits, link, ip)
    ensures var v := Visits(Run(State(map[], []), hits).rows, link, ip);
            Spaced(v, WINDOW) && |Within(v, lo, lo + t)| <= t / WINDOW + 1
  {
    RunGuards(hits, link, ip);
    AtMost(Visits(Run(State(map[], []), hits).rows, link, ip), WINDOW, lo, t);
  }

  ghost predicate AllWell(hits: seq<Hit>) {
    forall i :: 0 <= i < |hits| ==> hits[i].cacheUp && hits[i].saves && |hits[i].link| == 26
  }

  /** The cache holds entries of recorded clicks only, and each expires a window after its click. */
  ghost predicate Backed(st: State) {
    && (forall r :: r in st.rows ==> |r.link| == 26)
    && forall key :: key in st.cache ==> BackedBy(st, key)
  }

  ghost predicate BackedBy(st: State, key: Locks.Key)
    requires key in st.cache
  {
    exists r :: r in st.rows && key == CacheKey(r.link, r.ip) && st.cache[key].expiry == r.at + WINDOW
  }

  lemma {:induction false} RunBacks(hits: seq<Hit>)
    requires AllWell(hits)
    ensures Backed(Run(State(map[], []), hits))
  {
    if hits != [] {
      var st, h := Run(State(map[], []), hits[..|hits| - 1]), hits[|hits| - 1];
      RunBacks(hits[..|hits| - 1]);
      var after := Step(st, h);
      forall key | key in after.cache
        ensures BackedBy(after, key)
      {
        if key in st.cache && after.cache[key] == st.cache[key] {
          assert BackedBy(st, key);
          var r :| r in st.rows && key == CacheKey(r.link, r.ip) && st.cache[key].expiry == r.at + WINDOW;
          assert r in after.rows;
        } else {
          assert Click(h.link, h.ip, h.country, h.at) in after.rows;
        }
      }
    }
  }

  /** Link ids are 26 characters long, so keys of different visitors differ. */
  lemma CacheKeysDiffer(a: string, x: string, b: string, y: string)
    requires |a| == |b| == 26
    ensures CacheKey(a, x) == CacheKey(b, y) <==> a == b && x == y
  {
    var p := |KEY_PREFIX|;
    assert CacheKey(a, x)[p..p + 26] == a && CacheKey(a, x)[p + 27..] == x;
    assert CacheKey(b, y)[p..p + 26] == b && CacheKey(b, y)[p + 27..] == y;
  }

  lemma {:induction false} VisitsHave(rows: seq<Click>, link: string, ip: string, r: Click)
    requires r in rows && r.link == link && r.ip == ip
    ensures r.at in Visits(rows, link, ip)
  {
    var init, last := rows[..|rows| - 1], rows[|rows| - 1];
    assert rows == init + [last];
    if r != last {
      VisitsHave(init, link, ip, r);
    }
  }

  /** With a working cache and working inserts the next visit is recorded exactly when it has no address
      or comes at least a window after every recorded click of the same visitor on the same link. */
  lemma DedupIsExact(hits: seq<Hit>, h: Hit)
    requires AllWell(hits + [h])
    ensures var st := Run(State(map[], []), hits);
            Step(st, h).rows == st.rows <==>
              h.ip != "" && exists r :: r in st.rows && r.link == h.link && r.ip == h.ip && h.at < r.at + WINDOW
  {
    assert forall i :: 0 <= i < |hits| ==> (hits + [h])[i] == hits[i];
    assert (hits + [h])[|hits|] == h;
    var st := Run(State(map[], []), hits);
    var key := CacheKey(h.link, h.ip);
    RunBacks(hits);
    if h.ip != "" {
      RunGuards(hits, h.link, h.ip);
      if Dropped(st, h) {
        assert BackedBy(st, key);
        var r :| r in st.rows && key == CacheKey(r.link, r.ip) && st.cache[key].expiry == r.at + WINDOW;
        CacheKeysDiffer(h.link, h.ip, r.link, r.ip);
      }
      forall r | r in st.rows && r.link == h.link && r.ip == h.ip && h.at < r.at + WINDOW
        ensures Dropped(st, h)
      {
        VisitsHave(st.rows, h.link, h.ip, r);
      }
    }
  }
}
