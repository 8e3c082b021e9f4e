/**
 Normalising legacy subreddit slugs
 (`apps/core/feeds/migrations/0002_lowercase_reddit_subreddit_slugs.py`): what a slug becomes, and what
 the loop of module `SlugTable` therefore does to the table.
 */
module SlugMigration {
  import opened Options
  import opened SlugTable
  import opened SlugChains
  import opened Text

  // ---------------------------------------------------------------------------------------
  // The canonical spec
  // ---------------------------------------------------------------------------------------

  /** The length of a leading `r/` or `/r/`, in either case. */
  function PrefixLength(s: string): (n: nat)
    ensures n <= |s|
  {
    if |s| >= 3 && s[0] == '/' && LowerChar(s[1]) == 'r' && s[2] == '/' then 3
    else if |s| >= 2 && LowerChar(s[0]) == 'r' && s[1] == '/' then 2
    else 0
  }

  /** Strip white space, then one prefix, then lower-case. */
  function CanonicalSlug(s: string): string {
    var t := Strip(s);
    Lower(t[PrefixLength(t)..])
  }

  function SlugOf(spec: Spec): string {
    if spec.slug.Some? then spec.slug.value else ""
  }

  function CanonicalSpec(spec: Spec): Spec {
    Spec(REDDIT, Some(CanonicalSlug(SlugOf(spec))), map[])
  }

  /** Nothing is left to strip from the slug: no white space at its start and no further prefix. */
  predicate Settled(s: string) {
    var t := Strip(s);
    var rest := t[PrefixLength(t)..];
    rest == [] || (!IsSpace(rest[0]) && PrefixLength(rest) == 0)
  }

  lemma PrefixOfLower(s: string)
    ensures PrefixLength(Lower(s)) == PrefixLength(s)
  {
    forall i | 0 <= i < |s| ensures LowerChar(Lower(s)[i]) == LowerChar(s[i]) && (Lower(s)[i] == '/' <==> s[i] == '/') {
      LowerCharFacts(s[i]);
    }
  }

  lemma CanonicalStays(low: string)
    requires Lower(low) == low && Trimmed(low) && PrefixLength(low) == 0
    ensures CanonicalSlug(low) == low
  {
    StripFixes(low);
    assert low[0..] == low;
  }

  lemma CanonicalShrinks(s: string)
    requires !Trimmed(s) || PrefixLength(s) > 0
    ensures |CanonicalSlug(s)| < |s|
  {
    StripFixes(s);
    assert |Lower(Strip(s)[PrefixLength(Strip(s))..])| == |Strip(s)| - PrefixLength(Strip(s));
  }

  /** Canonicalising twice is canonicalising once exactly for settled slugs: the pattern is anchored, so
      each pass takes off one prefix only. */
  lemma CanonicalTwiceIff(s: string)
    ensures CanonicalSlug(CanonicalSlug(s)) == CanonicalSlug(s) <==> Settled(s)
  {
    var rest := Strip(s)[PrefixLength(Strip(s))..];
    RestEndsWell(s);
    LowerFacts(rest);
    PrefixOfLower(rest);
    if Settled(s) {
      CanonicalStays(Lower(rest));
    } else {
      CanonicalShrinks(Lower(rest));
    }
  }

  lemma RestEndsWell(s: string)
    ensures var rest := Strip(s)[PrefixLength(Strip(s))..];
            Trimmed(rest) <==> rest == [] || !IsSpace(rest[0])
  {
    StripTrims(s);
    var t := Strip(s);
    var rest := t[PrefixLength(t)..];
    if rest != [] {
      assert rest[|rest| - 1] == t[|t| - 1];
    }
  }

  predicate IsPrefixed(s: string, rest: string) {
    |s| == |rest| + 2 && s[0] == 'r' && s[1] == '/' && s[2..] == rest
  }

  lemma DropsOnePrefix(s: string, rest: string)
    requires IsPrefixed(s, rest)
    requires rest != [] && !IsSpace(rest[|rest| - 1]) && Lower(rest) == rest
    ensures CanonicalSlug(s) == rest
  {
    assert s[|s| - 1] == rest[|rest| - 1];
    StripFixes(s);
  }

  lemma PrefixedIsLower(s: string, rest: string)
    requires IsPrefixed(s, rest) && Lower(rest) == rest
    ensures Lower(s) == s
  {
    forall i | 0 <= i < |s| ensures Lower(s)[i] == s[i] {
      assert i >= 2 ==> s[i] == rest[i - 2] && Lower(rest)[i - 2] == rest[i - 2];
    }
  }

  // ---------------------------------------------------------------------------------------
  // What the canonical slug is, character by character
  // ---------------------------------------------------------------------------------------

  /** One of `r/`, `R/`, `/r/` and `/R/`. */
  predicate IsPrefix(s: string) {
    || (|s| == 2 && (s[0] == 'r' || s[0] == 'R') && s[1] == '/')
    || (|s| == 3 && s[0] == '/' && (s[1] == 'r' || s[1] == 'R') && s[2] == '/')
  }

  predicate StartsWithPrefix(s: string) {
    (|s| >= 2 && IsPrefix(s[..2])) || (|s| >= 3 && IsPrefix(s[..3]))
  }

  lemma PrefixLengthIs(s: string)
    ensures PrefixLength(s) > 0 <==> StartsWithPrefix(s)
    ensures PrefixLength(s) > 0 ==> IsPrefix(s[..PrefixLength(s)])
  {
  }

  lemma PrefixLengthOf(pre: string, rest: string)
    requires IsPrefix(pre) || (pre == [] && !StartsWithPrefix(rest))
    ensures PrefixLength(pre + rest) == |pre|
  {
    PrefixLengthIs(pre + rest);
    if pre == [] {
      assert pre + rest == rest;
    } else {
      assert (pre + rest)[..|pre|] == pre;
    }
  }

  /** White space around the slug goes, one prefix in front goes, capitals become small letters, and nothing
      else happens. */
  lemma CanonicalSlugIs(p: string, pre: string, rest: string, q: string)
    requires Blank(p) && Blank(q) && Trimmed(pre + rest)
    requires IsPrefix(pre) || (pre == [] && !StartsWithPrefix(rest))
    ensures var slug := CanonicalSlug(p + (pre + rest) + q);
            && DifferOnlyInCase(slug, rest)
            && forall c :: c in slug ==> !('A' <= c <= 'Z')
  {
    StripDrops(p, pre + rest, q);
    PrefixLengthOf(pre, rest);
    assert (pre + rest)[|pre|..] == rest;
    LowerIs(rest);
  }

  /** A canonical slug has no capitals. */
  lemma CanonicalHasNoCapitals(s: string)
    ensures forall c :: c in CanonicalSlug(s) ==> !('A' <= c <= 'Z')
  {
    var t := Strip(s);
    LowerIs(t[PrefixLength(t)..]);
  }

  lemma {:induction false} StripLeftIgnoresCase(s: string, t: string)
    requires DifferOnlyInCase(s, t)
    ensures DifferOnlyInCase(StripLeft(s), StripLeft(t))
  {
    if s != [] && IsSpace(s[0]) {
      assert DifferOnlyInCase(s[1..], t[1..]);
      StripLeftIgnoresCase(s[1..], t[1..]);
    }
  }

  lemma {:induction false} StripRightIgnoresCase(s: string, t: string)
    requires DifferOnlyInCase(s, t)
    ensures DifferOnlyInCase(StripRight(s), StripRight(t))
  {
    if s != [] && IsSpace(s[|s| - 1]) {
      assert DifferOnlyInCase(s[..|s| - 1], t[..|s| - 1]);
      StripRightIgnoresCase(s[..|s| - 1], t[..|s| - 1]);
    }
  }

  lemma PrefixIgnoresCase(s: string, t: string)
    requires DifferOnlyInCase(s, t)
    ensures PrefixLength(s) == PrefixLength(t)
  {
  }

  /** Slugs that differ only in case have the same canonical slug. */
  lemma CaseDoesNotMatter(s: string, t: string)
    requires DifferOnlyInCase(s, t)
    ensures CanonicalSlug(s) == CanonicalSlug(t)
  {
    StripLeftIgnoresCase(s, t);
    StripRightIgnoresCase(StripLeft(s), StripLeft(t));
    var x, y := Strip(s), Strip(t);
    PrefixIgnoresCase(x, y);
    var n := PrefixLength(x);
    assert DifferOnlyInCase(x[n..], y[n..]);
    LowerAgreesIff(x[n..], y[n..]);
  }

  // ---------------------------------------------------------------------------------------
  // The migration
  // ---------------------------------------------------------------------------------------

  /** Rows of one feed whose slugs differ only in case are rows of one subreddit. */
  lemma CaseVariantsAreOneClass(o: Table, i: Id, j: Id)
    requires i in o && j in o && o[i].kind == REDDIT && o[j].kind == REDDIT
    requires o[i].account == o[j].account && o[i].feed == o[j].feed
    requires o[i].spec.slug.Some? && o[j].spec.slug.Some?
    requires DifferOnlyInCase(o[i].spec.slug.value, o[j].spec.slug.value)
    ensures SameClass(CanonicalSpec, o, i, j)
  {
    CaseDoesNotMatter(o[i].spec.slug.value, o[j].spec.slug.value);
  }

  lemma EqualButForCase(s: string, t: string)
    requires DifferOnlyInCase(s, t)
    requires forall c :: c in s || c in t ==> !('A' <= c <= 'Z')
    ensures s == t
  {
    forall i | 0 <= i < |s|
      ensures s[i] == t[i]
    {
      assert s[i] in s && t[i] in t && SameLetter(s[i], t[i]);
    }
  }

  lemma LeftRowIsRewritten(o: Table, order: seq<Id>, i: Id)
    requires WellWritten(o) && Unique(o) && ScanOf(o, order)
    requires i in Migrate(CanonicalSpec, o, o, order) && Migrate(CanonicalSpec, o, o, order)[i].kind == REDDIT
    ensures i in o && Migrate(CanonicalSpec, o, o, order)[i].spec == CanonicalSpec(o[i].spec)
    ensures Migrate(CanonicalSpec, o, o, order)[i].hash == Sha256(CanonicalSpec(o[i].spec))
  {
    MigrateKeepsHalfway(CanonicalSpec, o, order);
    assert Looks(CanonicalSpec, o, Migrate(CanonicalSpec, o, o, order), i, i in Ids(order));
    assert i in order;
  }

  /** Whatever the table, after the run no Reddit row's slug has a capital letter, and no two of one feed
      differ only in case. */
  lemma NoCaseVariantsAreLeft(o: Table, order: seq<Id>, i: Id, j: Id)
    requires WellWritten(o) && Unique(o) && ScanOf(o, order)
    requires var t := Migrate(CanonicalSpec, o, o, order);
             i in t && j in t && t[i].kind == REDDIT && t[j].kind == REDDIT
    ensures var t := Migrate(CanonicalSpec, o, o, order);
            && t[i].spec.slug.Some? && t[j].spec.slug.Some?
            && (forall c :: c in t[i].spec.slug.value ==> !('A' <= c <= 'Z'))
            && (i != j && t[i].account == t[j].account && t[i].feed == t[j].feed ==>
                  !DifferOnlyInCase(t[i].spec.slug.value, t[j].spec.slug.value))
  {
    var t := Migrate(CanonicalSpec, o, o, order);
    LeftRowIsRewritten(o, order, i);
    LeftRowIsRewritten(o, order, j);
    CanonicalHasNoCapitals(SlugOf(o[i].spec));
    CanonicalHasNoCapitals(SlugOf(o[j].spec));
    MigrateKeepsHalfway(CanonicalSpec, o, order);
    if DifferOnlyInCase(t[i].spec.slug.value, t[j].spec.slug.value) {
      EqualButForCase(t[i].spec.slug.value, t[j].spec.slug.value);
    }
  }

  lemma SteadyIff(spec: Spec)
    ensures Steady(CanonicalSpec, spec) <==> Settled(SlugOf(spec))
  {
    CanonicalTwiceIff(SlugOf(spec));
  }

  /** Tables of settled slugs have no chains. */
  lemma SettledSlugsNeverChain(o: Table)
    requires forall i :: i in o && o[i].kind == REDDIT ==> Settled(SlugOf(o[i].spec))
    ensures NoChain(CanonicalSpec, o)
  {
    forall j | j in o && o[j].kind == REDDIT ensures Steady(CanonicalSpec, o[j].spec) {
      SteadyIff(o[j].spec);
    }
    SteadyNeverChains(CanonicalSpec, o);
  }

  /** Every slug's rows keep one row that holds their progress, whatever the watermarks are, exactly when no
      row's canonical slug is the present slug of a later row of its feed that is itself not canonical. */
  lemma EverySlugIsServedIff(o: Table, order: seq<Id>)
    requires WellWritten(o) && Unique(o) && ScanOf(o, order)
    ensures (forall marks :: SafeWith(CanonicalSpec, o, order, marks)) <==> NoChain(CanonicalSpec, o)
  {
    ClassesKeepTheirProgressIff(CanonicalSpec, o, order);
  }

  /** No watermark is lost, whatever the watermarks are and however far rows move, exactly when no row is
      merged into a later row that is itself merged. */
  lemma NoProgressIsLostIff(o: Table, order: seq<Id>)
    requires WellWritten(o) && Unique(o) && ScanOf(o, order)
    ensures (forall marks :: LosslessWith(CanonicalSpec, o, order, marks)) <==> NoLeak(CanonicalSpec, o)
  {
    LosslessExactlyIf(CanonicalSpec, o, order);
  }

  /** Without chains, for every Reddit row there is exactly one row of its account, feed and slug
      afterwards; it holds the canonical spec and hash and the furthest watermark of all of them. */
  lemma EachSubredditHasOneRow(o: Table, order: seq<Id>, i: Id) returns (k: Id)
    requires WellWritten(o) && Unique(o) && NoChain(CanonicalSpec, o) && ScanOf(o, order)
    requires i in o && o[i].kind == REDDIT
    ensures var t := Migrate(CanonicalSpec, o, o, order);
            && Chosen(CanonicalSpec, o, k) && SameClass(CanonicalSpec, o, i, k)
            && (forall j :: j in t && SameClass(CanonicalSpec, o, j, i) <==> j == k)
            && t[k].spec == Spec(REDDIT, Some(CanonicalSlug(SlugOf(o[i].spec))), map[])
            && t[k].hash == Sha256(t[k].spec)
            && (forall j :: SameClass(CanonicalSpec, o, j, i) ==> AtLeast(t[k].mark, o[j].mark))
            && (exists j :: SameClass(CanonicalSpec, o, j, i) && t[k].mark == o[j].mark)
  {
    EveryClassHasAChosenRow(CanonicalSpec, o, i);
    k :| Chosen(CanonicalSpec, o, k) && SameClass(CanonicalSpec, o, i, k);
    OneRowPerSubreddit(CanonicalSpec, o, order, k);
    ClassesAgree(o, Migrate(CanonicalSpec, o, o, order), i, k);
  }

  /** What is known of `k`'s class, said of `i`'s. */
  lemma ClassesAgree(o: Table, t: Table, i: Id, k: Id)
    requires SameClass(CanonicalSpec, o, i, k) && k in t
    requires forall j :: j in t && SameClass(CanonicalSpec, o, j, k) <==> j == k
    requires forall j :: SameClass(CanonicalSpec, o, j, k) ==> AtLeast(t[k].mark, o[j].mark)
    requires HasOrigin(CanonicalSpec, o, k, t[k].mark)
    ensures forall j :: j in t && SameClass(CanonicalSpec, o, j, i) <==> j == k
    ensures forall j :: SameClass(CanonicalSpec, o, j, i) ==> AtLeast(t[k].mark, o[j].mark)
    ensures exists j :: SameClass(CanonicalSpec, o, j, i) && t[k].mark == o[j].mark
  {
    forall j ensures SameClass(CanonicalSpec, o, j, i) <==> SameClass(CanonicalSpec, o, j, k) {
    }
    var j :| From(CanonicalSpec, o, j, k, t[k].mark);
    assert SameClass(CanonicalSpec, o, j, i);
  }

  /** A second run does nothing exactly when every Reddit row has a settled slug, or is to be merged into a
      later row that moves on. */
  lemma IdempotentIff(o: Table, order: seq<Id>, again: seq<Id>)
    requires WellWritten(o) && Unique(o) && ScanOf(o, order)
    requires ScanOf(Migrate(CanonicalSpec, o, o, order), again)
    ensures var t := Migrate(CanonicalSpec, o, o, order);
            && (Migrate(CanonicalSpec, t, t, again) == t <==>
                forall i :: i in o && o[i].kind == REDDIT ==>
                  Settled(SlugOf(o[i].spec)) || IsChained(CanonicalSpec, o, i))
  {
    IdempotentExactlyIf(CanonicalSpec, o, order, again);
    forall i | i in o ensures Steady(CanonicalSpec, o[i].spec) <==> Settled(SlugOf(o[i].spec)) {
      SteadyIff(o[i].spec);
    }
  }

  function RowOf(slug: string, mark: Option<int>): Row {
    var spec := Spec(REDDIT, Some(slug), map[]);
    Row("a", "f", REDDIT, spec, Sha256(spec), mark)
  }

  lemma DropsEach(slug: string, once: string, twice: string)
    requires slug != [] && Lower(slug) == slug && Trimmed(slug) && PrefixLength(slug) == 0
    requires IsPrefixed(once, slug) && IsPrefixed(twice, once)
    ensures CanonicalSlug(twice) == once && CanonicalSlug(once) == slug && CanonicalSlug(slug) == slug
  {
    CanonicalStays(slug);
    DropsOnePrefix(once, slug);
    PrefixedIsLower(once, slug);
    assert once[|once| - 1] == slug[|slug| - 1];
    DropsOnePrefix(twice, once);
  }

  /** The migration is said to be idempotent. A single row with `r/r/` before its slug takes two runs. */
  lemma DoublePrefixTakesTwoRuns(slug: string, once: string, twice: string, mark: Option<int>)
    requires slug != [] && Lower(slug) == slug && Trimmed(slug) && PrefixLength(slug) == 0
    requires IsPrefixed(once, slug) && IsPrefixed(twice, once)
    ensures var o: Table, t: Table := map[1 := RowOf(twice, mark)], map[1 := RowOf(once, mark)];
            && Migrate(CanonicalSpec, o, o, [1]) == t
            && Migrate(CanonicalSpec, t, t, [1]) == map[1 := RowOf(slug, mark)] != t
  {
    DropsEach(slug, once, twice);
    assert |once| != |slug|;
    OneRowMoves(twice, once, mark);
    OneRowMoves(once, slug, mark);
    var one: Table, two: Table := map[1 := RowOf(once, mark)], map[1 := RowOf(slug, mark)];
    assert one[1].spec.slug != two[1].spec.slug;
  }

  lemma OneRowMoves(from: string, to: string, mark: Option<int>)
    requires CanonicalSlug(from) == to != from
    ensures var o: Table := map[1 := RowOf(from, mark)];
            Migrate(CanonicalSpec, o, o, [1]) == map[1 := RowOf(to, mark)]
  {
    var o: Table := map[1 := RowOf(from, mark)];
    assert [1][..0] == [];
    assert Survivors(CanonicalSpec, o, 1, o[1]) == {};
  }

  /** The merge is said to lose no progress. Take any canonical slug, the same with `r/` before it, and
      with `r/r/` before it, in one feed: the furthest watermark is lost. */
  lemma DoublePrefixLosesProgress(slug: string, once: string, twice: string)
    requires slug != [] && Lower(slug) == slug && Trimmed(slug) && PrefixLength(slug) == 0
    requires IsPrefixed(once, slug) && IsPrefixed(twice, once)
    ensures var x, y, z := Spec(REDDIT, Some(twice), map[]), Spec(REDDIT, Some(once), map[]),
                           Spec(REDDIT, Some(slug), map[]);
            var o: Table := map[1 := Row("a", "f", REDDIT, x, Sha256(x), Some(10)),
                                2 := Row("a", "f", REDDIT, y, Sha256(y), Some(5)),
                                3 := Row("a", "f", REDDIT, z, Sha256(z), Some(1))];
            Migrate(CanonicalSpec, o, o, [1, 2, 3]) == map[3 := Row("a", "f", REDDIT, z, Sha256(z), Some(5))]
  {
    DropsEach(slug, once, twice);
    UnsteadySpecLosesProgress(CanonicalSpec, Spec(REDDIT, Some(twice), map[]), Spec(REDDIT, Some(once), map[]),
                              Spec(REDDIT, Some(slug), map[]));
  }
}
