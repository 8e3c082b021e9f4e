/**
 Error paths (`apps/core/common/pydantic_errors.py`): a validation error's location is printed as a flat
 field path, and messages are grouped by that path.
 */
module ErrorPaths {
  import opened Sums

  datatype Seg = Index(i: int) | Name(name: string)

  type Loc = seq<Seg>

  datatype Failure = Failure(loc: Loc, msg: string)

  const ROOT: string := "__root__"

  // ---------------------------------------------------------------------------------------
  // Printing
  // ---------------------------------------------------------------------------------------

  function DecimalNat(n: nat): string {
    if n < 10 then ['0' + n as char] else DecimalNat(n / 10) + ['0' + (n % 10) as char]
  }

  function Decimal(i: int): string {
    if i < 0 then "-" + DecimalNat(-i) else DecimalNat(i)
  }

  function Piece(seg: Seg, first: bool): string {
    match seg
    case Index(i) => "[" + Decimal(i) + "]"
    case Name(name) => if first then name else "." + name
  }

  /** The pieces after the first, run together. */
  function Rest(loc: Loc): string {
    if loc == [] then "" else Piece(loc[0], false) + Rest(loc[1..])
  }

  function Render(loc: Loc): string {
    if loc == [] then "" else Piece(loc[0], true) + Rest(loc[1..])
  }

  function OrRoot(text: string): string {
    if text == "" then ROOT else text
  }

  function Path(loc: Loc): string {
    OrRoot(Render(loc))
  }

  function Join(parts: seq<string>): string {
    if parts == [] then "" else Join(parts[..|parts| - 1]) + parts[|parts| - 1]
  }

  /** `loc_to_path`: a piece per segment, a dot before every name but a leading one. */
  method LocToPath(loc: Loc) returns (path: string)
    ensures path == Path(loc)
  {
    var parts: seq<string> := [];
    for i := 0 to |loc|
      invariant |parts| == i
      invariant Join(parts) == Render(loc[..i])
    {
      var seg := loc[i];
      var piece := match seg {
        case Index(n) => "[" + Decimal(n) + "]"
        case Name(name) => if parts == [] then name else "." + name
      };
      assert (parts + [piece])[..i] == parts;
      parts := parts + [piece];
      assert loc[..i + 1] == loc[..i] + [seg];
      RenderSnoc(loc[..i], seg);
    }
    assert loc[..|loc|] == loc;
    var joined := Join(parts);
    path := if joined == "" then ROOT else joined;
  }

  lemma {:induction false} RestConcat(a: Loc, b: Loc)
    ensures Rest(a + b) == Rest(a) + Rest(b)
  {
    if a == [] {
      assert a + b == b;
    } else {
      assert (a + b)[1..] == a[1..] + b;
      RestConcat(a[1..], b);
    }
  }

  lemma RestOfOne(seg: Seg)
    ensures Rest([seg]) == Piece(seg, false)
  {
    assert [seg][1..] == [];
    assert Rest([seg]) == Piece(seg, false) + "";
  }

  lemma RenderSnoc(a: Loc, seg: Seg)
    ensures Render(a + [seg]) == Render(a) + Piece(seg, a == [])
  {
    var piece := Piece(seg, a == []);
    if a == [] {
      assert a + [seg] == [seg] && [seg][1..] == [];
      assert Render([seg]) == piece + "";
    } else {
      assert (a + [seg])[0] == a[0] && (a + [seg])[1..] == a[1..] + [seg];
      RestConcat(a[1..], [seg]);
      RestOfOne(seg);
      Associate(Piece(a[0], true), Rest(a[1..]), piece);
    }
  }

  lemma Associate(x: string, y: string, z: string)
    ensures x + (y + z) == x + y + z
  {
  }

  // ---------------------------------------------------------------------------------------
  // Decimals read back
  // ---------------------------------------------------------------------------------------

  function ReadNat(s: string): int {
    if s == "" then 0 else 10 * ReadNat(s[..|s| - 1]) + (s[|s| - 1] as int - '0' as int)
  }

  function ReadInt(s: string): int {
    if s != "" && s[0] == '-' then -ReadNat(s[1..]) else ReadNat(s)
  }

  predicate AllDigits(s: string) {
    forall k :: 0 <= k < |s| ==> '0' <= s[k] <= '9'
  }

  lemma {:induction false} DecimalNatReads(n: nat)
    ensures DecimalNat(n) != "" && AllDigits(DecimalNat(n))
    ensures ReadNat(DecimalNat(n)) == n
  {
    if n >= 10 {
      DecimalNatReads(n / 10);
      assert DecimalNat(n)[..|DecimalNat(n)| - 1] == DecimalNat(n / 10);
    }
  }

  lemma DecimalReads(i: int)
    ensures Decimal(i) != ""
    ensures ']' !in Decimal(i)
    ensures ReadInt(Decimal(i)) == i
  {
    if i < 0 {
      DecimalNatReads(-i);
      assert Decimal(i)[1..] == DecimalNat(-i);
    } else {
      DecimalNatReads(i);
    }
  }

  /** A number is written in base ten, its last digit last, and a minus sign before a negative one. */
  lemma DecimalIs(n: int, d: nat)
    requires n >= 0 && d < 10
    ensures Decimal(d) == ['0' + d as char]
    ensures n > 0 ==> Decimal(10 * n + d) == Decimal(n) + ['0' + d as char]
    ensures n > 0 ==> Decimal(-n) == "-" + Decimal(n)
  {
    assert (10 * n + d) / 10 == n && (10 * n + d) % 10 == d;
  }

  /** A path starts with a name as it is, or with an index in brackets; no location at all is the root. */
  lemma PathStarts(name: string, i: int)
    ensures name != "" ==> Path([Name(name)]) == name
    ensures Path([Index(i)]) == "[" + Decimal(i) + "]"
    ensures Path([]) == "__root__"
  {
    assert [Name(name)][1..] == [] && [Index(i)][1..] == [];
    assert Render([Name(name)]) == name + "";
    assert Render([Index(i)]) == "[" + Decimal(i) + "]" + "";
  }

  /** It goes on with a dot before a name and brackets around an index. */
  lemma PathGrows(loc: Loc, name: string, i: int)
    requires loc != [] && loc != [Name("")]
    ensures Path(loc + [Name(name)]) == Path(loc) + ("." + name)
    ensures Path(loc + [Index(i)]) == Path(loc) + ("[" + Decimal(i) + "]")
  {
    RenderSnoc(loc, Name(name));
    RenderSnoc(loc, Index(i));
    RenderShows(loc);
  }

  lemma RenderShows(loc: Loc)
    requires loc != [] && loc != [Name("")]
    ensures Render(loc) != ""
  {
    if loc[0] == Name("") {
      assert loc == [Name("")] + loc[1..];
      assert Rest(loc[1..]) == Piece(loc[1], false) + Rest(loc[1..][1..]);
    }
  }

  // ---------------------------------------------------------------------------------------
  // Parsing
  // ---------------------------------------------------------------------------------------

  predicate Plain(name: string) {
    '.' !in name && '[' !in name
  }

  /** Where the first character of `stops` is, or the length. */
  function Until(s: string, stops: set<char>): (n: nat)
    ensures n <= |s|
    ensures forall k :: 0 <= k < n ==> s[k] !in stops
    ensures n < |s| ==> s[n] in stops
  {
    if s == "" || s[0] in stops then 0 else 1 + Until(s[1..], stops)
  }

  lemma UntilIs(head: string, tail: string, stops: set<char>)
    requires forall k :: 0 <= k < |head| ==> head[k] !in stops
    requires tail == "" || tail[0] in stops
    ensures Until(head + tail, stops) == |head|
  {
    var s := head + tail;
    assert forall k :: 0 <= k < |head| ==> s[k] == head[k];
    assert tail != "" ==> s[|head|] == tail[0];
  }

  const STOPS: set<char> := {'.', '['}

  /** What follows the first name: dotted names and bracketed indices. */
  function ParseRest(s: string): Loc
    decreases |s|
  {
    if s == "" then []
    else if s[0] == '[' then
      var n := Until(s[1..], {']'});
      [Index(ReadInt(s[1..][..n]))] + (if n < |s| - 1 then ParseRest(s[n + 2..]) else [])
    else
      var n := Until(s[1..], STOPS);
      [Name(s[1..][..n])] + ParseRest(s[n + 1..])
  }

  function Parse(path: string): Loc {
    if path == ROOT || path == "" then []
    else if path[0] == '[' then ParseRest(path)
    else
      var n := Until(path, STOPS);
      [Name(path[..n])] + ParseRest(path[n..])
  }

  ghost predicate PlainNames(loc: Loc) {
    forall k :: 0 <= k < |loc| && loc[k].Name? ==> Plain(loc[k].name)
  }

  /** A leading empty name prints as nothing, so it shows only through the dot that follows it. */
  predicate HeadShows(loc: Loc) {
    loc == [] || loc[0] != Name("") || (|loc| > 1 && loc[1].Name?)
  }

  ghost predicate Recoverable(loc: Loc) {
    PlainNames(loc) && HeadShows(loc) && loc != [Name(ROOT)]
  }

  lemma {:induction false} ParseRestInverts(loc: Loc)
    requires PlainNames(loc)
    ensures ParseRest(Rest(loc)) == loc
    ensures Rest(loc) == "" <==> loc == []
    ensures loc != [] ==> Rest(loc)[0] in STOPS && (Rest(loc)[0] == '[' <==> loc[0].Index?)
  {
    if loc != [] {
      var tail := Rest(loc[1..]);
      ParseRestInverts(loc[1..]);
      match loc[0]
      case Index(i) =>
        ParseIndex(i, tail);
        assert "[" + Decimal(i) + "]" + tail == Rest(loc);
      case Name(name) =>
        ParseName(name, tail);
        assert "." + name + tail == Rest(loc);
        assert Plain(loc[0].name);
    }
  }

  lemma ParseIndex(i: int, tail: string)
    ensures ParseRest("[" + Decimal(i) + "]" + tail) == [Index(i)] + ParseRest(tail)
  {
    var s := "[" + Decimal(i) + "]" + tail;
    DecimalReads(i);
    assert s[1..] == Decimal(i) + ("]" + tail);
    UntilIs(Decimal(i), "]" + tail, {']'});
    assert s[1..][..|Decimal(i)|] == Decimal(i);
    assert s[|Decimal(i)| + 2..] == tail;
  }

  lemma ParseName(name: string, tail: string)
    requires Plain(name)
    requires tail == "" || tail[0] in STOPS
    ensures ParseRest("." + name + tail) == [Name(name)] + ParseRest(tail)
  {
    var s := "." + name + tail;
    assert s[1..] == name + tail;
    UntilIs(name, tail, STOPS);
    assert s[1..][..|name|] == name;
    assert s[|name| + 1..] == tail;
  }

  lemma {:induction false} ParseRestIsPlain(s: string)
    ensures PlainNames(ParseRest(s))
    decreases |s|
  {
    if s != "" {
      if s[0] == '[' {
        var n := Until(s[1..], {']'});
        if n < |s| - 1 {
          ParseRestIsPlain(s[n + 2..]);
        }
      } else {
        var n := Until(s[1..], STOPS);
        ParseRestIsPlain(s[n + 1..]);
        assert Plain(s[1..][..n]);
      }
    }
  }

  lemma ParseIsPlain(path: string)
    ensures PlainNames(Parse(path))
  {
    if path != ROOT && path != "" {
      if path[0] == '[' {
        ParseRestIsPlain(path);
      } else {
        var n := Until(path, STOPS);
        ParseRestIsPlain(path[n..]);
        assert Plain(path[..n]);
      }
    }
  }

  lemma PlainTail(loc: Loc)
    requires PlainNames(loc) && loc != []
    ensures PlainNames(loc[1..])
  {
    forall k | 0 <= k < |loc[1..]| && loc[1..][k].Name?
      ensures Plain(loc[1..][k].name)
    {
      assert loc[1..][k] == loc[k + 1];
    }
  }

  lemma ParseRendered(loc: Loc)
    requires Recoverable(loc) && loc != [] && loc[0].Name?
    ensures Path(loc) == Render(loc) == loc[0].name + Rest(loc[1..])
    ensures Parse(Path(loc)) == loc
  {
    var name, tail := loc[0].name, Rest(loc[1..]);
    PlainTail(loc);
    ParseRestInverts(loc[1..]);
    assert Plain(name);
    assert tail == "" ==> loc == [Name(name)];
    ParseLeadingName(name, tail);
  }

  lemma ParseLeadingName(name: string, tail: string)
    requires Plain(name) && (tail == "" ==> name != "" && name != ROOT)
    requires tail != "" ==> tail[0] in STOPS && (name == "" ==> tail[0] != '[')
    ensures OrRoot(name + tail) == name + tail
    ensures Parse(name + tail) == [Name(name)] + ParseRest(tail)
  {
    var path := name + tail;
    UntilIs(name, tail, STOPS);
    assert path[..|name|] == name && path[|name|..] == tail;
    RootHasNoStops();
    assert tail != "" ==> path[|name|] in STOPS;
    assert tail == "" ==> path == name;
    assert path != ROOT;
    assert name != "" ==> path[0] == name[0];
  }

  lemma RootHasNoStops()
    ensures forall k :: 0 <= k < |ROOT| ==> ROOT[k] !in STOPS
  {
  }

  /** The path of a location parses back to it exactly when its names have no `.` or `[`, a leading empty
      name is followed by a name, and it is not the one name `__root__`. */
  lemma ParseInvertsIff(loc: Loc)
    ensures Parse(Path(loc)) == loc <==> Recoverable(loc)
  {
    ParseIsPlain(Path(loc));
    if Recoverable(loc) && loc != [] {
      if loc[0].Name? {
        ParseRendered(loc);
      } else {
        ParseRestInverts(loc);
        assert Render(loc) == Rest(loc);
        assert Rest(loc)[0] == '[' && ROOT[0] == '_';
      }
    } else if loc != [] && loc[0] == Name("") && !HeadShows(loc) {
      assert Render(loc) == Rest(loc[1..]);
      if |loc| > 1 {
        assert Rest(loc[1..])[0] == '[';
        assert Render(loc) != ROOT;
      }
    }
  }

  /** So different leaves have different paths. */
  lemma LeavesNeverCollide(a: Loc, b: Loc)
    requires Recoverable(a) && Recoverable(b) && Path(a) == Path(b)
    ensures a == b
  {
    ParseInvertsIff(a);
    ParseInvertsIff(b);
  }

  /** Outside that family they can: a dotted key prints like a nested one. */
  lemma DottedNamesCollide(x: string, y: string)
    ensures Path([Name(x + "." + y)]) == Path([Name(x), Name(y)])
  {
    assert [Name(x), Name(y)][1..] == [Name(y)];
    assert [Name(x + "." + y)][1..] == [];
    assert Rest([Name(y)]) == "." + y + Rest([]);
    assert x + ("." + y) == x + "." + y;
  }

  predicate Alias(a: Seg, b: Seg) {
    || (a == Name("") && b == Name(ROOT))
    || (a.Index? && b == Name("[" + Decimal(a.i) + "]"))
  }

  /** Two errors under one parent collide only at the root, and only in two ways, whatever the names:
      an index against a key spelled like it, or an empty key against `__root__`. */
  lemma SiblingsCollideIff(parent: Loc, a: Seg, b: Seg)
    requires a != b
    ensures Path(parent + [a]) == Path(parent + [b]) <==> parent == [] && (Alias(a, b) || Alias(b, a))
  {
    RenderSnoc(parent, a);
    RenderSnoc(parent, b);
    if parent == [] {
      assert Render(parent) + Piece(a, true) == Piece(a, true);
      assert Render(parent) + Piece(b, true) == Piece(b, true);
      PiecesDiffer(a, b);
    } else {
      var p, x, y := Render(parent), Piece(a, false), Piece(b, false);
      PiecesDiffer(a, b);
      PrefixCancels(p, x, y);
    }
  }

  lemma PrefixCancels(p: string, x: string, y: string)
    ensures p + x == p + y <==> x == y
  {
    assert (p + x)[|p|..] == x && (p + y)[|p|..] == y;
  }

  lemma PiecesDiffer(a: Seg, b: Seg)
    requires a != b
    ensures Piece(a, false) != Piece(b, false) && Piece(a, false) != "" && Piece(b, false) != ""
    ensures OrRoot(Piece(a, true)) == OrRoot(Piece(b, true)) <==> Alias(a, b) || Alias(b, a)
  {
    match (a, b)
    case (Index(i), Index(j)) =>
      DecimalReads(i);
      DecimalReads(j);
      BracketsCancel(Decimal(i), Decimal(j));
    case (Name(x), Name(y)) =>
      PrefixCancels(".", x, y);
    case (Index(i), Name(y)) =>
      assert Piece(a, false)[0] == '[' && Piece(b, false)[0] == '.';
    case (Name(x), Index(j)) =>
      assert Piece(a, false)[0] == '.' && Piece(b, false)[0] == '[';
  }

  lemma BracketsCancel(x: string, y: string)
    ensures "[" + x + "]" == "[" + y + "]" <==> x == y
  {
    assert ("[" + x + "]")[1..|x| + 1] == x && ("[" + y + "]")[1..|y| + 1] == y;
  }

  // ---------------------------------------------------------------------------------------
  // Grouping
  // ---------------------------------------------------------------------------------------

  /** The messages whose location prints as `path`, in order. */
  function MessagesAt(errs: seq<Failure>, path: string): seq<string> {
    if errs == [] then []
    else
      var last := errs[|errs| - 1];
      MessagesAt(errs[..|errs| - 1], path) + (if Path(last.loc) == path then [last.msg] else [])
  }

  /** The messages of exactly this location, in order. */
  function MessagesOf(errs: seq<Failure>, loc: Loc): seq<string> {
    if errs == [] then []
    else
      var last := errs[|errs| - 1];
      MessagesOf(errs[..|errs| - 1], loc) + (if last.loc == loc then [last.msg] else [])
  }

  /** How many messages there are in all. */
  ghost function Total(m: map<string, seq<string>>): nat {
    Sum(Lengths(m))
  }

  function Lengths(m: map<string, seq<string>>): map<string, nat> {
    map k | k in m :: |m[k]|
  }

  function Appended(out: map<string, seq<string>>, path: string, msg: string): map<string, seq<string>> {
    out[path := (if path in out then out[path] else []) + [msg]]
  }

  lemma TotalAppend(m: map<string, seq<string>>, k: string, msg: string)
    ensures Total(Appended(m, k, msg)) == Total(m) + 1
  {
    var before := Lengths(m);
    var n := if k in m then |m[k]| else 0;
    assert Lengths(Appended(m, k, msg)) == before[k := n + 1];
    SumUpdate(before, k, n + 1);
    if k in m {
      SumWithout(before, k);
    }
  }

  ghost predicate Grouped(errs: seq<Failure>, out: map<string, seq<string>>) {
    && (forall path :: path in out <==> MessagesAt(errs, path) != [])
    && (forall path :: path in out ==> out[path] == MessagesAt(errs, path))
    && Total(out) == |errs|
  }

  function Fold(errs: seq<Failure>): map<string, seq<string>> {
    if errs == [] then map[]
    else
      var last := errs[|errs| - 1];
      Appended(Fold(errs[..|errs| - 1]), Path(last.loc), last.msg)
  }

  lemma {:induction false} FoldAt(errs: seq<Failure>, path: string)
    ensures path in Fold(errs) <==> MessagesAt(errs, path) != []
    ensures path in Fold(errs) ==> Fold(errs)[path] == MessagesAt(errs, path)
  {
    if errs != [] {
      FoldAt(errs[..|errs| - 1], path);
    }
  }

  lemma {:induction false} FoldTotal(errs: seq<Failure>)
    ensures Total(Fold(errs)) == |errs|
  {
    if errs != [] {
      var init, last := errs[..|errs| - 1], errs[|errs| - 1];
      FoldTotal(init);
      TotalAppend(Fold(init), Path(last.loc), last.msg);
    }
  }

  lemma FoldGroups(errs: seq<Failure>)
    ensures Grouped(errs, Fold(errs))
  {
    FoldTotal(errs);
    forall path: string
      ensures path in Fold(errs) <==> MessagesAt(errs, path) != []
      ensures path in Fold(errs) ==> Fold(errs)[path] == MessagesAt(errs, path)
    {
      FoldAt(errs, path);
    }
  }

  lemma FoldNext(errs: seq<Failure>, i: nat)
    requires i < |errs|
    ensures Fold(errs[..i + 1]) == Appended(Fold(errs[..i]), Path(errs[i].loc), errs[i].msg)
  {
    assert errs[..i + 1][..i] == errs[..i];
  }

  /** `setdefault` and `append`. */
  method SetDefaultAppend(before: map<string, seq<string>>, path: string, msg: string)
    returns (out: map<string, seq<string>>)
    ensures out == Appended(before, path, msg)
  {
    out := before;
    if path !in out {
      out := out[path := []];
    }
    out := out[path := out[path] + [msg]];
  }

  /** `pydantic_errors_to_drf`: each path's messages in order, and none lost or added. */
  method PydanticErrorsToDrf(errs: seq<Failure>) returns (out: map<string, seq<string>>)
    ensures Grouped(errs, out)
  {
    out := map[];
    for i := 0 to |errs|
      invariant out == Fold(errs[..i])
    {
      var path := LocToPath(errs[i].loc);
      FoldNext(errs, i);
      out := SetDefaultAppend(out, path, errs[i].msg);
    }
    assert errs[..|errs|] == errs;
    FoldGroups(errs);
  }

  /** `at` lists, in ascending order, exactly the places where `paths` has `path`, and `msgs` are what `texts`
      has there. */
  ghost predicate TakenFrom(paths: seq<string>, texts: seq<string>, path: string, at: seq<nat>, msgs: seq<string>)
    requires |paths| == |texts|
  {
    && |at| == |msgs|
    && (forall k, l :: 0 <= k < l < |at| ==> at[k] < at[l])
    && (forall k :: 0 <= k < |at| ==> at[k] < |paths| && texts[at[k]] == msgs[k] && paths[at[k]] == path)
    && (forall i :: 0 <= i < |paths| && paths[i] == path ==> i in at)
  }

  lemma TakeOneMore(paths: seq<string>, texts: seq<string>, path: string, at: seq<nat>, msgs: seq<string>,
                    p: string, text: string)
    requires |paths| == |texts| && TakenFrom(paths, texts, path, at, msgs)
    ensures p == path ==> TakenFrom(paths + [p], texts + [text], path, at + [|paths|], msgs + [text])
    ensures p != path ==> TakenFrom(paths + [p], texts + [text], path, at, msgs)
  {
    assert (at + [|paths|])[|at|] == |paths|;
    assert forall i :: i in at ==> i in at + [|paths|];
  }

  /** The texts at the places of a path, and those places. */
  function Select(paths: seq<string>, texts: seq<string>, path: string): seq<string>
    requires |paths| == |texts|
  {
    if paths == [] then []
    else
      var n := |paths| - 1;
      var before := Select(paths[..n], texts[..n], path);
      if paths[n] == path then before + [texts[n]] else before
  }

  ghost function Places(paths: seq<string>, path: string): seq<nat> {
    if paths == [] then []
    else
      var n := |paths| - 1;
      if paths[n] == path then Places(paths[..n], path) + [n] else Places(paths[..n], path)
  }

  lemma {:induction false} SelectedInOrder(paths: seq<string>, texts: seq<string>, path: string)
    requires |paths| == |texts|
    ensures TakenFrom(paths, texts, path, Places(paths, path), Select(paths, texts, path))
  {
    if paths != [] {
      var n := |paths| - 1;
      SelectedInOrder(paths[..n], texts[..n], path);
      TakeOneMore(paths[..n], texts[..n], path, Places(paths[..n], path), Select(paths[..n], texts[..n], path),
                  paths[n], texts[n]);
      assert paths == paths[..n] + [paths[n]] && texts == texts[..n] + [texts[n]];
    }
  }

  function Paths(errs: seq<Failure>): (paths: seq<string>)
    ensures |paths| == |errs|
  {
    seq(|errs|, i requires 0 <= i < |errs| => Path(errs[i].loc))
  }

  function Texts(errs: seq<Failure>): (texts: seq<string>)
    ensures |texts| == |errs|
  {
    seq(|errs|, i requires 0 <= i < |errs| => errs[i].msg)
  }

  lemma PathsInit(errs: seq<Failure>)
    requires errs != []
    ensures var n := |errs| - 1;
            && Paths(errs)[..n] == Paths(errs[..n]) && Paths(errs)[n] == Path(errs[n].loc)
            && Texts(errs)[..n] == Texts(errs[..n]) && Texts(errs)[n] == errs[n].msg
  {
  }

  lemma {:induction false} MessagesAreSelected(errs: seq<Failure>, path: string)
    ensures MessagesAt(errs, path) == Select(Paths(errs), Texts(errs), path)
  {
    if errs != [] {
      var init := errs[..|errs| - 1];
      MessagesAreSelected(init, path);
      PathsInit(errs);
      assert MessagesAt(init, path) + [] == MessagesAt(init, path);
    }
  }

  /** A path's list is the messages of its failures, all of them, each once, in the order they came. */
  lemma MessagesComeInOrder(errs: seq<Failure>, path: string)
    ensures TakenFrom(Paths(errs), Texts(errs), path, Places(Paths(errs), path), MessagesAt(errs, path))
  {
    MessagesAreSelected(errs, path);
    SelectedInOrder(Paths(errs), Texts(errs), path);
  }

  /** When every location is recoverable, a path's list is the messages of one location and no other. */
  lemma {:induction false} OneLeafPerPath(errs: seq<Failure>, loc: Loc)
    requires Recoverable(loc)
    requires forall k :: 0 <= k < |errs| ==> Recoverable(errs[k].loc)
    ensures MessagesAt(errs, Path(loc)) == MessagesOf(errs, loc)
  {
    if errs != [] {
      var init, last := errs[..|errs| - 1], errs[|errs| - 1];
      OneLeafPerPath(init, loc);
      if Path(last.loc) == Path(loc) {
        LeavesNeverCollide(last.loc, loc);
      }
    }
  }
}
