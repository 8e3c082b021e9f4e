/** `str.lower` and `str.strip` on ASCII text. */
module Text {
  function LowerChar(c: char): char {
    if 'A' <= c <= 'Z' then c - 'A' + 'a' else c
  }

  function Lower(s: string): string {
    seq(|s|, i requires 0 <= i < |s| => LowerChar(s[i]))
  }

  predicate IsSpace(c: char) {
    c == ' ' || '\t' <= c <= '\r' || '\U{1C}' <= c <= '\U{1F}'
  }

  function StripLeft(s: string): string {
    if s != [] && IsSpace(s[0]) then StripLeft(s[1..]) else s
  }

  function StripRight(s: string): string {
    if s != [] && IsSpace(s[|s| - 1]) then StripRight(s[..|s| - 1]) else s
  }

  function Strip(s: string): string {
    StripRight(StripLeft(s))
  }

  predicate Trimmed(s: string) {
    s == [] || (!IsSpace(s[0]) && !IsSpace(s[|s| - 1]))
  }

  lemma {:induction false} StripLeftFacts(s: string)
    ensures StripLeft(s) == [] || !IsSpace(StripLeft(s)[0])
    ensures |StripLeft(s)| <= |s|
    ensures StripLeft(s) == s <==> s == [] || !IsSpace(s[0])
  {
    if s != [] && IsSpace(s[0]) {
      StripLeftFacts(s[1..]);
    }
  }

  lemma {:induction false} StripRightFacts(s: string)
    ensures StripRight(s) == [] || !IsSpace(StripRight(s)[|StripRight(s)| - 1])
    ensures StripRight(s) <= s
    ensures StripRight(s) == s <==> s == [] || !IsSpace(s[|s| - 1])
  {
    if s != [] && IsSpace(s[|s| - 1]) {
      StripRightFacts(s[..|s| - 1]);
    }
  }

  lemma StripTrims(s: string)
    ensures Trimmed(Strip(s))
  {
    StripLeftFacts(s);
    StripRightFacts(StripLeft(s));
  }

  /** Stripping changes nothing exactly when neither end is white space, and shortens otherwise. */
  lemma StripFixes(s: string)
    ensures Trimmed(s) ==> Strip(s) == s
    ensures !Trimmed(s) ==> |Strip(s)| < |s|
  {
    StripLeftFacts(s);
    StripRightFacts(StripLeft(s));
    if s != [] && IsSpace(s[0]) {
      StripLeftFacts(s[1..]);
    }
  }

  lemma LowerCharFacts(c: char)
    ensures LowerChar(LowerChar(c)) == LowerChar(c)
    ensures IsSpace(LowerChar(c)) <==> IsSpace(c)
    ensures LowerChar(c) == '/' <==> c == '/'
  {
  }

  /** Lower-casing neither makes nor hides white space, and doing it twice is doing it once. */
  lemma LowerFacts(s: string)
    ensures Lower(Lower(s)) == Lower(s)
    ensures Trimmed(Lower(s)) <==> Trimmed(s)
  {
    forall i | 0 <= i < |s|
      ensures Lower(Lower(s))[i] == Lower(s)[i] && (IsSpace(Lower(s)[i]) <==> IsSpace(s[i]))
    {
      LowerCharFacts(s[i]);
    }
  }

  // ---------------------------------------------------------------------------------------
  // What the two do, character by character
  // ---------------------------------------------------------------------------------------

  /** The letters correspond, and capitals may stand for small letters. */
  predicate DifferOnlyInCase(s: string, t: string) {
    |s| == |t| && forall i :: 0 <= i < |s| ==> SameLetter(s[i], t[i])
  }

  predicate SameLetter(c: char, d: char) {
    c == d
    || ('A' <= c <= 'Z' && d as int == c as int + 32)
    || ('A' <= d <= 'Z' && c as int == d as int + 32)
  }

  /** Capital letters become the small ones, and nothing else changes. */
  lemma LowerIs(s: string)
    ensures |Lower(s)| == |s|
    ensures forall i :: 0 <= i < |s| && 'A' <= s[i] <= 'Z' ==> Lower(s)[i] as int == s[i] as int + 32
    ensures forall i :: 0 <= i < |s| && !('A' <= s[i] <= 'Z') ==> Lower(s)[i] == s[i]
    ensures forall c :: c in Lower(s) ==> !('A' <= c <= 'Z')
  {
  }

  lemma LowerCharsAgreeIff(c: char, d: char)
    ensures LowerChar(c) == LowerChar(d) <==> SameLetter(c, d)
  {
  }

  /** Two strings have the same lower case exactly when they differ only in case. */
  lemma LowerAgreesIff(s: string, t: string)
    ensures Lower(s) == Lower(t) <==> DifferOnlyInCase(s, t)
  {
    if |s| == |t| {
      forall i | 0 <= i < |s|
        ensures Lower(s)[i] == Lower(t)[i] <==> SameLetter(s[i], t[i])
      {
        LowerCharsAgreeIff(s[i], t[i]);
      }
    } else {
      assert |Lower(s)| != |Lower(t)|;
    }
  }

  predicate Blank(s: string) {
    forall i :: 0 <= i < |s| ==> IsSpace(s[i])
  }

  lemma {:induction false} StripLeftDrops(p: string, s: string)
    requires Blank(p) && (s == [] || !IsSpace(s[0]))
    ensures StripLeft(p + s) == s
  {
    if p == [] {
      assert p + s == s;
      StripLeftFacts(s);
    } else {
      assert (p + s)[0] == p[0] && (p + s)[1..] == p[1..] + s;
      StripLeftDrops(p[1..], s);
    }
  }

  lemma {:induction false} StripRightDrops(s: string, q: string)
    requires Blank(q) && (s == [] || !IsSpace(s[|s| - 1]))
    ensures StripRight(s + q) == s
  {
    if q == [] {
      assert s + q == s;
      StripRightFacts(s);
    } else {
      var n := |q| - 1;
      assert (s + q)[|s| + n] == q[n] && (s + q)[..|s| + n] == s + q[..n];
      StripRightDrops(s, q[..n]);
    }
  }

  /** Stripping takes away exactly the white space around a string. */
  lemma StripDrops(p: string, s: string, q: string)
    requires Blank(p) && Blank(q) && Trimmed(s)
    ensures Strip(p + s + q) == s
  {
    if s == [] {
      assert p + s + q == (p + q) + [];
      StripLeftDrops(p + q, []);
      StripRightFacts([]);
    } else {
      assert p + s + q == p + (s + q) && (s + q)[0] == s[0];
      StripLeftDrops(p, s + q);
      StripRightDrops(s, q);
    }
  }
}
