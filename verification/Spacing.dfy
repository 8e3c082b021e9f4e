/** How many instants a minimum gap leaves room for. */
module Spacing {
  /** Each instant is at least `gap` after every earlier one. */
  ghost predicate Spaced(s: seq<int>, gap: nat) {
    forall i, j :: 0 <= i < j < |s| ==> s[i] + gap <= s[j]
  }

  /** The instants from `lo` up to and including `hi`. */
  function Within(s: seq<int>, lo: int, hi: int): seq<int> {
    if s == [] then []
    else
      var last := s[|s| - 1];
      Within(s[..|s| - 1], lo, hi) + (if lo <= last <= hi then [last] else [])
  }

  lemma {:induction false} WithinIsSpaced(s: seq<int>, gap: nat, lo: int, hi: int)
    requires Spaced(s, gap)
    ensures Spaced(Within(s, lo, hi), gap)
    ensures forall k :: 0 <= k < |Within(s, lo, hi)| ==> lo <= Within(s, lo, hi)[k] <= hi
    ensures forall k :: 0 <= k < |Within(s, lo, hi)| ==> Within(s, lo, hi)[k] in s
  {
    if s != [] {
      var init, last := s[..|s| - 1], s[|s| - 1];
      WithinIsSpaced(init, gap, lo, hi);
      assert s == init + [last];
      var w := Within(init, lo, hi);
      forall k | 0 <= k < |w|
        ensures w[k] + gap <= last
      {
        assert w[k] in init;
        var i :| 0 <= i < |init| && init[i] == w[k];
        assert s[i] == w[k];
      }
    }
  }

  lemma {:induction false} SpreadsOut(s: seq<int>, gap: nat)
    requires Spaced(s, gap) && s != []
    ensures s[0] + (|s| - 1) * gap <= s[|s| - 1]
  {
    if |s| > 1 {
      SpreadsOut(s[..|s| - 1], gap);
      assert s[|s| - 2] + gap <= s[|s| - 1];
      assert (|s| - 2) * gap + gap == (|s| - 1) * gap;
    }
  }

  /** In an interval of length `t` there are at most `t / gap + 1` of them. */
  lemma AtMost(s: seq<int>, gap: nat, lo: int, t: nat)
    requires Spaced(s, gap) && gap > 0
    ensures |Within(s, lo, lo + t)| <= t / gap + 1
  {
    WithinIsSpaced(s, gap, lo, lo + t);
    SpacedFits(Within(s, lo, lo + t), gap, lo, t);
  }

  lemma SpacedFits(w: seq<int>, gap: nat, lo: int, t: nat)
    requires Spaced(w, gap) && gap > 0
    requires forall k :: 0 <= k < |w| ==> lo <= w[k] <= lo + t
    ensures |w| <= t / gap + 1
  {
    if w != [] {
      SpreadsOut(w, gap);
      var n := |w| - 1;
      assert n * gap <= t;
      Fits(n, gap, t);
    }
  }

  lemma Fits(n: nat, gap: nat, t: nat)
    requires gap > 0 && n * gap <= t
    ensures n <= t / gap
  {
    var q := t / gap;
    assert t < q * gap + gap;
    Cancels(q + 1 - n, gap);
    assert (q + 1 - n) * gap == q * gap + gap - n * gap;
  }

  lemma Cancels(d: int, gap: nat)
    requires gap > 0
    ensures d * gap > 0 ==> d > 0
  {
  }
}
