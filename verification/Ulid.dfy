/**
 ULID cutoffs (`apps/core/common/fields.py`): rows are pruned by `id < min_ulid_at(t)`, a comparison of
 strings, in place of a comparison of creation times.
 */
module Ulid {
  /** Crockford's base 32, in ascending order of its characters. */
  const ALPHABET: string := "0123456789ABCDEFGHJKMNPQRSTVWXYZ"

  // ---------------------------------------------------------------------------------------
  // Digits and strings
  // ---------------------------------------------------------------------------------------

  function DigitOf(c: char): (d: nat)
    ensures d <= 32
  {
    if '0' <= c <= '9' then (c - '0') as int
    else if 'A' <= c <= 'H' then (c - 'A') as int + 10
    else if 'J' <= c <= 'K' then (c - 'J') as int + 18
    else if 'M' <= c <= 'N' then (c - 'M') as int + 20
    else if 'P' <= c <= 'T' then (c - 'P') as int + 22
    else if 'V' <= c <= 'Z' then (c - 'V') as int + 27
    else 32
  }

  predicate Digits(s: string) {
    forall i :: 0 <= i < |s| ==> DigitOf(s[i]) < 32
  }

  /** `is_valid_ulid`: 26 characters of the alphabet. */
  predicate IsValidUlid(s: string) {
    |s| == 26 && Digits(s)
  }

  /** The character of a digit. */
  function Digit(d: nat): char
    requires d < 32
  {
    if d < 10 then '0' + d as char
    else if d < 18 then 'A' + (d - 10) as char
    else if d < 20 then 'J' + (d - 18) as char
    else if d < 22 then 'M' + (d - 20) as char
    else if d < 27 then 'P' + (d - 22) as char
    else 'V' + (d - 27) as char
  }

  lemma DigitsSpellTheAlphabet(d: nat)
    requires d < 32
    ensures Digit(d) == ALPHABET[d]
  {
  }

  /** The characters allowed are those of the pattern `[0-9A-HJ-KM-NP-TV-Z]`, and there are 26 of them. */
  lemma ValidIff(s: string)
    ensures IsValidUlid(s) <==>
              |s| == 26 && forall i :: 0 <= i < |s| ==>
                || '0' <= s[i] <= '9' || 'A' <= s[i] <= 'H' || 'J' <= s[i] <= 'K'
                || 'M' <= s[i] <= 'N' || 'P' <= s[i] <= 'T' || 'V' <= s[i] <= 'Z'
  {
  }

  lemma DigitOrder(a: char, b: char)
    requires DigitOf(a) < 32 && DigitOf(b) < 32
    ensures a < b <==> DigitOf(a) < DigitOf(b)
    ensures a == b <==> DigitOf(a) == DigitOf(b)
  {
  }

  lemma DigitOfDigit(d: nat)
    requires d < 32
    ensures DigitOf(Digit(d)) == d
  {
  }

  /** The order of strings. */
  predicate Less(a: string, b: string) {
    b != [] && (a == [] || a[0] < b[0] || (a[0] == b[0] && Less(a[1..], b[1..])))
  }

  /** The number a digit string denotes, most significant digit first. */
  function Value(s: string): nat
    decreases |s|
  {
    if s == [] then 0 else 32 * Value(s[..|s| - 1]) + DigitOf(s[|s| - 1])
  }

  function Pow32(n: nat): nat {
    if n == 0 then 1 else 32 * Pow32(n - 1)
  }

  function Encode(t: nat, n: nat): (s: string)
    ensures |s| == n
    decreases n
  {
    if n == 0 then "" else Encode(t / 32, n - 1) + [Digit(t % 32)]
  }

  /** The library's `encode_time`: digits from the least significant, put in front. */
  method EncodeTime(time: nat, length: nat) returns (s: string)
    ensures s == Encode(time, length)
  {
    s := "";
    var t := time;
    for i := 0 to length
      invariant |s| == i
      invariant Encode(time, length) == Encode(t, length - i) + s
    {
      assert Encode(t, length - i) == Encode(t / 32, length - i - 1) + [Digit(t % 32)];
      s := [Digit(t % 32)] + s;
      t := t / 32;
    }
    assert Encode(t, 0) + s == s;
  }

  lemma {:induction false} EncodeIsFaithful(t: nat, n: nat)
    ensures Digits(Encode(t, n))
    ensures t < Pow32(n) ==> Value(Encode(t, n)) == t
    decreases n
  {
    if n > 0 {
      var init := Encode(t / 32, n - 1);
      EncodeIsFaithful(t / 32, n - 1);
      DigitOfDigit(t % 32);
      assert Encode(t, n)[..n - 1] == init;
    }
  }

  lemma ValueStep(init: string, last: char)
    ensures Value(init + [last]) == 32 * Value(init) + DigitOf(last)
  {
    assert (init + [last])[..|init|] == init;
  }

  /** The value of `n` digits is below `32` to the `n`. */
  lemma {:induction false} ValueFits(s: string)
    requires Digits(s)
    ensures Value(s) < Pow32(|s|)
    decreases |s|
  {
    if s != [] {
      var last := DigitOf(s[|s| - 1]);
      ValueFits(s[..|s| - 1]);
      assert last < 32;
    }
  }

  // ---------------------------------------------------------------------------------------
  // String order is numeric order
  // ---------------------------------------------------------------------------------------

  /** Strings compare by their parts when the first parts are equally long. */
  lemma {:induction false} LessConcat(a: string, b: string, x: string, y: string)
    requires |a| == |b|
    ensures Less(a + x, b + y) <==> Less(a, b) || (a == b && Less(x, y))
    decreases |a|
  {
    if a == [] {
      assert a + x == x && b + y == y;
    } else {
      assert (a + x)[1..] == a[1..] + x && (b + y)[1..] == b[1..] + y;
      assert a == [a[0]] + a[1..] && b == [b[0]] + b[1..];
      LessConcat(a[1..], b[1..], x, y);
    }
  }

  lemma {:induction false} LessIsNumeric(a: string, b: string)
    requires |a| == |b| && Digits(a) && Digits(b)
    ensures Less(a, b) <==> Value(a) < Value(b)
    ensures a == b <==> Value(a) == Value(b)
    decreases |a|
  {
    if a != [] {
      var n := |a| - 1;
      var x, y := a[..n], b[..n];
      LessIsNumeric(x, y);
      assert a == x + [a[n]] && b == y + [b[n]];
      LessStep(x, y, a[n], b[n]);
      ValueStep(x, a[n]);
      ValueStep(y, b[n]);
      DigitDecides(Value(x), DigitOf(a[n]), Value(y), DigitOf(b[n]));
    }
  }

  lemma DigitDecides(v: nat, d: nat, w: nat, e: nat)
    requires d < 32 && e < 32
    ensures 32 * v + d < 32 * w + e <==> v < w || (v == w && d < e)
    ensures 32 * v + d == 32 * w + e <==> v == w && d == e
  {
  }

  /** One more digit on either side decides only between equal beginnings. */
  lemma LessStep(a: string, b: string, x: char, y: char)
    requires |a| == |b| && DigitOf(x) < 32 && DigitOf(y) < 32
    ensures Less(a + [x], b + [y]) <==> Less(a, b) || (a == b && DigitOf(x) < DigitOf(y))
    ensures a + [x] == b + [y] <==> a == b && DigitOf(x) == DigitOf(y)
  {
    LessConcat(a, b, [x], [y]);
    DigitOrder(x, y);
    assert [x][1..] == [] && [y][1..] == [];
    assert (a + [x])[..|a|] == a && (b + [y])[..|a|] == b;
    assert (a + [x])[|a|] == x && (b + [y])[|a|] == y;
  }

  /** Every digit string is the encoding of its value, so ids and numbers correspond one to one. */
  lemma ValueIsFaithful(s: string)
    requires Digits(s)
    ensures Encode(Value(s), |s|) == s
  {
    ValueFits(s);
    EncodeIsFaithful(Value(s), |s|);
    LessIsNumeric(Encode(Value(s), |s|), s);
  }

  // ---------------------------------------------------------------------------------------
  // The cutoff
  // ---------------------------------------------------------------------------------------

  const ZEROS: string := "0000000000000000"

  /** Microseconds from the epoch to the last instant a `datetime` can hold, the end of the year 9999. */
  const LAST_MICRO: nat := 253402300799999999

  /** Ten digits are enough for the millisecond of every `datetime`. */
  lemma EveryDatetimeFits(micros: nat)
    requires micros <= LAST_MICRO
    ensures micros / 1000 < Pow32(10)
  {
    assert Pow32(5) == 32 * (32 * (32 * (32 * 32)));
    assert Pow32(10) == 32 * (32 * (32 * (32 * (32 * Pow32(5)))));
  }

  /** `min_ulid_at`, from microseconds since the epoch: the millisecond, then sixteen zeros. */
  method MinUlidAt(micros: nat) returns (s: string)
    ensures s == Cutoff(micros / 1000)
  {
    var time := EncodeTime(micros / 1000, 10);
    s := time + ZEROS;
  }

  function Cutoff(ms: nat): string {
    Encode(ms, 10) + ZEROS
  }

  /** The millisecond an id was made in. */
  function Millis(id: string): nat
    requires |id| >= 10
  {
    Value(id[..10])
  }

  lemma {:induction false} NothingBelowZeros(s: string, n: nat)
    requires |s| == n && Digits(s)
    ensures !Less(s, seq(n, i => '0'))
    decreases n
  {
    if n > 0 {
      var zeros := seq(n, i => '0');
      assert zeros[1..] == seq(n - 1, i => '0');
      NothingBelowZeros(s[1..], n - 1);
      DigitOrder(s[0], '0');
    }
  }

  /** Comparing an id with the cutoff as strings is comparing milliseconds, for every valid id and
      every time. */
  lemma CutoffSelectsByMillisecond(id: string, micros: nat)
    requires IsValidUlid(id) && micros <= LAST_MICRO
    ensures Less(id, Cutoff(micros / 1000)) <==> Millis(id) < micros / 1000
  {
    EveryDatetimeFits(micros);
    var ms := micros / 1000;
    var time, rest := id[..10], id[10..];
    assert id == time + rest;
    EncodeIsFaithful(ms, 10);
    LessConcat(time, Encode(ms, 10), rest, ZEROS);
    LessIsNumeric(time, Encode(ms, 10));
    assert ZEROS == seq(16, i => '0');
    NothingBelowZeros(rest, 16);
  }

  /** The cutoff is a valid id of its millisecond, and the least one. */
  lemma CutoffIsLeast(id: string, micros: nat)
    requires micros <= LAST_MICRO
    ensures IsValidUlid(Cutoff(micros / 1000)) && Millis(Cutoff(micros / 1000)) == micros / 1000
    ensures IsValidUlid(id) && Millis(id) == micros / 1000 ==>
              id == Cutoff(micros / 1000) || Less(Cutoff(micros / 1000), id)
  {
    EveryDatetimeFits(micros);
    var ms := micros / 1000;
    EncodeIsFaithful(ms, 10);
    var cutoff := Cutoff(ms);
    assert cutoff[..10] == Encode(ms, 10);
    assert forall i :: 10 <= i < 26 ==> cutoff[i] == '0';
    if IsValidUlid(id) && Millis(id) == ms {
      CutoffSelectsByMillisecond(id, micros);
      LessIsNumeric(id, cutoff);
      LessIsNumeric(cutoff, id);
    }
  }
}
