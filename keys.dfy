/**
 * Storage keys of diary items: the prefix test of the load pass, the keys built as
 * "diary" + timestamp, and the order in which the load pass sorts them.
 */
module Keys {

  /** Every diary key starts with this prefix. */
  const Prefix: string := "diary"

  /** JavaScript's s.slice(0, n): the first n characters, or all of s when it is shorter. */
  function SliceFromStart(s: string, n: nat): (r: string)
    ensures |r| == (if n <= |s| then n else |s|)
    ensures r <= s
  {
    s[..if n <= |s| then n else |s|]
  }

  /**
   * The load pass's test key.slice(0, 5) == "diary". A key shorter than five
   * characters slices to itself and so never passes.
   */
  predicate IsDiaryKey(k: string)
    ensures IsDiaryKey(k) <==> |Prefix| <= |k| && k[..|Prefix|] == Prefix
  {
    SliceFromStart(k, 5) == Prefix
  }

  // ---------------------------------------------------------------------------
  // Decimal timestamps

  predicate IsDigit(c: char) { '0' <= c <= '9' }

  predicate AllDigits(s: string) { forall i :: 0 <= i < |s| ==> IsDigit(s[i]) }

  function DigitChar(d: nat): (c: char)
    requires d < 10
    ensures IsDigit(c)
  {
    (48 + d) as char
  }

  function DigitValue(c: char): (d: nat)
    requires IsDigit(c)
    ensures d < 10
  {
    c as int - 48
  }

  /** The decimal representation JavaScript gives a non-negative integer: no leading zeros. */
  function Decimal(n: nat): (r: string)
    ensures 1 <= |r| && AllDigits(r)
    ensures |r| > 1 ==> r[0] != '0'
  {
    if n < 10 then [DigitChar(n)] else Decimal(n / 10) + [DigitChar(n % 10)]
  }

  /** The number a string of digits denotes. */
  function Value(s: string): nat
    requires AllDigits(s)
  {
    if s == [] then 0 else Value(s[..|s| - 1]) * 10 + DigitValue(s[|s| - 1])
  }

  function Pow10(n: nat): (p: nat)
    ensures p >= 1
  {
    if n == 0 then 1 else 10 * Pow10(n - 1)
  }

  /** Reading the decimal representation back gives the number. */
  lemma {:induction false} ValueOfDecimal(n: nat)
    ensures Value(Decimal(n)) == n
  {
    if n >= 10 {
      ValueOfDecimal(n / 10);
      var s := Decimal(n);
      assert s[..|s| - 1] == Decimal(n / 10);
    }
  }

  /** The key a new entry gets: "diary" followed by the timestamp in milliseconds. */
  function DiaryKey(now: nat): (k: string)
    ensures IsDiaryKey(k) && |k| > |Prefix|
  {
    Prefix + Decimal(now)
  }

  /** Distinct timestamps give distinct keys. */
  lemma DiaryKeyInjective(a: nat, b: nat)
    ensures DiaryKey(a) == DiaryKey(b) <==> a == b
  {
    if DiaryKey(a) == DiaryKey(b) {
      assert Decimal(a) == DiaryKey(a)[|Prefix|..];
      assert Decimal(b) == DiaryKey(b)[|Prefix|..];
      ValueOfDecimal(a);
      ValueOfDecimal(b);
    }
  }

  // ---------------------------------------------------------------------------
  // The order of Array.prototype.sort without a comparator

  /**
   * String order as the default sort compares keys: character by character, and a
   * proper prefix comes first.
   */
  predicate LexLess(a: string, b: string)
    ensures |a| < |b| && b[..|a|] == a ==> LexLess(a, b)
    decreases |a|
  {
    if a == [] then b != []
    else if b == [] then false
    else if a[0] != b[0] then a[0] < b[0]
    else LexLess(a[1..], b[1..])
  }

  lemma {:induction false} LexIrreflexive(a: string)
    ensures !LexLess(a, a)
    decreases |a|
  {
    if a != [] {
      LexIrreflexive(a[1..]);
    }
  }

  lemma {:induction false} LexTransitive(a: string, b: string, c: string)
    requires LexLess(a, b) && LexLess(b, c)
    ensures LexLess(a, c)
    decreases |a|
  {
    if a != [] && a[0] == b[0] && b[0] == c[0] {
      LexTransitive(a[1..], b[1..], c[1..]);
    }
  }

  lemma {:induction false} LexTotal(a: string, b: string)
    ensures a == b || LexLess(a, b) || LexLess(b, a)
    decreases |a|
  {
    if a != [] && b != [] && a[0] == b[0] {
      LexTotal(a[1..], b[1..]);
      if a[1..] == b[1..] {
        assert a == [a[0]] + a[1..] && b == [b[0]] + b[1..];
      }
    }
  }

  lemma {:induction false} LexAsymmetric(a: string, b: string)
    ensures !(LexLess(a, b) && LexLess(b, a))
  {
    if LexLess(a, b) && LexLess(b, a) {
      LexTransitive(a, b, a);
      LexIrreflexive(a);
    }
  }

  /** LexLess is a strict total order on strings. */
  lemma LexStrictTotalOrder()
    ensures forall a :: !LexLess(a, a)
    ensures forall a, b, c :: LexLess(a, b) && LexLess(b, c) ==> LexLess(a, c)
    ensures forall a, b :: a == b || LexLess(a, b) || LexLess(b, a)
  {
    forall a ensures !LexLess(a, a) { LexIrreflexive(a); }
    forall a, b, c | LexLess(a, b) && LexLess(b, c) ensures LexLess(a, c) { LexTransitive(a, b, c); }
    forall a, b ensures a == b || LexLess(a, b) || LexLess(b, a) { LexTotal(a, b); }
  }

  /** A common prefix does not change the order. */
  lemma {:induction false} LexCommonPrefix(p: string, a: string, b: string)
    ensures LexLess(p + a, p + b) == LexLess(a, b)
    decreases |p|
  {
    if p == [] {
      assert p + a == a && p + b == b;
    } else {
      assert (p + a)[0] == p[0] == (p + b)[0];
      assert (p + a)[1..] == p[1..] + a;
      assert (p + b)[1..] == p[1..] + b;
      LexCommonPrefix(p[1..], a, b);
    }
  }

  /** Shifting a number one decimal place left and appending a digit, regrouped. */
  lemma Regroup(a: int, p: int, v: int, d: int)
    ensures (a * p + v) * 10 + d == a * (10 * p) + (v * 10 + d)
  {
  }

  /** The leading digit is worth its value times a power of ten. */
  lemma {:induction false} ValueFront(s: string)
    requires AllDigits(s) && |s| >= 1
    ensures Value(s) == DigitValue(s[0]) * Pow10(|s| - 1) + Value(s[1..])
    decreases |s|
  {
    var n := |s|;
    if n == 1 {
      assert s[..0] == [] && s[1..] == [];
    } else {
      var init := s[..n - 1];
      ValueFront(init);
      assert init[1..] == s[1..][..n - 2];
      assert s[1..][n - 2] == s[n - 1];
      assert Value(s[1..]) == Value(init[1..]) * 10 + DigitValue(s[n - 1]);
      Regroup(DigitValue(s[0]), Pow10(n - 2), Value(init[1..]), DigitValue(s[n - 1]));
    }
  }

  /** n digits denote less than 10^n. */
  lemma {:induction false} ValueBound(s: string)
    requires AllDigits(s)
    ensures Value(s) < Pow10(|s|)
    decreases |s|
  {
    if s != [] {
      ValueBound(s[..|s| - 1]);
    }
  }

  /** A smaller leading digit outweighs whatever digits follow it. */
  lemma LeadingDigitDominates(ds: nat, dt: nat, p: nat, rs: nat, rt: nat)
    requires ds < dt && rs < p
    ensures ds * p + rs < dt * p + rt
  {
    calc {
      ds * p + rs;
    <
      ds * p + p;
    ==
      (ds + 1) * p;
    <=  { assert ds + 1 <= dt; }
      dt * p;
    <=
      dt * p + rt;
    }
  }

  /** For digit strings of equal length, string order is numeric order. */
  lemma {:induction false} LexDigitsNumeric(s: string, t: string)
    requires AllDigits(s) && AllDigits(t) && |s| == |t|
    ensures LexLess(s, t) <==> Value(s) < Value(t)
    decreases |s|
  {
    if s != [] {
      var n := |s|;
      ValueFront(s);
      ValueFront(t);
      var p := Pow10(n - 1);
      var ds, dt := DigitValue(s[0]), DigitValue(t[0]);
      var rs, rt := Value(s[1..]), Value(t[1..]);
      ValueBound(s[1..]);
      ValueBound(t[1..]);
      if s[0] == t[0] {
        LexDigitsNumeric(s[1..], t[1..]);
      } else if ds < dt {
        LeadingDigitDominates(ds, dt, p, rs, rt);
      } else {
        LeadingDigitDominates(dt, ds, p, rt, rs);
      }
    }
  }

  /**
   * Sorting keys as strings puts them in creation order when their timestamps have
   * the same number of digits.
   */
  lemma KeyOrderIsCreationOrder(a: nat, b: nat)
    requires |Decimal(a)| == |Decimal(b)|
    ensures LexLess(DiaryKey(a), DiaryKey(b)) <==> a < b
  {
    LexCommonPrefix(Prefix, Decimal(a), Decimal(b));
    LexDigitsNumeric(Decimal(a), Decimal(b));
    ValueOfDecimal(a);
    ValueOfDecimal(b);
  }

  /** With timestamps of different lengths string order can disagree with creation order. */
  lemma UnequalLengthKeysMisorder()
    ensures 20 < 100 && LexLess(DiaryKey(100), DiaryKey(20))
  {
    assert Decimal(100) == "100";
    assert Decimal(20) == "20";
    LexCommonPrefix(Prefix, "100", "20");
  }

  // ---------------------------------------------------------------------------
  // Sorting

  predicate StrictlySorted(s: seq<string>)
  {
    forall i, j :: 0 <= i < j < |s| ==> LexLess(s[i], s[j])
  }

  predicate Distinct(s: seq<string>)
  {
    forall i, j :: 0 <= i < j < |s| ==> s[i] != s[j]
  }

  /** Inserts a key not yet present into a strictly sorted list of keys. */
  function Insert(x: string, s: seq<string>): (r: seq<string>)
    requires StrictlySorted(s) && x !in s
    ensures StrictlySorted(r)
    ensures multiset(r) == multiset(s) + multiset{x}
  {
    if s == [] then [x]
    else if LexLess(x, s[0]) then
      assert forall k :: 0 <= k < |s| ==> LexLess(x, s[k]) by {
        forall k | 0 < k < |s| ensures LexLess(x, s[k]) {
          LexTransitive(x, s[0], s[k]);
        }
      }
      [x] + s
    else
      var t := Insert(x, s[1..]);
      assert s == [s[0]] + s[1..];
      LexTotal(x, s[0]);
      BelowAll(s[0], x, s[1..], t);
      [s[0]] + t
  }

  /** A key below x and below every element of s is below every element of s with x added. */
  lemma BelowAll(y: string, x: string, s: seq<string>, t: seq<string>)
    requires LexLess(y, x) && forall k :: 0 <= k < |s| ==> LexLess(y, s[k])
    requires multiset(t) == multiset(s) + multiset{x}
    ensures forall k :: 0 <= k < |t| ==> LexLess(y, t[k])
  {
    forall k | 0 <= k < |t| ensures LexLess(y, t[k]) {
      assert t[k] in multiset(t);
      if t[k] != x {
        assert t[k] in multiset(s);
      }
    }
  }

  /**
   * diaryKeys.sort(): the keys in ascending string order. Storage keys are distinct,
   * so the result is strictly ascending and lists each key exactly once.
   */
  function Sort(s: seq<string>): (r: seq<string>)
    requires Distinct(s)
    ensures StrictlySorted(r)
    ensures multiset(r) == multiset(s)
  {
    if s == [] then []
    else
      assert s == [s[0]] + s[1..];
      var rest := Sort(s[1..]);
      assert s[0] !in multiset(s[1..]);
      Insert(s[0], rest)
  }

  /**
   * A strictly sorted list is determined by its elements, so any sorting algorithm
   * the browser uses yields exactly Sort's result.
   */
  lemma {:induction false} SortedUnique(a: seq<string>, b: seq<string>)
    requires StrictlySorted(a) && StrictlySorted(b) && multiset(a) == multiset(b)
    ensures a == b
    decreases |a|
  {
    if a == [] {
      assert |multiset(b)| == 0;
    } else {
      SortedSameHead(a, b);
      DropHead(a, b);
      SortedUnique(a[1..], b[1..]);
    }
  }

  /** Two strictly sorted lists with the same elements start with the same key. */
  lemma SortedSameHead(a: seq<string>, b: seq<string>)
    requires StrictlySorted(a) && StrictlySorted(b) && multiset(a) == multiset(b) && a != []
    ensures b != [] && a[0] == b[0]
  {
    assert a[0] in multiset(a);
    assert a[0] in b;
    assert b[0] in multiset(b);
    assert b[0] in a;
    var i :| 0 <= i < |a| && a[i] == b[0];
    var j :| 0 <= j < |b| && b[j] == a[0];
    if a[0] != b[0] {
      assert LexLess(a[0], b[0]) && LexLess(b[0], a[0]);
      LexAsymmetric(a[0], b[0]);
      assert false;
    }
  }

  /** Removing the same first element from two permutations of each other leaves permutations. */
  lemma DropHead(a: seq<string>, b: seq<string>)
    requires a != [] && b != [] && a[0] == b[0] && multiset(a) == multiset(b)
    ensures multiset(a[1..]) == multiset(b[1..])
  {
    assert a == [a[0]] + a[1..] && b == [b[0]] + b[1..];
    assert multiset(a) == multiset{a[0]} + multiset(a[1..]);
    assert multiset(b) == multiset{b[0]} + multiset(b[1..]);
    forall y ensures multiset(a[1..])[y] == multiset(b[1..])[y] {
      assert multiset(a)[y] == multiset(b)[y];
    }
  }
}
