/** Daemon names: bijective base-26 numeration over `a`..`z` (k8sutil/name.go). */
module DaemonNames {
  import opened MachineInts
  import opened Wrappers

  const MAX_PER_CHAR := 26

  /** The number a character stands for: 'a' is 1, 'z' is 26. */
  function CharValue(c: char): int {
    MAX_PER_CHAR - ('z' as int - c as int)
  }

  predicate IsLetter(c: char) {
    'a' <= c <= 'z'
  }

  ghost predicate AllLetters(s: string) {
    forall k | 0 <= k < |s| :: IsLetter(s[k])
  }

  function Letter(i: int): (c: char)
    requires 0 <= i < MAX_PER_CHAR
    ensures IsLetter(c) && CharValue(c) == i + 1
  {
    ('a' as int + i) as char
  }

  /** The name of an index: the specification of the loop in IndexToName. */
  function Name(i: nat): (s: string)
    ensures s != "" && AllLetters(s)
  {
    if i < MAX_PER_CHAR then [Letter(i)]
    else Name(i / MAX_PER_CHAR - 1) + [Letter(i % MAX_PER_CHAR)]
  }

  /** The bijective base-26 number a string of letters stands for; the index of a name is one less. */
  ghost function Number(s: string): int {
    if s == "" then 0 else MAX_PER_CHAR * Number(s[..|s|-1]) + CharValue(s[|s|-1])
  }

  ghost function Pow26(n: nat): (p: nat)
    ensures p >= 1
  {
    if n == 0 then 1 else MAX_PER_CHAR * Pow26(n - 1)
  }

  /** 26 + 26^2 + ... + 26^n: how many names have at most n letters. */
  ghost function NamesUpTo(n: nat): nat {
    if n == 0 then 0 else NamesUpTo(n - 1) + Pow26(n)
  }

  lemma OneLetter(i: nat)
    requires i < MAX_PER_CHAR
    ensures Name(i) == [Letter(i)]
  {
  }

  lemma {:induction false} TwoLetters(n: nat, i: nat, j: nat)
    requires i < MAX_PER_CHAR && j < MAX_PER_CHAR && n == MAX_PER_CHAR * (i + 1) + j
    ensures Name(n) == [Letter(i), Letter(j)]
  {
    assert n / MAX_PER_CHAR == i + 1 && n % MAX_PER_CHAR == j;
    OneLetter(i);
  }

  /** The documented names: a, b, ... z, aa, ab, ... az, ba, ... zz. */
  lemma FirstNames()
    ensures Name(0) == "a" && Name(1) == "b" && Name(25) == "z"
    ensures Name(26) == "aa" && Name(27) == "ab" && Name(51) == "az" && Name(52) == "ba" && Name(701) == "zz"
  {
    OneLetter(0);
    OneLetter(1);
    OneLetter(25);
    TwoLetters(26, 0, 0);
    TwoLetters(27, 0, 1);
    TwoLetters(51, 0, 25);
    TwoLetters(52, 1, 0);
    TwoLetters(701, 25, 25);
  }

  // ---------- the two loops ----------

  method IndexToName(index: int) returns (result: string)
    requires IsInt64(index)
    ensures index >= 0 ==> result == Name(index)
    ensures index < 0 ==> result == [('a' as int + Rem(index, MAX_PER_CHAR)) as char]
  {
    result := "";
    var ix := index;
    while true
      invariant index >= 0 ==> 0 <= ix <= index && Name(ix) + result == Name(index)
      invariant index < 0 ==> ix == index && result == ""
      decreases ix
    {
      var i := Rem(ix, MAX_PER_CHAR);
      var c := 'z' as int - MAX_PER_CHAR + i + 1;
      if ix >= MAX_PER_CHAR {
        assert Name(ix) + result == Name(ix / MAX_PER_CHAR - 1) + ([Letter(i)] + result);
      }
      result := [c as char] + result;
      if ix < MAX_PER_CHAR {
        break;
      }
      ix := Quo(ix, MAX_PER_CHAR) - 1;
    }
  }

  /** Bytes of a rune in UTF-8: `len` of a Go string counts bytes, `range` visits runes. */
  function RuneLen(c: char): nat {
    if c as int < 0x80 then 1 else if c as int < 0x800 then 2 else if c as int < 0x10000 then 3 else 4
  }

  function ByteLen(s: string): nat {
    if s == "" then 0 else RuneLen(s[0]) + ByteLen(s[1..])
  }

  lemma {:induction false} LettersAreBytes(s: string)
    requires AllLetters(s)
    ensures ByteLen(s) == |s|
  {
    if s != "" {
      assert IsLetter(s[0]);
      LettersAreBytes(s[1..]);
    }
  }

  /** The value of the first k letters, weighted by the letters still to come. */
  ghost function Shifted(s: string, k: nat): int
    requires k <= |s|
  {
    Number(s[..k]) * Pow26(|s| - k)
  }

  /** The term the letter at k adds. */
  ghost function Term(s: string, k: nat): int
    requires k < |s|
  {
    CharValue(s[k]) * Pow26(|s| - 1 - k)
  }

  ghost predicate Fits(name: string) {
    name != "" && AllLetters(name) && Number(name) - 1 <= MAX_INT64
  }

  /** The weight of the leading letter: the first loop of NameToIndex. */
  method LeadingFactor(name: string) returns (factor: int)
    ensures Fits(name) ==> factor == Pow26(|name| - 1)
  {
    if Fits(name) {
      LettersAreBytes(name);
      NumberAtLeast(name);
    }
    factor := 1;
    var i := 1;
    while i < ByteLen(name)
      invariant 1 <= i
      invariant Fits(name) ==> i <= |name| && factor == Pow26(i - 1)
    {
      if Fits(name) {
        Pow26Monotone(i, |name| - 1);
      }
      factor := WrapInt64(factor * MAX_PER_CHAR);
      i := i + 1;
    }
  }

  method NameToIndex(name: string) returns (r: Result<int>)
    ensures r.Ok? <==> forall k | 0 <= k < |name| :: 'a' <= name[k] <= 'z'
    ensures r.Ok? ==> IsInt64(r.value)
    ensures name == "" ==> r == Ok(0)
    ensures Fits(name) ==> r == Ok(Number(name) - 1)
  {
    var factor := LeadingFactor(name);
    var result := 0;
    for k := 0 to |name|
      invariant AllLetters(name[..k])
      invariant IsInt64(result)
      invariant name == "" ==> result == 0
      invariant Fits(name) && k < |name| ==> factor == Pow26(|name| - 1 - k) && result == Shifted(name, k)
      invariant Fits(name) && k == |name| ==> result == Number(name) - 1
    {
      var charVal := CharValue(name[k]);
      if charVal < 1 || charVal > MAX_PER_CHAR {
        assert !IsLetter(name[k]);
        return Err;
      }
      if Fits(name) {
        NumberStep(name, k);
        assert charVal * factor == Term(name, k);
      }
      result, factor := AddLetter(result, charVal, factor);
    }
    assert name[..|name|] == name;
    return Ok(result);
  }

  /** The body of the loop: the least significant letter is zero-based. */
  method AddLetter(result: int, charVal: int, factor: int) returns (result': int, factor': int)
    requires IsInt64(result) && 1 <= charVal <= MAX_PER_CHAR
    ensures IsInt64(result')
    ensures factor > 0 ==> factor' == factor / MAX_PER_CHAR
    ensures factor == 1 && IsInt64(result + charVal - 1) ==> result' == result + charVal - 1
    ensures factor > 1 && 0 <= result && result + charVal * factor <= MAX_INT64 ==> result' == result + charVal * factor
  {
    if factor == 1 {
      result' := WrapInt64(result + (charVal - 1));
    } else {
      result' := WrapInt64(result + WrapInt64(charVal * factor));
    }
    factor' := Quo(factor, MAX_PER_CHAR);
  }

  // ---------- arithmetic of numbers ----------

  lemma {:induction false} Pow26Monotone(m: nat, n: nat)
    requires m <= n
    ensures Pow26(m) <= Pow26(n)
  {
    if m < n {
      Pow26Monotone(m, n - 1);
    }
  }

  lemma {:induction false} NumberPositive(s: string)
    requires AllLetters(s)
    ensures Number(s) >= |s|
  {
    if s != "" {
      NumberPositive(s[..|s|-1]);
      assert IsLetter(s[|s|-1]);
    }
  }

  /** A prefix, shifted past the letters that follow it, stays below the whole number. */
  lemma {:induction false} NumberSplit(s: string, k: nat)
    requires AllLetters(s) && k <= |s|
    ensures Number(s[..k]) * Pow26(|s| - k) + (if k < |s| then 1 else 0) <= Number(s)
    decreases |s|
  {
    if k == |s| {
      assert s[..k] == s;
    } else {
      var t := s[..|s|-1];
      assert IsLetter(s[|s|-1]);
      assert t[..k] == s[..k];
      NumberSplit(t, k);
      var p, q := Number(s[..k]), Pow26(|t| - k);
      assert Pow26(|s| - k) == MAX_PER_CHAR * q;
      assert p * (MAX_PER_CHAR * q) == MAX_PER_CHAR * (p * q);
    }
  }

  lemma {:induction false} NumberAtLeast(s: string)
    requires s != "" && AllLetters(s)
    ensures Pow26(|s| - 1) <= Number(s)
  {
    var t := s[..|s|-1];
    assert IsLetter(s[|s|-1]);
    if t != "" {
      NumberAtLeast(t);
    }
  }

  lemma Distribute(p: int, q: int, v: int)
    ensures p * (MAX_PER_CHAR * q) + v * q == (MAX_PER_CHAR * p + v) * q
  {
  }

  /** Taking the next letter into the prefix adds its term. */
  lemma ShiftedStep(s: string, k: nat)
    requires k < |s|
    ensures Shifted(s, k) + Term(s, k) == Shifted(s, k + 1)
  {
    assert s[..k+1][..k] == s[..k];
    assert |s| - k - 1 == |s| - (k + 1);
    Distribute(Number(s[..k]), Pow26(|s| - k - 1), CharValue(s[k]));
  }

  /** One turn of NameToIndex's second loop: the next letter's term, and no overflow on the way. */
  lemma NumberStep(s: string, k: nat)
    requires AllLetters(s) && k < |s|
    ensures 0 <= Shifted(s, k) && 1 <= CharValue(s[k]) <= MAX_PER_CHAR
    ensures Shifted(s, k) + Term(s, k) == Shifted(s, k + 1)
    ensures k + 1 < |s| ==> Shifted(s, k + 1) < Number(s)
    ensures k + 1 < |s| ==> Pow26(|s| - 1 - k) > 1 && Pow26(|s| - 1 - k) / MAX_PER_CHAR == Pow26(|s| - 2 - k)
    ensures k + 1 == |s| ==> Pow26(|s| - 1 - k) == 1 && Shifted(s, k + 1) == Number(s)
  {
    assert IsLetter(s[k]);
    NumberSplit(s, k + 1);
    NumberPositive(s[..k]);
    ShiftedStep(s, k);
    assert s[..|s|] == s;
  }

  /** While a fitting name is read, no factor, term or partial result leaves the int64 range. */
  lemma NoOverflow(s: string, k: nat)
    requires Fits(s) && k < |s|
    ensures IsInt64(Pow26(k)) && IsInt64(Pow26(|s| - 1 - k))
    ensures IsInt64(Term(s, k)) && IsInt64(Shifted(s, k))
    ensures k + 1 < |s| ==> IsInt64(Shifted(s, k + 1))
  {
    NumberAtLeast(s);
    Pow26Monotone(k, |s| - 1);
    Pow26Monotone(|s| - 1 - k, |s| - 1);
    NumberStep(s, k);
    assert Pow26(|s| - 1) <= MAX_INT64 by {
      Pow26IsNotTwo63(|s| - 1);
    }
    NumberSplit(s, k);
    if k + 1 == |s| {
      assert Term(s, k) == CharValue(s[k]);
    }
  }

  lemma NoMultipleIsTwo63(q: int)
    ensures MAX_PER_CHAR * q != MAX_INT64 + 1
  {
    var below := (MAX_INT64 + 1) / MAX_PER_CHAR;
    assert MAX_PER_CHAR * below < MAX_INT64 + 1 < MAX_PER_CHAR * (below + 1);
    if q <= below {
      assert MAX_PER_CHAR * q <= MAX_PER_CHAR * below;
    } else {
      assert MAX_PER_CHAR * q >= MAX_PER_CHAR * (below + 1);
    }
  }

  lemma {:induction false} Pow26IsNotTwo63(n: nat)
    ensures Pow26(n) != MAX_INT64 + 1
  {
    if n > 0 {
      NoMultipleIsTwo63(Pow26(n - 1));
    }
  }

  // ---------- the bijection ----------

  lemma {:induction false} NumberOfName(i: nat)
    ensures Number(Name(i)) == i + 1
  {
    var s := Name(i);
    if i < MAX_PER_CHAR {
      assert s[..|s|-1] == "";
    } else {
      NumberOfName(i / MAX_PER_CHAR - 1);
      assert s[..|s|-1] == Name(i / MAX_PER_CHAR - 1);
    }
  }

  lemma {:induction false} NameOfNumber(s: string)
    requires s != "" && AllLetters(s)
    ensures Number(s) >= 1 && Name(Number(s) - 1) == s
  {
    var t, v := s[..|s|-1], CharValue(s[|s|-1]);
    assert IsLetter(s[|s|-1]);
    assert s == t + [Letter(v - 1)];
    NumberPositive(s);
    if t != "" {
      NameOfNumber(t);
      var m := Number(t);
      assert Number(s) - 1 == MAX_PER_CHAR * m + (v - 1);
      assert (Number(s) - 1) / MAX_PER_CHAR == m && (Number(s) - 1) % MAX_PER_CHAR == v - 1;
    }
  }

  /** NameToIndex undoes IndexToName on exactly the non-negative machine integers. */
  method IndexRoundTrip(index: int) returns (r: Result<int>)
    requires IsInt64(index)
    ensures r == Ok(index) <==> index >= 0
  {
    var s := IndexToName(index);
    if index >= 0 {
      NumberOfName(index);
    } else {
      assert CharValue(s[0]) == Rem(index, MAX_PER_CHAR) + 1;
      if s[0] == 'a' {
        assert s[..0] == "";
        assert Number(s) == 1;
      } else {
        assert !IsLetter(s[0]);
      }
    }
    r := NameToIndex(s);
  }

  /** A name whose index does not fit is not the name of any machine index. */
  lemma OversizedIsNoName(name: string, i: nat)
    requires AllLetters(name) && Number(name) - 1 > MAX_INT64
    ensures |name| >= 2
    ensures i <= MAX_INT64 ==> Name(i) != name
  {
    NumberOfName(i);
    NumberRange(name);
    assert NamesUpTo(1) == Pow26(1) == 26;
  }

  /** IndexToName undoes NameToIndex on exactly the non-empty a-z names whose index fits an int. */
  method NameRoundTrip(name: string) returns (r: Result<string>)
    ensures r == Ok(name) <==> Fits(name)
    ensures r == Err <==> !AllLetters(name)
  {
    var index := NameToIndex(name);
    if index.Err? {
      return Err;
    }
    var s := IndexToName(index.value);
    if Fits(name) {
      NameOfNumber(name);
    } else if name != "" {
      OversizedIsNoName(name, if index.value >= 0 then index.value else 0);
    }
    return Ok(s);
  }

  // ---------- length and order ----------

  lemma {:induction false} NamesUpToStep(n: nat)
    ensures NamesUpTo(n + 1) == MAX_PER_CHAR * NamesUpTo(n) + MAX_PER_CHAR
  {
    if n > 0 {
      NamesUpToStep(n - 1);
      assert Pow26(n + 1) == MAX_PER_CHAR * Pow26(n);
    } else {
      assert Pow26(1) == MAX_PER_CHAR * Pow26(0);
      assert NamesUpTo(1) == NamesUpTo(0) + Pow26(1);
    }
  }

  lemma {:induction false} NumberRange(s: string)
    requires AllLetters(s)
    ensures NamesUpTo(|s|) >= Number(s)
    ensures s != "" ==> NamesUpTo(|s| - 1) < Number(s)
  {
    if s != "" {
      var t := s[..|s|-1];
      assert IsLetter(s[|s|-1]);
      NumberRange(t);
      NamesUpToStep(|t|);
      if t != "" {
        NamesUpToStep(|t| - 1);
      }
    }
  }

  lemma {:induction false} NamesUpToMonotone(m: nat, n: nat)
    requires m <= n
    ensures NamesUpTo(m) <= NamesUpTo(n)
  {
    if m < n {
      NamesUpToMonotone(m, n - 1);
    }
  }

  /** A name has as few letters as possible: its length is the least n with index < 26 + ... + 26^n. */
  lemma NameIsShortest(i: nat, n: nat)
    ensures i < NamesUpTo(n) <==> |Name(i)| <= n
  {
    var s := Name(i);
    NumberOfName(i);
    NumberRange(s);
    if |s| <= n {
      NamesUpToMonotone(|s|, n);
    } else {
      NamesUpToMonotone(n, |s| - 1);
    }
  }

  /** Every machine index has a name of at most 14 letters, and some need all 14. */
  lemma NamesFitFourteenLetters(i: nat)
    requires i <= MAX_INT64
    ensures |Name(i)| <= 14
    ensures |Name(MAX_INT64)| == 14
  {
    assert NamesUpTo(7) == 8353082582 by {
      assert Pow26(3) == 17576 && Pow26(6) == 308915776;
      assert NamesUpTo(3) == 18278;
      assert NamesUpTo(6) == 321272406;
    }
    assert NamesUpTo(10) == 146813779479510 by {
      assert Pow26(6) == 308915776 && Pow26(9) == 5429503678976;
      assert NamesUpTo(9) == 5646683826134;
    }
    assert NamesUpTo(13) == 2580398988131886038 by {
      assert Pow26(9) == 5429503678976 && Pow26(12) == 95428956661682176;
      assert NamesUpTo(12) == 99246114928149462;
    }
    assert NamesUpTo(14) == 67090373691429037014 by {
      assert Pow26(12) == 95428956661682176;
    }
    NameIsShortest(i, 14);
    NameIsShortest(MAX_INT64, 14);
    NameIsShortest(MAX_INT64, 13);
  }

  /** Shorter names first, names of one length in dictionary order. */
  ghost predicate Before(a: string, b: string) {
    |a| < |b| || (|a| == |b| && exists k :: FirstDifference(a, b, k) && a[k] < b[k])
  }

  ghost predicate FirstDifference(a: string, b: string, k: int) {
    0 <= k < |a| && k < |b| && a[..k] == b[..k] && a[k] != b[k]
  }

  /** Two names of one length, split at the first difference: the letters there decide. */
  lemma {:induction false} DecidedAt(a: string, b: string, k: nat)
    requires AllLetters(a) && AllLetters(b) && |a| == |b|
    requires FirstDifference(a, b, k) && a[k] < b[k]
    ensures Number(a) < Number(b)
    decreases |a|
  {
    var a', b' := a[..|a|-1], b[..|b|-1];
    assert IsLetter(a[|a|-1]) && IsLetter(b[|b|-1]);
    if k < |a| - 1 {
      assert a'[..k] == a[..k] && b'[..k] == b[..k];
      DecidedAt(a', b', k);
    } else {
      assert a' == a[..k] && b' == b[..k];
    }
  }

  lemma {:induction false} HaveFirstDifference(a: string, b: string) returns (k: nat)
    requires |a| == |b| && a != b
    ensures FirstDifference(a, b, k)
  {
    k := 0;
    while a[k] == b[k]
      invariant 0 <= k < |a|
      invariant a[..k] == b[..k]
      decreases |a| - k
    {
      assert a[..k+1] == a[..k] + [a[k]] && b[..k+1] == b[..k] + [b[k]];
      assert a[..|a|] == a && b[..|b|] == b;
      k := k + 1;
    }
  }

  lemma FirstDifferenceIsUnique(a: string, b: string, k: int, m: int)
    requires FirstDifference(a, b, k) && FirstDifference(a, b, m)
    ensures k == m
  {
    assert forall i | 0 <= i < k :: a[i] == a[..k][i] && b[i] == b[..k][i];
    assert forall i | 0 <= i < m :: a[i] == a[..m][i] && b[i] == b[..m][i];
  }

  lemma BeforeIffSmaller(a: string, b: string)
    requires a != "" && b != "" && AllLetters(a) && AllLetters(b)
    ensures Before(a, b) <==> Number(a) < Number(b)
  {
    NumberRange(a);
    NumberRange(b);
    if |a| < |b| {
      NamesUpToMonotone(|a|, |b| - 1);
    } else if |b| < |a| {
      NamesUpToMonotone(|b|, |a| - 1);
    } else if a != b {
      var k := HaveFirstDifference(a, b);
      if a[k] < b[k] {
        DecidedAt(a, b, k);
      } else {
        DecidedAt(b, a, k);
        forall m | FirstDifference(a, b, m)
          ensures m == k
        {
          FirstDifferenceIsUnique(a, b, k, m);
        }
      }
    }
  }

  /** IndexToName is an order isomorphism onto the names in shortest-first order. */
  lemma NamingIsOrderIsomorphism(i: nat, j: nat)
    ensures i < j <==> Before(Name(i), Name(j))
    ensures i == j <==> Name(i) == Name(j)
  {
    NumberOfName(i);
    NumberOfName(j);
    BeforeIffSmaller(Name(i), Name(j));
  }
}
