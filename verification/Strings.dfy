/** The parts of Go's `strings` package that the parsers use. */
module Strings {

  /** `sep` stands at position i of `s`. */
  predicate At(s: string, sep: string, i: int) {
    0 <= i && i + |sep| <= |s| && s[i..i + |sep|] == sep
  }

  ghost predicate Contains(s: string, sep: string) {
    exists i :: At(s, sep, i)
  }

  /** The first position at or after `from` where `sep` stands, or -1. */
  function IndexFrom(s: string, sep: string, from: nat): (i: int)
    ensures i == -1 || (from <= i && At(s, sep, i))
    ensures i == -1 ==> forall j | from <= j :: !At(s, sep, j)
    ensures i != -1 ==> forall j | from <= j < i :: !At(s, sep, j)
    decreases |s| - from
  {
    if from + |sep| > |s| then -1
    else if At(s, sep, from) then from
    else if from == |s| then -1
    else IndexFrom(s, sep, from + 1)
  }

  /** strings.Split with a non-empty separator. */
  function Split(s: string, sep: string): (parts: seq<string>)
    requires sep != ""
    ensures |parts| >= 1
    decreases |s|
  {
    var i := IndexFrom(s, sep, 0);
    if i == -1 then [s] else [s[..i]] + Split(s[i + |sep|..], sep)
  }

  function Join(parts: seq<string>, sep: string): string {
    if |parts| == 0 then ""
    else if |parts| == 1 then parts[0]
    else parts[0] + sep + Join(parts[1..], sep)
  }

  function HasPrefix(s: string, prefix: string): bool {
    prefix <= s
  }

  function HasSuffix(s: string, suffix: string): bool {
    |suffix| <= |s| && s[|s| - |suffix|..] == suffix
  }

  /** strings.Replace(s, c, "", -1) for a one-character string. */
  function Without(s: string, c: char): (r: string)
    ensures c !in r
    ensures forall d | d in r :: d in s
  {
    if s == "" then "" else (if s[0] == c then "" else [s[0]]) + Without(s[1..], c)
  }

  lemma {:induction false} WithoutConcat(a: string, b: string, c: char)
    ensures Without(a + b, c) == Without(a, c) + Without(b, c)
  {
    if a == "" {
      assert a + b == b;
    } else {
      assert (a + b)[1..] == a[1..] + b;
      WithoutConcat(a[1..], b, c);
    }
  }

  lemma {:induction false} WithoutAbsent(s: string, c: char)
    requires c !in s
    ensures Without(s, c) == s
  {
    if s != "" {
      WithoutAbsent(s[1..], c);
    }
  }

  /** If the first separator of the text stands right after `head`, the split peels `head` off. */
  lemma SplitHead(head: string, tail: string, sep: string)
    requires sep != ""
    requires forall j | 0 <= j < |head| :: !At(head + sep + tail, sep, j)
    ensures Split(head + sep + tail, sep) == [head] + Split(tail, sep)
  {
    var s := head + sep + tail;
    assert At(s, sep, |head|);
    assert s[..|head|] == head && s[|head| + |sep|..] == tail;
  }

  lemma SplitNone(s: string, sep: string)
    requires sep != "" && !Contains(s, sep)
    ensures Split(s, sep) == [s]
  {
  }

  lemma NotAtChar(s: string, c: char, j: nat)
    requires j < |s| && s[j] != c
    ensures !At(s, [c], j)
  {
    assert j + 1 <= |s| ==> s[j..j + 1] == [s[j]];
  }

  /** Joining is undone by splitting on a one-character separator that no part contains. */
  lemma {:induction false} SplitJoin(parts: seq<string>, c: char)
    requires |parts| >= 1
    requires forall k | 0 <= k < |parts| :: c !in parts[k]
    ensures Split(Join(parts, [c]), [c]) == parts
  {
    var head := parts[0];
    if |parts| == 1 {
      assert forall j | At(head, [c], j) :: head[j] == [c][0];
      SplitNone(head, [c]);
    } else {
      var tail := Join(parts[1..], [c]);
      SplitJoin(parts[1..], c);
      var s := head + [c] + tail;
      forall j | 0 <= j < |head|
        ensures !At(s, [c], j)
      {
        assert s[j] == head[j] && head[j] in head;
        NotAtChar(s, c, j);
      }
      SplitHead(head, tail, [c]);
    }
  }

  /** No part of a split on one character contains that character. */
  lemma {:induction false} SplitPartsClean(s: string, c: char)
    ensures forall k | 0 <= k < |Split(s, [c])| :: c !in Split(s, [c])[k]
    ensures forall k, d | 0 <= k < |Split(s, [c])| && d in Split(s, [c])[k] :: d in s
    decreases |s|
  {
    var i := IndexFrom(s, [c], 0);
    if i == -1 {
      forall j | 0 <= j < |s|
        ensures s[j] != c
      {
        assert !At(s, [c], j);
        assert s[j..j + 1] == [s[j]];
      }
    } else {
      var tail := s[i + 1..];
      SplitPartsClean(tail, c);
      assert forall d | d in tail :: d in s;
      assert forall d | d in s[..i] :: d in s;
      assert Split(s, [c]) == [s[..i]] + Split(tail, [c]);
      forall j | 0 <= j < i
        ensures s[j] != c
      {
        assert !At(s, [c], j);
        assert s[j..j + 1] == [s[j]];
      }
    }
  }

  // ---------- decimal numbers ----------

  /** strconv.Itoa. */
  function Itoa(n: int): string
    decreases if n < 0 then 1 else 0, if n < 0 then -n else n
  {
    if n < 0 then "-" + Itoa(-n)
    else if n < 10 then [('0' as int + n) as char]
    else Itoa(n / 10) + [('0' as int + n % 10) as char]
  }

  ghost predicate AllDigits(s: string) {
    forall k | 0 <= k < |s| :: '0' <= s[k] <= '9'
  }

  function Decimal(s: string): (v: int)
    ensures AllDigits(s) ==> v >= 0
  {
    if s == "" then 0 else 10 * Decimal(s[..|s|-1]) + (s[|s|-1] as int - '0' as int)
  }

  ghost function Pow10(k: nat): nat {
    if k == 0 then 1 else 10 * Pow10(k - 1)
  }

  lemma TimesTen(x: int, p: int)
    ensures x * (10 * p) == 10 * (x * p)
  {
  }

  lemma DecimalLast(s: string, c: char)
    ensures Decimal(s + [c]) == 10 * Decimal(s) + (c as int - '0' as int)
  {
    assert (s + [c])[..|s|] == s;
  }

  /** Digits count by their place. */
  lemma {:induction false} DecimalConcat(a: string, b: string)
    ensures Decimal(a + b) == Decimal(a) * Pow10(|b|) + Decimal(b)
  {
    if b == "" {
      assert a + b == a;
    } else {
      var init, c := b[..|b|-1], b[|b|-1];
      assert a + b == (a + init) + [c] && b == init + [c];
      DecimalConcat(a, init);
      DecimalLast(a + init, c);
      DecimalLast(init, c);
      TimesTen(Decimal(a), Pow10(|init|));
    }
  }

  lemma DecimalDigit(c: char)
    ensures Decimal([c]) == c as int - '0' as int
  {
    assert [c][..0] == "";
  }

  /** Printed numbers are read back, and are printed in digits only, with a leading zero in "0" alone. */
  lemma {:induction false} DecimalOfItoa(n: nat)
    ensures Itoa(n) != "" && AllDigits(Itoa(n)) && Decimal(Itoa(n)) == n
    ensures n > 0 ==> Itoa(n)[0] != '0'
  {
    var digit := ('0' as int + n % 10) as char;
    if n < 10 {
      DecimalDigit(digit);
    } else {
      DecimalOfItoa(n / 10);
      DecimalLast(Itoa(n / 10), digit);
    }
  }
}
