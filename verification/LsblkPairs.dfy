/** `lsblk --pairs` output and the partition accounting over it (util/sys/device.go). */
module LsblkPairs {
  import opened Strings

  type Props = map<string, string>

  datatype Pair = Pair(key: string, value: string)

  const QUOTE := '"'

  // ---------- parseKeyValuePairString ----------

  /** What one space-separated token adds to the map: exactly one `=`, and all quotes dropped. */
  function AddToken(m: Props, token: string): Props {
    var kvp := Split(token, "=");
    if |kvp| == 2 then m[kvp[0] := Without(kvp[1], QUOTE)] else m
  }

  function AddTokens(m: Props, tokens: seq<string>): Props {
    if tokens == [] then m else AddToken(AddTokens(m, tokens[..|tokens|-1]), tokens[|tokens|-1])
  }

  function ParsePairs(raw: string): Props {
    AddTokens(map[], Split(raw, " "))
  }

  method ParseKeyValuePairString(propsRaw: string) returns (propMap: Props)
    ensures propMap == ParsePairs(propsRaw)
  {
    var props := Split(propsRaw, " ");
    propMap := map[];
    for k := 0 to |props|
      invariant propMap == AddTokens(map[], props[..k])
    {
      assert props[..k+1][..k] == props[..k];
      var kvp := Split(props[k], "=");
      if |kvp| == 2 {
        propMap := propMap[kvp[0] := Without(kvp[1], QUOTE)];
      }
    }
    assert props[..|props|] == props;
  }

  // ---------- printing, and the round trip ----------

  function Quoted(value: string): string {
    [QUOTE] + value + [QUOTE]
  }

  function PrintPair(p: Pair): string {
    p.key + "=" + Quoted(p.value)
  }

  function PrintTokens(pairs: seq<Pair>): (tokens: seq<string>)
    ensures |tokens| == |pairs|
    ensures forall k | 0 <= k < |pairs| :: tokens[k] == PrintPair(pairs[k])
  {
    if pairs == [] then [] else PrintTokens(pairs[..|pairs|-1]) + [PrintPair(pairs[|pairs|-1])]
  }

  /** `K1="V1" K2="V2" ...`, the form lsblk prints. */
  function Print(pairs: seq<Pair>): string {
    Join(PrintTokens(pairs), " ")
  }

  function MapOf(pairs: seq<Pair>): Props {
    if pairs == [] then map[] else MapOf(pairs[..|pairs|-1])[pairs[|pairs|-1].key := pairs[|pairs|-1].value]
  }

  /** A key or value the format can carry. */
  ghost predicate Clean(p: Pair) {
    && ' ' !in p.key && '=' !in p.key
    && ' ' !in p.value && '=' !in p.value && QUOTE !in p.value
  }

  ghost predicate DistinctKeys(pairs: seq<Pair>) {
    forall i, j | 0 <= i < j < |pairs| :: pairs[i].key != pairs[j].key
  }

  // ---------- what becomes of pairs the format cannot carry ----------

  /** Pairs that stand in a token of their own. */
  ghost predicate Spaceless(p: Pair) {
    ' ' !in p.key && ' ' !in p.value
  }

  /** The pairs whose token has no `=` but the one between them, their values without quotes. */
  ghost function Survivors(pairs: seq<Pair>): seq<Pair> {
    if pairs == [] then []
    else
      var p := pairs[|pairs|-1];
      var last := if '=' in p.key || '=' in p.value then [] else [Pair(p.key, Without(p.value, QUOTE))];
      Survivors(pairs[..|pairs|-1]) + last
  }

  lemma UnquoteAny(value: string)
    ensures Without(Quoted(value), QUOTE) == Without(value, QUOTE)
  {
    WithoutConcat([QUOTE] + value, [QUOTE], QUOTE);
    WithoutConcat([QUOTE], value, QUOTE);
    assert Without([QUOTE], QUOTE) == "";
  }

  /** A text with as many separators as `parts` has joints splits into as many parts. */
  lemma {:induction false} SplitCount(s: string, c: char)
    ensures |Split(s, [c])| == 1 + Count(s, c)
    decreases |s|
  {
    var i := IndexFrom(s, [c], 0);
    if i == -1 {
      SplitPartsClean(s, c);
      assert Split(s, [c])[0] == s;
      CountAbsent(s, c);
    } else {
      SplitPartsClean(s, c);
      assert s == s[..i] + [c] + s[i+1..] by {
        assert s[i..i+1] == [c];
      }
      assert Split(s, [c])[0] == s[..i];
      CountAbsent(s[..i], c);
      CountConcat(s[..i] + [c], s[i+1..], c);
      CountConcat(s[..i], [c], c);
      SplitCount(s[i+1..], c);
      assert Count([c], c) == 1 + Count([c][1..], c);
    }
  }

  ghost function Count(s: string, c: char): nat {
    if s == "" then 0 else (if s[0] == c then 1 else 0) + Count(s[1..], c)
  }

  lemma {:induction false} CountAbsent(s: string, c: char)
    ensures Count(s, c) == 0 <==> c !in s
  {
    if s != "" {
      CountAbsent(s[1..], c);
    }
  }

  lemma {:induction false} CountConcat(a: string, b: string, c: char)
    ensures Count(a + b, c) == Count(a, c) + Count(b, c)
  {
    if a == "" {
      assert a + b == b;
    } else {
      assert (a + b)[1..] == a[1..] + b;
      CountConcat(a[1..], b, c);
    }
  }

  lemma SplitSurvivor(p: Pair)
    requires '=' !in p.key && '=' !in p.value
    ensures Split(PrintPair(p), "=") == [p.key, Quoted(p.value)]
  {
    var parts := [p.key, Quoted(p.value)];
    assert parts[1..] == [Quoted(p.value)];
    assert PrintPair(p) == Join(parts, "=");
    SplitJoin(parts, '=');
  }

  lemma SplitCasualty(p: Pair)
    requires '=' in p.key || '=' in p.value
    ensures |Split(PrintPair(p), "=")| > 2
  {
    SplitCount(PrintPair(p), '=');
    CountConcat(p.key + "=", Quoted(p.value), '=');
    CountConcat(p.key, "=", '=');
    CountAbsent(p.key, '=');
    CountConcat([QUOTE] + p.value, [QUOTE], '=');
    CountConcat([QUOTE], p.value, '=');
    CountAbsent(p.value, '=');
    assert Count("=", '=') == 1 + Count("="[1..], '=');
  }

  lemma TokenOfAnyPair(m: Props, p: Pair)
    ensures AddToken(m, PrintPair(p)) ==
      if '=' in p.key || '=' in p.value then m else m[p.key := Without(p.value, QUOTE)]
  {
    if '=' in p.key || '=' in p.value {
      SplitCasualty(p);
    } else {
      SplitSurvivor(p);
      UnquoteAny(p.value);
    }
  }

  lemma {:induction false} TokensOfAnyPairs(pairs: seq<Pair>)
    ensures AddTokens(map[], PrintTokens(pairs)) == MapOf(Survivors(pairs))
  {
    if pairs != [] {
      var init, p, tokens := pairs[..|pairs|-1], pairs[|pairs|-1], PrintTokens(pairs);
      TokensOfAnyPairs(init);
      TokenOfAnyPair(MapOf(Survivors(init)), p);
      assert tokens[..|tokens|-1] == PrintTokens(init);
      var kept := Survivors(pairs);
      assert '=' !in p.key && '=' !in p.value ==> kept[..|kept|-1] == Survivors(init);
      assert '=' in p.key || '=' in p.value ==> kept == Survivors(init);
    }
  }

  lemma TokenHasNoSpace(p: Pair)
    requires Spaceless(p)
    ensures ' ' !in PrintPair(p)
  {
    assert forall c | c in PrintPair(p) :: c in p.key || c in p.value || c == '=' || c == QUOTE;
  }

  lemma ParseOfNothing()
    ensures ParsePairs("") == map[]
  {
    SplitNone("", " ");
    SplitNone("", "=");
    assert [""][..0] == [];
  }

  /** Of pairs without spaces, those with another `=` are dropped and the others are kept without their quotes. */
  lemma {:induction false} ParseOfAnyPrint(pairs: seq<Pair>)
    requires forall k | 0 <= k < |pairs| :: Spaceless(pairs[k])
    ensures ParsePairs(Print(pairs)) == MapOf(Survivors(pairs))
  {
    if pairs == [] {
      ParseOfNothing();
    } else {
      var tokens := PrintTokens(pairs);
      forall k | 0 <= k < |tokens|
        ensures ' ' !in tokens[k]
      {
        TokenHasNoSpace(pairs[k]);
      }
      SplitJoin(tokens, ' ');
      TokensOfAnyPairs(pairs);
    }
  }

  lemma {:induction false} CleanPairsSurvive(pairs: seq<Pair>)
    requires forall k | 0 <= k < |pairs| :: Clean(pairs[k])
    ensures Survivors(pairs) == pairs
  {
    if pairs != [] {
      CleanPairsSurvive(pairs[..|pairs|-1]);
      WithoutAbsent(pairs[|pairs|-1].value, QUOTE);
    }
  }

  /** Parsing what was printed gives clean pairs back, last writer winning on repeated keys. */
  lemma ParseOfPrint(pairs: seq<Pair>)
    requires forall k | 0 <= k < |pairs| :: Clean(pairs[k])
    ensures ParsePairs(Print(pairs)) == MapOf(pairs)
  {
    ParseOfAnyPrint(pairs);
    CleanPairsSurvive(pairs);
  }

  /** Whatever the text, a parsed map holds only keys and values the format can carry. */
  lemma {:induction false} ParsedIsClean(tokens: seq<string>)
    requires forall k | 0 <= k < |tokens| :: ' ' !in tokens[k]
    ensures forall key | key in AddTokens(map[], tokens) :: Clean(Pair(key, AddTokens(map[], tokens)[key]))
  {
    if tokens != [] {
      ParsedIsClean(tokens[..|tokens|-1]);
      SplitPartsClean(tokens[|tokens|-1], '=');
    }
  }

  lemma {:induction false} MapOfDistinct(pairs: seq<Pair>, k: nat)
    requires DistinctKeys(pairs) && k < |pairs|
    ensures pairs[k].key in MapOf(pairs) && MapOf(pairs)[pairs[k].key] == pairs[k].value
  {
    if k < |pairs| - 1 {
      MapOfDistinct(pairs[..|pairs|-1], k);
    }
  }

  /** The round trip holds of a map printed in any order exactly when every key and value is clean. */
  lemma RoundTripIffClean(pairs: seq<Pair>)
    requires DistinctKeys(pairs)
    ensures ParsePairs(Print(pairs)) == MapOf(pairs) <==> forall k | 0 <= k < |pairs| :: Clean(pairs[k])
  {
    if forall k | 0 <= k < |pairs| :: Clean(pairs[k]) {
      ParseOfPrint(pairs);
    } else if ParsePairs(Print(pairs)) == MapOf(pairs) {
      SplitPartsClean(Print(pairs), ' ');
      ParsedIsClean(Split(Print(pairs), " "));
      forall k | 0 <= k < |pairs|
        ensures Clean(pairs[k])
      {
        MapOfDistinct(pairs, k);
        assert Clean(Pair(pairs[k].key, MapOf(pairs)[pairs[k].key]));
      }
    }
  }
}
