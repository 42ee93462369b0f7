/** `ceph osd pool get <pool> all` prints objects back to back; GetPoolDetails splits them apart and
    unmarshals each into one result (daemon/ceph/client/pool.go). */
module PoolDetails {
  import opened Wrappers
  import opened Strings

  const SEAM := "}{"

  /** Unmarshalling one text over details already read; the JSON library is not modelled. */
  type Unmarshal<!D> = (string, D) -> Result<D>

  /** Puts back the braces the split took. */
  function Rebrace(pdu: string): string {
    var withOpen := if HasPrefix(pdu, "{") then pdu else "{" + pdu;
    if HasSuffix(withOpen, "}") then withOpen else withOpen + "}"
  }

  function Rebraced(output: string): (units: seq<string>)
    ensures |units| == |Split(output, SEAM)|
    ensures forall k | 0 <= k < |units| :: units[k] == Rebrace(Split(output, SEAM)[k])
  {
    var units := Split(output, SEAM);
    seq(|units|, k requires 0 <= k < |units| => Rebrace(units[k]))
  }

  /** Unmarshals the texts in order into one value; the first failure fails the whole. */
  function Fold<D>(unmarshal: Unmarshal<D>, units: seq<string>, zero: D): Result<D> {
    if units == [] then Ok(zero)
    else match Fold(unmarshal, units[..|units|-1], zero)
      case Err => Err
      case Ok(d) => unmarshal(units[|units|-1], d)
  }

  lemma {:induction false} FoldFails<D>(unmarshal: Unmarshal<D>, units: seq<string>, zero: D, k: nat)
    requires k <= |units| && Fold(unmarshal, units[..k], zero).Err?
    ensures Fold(unmarshal, units, zero).Err?
    decreases |units|
  {
    if k < |units| {
      assert units[..|units|-1][..k] == units[..k];
      FoldFails(unmarshal, units[..|units|-1], zero, k);
    } else {
      assert units[..k] == units;
    }
  }

  /** The values between the texts: each is what unmarshalling the text before it made of the value before. */
  ghost predicate Chain<D(!new)>(unmarshal: Unmarshal<D>, units: seq<string>, zero: D, values: seq<D>) {
    && |values| == |units| + 1 && values[0] == zero
    && forall k | 0 <= k < |units| :: unmarshal(units[k], values[k]) == Ok(values[k+1])
  }

  lemma {:induction false} ChainOf<D(!new)>(unmarshal: Unmarshal<D>, units: seq<string>, zero: D)
    returns (values: seq<D>)
    requires Fold(unmarshal, units, zero).Ok?
    ensures Chain(unmarshal, units, zero, values) && values[|units|] == Fold(unmarshal, units, zero).value
  {
    if units == [] {
      values := [zero];
    } else {
      var init := ChainOf(unmarshal, units[..|units|-1], zero);
      values := init + [Fold(unmarshal, units, zero).value];
    }
  }

  lemma {:induction false} FoldOfChain<D(!new)>(unmarshal: Unmarshal<D>, units: seq<string>, zero: D, values: seq<D>)
    requires Chain(unmarshal, units, zero, values)
    ensures Fold(unmarshal, units, zero) == Ok(values[|units|])
  {
    if units != [] {
      FoldOfChain(unmarshal, units[..|units|-1], zero, values[..|units|]);
      assert unmarshal(units[|units|-1], values[|units|-1]) == Ok(values[|units|]);
    }
  }

  /** The details come to d exactly when every text unmarshals over what those before it made, from the zero
      value on, and the last of them makes it d; so they fail exactly when some text does not. */
  lemma FoldIff<D(!new)>(unmarshal: Unmarshal<D>, units: seq<string>, zero: D, d: D)
    ensures Fold(unmarshal, units, zero) == Ok(d) <==>
      exists values :: Chain(unmarshal, units, zero, values) && values[|units|] == d
  {
    if Fold(unmarshal, units, zero) == Ok(d) {
      var values := ChainOf(unmarshal, units, zero);
    }
    if values :| Chain(unmarshal, units, zero, values) && values[|units|] == d {
      FoldOfChain(unmarshal, units, zero, values);
    }
  }

  lemma FoldNext<D>(unmarshal: Unmarshal<D>, units: seq<string>, zero: D, i: nat, d: D)
    requires i < |units| && Fold(unmarshal, units[..i], zero) == Ok(d)
    ensures Fold(unmarshal, units[..i+1], zero) == unmarshal(units[i], d)
  {
    assert units[..i+1][..i] == units[..i];
  }

  /** Gives a piece the braces it lacks. */
  method AddBraces(piece: string) returns (pdu: string)
    ensures pdu == Rebrace(piece)
  {
    pdu := piece;
    if !HasPrefix(pdu, "{") {
      pdu := "{" + pdu;
    }
    if !HasSuffix(pdu, "}") {
      pdu := pdu + "}";
    }
  }

  method GetPoolDetails<D>(output: Result<string>, unmarshal: Unmarshal<D>, zero: D) returns (r: Result<D>)
    ensures r == if output.Err? then Err else Fold(unmarshal, Rebraced(output.value), zero)
  {
    if output.Err? {
      return Err;
    }
    var poolDetails := zero;
    var poolDetailsUnits := Split(output.value, SEAM);
    ghost var units := Rebraced(output.value);
    for i := 0 to |poolDetailsUnits|
      invariant Fold(unmarshal, units[..i], zero) == Ok(poolDetails)
    {
      var pdu := AddBraces(poolDetailsUnits[i]);
      FoldNext(unmarshal, units, zero, i, poolDetails);
      var next := unmarshal(pdu, poolDetails);
      if next.Err? {
        FoldFails(unmarshal, units, zero, i + 1);
        return Err;
      }
      poolDetails := next.value;
    }
    assert units[..|poolDetailsUnits|] == units;
    return Ok(poolDetails);
  }

  // ---------- which outputs are taken apart correctly ----------

  function Object(body: string): string {
    "{" + body + "}"
  }

  function Objects(bodies: seq<string>): (objects: seq<string>)
    ensures |objects| == |bodies| && forall k | 0 <= k < |bodies| :: objects[k] == Object(bodies[k])
  {
    seq(|bodies|, k requires 0 <= k < |bodies| => Object(bodies[k]))
  }

  /** The objects printed back to back. */
  function Printed(bodies: seq<string>): string {
    if bodies == [] then "" else Object(bodies[0]) + Printed(bodies[1..])
  }

  /** No body shows the seam, and no body has a brace that a seam could be confused with. */
  ghost predicate Separable(bodies: seq<string>) {
    && (forall k | 0 <= k < |bodies| :: !Contains(bodies[k], SEAM))
    && (forall k | 0 <= k < |bodies| - 1 :: !HasSuffix(bodies[k], "}"))
    && (forall k | 0 < k < |bodies| :: !HasPrefix(bodies[k], "{"))
  }

  /** The pieces between the seams: the outer braces stay on the first and the last one. */
  function Piece(bodies: seq<string>, k: nat): string
    requires k < |bodies|
  {
    (if k == 0 then "{" else "") + bodies[k] + if k == |bodies| - 1 then "}" else ""
  }

  function Pieces(bodies: seq<string>): (pieces: seq<string>)
    ensures |pieces| == |bodies| && forall k | 0 <= k < |bodies| :: pieces[k] == Piece(bodies, k)
  {
    seq(|bodies|, k requires 0 <= k < |bodies| => Piece(bodies, k))
  }

  /** Text printed from the second object on, without its opening brace. */
  lemma {:induction false} TailIsJoined(bodies: seq<string>)
    requires bodies != []
    ensures Printed(bodies) == "{" + Join(bodies, SEAM) + "}"
  {
    if |bodies| > 1 {
      TailIsJoined(bodies[1..]);
      assert Object(bodies[0]) + ("{" + Join(bodies[1..], SEAM) + "}")
          == "{" + (bodies[0] + SEAM + Join(bodies[1..], SEAM)) + "}";
    } else {
      assert Printed(bodies[1..]) == "";
    }
  }

  lemma {:induction false} JoinLast(parts: seq<string>, suffix: string)
    requires parts != []
    ensures Join(parts[|parts|-1 := parts[|parts|-1] + suffix], SEAM) == Join(parts, SEAM) + suffix
  {
    var changed := parts[|parts|-1 := parts[|parts|-1] + suffix];
    if |parts| > 1 {
      JoinLast(parts[1..], suffix);
      assert changed[1..] == parts[1..][|parts|-2 := parts[|parts|-1] + suffix];
      assert changed[0] == parts[0];
      assert parts[0] + SEAM + (Join(parts[1..], SEAM) + suffix) == Join(parts, SEAM) + suffix;
    }
  }

  lemma PrintedIsJoinedPieces(bodies: seq<string>)
    requires bodies != []
    ensures Printed(bodies) == Join(Pieces(bodies), SEAM)
  {
    TailIsJoined(bodies);
    JoinLast(bodies, "}");
    var closed := bodies[|bodies|-1 := bodies[|bodies|-1] + "}"];
    forall k | 0 <= k < |bodies|
      ensures Pieces(bodies)[k] == closed[0 := "{" + closed[0]][k]
    {
      assert ("{" + bodies[k]) + "}" == "{" + (bodies[k] + "}");
      assert "" + bodies[k] == bodies[k] && bodies[k] + "" == bodies[k];
      assert ("{" + bodies[k]) + "" == "{" + bodies[k];
    }
    assert Pieces(bodies) == closed[0 := "{" + closed[0]];
    assert Pieces(bodies)[1..] == closed[1..];
    if |bodies| > 1 {
      assert ("{" + closed[0]) + SEAM + Join(closed[1..], SEAM) == "{" + (closed[0] + SEAM + Join(closed[1..], SEAM));
    }
  }

  lemma Edges(s: string)
    ensures HasPrefix(s, "{") <==> s != "" && s[0] == '{'
    ensures HasSuffix(s, "}") <==> s != "" && s[|s|-1] == '}'
  {
    assert s != "" ==> s[|s|-1..] == [s[|s|-1]];
  }

  lemma SeamHasBrace(s: string)
    ensures Contains(s, SEAM) ==> '}' in s
  {
    assert forall i | At(s, SEAM, i) :: s[i] == s[i..i+2][0] == '}';
  }

  lemma OuterBracesAddNoSeam(s: string)
    ensures Contains("{" + s, SEAM) ==> Contains(s, SEAM)
    ensures Contains(s + "}", SEAM) ==> Contains(s, SEAM)
  {
    var opening, closing := "{" + s, s + "}";
    if i :| At(opening, SEAM, i) {
      assert opening[i] == SEAM[0] == '}';
      assert s[i-1..i+1] == opening[i..i+2];
      assert At(s, SEAM, i - 1);
    }
    if i :| At(closing, SEAM, i) {
      assert closing[i+1] == SEAM[1] == '{';
      assert s[i..i+2] == closing[i..i+2];
      assert At(s, SEAM, i);
    }
  }

  /** The seam cannot overlap itself, so splitting a join gives back parts without seams. */
  lemma {:induction false} SplitSeams(parts: seq<string>)
    requires parts != [] && forall k | 0 <= k < |parts| :: !Contains(parts[k], SEAM)
    ensures Split(Join(parts, SEAM), SEAM) == parts
  {
    var head := parts[0];
    if |parts| == 1 {
      SplitNone(head, SEAM);
    } else {
      SplitSeams(parts[1..]);
      var tail := Join(parts[1..], SEAM);
      var s := head + SEAM + tail;
      forall j | 0 <= j < |head|
        ensures !At(s, SEAM, j)
      {
        if j == |head| - 1 {
          assert s[j..j+2][1] == '}';
        } else {
          assert s[j..j+2] == head[j..j+2];
          assert !At(head, SEAM, j);
        }
      }
      SplitHead(head, tail, SEAM);
    }
  }

  lemma {:induction false} SplitHasNoSeam(s: string)
    ensures forall k | 0 <= k < |Split(s, SEAM)| :: !Contains(Split(s, SEAM)[k], SEAM)
    decreases |s|
  {
    var i := IndexFrom(s, SEAM, 0);
    if i != -1 {
      SplitHasNoSeam(s[i+2..]);
      forall j | At(s[..i], SEAM, j)
        ensures At(s, SEAM, j)
      {
        assert s[..i][j..j+2] == s[j..j+2];
      }
    }
  }

  lemma RebraceAddsNoSeam(pdu: string)
    requires !Contains(pdu, SEAM)
    ensures !Contains(Rebrace(pdu), SEAM)
  {
    OuterBracesAddNoSeam(pdu);
    OuterBracesAddNoSeam(if HasPrefix(pdu, "{") then pdu else "{" + pdu);
  }

  lemma ObjectKeepsSeam(body: string)
    requires Contains(body, SEAM)
    ensures Contains(Object(body), SEAM)
  {
    var i :| At(body, SEAM, i);
    assert Object(body)[i+1..i+3] == body[i..i+2];
    assert At(Object(body), SEAM, i + 1);
  }

  lemma RepairFirst(b: string)
    ensures Rebrace("{" + b) == Object(b) <==> !HasSuffix(b, "}")
  {
    Edges("{" + b);
    Edges(b);
  }

  lemma RepairMiddle(b: string)
    ensures Rebrace(b) == Object(b) <==> !HasPrefix(b, "{") && !HasSuffix(b, "}")
  {
    Edges(b);
    Edges("{" + b);
    assert |Object(b)| == |b| + 2;
  }

  lemma RepairLast(b: string)
    ensures Rebrace(b + "}") == Object(b) <==> !HasPrefix(b, "{")
  {
    Edges(b);
    Edges(b + "}");
    Edges("{" + (b + "}"));
    assert "{" + (b + "}") == Object(b);
    assert |Object(b)| == |b| + 2;
  }

  lemma RepairOnly(b: string)
    ensures Rebrace(Object(b)) == Object(b)
  {
    Edges(Object(b));
  }

  /** Re-adding braces repairs a piece exactly when the split had really taken them. */
  lemma RebraceRepairs(bodies: seq<string>, k: nat)
    requires k < |bodies|
    ensures Rebrace(Piece(bodies, k)) == Object(bodies[k])
       <==> (k < |bodies| - 1 ==> !HasSuffix(bodies[k], "}")) && (k > 0 ==> !HasPrefix(bodies[k], "{"))
  {
    var b := bodies[k];
    assert "" + b == b && b + "" == b && ("{" + b) + "" == "{" + b;
    RepairFirst(b);
    RepairMiddle(b);
    RepairLast(b);
    RepairOnly(b);
  }

  ghost predicate NoSeamInside(bodies: seq<string>) {
    forall k | 0 <= k < |bodies| :: !Contains(bodies[k], SEAM)
  }

  lemma SplitOfSeamless(bodies: seq<string>)
    requires bodies != [] && NoSeamInside(bodies)
    ensures Rebraced(Printed(bodies)) == Objects(bodies) <==> Separable(bodies)
  {
    var units := Rebraced(Printed(bodies));
    SplitIntoPieces(bodies);
    forall k | 0 <= k < |bodies|
      ensures units[k] == Objects(bodies)[k]
         <==> (k < |bodies| - 1 ==> !HasSuffix(bodies[k], "}")) && (k > 0 ==> !HasPrefix(bodies[k], "{"))
    {
      RebraceRepairs(bodies, k);
      assert units[k] == Rebrace(Piece(bodies, k));
    }
  }

  lemma SeamInsideIsLost(bodies: seq<string>, k: nat)
    requires k < |bodies| && Contains(bodies[k], SEAM)
    ensures Rebraced(Printed(bodies)) != Objects(bodies)
  {
    var units := Rebraced(Printed(bodies));
    ObjectKeepsSeam(bodies[k]);
    assert Contains(Objects(bodies)[k], SEAM);
    SplitHasNoSeam(Printed(bodies));
    if k < |units| {
      RebraceAddsNoSeam(Split(Printed(bodies), SEAM)[k]);
      assert !Contains(units[k], SEAM);
    }
  }

  /** GetPoolDetails sees exactly the printed objects, in order, if and only if they are separable. */
  lemma SplitIffSeparable(bodies: seq<string>)
    requires bodies != []
    ensures Rebraced(Printed(bodies)) == Objects(bodies) <==> Separable(bodies)
  {
    if NoSeamInside(bodies) {
      SplitOfSeamless(bodies);
    } else {
      var k :| 0 <= k < |bodies| && Contains(bodies[k], SEAM);
      SeamInsideIsLost(bodies, k);
    }
  }

  lemma PieceHasNoSeam(bodies: seq<string>, k: nat)
    requires k < |bodies| && !Contains(bodies[k], SEAM)
    ensures !Contains(Piece(bodies, k), SEAM)
  {
    var b := bodies[k];
    assert "" + b == b && b + "" == b && ("{" + b) + "" == "{" + b;
    OuterBracesAddNoSeam(b);
    OuterBracesAddNoSeam("{" + b);
  }

  lemma SplitIntoPieces(bodies: seq<string>)
    requires bodies != [] && forall k | 0 <= k < |bodies| :: !Contains(bodies[k], SEAM)
    ensures Split(Printed(bodies), SEAM) == Pieces(bodies)
  {
    forall k | 0 <= k < |bodies|
      ensures !Contains(Piece(bodies, k), SEAM)
    {
      PieceHasNoSeam(bodies, k);
    }
    PrintedIsJoinedPieces(bodies);
    SplitSeams(Pieces(bodies));
  }

  lemma FlatIsSeparable(bodies: seq<string>)
    requires forall k | 0 <= k < |bodies| :: '{' !in bodies[k] && '}' !in bodies[k]
    ensures Separable(bodies)
  {
    forall k | 0 <= k < |bodies|
      ensures !Contains(bodies[k], SEAM) && !HasSuffix(bodies[k], "}") && !HasPrefix(bodies[k], "{")
    {
      SeamHasBrace(bodies[k]);
      Edges(bodies[k]);
    }
  }

  /** The case the workaround was written for: flat objects, with no braces inside. */
  lemma FlatObjectsAreSplit(bodies: seq<string>)
    requires bodies != [] && forall k | 0 <= k < |bodies| :: '{' !in bodies[k] && '}' !in bodies[k]
    ensures Rebraced(Printed(bodies)) == Objects(bodies)
  {
    FlatIsSeparable(bodies);
    SplitIffSeparable(bodies);
  }

  /** A nested object at the end of any response but the last is not repaired. */
  lemma NestedObjectIsMangled()
    ensures Rebraced("{\"a\":{}}{\"b\":1}") != Objects(["\"a\":{}", "\"b\":1"])
  {
    var bodies := ["\"a\":{}", "\"b\":1"];
    assert bodies[1..] == ["\"b\":1"];
    assert Printed(bodies) == "{\"a\":{}}{\"b\":1}";
    assert HasSuffix(bodies[0], "}");
    SplitIffSeparable(bodies);
  }

  // ---------- the fold is a last-writer-wins merge ----------

  type Fields = map<string, string>

  /** Unmarshalling leaves fields it does not mention intact. */
  function Overlaying(fieldsOf: string -> Fields): Unmarshal<Fields> {
    (text, details) => Ok(details + fieldsOf(text))
  }

  ghost predicate LastWriter(fieldsOf: string -> Fields, units: seq<string>, key: string, k: int) {
    && 0 <= k < |units|
    && key in fieldsOf(units[k])
    && forall j | k < j < |units| :: key !in fieldsOf(units[j])
  }

  /** The merge of the units: a field is there when some unit mentions it, with the value of the last. */
  ghost predicate MergedAt(fieldsOf: string -> Fields, units: seq<string>, merged: Fields, key: string) {
    && (key in merged <==> exists k :: LastWriter(fieldsOf, units, key, k))
    && (forall k | LastWriter(fieldsOf, units, key, k) :: key in merged && merged[key] == fieldsOf(units[k])[key])
  }

  lemma {:induction false} LastWriterWins(fieldsOf: string -> Fields, units: seq<string>, key: string)
    ensures Fold(Overlaying(fieldsOf), units, map[]).Ok?
    ensures MergedAt(fieldsOf, units, Fold(Overlaying(fieldsOf), units, map[]).value, key)
  {
    if units != [] {
      var init, last := units[..|units|-1], |units| - 1;
      LastWriterWins(fieldsOf, init, key);
      if key in fieldsOf(units[last]) {
        assert LastWriter(fieldsOf, units, key, last);
      } else {
        assert forall k :: LastWriter(fieldsOf, init, key, k) <==> LastWriter(fieldsOf, units, key, k);
      }
    }
  }

  /** Separable objects printed back to back are merged, each field taken from its last writer. */
  method MergePrinted(fieldsOf: string -> Fields, bodies: seq<string>) returns (details: Fields)
    requires bodies != [] && Separable(bodies)
    ensures forall key :: MergedAt(fieldsOf, Objects(bodies), details, key)
  {
    SplitIffSeparable(bodies);
    LastWriterWins(fieldsOf, Objects(bodies), "");
    var r := GetPoolDetails(Ok(Printed(bodies)), Overlaying(fieldsOf), map[]);
    details := r.value;
    forall key
      ensures MergedAt(fieldsOf, Objects(bodies), details, key)
    {
      LastWriterWins(fieldsOf, Objects(bodies), key);
    }
  }
}
