/** Sizes in bytes: image rounding (client/image.go) and the two unit formatters
    (util/display/bytes.go, edgefs.rook.io/v1/utils.go). */
module ByteUnits {
  import opened MachineInts
  import opened Wrappers

  const KIB := 1024
  const MIB := KIB * 1024
  const GIB := MIB * 1024
  const TIB := GIB * 1024
  const PIB := TIB * 1024
  const EIB := PIB * 1024

  /** rbd's smallest unit of image size. */
  const IMAGE_MIN_SIZE := 1048576

  // ---------- image size rounding ----------

  datatype Image = Image(name: string, size: int)

  /** What `rbd create` reported. */
  datatype RbdOutcome = Created | AlreadyExists | Failed

  ghost predicate IsImageSize(m: int) {
    m >= 0 && m % IMAGE_MIN_SIZE == 0
  }

  ghost predicate RoundedUp(reported: int, requested: int) {
    && IsImageSize(reported)
    && requested <= reported
    && forall m | IsImageSize(m) && requested <= m :: reported <= m
  }

  /** Megabytes to bytes, in uint64 arithmetic. */
  function MbTob(mb: int): (b: int)
    ensures 0 <= mb <= TWO_64 / MIB - 1 ==> b == mb * MIB
  {
    WrapUint64(WrapUint64(mb * 1024) * 1024)
  }

  /** The reported size is the request rounded up to a whole number of megabytes, for exactly the
      sizes up to 2^64 - 2^20; above that the rounding wraps and reports an empty image.
      sizeMB is what `rbd create --size` is given. */
  method CreateImage(name: string, requested: int, outcome: RbdOutcome) returns (r: Result<Image>, sizeMB: int)
    requires IsUint64(requested)
    ensures r.Err? <==> outcome == Failed
    ensures r.Ok? ==> r.value.name == name && r.value.size == sizeMB * MIB
    ensures RoundedUp(sizeMB * MIB, requested) <==> requested <= TWO_64 - MIB
    ensures requested > TWO_64 - MIB ==> sizeMB == 0
  {
    var size := requested;
    if size > 0 && size < IMAGE_MIN_SIZE {
      size := IMAGE_MIN_SIZE;
    }
    sizeMB := WrapInt64(WrapUint64(WrapUint64(size + IMAGE_MIN_SIZE) - 1) / IMAGE_MIN_SIZE);
    RoundUpIsLeast(requested, size, sizeMB);
    if outcome == Failed {
      r := Err;
      return;
    }
    var newSizeBytes;
    if sizeMB > 0 {
      newSizeBytes := MbTob(sizeMB);
    } else {
      newSizeBytes := 0;
    }
    r := Ok(Image(name, newSizeBytes));
  }

  lemma RoundUpIsLeast(requested: int, size: int, mb: int)
    requires IsUint64(requested)
    requires size == if 0 < requested < IMAGE_MIN_SIZE then IMAGE_MIN_SIZE else requested
    requires mb == WrapInt64(WrapUint64(WrapUint64(size + IMAGE_MIN_SIZE) - 1) / IMAGE_MIN_SIZE)
    ensures 0 <= mb <= TWO_64 / MIB - 1
    ensures RoundedUp(mb * MIB, requested) <==> requested <= TWO_64 - MIB
    ensures requested > TWO_64 - MIB ==> mb == 0
  {
    if requested <= TWO_64 - MIB {
      assert WrapUint64(WrapUint64(size + IMAGE_MIN_SIZE) - 1) == size + IMAGE_MIN_SIZE - 1;
      assert mb == (size + IMAGE_MIN_SIZE - 1) / IMAGE_MIN_SIZE;
      forall m | IsImageSize(m) && requested <= m
        ensures mb * MIB <= m
      {
        assert m == m / IMAGE_MIN_SIZE * IMAGE_MIN_SIZE;
        assert mb <= m / IMAGE_MIN_SIZE;
      }
    }
  }

  // ---------- unit formatters ----------

  /** A formatted size; printing numerator/divisor with `decimals` digits is not modelled. */
  datatype Formatted = Plain(bytes: int) | Scaled(bytes: int, divisor: int, decimals: int, unit: string)

  function BytesToString(b: int): Formatted {
    if b < KIB then Plain(b)
    else if b < MIB then Scaled(b, KIB, 2, "KiB")
    else if b < GIB then Scaled(b, MIB, 2, "MiB")
    else if b < TIB then Scaled(b, GIB, 2, "GiB")
    else if b < PIB then Scaled(b, TIB, 2, "TiB")
    else if b < EIB then Scaled(b, PIB, 2, "PiB")
    else Scaled(b, EIB, 2, "EiB")
  }

  ghost function Pow1024(n: nat): nat {
    if n == 0 then 1 else 1024 * Pow1024(n - 1)
  }

  const SUFFIXES := "KMGTPE"

  /** b, measured in units of div, is n and a fraction. */
  ghost predicate Measured(b: int, div: int, n: int) {
    div * n <= b < div * (n + 1)
  }

  /** The loop of ByteCountBinary: the largest power of 1024 that is at most b, reached without
      wrapping, with an exponent that indexes the suffixes. */
  method ScaleOf(b: int) returns (div: int, exp: nat)
    requires IsUint64(b) && b >= 1024
    ensures exp <= 5 && div == Pow1024(exp + 1)
    ensures div <= b < 1024 * div
  {
    div, exp := 1024, 0;
    var n := b / 1024;
    ScaleStart(b);
    while n >= 1024
      invariant exp <= 5 && div == Pow1024(exp + 1) && div >= 1
      invariant 1 <= n && Measured(b, div, n)
      decreases n
    {
      ScaleStep(b, div, n, exp);
      div := WrapUint64(div * 1024);
      exp := exp + 1;
      n := n / 1024;
    }
    ScaleEnd(b, div, n);
  }

  lemma ScaleStart(b: int)
    ensures Pow1024(1) == 1024 && Measured(b, 1024, b / 1024)
  {
  }

  lemma ScaleEnd(b: int, div: int, n: int)
    requires Measured(b, div, n) && div >= 1 && 1 <= n < 1024
    ensures div <= b < 1024 * div
  {
    MulLe(div, n + 1, 1024);
    MulLe(div, 1, n);
  }

  /** Another turn of the loop is only possible while the next power still fits 64 bits. */
  lemma ScaleStep(b: int, div: int, n: int, exp: nat)
    requires b < TWO_64 && n >= 1024 && exp <= 5
    requires div == Pow1024(exp + 1) && div >= 1 && Measured(b, div, n)
    ensures exp <= 4 && WrapUint64(div * 1024) == div * 1024 == Pow1024(exp + 2)
    ensures Measured(b, div * 1024, n / 1024)
  {
    Powers();
    MulLe(div, 1024, n);
    MeasuredInNextUnit(b, div, n);
  }

  lemma MeasuredInNextUnit(b: int, div: int, n: int)
    requires div >= 1 && Measured(b, div, n)
    ensures Measured(b, div * 1024, n / 1024)
  {
    var m := n / 1024;
    MulLe(div, 1024 * m, n);
    MulLe(div, n + 1, 1024 * (m + 1));
    Shift(div, m);
    Shift(div, m + 1);
  }

  lemma Shift(div: int, m: int)
    ensures div * (1024 * m) == (div * 1024) * m
  {
  }

  lemma MulLe(a: int, x: int, y: int)
    requires a >= 0 && x <= y
    ensures a * x <= a * y
  {
  }

  lemma Powers()
    ensures Pow1024(1) == KIB && Pow1024(2) == MIB && Pow1024(3) == GIB
    ensures Pow1024(4) == TIB && Pow1024(5) == PIB && Pow1024(6) == EIB && Pow1024(7) == EIB * 1024
  {
    assert Pow1024(2) == 1024 * Pow1024(1) && Pow1024(3) == 1024 * Pow1024(2) && Pow1024(4) == 1024 * Pow1024(3);
    assert Pow1024(5) == 1024 * Pow1024(4) && Pow1024(6) == 1024 * Pow1024(5) && Pow1024(7) == 1024 * Pow1024(6);
  }

  /** Below a KiB a number of bytes is shown as it is; above, in the unit whose power of 1024 it reaches and not
      exceeds by another factor of 1024. */
  lemma UnitsByName(b: int)
    requires IsUint64(b)
    ensures b < 1024 <==> BytesToString(b) == Plain(b)
    ensures match BytesToString(b)
      case Plain(_) => true
      case Scaled(n, div, decimals, unit) =>
        && n == b && decimals == 2 && div <= b < 1024 * div
        && (unit == "KiB" <==> div == Pow1024(1)) && (unit == "MiB" <==> div == Pow1024(2))
        && (unit == "GiB" <==> div == Pow1024(3)) && (unit == "TiB" <==> div == Pow1024(4))
        && (unit == "PiB" <==> div == Pow1024(5)) && (unit == "EiB" <==> div == Pow1024(6))
        && unit in {"KiB", "MiB", "GiB", "TiB", "PiB", "EiB"}
  {
    Powers();
  }

  /** The two formatters, written independently, choose the same unit for every uint64. */
  method ByteCountBinary(b: int) returns (f: Formatted)
    requires IsUint64(b)
    ensures f == match BytesToString(b)
                 case Plain(n) => Plain(n)
                 case Scaled(n, d, _, u) => Scaled(n, d, 1, u)
  {
    if b < 1024 {
      return Plain(b);
    }
    var div, exp := ScaleOf(b);
    Powers();
    assert exp == 0 || exp == 1 || exp == 2 || exp == 3 || exp == 4 || exp == 5;
    f := Scaled(b, div, 1, [SUFFIXES[exp]] + "iB");
  }
}
