/**
 * The display values derived from state: the byte-size label of an image and the
 * reduction percentage. The numerals themselves (logarithms, powers, rounding to a number
 * of decimals) are floating-point and are not modelled; the guard branches, the choice of
 * unit and the quantity the percentage stands for are.
 */
module SizeFormat {
  import opened Wrappers
  import opened Media

  const Base: nat := 1024

  function Pow(i: nat): (p: nat)
    ensures p >= 1
  {
    if i == 0 then 1 else Base * Pow(i - 1)
  }

  lemma {:induction false} PowGrows(i: nat, j: nat)
    requires i < j
    ensures Base * Pow(i) <= Pow(j)
    decreases j
  {
    if i + 1 < j {
      PowGrows(i, j - 1);
    }
  }

  /**
   * The unit index `Math.floor(Math.log(bytes) / Math.log(1024))`, taken with exact
   * arithmetic: the largest i with 1024^i <= bytes.
   */
  function UnitIndex(bytes: nat): (i: nat)
    requires bytes > 0
    ensures Pow(i) <= bytes < Pow(i + 1)
    decreases bytes
  {
    if bytes < Base then 0 else 1 + UnitIndex(bytes / Base)
  }

  /** `sizes[i]`; past the end of the four-entry table JavaScript yields undefined, printed as "undefined". */
  function UnitName(i: nat): (u: string)
    ensures u == "undefined" <==> i >= 4
  {
    if i == 0 then "Bytes"
    else if i == 1 then "KB"
    else if i == 2 then "MB"
    else if i == 3 then "GB"
    else "undefined"
  }

  /** A size label: a literal text, a scaled numeral followed by a unit name, or the exception `toFixed` throws. */
  datatype SizeText =
    | Literal(text: string)
    | Scaled(unit: string, decimals: nat)   // "<bytes / 1024^i, rounded to `decimals` places> <unit>"
    | RangeError                            // `toFixed` accepts at most 100 fraction digits

  const MaxFractionDigits: nat := 100

  const DefaultDecimals: int := 2

  /**
   * `formatBytes(bytes, decimals)`: zero is the literal "0 Bytes"; any other size is scaled
   * to the largest power of 1024 not above it, with a negative `decimals` taken as 0; more
   * than 100 decimals makes `toFixed` throw.
   */
  function FormatBytes(bytes: nat, decimals: int): (r: SizeText)
    ensures bytes == 0 <==> r == Literal("0 Bytes")
    ensures r == RangeError <==> bytes > 0 && decimals > MaxFractionDigits
    ensures bytes > 0 && decimals <= MaxFractionDigits ==>
              r.Scaled? && r.decimals == (if decimals < 0 then 0 else decimals)
    ensures r.Scaled? && bytes < Pow(1) ==> r.unit == "Bytes"
    ensures r.Scaled? && Pow(1) <= bytes < Pow(2) ==> r.unit == "KB"
    ensures r.Scaled? && Pow(2) <= bytes < Pow(3) ==> r.unit == "MB"
    ensures r.Scaled? && Pow(3) <= bytes < Pow(4) ==> r.unit == "GB"
    ensures r.Scaled? && Pow(4) <= bytes ==> r.unit == "undefined"
  {
    if bytes == 0 then Literal("0 Bytes")
    else
      var dm: nat := if decimals < 0 then 0 else decimals;
      if dm > MaxFractionDigits then RangeError
      else
        var i := UnitIndex(bytes);
        UnitIndexUnique(bytes, i);
        Scaled(UnitName(i), dm)
  }

  /** 1536 bytes print in KB and 1048576 bytes in MB, both with two decimals by default. */
  lemma FormatBytesExamples()
    ensures FormatBytes(1536, DefaultDecimals) == Scaled("KB", 2)
    ensures FormatBytes(1048576, DefaultDecimals) == Scaled("MB", 2)
    ensures FormatBytes(0, DefaultDecimals) == Literal("0 Bytes")
    ensures FormatBytes(1, 101) == RangeError && FormatBytes(0, 101) == Literal("0 Bytes")
  {
  }

  /** The bounds of UnitIndex pin it down: below the k-th power it is below k, from it on it is at least k. */
  lemma UnitIndexUnique(bytes: nat, i: nat)
    requires bytes > 0 && Pow(i) <= bytes < Pow(i + 1)
    ensures forall k: nat :: k <= 4 ==> (bytes < Pow(k) <==> i < k)
  {
    forall k: nat | k <= 4
      ensures bytes < Pow(k) <==> i < k
    {
      if i < k {
        if i + 1 < k { PowGrows(i + 1, k); }
      } else if k < i {
        PowGrows(k, i);
      }
    }
  }

  /**
   * The reduction shown beside the compressed size: the number 0 unless both images are
   * held; otherwise the saving as a percentage of the original size, which JavaScript makes
   * NaN or an infinity when the original is empty.
   */
  datatype Reduction = Zero | Percent(value: real) | NotFinite

  function ReductionPercentage(original: Option<FileRec>, compressed: Option<FileRec>): (r: Reduction)
    ensures (original.None? || compressed.None?) <==> r == Zero
    ensures r == NotFinite <==> original.Some? && compressed.Some? && original.value.size == 0
    ensures r.Percent? ==> r.value * (original.value.size as real)
                           == ((original.value.size - compressed.value.size) as real) * 100.0
    ensures r.Percent? ==> (r.value <= 100.0) && (r.value >= 0.0 <==> compressed.value.size <= original.value.size)
  {
    if original.None? || compressed.None? then Zero
    else if original.value.size == 0 then NotFinite
    else
      var o := original.value.size as real;
      var c := compressed.value.size as real;
      Percent((o - c) / o * 100.0)
  }

  /** A 1,000,000-byte original compressed to 400,000 bytes is a 60 percent reduction. */
  lemma SixtyPercentReduction(name: string, mime: string)
    ensures ReductionPercentage(Some(FileRec(name, mime, 1000000)), Some(FileRec(name, mime, 400000)))
            == Percent(60.0)
  {
  }
}
