/**
 * The scaling both `formatFileSize` helpers share: a byte count divided by
 * the largest power of 1024 not above it, named after the list
 * Bytes, KB, MB, GB. The rounding to two decimals is not modelled; the
 * amount is the exact quotient.
 */
module Sizes {

  function Pow(b: nat, e: nat): (r: nat)
    ensures b >= 1 ==> r >= 1
  {
    if e == 0 then 1 else b * Pow(b, e - 1)
  }

  /** `Math.floor(Math.log(bytes) / Math.log(1024))`, read with exact arithmetic. */
  function UnitIndex(bytes: nat): (i: nat)
    requires bytes >= 1
    ensures Pow(1024, i) <= bytes < Pow(1024, i + 1)
  {
    if bytes < 1024 then 0
    else
      var j := UnitIndex(bytes / 1024);
      assert Pow(1024, j + 1) == 1024 * Pow(1024, j);
      assert Pow(1024, j + 2) == 1024 * Pow(1024, j + 1);
      assert 1024 * (bytes / 1024) <= bytes < 1024 * (bytes / 1024 + 1);
      MulLeft(Pow(1024, j), bytes / 1024);
      MulLeft(bytes / 1024 + 1, Pow(1024, j + 1));
      j + 1
  }

  lemma MulLeft(x: nat, y: nat)
    requires x <= y
    ensures 1024 * x <= 1024 * y
  {
  }

  lemma {:induction false} PowMonotone(a: nat, b: nat)
    requires a <= b
    ensures Pow(1024, a) <= Pow(1024, b)
    decreases b
  {
    if a < b {
      PowMonotone(a, b - 1);
    }
  }

  /** `sizes`. */
  const Units: seq<string> := ["Bytes", "KB", "MB", "GB"]

  datatype Scaled = Scaled(amount: real, unit: string)

  /** The three outcomes of a `formatFileSize`. */
  datatype SizeText = UnknownSize | ZeroBytes | Sized(scaled: Scaled)

  /**
   * The scaling as written: the unit is `sizes[i]`, which JavaScript turns
   * into the text "undefined" once `i` is past the end of the list.
   */
  function ScaleAsWritten(n: nat): Scaled
    requires n >= 1
  {
    var i := UnitIndex(n);
    Scaled(n as real / Pow(1024, i) as real, if i < |Units| then Units[i] else "undefined")
  }

  /** 1024^4 bytes, one tebibyte, has unit index 4, one past "GB". */
  lemma ScaleAsWrittenTebibyte()
    ensures ScaleAsWritten(1099511627776).unit == "undefined"
  {
    assert UnitIndex(1099511627776) == 4;
  }

  /**
   * The scaling with the unit index capped at the last unit: the unit is
   * always one of the four names, the amount at least 1, and below 1024
   * whenever the size is below a tebibyte.
   */
  function Scale(n: nat): (s: Scaled)
    requires n >= 1
    ensures s.unit in Units && s.amount >= 1.0
    ensures n < Pow(1024, 4) ==> s.amount < 1024.0
  {
    var u := CappedUnitIndex(n);
    RealQuotientBounds(n, Pow(1024, u));
    Scaled(n as real / Pow(1024, u) as real, Units[u])
  }

  /** Below a tebibyte the cap never bites, and the two scalings agree. */
  lemma ScaleAgreesBelowTebibyte(n: nat)
    requires n >= 1
    ensures n < Pow(1024, 4) ==> ScaleAsWritten(n) == Scale(n)
  {
    var i := UnitIndex(n);
    if n < Pow(1024, 4) && i >= 4 {
      PowMonotone(4, i);
    }
  }

  /** The unit index capped at the last unit, with the bounds of its power of 1024. */
  function CappedUnitIndex(n: nat): (u: nat)
    requires n >= 1
    ensures u < |Units| && Pow(1024, u) <= n
    ensures u == if UnitIndex(n) < |Units| then UnitIndex(n) else |Units| - 1
    ensures n < Pow(1024, 4) ==> n < 1024 * Pow(1024, u)
  {
    var i := UnitIndex(n);
    var u := if i < |Units| then i else |Units| - 1;
    CappedBounds(n, i, u);
    u
  }

  lemma CappedBounds(n: nat, i: nat, u: nat)
    requires n >= 1 && i == UnitIndex(n) && u == if i < |Units| then i else |Units| - 1
    ensures Pow(1024, u) <= n
    ensures n < Pow(1024, 4) ==> n < 1024 * Pow(1024, u)
  {
    PowMonotone(u, i);
    if n < Pow(1024, 4) {
      if i >= 4 {
        PowMonotone(4, i);
      }
      assert Pow(1024, i + 1) == 1024 * Pow(1024, i);
    }
  }

  lemma RealQuotientBounds(n: nat, d: nat)
    requires 1 <= d <= n
    ensures n as real / d as real >= 1.0
    ensures n < 1024 * d ==> n as real / d as real < 1024.0
  {
    var q := n as real / d as real;
    assert q * d as real == n as real;
    RealScale(q, d as real, 1.0);
    RealScale(q, d as real, 1024.0);
  }

  /** For a positive `d`, `q` is below `c` exactly when `q * d` is below `c * d`. */
  lemma RealScale(q: real, d: real, c: real)
    requires d > 0.0
    ensures q < c <==> q * d < c * d
  {
  }
}
