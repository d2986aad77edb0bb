/** Conversion of decimal degrees into the degree/minute/second rationals
    that EXIF GPS fields hold (`decdeg2dms` and `abs_geo_coord`). Python's
    floats are modelled as reals, so every identity below is exact. */
module Geo {

  /** A (degree, minute, second) triple as `decdeg2dms` returns it. */
  datatype Dms = Dms(deg: real, mnt: real, sec: real)

  /** Python's `fractions.Fraction`, as built by `Fraction(n, 1)`. */
  datatype Fraction = Fraction(numerator: int, denominator: int)

  predicate IsIntegral(x: real) {
    x == x.Floor as real
  }

  /** Python's `abs` on a number. */
  function Abs(x: real): (r: real)
    ensures r >= 0.0 && (r == x || r == -x)
  {
    if x < 0.0 then -x else x
  }

  /** Python's `divmod(x, 60)`: the floored quotient and a remainder that
      lies in [0, 60). */
  function DivMod60(x: real): (qr: (real, real))
    ensures IsIntegral(qr.0)
    ensures 0.0 <= qr.1 < 60.0
    ensures qr.0 * 60.0 + qr.1 == x
    ensures x >= 0.0 ==> qr.0 >= 0.0
  {
    var q := (x / 60.0).Floor as real;
    (q, x - q * 60.0)
  }

  /** `decdeg2dms`: seconds of arc split by two `divmod` steps by 60. */
  function DecDeg2Dms(dd: real): (r: Dms)
    ensures r.deg * 3600.0 + r.mnt * 60.0 + r.sec == dd * 3600.0
    ensures 0.0 <= r.mnt < 60.0 && 0.0 <= r.sec < 60.0
    ensures IsIntegral(r.deg) && IsIntegral(r.mnt)
    ensures dd >= 0.0 ==> 0.0 <= r.deg <= dd
  {
    var minutes := DivMod60(dd * 3600.0);
    var degrees := DivMod60(minutes.0);
    assert degrees.1 == (minutes.0.Floor - degrees.0.Floor * 60) as real;
    Dms(degrees.0, degrees.1, minutes.1)
  }

  /** Python's `int(x)` on a float: truncation toward zero. */
  function Trunc(x: real): (n: int)
    ensures x >= 0.0 ==> 0 <= n && n as real <= x < n as real + 1.0
    ensures x < 0.0 ==> n <= 0 && n as real - 1.0 < x <= n as real
  {
    if x >= 0.0 then x.Floor else -((-x).Floor)
  }

  /** `abs_geo_coord`: the three fields of `decdeg2dms(abs(x))`, each
      truncated to an integer and wrapped as a fraction over 1. */
  function AbsGeoCoord(x: real): (r: seq<Fraction>)
    ensures |r| == 3
    ensures forall i :: 0 <= i < 3 ==> r[i].denominator == 1 && r[i].numerator >= 0
    ensures r[1].numerator < 60 && r[2].numerator < 60
    ensures var d := DecDeg2Dms(Abs(x));
      && r[0].numerator as real == d.deg
      && r[1].numerator as real == d.mnt
      && r[2].numerator == Trunc(d.sec)
  {
    var d := DecDeg2Dms(Abs(x));
    [Fraction(Trunc(d.deg), 1), Fraction(Trunc(d.mnt), 1), Fraction(Trunc(d.sec), 1)]
  }

  /** Seconds of arc that a GPS triple stands for. */
  function TotalSeconds(r: seq<Fraction>): int
    requires |r| == 3
  {
    r[0].numerator * 3600 + r[1].numerator * 60 + r[2].numerator
  }

  /** The sign of the coordinate is dropped: it is carried by the
      hemisphere reference instead. */
  lemma {:induction false} AbsGeoCoordIgnoresSign(x: real)
    ensures AbsGeoCoord(-x) == AbsGeoCoord(x)
  {
    assert Abs(-x) == Abs(x);
  }

  /** Only the fractional part of the seconds is lost: the triple is the
      whole number of seconds of arc in |x|, truncated. */
  lemma {:induction false} AbsGeoCoordTruncates(x: real)
    ensures TotalSeconds(AbsGeoCoord(x)) as real <= Abs(x) * 3600.0
    ensures Abs(x) * 3600.0 < TotalSeconds(AbsGeoCoord(x)) as real + 1.0
  {
    var d := DecDeg2Dms(Abs(x));
    var r := AbsGeoCoord(x);
    assert r[2].numerator as real <= d.sec < r[2].numerator as real + 1.0;
    assert TotalSeconds(r) as real == d.deg * 3600.0 + d.mnt * 60.0 + r[2].numerator as real;
  }

  /** A coordinate given to a whole second of arc is recovered exactly. */
  lemma {:induction false} AbsGeoCoordExact(x: real)
    requires IsIntegral(Abs(x) * 3600.0)
    ensures TotalSeconds(AbsGeoCoord(x)) as real == Abs(x) * 3600.0
  {
    var d := DecDeg2Dms(Abs(x));
    var r := AbsGeoCoord(x);
    AbsGeoCoordTruncates(x);
    assert d.sec == Abs(x) * 3600.0 - d.deg * 3600.0 - d.mnt * 60.0;
    assert IsIntegral(d.sec) by {
      var k := (Abs(x) * 3600.0).Floor - d.deg.Floor * 3600 - d.mnt.Floor * 60;
      assert d.sec == k as real;
    }
    assert r[2].numerator as real == d.sec;
  }
}
