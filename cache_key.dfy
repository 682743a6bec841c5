/**
 * The cache key: the latitude and the longitude, each written with four
 * decimals, separated by a comma. Writing with four decimals puts a minus sign for a negative number, then the
 * magnitude rounded to the nearest ten-thousandth (halves round up), as
 * at least one integer digit, a point and exactly four decimals.
 */
module CacheKey {
  import opened Text

  const PLACES: nat := 4

  /** The magnitude of `x` in ten-thousandths, rounded half up. */
  function ScaledMagnitude(x: real): (n: nat)
    ensures var m := if x < 0.0 then -x else x;
            m * 10000.0 - 0.5 < n as real <= m * 10000.0 + 0.5
  {
    var m := if x < 0.0 then -x else x;
    (m * 10000.0 + 0.5).Floor
  }

  /** The digits of `n` padded with leading zeros to more than PLACES digits. */
  function Padded(n: nat): (s: string)
    ensures |s| > PLACES && AllDigits(s) && Value(s) == n
  {
    var d := Decimal(n);
    ValueOfDecimal(n);
    if |d| <= PLACES then
      ValueZerosPrefix(PLACES + 1 - |d|, d);
      Zeros(PLACES + 1 - |d|) + d
    else d
  }

  /** The `toFixed(4)` text of a number with the given sign and value in ten-thousandths. */
  function Fixed4(negative: bool, scaled: nat): (s: string)
    ensures |s| > PLACES + 1 && s[|s| - PLACES - 1] == '.'
    ensures s[0] == '-' <==> negative
  {
    (if negative then "-" else "") + Pointed(Padded(scaled))
  }

  /** The number written with exactly four decimals. */
  function ToFixed4(x: real): (s: string)
    ensures |s| > PLACES + 1 && s[|s| - PLACES - 1] == '.'
    ensures s[0] == '-' <==> x < 0.0
  {
    Fixed4(x < 0.0, ScaledMagnitude(x))
  }

  /** The cache key for a request at (`latitude`, `longitude`). */
  function Key(latitude: real, longitude: real): (k: string)
    ensures var cut := |ToFixed4(latitude)|;
            cut < |k| && k[cut] == ',' && forall i :: 0 <= i < |k| && k[i] == ',' ==> i == cut
  {
    Fixed4HasNoComma(latitude < 0.0, ScaledMagnitude(latitude));
    Fixed4HasNoComma(longitude < 0.0, ScaledMagnitude(longitude));
    OnlyComma(ToFixed4(latitude), ToFixed4(longitude));
    ToFixed4(latitude) + "," + ToFixed4(longitude)
  }

  /** Digits with a point inserted PLACES from the end. */
  function Pointed(digits: string): (s: string)
    requires |digits| > PLACES
    ensures |s| == |digits| + 1 && s[|digits| - PLACES] == '.'
    ensures s[0] == digits[0]
  {
    digits[..|digits| - PLACES] + "." + digits[|digits| - PLACES..]
  }

  /** Removing the point gives the digits back. */
  lemma PointedInjective(d1: string, d2: string)
    requires |d1| > PLACES && |d2| > PLACES
    requires Pointed(d1) == Pointed(d2)
    ensures d1 == d2
  {
    var p := Pointed(d1);
    assert |d1| == |d2|;
    var k := |d1| - PLACES;
    assert d1[..k] == p[..k] == d2[..k];
    assert d1[k..] == p[k + 1..] == d2[k..];
    assert d1 == d1[..k] + d1[k..];
    assert d2 == d2[..k] + d2[k..];
  }

  /** A `toFixed(4)` text determines its sign and its value. */
  lemma Fixed4Injective(neg1: bool, n1: nat, neg2: bool, n2: nat)
    requires Fixed4(neg1, n1) == Fixed4(neg2, n2)
    ensures neg1 == neg2 && n1 == n2
  {
    var d1, d2 := Padded(n1), Padded(n2);
    assert Pointed(d1)[0] == d1[0] && Pointed(d2)[0] == d2[0];
    assert IsDigit(d1[0]) && IsDigit(d2[0]);
    assert Fixed4(neg1, n1)[0] == (if neg1 then '-' else d1[0]);
    assert Fixed4(neg2, n2)[0] == (if neg2 then '-' else d2[0]);
    if neg1 == neg2 {
      if neg1 {
        assert Pointed(d1) == Fixed4(neg1, n1)[1..] == Fixed4(neg2, n2)[1..] == Pointed(d2);
      } else {
        assert Pointed(d1) == Fixed4(neg1, n1) == Fixed4(neg2, n2) == Pointed(d2);
      }
      PointedInjective(d1, d2);
      assert n1 == Value(d1) == Value(d2) == n2;
    }
  }

  /** A `toFixed(4)` text has no comma in it. */
  lemma Fixed4HasNoComma(negative: bool, scaled: nat)
    ensures ',' !in Fixed4(negative, scaled)
  {
    var d := Padded(scaled);
    var k := |d| - PLACES;
    var body := Pointed(d);
    assert forall i :: 0 <= i < |body| ==> body[i] == (if i < k then d[i] else if i == k then '.' else d[i - 1]);
    assert forall i :: 0 <= i < |body| ==> body[i] != ',';
  }

  /** Joining two comma-free texts with a comma leaves that comma the only one. */
  lemma OnlyComma(a: string, b: string)
    requires ',' !in a && ',' !in b
    ensures var k := a + "," + b;
            k[|a|] == ',' && forall i :: 0 <= i < |k| && k[i] == ',' ==> i == |a|
  {
    var k := a + "," + b;
    assert forall i :: 0 <= i < |a| ==> k[i] == a[i];
    assert forall i :: |a| < i < |k| ==> k[i] == b[i - |a| - 1];
  }

  /** A key splits back into its two halves at the comma. */
  lemma SplitAtComma(a: string, b: string, c: string, d: string)
    requires ',' !in a && ',' !in c
    requires a + "," + b == c + "," + d
    ensures a == c && b == d
  {
    var x := a + "," + b;
    assert x[|a|] == ',' && x[|c|] == ',';
    assert forall i :: 0 <= i < |a| ==> x[i] != ',';
    assert forall i :: 0 <= i < |c| ==> x[i] != ',';
    assert |a| == |c|;
    assert a == x[..|a|] == c;
    assert b == x[|a| + 1..] == d;
  }

  /**
   * Two requests share a cache slot exactly when their latitudes agree in
   * sign and in their rounded four-decimal magnitude, and so do their
   * longitudes.
   */
  lemma SameKeyIff(lat1: real, lon1: real, lat2: real, lon2: real)
    ensures Key(lat1, lon1) == Key(lat2, lon2) <==>
      && (lat1 < 0.0 <==> lat2 < 0.0) && ScaledMagnitude(lat1) == ScaledMagnitude(lat2)
      && (lon1 < 0.0 <==> lon2 < 0.0) && ScaledMagnitude(lon1) == ScaledMagnitude(lon2)
  {
    if Key(lat1, lon1) == Key(lat2, lon2) {
      Fixed4HasNoComma(lat1 < 0.0, ScaledMagnitude(lat1));
      Fixed4HasNoComma(lat2 < 0.0, ScaledMagnitude(lat2));
      SplitAtComma(ToFixed4(lat1), ToFixed4(lon1), ToFixed4(lat2), ToFixed4(lon2));
      Fixed4Injective(lat1 < 0.0, ScaledMagnitude(lat1), lat2 < 0.0, ScaledMagnitude(lat2));
      Fixed4Injective(lon1 < 0.0, ScaledMagnitude(lon1), lon2 < 0.0, ScaledMagnitude(lon2));
    }
  }

  /**
   * A tiny negative coordinate keeps its minus sign: every longitude that
   * rounds to 0.0000 from the west gets a different key from its mirror
   * image east of the prime meridian.
   */
  lemma MinusZeroKey(latitude: real, x: real)
    requires -0.00005 < x < 0.0
    ensures ToFixed4(x) == "-0.0000"
    ensures ToFixed4(-x) == "0.0000"
    ensures Key(latitude, x) != Key(latitude, -x)
  {
    TinyRoundsToZero(x);
    TinyRoundsToZero(-x);
    ZeroText();
    SameKeyIff(latitude, x, latitude, -x);
  }

  /** Every magnitude below half a ten-thousandth rounds to 0. */
  lemma TinyRoundsToZero(x: real)
    requires -0.00005 < x < 0.00005
    ensures ScaledMagnitude(x) == 0
  {
  }

  lemma ZeroText()
    ensures Fixed4(true, 0) == "-0.0000" && Fixed4(false, 0) == "0.0000"
  {
    assert Decimal(0) == "0";
    assert Padded(0) == "00000";
    assert Pointed("00000") == "0.0000";
  }
}
