/**
 * Normalisation of non-Cartesian k-space sample coordinates into the
 * half-open interval [-0.5, 0.5[ (data.py, `_normalize_localisations`).
 *
 * The coordinate array (two-dimensional in the source) is flattened into an
 * `array<real>`; the operation only looks at its extremes and works element
 * by element, so the shape plays no part beyond being kept.
 */
module Localisations {

  function Abs(x: real): real { if x < 0.0 then -x else x }

  /** The largest coordinate, as `ndarray.max()` returns it. */
  function Max(s: seq<real>): (m: real)
    requires |s| > 0
    ensures m in s
    ensures forall i :: 0 <= i < |s| ==> s[i] <= m
  {
    if |s| == 1 then s[0]
    else
      var m' := Max(s[..|s| - 1]);
      if s[|s| - 1] > m' then s[|s| - 1] else m'
  }

  /** The smallest coordinate, as `ndarray.min()` returns it. */
  function Min(s: seq<real>): (m: real)
    requires |s| > 0
    ensures m in s
    ensures forall i :: 0 <= i < |s| ==> m <= s[i]
  {
    if |s| == 1 then s[0]
    else
      var m' := Min(s[..|s| - 1]);
      if s[|s| - 1] < m' then s[|s| - 1] else m'
  }

  /**
   * The inputs the normalisation is defined for: a reduction over an empty
   * array raises, and an all-zero array makes the divisor zero.
   */
  predicate Normalisable(s: seq<real>)
  {
    |s| > 0 && exists i :: 0 <= i < |s| && s[i] != 0.0
  }

  /** The branch test `Kmax < |Kmin|`: the most negative coordinate has the larger magnitude. */
  predicate MinDominates(s: seq<real>)
    requires |s| > 0
  {
    Max(s) < Abs(Min(s))
  }

  /**
   * The caller's array after the call: untouched in the first branch; in
   * the second, every element equal to Kmax is replaced by -Kmax.
   */
  function TieBroken(s: seq<real>): seq<real>
    requires |s| > 0
  {
    if MinDominates(s) then s
    else
      var kmax := Max(s);
      seq(|s|, i requires 0 <= i < |s| => if s[i] == kmax then -kmax else s[i])
  }

  /** The divisor of the branch taken: 2|Kmin| or 2|Kmax|. */
  function Divisor(s: seq<real>): real
    requires |s| > 0
  {
    if MinDominates(s) then 2.0 * Abs(Min(s)) else 2.0 * Abs(Max(s))
  }

  /** The divisor is positive exactly when the input is normalisable. */
  lemma DivisorPositive(s: seq<real>)
    requires Normalisable(s)
    ensures Divisor(s) > 0.0
  {
    var k :| 0 <= k < |s| && s[k] != 0.0;
    assert Min(s) <= s[k] <= Max(s);
  }

  /** Element-wise division, as `ndarray / scalar` computes it. */
  function Scaled(t: seq<real>, d: real): seq<real>
    requires d != 0.0
  {
    seq(|t|, i requires 0 <= i < |t| => t[i] / d)
  }

  /** Multiplying every element of t / d back by d gives t. */
  lemma {:induction false} ScaledBack(t: seq<real>, d: real)
    requires d != 0.0
    ensures |Scaled(t, d)| == |t|
    ensures forall i :: 0 <= i < |t| ==> Scaled(t, d)[i] * d == t[i]
  {
    var n := Scaled(t, d);
    forall i | 0 <= i < |t|
      ensures n[i] * d == t[i]
    {
      QuotientTimesDivisor(n[i], t[i], d);
    }
  }

  /** The returned array: the (possibly tie-broken) coordinates divided by the divisor. */
  function Normalized(s: seq<real>): seq<real>
    requires Normalisable(s)
  {
    DivisorPositive(s);
    Scaled(TieBroken(s), Divisor(s))
  }

  /** One scan of the array for both extremes (`loc.max()` and `loc.min()`). */
  method Extremes(a: array<real>) returns (kmax: real, kmin: real)
    requires a.Length > 0
    ensures kmax == Max(a[..]) && kmin == Min(a[..])
    ensures forall i :: 0 <= i < a.Length ==> kmin <= a[i] <= kmax
  {
    kmax, kmin := a[0], a[0];
    var i := 1;
    while i < a.Length
      invariant 1 <= i <= a.Length
      invariant kmax == Max(a[..i]) && kmin == Min(a[..i])
    {
      assert a[..i + 1][..i] == a[..i];
      if a[i] > kmax { kmax := a[i]; }
      if a[i] < kmin { kmin := a[i]; }
      i := i + 1;
    }
    assert a[..a.Length] == a[..];
  }

  /** `loc[loc == kmax] = -kmax`: overwrites, in place, exactly the elements equal to kmax. */
  method OverwriteMaxima(loc: array<real>, kmax: real)
    modifies loc
    ensures forall k :: 0 <= k < loc.Length ==> loc[k] == (if old(loc[k]) == kmax then -kmax else old(loc[k]))
  {
    var i := 0;
    while i < loc.Length
      invariant 0 <= i <= loc.Length
      invariant forall k :: 0 <= k < i ==> loc[k] == (if old(loc[k]) == kmax then -kmax else old(loc[k]))
      invariant forall k :: i <= k < loc.Length ==> loc[k] == old(loc[k])
    {
      if loc[i] == kmax {
        loc[i] := -kmax;
      }
      i := i + 1;
    }
  }

  /** `loc / d`: a new array holding every element divided by d. */
  method DividedBy(loc: array<real>, d: real) returns (r: array<real>)
    requires d != 0.0
    ensures fresh(r)
    ensures r[..] == Scaled(loc[..], d)
  {
    r := new real[loc.Length];
    var j := 0;
    while j < loc.Length
      invariant 0 <= j <= loc.Length
      invariant forall k :: 0 <= k < j ==> r[k] == loc[k] / d
    {
      r[j] := loc[j] / d;
      j := j + 1;
    }
  }

  /**
   * `_normalize_localisations(loc)`: returns a new array of normalised
   * coordinates and, in the tie-break branch, overwrites the caller's array.
   */
  method NormalizeLocalisations(loc: array<real>) returns (normalized: array<real>)
    requires Normalisable(loc[..])
    modifies loc
    ensures loc[..] == TieBroken(old(loc[..]))
    ensures fresh(normalized)
    ensures normalized[..] == Normalized(old(loc[..]))
  {
    ghost var s := loc[..];
    var kmax, kmin := Extremes(loc);
    DivisorPositive(s);
    if kmax < Abs(kmin) {
      normalized := DividedBy(loc, 2.0 * Abs(kmin));
    } else {
      OverwriteMaxima(loc, kmax);
      assert loc[..] == TieBroken(s);
      normalized := DividedBy(loc, 2.0 * Abs(kmax));
    }
  }

  // ---------------------------------------------------------------------
  // Properties of the specification
  // ---------------------------------------------------------------------

  /** In the first branch the most negative coordinate is negative and fixes the divisor. */
  lemma MinDominatesNegative(s: seq<real>)
    requires |s| > 0 && MinDominates(s)
    ensures Min(s) < 0.0 && Divisor(s) == -2.0 * Min(s)
  {
    assert Min(s) <= s[0] <= Max(s);
  }

  /** In the second branch Kmax is positive and bounds every magnitude. */
  lemma MaxDominatesPositive(s: seq<real>)
    requires Normalisable(s) && !MinDominates(s)
    ensures Max(s) > 0.0 && Divisor(s) == 2.0 * Max(s)
    ensures forall i :: 0 <= i < |s| ==> -Max(s) <= s[i] <= Max(s)
  {
    DivisorPositive(s);
  }

  /** x / d lies in [-0.5, 0.5[ when x lies in [-d/2, d/2[. */
  lemma HalfOpenQuotient(x: real, d: real)
    requires d > 0.0 && -d <= 2.0 * x < d
    ensures -0.5 <= x / d < 0.5
  {
  }

  /** Multiplying the quotient x / d back by d gives x. */
  lemma QuotientTimesDivisor(q: real, x: real, d: real)
    requires d != 0.0 && q == x / d
    ensures q * d == x
  {
  }

  /** -d/2 divided by d is -0.5. */
  lemma NegativeHalfQuotient(x: real, d: real)
    requires d > 0.0 && 2.0 * x == -d
    ensures x / d == -0.5
  {
  }

  /** Dividing by a positive number keeps the order. */
  lemma QuotientMonotone(x: real, y: real, d: real)
    requires d > 0.0 && x <= y
    ensures x / d <= y / d
  {
  }

  /** Every normalised coordinate lies in [-0.5, 0.5[, and the shape is kept. */
  lemma {:induction false} NormalizedInHalfOpenRange(s: seq<real>)
    requires Normalisable(s)
    ensures |Normalized(s)| == |s|
    ensures forall i :: 0 <= i < |s| ==> -0.5 <= Normalized(s)[i] < 0.5
  {
    var n, t, d := Normalized(s), TieBroken(s), Divisor(s);
    forall i | 0 <= i < |s|
      ensures -0.5 <= n[i] < 0.5
    {
      if MinDominates(s) {
        MinDominatesNegative(s);
        assert Min(s) <= s[i] <= Max(s);
        HalfOpenQuotient(t[i], d);
      } else {
        MaxDominatesPositive(s);
        HalfOpenQuotient(t[i], d);
      }
    }
  }

  /**
   * First branch: the caller's array is left alone, the output is the input
   * scaled by 1/(2|Kmin|), Kmin maps to exactly -0.5 and Kmax strictly below 0.5.
   */
  lemma {:induction false} MinDominatesScales(s: seq<real>)
    requires Normalisable(s) && MinDominates(s)
    ensures Min(s) < 0.0
    ensures TieBroken(s) == s
    ensures Normalized(s) == Scaled(s, -2.0 * Min(s))
    ensures forall i :: 0 <= i < |s| && s[i] == Min(s) ==> Normalized(s)[i] == -0.5
    ensures Max(s) / (-2.0 * Min(s)) < 0.5
  {
    MinDominatesNegative(s);
    var n, d := Normalized(s), Divisor(s);
    assert TieBroken(s) == s;
    assert d == 2.0 * Abs(Min(s));
    forall i | 0 <= i < |s| && s[i] == Min(s)
      ensures n[i] == -0.5
    {
      NegativeHalfQuotient(s[i], d);
    }
    assert Min(s) <= s[0] <= Max(s);
    HalfOpenQuotient(Max(s), d);
  }

  /**
   * Second branch: exactly the elements equal to Kmax are overwritten with
   * -Kmax, every other element keeps its value; the output is that array
   * divided by 2|Kmax|, the overwritten elements map to -0.5 and no output
   * element equals 0.5.
   */
  lemma {:induction false} TieBreakOverwritesMaxima(s: seq<real>)
    requires Normalisable(s) && !MinDominates(s)
    ensures |TieBroken(s)| == |s|
    ensures forall i :: 0 <= i < |s| ==> (TieBroken(s)[i] != s[i] <==> s[i] == Max(s))
    ensures forall i :: 0 <= i < |s| && s[i] == Max(s) ==> TieBroken(s)[i] == -s[i]
    ensures Max(s) > 0.0
    ensures Normalized(s) == Scaled(TieBroken(s), 2.0 * Max(s))
    ensures forall i :: 0 <= i < |s| && s[i] == Max(s) ==> Normalized(s)[i] == -0.5
    ensures forall i :: 0 <= i < |s| ==> Normalized(s)[i] != 0.5
  {
    MaxDominatesPositive(s);
    NormalizedInHalfOpenRange(s);
    var n, t, d := Normalized(s), TieBroken(s), Divisor(s);
    assert d == 2.0 * Abs(Max(s));
    forall i | 0 <= i < |s| && s[i] == Max(s)
      ensures n[i] == -0.5
    {
      NegativeHalfQuotient(t[i], d);
    }
  }

  /** The lower end of the interval is always reached and the upper one never. */
  lemma {:induction false} NormalizedExtremes(s: seq<real>)
    requires Normalisable(s)
    ensures Min(Normalized(s)) == -0.5
    ensures Max(Normalized(s)) < 0.5
  {
    var n := Normalized(s);
    NormalizedInHalfOpenRange(s);
    var k: int;
    if MinDominates(s) {
      MinDominatesScales(s);
      k :| 0 <= k < |s| && s[k] == Min(s);
    } else {
      TieBreakOverwritesMaxima(s);
      k :| 0 <= k < |s| && s[k] == Max(s);
    }
    assert n[k] == -0.5;
    assert Min(n) <= n[k];
  }

  /**
   * Normalising an already normalised array changes nothing: the second
   * call takes the first branch with divisor 1 and leaves its input alone.
   */
  lemma {:induction false} NormalizeIdempotent(s: seq<real>)
    requires Normalisable(s)
    ensures Normalisable(Normalized(s))
    ensures MinDominates(Normalized(s))
    ensures TieBroken(Normalized(s)) == Normalized(s)
    ensures Normalized(Normalized(s)) == Normalized(s)
  {
    var n := Normalized(s);
    NormalizedInHalfOpenRange(s);
    NormalizedExtremes(s);
    assert Min(n) in n;
    assert Normalisable(n);
    assert Divisor(n) == 1.0;
    assert Normalized(n) == n;
  }

  /**
   * Normalisation keeps the order of coordinates, except that the maxima
   * overwritten in the second branch move to the bottom.
   */
  lemma {:induction false} NormalizedMonotone(s: seq<real>, i: int, j: int)
    requires Normalisable(s)
    requires 0 <= i < |s| && 0 <= j < |s| && s[i] <= s[j]
    requires MinDominates(s) || s[j] < Max(s)
    ensures Normalized(s)[i] <= Normalized(s)[j]
  {
    var t, d := TieBroken(s), Divisor(s);
    DivisorPositive(s);
    assert t[i] <= t[j] by {
      if !MinDominates(s) {
        MaxDominatesPositive(s);
      }
    }
    QuotientMonotone(t[i], t[j], d);
  }
}
