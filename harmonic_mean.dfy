/** `hmff`: the harmonic-mean fit factor of a column that may hold missing
    values, a conservative average of fit factors over exercises. */
module HarmonicMean {
  import opened Values

  /** 1 for a present entry, 0 for a missing (NaN) one. */
  function Presence(e: Option<real>): real { if e.Some? then 1.0 else 0.0 }

  /** The value of a present entry; a missing one adds nothing to a sum. */
  function ValueOf(e: Option<real>): real { if e.Some? then e.value else 0.0 }

  /** The reciprocal of a present non-zero entry; a missing one adds nothing
      to a sum (a present zero is dealt with by `Hmff` itself). */
  function Reciprocal(e: Option<real>): real
  {
    if e.Some? && e.value != 0.0 then 1.0 / e.value else 0.0
  }

  /** `column.notna().sum()`: the number of present values, as the real
      numerator it is used as. */
  function CountPresent(col: seq<Option<real>>): real
  {
    if col == [] then 0.0 else Presence(col[0]) + CountPresent(col[1..])
  }

  /** `column.sum()`: the sum of the present values (NaN skipped). */
  function SumPresent(col: seq<Option<real>>): real
  {
    if col == [] then 0.0 else ValueOf(col[0]) + SumPresent(col[1..])
  }

  /** `(1 / column).sum()`: the sum of the reciprocals of the present values. */
  function SumReciprocals(col: seq<Option<real>>): real
  {
    if col == [] then 0.0 else Reciprocal(col[0]) + SumReciprocals(col[1..])
  }

  /** No present value is zero, so every reciprocal is a real number. */
  predicate NoPresentZero(col: seq<Option<real>>)
  {
    forall k :: 0 <= k < |col| ==> col[k] != Some(0.0)
  }

  /** `hmff(column)`: the count of present values over the sum of their
      reciprocals. A present zero has an infinite reciprocal, which makes the
      sum infinite and the quotient 0. Otherwise there is no real value when
      the reciprocals sum to zero (no present value at all, or values of
      both signs that cancel). */
  function Hmff(col: seq<Option<real>>): (r: Quotient)
    ensures !NoPresentZero(col) ==> r == Finite(0.0)
    ensures NoPresentZero(col) ==> (r.Finite? <==> SumReciprocals(col) != 0.0)
    ensures NoPresentZero(col) && r.Finite? ==> r.value * SumReciprocals(col) == CountPresent(col)
  {
    if !NoPresentZero(col) then Finite(0.0)
    else
      DivideExact(CountPresent(col), SumReciprocals(col));
      Divide(CountPresent(col), SumReciprocals(col))
  }

  /** Present values all lie in `[lo, hi]`. */
  predicate PresentWithin(col: seq<Option<real>>, lo: real, hi: real)
  {
    forall k :: 0 <= k < |col| && col[k].Some? ==> lo <= col[k].value <= hi
  }

  /** Every present value is positive. */
  predicate PresentPositive(col: seq<Option<real>>)
  {
    forall k :: 0 <= k < |col| && col[k].Some? ==> col[k].value > 0.0
  }

  // ---------------------------------------------------------------------
  // Missing entries

  lemma {:induction false} CountAppend(a: seq<Option<real>>, b: seq<Option<real>>)
    ensures CountPresent(a + b) == CountPresent(a) + CountPresent(b)
    decreases |a|
  {
    if a != [] {
      CountAppend(a[1..], b);
      assert (a + b)[1..] == a[1..] + b;
    } else {
      assert a + b == b;
    }
  }

  lemma {:induction false} SumReciprocalsAppend(a: seq<Option<real>>, b: seq<Option<real>>)
    ensures SumReciprocals(a + b) == SumReciprocals(a) + SumReciprocals(b)
    decreases |a|
  {
    if a != [] {
      SumReciprocalsAppend(a[1..], b);
      assert (a + b)[1..] == a[1..] + b;
    } else {
      assert a + b == b;
    }
  }

  lemma {:induction false} NoPresentZeroAppend(a: seq<Option<real>>, b: seq<Option<real>>)
    ensures NoPresentZero(a + b) <==> NoPresentZero(a) && NoPresentZero(b)
  {
    if NoPresentZero(a) && NoPresentZero(b) {
      forall k | 0 <= k < |a + b| ensures (a + b)[k] != Some(0.0) {
        if k < |a| { assert (a + b)[k] == a[k]; } else { assert (a + b)[k] == b[k - |a|]; }
      }
    }
    if NoPresentZero(a + b) {
      forall k | 0 <= k < |a| ensures a[k] != Some(0.0) { assert (a + b)[k] == a[k]; }
      forall k | 0 <= k < |b| ensures b[k] != Some(0.0) { assert (a + b)[|a| + k] == b[k]; }
    }
  }

  /** A missing entry changes neither the count nor the reciprocal sum, so
      dropping it leaves the harmonic mean unchanged. */
  lemma {:induction false} HmffIgnoresMissing(a: seq<Option<real>>, b: seq<Option<real>>)
    ensures Hmff(a + [None] + b) == Hmff(a + b)
  {
    var gap: seq<Option<real>> := [None];
    assert a + [None] + b == (a + gap) + b;
    assert gap[1..] == [];
    CountAppend(a + gap, b);
    CountAppend(a, gap);
    CountAppend(a, b);
    SumReciprocalsAppend(a + gap, b);
    SumReciprocalsAppend(a, gap);
    SumReciprocalsAppend(a, b);
    NoPresentZeroAppend(a + gap, b);
    NoPresentZeroAppend(a, gap);
    NoPresentZeroAppend(a, b);
  }

  // ---------------------------------------------------------------------
  // Real-number steps (kept apart from the sequence reasoning)

  lemma {:induction false} Distribute(a: real, r: real, s: real, total: real)
    requires total == r + s
    ensures a * total == a * r + a * s
  {
  }

  lemma {:induction false} ZeroProduct(a: real, z: real)
    requires z == 0.0
    ensures a * z == 0.0
  {
  }

  lemma {:induction false} CancelPositive(a: real, b: real, s: real)
    requires s > 0.0 && a * s <= b * s
    ensures a <= b
  {
  }

  lemma {:induction false} QuotientWithin(h: real, s: real, n: real, lo: real, hi: real)
    requires s > 0.0 && h * s == n
    requires lo * s <= n <= hi * s
    ensures lo <= h <= hi
  {
    CancelPositive(lo, h, s);
    CancelPositive(h, hi, s);
  }

  lemma {:induction false} NonZeroFactor(v: real, s: real, n: real)
    requires n != 0.0 && v * s == n
    ensures s != 0.0
  {
  }

  lemma {:induction false} QuotientUnique(h: real, v: real, s: real, n: real)
    requires s != 0.0 && h * s == n && v * s == n
    ensures h == v
  {
    assert (h - v) * s == 0.0;
  }

  lemma {:induction false} PositiveQuotient(h: real, s: real, n: real)
    requires s > 0.0 && n > 0.0 && h * s == n
    ensures h > 0.0
  {
  }

  /** From `h*s == n` and the cross bound at `y = h`, `h * n <= m`. */
  lemma {:induction false} MeanFromCross(h: real, s: real, m: real, n: real)
    requires h > 0.0 && h * s == n
    requires h * s + (1.0 / h) * m >= 2.0 * n
    ensures h * n <= m
  {
    assert (1.0 / h) * m >= n;
    assert h * ((1.0 / h) * m) == m;
  }

  lemma {:induction false} ElementLower(e: Option<real>, lo: real)
    requires 0.0 < lo
    requires e.Some? ==> lo <= e.value
    ensures lo * Reciprocal(e) <= Presence(e)
  {
    if e.Some? {
      var x := e.value;
      var r := 1.0 / x;
      assert x * r == 1.0;
      assert lo * r <= x * r;
    }
  }

  lemma {:induction false} ElementUpper(e: Option<real>, hi: real)
    requires e.Some? ==> 0.0 < e.value <= hi
    ensures Presence(e) <= hi * Reciprocal(e)
  {
    if e.Some? {
      var x := e.value;
      var r := 1.0 / x;
      assert x * r == 1.0;
      assert r > 0.0;
      assert x * r <= hi * r;
    }
  }

  lemma {:induction false} ElementConstant(e: Option<real>, v: real)
    requires v != 0.0
    requires e.Some? ==> e.value == v
    ensures v * Reciprocal(e) == Presence(e)
  {
  }

  lemma {:induction false} SquareNonNegative(z: real)
    ensures z * z >= 0.0
  {
    if z < 0.0 {
      assert z * z == (-z) * (-z);
    }
  }

  /** `y/x + x/y >= 2` for positive `x` and `y` (that is, `t + 1/t >= 2`). */
  lemma {:induction false} ElementCross(e: Option<real>, y: real)
    requires y > 0.0
    requires e.Some? ==> e.value > 0.0
    ensures y * Reciprocal(e) + (1.0 / y) * ValueOf(e) >= 2.0 * Presence(e)
  {
    if e.Some? {
      var x := e.value;
      var t := y * (1.0 / x);
      var u := (1.0 / y) * x;
      assert t * u == 1.0 by {
        assert t * u == (x * (1.0 / x)) * (y * (1.0 / y));
      }
      SquareNonNegative(t - u);
      assert (t + u) * (t + u) >= 4.0 by {
        assert (t + u) * (t + u) == (t - u) * (t - u) + 4.0 * (t * u);
      }
      assert t > 0.0 && u > 0.0;
    }
  }

  /** Adds the cross bound of one entry to that of the rest of a column. */
  lemma {:induction false} CrossCombine(y: real, w: real, r: real, v: real, p: real, s: real, m: real, n: real,
                     s': real, m': real, n': real)
    requires y * r + w * v >= 2.0 * p
    requires y * s + w * m >= 2.0 * n
    requires s' == r + s && m' == v + m && n' == p + n
    ensures y * s' + w * m' >= 2.0 * n'
  {
    Distribute(y, r, s, s');
    Distribute(w, v, m, m');
  }

  /** With every present value in `[lo, hi]` and `lo > 0`, no present value
      is zero. */
  lemma {:induction false} PositiveNoZero(col: seq<Option<real>>, lo: real, hi: real)
    requires 0.0 < lo
    requires PresentWithin(col, lo, hi)
    ensures NoPresentZero(col)
  {
    forall k | 0 <= k < |col| ensures col[k] != Some(0.0) {
      if col[k].Some? { assert lo <= col[k].value; }
    }
  }

  /** `lo * sum(1/x) <= count`. */
  predicate LowerBound(col: seq<Option<real>>, lo: real)
  {
    lo * SumReciprocals(col) <= CountPresent(col)
  }

  /** `count <= hi * sum(1/x)`. */
  predicate UpperBound(col: seq<Option<real>>, hi: real)
  {
    CountPresent(col) <= hi * SumReciprocals(col)
  }

  /** Lower half of the reciprocal-sum bound. */
  lemma {:induction false} ReciprocalSumAtMost(col: seq<Option<real>>, lo: real, hi: real)
    requires 0.0 < lo
    requires PresentWithin(col, lo, hi)
    ensures LowerBound(col, lo)
    decreases |col|
  {
    if col == [] {
      ZeroProduct(lo, SumReciprocals(col));
    } else {
      var rest := col[1..];
      assert PresentWithin(rest, lo, hi) by {
        assert forall k :: 0 <= k < |rest| ==> rest[k] == col[k + 1];
      }
      ReciprocalSumAtMost(rest, lo, hi);
      LowerStep(col, lo);
    }
  }

  lemma {:induction false} LowerStep(col: seq<Option<real>>, lo: real)
    requires col != [] && 0.0 < lo
    requires col[0].Some? ==> lo <= col[0].value
    requires LowerBound(col[1..], lo)
    ensures LowerBound(col, lo)
  {
    ElementLower(col[0], lo);
    Distribute(lo, Reciprocal(col[0]), SumReciprocals(col[1..]), SumReciprocals(col));
  }

  /** Every present value is at most `hi`. */
  predicate PresentAtMost(col: seq<Option<real>>, hi: real)
  {
    forall k :: 0 <= k < |col| && col[k].Some? ==> col[k].value <= hi
  }

  /** Upper half of the reciprocal-sum bound. */
  lemma {:induction false} ReciprocalSumAtLeast(col: seq<Option<real>>, hi: real)
    requires PresentPositive(col)
    requires PresentAtMost(col, hi)
    ensures UpperBound(col, hi)
    decreases |col|
  {
    if col == [] {
      ZeroProduct(hi, SumReciprocals(col));
    } else {
      var rest := col[1..];
      assert PresentPositive(rest) && PresentAtMost(rest, hi) by {
        assert forall k :: 0 <= k < |rest| ==> rest[k] == col[k + 1];
      }
      ReciprocalSumAtLeast(rest, hi);
      assert col[0].Some? ==> 0.0 < col[0].value <= hi by {
        assert col[0] == col[0 + 0];
      }
      UpperStep(col, hi);
    }
  }

  lemma {:induction false} UpperStep(col: seq<Option<real>>, hi: real)
    requires col != []
    requires col[0].Some? ==> 0.0 < col[0].value <= hi
    requires UpperBound(col[1..], hi)
    ensures UpperBound(col, hi)
  {
    ElementUpper(col[0], hi);
    Distribute(hi, Reciprocal(col[0]), SumReciprocals(col[1..]), SumReciprocals(col));
  }

  /** For present values that all lie in `[lo, hi]` with `lo > 0` (in
      particular between their minimum and their maximum), the harmonic mean
      is defined and lies in the same range. */
  lemma {:induction false} HmffWithin(col: seq<Option<real>>, lo: real, hi: real)
    requires 0.0 < lo
    requires PresentWithin(col, lo, hi)
    requires CountPresent(col) > 0.0
    ensures Hmff(col).Finite?
    ensures lo <= Hmff(col).value <= hi
  {
    ReciprocalSumWithin(col, lo, hi);
    HmffFromBounds(col, lo, hi);
  }

  lemma {:induction false} HmffFromBounds(col: seq<Option<real>>, lo: real, hi: real)
    requires NoPresentZero(col) && SumReciprocals(col) > 0.0
    requires lo * SumReciprocals(col) <= CountPresent(col) <= hi * SumReciprocals(col)
    ensures Hmff(col).Finite?
    ensures lo <= Hmff(col).value <= hi
  {
    QuotientWithin(Hmff(col).value, SumReciprocals(col), CountPresent(col), lo, hi);
  }

  /** The reciprocal sum of values in `[lo, hi]` lies between count / hi and
      count / lo, and is positive when some value is present. */
  lemma {:induction false} ReciprocalSumWithin(col: seq<Option<real>>, lo: real, hi: real)
    requires 0.0 < lo
    requires PresentWithin(col, lo, hi)
    requires CountPresent(col) > 0.0
    ensures NoPresentZero(col) && SumReciprocals(col) > 0.0
    ensures lo * SumReciprocals(col) <= CountPresent(col) <= hi * SumReciprocals(col)
  {
    PositiveNoZero(col, lo, hi);
    ReciprocalSumAtMost(col, lo, hi);
    assert PresentPositive(col) by {
      forall k | 0 <= k < |col| && col[k].Some? ensures col[k].value > 0.0 {
        assert lo <= col[k].value;
      }
    }
    ReciprocalSumAtLeast(col, hi);
    ReciprocalSumPositive(col);
  }

  lemma {:induction false} ConstantReciprocalSum(col: seq<Option<real>>, v: real)
    requires v != 0.0
    requires forall k :: 0 <= k < |col| && col[k].Some? ==> col[k].value == v
    ensures ConstantBound(col, v)
    decreases |col|
  {
    if col == [] {
      ZeroProduct(v, SumReciprocals(col));
    } else {
      var rest := col[1..];
      assert forall k :: 0 <= k < |rest| ==> rest[k] == col[k + 1];
      ConstantReciprocalSum(rest, v);
      ConstantStep(col, v);
    }
  }

  /** `v * sum(1/x) == count`. */
  predicate ConstantBound(col: seq<Option<real>>, v: real)
  {
    v * SumReciprocals(col) == CountPresent(col)
  }

  lemma {:induction false} ConstantStep(col: seq<Option<real>>, v: real)
    requires col != [] && v != 0.0
    requires col[0].Some? ==> col[0].value == v
    requires ConstantBound(col[1..], v)
    ensures ConstantBound(col, v)
  {
    ElementConstant(col[0], v);
    Distribute(v, Reciprocal(col[0]), SumReciprocals(col[1..]), SumReciprocals(col));
  }

  /** When every present value is the same non-zero `v`, the harmonic mean
      is `v`. */
  lemma {:induction false} HmffConstant(col: seq<Option<real>>, v: real)
    requires v != 0.0
    requires forall k :: 0 <= k < |col| && col[k].Some? ==> col[k].value == v
    requires CountPresent(col) > 0.0
    ensures Hmff(col) == Finite(v)
  {
    ConstantReciprocalSum(col, v);
    assert NoPresentZero(col) by {
      forall k | 0 <= k < |col| ensures col[k] != Some(0.0) {
        if col[k].Some? { assert col[k].value == v; }
      }
    }
    NonZeroFactor(v, SumReciprocals(col), CountPresent(col));
    QuotientUnique(Hmff(col).value, v, SumReciprocals(col), CountPresent(col));
  }

  // ---------------------------------------------------------------------
  // The harmonic mean against the arithmetic mean

  /** Sum over the present `x` of `y/x + x/y` is at least twice their count. */
  predicate CrossBound(col: seq<Option<real>>, y: real)
    requires y > 0.0
  {
    y * SumReciprocals(col) + (1.0 / y) * SumPresent(col) >= 2.0 * CountPresent(col)
  }

  lemma {:induction false} CrossSumBound(col: seq<Option<real>>, y: real)
    requires y > 0.0
    requires PresentPositive(col)
    ensures CrossBound(col, y)
    decreases |col|
  {
    if col == [] {
      CrossCombine(y, 1.0 / y, 0.0, 0.0, 0.0, 0.0, 0.0, 0.0,
                   SumReciprocals(col), SumPresent(col), CountPresent(col));
    } else {
      var rest := col[1..];
      assert PresentPositive(rest) by {
        assert forall k :: 0 <= k < |rest| ==> rest[k] == col[k + 1];
      }
      CrossSumBound(rest, y);
      CrossStep(col, y);
    }
  }

  lemma {:induction false} CrossStep(col: seq<Option<real>>, y: real)
    requires col != [] && y > 0.0
    requires col[0].Some? ==> col[0].value > 0.0
    requires CrossBound(col[1..], y)
    ensures CrossBound(col, y)
  {
    var rest := col[1..];
    ElementCross(col[0], y);
    CrossCombine(y, 1.0 / y, Reciprocal(col[0]), ValueOf(col[0]), Presence(col[0]),
                 SumReciprocals(rest), SumPresent(rest), CountPresent(rest),
                 SumReciprocals(col), SumPresent(col), CountPresent(col));
  }

  lemma {:induction false} ReciprocalSumPositive(col: seq<Option<real>>)
    requires PresentPositive(col)
    ensures SumReciprocals(col) >= 0.0
    ensures CountPresent(col) > 0.0 ==> SumReciprocals(col) > 0.0
    decreases |col|
  {
    if col != [] {
      var rest := col[1..];
      assert PresentPositive(rest) by {
        assert forall k :: 0 <= k < |rest| ==> rest[k] == col[k + 1];
      }
      ReciprocalSumPositive(rest);
      if col[0].Some? {
        assert 1.0 / col[0].value > 0.0;
      }
    }
  }

  /** The harmonic mean is defined and at most the arithmetic mean
      `sum / count`, stated multiplied out by the positive count. */
  predicate AtMostMean(col: seq<Option<real>>)
  {
    Hmff(col).Finite? && Hmff(col).value * CountPresent(col) <= SumPresent(col)
  }

  /** For positive present values the harmonic mean never exceeds their
      arithmetic mean: it is the conservative average. */
  lemma {:induction false} HmffAtMostMean(col: seq<Option<real>>)
    requires PresentPositive(col)
    requires CountPresent(col) > 0.0
    ensures AtMostMean(col)
  {
    HmffPositive(col);
    CrossSumBound(col, Hmff(col).value);
    HmffFromCross(col);
  }

  /** The harmonic mean with its defining product, as plain facts. */
  predicate PositiveHmff(col: seq<Option<real>>)
  {
    Hmff(col).Finite? && Hmff(col).value > 0.0
    && Hmff(col).value * SumReciprocals(col) == CountPresent(col)
  }

  lemma {:induction false} HmffPositive(col: seq<Option<real>>)
    requires PresentPositive(col)
    requires CountPresent(col) > 0.0
    ensures PositiveHmff(col)
  {
    MeanFacts(col);
    PositiveQuotient(Hmff(col).value, SumReciprocals(col), CountPresent(col));
  }

  lemma {:induction false} HmffFromCross(col: seq<Option<real>>)
    requires CountPresent(col) > 0.0
    requires PositiveHmff(col)
    requires CrossBound(col, Hmff(col).value)
    ensures AtMostMean(col)
  {
    MeanFromCross(Hmff(col).value, SumReciprocals(col), SumPresent(col), CountPresent(col));
  }

  lemma {:induction false} MeanFacts(col: seq<Option<real>>)
    requires PresentPositive(col)
    requires CountPresent(col) > 0.0
    ensures NoPresentZero(col) && SumReciprocals(col) > 0.0
  {
    assert NoPresentZero(col) by {
      forall k | 0 <= k < |col| ensures col[k] != Some(0.0) {
        if col[k].Some? { assert col[k].value > 0.0; }
      }
    }
    ReciprocalSumPositive(col);
  }
}
