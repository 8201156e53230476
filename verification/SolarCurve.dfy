/** Scaling a forecast curve to an exact total, with the rounding error repaired in the last cell. */
module SolarCurve {
  import opened Wrappers
  import opened BackupEnergy

  /** Unparsable, non-finite and negative cells count as zero. */
  function Sanitised(value: Reading): (v: real)
    ensures v >= 0.0
  {
    if value.Number? && value.r >= 0.0 then value.r else 0.0
  }

  function Sum(values: seq<real>): real {
    var n := |values|;
    if n == 0 then 0.0 else Sum(values[..n - 1]) + values[n - 1]
  }

  function Cells(shape: seq<Reading>): (values: seq<real>)
    ensures |values| == |shape| && forall i | 0 <= i < |values| :: values[i] == Sanitised(shape[i]) >= 0.0
  {
    seq(|shape|, i requires 0 <= i < |shape| => Sanitised(shape[i]))
  }

  function Mapped(values: seq<real>, f: real -> real): (mapped: seq<real>)
    ensures |mapped| == |values| && forall i | 0 <= i < |values| :: mapped[i] == f(values[i])
  {
    seq(|values|, i requires 0 <= i < |values| => f(values[i]))
  }

  /** Each cell's exact share of `remaining`. */
  function Proportional(shape: seq<Reading>, remaining: real): (exact: seq<real>)
    requires Sum(Cells(shape)) > 0.0
    ensures |exact| == |shape|
  {
    var factor := remaining / Sum(Cells(shape));
    Mapped(Cells(shape), value => value * factor)
  }

  /** The last cell absorbs what the others' rounding left over. */
  function Repaired(cells: seq<real>, remaining: real): (repaired: seq<real>)
    ensures |repaired| == |cells|
  {
    var n := |cells|;
    if n == 0 then cells else cells[n - 1 := cells[n - 1] + (remaining - Sum(cells))]
  }

  /** The normalised curve; `round` is whatever the computed products are rounded by. */
  function Curve(shape: seq<Reading>, remaining: real, round: real -> real): (curve: seq<real>)
    ensures |curve| == |shape|
  {
    if Sum(Cells(shape)) <= 0.0 then seq(|shape|, i => 0.0)
    else Repaired(Mapped(Proportional(shape, remaining), round), remaining)
  }

  method NormalizedShape(shape: Option<seq<Reading>>, remaining: real, round: real -> real)
    returns (curve: Option<seq<real>>)
    requires remaining >= 0.0
    ensures shape.None? ==> curve == None
    ensures shape.Some? ==> curve == Some(Curve(shape.value, remaining, round))
  {
    if shape == None {
      return None;
    }
    var values: seq<real> := [];
    for i := 0 to |shape.value|
      invariant values == Cells(shape.value)[..i]
    {
      values := values + [Sanitised(shape.value[i])];
    }
    assert values == Cells(shape.value);
    var total := Sum(values);
    if total <= 0.0 {
      return Some(seq(|values|, i => 0.0));
    }
    var factor := remaining / total;
    var normalized := Mapped(Mapped(values, value => value * factor), round);
    var n := |normalized|;
    if n > 0 {
      normalized := normalized[n - 1 := normalized[n - 1] + (remaining - Sum(normalized))];
    }
    return Some(normalized);
  }

  // ---------------------------------------------------------------------- proofs

  lemma RepairedSum(cells: seq<real>, remaining: real)
    requires cells != []
    ensures Sum(Repaired(cells, remaining)) == remaining
  {
    var n := |cells|;
    assert Repaired(cells, remaining)[..n - 1] == cells[..n - 1];
  }

  lemma MappedPrefix(values: seq<real>, f: real -> real, n: nat)
    requires n <= |values|
    ensures Mapped(values, f)[..n] == Mapped(values[..n], f)
  {
  }

  lemma Distribute(a: real, b: real, factor: real)
    ensures (a + b) * factor == a * factor + b * factor
  {
  }

  lemma {:induction false} SumMapped(values: seq<real>, f: real -> real, factor: real)
    requires forall i | 0 <= i < |values| :: f(values[i]) == values[i] * factor
    ensures Sum(Mapped(values, f)) == Sum(values) * factor
  {
    var n := |values|;
    if n > 0 {
      SumMapped(values[..n - 1], f, factor);
      MappedPrefix(values, f, n - 1);
      Distribute(Sum(values[..n - 1]), values[n - 1], factor);
    }
  }

  lemma ProportionalSum(shape: seq<Reading>, remaining: real)
    requires Sum(Cells(shape)) > 0.0
    ensures Sum(Proportional(shape, remaining)) == remaining
  {
    var total := Sum(Cells(shape));
    var factor := remaining / total;
    SumMapped(Cells(shape), value => value * factor, factor);
    assert total * factor == remaining;
  }

  /** The two agree cell by cell up to `u`. */
  predicate Within(a: seq<real>, b: seq<real>, u: real) {
    |a| == |b| && forall i | 0 <= i < |a| :: -u <= a[i] - b[i] <= u
  }

  /** `n` times `u`. */
  function Times(n: nat, u: real): (r: real)
    ensures r == n as real * u
  {
    if n == 0 then 0.0 else Times(n - 1, u) + u
  }

  lemma {:induction false} SumsWithin(a: seq<real>, b: seq<real>, u: real)
    requires Within(a, b, u)
    ensures -Times(|a|, u) <= Sum(a) - Sum(b) <= Times(|a|, u)
  {
    var n := |a|;
    if n > 0 {
      SumsWithin(a[..n - 1], b[..n - 1], u);
    }
  }

  /** The rounding is never further than `u` from the exact product. */
  ghost predicate RoundsWithin(round: real -> real, u: real) {
    forall x :: -u <= round(x) - x <= u
  }

  /** All cells but the last are within `u`, and the last within as many `u` as there are other cells. */
  predicate Tracks(curve: seq<real>, exact: seq<real>, u: real)
    requires |curve| == |exact| > 0
  {
    var n := |exact|;
    && (forall i | 0 <= i < n - 1 :: -u <= curve[i] - exact[i] <= u)
    && -Times(n - 1, u) <= curve[n - 1] - exact[n - 1] <= Times(n - 1, u)
  }

  lemma RepairedTracks(exact: seq<real>, rounded: seq<real>, remaining: real, u: real)
    requires exact != [] && Within(rounded, exact, u) && Sum(exact) == remaining
    ensures Sum(Repaired(rounded, remaining)) == remaining && Tracks(Repaired(rounded, remaining), exact, u)
  {
    var curve, n := Repaired(rounded, remaining), |exact|;
    RepairedSum(rounded, remaining);
    assert curve[..n - 1] == rounded[..n - 1];
    SumsWithin(rounded[..n - 1], exact[..n - 1], u);
  }

  /** Whatever the rounding, a curve with some positive cell sums exactly to `remaining` and tracks the shape. */
  lemma CurveTracksShape(shape: seq<Reading>, remaining: real, round: real -> real, u: real)
    requires Sum(Cells(shape)) > 0.0 && RoundsWithin(round, u)
    ensures shape != [] && Sum(Curve(shape, remaining, round)) == remaining
    ensures Tracks(Curve(shape, remaining, round), Proportional(shape, remaining), u)
  {
    var exact := Proportional(shape, remaining);
    ProportionalSum(shape, remaining);
    assert Within(Mapped(exact, round), exact, u);
    RepairedTracks(exact, Mapped(exact, round), remaining, u);
  }

  /** No rounding at all. */
  function Exactly(x: real): real { x }

  /** With exact arithmetic the curve is the proportional one, and no cell is negative. */
  lemma ExactCurve(shape: seq<Reading>, remaining: real)
    requires Sum(Cells(shape)) > 0.0 && remaining >= 0.0
    ensures Curve(shape, remaining, Exactly) == Proportional(shape, remaining)
    ensures forall value | value in Curve(shape, remaining, Exactly) :: value >= 0.0
  {
    var exact := Proportional(shape, remaining);
    ProportionalSum(shape, remaining);
    assert Mapped(exact, Exactly) == exact;
    assert Repaired(exact, remaining) == exact;
    var factor := remaining / Sum(Cells(shape));
    assert factor >= 0.0;
    forall i | 0 <= i < |shape| ensures exact[i] >= 0.0 {
      assert exact[i] == Cells(shape)[i] * factor;
    }
  }

  lemma {:induction false} SumOfNonNegative(values: seq<real>)
    requires forall i | 0 <= i < |values| :: values[i] >= 0.0
    ensures Sum(values) >= 0.0
    ensures Sum(values) == 0.0 <==> forall i | 0 <= i < |values| :: values[i] == 0.0
  {
    var n := |values|;
    if n > 0 {
      SumOfNonNegative(values[..n - 1]);
      if Sum(values) == 0.0 {
        forall i | 0 <= i < n ensures values[i] == 0.0 {
          if i < n - 1 {
            assert values[..n - 1][i] == 0.0;
          }
        }
      }
    }
  }

  /** A curve without a positive cell is all zeros. */
  lemma FlatCurve(shape: seq<Reading>, remaining: real, round: real -> real)
    requires forall i | 0 <= i < |shape| :: Sanitised(shape[i]) == 0.0
    ensures forall i | 0 <= i < |shape| :: Curve(shape, remaining, round)[i] == 0.0
    ensures Sum(Curve(shape, remaining, round)) == 0.0
  {
    SumOfNonNegative(Cells(shape));
    SumOfNonNegative(Curve(shape, remaining, round));
  }

  /** The promised sum is reached exactly when some cell is positive or nothing remains. */
  lemma CurveSumExact(shape: seq<Reading>, remaining: real, round: real -> real)
    requires remaining >= 0.0
    ensures Sum(Curve(shape, remaining, round)) == remaining <==>
            remaining == 0.0 || exists i :: 0 <= i < |shape| && Sanitised(shape[i]) > 0.0
  {
    SumOfNonNegative(Cells(shape));
    if Sum(Cells(shape)) > 0.0 {
      RepairedSum(Mapped(Proportional(shape, remaining), round), remaining);
      assert exists i :: 0 <= i < |shape| && Cells(shape)[i] > 0.0;
    } else {
      assert forall i | 0 <= i < |shape| :: Cells(shape)[i] == 0.0;
      FlatCurve(shape, remaining, round);
    }
  }

  // ------------------------------------------------------ in proportion to the shape

  /** A usable value is its own cell; everything else counts as nothing. */
  lemma CellExact(value: Reading)
    ensures value.Number? && value.r >= 0.0 ==> Sanitised(value) == value.r
    ensures !value.Number? || value.r < 0.0 ==> Sanitised(value) == 0.0
  {
  }

  /** `part` is to `whole` as `cell` is to `total`. */
  predicate SameRatio(part: real, whole: real, cell: real, total: real) {
    part * total == cell * whole
  }

  /** The same, up to `slack` in the part. */
  predicate NearRatio(part: real, whole: real, cell: real, total: real, slack: real) {
    -(slack * total) <= part * total - cell * whole <= slack * total
  }

  lemma ScaledRatio(cell: real, remaining: real, total: real)
    requires total > 0.0
    ensures SameRatio(cell * (remaining / total), remaining, cell, total)
  {
    var factor := remaining / total;
    assert factor * total == remaining;
    assert cell * factor * total == cell * (factor * total);
  }

  lemma ProportionalCell(shape: seq<Reading>, remaining: real, i: nat)
    requires Sum(Cells(shape)) > 0.0 && i < |shape|
    ensures SameRatio(Proportional(shape, remaining)[i], remaining, Sanitised(shape[i]), Sum(Cells(shape)))
  {
    ScaledRatio(Cells(shape)[i], remaining, Sum(Cells(shape)));
  }

  lemma SomePositive(shape: seq<Reading>)
    ensures Sum(Cells(shape)) > 0.0 <==> exists k :: 0 <= k < |shape| && Sanitised(shape[k]) > 0.0
  {
    SumOfNonNegative(Cells(shape));
    if k :| 0 <= k < |shape| && Sanitised(shape[k]) > 0.0 {
      assert Cells(shape)[k] > 0.0;
    } else {
      forall k | 0 <= k < |shape| ensures Cells(shape)[k] == 0.0 {
        assert Sanitised(shape[k]) == 0.0;
      }
    }
  }

  /** Without rounding every cell is to the total what its value is to the sum of the shape. */
  lemma ShapeKept(shape: seq<Reading>, remaining: real, i: nat)
    requires remaining >= 0.0 && i < |shape| && exists k :: 0 <= k < |shape| && Sanitised(shape[k]) > 0.0
    ensures SameRatio(Curve(shape, remaining, Exactly)[i], remaining, Sanitised(shape[i]), Sum(Cells(shape)))
  {
    SomePositive(shape);
    assert Curve(shape, remaining, Exactly) == Proportional(shape, remaining) by {
      ExactCurve(shape, remaining);
    }
    ProportionalCell(shape, remaining, i);
  }

  lemma NearSameRatio(part: real, exact: real, whole: real, cell: real, total: real, slack: real)
    requires total > 0.0 && -slack <= part - exact <= slack && SameRatio(exact, whole, cell, total)
    ensures NearRatio(part, whole, cell, total, slack)
  {
    assert (part - exact + slack) * total >= 0.0 && (slack - (part - exact)) * total >= 0.0;
  }

  /** With rounding it is so up to `u` in every cell but the last, and up to one `u` for each other cell in that. */
  lemma ShapeTracked(shape: seq<Reading>, remaining: real, round: real -> real, u: real, i: nat)
    requires Sum(Cells(shape)) > 0.0 && RoundsWithin(round, u) && i < |shape|
    ensures NearRatio(Curve(shape, remaining, round)[i], remaining, Sanitised(shape[i]), Sum(Cells(shape)),
                      if i < |shape| - 1 then u else Times(|shape| - 1, u))
  {
    CurveTracksShape(shape, remaining, round, u);
    ProportionalCell(shape, remaining, i);
    NearSameRatio(Curve(shape, remaining, round)[i], Proportional(shape, remaining)[i], remaining,
                  Sanitised(shape[i]), Sum(Cells(shape)), if i < |shape| - 1 then u else Times(|shape| - 1, u));
  }
}
