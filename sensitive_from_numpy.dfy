/** universalgp/datasets/sensitive_from_numpy.py: the input normaliser chosen
    from the training inputs (`_get_normalizer`), the inducing inputs picked
    by stride (`_inducing_inputs`) and the shape fields of the resulting
    dataset (`sensitive_from_numpy`). Loading the `.npz` file is left out: its
    six arrays are the input `RawData`. */
module SensitiveFromNumpy {
  import opened Base

  // ---------------------------------------------------------------------------
  // Strided slicing: numpy `a[::step]`
  // ---------------------------------------------------------------------------

  /** Number of elements of `a[::d]` for `len(a) == n` and `d > 0`: ⌈n / d⌉. */
  function StrideCount(n: nat, d: nat): nat
    requires d > 0
  {
    (n + d - 1) / d
  }

  lemma MulMonotone(a: int, b: int, d: int)
    requires d > 0 && a * d < b * d
    ensures a < b
  {
  }

  /** A multiple of `d` leaves no remainder. */
  lemma MultipleMod(k: int, d: int)
    requires d > 0
    ensures (k * d) % d == 0 && (k * d) / d == k
  {
    var q, r := (k * d) / d, (k * d) % d;
    assert k * d == q * d + r && 0 <= r < d;
    assert (k - q) * d == r;
    if k - q >= 1 {
      assert false;
    } else if k - q <= -1 {
      assert false;
    }
  }

  /** `k` is a position of `a[::d]` exactly when `k * d` is an index of `a`. */
  lemma StrideCountBounds(n: nat, d: nat, k: nat)
    requires d > 0
    ensures k < StrideCount(n, d) <==> k * d < n
  {
    var c := StrideCount(n, d);
    assert c * d <= n + d - 1 < c * d + d;
    if k < c {
      assert k * d <= (c - 1) * d == c * d - d;
    }
    if k * d < n {
      assert k * d + d == (k + 1) * d;
      MulMonotone(k, c, d);
    }
  }

  /** ⌈n / d⌉ strides of length `d` cover `n`. */
  lemma StrideCountCovers(n: nat, d: nat)
    requires d > 0
    ensures StrideCount(n, d) * d >= n
  {
    var c := StrideCount(n, d);
    assert c * d + d > n + d - 1;
  }

  /** The magnitude of a slice step. */
  function StepSize(step: int): nat {
    if step > 0 then step else -step
  }

  /** Index of `a` that position `k` of `a[::step]` reads, for `len(a) == n`. */
  function StrideIndex(n: nat, step: int, k: nat): (i: nat)
    requires step != 0 && k < StrideCount(n, StepSize(step))
    ensures i < n
    ensures step > 0 ==> i == k * step
    ensures step < 0 ==> i == n - 1 + k * step
  {
    var d := StepSize(step);
    StrideCountBounds(n, d, k);
    if step > 0 then k * step
    else
      assert k * step == -(k * d);
      n - 1 - k * d
  }

  /** `a[::step]` for a non-zero step: a positive step takes indices 0, step,
      2·step, … below `len(a)`; a negative one takes len(a)-1, len(a)-1+step, …
      down to 0. Both take ⌈len(a) / |step|⌉ elements. */
  function StrideSlice<T>(a: seq<T>, step: int): (r: seq<T>)
    requires step != 0
    ensures |r| == StrideCount(|a|, StepSize(step))
    ensures forall k :: 0 <= k < |r| ==> r[k] == a[StrideIndex(|a|, step, k)]
  {
    var c := StrideCount(|a|, StepSize(step));
    seq(c, k requires 0 <= k < c => a[StrideIndex(|a|, step, k)])
  }

  /** With a positive step, index `i` is taken exactly when it is a multiple of the step. */
  lemma StrideSelectsMultiples<T>(a: seq<T>, step: nat, i: nat)
    requires step > 0 && i < |a|
    ensures (exists k :: 0 <= k < |StrideSlice(a, step)| && k * step == i) <==> i % step == 0
  {
    var c := |StrideSlice(a, step)|;
    assert c == StrideCount(|a|, step);
    if i % step == 0 {
      var k := i / step;
      assert k * step == i;
      StrideCountBounds(|a|, step, k);
    }
    if exists k :: 0 <= k < c && k * step == i {
      var k :| 0 <= k < c && k * step == i;
      MultipleMod(k, step);
    }
  }

  // ---------------------------------------------------------------------------
  // _inducing_inputs
  // ---------------------------------------------------------------------------

  /** The `DATA` tuple: inputs, outputs and sensitive attributes, row by row. */
  datatype Data = Data(x: Matrix, y: Matrix, s: Matrix)

  /** `np.concatenate((a, b), -1)` of two-dimensional arrays: row-wise joining,
      which needs the two row counts to agree. */
  function ConcatColumns(a: Matrix, b: Matrix): (r: Result<Matrix>)
    ensures r.Err? <==> |a.rows| != |b.rows|
    ensures r.Ok? ==> r.value.cols == a.cols + b.cols && |r.value.rows| == |a.rows| &&
                      forall i :: 0 <= i < |a.rows| ==> r.value.rows[i] == a.rows[i] + b.rows[i]
  {
    if |a.rows| != |b.rows| then Err(ValueError)
    else Ok(Matrix(a.cols + b.cols, seq(|a.rows|, i requires 0 <= i < |a.rows| => a.rows[i] + b.rows[i])))
  }

  /** `_inducing_inputs`: every `num_train // num_inducing`-th training row,
      with the sensitive attribute appended when it is an input. A zero
      `num_inducing` divides by zero; a zero stride is an invalid slice step. */
  function InducingInputs(maxNumInducing: int, train: Data, sAsInput: bool): (r: Result<Matrix>)
    ensures r.Ok? ==> r.value.cols == train.x.cols + (if sAsInput then train.s.cols else 0)
  {
    var numTrain := |train.x.rows|;
    var numInducing := Min(numTrain, maxNumInducing);
    if numInducing == 0 then Err(ZeroDivisionError)
    else
      var stride := FloorDiv(numTrain, numInducing);
      if stride == 0 then Err(ValueError)
      else
        var xs := Matrix(train.x.cols, StrideSlice(train.x.rows, stride));
        if sAsInput then ConcatColumns(xs, Matrix(train.s.cols, StrideSlice(train.s.rows, stride)))
        else Ok(xs)
  }

  /** There are no inducing inputs to pick exactly when `min(num_train, max)` is 0. */
  lemma InducingInputsZeroDivision(maxNumInducing: int, train: Data, sAsInput: bool)
    ensures InducingInputs(maxNumInducing, train, sAsInput) == Err(ZeroDivisionError) <==>
            Min(|train.x.rows|, maxNumInducing) == 0
  {
  }

  /** A negative maximum is taken as it is: `min(num_train, max)` is the
      maximum, the stride `num_train // max` is negative (or 0 without
      training rows, an invalid step), and the rows are picked from the last
      one backwards: row k of the result is training row
      `num_train - 1 + k·stride`. */
  lemma InducingInputsNegative(maxNumInducing: int, train: Data, sAsInput: bool)
    requires maxNumInducing < 0
    ensures var n := |train.x.rows|;
            var r := InducingInputs(maxNumInducing, train, sAsInput);
            (n == 0 ==> r == Err(ValueError)) &&
            (n > 0 ==>
               var stride := FloorDiv(n, maxNumInducing);
               stride < 0 &&
               (!sAsInput ==>
                  r.Ok? && |r.value.rows| == StrideCount(n, -stride) &&
                  forall k :: 0 <= k < |r.value.rows| ==>
                    0 <= n - 1 + k * stride < n && r.value.rows[k] == train.x.rows[n - 1 + k * stride]))
  {
    var n := |train.x.rows|;
    if n > 0 {
      var stride := FloorDiv(n, maxNumInducing);
      assert stride < 0;
      if !sAsInput {
        var r := InducingInputs(maxNumInducing, train, sAsInput);
        assert r.value.rows == StrideSlice(train.x.rows, stride);
        forall k | 0 <= k < |r.value.rows|
          ensures 0 <= n - 1 + k * stride < n && r.value.rows[k] == train.x.rows[n - 1 + k * stride]
        {
          assert StrideIndex(n, stride, k) == n - 1 + k * stride;
        }
      }
    }
  }

  /** With a positive maximum and at least one training row, the stride is
      `num_train // num_inducing` >= 1 and row k of the result is training row
      k·stride (followed by the sensitive row of the same index when
      `s_as_input`). There are ⌈num_train / stride⌉ >= num_inducing of them,
      and the width is the input width plus, with `s_as_input`, the width of
      the sensitive attribute. The only failure left is a sensitive array whose
      strided row count differs. */
  lemma InducingInputsSelection(maxNumInducing: int, train: Data, sAsInput: bool)
    requires maxNumInducing > 0 && |train.x.rows| > 0
    ensures var n := |train.x.rows|;
            var numInducing := Min(n, maxNumInducing);
            var stride := n / numInducing;
            var r := InducingInputs(maxNumInducing, train, sAsInput);
            stride >= 1 &&
            (r.Ok? <==> (!sAsInput || StrideCount(|train.s.rows|, stride) == StrideCount(n, stride))) &&
            (r.Ok? ==>
               |r.value.rows| == StrideCount(n, stride) >= numInducing &&
               r.value.cols == train.x.cols + (if sAsInput then train.s.cols else 0) &&
               forall k :: 0 <= k < |r.value.rows| ==>
                 k * stride < n && (sAsInput ==> k * stride < |train.s.rows|) &&
                 r.value.rows[k] == train.x.rows[k * stride] + (if sAsInput then train.s.rows[k * stride] else []))
  {
    var n := |train.x.rows|;
    var numInducing := Min(n, maxNumInducing);
    var stride := n / numInducing;
    assert FloorDiv(n, numInducing) == stride;
    InducingCount(n, numInducing);
    var r := InducingInputs(maxNumInducing, train, sAsInput);
    if r.Ok? {
      var xs := StrideSlice(train.x.rows, stride);
      forall k | 0 <= k < |r.value.rows|
        ensures k * stride < n && (sAsInput ==> k * stride < |train.s.rows|) &&
                r.value.rows[k] == train.x.rows[k * stride] + (if sAsInput then train.s.rows[k * stride] else [])
      {
        assert StrideIndex(n, stride, k) == k * stride;
        if sAsInput {
          var ss := StrideSlice(train.s.rows, stride);
          StrideCountBounds(|train.s.rows|, stride, k);
          assert StrideIndex(|train.s.rows|, stride, k) == k * stride;
          assert r.value.rows[k] == xs[k] + ss[k];
        } else {
          assert r.value.rows[k] == xs[k];
        }
      }
    }
  }

  /** For 0 < m <= n the stride `n // m` is at least 1 and `n[::n // m]`
      has at least m elements. */
  lemma InducingCount(n: nat, m: nat)
    requires 0 < m <= n
    ensures n / m >= 1 && StrideCount(n, n / m) >= m
  {
    var stride := n / m;
    assert stride * m <= n;
    StrideCountCovers(n, stride);
    MulMonotone(m - 1, StrideCount(n, stride), stride);
  }

  // ---------------------------------------------------------------------------
  // _get_normalizer
  // ---------------------------------------------------------------------------

  /** 1e-7, the threshold below which a standard deviation or a column maximum
      is treated as zero. */
  const Tiny: real := 0.0000001

  /** The closure `_get_normalizer` returns. */
  datatype Normalizer =
    | Standardize(mean: seq<real>, std: seq<real>)  // `_standardizer`
    | MaxNormalize(maxPerFeature: seq<real>)        // `_normalizer`
    | Identity                                      // `_do_nothing`

  /** All entries of an array, row by row. */
  function Entries(rows: seq<seq<real>>): (e: seq<real>)
  {
    if rows == [] then [] else rows[0] + Entries(rows[1..])
  }

  lemma {:induction false} EntriesMembers(rows: seq<seq<real>>, x: real)
    ensures x in Entries(rows) <==> exists i, j :: 0 <= i < |rows| && 0 <= j < |rows[i]| && rows[i][j] == x
  {
    if rows != [] {
      EntriesMembers(rows[1..], x);
      if x in Entries(rows[1..]) {
        var i, j :| 0 <= i < |rows[1..]| && 0 <= j < |rows[1..][i]| && rows[1..][i][j] == x;
        assert rows[i + 1][j] == x;
      }
      if exists i, j :: 0 <= i < |rows| && 0 <= j < |rows[i]| && rows[i][j] == x {
        var i, j :| 0 <= i < |rows| && 0 <= j < |rows[i]| && rows[i][j] == x;
        if i > 0 {
          assert rows[1..][i - 1][j] == x;
        } else {
          assert rows[0][j] in rows[0];
        }
      }
    }
  }

  /** Every entry of the array is an element of `Entries`. */
  lemma EntryIn(rows: seq<seq<real>>, i: nat, j: nat)
    requires i < |rows| && j < |rows[i]|
    ensures rows[i][j] in Entries(rows)
  {
    EntriesMembers(rows, rows[i][j]);
  }

  lemma {:induction false} EntriesEmpty(rows: seq<seq<real>>, i: nat)
    requires Entries(rows) == [] && i < |rows|
    ensures rows[i] == []
  {
    if i > 0 {
      EntriesEmpty(rows[1..], i - 1);
    }
  }

  /** A quotient of a non-negative value by a larger positive one lies in [0, 1]. */
  lemma UnitQuotient(x: real, m: real)
    requires 0.0 <= x <= m && m > 0.0
    ensures 0.0 <= x / m <= 1.0
  {
    var q := x / m;
    assert q * m == x;
  }

  /** `a.min()` / `a.max()` of a non-empty sequence. */
  function SeqMin(a: seq<real>): (r: real)
    requires a != []
    ensures r in a && forall k :: 0 <= k < |a| ==> r <= a[k]
  {
    if |a| == 1 then a[0]
    else
      var m := SeqMin(a[1..]);
      if a[0] <= m then a[0] else m
  }

  function SeqMax(a: seq<real>): (r: real)
    requires a != []
    ensures r in a && forall k :: 0 <= k < |a| ==> a[k] <= r
  {
    if |a| == 1 then a[0]
    else
      var m := SeqMax(a[1..]);
      if a[0] >= m then a[0] else m
  }

  /** `np.amax(base, axis=0)`: the largest entry of every column. */
  function ColumnMax(m: Matrix): (r: seq<real>)
    requires WellShaped(m) && |m.rows| > 0
    ensures |r| == m.cols
    ensures forall j :: 0 <= j < m.cols ==>
              (forall i :: 0 <= i < |m.rows| ==> m.rows[i][j] <= r[j]) &&
              (exists i :: 0 <= i < |m.rows| && m.rows[i][j] == r[j])
  {
    seq(m.cols, j requires 0 <= j < m.cols => SeqMax(Column(m, j)))
  }

  /** `np.mean(base, axis=0)` for at least one row. */
  function ColumnMean(m: Matrix, j: nat): real
    requires WellShaped(m) && |m.rows| > 0 && j < m.cols
  {
    Sum(Column(m, j)) / |m.rows| as real
  }

  /** Squared deviations of a sequence from `c`. */
  function SquaredDeviations(a: seq<real>, c: real): (r: seq<real>)
    ensures |r| == |a| && forall k :: 0 <= k < |a| ==> r[k] == (a[k] - c) * (a[k] - c)
  {
    seq(|a|, k requires 0 <= k < |a| => (a[k] - c) * (a[k] - c))
  }

  /** `np.std(base, axis=0)[j]` (population standard deviation), given `sqrt`,
      after `std[std < 1e-7] = 1.`. */
  function ClampedStd(m: Matrix, j: nat, sqrt: real -> real): (s: real)
    requires WellShaped(m) && |m.rows| > 0 && j < m.cols
    ensures s >= Tiny
  {
    var sd := sqrt(Sum(SquaredDeviations(Column(m, j), ColumnMean(m, j))) / |m.rows| as real);
    if sd < Tiny then 1.0 else sd
  }

  /** A normaliser never divides by zero. */
  predicate Divisible(norm: Normalizer) {
    norm.Standardize? ==> forall j :: 0 <= j < |norm.std| ==> norm.std[j] != 0.0
  }

  /** `_get_normalizer(base, do_standardize)`. Without rows numpy's column
      mean is NaN; with no entries at all `base.min()` raises. */
  function GetNormalizer(base: Matrix, doStandardize: bool, sqrt: real -> real): (r: Result<Normalizer>)
    requires WellShaped(base)
    ensures r.Ok? ==> Divisible(r.value)
  {
    if doStandardize then
      if |base.rows| == 0 then
        if base.cols == 0 then Ok(Standardize([], [])) else Err(NaNStatistics)
      else
        Ok(Standardize(seq(base.cols, j requires 0 <= j < base.cols => ColumnMean(base, j)),
                       seq(base.cols, j requires 0 <= j < base.cols => ClampedStd(base, j, sqrt))))
    else
      var e := Entries(base.rows);
      if e == [] then Err(ValueError)
      else if SeqMin(e) == 0.0 && SeqMax(e) > 10.0 then
        EntriesMembers(base.rows, e[0]);
        Ok(MaxNormalize(ColumnMax(base)))
      else Ok(Identity)
  }

  /** The normaliser applied to an array. Broadcasting needs the widths to
      agree; otherwise numpy raises. */
  function Apply(norm: Normalizer, m: Matrix): (r: Result<Matrix>)
    requires WellShaped(m) && Divisible(norm)
    ensures r.Ok? ==> WellShaped(r.value) && r.value.cols == m.cols && |r.value.rows| == |m.rows|
  {
    match norm
    case Identity => Ok(m)
    case Standardize(mean, std) =>
      if |mean| != m.cols || |std| != m.cols then Err(ValueError)
      else Ok(Matrix(m.cols, seq(|m.rows|, i requires 0 <= i < |m.rows| =>
                seq(m.cols, j requires 0 <= j < m.cols => (m.rows[i][j] - mean[j]) / std[j]))))
    case MaxNormalize(mx) =>
      if |mx| != m.cols then Err(ValueError)
      else Ok(Matrix(m.cols, seq(|m.rows|, i requires 0 <= i < |m.rows| =>
                seq(m.cols, j requires 0 <= j < m.cols => if mx[j] > Tiny then m.rows[i][j] / mx[j] else m.rows[i][j]))))
  }

  /** Branch choice: standardise when asked; otherwise max-normalise exactly
      when the training inputs are all non-negative, one of them is 0 and one
      exceeds 10 (global min 0, global max > 10); otherwise do nothing. An
      empty array fails before the choice. */
  lemma NormalizerBranch(base: Matrix, doStandardize: bool, sqrt: real -> real)
    requires WellShaped(base)
    ensures var r := GetNormalizer(base, doStandardize, sqrt);
            var rows := base.rows;
            (doStandardize ==> (r.Ok? <==> |rows| > 0 || base.cols == 0) && (r.Ok? ==> r.value.Standardize?)) &&
            (!doStandardize ==>
               (r.Err? <==> forall i :: 0 <= i < |rows| ==> rows[i] == []) &&
               (r.Ok? ==>
                  (r.value.MaxNormalize? <==>
                     (forall i, j :: 0 <= i < |rows| && 0 <= j < |rows[i]| ==> rows[i][j] >= 0.0) &&
                     (exists i, j :: 0 <= i < |rows| && 0 <= j < |rows[i]| && rows[i][j] == 0.0) &&
                     (exists i, j :: 0 <= i < |rows| && 0 <= j < |rows[i]| && rows[i][j] > 10.0)) &&
                  (!r.value.MaxNormalize? ==> r.value == Identity)))
  {
    var rows := base.rows;
    if !doStandardize {
      var e := Entries(rows);
      if e == [] {
        forall i | 0 <= i < |rows| ensures rows[i] == [] {
          EntriesEmpty(rows, i);
        }
      } else {
        EntriesMembers(rows, e[0]);
        var lo, hi := SeqMin(e), SeqMax(e);
        EntriesMembers(rows, lo);
        EntriesMembers(rows, hi);
        forall i, j | 0 <= i < |rows| && 0 <= j < |rows[i]| ensures lo <= rows[i][j] <= hi {
          EntryIn(rows, i, j);
        }
      }
    }
  }

  /** What the normaliser built from `base` does to entry (i, j) of an array
      `m` of the same width (the training or the test inputs): standardising
      gives `(x - mean_j) / std_j` over the training columns, max-normalising
      gives `x / max_j` where the training column maximum exceeds 1e-7 and
      `x` elsewhere, and the identity leaves `x`. */
  lemma NormalizedEntries(base: Matrix, doStandardize: bool, sqrt: real -> real, m: Matrix, i: nat, j: nat)
    requires WellShaped(base) && WellShaped(m) && m.cols == base.cols && i < |m.rows| && j < m.cols
    requires GetNormalizer(base, doStandardize, sqrt).Ok?
    ensures var norm := GetNormalizer(base, doStandardize, sqrt).value;
            var r := Apply(norm, m);
            var x := m.rows[i][j];
            r.Ok? &&
            (doStandardize ==>
               |base.rows| > 0 && r.value.rows[i][j] == (x - ColumnMean(base, j)) / ClampedStd(base, j, sqrt)) &&
            (!doStandardize && norm.MaxNormalize? ==>
               |base.rows| > 0 && norm == MaxNormalize(ColumnMax(base)) &&
               r.value.rows[i][j] == (if ColumnMax(base)[j] > Tiny then x / ColumnMax(base)[j] else x)) &&
            (!doStandardize && !norm.MaxNormalize? ==> r.value.rows[i][j] == x)
  {
  }

  /** The max-normaliser built from the training inputs maps each training
      entry of a divided column into [0, 1] and leaves the other columns as
      they are. */
  lemma MaxNormalizedUnitRange(base: Matrix, sqrt: real -> real, i: nat, j: nat)
    requires WellShaped(base) && i < |base.rows| && j < base.cols
    requires GetNormalizer(base, false, sqrt).Ok? && GetNormalizer(base, false, sqrt).value.MaxNormalize?
    ensures var norm := GetNormalizer(base, false, sqrt).value;
            var r := Apply(norm, base);
            r.Ok? && norm == MaxNormalize(ColumnMax(base)) &&
            (ColumnMax(base)[j] > Tiny ==> 0.0 <= r.value.rows[i][j] <= 1.0) &&
            (ColumnMax(base)[j] <= Tiny ==> r.value.rows[i][j] == base.rows[i][j])
  {
    var mx := ColumnMax(base)[j];
    var e := Entries(base.rows);
    EntryIn(base.rows, i, j);
    var x := base.rows[i][j];
    assert 0.0 <= x <= mx;
    if mx > Tiny {
      UnitQuotient(x, mx);
    }
  }

  /** `a - c`, entry by entry. */
  function Shift(a: seq<real>, c: real): (u: seq<real>)
    ensures |u| == |a| && forall k :: 0 <= k < |a| ==> u[k] == a[k] - c
  {
    seq(|a|, k requires 0 <= k < |a| => a[k] - c)
  }

  /** `u / d`, entry by entry. */
  function Scale(u: seq<real>, d: real): (v: seq<real>)
    requires d != 0.0
    ensures |v| == |u| && forall k :: 0 <= k < |u| ==> v[k] == u[k] / d
  {
    seq(|u|, k requires 0 <= k < |u| => u[k] / d)
  }

  /** Shifting every entry by `c` shifts the sum by `|a| * c`. */
  lemma {:induction false} SumShifted(a: seq<real>, c: real)
    ensures Sum(Shift(a, c)) == Sum(a) - |a| as real * c
  {
    if a != [] {
      SumShifted(a[1..], c);
      assert Shift(a, c)[1..] == Shift(a[1..], c);
    }
  }

  /** Dividing every entry by `d` divides the sum by `d`. */
  lemma {:induction false} SumScaled(u: seq<real>, d: real)
    requires d != 0.0
    ensures Sum(Scale(u, d)) == Sum(u) / d
  {
    if u != [] {
      SumScaled(u[1..], d);
      assert Scale(u, d)[1..] == Scale(u[1..], d);
      assert u[0] / d + Sum(u[1..]) / d == (u[0] + Sum(u[1..])) / d;
    }
  }

  /** Centring on the mean and then scaling leaves nothing: with `c = s / n`,
      `(s - n * c) / d` is 0. */
  lemma CentredOnMean(s: real, su: real, sv: real, n: nat, c: real, d: real)
    requires n > 0 && d != 0.0 && c == s / n as real
    requires su == s - n as real * c && sv == su / d
    ensures sv == 0.0
  {
    assert su == 0.0;
  }

  /** A sequence centred on its mean and scaled by any non-zero `d` sums to 0. */
  lemma SumCentredOnMean(a: seq<real>, d: real)
    requires a != [] && d != 0.0
    ensures Sum(Scale(Shift(a, Sum(a) / |a| as real), d)) == 0.0
  {
    var c := Sum(a) / |a| as real;
    SumShifted(a, c);
    SumScaled(Shift(a, c), d);
    CentredOnMean(Sum(a), Sum(Shift(a, c)), Sum(Scale(Shift(a, c), d)), |a|, c, d);
  }

  /** The standardiser built from the training inputs centres every training column: its sum is 0. */
  lemma StandardizedColumnsCentred(base: Matrix, sqrt: real -> real, j: nat)
    requires WellShaped(base) && |base.rows| > 0 && j < base.cols
    ensures var norm := GetNormalizer(base, true, sqrt);
            norm.Ok? && Apply(norm.value, base).Ok? && Sum(Column(Apply(norm.value, base).value, j)) == 0.0
  {
    var g := GetNormalizer(base, true, sqrt);
    assert g.Ok? && g.value.Standardize?;
    var norm := g.value;
    var a := Apply(norm, base);
    assert a.Ok?;
    var r := a.value;
    var col := Column(base, j);
    var c, d := norm.mean[j], norm.std[j];
    assert c == Sum(col) / |col| as real;
    var v := Column(r, j);
    forall k | 0 <= k < |col| ensures v[k] == Scale(Shift(col, c), d)[k] {
      assert r.rows[k][j] == (base.rows[k][j] - c) / d;
    }
    assert v == Scale(Shift(col, c), d);
    SumCentredOnMean(col, d);
  }

  // ---------------------------------------------------------------------------
  // sensitive_from_numpy
  // ---------------------------------------------------------------------------

  /** The arrays of the `.npz` file. */
  datatype RawData = RawData(xtrain: Matrix, ytrain: Matrix, strain: Matrix,
                             xtest: Matrix, ytest: Matrix, stest: Matrix)

  /** The fields of the `Dataset` record this model fixes. */
  datatype Dataset = Dataset(train: Data, test: Data, inputDim: nat, numTrain: nat,
                             inducingInputs: Matrix, outputDim: nat)

  /** `sensitive_from_numpy(flags)` after loading: `sAsInput` is
      `flags.get('s_as_input')`, absent meaning false. */
  function SensitiveFromNumpy(raw: RawData, numInducing: int, doStandardize: bool,
                              sAsInput: Option<bool>, sqrt: real -> real): Result<Dataset>
    requires WellShaped(raw.xtrain) && WellShaped(raw.xtest)
  {
    var norm :- GetNormalizer(raw.xtrain, doStandardize, sqrt);
    var xtrain :- Apply(norm, raw.xtrain);
    var xtest :- Apply(norm, raw.xtest);
    var train := Data(xtrain, raw.ytrain, raw.strain);
    var test := Data(xtest, raw.ytest, raw.stest);
    var inducing :- InducingInputs(numInducing, train, sAsInput == Some(true));
    Ok(Dataset(train, test, inducing.cols, |train.x.rows|, inducing, train.y.cols))
  }

  /** The normaliser is built from the training inputs alone and applied to
      both splits; outputs and sensitive attributes pass through; `num_train`
      is the number of training rows, `output_dim` the width of `ytrain` and
      `input_dim` the width of the inducing inputs. */
  lemma DatasetFields(raw: RawData, numInducing: int, doStandardize: bool,
                      sAsInput: Option<bool>, sqrt: real -> real)
    requires WellShaped(raw.xtrain) && WellShaped(raw.xtest)
    ensures var r := SensitiveFromNumpy(raw, numInducing, doStandardize, sAsInput, sqrt);
            r.Ok? ==>
              var norm := GetNormalizer(raw.xtrain, doStandardize, sqrt);
              norm.Ok? &&
              Apply(norm.value, raw.xtrain) == Ok(r.value.train.x) &&
              Apply(norm.value, raw.xtest) == Ok(r.value.test.x) &&
              r.value.train.y == raw.ytrain && r.value.train.s == raw.strain &&
              r.value.test.y == raw.ytest && r.value.test.s == raw.stest &&
              r.value.numTrain == |raw.xtrain.rows| && r.value.outputDim == raw.ytrain.cols &&
              InducingInputs(numInducing, r.value.train, sAsInput == Some(true)) == Ok(r.value.inducingInputs) &&
              r.value.inputDim == r.value.inducingInputs.cols
  {
  }

  /** Whenever the dataset is built, `input_dim` is the input width plus the
      sensitive width exactly when `s_as_input` is set. */
  lemma DatasetInputDim(raw: RawData, numInducing: int, doStandardize: bool,
                        sAsInput: Option<bool>, sqrt: real -> real)
    requires WellShaped(raw.xtrain) && WellShaped(raw.xtest)
    ensures var r := SensitiveFromNumpy(raw, numInducing, doStandardize, sAsInput, sqrt);
            r.Ok? ==> r.value.inputDim == raw.xtrain.cols + (if sAsInput == Some(true) then raw.strain.cols else 0)
  {
  }
}
