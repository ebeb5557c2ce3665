/** datasets/maize.py: the maize-yield dataset. The first CSV column is the
    output, standardised by `zscore`; the other columns are the inputs; row 5
    is held out as the single test point. Reading the file and `zscore`
    itself are left out: the parsed array and the standardised value of each
    row are inputs. */
module Maize {
  import opened Base

  /** `itest`: the index of the held-out row. */
  const TestIndex: nat := 5

  /** `np.concatenate((a[:i], a[i + 1:]))` and `a[i:i + 1]`. */
  function LeaveOneOut<T>(a: seq<T>, i: nat): (r: (seq<T>, seq<T>))
    ensures |r.0| + |r.1| == |a| && |r.1| <= 1
  {
    (Slice(a, 0, i) + SliceFrom(a, i + 1), Slice(a, i, i + 1))
  }

  /** The original index of training row k: rows before the held-out one keep
      their index, later ones move up by one. */
  function Orig(k: nat, i: nat): nat {
    if k < i then k else k + 1
  }

  /** With more than `i` rows, the training part has one row fewer, the test
      part is row `i`, and training row k is original row Orig(k); otherwise
      nothing is held out. */
  lemma LeaveOneOutRows<T>(a: seq<T>, i: nat)
    ensures var (train, test) := LeaveOneOut(a, i);
            (i < |a| ==> |train| == |a| - 1 && test == [a[i]] &&
                         forall k :: 0 <= k < |train| ==> Orig(k, i) < |a| && train[k] == a[Orig(k, i)]) &&
            (|a| <= i ==> train == a && test == [])
  {
    var (train, test) := LeaveOneOut(a, i);
    if i < |a| {
      forall k | 0 <= k < |train| ensures Orig(k, i) < |a| && train[k] == a[Orig(k, i)] {
        if k >= i {
          assert train[k] == SliceFrom(a, i + 1)[k - i];
        }
      }
    } else {
      assert Slice(a, 0, i) == a;
    }
  }

  /** Every row except the held-out one is some training row. */
  lemma LeaveOneOutOmitsOnlyHeldOut<T>(a: seq<T>, i: nat, r: nat)
    requires i < |a| && r < |a| && r != i
    ensures var k := if r < i then r else r - 1;
            k < |LeaveOneOut(a, i).0| && Orig(k, i) == r && LeaveOneOut(a, i).0[k] == a[r]
  {
    LeaveOneOutRows(a, i);
  }

  /** Putting the test part back between the first `i` training rows and the
      rest restores the original sequence, whatever its length. */
  lemma LeaveOneOutRecovers<T>(a: seq<T>, i: nat)
    ensures var (train, test) := LeaveOneOut(a, i);
            Slice(train, 0, i) + test + SliceFrom(train, i) == a
  {
    var (train, test) := LeaveOneOut(a, i);
    if i < |a| {
      assert Slice(train, 0, i) == a[..i];
      assert SliceFrom(train, i) == a[i + 1..];
      assert a == a[..i] + [a[i]] + a[i + 1..];
    } else {
      assert train == a;
    }
  }

  /** The fields of the returned `Dataset`. */
  datatype Dataset = Dataset(inputDim: nat, outputDim: nat, xtrain: seq<seq<real>>, ytrain: seq<seq<real>>,
                             xtest: seq<seq<real>>, ytest: seq<seq<real>>,
                             inducingInputs: seq<seq<real>>, numTrain: nat)

  /** `maize_yield()` after `np.loadtxt`: `data` is the parsed CSV and
      `zscore(column, k)` the standardised value of row k of the first column.
      `np.loadtxt` squeezes a file of one row (or none) or of one column into
      a one-dimensional array, on which `data[:, 1:]` raises IndexError. */
  function MaizeYield(data: Matrix, zscore: (seq<real>, nat) -> real): (r: Result<Dataset>)
    requires WellShaped(data)
    ensures r.Err? <==> |data.rows| <= 1 || data.cols <= 1
  {
    if |data.rows| <= 1 || data.cols <= 1 then Err(IndexError)
    else
      var x := seq(|data.rows|, k requires 0 <= k < |data.rows| => data.rows[k][1..]);
      var first := Column(data, 0);
      var y := seq(|data.rows|, k requires 0 <= k < |data.rows| => [zscore(first, k)]);
      var (xtrain, xtest) := LeaveOneOut(x, TestIndex);
      var (ytrain, ytest) := LeaveOneOut(y, TestIndex);
      Ok(Dataset(8, 1, xtrain, ytrain, xtest, ytest, xtrain, |ytrain|))
  }

  /** Inputs are every column after the first and outputs the standardised
      first column; the two are split at the same row, so training row k of
      both comes from original row Orig(k), and with at least six rows row 5
      is the test point and the training set has one row fewer. */
  lemma MaizeSplit(data: Matrix, zscore: (seq<real>, nat) -> real)
    requires WellShaped(data)
    ensures var r := MaizeYield(data, zscore);
            var n := |data.rows|;
            r.Ok? ==>
              var first := Column(data, 0);
              var d := r.value;
              |d.xtrain| == |d.ytrain| &&
              (forall k :: 0 <= k < |d.xtrain| ==>
                 Orig(k, TestIndex) < n &&
                 d.xtrain[k] == data.rows[Orig(k, TestIndex)][1..] &&
                 d.ytrain[k] == [zscore(first, Orig(k, TestIndex))]) &&
              (n >= 6 ==> |d.xtrain| == n - 1 &&
                          d.xtest == [data.rows[5][1..]] && d.ytest == [[zscore(first, 5)]]) &&
              (n <= 5 ==> |d.xtrain| == n && d.xtest == [] && d.ytest == [])
  {
    if |data.rows| > 1 && data.cols > 1 {
      var x := seq(|data.rows|, k requires 0 <= k < |data.rows| => data.rows[k][1..]);
      var first := Column(data, 0);
      var y := seq(|data.rows|, k requires 0 <= k < |data.rows| => [zscore(first, k)]);
      LeaveOneOutRows(x, TestIndex);
      LeaveOneOutRows(y, TestIndex);
    }
  }

  /** The inducing inputs are the training inputs, `num_train` counts the
      training outputs, and the dimensions are the constants 8 and 1. */
  lemma MaizeFields(data: Matrix, zscore: (seq<real>, nat) -> real)
    requires WellShaped(data)
    ensures var r := MaizeYield(data, zscore);
            r.Ok? ==>
              var d := r.value;
              d.inducingInputs == d.xtrain && d.numTrain == |d.ytrain| == |d.xtrain| &&
              d.inputDim == 8 && d.outputDim == 1
  {
    MaizeSplit(data, zscore);
  }
}
