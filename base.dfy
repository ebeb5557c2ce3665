/** Shared vocabulary: the Python exceptions the modelled code can raise, a
    failure-compatible Result, numpy-style two-dimensional arrays over `real`,
    finite sums, Python slicing and Python floor division. */
module Base {

  /** The exceptions (Python and TensorFlow) raised on the modelled paths. */
  datatype PyError =
    | IndexError
    | KeyError(key: string)
    | AttributeError(name: string)
    | TypeError
    | ValueError
    | ZeroDivisionError
    | AssertionError
    | NameError(name: string)
    | InvalidArgumentError  // TensorFlow's error for an out-of-range gather index
    | NaNStatistics         // numpy returns NaN (and warns) for a statistic of an empty axis

  datatype Option<T> = None | Some(value: T)

  datatype Result<T> = Ok(value: T) | Err(error: PyError) {
    predicate IsFailure() { Err? }
    function PropagateFailure<U>(): Result<U>
      requires Err?
    {
      Err(error)
    }
    function Extract(): T
      requires Ok?
    {
      value
    }
  }

  /** A two-dimensional numpy array: the column count is kept even when there are no rows. */
  datatype Matrix = Matrix(cols: nat, rows: seq<seq<real>>)

  predicate WellShaped(m: Matrix) {
    forall i :: 0 <= i < |m.rows| ==> |m.rows[i]| == m.cols
  }

  /** Column `j` of a well-shaped array, `m[:, j]`. */
  function Column(m: Matrix, j: nat): (c: seq<real>)
    requires WellShaped(m) && j < m.cols
    ensures |c| == |m.rows| && forall i :: 0 <= i < |c| ==> c[i] == m.rows[i][j]
  {
    seq(|m.rows|, i requires 0 <= i < |m.rows| => m.rows[i][j])
  }

  function Min(a: int, b: int): int { if a <= b then a else b }

  /** Sum of a sequence of reals, left to right. */
  function Sum(s: seq<real>): real {
    if s == [] then 0.0 else s[0] + Sum(s[1..])
  }

  lemma {:induction false} SumAppend(a: seq<real>, b: seq<real>)
    ensures Sum(a + b) == Sum(a) + Sum(b)
  {
    if a == [] {
      assert a + b == b;
    } else {
      assert (a + b)[1..] == a[1..] + b;
      SumAppend(a[1..], b);
    }
  }

  /** Taking one term out of a sum. */
  lemma SumRemove(b: seq<real>, p: nat)
    requires p < |b|
    ensures Sum(b) == b[p] + Sum(b[..p] + b[p + 1..])
  {
    assert b == b[..p] + b[p..];
    SumAppend(b[..p], b[p..]);
    assert b[p..][1..] == b[p + 1..];
    SumAppend(b[..p], b[p + 1..]);
  }

  /** Matching the head of `a` with an occurrence `p` in a permutation `b`:
      what remains of both is again a permutation. */
  lemma MatchHead<T>(a: seq<T>, b: seq<T>) returns (p: nat)
    requires multiset(a) == multiset(b) && a != []
    ensures p < |b| && b[p] == a[0]
    ensures multiset(a[1..]) == multiset(b[..p] + b[p + 1..])
  {
    assert a[0] in multiset(b);
    p :| 0 <= p < |b| && b[p] == a[0];
    assert b == b[..p] + [b[p]] + b[p + 1..];
    assert a == [a[0]] + a[1..];
    assert multiset(b[..p] + b[p + 1..]) == multiset(b) - multiset{a[0]};
    assert multiset(a[1..]) == multiset(a) - multiset{a[0]};
  }

  /** A sum is unchanged by any reordering of its terms. */
  lemma {:induction false} SumPermutation(a: seq<real>, b: seq<real>)
    requires multiset(a) == multiset(b)
    ensures Sum(a) == Sum(b)
    decreases |a|
  {
    if a == [] {
      assert |b| == |multiset(b)| == 0;
    } else {
      var p := MatchHead(a, b);
      SumPermutation(a[1..], b[..p] + b[p + 1..]);
      SumRemove(b, p);
    }
  }

  /** Elementwise product of two vectors of one length. */
  function Products(u: seq<real>, v: seq<real>): (w: seq<real>)
    requires |u| == |v|
    ensures |w| == |u| && forall k :: 0 <= k < |w| ==> w[k] == u[k] * v[k]
  {
    seq(|u|, k requires 0 <= k < |u| => u[k] * v[k])
  }

  function Dot(u: seq<real>, v: seq<real>): real
    requires |u| == |v|
  {
    Sum(Products(u, v))
  }

  lemma DotCons(u: seq<real>, v: seq<real>)
    requires |u| == |v| > 0
    ensures Dot(u, v) == u[0] * v[0] + Dot(u[1..], v[1..])
  {
    var w, w' := Products(u, v), Products(u[1..], v[1..]);
    forall k | 0 <= k < |w'| ensures w[1..][k] == w'[k] {
      assert w[1..][k] == w[k + 1];
    }
    assert w[1..] == w';
  }

  /** The dot product of a vector with itself is never negative. */
  lemma {:induction false} DotSelfNonNegative(s: seq<real>)
    ensures Dot(s, s) >= 0.0
  {
    if s != [] {
      DotCons(s, s);
      DotSelfNonNegative(s[1..]);
      assert s[0] * s[0] >= 0.0;
    }
  }

  /** Python `s[lo:hi]` for non-negative bounds: both are clamped to the length. */
  function Slice<T>(s: seq<T>, lo: nat, hi: nat): (r: seq<T>)
    ensures |r| == if Min(hi, |s|) <= lo then 0 else Min(hi, |s|) - lo
    ensures forall k :: 0 <= k < |r| ==> r[k] == s[lo + k]
  {
    var h := Min(hi, |s|);
    if h <= lo then [] else s[lo..h]
  }

  /** Python `s[lo:]` for a non-negative bound. */
  function SliceFrom<T>(s: seq<T>, lo: nat): (r: seq<T>)
    ensures |r| == if |s| <= lo then 0 else |s| - lo
    ensures forall k :: 0 <= k < |r| ==> r[k] == s[lo + k]
  {
    if |s| <= lo then [] else s[lo..]
  }

  /** Python `a // b`: rounds toward negative infinity for either sign of `b`. */
  function FloorDiv(a: int, b: int): (q: int)
    requires b != 0
    ensures b > 0 ==> q * b <= a < q * b + b
    ensures b < 0 ==> q * b >= a > q * b + b
  {
    if b > 0 then a / b else (-a) / (-b)
  }
}
