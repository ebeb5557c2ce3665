/** universalgp/util/util.py: nested-list construction (`init_list`), exact
    arithmetic helpers (`ceil_divide`, `diag_mul`, `mat_square`) and the
    packing of lower-triangular matrices (`tri_vec_shape`, `vec_to_tri`). */
module Util {
  import opened Base

  // ---------------------------------------------------------------------------
  // init_list
  // ---------------------------------------------------------------------------

  /** The `init` argument of `init_list`: a plain value stored in every leaf, or
      a callable. Calls are numbered from 0 in the order `fill_list` makes them;
      call number k yields `make(k)`, so every call can give a fresh object. */
  datatype Init<T> = Value(v: T) | Callable(make: nat -> T)

  /** What the leaf assignment made as call number `k` stores. */
  function LeafValue<T>(init: Init<T>, k: nat): T {
    match init
    case Value(v) => v
    case Callable(make) => make(k)
  }

  /** A Python value as `init_list` builds it: `None`, a leaf, or a list. */
  datatype Nested<T> = NoneValue | Leaf(value: T) | List(items: seq<Nested<T>>)

  /** Number of elements of `range(d)`. */
  function RangeLen(d: int): nat {
    if d < 0 then 0 else d
  }

  /** Number of leaves of a nested list of shape `dims`. */
  function LeafCount(dims: seq<int>): nat
    decreases |dims|
  {
    if dims == [] then 1 else RangeLen(dims[0]) * LeafCount(dims[1..])
  }

  /** `empty_list`: lists nested |dims| deep with `None` at the bottom. The
      `copy.deepcopy` of each element is implicit: these are values. */
  function EmptyList<T>(dims: seq<int>): Nested<T>
    decreases |dims|
  {
    if dims == [] then NoneValue
    else List(seq(RangeLen(dims[0]), _ => EmptyList(dims[1..])))
  }

  /** `l` is nested |dims| deep, every list at depth k has `range(dims[k])`
      elements, and there are no lists below depth |dims|. */
  predicate HasShape<T>(l: Nested<T>, dims: seq<int>)
    decreases |dims|
  {
    if dims == [] then !l.List?
    else l.List? && |l.items| == RangeLen(dims[0]) &&
         forall i :: 0 <= i < |l.items| ==> HasShape(l.items[i], dims[1..])
  }

  lemma {:induction false} EmptyListShape<T>(dims: seq<int>)
    ensures HasShape(EmptyList<T>(dims), dims)
    decreases |dims|
  {
    if dims != [] {
      EmptyListShape<T>(dims[1..]);
    }
  }

  /** The list `fill_list(dims, l)` leaves behind when its first leaf
      assignment is call number `first`: the leaves, in row-major order,
      receive consecutive call numbers. */
  function Filled<T>(dims: seq<int>, init: Init<T>, first: nat): Nested<T>
    requires dims != []
    decreases |dims|
  {
    if |dims| == 1 then
      List(seq(RangeLen(dims[0]), i requires 0 <= i => Leaf(LeafValue(init, first + i))))
    else
      List(seq(RangeLen(dims[0]), i requires 0 <= i =>
        Filled(dims[1..], init, first + i * LeafCount(dims[1..]))))
  }

  /** `fill_list`: overwrite every leaf position of the shaped list `l` with
      `init` (or the result of a fresh call of `init`), row by row. `calls` is
      the number of calls made before; `calls'` the number made after. */
  method FillList<T>(dims: seq<int>, l: Nested<T>, init: Init<T>, calls: nat)
    returns (r: Nested<T>, calls': nat)
    requires dims != [] && HasShape(l, dims)
    ensures r == Filled(dims, init, calls)
    ensures calls' == calls + LeafCount(dims)
    decreases |dims|
  {
    var items := l.items;
    var n := |items|;
    var c := calls;
    ghost var target := Filled(dims, init, calls);
    ghost var inner := LeafCount(dims[1..]);
    var i := 0;
    while i < n
      invariant 0 <= i <= n == |items| == RangeLen(dims[0])
      invariant c == calls + i * inner
      invariant forall j :: 0 <= j < i ==> items[j] == target.items[j]
      invariant forall j :: i <= j < n ==> HasShape(items[j], dims[1..])
    {
      if |dims| == 1 {
        items := items[i := Leaf(LeafValue(init, c))];
        c := c + 1;
      } else {
        var sub, c2 := FillList(dims[1..], items[i], init, c);
        items := items[i := sub];
        c := c2;
      }
      i := i + 1;
    }
    assert items == target.items;
    r := List(items);
    calls' := c;
  }

  /** `init_list(init, dims)`. An empty `dims` raises IndexError: `empty_list`
      returns None and `fill_list` then reads `dims[0]`. */
  method InitList<T>(init: Init<T>, dims: seq<int>) returns (r: Result<Nested<T>>)
    ensures dims == [] ==> r == Err(IndexError)
    ensures dims != [] ==> r == Ok(Filled(dims, init, 0))
  {
    var l := EmptyList<T>(dims);
    if dims == [] {
      return Err(IndexError);
    }
    EmptyListShape<T>(dims);
    var filled, _ := FillList(dims, l, init, 0);
    r := Ok(filled);
  }

  /** `l[path[0]][path[1]]...` for non-negative indices; None where an index
      step is not a list index in range. */
  function At<T>(l: Nested<T>, path: seq<int>): Option<Nested<T>>
    decreases |path|
  {
    if path == [] then Some(l)
    else if l.List? && 0 <= path[0] < |l.items| then At(l.items[path[0]], path[1..])
    else None
  }

  /** `path` addresses a leaf position of a list of shape `dims`. */
  predicate IsIndex(dims: seq<int>, path: seq<int>) {
    |path| == |dims| && forall k :: 0 <= k < |path| ==> 0 <= path[k] < RangeLen(dims[k])
  }

  lemma IsIndexTail(dims: seq<int>, path: seq<int>)
    requires IsIndex(dims, path) && path != []
    ensures IsIndex(dims[1..], path[1..]) && 0 <= path[0] < RangeLen(dims[0])
  {
    forall k | 0 <= k < |path[1..]| ensures 0 <= path[1..][k] < RangeLen(dims[1..][k]) {
      assert path[1..][k] == path[k + 1];
    }
  }

  /** Blocks of `c` consecutive positions do not overlap. */
  lemma BlocksOrdered(a: int, b: int, c: int, fa: int, fb: int)
    requires 0 <= a < b && 0 <= fa < c && 0 <= fb
    ensures a * c + fa < b * c + fb
  {
    var d := b - a - 1;
    assert b * c == a * c + c + d * c by {
      assert b == a + 1 + d;
    }
    assert d * c >= 0;
  }

  /** Row-major position of a leaf: the number of leaves filled before it. */
  function FlatIndex(dims: seq<int>, path: seq<int>): int
    requires |path| == |dims|
    decreases |path|
  {
    if path == [] then 0 else path[0] * LeafCount(dims[1..]) + FlatIndex(dims[1..], path[1..])
  }

  lemma {:induction false} FlatIndexBound(dims: seq<int>, path: seq<int>)
    requires IsIndex(dims, path)
    ensures 0 <= FlatIndex(dims, path) < LeafCount(dims)
    decreases |path|
  {
    if path != [] {
      IsIndexTail(dims, path);
      FlatIndexBound(dims[1..], path[1..]);
      BlocksOrdered(path[0], RangeLen(dims[0]), LeafCount(dims[1..]), FlatIndex(dims[1..], path[1..]), 0);
    }
  }

  /** Distinct leaf positions are filled by distinct calls. */
  lemma {:induction false} FlatIndexInjective(dims: seq<int>, p: seq<int>, q: seq<int>)
    requires IsIndex(dims, p) && IsIndex(dims, q) && p != q
    ensures FlatIndex(dims, p) != FlatIndex(dims, q)
    decreases |p|
  {
    assert p != [];
    IsIndexTail(dims, p);
    IsIndexTail(dims, q);
    var c := LeafCount(dims[1..]);
    if p[0] == q[0] {
      assert p == [p[0]] + p[1..] && q == [q[0]] + q[1..];
      FlatIndexInjective(dims[1..], p[1..], q[1..]);
    } else {
      FlatIndexBound(dims[1..], p[1..]);
      FlatIndexBound(dims[1..], q[1..]);
      var fp, fq := FlatIndex(dims[1..], p[1..]), FlatIndex(dims[1..], q[1..]);
      if p[0] < q[0] {
        BlocksOrdered(p[0], q[0], c, fp, fq);
      } else {
        BlocksOrdered(q[0], p[0], c, fq, fp);
      }
    }
  }

  /** Every leaf position of the filled list holds the value stored by the
      call whose number is the position's row-major index. */
  lemma {:induction false} FilledAt<T>(dims: seq<int>, init: Init<T>, first: nat, path: seq<int>)
    requires dims != [] && IsIndex(dims, path)
    ensures FlatIndex(dims, path) >= 0
    ensures At(Filled(dims, init, first), path) == Some(Leaf(LeafValue(init, first + FlatIndex(dims, path))))
    decreases |dims|
  {
    FlatIndexBound(dims, path);
    var f := Filled(dims, init, first);
    assert f.items[path[0]] == if |dims| == 1 then Leaf(LeafValue(init, first + path[0]))
                               else Filled(dims[1..], init, first + path[0] * LeafCount(dims[1..]));
    if |dims| > 1 {
      IsIndexTail(dims, path);
      FilledAt(dims[1..], init, first + path[0] * LeafCount(dims[1..]), path[1..]);
    }
  }

  lemma {:induction false} FilledShape<T>(dims: seq<int>, init: Init<T>, first: nat)
    requires dims != []
    ensures HasShape(Filled(dims, init, first), dims)
    decreases |dims|
  {
    if |dims| > 1 {
      var f := Filled(dims, init, first);
      forall i | 0 <= i < |f.items| ensures HasShape(f.items[i], dims[1..]) {
        FilledShape(dims[1..], init, first + i * LeafCount(dims[1..]));
      }
    }
  }

  /** What `init_list` promises: a list of shape `dims`; with a plain `init`
      every leaf is `init`; with a callable `init` every leaf is the result of
      its own call (call number = row-major position), so no two leaves share
      a call. */
  lemma InitListLeaves<T>(init: Init<T>, dims: seq<int>, p: seq<int>, q: seq<int>)
    requires dims != [] && IsIndex(dims, p) && IsIndex(dims, q)
    ensures HasShape(Filled(dims, init, 0), dims)
    ensures init.Value? ==> At(Filled(dims, init, 0), p) == Some(Leaf(init.v))
    ensures init.Callable? ==>
              0 <= FlatIndex(dims, p) < LeafCount(dims) &&
              At(Filled(dims, init, 0), p) == Some(Leaf(init.make(FlatIndex(dims, p))))
    ensures p != q ==> FlatIndex(dims, p) != FlatIndex(dims, q)
  {
    FilledShape(dims, init, 0);
    FilledAt(dims, init, 0, p);
    FlatIndexBound(dims, p);
    if p != q {
      FlatIndexInjective(dims, p, q);
    }
  }

  /** Python `l[path[0]]...[path[-1]] = x` on a value: the list with one leaf replaced. */
  function SetAt<T>(l: Nested<T>, path: seq<int>, x: T): Nested<T>
    decreases |path|
  {
    if path == [] then Leaf(x)
    else if l.List? && 0 <= path[0] < |l.items| then
      List(l.items[path[0] := SetAt(l.items[path[0]], path[1..], x)])
    else l
  }

  /** Sublists are separate copies: assigning one leaf changes no other leaf. */
  lemma {:induction false} SetAtIsolated<T>(l: Nested<T>, dims: seq<int>, p: seq<int>, q: seq<int>, x: T)
    requires HasShape(l, dims) && IsIndex(dims, p) && IsIndex(dims, q)
    ensures At(SetAt(l, p, x), p) == Some(Leaf(x))
    ensures p != q ==> At(SetAt(l, p, x), q) == At(l, q)
    decreases |p|
  {
    if p != [] {
      IsIndexTail(dims, p);
      IsIndexTail(dims, q);
      SetAtIsolated(l.items[p[0]], dims[1..], p[1..], q[1..], x);
      if p[0] == q[0] && p != q {
        assert p == [p[0]] + p[1..] && q == [q[0]] + q[1..];
      }
    }
  }

  // ---------------------------------------------------------------------------
  // ceil_divide, diag_mul, mat_square
  // ---------------------------------------------------------------------------

  lemma CeilQuotient(a: int, b: int)
    requires b > 0
    ensures ((a + b - 1) as real / b as real).Floor == (a + b - 1) / b
  {
    var q, m := (a + b - 1) / b, (a + b - 1) % b;
    assert a + b - 1 == q * b + m && 0 <= m < b;
    var x := (a + b - 1) as real / b as real;
    assert x == q as real + m as real / b as real;
    assert 0.0 <= m as real / b as real < 1.0;
  }

  /** `ceil_divide`: Python's true division `/`, so the value is a real, not an
      integer. For a positive divisor its floor is the ceiling of the integer
      quotient: the least k with k * divisor >= dividend. A zero divisor raises. */
  function CeilDivide(dividend: int, divisor: int): (r: Result<real>)
    ensures r.Err? <==> divisor == 0
    ensures divisor > 0 ==>
              (r.Ok? && r.value.Floor * divisor >= dividend && (r.value.Floor - 1) * divisor < dividend)
  {
    if divisor == 0 then Err(ZeroDivisionError)
    else
      var r := (dividend + divisor - 1) as real / divisor as real;
      if divisor > 0 then
        CeilQuotient(dividend, divisor);
        Ok(r)
      else Ok(r)
  }

  function Transpose(m: Matrix): (t: Matrix)
    requires WellShaped(m)
    ensures WellShaped(t) && t.cols == |m.rows| && |t.rows| == m.cols
    ensures forall j, i :: 0 <= j < m.cols && 0 <= i < |m.rows| ==> t.rows[j][i] == m.rows[i][j]
  {
    Matrix(|m.rows|, seq(m.cols, j requires 0 <= j < m.cols => Column(m, j)))
  }

  /** Reference definition of the matrix product `a @ b`. */
  function MatMul(a: Matrix, b: Matrix): (p: Matrix)
    requires WellShaped(a) && WellShaped(b) && a.cols == |b.rows|
    ensures WellShaped(p) && |p.rows| == |a.rows| && p.cols == b.cols
  {
    Matrix(b.cols, seq(|a.rows|, i requires 0 <= i < |a.rows| =>
      seq(b.cols, k requires 0 <= k < b.cols => Dot(a.rows[i], Column(b, k)))))
  }

  /** `diag_mul(a, b)`: `reduce_sum(a * transpose(b), 1)`, the row sums of the
      elementwise product of `a` with the transpose of `b`. */
  function DiagMul(a: Matrix, b: Matrix): (d: seq<real>)
    requires WellShaped(a) && WellShaped(b)
    requires |b.rows| == a.cols && b.cols == |a.rows|
    ensures |d| == |a.rows|
  {
    var bt := Transpose(b);
    seq(|a.rows|, i requires 0 <= i < |a.rows| => Sum(Products(a.rows[i], bt.rows[i])))
  }

  /** `diag_mul(a, b)` is the diagonal of the product `a @ b`. */
  lemma DiagMulIsDiagonal(a: Matrix, b: Matrix, i: nat)
    requires WellShaped(a) && WellShaped(b)
    requires |b.rows| == a.cols && b.cols == |a.rows|
    requires i < |a.rows|
    ensures DiagMul(a, b)[i] == MatMul(a, b).rows[i][i]
  {
    assert Transpose(b).rows[i] == Column(b, i);
  }

  /** `mat_square(m)`: `m @ transpose(m)`. */
  function MatSquare(m: Matrix): (s: Matrix)
    requires WellShaped(m)
    ensures WellShaped(s) && |s.rows| == |m.rows| && s.cols == |m.rows|
  {
    MatMul(m, Transpose(m))
  }

  lemma MatSquareEntry(m: Matrix, i: nat, j: nat)
    requires WellShaped(m) && i < |m.rows| && j < |m.rows|
    ensures MatSquare(m).rows[i][j] == Dot(m.rows[i], m.rows[j])
  {
    assert Column(Transpose(m), j) == m.rows[j];
  }

  lemma DotSymmetric(u: seq<real>, v: seq<real>)
    requires |u| == |v|
    ensures Dot(u, v) == Dot(v, u)
  {
    assert Products(u, v) == Products(v, u);
  }

  /** `mat_square(m)` is symmetric with a non-negative diagonal. */
  lemma MatSquareSymmetric(m: Matrix, i: nat, j: nat)
    requires WellShaped(m) && i < |m.rows| && j < |m.rows|
    ensures MatSquare(m).rows[i][j] == MatSquare(m).rows[j][i]
    ensures MatSquare(m).rows[i][i] >= 0.0
  {
    MatSquareEntry(m, i, j);
    MatSquareEntry(m, j, i);
    MatSquareEntry(m, i, i);
    DotSymmetric(m.rows[i], m.rows[j]);
    DotSelfNonNegative(m.rows[i]);
  }

  // ---------------------------------------------------------------------------
  // tri_vec_shape, vec_to_tri
  // ---------------------------------------------------------------------------

  /** 0 + 1 + ... + n: the number of entries on and below the diagonal of an n×n matrix. */
  function Triangle(n: nat): nat {
    if n == 0 then 0 else Triangle(n - 1) + n
  }

  lemma {:induction false} TriangleFormula(n: nat)
    ensures 2 * Triangle(n) == n * (n + 1)
  {
    if n > 0 {
      TriangleFormula(n - 1);
      assert n * (n + 1) == (n - 1) * n + 2 * n;
    }
  }

  lemma {:induction false} TriangleIncreasing(a: nat, b: nat)
    requires a < b
    ensures Triangle(a) < Triangle(b)
    decreases b
  {
    if a + 1 < b {
      TriangleIncreasing(a, b - 1);
    }
  }

  /** n(n+1) is even for every integer n, also a negative one. */
  lemma HalfProduct(n: int)
    ensures 2 * (n * (n + 1) / 2) == n * (n + 1)
  {
    var m: nat := if n >= 0 then n else -n - 1;
    TriangleFormula(m);
    if n < 0 {
      assert n * (n + 1) == (-n) * (-n - 1);
    }
    assert n * (n + 1) == 2 * Triangle(m);
  }

  /** `tri_vec_shape(N)`: the one-element shape of a packed N×N lower triangle. */
  function TriVecShape(n: int): (r: seq<int>)
    ensures |r| == 1 && 2 * r[0] == n * (n + 1)
  {
    HalfProduct(n);
    [n * (n + 1) / 2]
  }

  /** `np.tril_indices(N)` as (row, column) pairs: the positions on and below
      the diagonal, row by row. */
  function TrilIndices(n: nat): (r: seq<(nat, nat)>)
    ensures |r| == Triangle(n)
    ensures forall k :: 0 <= k < |r| ==> r[k].1 <= r[k].0 < n
  {
    if n == 0 then [] else TrilIndices(n - 1) + seq(n, j requires 0 <= j => (n - 1, j))
  }

  /** The packed length is the number of lower-triangle positions. */
  lemma TriVecShapeCountsPositions(n: nat)
    ensures TriVecShape(n)[0] == |TrilIndices(n)|
  {
    TriangleFormula(n);
  }

  /** Position (i, j) with j <= i is entry i(i+1)/2 + j of the enumeration. */
  lemma {:induction false} TrilIndicesAt(n: nat, i: nat, j: nat)
    requires j <= i < n
    ensures Triangle(i) + j < Triangle(n) && TrilIndices(n)[Triangle(i) + j] == (i, j)
  {
    if i < n - 1 {
      TrilIndicesAt(n - 1, i, j);
    }
  }

  /** ... and that is the only entry holding (i, j). */
  lemma {:induction false} TrilIndicesInverse(n: nat, k: nat)
    requires k < Triangle(n)
    ensures k == Triangle(TrilIndices(n)[k].0) + TrilIndices(n)[k].1
  {
    if k < Triangle(n - 1) {
      TrilIndicesInverse(n - 1, k);
    }
  }

  /** What `tf.scatter_nd` stores at (i, j): the sum of the updates whose
      index is (i, j), and 0 where no index names (i, j). */
  function CellSum(indices: seq<(nat, nat)>, updates: seq<real>, i: nat, j: nat): real
    requires |indices| == |updates|
  {
    if indices == [] then 0.0
    else (if indices[0] == (i, j) then updates[0] else 0.0) + CellSum(indices[1..], updates[1..], i, j)
  }

  /** When at most one index names (i, j), the cell holds that update or 0. */
  lemma {:induction false} CellSumUnique(indices: seq<(nat, nat)>, updates: seq<real>, i: nat, j: nat, p: int)
    requires |indices| == |updates|
    requires forall q :: 0 <= q < |indices| && indices[q] == (i, j) ==> q == p
    ensures CellSum(indices, updates, i, j) ==
            if 0 <= p < |indices| && indices[p] == (i, j) then updates[p] else 0.0
    decreases |indices|
  {
    if indices != [] {
      CellSumUnique(indices[1..], updates[1..], i, j, p - 1);
    }
  }

  /** `tf.scatter_nd(indices, updates, shape=[n, n])`. */
  function ScatterNd(indices: seq<(nat, nat)>, n: nat, updates: seq<real>): (m: seq<seq<real>>)
    requires |indices| == |updates|
    ensures |m| == n && forall i :: 0 <= i < n ==> |m[i]| == n
  {
    seq(n, i requires 0 <= i < n => seq(n, j requires 0 <= j < n => CellSum(indices, updates, i, j)))
  }

  /** `vec_to_tri_vector`: one packed vector scattered into an n×n matrix. */
  function TriMatrix(v: seq<real>, n: nat): (m: seq<seq<real>>)
    requires |v| == Triangle(n)
    ensures |m| == n && forall i :: 0 <= i < n ==> |m[i]| == n
  {
    ScatterNd(TrilIndices(n), n, v)
  }

  /** Packed entry i(i+1)/2 + j lands at (i, j) for j <= i; above the diagonal is 0. */
  lemma TriMatrixCell(v: seq<real>, n: nat, i: nat, j: nat)
    requires |v| == Triangle(n) && i < n && j < n
    ensures j <= i ==> Triangle(i) + j < |v|
    ensures TriMatrix(v, n)[i][j] == if j <= i then v[Triangle(i) + j] else 0.0
  {
    var idx := TrilIndices(n);
    var p := if j <= i then Triangle(i) + j else -1;
    forall q | 0 <= q < |idx| && idx[q] == (i, j) ensures q == p {
      TrilIndicesInverse(n, q);
    }
    if j <= i {
      TrilIndicesAt(n, i, j);
    }
    CellSumUnique(idx, v, i, j, p);
  }

  /** `vec_to_tri`: every row of the D×M array becomes the N×N lower-triangular
      matrix packed in it, where N is the largest integer with N(N+1)/2 <= M
      (what `floor(0.5 * sqrt(8M + 1) - 0.5)` computes); the assertion rejects
      an M that is not a triangle number. */
  function VecToTri(vectors: Matrix): (r: Result<seq<seq<seq<real>>>>)
    requires WellShaped(vectors)
    ensures r.Err? ==> r.error == AssertionError
    ensures r.Ok? ==> |r.value| == |vectors.rows| &&
                      TriRoot(vectors.cols) * (TriRoot(vectors.cols) + 1) == 2 * vectors.cols
  {
    var n := TriRoot(vectors.cols);
    if n * (n + 1) != 2 * vectors.cols then Err(AssertionError)
    else
      TriangleFormula(n);
      Ok(seq(|vectors.rows|, d requires 0 <= d < |vectors.rows| => TriMatrix(vectors.rows[d], n)))
  }

  function TriRootFrom(m: nat, k: nat): (n: nat)
    requires Triangle(k) <= m
    ensures Triangle(n) <= m < Triangle(n + 1)
    decreases m - Triangle(k)
  {
    if m < Triangle(k + 1) then k else TriRootFrom(m, k + 1)
  }

  /** The largest N with N(N+1)/2 <= M. */
  function TriRoot(m: nat): (n: nat)
    ensures Triangle(n) <= m < Triangle(n + 1)
  {
    TriRootFrom(m, 0)
  }

  lemma TriangleBetween(r: nat, n: nat)
    requires Triangle(r) <= Triangle(n) < Triangle(r + 1)
    ensures r == n
  {
    if r + 1 < n {
      TriangleIncreasing(r + 1, n);
    } else if r > n {
      TriangleIncreasing(n, r);
    }
  }

  lemma TriRootOfTriangle(n: nat)
    ensures TriRoot(Triangle(n)) == n
  {
    TriangleBetween(TriRoot(Triangle(n)), n);
  }

  /** `vec_to_tri` accepts exactly the arrays whose width is a triangle number. */
  lemma VecToTriAccepts(vectors: Matrix)
    requires WellShaped(vectors)
    ensures VecToTri(vectors).Ok? <==> exists n: nat :: Triangle(n) == vectors.cols
  {
    var r := TriRoot(vectors.cols);
    TriangleFormula(r);
    if n: nat :| Triangle(n) == vectors.cols {
      TriRootOfTriangle(n);
    }
  }

  /** Each accepted row unpacks with `vector[i(i+1)/2 + j]` at (i, j) for
      j <= i and zero above the diagonal. */
  lemma VecToTriCell(vectors: Matrix, d: nat, i: nat, j: nat)
    requires WellShaped(vectors) && VecToTri(vectors).Ok?
    requires d < |vectors.rows| && i < TriRoot(vectors.cols) && j < TriRoot(vectors.cols)
    ensures var n := TriRoot(vectors.cols);
            var m := VecToTri(vectors).value[d];
            |m| == n && |m[i]| == n &&
            (j <= i ==> i * (i + 1) / 2 + j < vectors.cols) &&
            m[i][j] == if j <= i then vectors.rows[d][i * (i + 1) / 2 + j] else 0.0
  {
    var n := TriRoot(vectors.cols);
    TriangleFormula(n);
    TriangleFormula(i);
    TriMatrixCell(vectors.rows[d], n, i, j);
  }

  /** Reads the lower triangle back, row by row. */
  function TriToVec(mat: seq<seq<real>>, n: nat): (v: seq<real>)
    requires |mat| == n && forall i :: 0 <= i < n ==> |mat[i]| == n
    ensures |v| == Triangle(n)
  {
    var idx := TrilIndices(n);
    seq(|idx|, k requires 0 <= k < |idx| => mat[idx[k].0][idx[k].1])
  }

  /** Unpacking then reading the lower triangle back returns the vector: every
      packed entry lands in a cell of its own. */
  lemma TriRoundTrip(v: seq<real>, n: nat)
    requires |v| == Triangle(n)
    ensures TriToVec(TriMatrix(v, n), n) == v
  {
    var idx := TrilIndices(n);
    var w := TriToVec(TriMatrix(v, n), n);
    forall k | 0 <= k < |v| ensures w[k] == v[k] {
      TrilIndicesInverse(n, k);
      TriMatrixCell(v, n, idx[k].0, idx[k].1);
    }
  }

  predicate LowerTriangular(mat: seq<seq<real>>, n: nat) {
    |mat| == n && (forall i :: 0 <= i < n ==> |mat[i]| == n) &&
    forall i, j :: 0 <= i < j < n ==> mat[i][j] == 0.0
  }

  /** Conversely, packing a lower-triangular matrix and unpacking it is exact. */
  lemma TriMatrixRoundTrip(mat: seq<seq<real>>, n: nat)
    requires LowerTriangular(mat, n)
    ensures LowerTriangular(TriMatrix(TriToVec(mat, n), n), n)
    ensures TriMatrix(TriToVec(mat, n), n) == mat
  {
    var v := TriToVec(mat, n);
    var m := TriMatrix(v, n);
    forall i, j | 0 <= i < n && 0 <= j < n ensures m[i][j] == mat[i][j] {
      TriMatrixCell(v, n, i, j);
      if j <= i {
        TrilIndicesAt(n, i, j);
      }
    }
    forall i | 0 <= i < n ensures m[i] == mat[i] {
    }
  }

  /** `vec_to_tri` as the file stands: it calls `np.floor`, `np.sqrt`,
      `np.stack` and `np.tril_indices`, but `np` is never imported. */
  function VecToTriAsWritten(vectors: Matrix): (r: Result<seq<seq<seq<real>>>>)
    requires WellShaped(vectors)
    ensures r.Err? && r.error.NameError?
  {
    Err(NameError("np"))
  }

  /** A one-row array of width 1 (N = 1) fails as written and unpacks once `np` is imported. */
  lemma VecToTriAsWrittenRejectsValidInput(x: real)
    ensures VecToTriAsWritten(Matrix(1, [[x]])).Err?
    ensures VecToTri(Matrix(1, [[x]])) == Ok([[[x]]])
  {
    var vectors := Matrix(1, [[x]]);
    assert Triangle(1) == 1;
    TriRootOfTriangle(1);
    VecToTriCell(vectors, 0, 0, 0);
    var r := VecToTri(vectors).value;
    assert |r| == 1 && |r[0]| == 1 && |r[0][0]| == 1;
    assert r[0][0] == [x];
    assert r[0] == [[x]];
    assert r == [[[x]]];
  }
}
