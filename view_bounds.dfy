/**
 * The cells the zero-fill visits for a view made by the view constructors
 * all lie in the base's buffer when every requested axis with a positive
 * extent fits its axis of the base. The walked axes of the view start are
 * not enough: the zero-fill also visits axes 1 and 2 and every higher axis
 * up to the first zero extent, whatever the start computation stopped at.
 */
module ViewBounds {
  import opened TensorTypes
  import opened TensorViews
  import opened Odometer
  import opened TensorZero

  /** Every requested axis with a positive extent fits its axis of the base. */
  predicate WindowFits(base: Tensor, ofs: seq<int>, dim: seq<int>)
    requires |base.info.dim| == MaxDim && |ofs| == MaxDim && |dim| == MaxDim
  {
    forall i :: 0 <= i < MaxDim && dim[i] > 0 ==> 0 <= ofs[i] && ofs[i] + dim[i] <= base.info.dim[i]
  }

  lemma {:induction false} LinPrefix(x: seq<int>, y: seq<int>, inc: seq<int>, n: nat)
    requires n <= |x| && n <= |y| && n <= |inc|
    requires forall k :: 0 <= k < n ==> x[k] == y[k]
    ensures Lin(x, inc, n) == Lin(y, inc, n)
  {
    if n > 0 {
      LinPrefix(x, y, inc, n - 1);
    }
  }

  /** Terms that vanish past n do not change the linear address. */
  lemma {:induction false} LinTail(y: seq<int>, inc: seq<int>, n: nat, m: nat)
    requires n <= m <= |y| && m <= |inc|
    requires forall j :: n <= j < m ==> y[j] * Prod(inc, j) == 0
    ensures Lin(y, inc, m) == Lin(y, inc, n)
    decreases m
  {
    if n < m {
      LinTail(y, inc, n, m - 1);
    }
  }

  /** Every stride past a zero extent is zero. */
  lemma {:induction false} ProdZeroPast(s: seq<int>, r: nat, k: nat)
    requires r < k <= |s| && s[r] == 0
    ensures Prod(s, k) == 0
    decreases k
  {
    if k > r + 1 {
      ProdZeroPast(s, r, k - 1);
    }
  }

  /**
   * The block offset from axis k is non-negative and at most the address of
   * the largest digits d[j] − 1 on the higher axes from k on.
   */
  lemma {:induction false} HOffBelow(d: seq<int>, inc: seq<int>, b: int, k: nat, m: seq<int>)
    requires Shape(d, inc) && forall i :: 0 <= i < MaxDim ==> inc[i] >= 0
    requires 3 <= k <= Top(d) && b >= 0 && |m| == MaxDim
    requires forall j :: 3 <= j < Top(d) ==> m[j] == d[j] - 1
    ensures 0 <= HOff(d, inc, b, k)
    ensures HOff(d, inc, b, k) + Lin(m, inc, k) <= Lin(m, inc, Top(d))
    decreases Top(d) - k
  {
    if k < Top(d) {
      var p := Prod(inc, k);
      ProdNonNegative(inc, k);
      MulLe(b % d[k], d[k] - 1, p);
      MulLe(0, b % d[k], p);
      HOffBelow(d, inc, b / d[k], k + 1, m);
    }
  }

  /** The largest index a cell of the zero-fill has on each axis. */
  function MaxIndex(d: seq<int>, j: nat): int
    requires |d| == MaxDim && forall i :: 0 <= i < MaxDim ==> d[i] >= 0
    requires j < MaxDim
  {
    if j == 0 then d[0] - 1
    else if j < 3 then AtLeastOne(d[j]) - 1
    else if j < Top(d) then d[j] - 1
    else 0
  }

  /** The largest indices of all axes. */
  function MaxIndices(d: seq<int>): (m: seq<int>)
    requires |d| == MaxDim && forall i :: 0 <= i < MaxDim ==> d[i] >= 0
    ensures |m| == MaxDim && forall j :: 0 <= j < MaxDim ==> m[j] == MaxIndex(d, j)
  {
    seq(MaxDim, j requires 0 <= j < MaxDim => MaxIndex(d, j))
  }

  /** The start offset projected on the walked axes. */
  function WalkedOfs(ofs: seq<int>, dim: seq<int>): (o: seq<int>)
    requires |ofs| == MaxDim && |dim| == MaxDim
    ensures |o| == MaxDim
    ensures forall j :: 0 <= j < MaxDim ==> o[j] == if j < ViewRank(dim) then ofs[j] else 0
  {
    seq(MaxDim, j requires 0 <= j < MaxDim => if j < ViewRank(dim) then ofs[j] else 0)
  }

  /** The far corner of the zero-filled region: start offset plus largest index, axis by axis. */
  function Corner(ofs: seq<int>, dim: seq<int>): (u: seq<int>)
    requires |ofs| == MaxDim && |dim| == MaxDim && forall i :: 0 <= i < MaxDim ==> dim[i] >= 0
    ensures |u| == MaxDim
    ensures forall j :: 0 <= j < MaxDim ==> u[j] == WalkedOfs(ofs, dim)[j] + MaxIndex(dim, j)
  {
    seq(MaxDim, j requires 0 <= j < MaxDim => WalkedOfs(ofs, dim)[j] + MaxIndex(dim, j))
  }

  /**
   * The corner stays below the base extent on every axis before the base's
   * rank, and is zero at the rank.
   */
  lemma CornerFits(base: Tensor, ofs: seq<int>, dim: seq<int>)
    requires WellFormedParams(base.info) && |ofs| == MaxDim && |dim| == MaxDim
    requires forall i :: 0 <= i < MaxDim ==> dim[i] >= 0
    requires WindowFits(base, ofs, dim) && dim[0] > 0
    ensures var inc, u := base.info.dim, Corner(ofs, dim);
            var r := Rank(inc);
            && (forall k :: 0 <= k < r ==> 0 <= u[k] < inc[k])
            && (r < MaxDim ==> u[r] == 0)
  {
    var inc, u := base.info.dim, Corner(ofs, dim);
    var r := Rank(inc);
    var o := WalkedOfs(ofs, dim);
    var vr := ViewRank(dim);
    forall k | 0 <= k < r
      ensures 0 <= u[k] < inc[k]
    {
      assert inc[k] > 0;
      if dim[k] > 0 {
        assert 0 <= MaxIndex(dim, k) <= dim[k] - 1;
        assert 0 <= o[k] <= ofs[k];
      } else {
        assert k >= vr;
        assert o[k] == 0 && MaxIndex(dim, k) == 0;
      }
    }
    if r < MaxDim {
      assert inc[r] == 0;
      assert dim[r] == 0;
      assert r >= vr;
    }
  }

  /** The corner's address is below the base's element count. */
  lemma CornerAddress(base: Tensor, ofs: seq<int>, dim: seq<int>)
    requires WellFormedParams(base.info) && |ofs| == MaxDim && |dim| == MaxDim
    requires forall i :: 0 <= i < MaxDim ==> dim[i] >= 0
    requires WindowFits(base, ofs, dim) && dim[0] > 0
    ensures var inc := base.info.dim;
            Lin(WalkedOfs(ofs, dim), inc, MaxDim) + Lin(MaxIndices(dim), inc, MaxDim) < ElementCount(inc)
  {
    var inc, u := base.info.dim, Corner(ofs, dim);
    var r := Rank(inc);
    LinAdd(WalkedOfs(ofs, dim), MaxIndices(dim), u, inc, MaxDim);
    CornerFits(base, ofs, dim);
    forall j | r <= j < MaxDim
      ensures u[j] * Prod(inc, j) == 0
    {
      if j > r {
        ProdZeroPast(inc, r, j);
      }
    }
    LinTail(u, inc, r, MaxDim);
    LinBound(u, inc, r);
  }

  /** The view's start is the walked offset's address over all axes, and is non-negative. */
  lemma StartAddress(base: Tensor, ofs: seq<int>, dim: seq<int>)
    requires WellFormedParams(base.info) && |ofs| == MaxDim && |dim| == MaxDim
    requires WindowFits(base, ofs, dim)
    ensures var inc := base.info.dim;
            0 <= ViewStart(ofs, inc, dim) == Lin(WalkedOfs(ofs, dim), inc, MaxDim)
  {
    var inc, o, vr := base.info.dim, WalkedOfs(ofs, dim), ViewRank(dim);
    LinPrefix(ofs, o, inc, vr);
    LinTail(o, inc, vr, MaxDim);
    LinBound(ofs, inc, vr);
  }

  /**
   * The within-block part of a cell: the block offset and the plane, row
   * and column terms, bounded by the address of the largest indices.
   */
  lemma BlockPartBound(d: seq<int>, inc: seq<int>, b: int, i2: int, i1: int, i0: int)
    requires Shape(d, inc) && forall i :: 0 <= i < MaxDim ==> inc[i] >= 0
    requires 0 <= b && 0 <= i2 < AtLeastOne(d[2])
    requires 0 <= i1 < AtLeastOne(d[1]) && 0 <= i0 < d[0]
    ensures var x := HOff(d, inc, b, 3) + i2 * inc[1] * inc[0] + i1 * inc[0] + i0;
            0 <= x <= Lin(MaxIndices(d), inc, MaxDim)
  {
    var m := MaxIndices(d);
    HOffBelow(d, inc, b, 3, m);
    LinTail(m, inc, Top(d), MaxDim);
    var p1, p2 := Prod(inc, 1), Prod(inc, 2);
    assert p1 == inc[0] && p2 == inc[0] * inc[1];
    ProdNonNegative(inc, 2);
    assert Lin(m, inc, 1) == m[0] by {
      assert Lin(m, inc, 1) == Lin(m, inc, 0) + m[0] * Prod(inc, 0);
    }
    assert Lin(m, inc, 2) == Lin(m, inc, 1) + m[1] * p1;
    assert Lin(m, inc, 3) == Lin(m, inc, 2) + m[2] * p2;
    assert i2 * inc[1] * inc[0] == i2 * p2;
    MulLe(i2, m[2], p2);
    MulLe(i1, m[1], p1);
    MulLe(0, i2, p2);
    MulLe(0, i1, p1);
  }

  /**
   * One cell of the zero-fill of a view over `base`: it lies among the
   * base's ElementCount cells from the base's data pointer.
   */
  lemma CellInBase(base: Tensor, ofs: seq<int>, dim: seq<int>, b: int, i2: int, i1: int, i0: int)
    requires WellFormedParams(base.info) && |ofs| == MaxDim && |dim| == MaxDim
    requires forall i :: 0 <= i < MaxDim ==> dim[i] >= 0
    requires WindowFits(base, ofs, dim)
    requires 0 <= b && 0 <= i2 < AtLeastOne(dim[2])
    requires 0 <= i1 < AtLeastOne(dim[1]) && 0 <= i0 < dim[0]
    ensures var v := ViewNew(base, ofs, dim);
            && ViewShaped(v)
            && base.data.offset <= Cell(v, b, i2, i1, i0) < base.data.offset + ElementCount(base.info.dim)
  {
    var inc := base.info.dim;
    StartAddress(base, ofs, dim);
    BlockPartBound(dim, inc, b, i2, i1, i0);
    CornerAddress(base, ofs, dim);
  }

  /**
   * The zero-fill's precondition holds for a view made by the constructor
   * whenever the window fits on every positive axis and the base's cells
   * are in the buffer.
   */
  lemma ViewNewCellsInside(base: Tensor, ofs: seq<int>, dim: seq<int>, n: int)
    requires WellFormedParams(base.info) && |ofs| == MaxDim && |dim| == MaxDim
    requires forall i :: 0 <= i < MaxDim ==> dim[i] >= 0
    requires WindowFits(base, ofs, dim)
    requires 0 <= base.data.offset && base.data.offset + ElementCount(base.info.dim) <= n
    ensures ViewShaped(ViewNew(base, ofs, dim))
    ensures CellsInside(ViewNew(base, ofs, dim), n)
  {
    var v := ViewNew(base, ofs, dim);
    forall b, i2, i1, i0 |
      && 0 <= b < BlockCount(v.info.dim) && 0 <= i2 < AtLeastOne(v.info.dim[2])
      && 0 <= i1 < AtLeastOne(v.info.dim[1]) && 0 <= i0 < v.info.dim[0]
      ensures 0 <= Cell(v, b, i2, i1, i0) < n
    {
      CellInBase(base, ofs, dim, b, i2, i1, i0);
    }
  }

  /**
   * Fitting only the walked axes is not enough for the zero-fill: with
   * requested extents [2, 0, 3] over a 4 × 4 base the start computation
   * stops at axis 1, but the zero-fill still visits three planes 16 cells
   * apart.
   */
  lemma WalkedAxesNotEnough()
    ensures var base := Tensor(TypeTag({}, F32, 0), 0, 1,
                               Params(CpuMemory, NHWC, F32, [4, 4, 0, 0, 0, 0, 0, 0]), Addr(0, 0));
            var ofs, dim := [0, 0, 0, 0, 0, 0, 0, 0], [2, 0, 3, 0, 0, 0, 0, 0];
            var v := ViewNew(base, ofs, dim);
            && ViewFits(base, ofs, dim) && !WindowFits(base, ofs, dim)
            && ViewShaped(v) && ElementCount(base.info.dim) == 16
            && !CellsInside(v, 16)
  {
    var base := Tensor(TypeTag({}, F32, 0), 0, 1,
                       Params(CpuMemory, NHWC, F32, [4, 4, 0, 0, 0, 0, 0, 0]), Addr(0, 0));
    var ofs, dim := [0, 0, 0, 0, 0, 0, 0, 0], [2, 0, 3, 0, 0, 0, 0, 0];
    var v := ViewNew(base, ofs, dim);
    assert ViewRank(dim) == 1;
    assert Rank(base.info.dim) == 2;
    assert BlockCount(dim) == 1 && HOff(dim, v.inc, 0, 3) == 0;
    assert Cell(v, 0, 2, 0, 0) == 32;
  }
}
