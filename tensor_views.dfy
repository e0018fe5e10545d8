/**
 * The view engine: a view aliases its base's buffer, keeps the base's
 * extents as its stride array `inc`, records the requested extents as its
 * own shape, and starts at the fastest-axis-first offset of `ofs`.
 */
module TensorViews {
  import opened TensorTypes

  /** Number of leading requested axes with a positive extent (the loop guard `dim[i] > 0`). */
  function ViewRankFrom(dim: seq<int>, i: nat): (r: nat)
    requires i <= |dim|
    ensures i <= r <= |dim|
    ensures forall k :: i <= k < r ==> dim[k] > 0
    ensures r < |dim| ==> dim[r] <= 0
    decreases |dim| - i
  {
    if i == |dim| || dim[i] <= 0 then i else ViewRankFrom(dim, i + 1)
  }

  function ViewRank(dim: seq<int>): (r: nat)
    ensures r <= |dim|
    ensures forall k :: 0 <= k < r ==> dim[k] > 0
    ensures r < |dim| ==> dim[r] <= 0
  {
    ViewRankFrom(dim, 0)
  }

  /** The linear address Σ_{k<n} x[k] × Π_{m<k} inc[m] of an index vector x over strides inc. */
  function Lin(x: seq<int>, inc: seq<int>, n: nat): int
    requires n <= |x| && n <= |inc|
  {
    if n == 0 then 0 else Lin(x, inc, n - 1) + x[n - 1] * Prod(inc, n - 1)
  }

  /** The element offset of a view's first cell from its base's data pointer. */
  function ViewStart(ofs: seq<int>, inc: seq<int>, dim: seq<int>): int
    requires |ofs| == MaxDim && |inc| == MaxDim && |dim| == MaxDim
  {
    Lin(ofs, inc, ViewRank(dim))
  }

  /**
   * _ccv_nnc_tensor_view_set: copy the base extents into `inc`, the requested
   * extents into the view's shape, and walk the axes fastest first to the
   * view's start.
   */
  method ViewSet(tv: Tensor, base: Tensor, ofs: seq<int>, dim: seq<int>) returns (r: Tensor)
    requires tv.TensorView?
    requires |base.info.dim| == MaxDim && |ofs| == MaxDim && |dim| == MaxDim
    ensures r.TensorView?
    ensures r.ttype == tv.ttype && r.sig == tv.sig && r.refcount == tv.refcount
    ensures r.inc == base.info.dim
    ensures r.info == tv.info.(dim := dim)
    ensures r.data == Addr(base.data.block, base.data.offset + ViewStart(ofs, base.info.dim, dim))
  {
    var inc := base.info.dim;
    var p := base.data.offset;
    var stride := 1;
    var i := 0;
    while i < MaxDim && dim[i] > 0
      invariant 0 <= i <= ViewRank(dim)
      invariant p == base.data.offset + Lin(ofs, inc, i)
      invariant stride == Prod(inc, i)
    {
      p := p + ofs[i] * stride;
      stride := stride * inc[i];
      i := i + 1;
    }
    r := tv.(inc := inc, info := tv.info.(dim := dim), data := Addr(base.data.block, p));
  }

  /**
   * ccv_nnc_tensor_view_new: a fresh view descriptor over `base`; its type is
   * the base's with the channel bits cleared and the VIEW bit added.
   */
  function ViewNew(base: Tensor, ofs: seq<int>, dim: seq<int>): (v: Tensor)
    requires |base.info.dim| == MaxDim && |ofs| == MaxDim && |dim| == MaxDim
    ensures v.TensorView? && IsView(v) && LayoutAgrees(v) && !IsDenseMatrix(v)
    ensures v.ttype.flags == base.ttype.flags + {ViewFlag}
    ensures v.ttype.dtype == base.ttype.dtype && v.ttype.channels == 0
    ensures v.refcount == 1 && v.sig == 0
    ensures v.inc == base.info.dim
    ensures v.info == base.info.(dim := dim)
    ensures v.data.block == base.data.block
    ensures v.data.offset == base.data.offset + ViewStart(ofs, base.info.dim, dim)
  {
    TensorView(TypeTag(base.ttype.flags + {ViewFlag}, base.ttype.dtype, 0), 0, 1,
               base.info.(dim := dim),
               Addr(base.data.block, base.data.offset + ViewStart(ofs, base.info.dim, dim)),
               base.info.dim)
  }

  /**
   * ccv_nnc_tensor_view: the by-value view, which insists that the base is
   * not itself a view and otherwise computes the same descriptor.
   */
  function ViewByValue(base: Tensor, ofs: seq<int>, dim: seq<int>): (v: Tensor)
    requires |base.info.dim| == MaxDim && |ofs| == MaxDim && |dim| == MaxDim
    requires !IsView(base)
    ensures v == ViewNew(base, ofs, dim)
    ensures v.ttype.flags - {ViewFlag} == base.ttype.flags
  {
    ViewNew(base, ofs, dim)
  }

  /** The precondition the view constructors leave to their callers: the selected box fits each axis. */
  predicate ViewFits(base: Tensor, ofs: seq<int>, dim: seq<int>)
    requires |base.info.dim| == MaxDim && |ofs| == MaxDim && |dim| == MaxDim
  {
    forall i :: 0 <= i < ViewRank(dim) ==> 0 <= ofs[i] && ofs[i] + dim[i] <= base.info.dim[i]
  }

  /** An index vector selects a cell of the requested box. */
  predicate InBox(idx: seq<int>, dim: seq<int>)
    requires |idx| == MaxDim && |dim| == MaxDim
  {
    forall i :: 0 <= i < ViewRank(dim) ==> 0 <= idx[i] < dim[i]
  }

  /** Linear addressing is additive in the index vector. */
  lemma {:induction false} LinAdd(a: seq<int>, b: seq<int>, s: seq<int>, inc: seq<int>, n: nat)
    requires n <= |a| && n <= |b| && n <= |s| && n <= |inc|
    requires forall k :: 0 <= k < n ==> s[k] == a[k] + b[k]
    ensures Lin(s, inc, n) == Lin(a, inc, n) + Lin(b, inc, n)
  {
    if n > 0 {
      LinAdd(a, b, s, inc, n - 1);
      var p := Prod(inc, n - 1);
      assert s[n - 1] * p == a[n - 1] * p + b[n - 1] * p;
    }
  }

  /** Mixed-radix bound: digits below their strides address a cell below the next stride. */
  lemma {:induction false} LinBound(x: seq<int>, inc: seq<int>, n: nat)
    requires n <= |x| && n <= |inc|
    requires forall k :: 0 <= k < n ==> 0 <= x[k] < inc[k]
    ensures 0 <= Lin(x, inc, n) < Prod(inc, n)
  {
    if n > 0 {
      LinBound(x, inc, n - 1);
      var p := Prod(inc, n - 1);
      ProdPositive(inc, n - 1);
      MulLe(x[n - 1], inc[n - 1] - 1, p);
      assert (inc[n - 1] - 1) * p == inc[n - 1] * p - p;
      assert 0 <= x[n - 1] * p;
    }
  }

  /**
   * When the requested box fits the base, the view's start and every cell
   * of its box lie inside the base's buffer of ElementCount cells.
   */
  lemma ViewCellInside(base: Tensor, ofs: seq<int>, dim: seq<int>, idx: seq<int>)
    requires WellFormedParams(base.info)
    requires |ofs| == MaxDim && |dim| == MaxDim && |idx| == MaxDim
    requires ViewFits(base, ofs, dim)
    requires InBox(idx, dim)
    ensures 0 <= ViewStart(ofs, base.info.dim, dim)
    ensures 0 <= ViewStart(ofs, base.info.dim, dim) + Lin(idx, base.info.dim, ViewRank(dim))
               < ElementCount(base.info.dim)
  {
    var inc := base.info.dim;
    var r := ViewRank(dim);
    var x := seq(MaxDim, k requires 0 <= k < MaxDim => ofs[k] + idx[k]);
    LinAdd(ofs, idx, x, inc, r);
    LinBound(x, inc, r);
    LinBound(ofs, inc, r);
    assert r <= Rank(inc);
    ProdMonotone(inc, r, Rank(inc));
  }
}
