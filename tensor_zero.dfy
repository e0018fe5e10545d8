/**
 * ccv_nnc_tensor_zero: a plain tensor is cleared with one bulk write; a view
 * is cleared block by block (axes 3 and up, through the odometer), plane by
 * plane (axis 2) and row by row (axis 1), each row a run of dim[0] cells,
 * leaving the stride padding between rows, planes and blocks untouched.
 * The buffer is the allocation block the descriptor's data points into,
 * indexed by element; cell values are abstracted to integers.
 */
module TensorZero {
  import opened TensorTypes
  import opened Odometer

  /** ccv_max(1, n): axes 1 and 2 of a view are walked at least once. */
  function AtLeastOne(n: int): (r: int)
    ensures r >= 1 && r >= n && (n >= 1 ==> r == n)
    ensures r == 1 || r == n
  {
    if n < 1 then 1 else n
  }

  /** A view's shape and strides have all MaxDim slots and no negative extent. */
  predicate ViewShaped(v: Tensor)
  {
    v.TensorView? && Shape(v.info.dim, v.inc)
  }

  /**
   * The buffer cell of element (i0, i1, i2) of block b of a view: the view's
   * start, the offset of block b over the higher axes, and the row and plane
   * strides inc[0] and inc[1] × inc[0].
   */
  function Cell(v: Tensor, b: int, i2: int, i1: int, i0: int): int
    requires ViewShaped(v) && b >= 0
  {
    v.data.offset + HOff(v.info.dim, v.inc, b, 3) + i2 * v.inc[1] * v.inc[0] + i1 * v.inc[0] + i0
  }

  /** Cell j is one of the first n1 rows of plane i2 of block b. */
  ghost predicate RowsDone(v: Tensor, b: int, i2: int, n1: int, j: int)
    requires ViewShaped(v) && b >= 0
  {
    exists i1, i0 :: 0 <= i1 < n1 && 0 <= i0 < v.info.dim[0] && j == Cell(v, b, i2, i1, i0)
  }

  /** Cell j is in one of the first n2 planes of block b. */
  ghost predicate PlanesDone(v: Tensor, b: int, n2: int, j: int)
    requires ViewShaped(v) && b >= 0
  {
    exists i2, i1, i0 ::
      && 0 <= i2 < n2 && 0 <= i1 < AtLeastOne(v.info.dim[1]) && 0 <= i0 < v.info.dim[0]
      && j == Cell(v, b, i2, i1, i0)
  }

  /** Cell j is in one of the first n blocks. */
  ghost predicate BlocksDone(v: Tensor, n: int, j: int)
    requires ViewShaped(v)
  {
    exists b, i2, i1, i0 ::
      && 0 <= b < n && 0 <= i2 < AtLeastOne(v.info.dim[2])
      && 0 <= i1 < AtLeastOne(v.info.dim[1]) && 0 <= i0 < v.info.dim[0]
      && j == Cell(v, b, i2, i1, i0)
  }

  /**
   * Cell j belongs to the view: 0 <= i0 < dim[0], 0 <= i1 < max(1, dim[1]),
   * 0 <= i2 < max(1, dim[2]) and b ranges over the blocks of the higher axes.
   */
  ghost predicate InView(v: Tensor, j: int)
    requires ViewShaped(v)
  {
    BlocksDone(v, BlockCount(v.info.dim), j)
  }

  /** The precondition the zero-fill leaves to its caller: every cell of the view is in the buffer. */
  ghost predicate CellsInside(v: Tensor, n: int)
    requires ViewShaped(v)
  {
    forall b, i2, i1, i0 ::
      && 0 <= b < BlockCount(v.info.dim) && 0 <= i2 < AtLeastOne(v.info.dim[2])
      && 0 <= i1 < AtLeastOne(v.info.dim[1]) && 0 <= i0 < v.info.dim[0]
      ==> 0 <= Cell(v, b, i2, i1, i0) < n
  }

  lemma RowStep(v: Tensor, b: int, i2: int, n1: int, j: int)
    requires ViewShaped(v) && b >= 0 && n1 >= 0
    ensures var p := Cell(v, b, i2, n1, 0);
            RowsDone(v, b, i2, n1 + 1, j) <==> RowsDone(v, b, i2, n1, j) || p <= j < p + v.info.dim[0]
  {
    var p := Cell(v, b, i2, n1, 0);
    if p <= j < p + v.info.dim[0] {
      assert j == Cell(v, b, i2, n1, j - p);
    }
    if RowsDone(v, b, i2, n1 + 1, j) {
      var i1, i0 :| 0 <= i1 < n1 + 1 && 0 <= i0 < v.info.dim[0] && j == Cell(v, b, i2, i1, i0);
      if i1 < n1 {
        assert RowsDone(v, b, i2, n1, j);
      }
    }
  }

  lemma PlaneStep(v: Tensor, b: int, n2: int, j: int)
    requires ViewShaped(v) && b >= 0 && n2 >= 0
    ensures PlanesDone(v, b, n2 + 1, j) <==>
            PlanesDone(v, b, n2, j) || RowsDone(v, b, n2, AtLeastOne(v.info.dim[1]), j)
  {
    if PlanesDone(v, b, n2 + 1, j) {
      var i2, i1, i0 :|
        && 0 <= i2 < n2 + 1 && 0 <= i1 < AtLeastOne(v.info.dim[1]) && 0 <= i0 < v.info.dim[0]
        && j == Cell(v, b, i2, i1, i0);
      if i2 < n2 {
        assert PlanesDone(v, b, n2, j);
      } else {
        assert RowsDone(v, b, n2, AtLeastOne(v.info.dim[1]), j);
      }
    }
    if RowsDone(v, b, n2, AtLeastOne(v.info.dim[1]), j) {
      var i1, i0 :| 0 <= i1 < AtLeastOne(v.info.dim[1]) && 0 <= i0 < v.info.dim[0] && j == Cell(v, b, n2, i1, i0);
      assert PlanesDone(v, b, n2 + 1, j);
    }
  }

  lemma BlockStep(v: Tensor, n: int, j: int)
    requires ViewShaped(v) && n >= 0
    ensures BlocksDone(v, n + 1, j) <==>
            BlocksDone(v, n, j) || PlanesDone(v, n, AtLeastOne(v.info.dim[2]), j)
  {
    var r2 := AtLeastOne(v.info.dim[2]);
    if BlocksDone(v, n + 1, j) {
      var b, i2, i1, i0 :|
        && 0 <= b < n + 1 && 0 <= i2 < r2
        && 0 <= i1 < AtLeastOne(v.info.dim[1]) && 0 <= i0 < v.info.dim[0]
        && j == Cell(v, b, i2, i1, i0);
      if b < n {
        assert BlocksDone(v, n, j);
      } else {
        assert PlanesDone(v, n, r2, j);
      }
    }
    if PlanesDone(v, n, r2, j) {
      var i2, i1, i0 :|
        && 0 <= i2 < r2 && 0 <= i1 < AtLeastOne(v.info.dim[1]) && 0 <= i0 < v.info.dim[0]
        && j == Cell(v, n, i2, i1, i0);
      assert BlocksDone(v, n + 1, j);
    }
  }

  /** memset over n cells from p. */
  method ZeroRun(a: array<int>, p: int, n: int)
    requires n >= 0
    requires n > 0 ==> 0 <= p && p + n <= a.Length
    modifies a
    ensures forall j :: 0 <= j < a.Length ==> a[j] == if p <= j < p + n then 0 else old(a[j])
  {
    var k := 0;
    while k < n
      invariant 0 <= k <= n
      invariant forall j :: 0 <= j < a.Length ==> a[j] == if p <= j < p + k then 0 else old(a[j])
    {
      a[p + k] := 0;
      k := k + 1;
    }
  }

  /** The plane and row loops over `i[2]` and `i[1]` for block b, whose first cell is p. */
  method ZeroBlock(v: Tensor, a: array<int>, p: int, ghost b: int)
    requires ViewShaped(v) && CellsInside(v, a.Length)
    requires 0 <= b < BlockCount(v.info.dim) && p == Cell(v, b, 0, 0, 0)
    modifies a
    ensures forall j :: 0 <= j < a.Length ==>
              a[j] == if PlanesDone(v, b, AtLeastOne(v.info.dim[2]), j) then 0 else old(a[j])
  {
    var d, inc := v.info.dim, v.inc;
    var i2 := 0;
    while i2 < AtLeastOne(d[2])
      invariant 0 <= i2 <= AtLeastOne(d[2])
      invariant forall j :: 0 <= j < a.Length ==> a[j] == if PlanesDone(v, b, i2, j) then 0 else old(a[j])
    {
      var tvp := p + i2 * inc[1] * inc[0];
      var i1 := 0;
      while i1 < AtLeastOne(d[1])
        invariant 0 <= i1 <= AtLeastOne(d[1])
        invariant tvp == Cell(v, b, i2, i1, 0)
        invariant forall j :: 0 <= j < a.Length ==>
                    a[j] == if PlanesDone(v, b, i2, j) || RowsDone(v, b, i2, i1, j) then 0 else old(a[j])
      {
        if d[0] > 0 {
          assert 0 <= Cell(v, b, i2, i1, 0) && Cell(v, b, i2, i1, d[0] - 1) < a.Length;
        }
        ZeroRun(a, tvp, d[0]);
        forall j | 0 <= j < a.Length
          ensures RowsDone(v, b, i2, i1 + 1, j) <==> RowsDone(v, b, i2, i1, j) || tvp <= j < tvp + d[0]
        {
          RowStep(v, b, i2, i1, j);
        }
        tvp := tvp + inc[0];
        i1 := i1 + 1;
      }
      forall j | 0 <= j < a.Length
        ensures PlanesDone(v, b, i2 + 1, j) <==> PlanesDone(v, b, i2, j) || RowsDone(v, b, i2, AtLeastOne(d[1]), j)
      {
        PlaneStep(v, b, i2, j);
      }
      i2 := i2 + 1;
    }
  }

  /** The periods grow by one extent per higher axis, starting from d[3]. */
  lemma PeriodNext(d: seq<int>, c: nat)
    requires |d| == MaxDim && forall i :: 0 <= i < MaxDim ==> d[i] >= 0
    requires 3 <= c < Top(d)
    ensures Period(d, 3, c - 3) == if c == 3 then d[3] else Period(d, 3, c - 4) * d[c]
  {
    assert Span(d, 3, 3) == 1;
  }

  /**
   * The upward `for` loop of the strided path: the periods mod[j]
   * of the higher axes, the block count, dim_count, and the stride products
   * in mod_inc.
   */
  method UpPass(d: seq<int>, inc: seq<int>)
    returns (mods: array<int>, modInc: array<int>, count: int, dimCount: int)
    requires Shape(d, inc)
    ensures fresh(mods) && fresh(modInc)
    ensures mods.Length == MaxDim - 3 && modInc.Length == MaxDim - 2
    ensures count == BlockCount(d) && dimCount == Higher(d)
    ensures forall j :: 0 <= j < dimCount ==> mods[j] == Period(d, 3, j)
    ensures forall m :: 0 <= m <= dimCount ==> modInc[m] == Prod(inc, m + 3)
  {
    mods := new int[MaxDim - 3];
    modInc := new int[MaxDim - 2];
    modInc[0] := inc[0] * inc[1] * inc[2];
    assert Prod(inc, 1) == inc[0];
    assert Prod(inc, 2) == Prod(inc, 1) * inc[1];
    assert Prod(inc, 3) == Prod(inc, 2) * inc[2];
    assert modInc[0] == Prod(inc, 3);
    count := 1;
    dimCount := 0;
    var c := 3;
    while c < MaxDim && d[c] > 0
      invariant 3 <= c <= Top(d)
      invariant dimCount == c - 3 && count == Span(d, 3, c)
      invariant forall j :: 0 <= j < c - 3 ==> mods[j] == Period(d, 3, j)
      invariant forall m :: 0 <= m <= c - 3 ==> modInc[m] == Prod(inc, m + 3)
    {
      PeriodNext(d, c);
      mods[c - 3] := if c == 3 then d[c] else mods[c - 4] * d[c];
      modInc[c - 2] := modInc[c - 3] * inc[c];
      count := count * d[c];
      dimCount := c - 2;
      c := c + 1;
    }
  }

  /**
   * The downward `for` loop over mod_inc, corrected: slot c of mod_inc becomes
   * the gap of axis c+2, the padding skipped once that axis wraps around.
   */
  method DownPass(d: seq<int>, inc: seq<int>, modInc: array<int>, dimCount: int)
    requires Shape(d, inc) && dimCount == Higher(d) && modInc.Length == MaxDim - 2
    requires forall m :: 0 <= m <= dimCount ==> modInc[m] == Prod(inc, m + 3)
    modifies modInc
    ensures forall m :: 0 <= m <= dimCount ==> modInc[m] == GapTable(d, inc)[m]
  {
    ghost var table := GapTable(d, inc);
    var c := dimCount - 1;
    while c > 0
      invariant -1 <= c < AtLeastOne(dimCount)
      invariant forall m :: 0 <= m <= c || m == dimCount ==> modInc[m] == Prod(inc, m + 3)
      invariant forall m :: c < m < dimCount ==> modInc[m] == table[m]
    {
      modInc[c] := modInc[c - 1] * (inc[c + 2] - d[c + 2]);
      c := c - 1;
    }
  }

  /**
   * The strided path of ccv_nnc_tensor_zero: clear one block per count and
   * advance the block pointer by the block step and the carries. The step
   * table is the one DownPass builds, with the gap of the axis that wraps;
   * with the downward loop as written the pointer can leave the view's
   * blocks (Odometer.AsWrittenMissesCell), so this exact result holds for
   * the corrected downward pass.
   */
  method ZeroView(v: Tensor, a: array<int>)
    requires ViewShaped(v) && CellsInside(v, a.Length)
    modifies a
    ensures forall j :: 0 <= j < a.Length ==> a[j] == if InView(v, j) then 0 else old(a[j])
  {
    var d, inc := v.info.dim, v.inc;
    var mods, modInc, count, dimCount := UpPass(d, inc);
    DownPass(d, inc, modInc, dimCount);
    ghost var table := GapTable(d, inc);
    var c;
    assert forall j :: 0 <= j < a.Length ==> !BlocksDone(v, 0, j);
    ghost var start := v.data.offset;
    var tvdf32 := v.data.offset;
    c := 0;
    while c < count
      modifies a
      invariant 0 <= c <= count
      invariant tvdf32 == Walk(d, table, start, c)
      invariant forall j :: 0 <= j < a.Length ==> a[j] == if BlocksDone(v, c, j) then 0 else old(a[j])
    {
      WalkFollowsBlocks(d, inc, start, c);
      HOffZero(d, inc, 3);
      ZeroBlock(v, a, tvdf32, c);
      forall j | 0 <= j < a.Length
        ensures BlocksDone(v, c + 1, j) <==> BlocksDone(v, c, j) || PlanesDone(v, c, AtLeastOne(d[2]), j)
      {
        BlockStep(v, c, j);
      }
      tvdf32 := tvdf32 + modInc[0];
      var j := 0;
      while j < dimCount - 1
        invariant 0 <= j
        invariant tvdf32 + CarrySum(d, table, c + 1, j) == Walk(d, table, start, c + 1)
      {
        if (c + 1) % mods[j] != 0 {
          break;
        }
        tvdf32 := tvdf32 + modInc[j + 1];
        j := j + 1;
      }
      c := c + 1;
    }
  }

  /**
   * ccv_nnc_tensor_zero. A plain tensor clears its first ElementCount cells;
   * a view clears exactly its cells, through ZeroView and its corrected
   * downward pass. Nothing else in the buffer changes.
   */
  method Zero(t: Tensor, a: array<int>)
    requires LayoutAgrees(t)
    requires !IsView(t) ==> CountedExtents(t.info)
    requires !IsView(t) ==> 0 <= t.data.offset && t.data.offset + ElementCount(t.info.dim) <= a.Length
    requires IsView(t) ==> ViewShaped(t) && CellsInside(t, a.Length)
    modifies a
    ensures !IsView(t) ==> forall j :: 0 <= j < a.Length ==>
              a[j] == if t.data.offset <= j < t.data.offset + ElementCount(t.info.dim) then 0 else old(a[j])
    ensures IsView(t) ==> forall j :: 0 <= j < a.Length ==>
              a[j] == if InView(t, j) then 0 else old(a[j])
  {
    if !IsView(t) {
      ProdNonNegative(t.info.dim, Rank(t.info.dim));
      ZeroRun(a, t.data.offset, ElementCount(t.info.dim));
      return;
    }
    ZeroView(t, a);
  }
}
