/**
 * The constructors, the view engine and the zero-fill composed on one
 * small case: a 2 × 2 window at (1, 1) of a freshly allocated 4 × 4 host
 * tensor.
 */
module TensorScenario {
  import opened TensorTypes
  import opened TensorAlloc
  import opened TensorViews
  import opened Odometer
  import opened TensorZero

  /**
   * The view starts 1 + 1 × 4 = 5 cells into the base's block, and zeroing it
   * clears exactly cells 5, 6, 9 and 10 of the base's 16.
   */
  lemma {:induction false} WindowOfSquare(legacy: Legacy, block: nat)
    ensures var params := Params(CpuMemory, NHWC, F32, [4, 4, 0, 0, 0, 0, 0, 0]);
            var base := TensorNew(None, params, {CpuFlag}, legacy, block);
            var v := ViewNew(base, [1, 1, 0, 0, 0, 0, 0, 0], [2, 2, 0, 0, 0, 0, 0, 0]);
            && ElementCount(base.info.dim) == 16
            && v.data == Addr(block, 5)
            && ViewShaped(v) && CellsInside(v, 16)
            && forall j :: InView(v, j) <==> j in {5, 6, 9, 10}
  {
    var params := Params(CpuMemory, NHWC, F32, [4, 4, 0, 0, 0, 0, 0, 0]);
    var base := TensorNew(None, params, {CpuFlag}, legacy, block);
    assert !Bridges(params, legacy);
    assert base.info.dim == [4, 4, 0, 0, 0, 0, 0, 0];
    assert Rank(base.info.dim) == 2;
    var ofs, dim := [1, 1, 0, 0, 0, 0, 0, 0], [2, 2, 0, 0, 0, 0, 0, 0];
    var v := ViewNew(base, ofs, dim);
    assert ViewRank(dim) == 2;
    assert ViewStart(ofs, base.info.dim, dim) == 5;
    assert Top(v.info.dim) == 3 && BlockCount(v.info.dim) == 1;
    assert forall b | 0 <= b < 1 :: HOff(v.info.dim, v.inc, b, 3) == 0;
    assert forall i1, i0 :: Cell(v, 0, 0, i1, i0) == 5 + i1 * 4 + i0;
    forall j
      ensures InView(v, j) <==> j in {5, 6, 9, 10}
    {
      if j == 5 {
        assert Cell(v, 0, 0, 0, 0) == j;
      } else if j == 6 {
        assert Cell(v, 0, 0, 0, 1) == j;
      } else if j == 9 {
        assert Cell(v, 0, 0, 1, 0) == j;
      } else if j == 10 {
        assert Cell(v, 0, 0, 1, 1) == j;
      }
    }
  }
}
