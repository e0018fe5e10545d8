/**
 * Approximate equality of two plain tensors. Dense matrices are handed to
 * the legacy matrix comparison; otherwise the data types and the shapes
 * must agree, and then every element pair is compared by the distance of
 * their bit patterns read as sign-magnitude integers (at most 128 units in
 * the last place), falling back to an absolute float tolerance.
 */
module TensorEq {
  import opened TensorTypes

  /** The tolerance in units in the last place. */
  const Ulps: int := 128

  /** A 32-bit element pattern, as an unsigned value. */
  type Word = x: int | 0 <= x < 0x1_0000_0000

  /** A 32-bit pattern read as a two's-complement int32_t. */
  function Signed(x: Word): (s: int)
    ensures -0x8000_0000 <= s < 0x8000_0000
    ensures s >= 0 <==> x < 0x8000_0000
    ensures s == x || s == x - 0x1_0000_0000
  {
    if x < 0x8000_0000 then x else x - 0x1_0000_0000
  }

  /**
   * The integer an element's bit pattern is compared as: a negative int32
   * is replaced by 0x80000000 − i32, an unsigned subtraction (modulo 2^32)
   * whose result is converted back to int32.
   */
  function Mono(x: Word): int
  {
    if Signed(x) < 0 then Signed((0x8000_0000 - x) % 0x1_0000_0000) else Signed(x)
  }

  /** The sign bit of a float pattern. */
  predicate SignBit(x: Word)
  {
    x >= 0x8000_0000
  }

  /** The magnitude bits (exponent and mantissa) of a float pattern. */
  function Magnitude(x: Word): (m: int)
    ensures 0 <= m < 0x8000_0000
  {
    x % 0x8000_0000
  }

  /**
   * The comparison integer is the sign-magnitude reading of the pattern, so
   * it orders float patterns like the floats they stand for.
   */
  lemma MonoIsSignMagnitude(x: Word)
    ensures Mono(x) == if SignBit(x) then -Magnitude(x) else Magnitude(x)
  {
    if x == 0x8000_0000 {
      assert (0x8000_0000 - x) % 0x1_0000_0000 == 0;
    } else if x > 0x8000_0000 {
      assert (0x8000_0000 - x) % 0x1_0000_0000 == 0x1_8000_0000 - x;
      assert Magnitude(x) == x - 0x8000_0000;
    }
  }

  /** Both zeros compare as 0, and no pattern maps outside ±(2^31 − 1). */
  lemma MonoRange(x: Word)
    ensures -0x7fff_ffff <= Mono(x) <= 0x7fff_ffff
    ensures Mono(0) == 0 && Mono(0x8000_0000) == 0
  {
    MonoIsSignMagnitude(x);
    MonoIsSignMagnitude(0x8000_0000);
  }

  function Abs(z: int): (r: int)
    ensures r >= 0 && (r == z || r == -z)
  {
    if z < 0 then -z else z
  }

  /**
   * An element pair that makes the comparison fail: the patterns are more
   * than Ulps apart AND the floats differ by more than the float tolerance,
   * which `floatFar` decides (it stands for the float subtraction and
   * FLT_EPSILON comparison).
   */
  predicate Rejects(x: Word, y: Word, floatFar: (Word, Word) -> bool)
  {
    Abs(Mono(x) - Mono(y)) > Ulps && floatFar(x, y)
  }

  /** An int result wrapped to int32_t the way two's-complement hardware does. */
  function Wrap32(z: int): (w: int)
    ensures -0x8000_0000 <= w < 0x8000_0000
    ensures -0x8000_0000 <= z < 0x8000_0000 ==> w == z
    ensures (w - z) % 0x1_0000_0000 == 0
  {
    (z + 0x8000_0000) % 0x1_0000_0000 - 0x8000_0000
  }

  /**
   * The element test with the int32_t subtraction and abs() wrapping, as the
   * code compiles on two's-complement targets: the difference of two
   * comparison integers is wrapped, and abs of INT_MIN stays INT_MIN.
   */
  predicate RejectsAsWritten(x: Word, y: Word, floatFar: (Word, Word) -> bool)
  {
    var w := Wrap32(Mono(x) - Mono(y));
    (if w < 0 then Wrap32(-w) else w) > Ulps && floatFar(x, y)
  }

  /** Without overflow the wrapped test is the mathematical one. */
  lemma AsWrittenAgreesWithoutOverflow(x: Word, y: Word, floatFar: (Word, Word) -> bool)
    requires -0x8000_0000 < Mono(x) - Mono(y) < 0x8000_0000
    ensures RejectsAsWritten(x, y, floatFar) <==> Rejects(x, y, floatFar)
  {
  }

  /**
   * 2.0 (0x40000000) and -2.0 (0xC0000000) have comparison integers 2^30
   * and -2^30; their difference 2^31 wraps to INT_MIN, whose abs is not
   * above Ulps, so the written test accepts the pair although the floats are
   * 4.0 apart. The intended test rejects it.
   */
  lemma AsWrittenAcceptsOpposites(floatFar: (Word, Word) -> bool)
    requires floatFar(0x4000_0000, 0xC000_0000)
    ensures !RejectsAsWritten(0x4000_0000, 0xC000_0000, floatFar)
    ensures Rejects(0x4000_0000, 0xC000_0000, floatFar)
  {
    MonoIsSignMagnitude(0x4000_0000);
    MonoIsSignMagnitude(0xC000_0000);
    assert Mono(0x4000_0000) - Mono(0xC000_0000) == 0x8000_0000;
  }

  /** The first axis where both extents are zero, from axis i on (MaxDim if none). */
  function ShapeEndFrom(x: seq<int>, y: seq<int>, i: nat): (r: nat)
    requires |x| == MaxDim && |y| == MaxDim && i <= MaxDim
    ensures i <= r <= MaxDim
    ensures forall k :: i <= k < r ==> x[k] != 0 || y[k] != 0
    ensures r < MaxDim ==> x[r] == 0 && y[r] == 0
    decreases MaxDim - i
  {
    if i == MaxDim || (x[i] == 0 && y[i] == 0) then i else ShapeEndFrom(x, y, i + 1)
  }

  function ShapeEnd(x: seq<int>, y: seq<int>): (r: nat)
    requires |x| == MaxDim && |y| == MaxDim
    ensures r <= MaxDim
    ensures forall k :: 0 <= k < r ==> x[k] != 0 || y[k] != 0
    ensures r < MaxDim ==> x[r] == 0 && y[r] == 0
  {
    ShapeEndFrom(x, y, 0)
  }

  /** The shape check: the extents agree on every axis before the first shared zero. */
  predicate SameShape(x: seq<int>, y: seq<int>)
    requires |x| == MaxDim && |y| == MaxDim
  {
    forall k :: 0 <= k < ShapeEnd(x, y) ==> x[k] == y[k]
  }

  /** The number of elements compared once the shapes agree. */
  function CompareCount(x: seq<int>, y: seq<int>): int
    requires |x| == MaxDim && |y| == MaxDim
  {
    Prod(x, ShapeEnd(x, y))
  }

  /** No element pair among the first n rejects. */
  predicate ContentsClose(da: seq<Word>, db: seq<Word>, n: int, floatFar: (Word, Word) -> bool)
  {
    forall i :: 0 <= i < n && i < |da| && i < |db| ==> !Rejects(da[i], db[i], floatFar)
  }

  /** What equality of two non-matrix tensors means: same type, same shape, close contents. */
  predicate Accepts(a: Tensor, b: Tensor, da: seq<Word>, db: seq<Word>, floatFar: (Word, Word) -> bool)
    requires |a.info.dim| == MaxDim && |b.info.dim| == MaxDim
  {
    && a.ttype.dtype == b.ttype.dtype
    && SameShape(a.info.dim, b.info.dim)
    && ContentsClose(da, db, CompareCount(a.info.dim, b.info.dim), floatFar)
  }

  /**
   * ccv_nnc_tensor_eq over the element patterns da and db (the buffers from
   * each data pointer on). A dense matrix goes to the legacy comparison
   * `matrixEq`; otherwise 0 means equal and -1 different.
   */
  method Eq(a: Tensor, b: Tensor, da: seq<Word>, db: seq<Word>,
            floatFar: (Word, Word) -> bool, matrixEq: (Tensor, Tensor) -> int) returns (r: int)
    requires !IsView(a) && !IsView(b)
    requires |a.info.dim| == MaxDim && |b.info.dim| == MaxDim
    requires !IsDenseMatrix(a) && a.ttype.dtype == b.ttype.dtype ==> a.ttype.dtype == F32
    requires !IsDenseMatrix(a) && a.ttype.dtype == b.ttype.dtype && SameShape(a.info.dim, b.info.dim) ==>
               CompareCount(a.info.dim, b.info.dim) <= |da| && CompareCount(a.info.dim, b.info.dim) <= |db|
    ensures IsDenseMatrix(a) ==> r == matrixEq(a, b)
    ensures !IsDenseMatrix(a) ==> r == 0 || r == -1
    ensures !IsDenseMatrix(a) ==> (r == 0 <==> Accepts(a, b, da, db, floatFar))
  {
    if IsDenseMatrix(a) {
      return matrixEq(a, b);
    }
    if a.ttype.dtype != b.ttype.dtype {
      return -1;
    }
    var x, y := a.info.dim, b.info.dim;
    var i := 0;
    var c := 1;
    while i < MaxDim
      invariant 0 <= i <= ShapeEnd(x, y)
      invariant forall k :: 0 <= k < i ==> x[k] == y[k]
      invariant c == Prod(x, i)
    {
      if x[i] == 0 && y[i] == 0 {
        break;
      }
      if x[i] != y[i] {
        return -1;
      }
      c := c * x[i];
      i := i + 1;
    }
    assert i == ShapeEnd(x, y) && SameShape(x, y);
    var k := 0;
    while k < c
      invariant 0 <= k && (k == 0 || k <= c) && c <= |da| && c <= |db|
      invariant forall m :: 0 <= m < k ==> !Rejects(da[m], db[m], floatFar)
    {
      var i32a := Mono(da[k]);
      var i32b := Mono(db[k]);
      if Abs(i32a - i32b) > Ulps && floatFar(da[k], db[k]) {
        return -1;
      }
      k := k + 1;
    }
    return 0;
  }

  /**
   * The code's shape check is "same rank, same extents": agreeing up to the
   * first shared zero means neither tensor has a zero before it.
   */
  lemma SameShapeIsSameRank(x: seq<int>, y: seq<int>)
    requires |x| == MaxDim && |y| == MaxDim
    ensures SameShape(x, y) <==> Rank(x) == Rank(y) && forall k :: 0 <= k < Rank(x) ==> x[k] == y[k]
  {
    if SameShape(x, y) {
      var e := ShapeEnd(x, y);
      RankIs(x, e);
      RankIs(y, e);
    }
  }

  /** Rank is the first index with a zero extent. */
  lemma RankIs(x: seq<int>, e: nat)
    requires |x| == MaxDim && e <= MaxDim
    requires forall k :: 0 <= k < e ==> x[k] != 0
    requires e < MaxDim ==> x[e] == 0
    ensures Rank(x) == e
  {
  }

  /** Once the shapes agree, the code compares exactly ElementCount elements of either tensor. */
  lemma CompareCountIsElementCount(x: seq<int>, y: seq<int>)
    requires |x| == MaxDim && |y| == MaxDim
    requires SameShape(x, y)
    ensures CompareCount(x, y) == ElementCount(x) == ElementCount(y)
  {
    SameShapeIsSameRank(x, y);
    ProdPrefix(x, y, Rank(x));
  }

  /** A tensor with its own data always compares equal. */
  lemma AcceptsItself(a: Tensor, da: seq<Word>, floatFar: (Word, Word) -> bool)
    requires |a.info.dim| == MaxDim
    ensures Accepts(a, a, da, da, floatFar)
  {
  }

  /** With a symmetric float test, the comparison does not depend on the argument order. */
  lemma AcceptsSymmetric(a: Tensor, b: Tensor, da: seq<Word>, db: seq<Word>,
                         floatFar: (Word, Word) -> bool)
    requires |a.info.dim| == MaxDim && |b.info.dim| == MaxDim
    requires forall x, y :: floatFar(x, y) == floatFar(y, x)
    ensures Accepts(a, b, da, db, floatFar) <==> Accepts(b, a, db, da, floatFar)
  {
    var x, y := a.info.dim, b.info.dim;
    assert ShapeEnd(x, y) == ShapeEnd(y, x) by {
      ShapeEndSymmetric(x, y);
    }
    if SameShape(x, y) {
      ProdPrefix(x, y, ShapeEnd(x, y));
    }
    forall i | 0 <= i < |da| && i < |db|
      ensures Rejects(da[i], db[i], floatFar) == Rejects(db[i], da[i], floatFar)
    {
      RejectsSymmetric(da[i], db[i], floatFar);
    }
  }

  lemma ShapeEndSymmetric(x: seq<int>, y: seq<int>)
    requires |x| == MaxDim && |y| == MaxDim
    ensures ShapeEnd(x, y) == ShapeEnd(y, x)
  {
  }

  lemma RejectsSymmetric(x: Word, y: Word, floatFar: (Word, Word) -> bool)
    requires floatFar(x, y) == floatFar(y, x)
    ensures Rejects(x, y, floatFar) == Rejects(y, x, floatFar)
  {
  }

  /** Tensors of different data types never compare equal. */
  lemma DifferentTypesDiffer(a: Tensor, b: Tensor, da: seq<Word>, db: seq<Word>,
                             floatFar: (Word, Word) -> bool)
    requires |a.info.dim| == MaxDim && |b.info.dim| == MaxDim
    requires a.ttype.dtype != b.ttype.dtype
    ensures !Accepts(a, b, da, db, floatFar)
  {
  }

  /** Tensors of different rank never compare equal, whatever their contents. */
  lemma DifferentRanksDiffer(a: Tensor, b: Tensor, da: seq<Word>, db: seq<Word>,
                             floatFar: (Word, Word) -> bool)
    requires |a.info.dim| == MaxDim && |b.info.dim| == MaxDim
    requires Rank(a.info.dim) != Rank(b.info.dim)
    ensures !Accepts(a, b, da, db, floatFar)
  {
    SameShapeIsSameRank(a.info.dim, b.info.dim);
  }

  /** Positive and negative zero are the same element. */
  lemma ZerosClose(floatFar: (Word, Word) -> bool)
    ensures !Rejects(0, 0x8000_0000, floatFar)
  {
    MonoRange(0);
  }
}
