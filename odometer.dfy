/**
 * The mixed-radix counter behind the strided zero-fill. Axes 0..2 of a view
 * are walked by nested loops; every axis from 3 up to the first zero extent
 * is folded into a single block counter whose carries are turned into
 * pointer increments by two tables: `mod[j]`, the period of axis 3+j, and
 * `mod_inc`, the pointer step for one block followed by the gap to skip when
 * an axis wraps around.
 */
module Odometer {
  import opened TensorTypes

  /** The extents and strides a zero-fill walks: MaxDim slots each, no negative extent. */
  predicate Shape(d: seq<int>, inc: seq<int>)
  {
    && |d| == MaxDim && |inc| == MaxDim
    && forall i :: 0 <= i < MaxDim ==> d[i] >= 0
  }

  /** The first axis from 3 on with a zero extent: axes 3..Top-1 are the higher axes. */
  function Top(d: seq<int>): (top: nat)
    requires |d| == MaxDim && forall i :: 0 <= i < MaxDim ==> d[i] >= 0
    ensures 3 <= top <= MaxDim
    ensures forall i :: 3 <= i < top ==> d[i] > 0
    ensures top < MaxDim ==> d[top] == 0
  {
    RankFrom(d, 3, MaxDim)
  }

  /** dim_count: the number of higher axes. */
  function Higher(d: seq<int>): (h: nat)
    requires |d| == MaxDim && forall i :: 0 <= i < MaxDim ==> d[i] >= 0
    ensures h <= MaxDim - 3
  {
    Top(d) - 3
  }

  /** Π_{k<=i<m} d[i]; mod[j] is Span(d, 3, 4 + j) and the block count is Span(d, 3, Top(d)). */
  function Span(d: seq<int>, k: nat, m: nat): (r: int)
    requires k <= m <= |d|
    ensures (forall i :: k <= i < m ==> d[i] > 0) ==> r > 0
    decreases m
  {
    if m == k then 1 else Span(d, k, m - 1) * d[m - 1]
  }

  /** Span(d, k, k+1+i): the period of axis k+i counted from axis k; mod[j] is Period(d, 3, j). */
  function Period(d: seq<int>, k: nat, i: nat): (r: int)
    requires |d| == MaxDim && forall m :: 0 <= m < MaxDim ==> d[m] >= 0
    requires 3 <= k && k + 1 + i <= Top(d)
    ensures r > 0
  {
    Span(d, k, k + 1 + i)
  }

  /** The number of blocks the zero-fill visits: the product of the higher extents. */
  function BlockCount(d: seq<int>): (n: int)
    requires |d| == MaxDim && forall i :: 0 <= i < MaxDim ==> d[i] >= 0
    ensures n > 0
  {
    Span(d, 3, Top(d))
  }

  /**
   * The offset, over strides inc, of block b counted from axis k: the digits
   * of b in the radices d[k], d[k+1], ... weighted by their strides.
   */
  function HOff(d: seq<int>, inc: seq<int>, b: int, k: nat): int
    requires Shape(d, inc)
    requires 3 <= k <= Top(d) && b >= 0
    decreases Top(d) - k
  {
    if k == Top(d) then 0 else (b % d[k]) * Prod(inc, k) + HOff(d, inc, b / d[k], k + 1)
  }

  /** The pointer step that skips the padding of axis k once it wraps around. */
  function Gap(d: seq<int>, inc: seq<int>, k: nat): int
    requires |d| == MaxDim && |inc| == MaxDim && k < MaxDim
  {
    Prod(inc, k) * (inc[k] - d[k])
  }

  /** Gap(k) + Gap(k+1) + ... + Gap(k+t-1). */
  function GapSum(d: seq<int>, inc: seq<int>, k: nat, t: nat): int
    requires |d| == MaxDim && |inc| == MaxDim && k + t <= MaxDim
    decreases t
  {
    if t == 0 then 0 else Gap(d, inc, k) + GapSum(d, inc, k + 1, t - 1)
  }

  /**
   * `mod_inc` as the upward `for` loop of ccv_nnc_tensor_zero and a downward pass leave it:
   * slot 0 is the block step Π_{m<3} inc[m], slots 1..dim_count-1 the wrap
   * gaps, slot dim_count the upward product. The downward pass writes
   * Π_{m<s+2} inc[m] × (inc[s+2] − dim[s+2]) into slot s, the gap of axis s+2.
   * Slots past dim_count are never written and are 0 here.
   */
  function GapTable(d: seq<int>, inc: seq<int>): (t: seq<int>)
    requires Shape(d, inc)
    ensures |t| == MaxDim - 2
  {
    seq(MaxDim - 2, s requires 0 <= s < MaxDim - 2 =>
      if s == 0 then Prod(inc, 3)
      else if s < Higher(d) then Prod(inc, s + 2) * (inc[s + 2] - d[s + 2])
      else if s == Higher(d) then Prod(inc, s + 3)
      else 0)
  }

  /**
   * `mod_inc` exactly as ccv_nnc_tensor_zero computes it: its downward `for` loop writes
   * Π_{m<s+2} inc[m] × (inc[s+3] − dim[s+3]) into slot s, the extents of the
   * axis above the one that wrapped.
   */
  function GapTableAsWritten(d: seq<int>, inc: seq<int>): (t: seq<int>)
    requires Shape(d, inc)
    ensures |t| == MaxDim - 2
  {
    seq(MaxDim - 2, s requires 0 <= s < MaxDim - 2 =>
      if s == 0 then Prod(inc, 3)
      else if s < Higher(d) then Prod(inc, s + 2) * (inc[s + 3] - d[s + 3])
      else if s == Higher(d) then Prod(inc, s + 3)
      else 0)
  }

  /**
   * The carries after block x-1 completes (the inner `for (j ...)` loop of
   * ccv_nnc_tensor_zero): for j = j0, j0+1, ...
   * below dim_count - 1, while mod[j] divides x, add table slot j+1.
   */
  function CarrySum(d: seq<int>, table: seq<int>, x: int, j: nat): int
    requires |d| == MaxDim && forall i :: 0 <= i < MaxDim ==> d[i] >= 0
    requires |table| == MaxDim - 2
    decreases Higher(d) - j
  {
    if j + 1 >= Higher(d) || x % Period(d, 3, j) != 0 then 0
    else table[j + 1] + CarrySum(d, table, x, j + 1)
  }

  /** How far the carry loop for x, started at j0, runs before it stops. */
  function CarryLen(d: seq<int>, x: int, j: nat): (r: nat)
    requires |d| == MaxDim && forall i :: 0 <= i < MaxDim ==> d[i] >= 0
    ensures j <= r
    ensures j < Higher(d) ==> r < Higher(d)
    ensures forall i :: j <= i < r ==> i + 1 < Higher(d) && x % Period(d, 3, i) == 0
    ensures r + 1 >= Higher(d) || x % Period(d, 3, r) != 0
    decreases Higher(d) - j
  {
    if j + 1 >= Higher(d) || x % Period(d, 3, j) != 0 then j
    else CarryLen(d, x, j + 1)
  }

  /**
   * The block pointer `tvdf32` before block b: each block advances it
   * by table slot 0 and then by the carries.
   */
  function Walk(d: seq<int>, table: seq<int>, start: int, b: nat): int
    requires |d| == MaxDim && forall i :: 0 <= i < MaxDim ==> d[i] >= 0
    requires |table| == MaxDim - 2
  {
    if b == 0 then start else Walk(d, table, start, b - 1) + table[0] + CarrySum(d, table, b, 0)
  }

  // ---------------------------------------------------------------------
  // Division facts
  // ---------------------------------------------------------------------

  /** Euclidean division is unique. */
  lemma DivModUnique(x: int, m: int, q: int, r: int)
    requires m > 0 && 0 <= r < m && x == q * m + r
    ensures x / m == q && x % m == r
  {
    var q0, r0 := x / m, x % m;
    if q > q0 {
      MulLe(q0 + 1, q, m);
    } else if q < q0 {
      MulLe(q + 1, q0, m);
    }
  }

  /** Incrementing without a wrap bumps the lowest digit only. */
  lemma StepNoWrap(b: int, m: int)
    requires b >= 0 && m > 0 && (b + 1) % m != 0
    ensures (b + 1) % m == b % m + 1 && (b + 1) / m == b / m
  {
    var q, r := b / m, b % m;
    if r + 1 == m {
      assert b + 1 == (q + 1) * m + 0;
      DivModUnique(b + 1, m, q + 1, 0);
    } else {
      DivModUnique(b + 1, m, q, r + 1);
    }
  }

  /** Incrementing with a wrap clears the lowest digit and carries one. */
  lemma StepWrap(b: int, m: int)
    requires b >= 0 && m > 0 && (b + 1) % m == 0
    ensures b % m == m - 1 && (b + 1) / m == b / m + 1
  {
    var q, r := b / m, b % m;
    if r + 1 < m {
      DivModUnique(b + 1, m, q, r + 1);
    } else {
      assert b + 1 == (q + 1) * m + 0;
      DivModUnique(b + 1, m, q + 1, 0);
    }
  }

  /** For a multiple x of a: a*s divides x exactly when s divides x/a. */
  lemma DivExact(x: int, a: int, s: int)
    requires a > 0 && s > 0 && x % a == 0
    ensures x % (a * s) == 0 <==> (x / a) % s == 0
  {
    var q := x / a;
    assert x == q * a;
    var u, w := q / s, q % s;
    assert q == u * s + w;
    assert x == u * (a * s) + w * a;
    MulLe(w, s - 1, a);
    assert (s - 1) * a == s * a - a;
    assert 0 <= w * a < a * s;
    DivModUnique(x, a * s, u, w * a);
    if w != 0 {
      MulLe(1, w, a);
    }
  }

  // ---------------------------------------------------------------------
  // Digit arithmetic
  // ---------------------------------------------------------------------

  lemma {:induction false} SpanSplit(d: seq<int>, k: nat, m: nat)
    requires k < m <= |d|
    ensures Span(d, k, m) == d[k] * Span(d, k + 1, m)
    decreases m
  {
    if m > k + 1 {
      SpanSplit(d, k, m - 1);
      assert Span(d, k, m) == d[k] * Span(d, k + 1, m - 1) * d[m - 1];
    }
  }

  /** Block 0 starts at the view's first cell. */
  lemma {:induction false} HOffZero(d: seq<int>, inc: seq<int>, k: nat)
    requires Shape(d, inc) && 3 <= k <= Top(d)
    ensures HOff(d, inc, 0, k) == 0
    decreases Top(d) - k
  {
    if k < Top(d) {
      HOffZero(d, inc, k + 1);
    }
  }

  /** One unfolding of HOff: the lowest digit of b and the offset of the quotient. */
  lemma HOffStep(d: seq<int>, inc: seq<int>, b: int, k: nat)
    requires Shape(d, inc) && 3 <= k < Top(d) && b >= 0
    ensures HOff(d, inc, b, k) == (b % d[k]) * Prod(inc, k) + HOff(d, inc, b / d[k], k + 1)
  {
  }

  lemma MulSucc(r: int, p: int)
    ensures (r + 1) * p == r * p + p
  {
  }

  /** A multiple below dk × rest has its quotient below rest. */
  lemma QuotLt(x: int, q: int, dk: int, rest: int)
    requires dk > 0 && x == q * dk && x < dk * rest
    ensures q < rest
  {
    if q >= rest {
      MulLe(rest, q, dk);
    }
  }

  /** A multiple x of d[k]: Period(k, i+1) divides x exactly when Period(k+1, i) divides x / d[k]. */
  lemma PeriodUp(d: seq<int>, x: int, k: nat, k1: nat, i: nat)
    requires |d| == MaxDim && forall m :: 0 <= m < MaxDim ==> d[m] >= 0
    requires 3 <= k && k1 == k + 1 && k1 + 1 + i <= Top(d)
    requires x % d[k] == 0
    ensures x % Period(d, k, i + 1) == 0 <==> (x / d[k]) % Period(d, k1, i) == 0
  {
    SpanSplit(d, k, k + 2 + i);
    DivExact(x, d[k], Span(d, k1, k + 2 + i));
  }

  /** A wrapping digit: b + 1 is a multiple of dk, with quotient b / dk + 1. */
  lemma WrapQuot(b: int, dk: int, b': int)
    requires b >= 0 && dk > 0 && b' == b / dk && (b + 1) % dk == 0
    ensures b + 1 == (b' + 1) * dk && (b + 1) / dk == b' + 1
  {
    StepWrap(b, dk);
    DivModUnique(b + 1, dk, b' + 1, 0);
  }

  /** The quotient of an in-range block number stays in range one axis up. */
  lemma QuotInRange(d: seq<int>, x: int, q: int, k: nat, k1: nat, top: nat)
    requires k < top <= |d| && k1 == k + 1 && d[k] > 0
    requires x == q * d[k] && x < Span(d, k, top)
    ensures q < Span(d, k1, top)
  {
    SpanSplit(d, k, top);
    QuotLt(x, q, d[k], Span(d, k1, top));
  }

  /**
   * When digit k wraps, the carry into axis k+1 meets the premises of Carry
   * one level up: the quotient stays in range and the same periods divide it.
   */
  lemma CarryUp(d: seq<int>, b: int, k: nat, t: nat, b': int, k1: nat)
    requires |d| == MaxDim && forall i :: 0 <= i < MaxDim ==> d[i] >= 0
    requires 3 <= k && k + t < Top(d) && b >= 0 && t > 0
    requires k1 == k + 1 && d[k] > 0 && b' == b / d[k]
    requires b + 1 < Span(d, k, Top(d))
    requires forall i :: 0 <= i < t ==> (b + 1) % Period(d, k, i) == 0
    requires k + t == Top(d) - 1 || (b + 1) % Period(d, k, t) != 0
    ensures (b + 1) % d[k] == 0 && b + 1 == (b' + 1) * d[k]
    ensures b' + 1 < Span(d, k1, Top(d))
    ensures forall i :: 0 <= i < t - 1 ==> (b' + 1) % Period(d, k1, i) == 0
    ensures k + t == Top(d) - 1 || (b' + 1) % Period(d, k1, t - 1) != 0
  {
    var top := Top(d);
    var dk := d[k];
    assert Period(d, k, 0) == dk by {
      assert Span(d, k, k) == 1;
    }
    assert (b + 1) % dk == 0;
    WrapQuot(b, dk, b');
    QuotInRange(d, b + 1, b' + 1, k, k1, top);
    forall i | 0 <= i < t - 1
      ensures (b' + 1) % Period(d, k1, i) == 0
    {
      assert (b + 1) % Period(d, k, i + 1) == 0;
      PeriodUp(d, b + 1, k, k1, i);
    }
    if k + t != top - 1 {
      PeriodUp(d, b + 1, k, k1, t - 1);
    }
  }

  /** The no-wrap step: only the lowest digit moves. */
  lemma CarryNoWrap(d: seq<int>, inc: seq<int>, b: int, k: nat)
    requires Shape(d, inc)
    requires 3 <= k < Top(d) && b >= 0
    requires b + 1 < Span(d, k, Top(d))
    requires k == Top(d) - 1 || (b + 1) % Period(d, k, 0) != 0
    ensures HOff(d, inc, b + 1, k) == HOff(d, inc, b, k) + Prod(inc, k)
  {
    var dk := d[k];
    HOffStep(d, inc, b, k);
    HOffStep(d, inc, b + 1, k);
    assert Period(d, k, 0) == Span(d, k, k + 1) == dk by {
      assert Span(d, k, k) == 1;
    }
    if k == Top(d) - 1 {
      assert Span(d, k, Top(d)) == dk;
      DivModUnique(b + 1, dk, 0, b + 1);
    }
    StepNoWrap(b, dk);
    MulSucc(b % dk, Prod(inc, k));
  }

  /** The wrap step in numbers: clearing digit k and carrying adds one block step and the gap. */
  lemma WrapArith(p: int, ik: int, dk: int, lo: int, hi: int, up: int, gaps: int)
    requires lo == (dk - 1) * p && hi == 0 * p && up == p * ik
    ensures hi + up + gaps == lo + p + (p * (ik - dk) + gaps)
  {
  }

  /**
   * One odometer step at axis k: when exactly the digits k..k+t-1 wrap, the
   * offset of block b+1 is that of block b plus one block step plus the gaps
   * of the t wrapped axes.
   */
  lemma {:induction false} Carry(d: seq<int>, inc: seq<int>, b: int, k: nat, t: nat)
    requires Shape(d, inc)
    requires 3 <= k && k + t < Top(d) && b >= 0
    requires b + 1 < Span(d, k, Top(d))
    requires forall i :: 0 <= i < t ==> (b + 1) % Period(d, k, i) == 0
    requires k + t == Top(d) - 1 || (b + 1) % Period(d, k, t) != 0
    ensures HOff(d, inc, b + 1, k) == HOff(d, inc, b, k) + Prod(inc, k) + GapSum(d, inc, k, t)
    decreases t
  {
    if t == 0 {
      CarryNoWrap(d, inc, b, k);
    } else {
      var dk := d[k];
      var b' := b / dk;
      CarryUp(d, b, k, t, b', k + 1);
      StepWrap(b, dk);
      Carry(d, inc, b', k + 1, t - 1);
      HOffStep(d, inc, b, k);
      HOffStep(d, inc, b + 1, k);
      WrapArith(Prod(inc, k), inc[k], dk, (b % dk) * Prod(inc, k), ((b + 1) % dk) * Prod(inc, k),
                Prod(inc, k + 1), GapSum(d, inc, k + 1, t - 1));
    }
  }

  /** With the corrected table, the carry loop adds exactly the gaps of the wrapped axes. */
  lemma {:induction false} CarrySumIsGaps(d: seq<int>, inc: seq<int>, x: int, j: nat)
    requires Shape(d, inc) && j < Higher(d)
    ensures var r := CarryLen(d, x, j);
            3 + r <= MaxDim && CarrySum(d, GapTable(d, inc), x, j) == GapSum(d, inc, 3 + j, r - j)
    decreases Higher(d) - j
  {
    if !(j + 1 >= Higher(d) || x % Period(d, 3, j) != 0) {
      CarrySumIsGaps(d, inc, x, j + 1);
      assert GapTable(d, inc)[j + 1] == Gap(d, inc, 3 + j);
    }
  }

  /**
   * With the corrected table, the pointer before block b is the view's start
   * plus the mixed-radix offset of b: the odometer enumerates the blocks of
   * the higher axes in order.
   */
  lemma {:induction false} WalkFollowsBlocks(d: seq<int>, inc: seq<int>, start: int, b: nat)
    requires Shape(d, inc) && b < BlockCount(d)
    ensures Walk(d, GapTable(d, inc), start, b) == start + HOff(d, inc, b, 3)
  {
    if b == 0 {
      HOffZero(d, inc, 3);
    } else {
      WalkFollowsBlocks(d, inc, start, b - 1);
      var t := CarryLen(d, b, 0);
      CarrySumIsGaps(d, inc, b, 0);
      Carry(d, inc, b - 1, 3, t);
    }
  }

  /**
   * The table as written goes wrong as soon as two higher axes have padding:
   * for extents [1,1,1,2,2] over strides [1,1,1,3,2] the blocks of the view
   * start at cells 0, 1, 3, 4, but the pointer visits 0, 1, 2, 3.
   */
  lemma AsWrittenMissesCell()
    ensures var d := [1, 1, 1, 2, 2, 0, 0, 0];
            var inc := [1, 1, 1, 3, 2, 0, 0, 0];
            var w := GapTableAsWritten(d, inc);
            && Shape(d, inc) && BlockCount(d) == 4
            && [Walk(d, w, 0, 0), Walk(d, w, 0, 1), Walk(d, w, 0, 2), Walk(d, w, 0, 3)] == [0, 1, 2, 3]
            && [HOff(d, inc, 0, 3), HOff(d, inc, 1, 3), HOff(d, inc, 2, 3), HOff(d, inc, 3, 3)] == [0, 1, 3, 4]
  {
    var d := [1, 1, 1, 2, 2, 0, 0, 0];
    var inc := [1, 1, 1, 3, 2, 0, 0, 0];
    var w := GapTableAsWritten(d, inc);
    assert Top(d) == 5;
    assert Span(d, 3, 4) == 2 && Span(d, 3, 5) == 4;
    assert Prod(inc, 3) == 1 && Prod(inc, 4) == 3;
    assert w[0] == 1 && w[1] == 0;
    assert CarrySum(d, w, 1, 0) == 0 && CarrySum(d, w, 2, 0) == 0 && CarrySum(d, w, 3, 0) == 0;
    assert HOff(d, inc, 0, 5) == 0 && HOff(d, inc, 1, 5) == 0;
    assert HOff(d, inc, 0, 4) == 0 && HOff(d, inc, 1, 4) == 3;
  }
}
