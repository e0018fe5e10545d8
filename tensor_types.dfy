/**
 * Descriptor records of the tensor subsystem: shape/type configuration,
 * the packed type tag (as explicit tagged fields), data addresses and the
 * tensor / tensor-view descriptors, together with the prefix products that
 * the rest of the model uses for element counts and strides.
 */
module TensorTypes {

  /** CCV_NNC_MAX_DIM_ALLOC: the number of axis slots in every configuration. */
  const MaxDim: nat := 8

  /** A possibly-null pointer. */
  datatype Option<T> = None | Some(value: T)

  /** Where a tensor lives; a device tensor carries its device id. */
  datatype Memory = CpuMemory | GpuMemory(device: nat)

  /** Tensor layouts; NHWC is the channel-fastest layout. */
  datatype Format = NHWC | NCHW | CHWN

  /** Element data types. */
  datatype DataType = F32 | F64 | F16 | S32 | S64 | U8

  /** The residency bits a caller may pass to the allocating constructors. */
  datatype Residency = CpuFlag | GpuFlag

  /** The ownership and kind bits of the packed type tag. */
  datatype Flag = NoDataAlloc | Unmanaged | MatrixDense | ViewFlag

  /**
   * The packed type tag: a set of flag bits, the data type and the channel
   * count held in the low 12 bits (0 when no channel count is recorded).
   */
  datatype TypeTag = TypeTag(flags: set<Flag>, dtype: DataType, channels: int)

  /**
   * The shape/type configuration (ccv_nnc_tensor_param_t): memory location,
   * layout, the data type packed into the format word, and the axis extents.
   */
  datatype Params = Params(memory: Memory, format: Format, dtype: DataType, dim: seq<int>)

  /** A data pointer: the allocation block it points into and an element offset in it. */
  datatype Addr = Addr(block: nat, offset: int)

  /**
   * A descriptor. A view (ccv_nnc_tensor_view_t) extends the plain descriptor
   * with the stride array `inc` describing the aliased base buffer.
   */
  datatype Tensor =
    | Tensor(ttype: TypeTag, sig: int, refcount: int, info: Params, data: Addr)
    | TensorView(ttype: TypeTag, sig: int, refcount: int, info: Params, data: Addr, inc: seq<int>)

  /** A configuration has MaxDim axis slots, none of them negative. */
  predicate WellFormedParams(p: Params)
  {
    |p.dim| == MaxDim && forall i :: 0 <= i < MaxDim ==> p.dim[i] >= 0
  }

  /** The extents of the meaningful axes, those before the first zero, are non-negative. */
  predicate CountedExtents(p: Params)
  {
    |p.dim| == MaxDim && forall i :: 0 <= i < Rank(p.dim) ==> p.dim[i] >= 0
  }

  /** CCV_IS_TENSOR_VIEW: the test is on the VIEW bit of the type tag. */
  predicate IsView(t: Tensor)
  {
    ViewFlag in t.ttype.flags
  }

  /**
   * The VIEW bit is set exactly on descriptors laid out as views, so a
   * descriptor tested as a view really carries a stride array.
   */
  predicate LayoutAgrees(t: Tensor)
  {
    IsView(t) <==> t.TensorView?
  }

  /** CCV_TENSOR_IS_DENSE_MATRIX: a channel count is recorded in the low bits. */
  predicate IsDenseMatrix(t: Tensor)
  {
    t.ttype.channels > 0
  }

  /** Number of leading axes before the first zero extent (at most n). */
  function RankFrom(dim: seq<int>, i: nat, n: nat): (r: nat)
    requires i <= n <= |dim|
    ensures i <= r <= n
    ensures forall k :: i <= k < r ==> dim[k] != 0
    ensures r < n ==> dim[r] == 0
    decreases n - i
  {
    if i == n || dim[i] == 0 then i else RankFrom(dim, i + 1, n)
  }

  /** The number of meaningful axes: those before the first zero extent. */
  function Rank(dim: seq<int>): (r: nat)
    requires |dim| == MaxDim
    ensures r <= MaxDim
    ensures forall k :: 0 <= k < r ==> dim[k] != 0
    ensures r < MaxDim ==> dim[r] == 0
  {
    RankFrom(dim, 0, MaxDim)
  }

  /** Product of the first k entries of s: the stride of axis k over extents s. */
  function Prod(s: seq<int>, k: nat): int
    requires k <= |s|
  {
    if k == 0 then 1 else Prod(s, k - 1) * s[k - 1]
  }

  /**
   * ccv_nnc_tensor_count (its header is not part of this model): the product
   * of the extents before the first zero one.
   */
  function ElementCount(dim: seq<int>): int
    requires |dim| == MaxDim
  {
    Prod(dim, Rank(dim))
  }

  /** Multiplying by a non-negative factor keeps an inequality. */
  lemma MulLe(a: int, b: int, c: int)
    requires a <= b && c >= 0
    ensures a * c <= b * c
  {
  }

  lemma {:induction false} ProdNonNegative(s: seq<int>, k: nat)
    requires k <= |s|
    requires forall i :: 0 <= i < k ==> s[i] >= 0
    ensures Prod(s, k) >= 0
  {
    if k > 0 {
      ProdNonNegative(s, k - 1);
    }
  }

  lemma {:induction false} ProdPositive(s: seq<int>, k: nat)
    requires k <= |s|
    requires forall i :: 0 <= i < k ==> s[i] > 0
    ensures Prod(s, k) > 0
  {
    if k > 0 {
      ProdPositive(s, k - 1);
    }
  }

  /** Strides never shrink across axes whose extent is at least one. */
  lemma {:induction false} ProdMonotone(s: seq<int>, k: nat, m: nat)
    requires k <= m <= |s|
    requires forall i :: 0 <= i < m ==> s[i] > 0
    ensures Prod(s, k) <= Prod(s, m)
    decreases m - k
  {
    if k < m {
      ProdMonotone(s, k, m - 1);
      ProdPositive(s, m - 1);
    }
  }

  /** Two extent lists agreeing on their first k entries have the same prefix product. */
  lemma {:induction false} ProdPrefix(s: seq<int>, t: seq<int>, k: nat)
    requires k <= |s| && k <= |t|
    requires forall i :: 0 <= i < k ==> s[i] == t[i]
    ensures Prod(s, k) == Prod(t, k)
  {
    if k > 0 {
      ProdPrefix(s, t, k - 1);
    }
  }
}
