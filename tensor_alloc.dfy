/**
 * Descriptor construction: the heap constructor ccv_nnc_tensor_new (wrapping
 * a caller pointer or allocating a fresh block) and the by-value constructor
 * ccv_nnc_tensor, including the toll-free bridging rule that makes a
 * qualifying host tensor readable as a legacy dense matrix.
 */
module TensorAlloc {
  import opened TensorTypes

  /**
   * What the legacy dense-matrix library defines and this model does not:
   * its channel bound (CCV_MAX_CHANNEL) and its row-step rounding rule
   * (CCV_GET_STEP of a column count, data type and channel count).
   */
  datatype Legacy = Legacy(maxChannel: int, step: (int, DataType, int) -> int)

  /**
   * Toll-free bridging: host memory, channel-fastest layout, a channel count
   * in 1..maxChannel, positive rows and columns, and no fourth axis.
   */
  predicate Bridges(params: Params, legacy: Legacy)
    requires |params.dim| == MaxDim
  {
    && params.memory == CpuMemory
    && params.format == NHWC
    && params.dim[0] > 0
    && params.dim[0] <= legacy.maxChannel
    && params.dim[1] > 0
    && params.dim[2] > 0
    && params.dim[3] == 0
  }

  /**
   * The residency assertions of the allocating paths: a CPU bit demands a
   * host configuration; otherwise a GPU bit demands a device configuration.
   */
  predicate ResidencyAgrees(flags: set<Residency>, memory: Memory)
  {
    if CpuFlag in flags then memory == CpuMemory
    else if GpuFlag in flags then memory.GpuMemory?
    else true
  }

  /**
   * The configuration a constructed descriptor records: the caller's, with
   * the legacy row step written into axis slot 4 when the tensor bridges.
   */
  function BridgedInfo(params: Params, legacy: Legacy): (info: Params)
    requires |params.dim| == MaxDim
    ensures info.memory == params.memory && info.format == params.format && info.dtype == params.dtype
    ensures |info.dim| == MaxDim
    ensures forall i :: 0 <= i < MaxDim && i != 4 ==> info.dim[i] == params.dim[i]
    ensures Bridges(params, legacy) ==> info.dim[4] == legacy.step(params.dim[1], params.dtype, params.dim[0])
    ensures !Bridges(params, legacy) ==> info == params
  {
    if Bridges(params, legacy) then
      params.(dim := params.dim[4 := legacy.step(params.dim[1], params.dtype, params.dim[0])])
    else
      params
  }

  /** The type tag with the given ownership bits; the channel count only when bridging. */
  function TagFor(ownership: set<Flag>, params: Params, legacy: Legacy): (tag: TypeTag)
    requires |params.dim| == MaxDim
    ensures tag.flags == ownership + {MatrixDense}
    ensures tag.dtype == params.dtype
    ensures tag.channels == (if Bridges(params, legacy) then params.dim[0] else 0)
  {
    TypeTag(ownership + {MatrixDense}, params.dtype,
            if Bridges(params, legacy) then params.dim[0] else 0)
  }

  /**
   * ccv_nnc_tensor_new. With a pointer it wraps the caller's memory and owns
   * nothing; without one it allocates, and `block` is the allocation the
   * allocator hands back (the descriptor's own block on the host, a device
   * block on the GPU).
   */
  function TensorNew(ptr: Option<Addr>, params: Params, flags: set<Residency>,
                     legacy: Legacy, block: nat): (t: Tensor)
    requires |params.dim| == MaxDim
    requires ptr.None? ==> ResidencyAgrees(flags, params.memory)
    ensures t.Tensor? && !IsView(t)
    ensures t.sig == 0 && t.refcount == 1
    ensures t.info.memory == params.memory && t.info.format == params.format
    ensures t.info.dtype == params.dtype && |t.info.dim| == MaxDim
    ensures forall i :: 0 <= i < MaxDim && i != 4 ==> t.info.dim[i] == params.dim[i]
    ensures Bridges(params, legacy) ==>
              && t.info.dim[4] == legacy.step(params.dim[1], params.dtype, params.dim[0])
              && t.ttype.channels == params.dim[0]
    ensures !Bridges(params, legacy) ==> t.info == params && t.ttype.channels == 0
    ensures t.ttype.dtype == params.dtype && MatrixDense in t.ttype.flags
    ensures ptr.Some? ==>
              && NoDataAlloc in t.ttype.flags && Unmanaged !in t.ttype.flags
              && t.data == ptr.value
    ensures ptr.None? ==>
              && Unmanaged in t.ttype.flags && NoDataAlloc !in t.ttype.flags
              && t.data == Addr(block, 0)
  {
    match ptr
    case Some(p) =>
      Tensor(TagFor({NoDataAlloc}, params, legacy), 0, 1, BridgedInfo(params, legacy), p)
    case None =>
      Tensor(TagFor({Unmanaged}, params, legacy), 0, 1, BridgedInfo(params, legacy), Addr(block, 0))
  }

  /**
   * ccv_nnc_tensor: the by-value wrap of caller memory; the pointer must be
   * non-null and both ownership bits are set.
   */
  function TensorByValue(ptr: Option<Addr>, params: Params, flags: set<Residency>,
                         legacy: Legacy): (t: Tensor)
    requires |params.dim| == MaxDim
    requires ptr.Some?
    requires ResidencyAgrees(flags, params.memory)
    ensures t.Tensor? && !IsView(t)
    ensures t.sig == 0 && t.refcount == 1
    ensures t.info == BridgedInfo(params, legacy)
    ensures t.ttype.flags == {NoDataAlloc, Unmanaged, MatrixDense}
    ensures t.ttype.dtype == params.dtype
    ensures t.ttype.channels == (if Bridges(params, legacy) then params.dim[0] else 0)
    ensures t.data == ptr.value
  {
    Tensor(TagFor({NoDataAlloc, Unmanaged}, params, legacy), 0, 1, BridgedInfo(params, legacy), ptr.value)
  }

  /**
   * The two wrapping constructors agree on everything but the UNMANAGED bit:
   * the same configuration, channel count, data type and pointer.
   */
  lemma WrapsAgree(p: Addr, params: Params, flags: set<Residency>, legacy: Legacy, block: nat)
    requires |params.dim| == MaxDim
    requires ResidencyAgrees(flags, params.memory)
    ensures var h := TensorNew(Some(p), params, flags, legacy, block);
            var v := TensorByValue(Some(p), params, flags, legacy);
            && h.info == v.info && h.data == v.data && h.sig == v.sig && h.refcount == v.refcount
            && h.ttype.dtype == v.ttype.dtype && h.ttype.channels == v.ttype.channels
            && v.ttype.flags == h.ttype.flags + {Unmanaged}
  {
  }

  /**
   * A constructed descriptor is recognised as a legacy dense matrix exactly
   * when its configuration bridges.
   */
  lemma DenseMatrixIffBridges(ptr: Option<Addr>, params: Params, flags: set<Residency>,
                              legacy: Legacy, block: nat)
    requires |params.dim| == MaxDim
    requires ptr.None? ==> ResidencyAgrees(flags, params.memory)
    ensures IsDenseMatrix(TensorNew(ptr, params, flags, legacy, block)) <==> Bridges(params, legacy)
  {
  }

  /**
   * A constructed descriptor counts the caller's elements: bridging only
   * rewrites slot 4, which lies past the zero extent at slot 3.
   */
  lemma {:induction false} ConstructedCount(ptr: Option<Addr>, params: Params, flags: set<Residency>,
                                            legacy: Legacy, block: nat)
    requires |params.dim| == MaxDim
    requires ptr.None? ==> ResidencyAgrees(flags, params.memory)
    ensures ElementCount(TensorNew(ptr, params, flags, legacy, block).info.dim) == ElementCount(params.dim)
  {
    var t := TensorNew(ptr, params, flags, legacy, block);
    if Bridges(params, legacy) {
      assert Rank(params.dim) == 3;
      assert t.info.dim[..4] == params.dim[..4];
      assert Rank(t.info.dim) == 3;
      ProdPrefix(t.info.dim, params.dim, 3);
    }
  }

  /**
   * A descriptor built from non-negative extents has non-negative extents
   * on every meaningful axis, whatever the legacy row step written into
   * slot 4, so the plain zero-fill applies to it.
   */
  lemma ConstructedExtents(ptr: Option<Addr>, params: Params, flags: set<Residency>,
                           legacy: Legacy, block: nat)
    requires WellFormedParams(params)
    requires ptr.None? ==> ResidencyAgrees(flags, params.memory)
    ensures var t := TensorNew(ptr, params, flags, legacy, block);
            CountedExtents(t.info)
  {
    var t := TensorNew(ptr, params, flags, legacy, block);
    if Bridges(params, legacy) {
      assert t.info.dim[3] == 0;
      assert Rank(t.info.dim) <= 3;
    }
  }
}
