/**
 * The JNI glue of android.media.MediaDescrambler: sub-sample validation and summation,
 * the byte-buffer range check, the 64 KiB-rounded shared-memory buffer, the copy in and
 * out around the call to the remote descrambler, and the choice between in-place and
 * separate destination.  The remote descrambler is an object whose answer is arbitrary.
 */
module MediaDescrambler {
  import opened Wrappers
  import opened JavaTypes
  import opened SizeArithmetic

  const INT32_MAX: int := 0x7FFF_FFFF

  /** sizeof(DescramblerPlugin::SubSample): two 32-bit counts. */
  const SUB_SAMPLE_SIZE: int := 8

  /** Sub-sample counts must stay strictly below this bound. */
  const MAX_SUB_SAMPLES: int := INT32_MAX / SUB_SAMPLE_SIZE

  /** No total length reaches this: fewer than 2^28 entries of fewer than 2^32 bytes each. */
  const MAX_TOTAL_LENGTH: int := 0x1000_0000_0000_0000

  /** DescramblerPlugin::SubSample: its two fields are `uint32_t`. */
  datatype SubSample = SubSample(numBytesOfClearData: uint32, numBytesOfEncryptedData: uint32)

  // ---------------------------------------------------------------- getSubSampleInfo

  predicate ValidCount(numSubSamples: int32)
  {
    !(numSubSamples <= 0 || numSubSamples as int >= MAX_SUB_SAMPLES)
  }

  /** The JNI `int[]` arrays, when present, hold at least `n` elements. */
  predicate InputsCover(n: int, clear: Option<seq<int32>>, encrypted: Option<seq<int32>>)
  {
    (clear.Some? ==> n <= |clear.value|) && (encrypted.Some? ==> n <= |encrypted.value|)
  }

  /** A `jint` stored into a `uint32_t` field. */
  function ToUint32(x: int32): (r: uint32)
    ensures (r as int - x as int) % TWO_TO_THE_32 == 0
    ensures x >= 0 ==> r as int == x as int
  {
    if x < 0 then (x as int + TWO_TO_THE_32) as uint32 else x as uint32
  }

  /** Element `i` of an optional `int[]`, 0 when the array is null. */
  function CountAt(counts: Option<seq<int32>>, i: nat): uint32
    requires counts.Some? ==> i < |counts.value|
  {
    if counts.None? then 0 else ToUint32(counts.value[i])
  }

  function Entry(clear: Option<seq<int32>>, encrypted: Option<seq<int32>>, i: nat): SubSample
    requires InputsCover(i + 1, clear, encrypted)
  {
    SubSample(CountAt(clear, i), CountAt(encrypted, i))
  }

  /** The sub-sample array built from the first `n` counts. */
  function SubSamplesOf(n: nat, clear: Option<seq<int32>>, encrypted: Option<seq<int32>>): seq<SubSample>
    requires InputsCover(n, clear, encrypted)
  {
    seq(n, i requires 0 <= i < n => Entry(clear, encrypted, i))
  }

  /** The size one entry adds: its two `uint32_t` fields are summed in `uint32_t`. */
  function EntrySize(s: SubSample): (r: int)
    ensures 0 <= r < TWO_TO_THE_32
    ensures r % TWO_TO_THE_32 == (s.numBytesOfClearData as int + s.numBytesOfEncryptedData as int) % TWO_TO_THE_32
  {
    (s.numBytesOfClearData as int + s.numBytesOfEncryptedData as int) % TWO_TO_THE_32
  }

  /** The `ssize_t` total accumulated over the entries. */
  function TotalSize(samples: seq<SubSample>): (r: int)
    ensures r >= 0
  {
    if |samples| == 0 then 0 else TotalSize(samples[..|samples| - 1]) + EntrySize(samples[|samples| - 1])
  }

  function ClearBytes(samples: seq<SubSample>): int
  {
    if |samples| == 0 then 0 else ClearBytes(samples[..|samples| - 1]) + samples[|samples| - 1].numBytesOfClearData as int
  }

  function EncryptedBytes(samples: seq<SubSample>): int
  {
    if |samples| == 0 then 0 else EncryptedBytes(samples[..|samples| - 1]) + samples[|samples| - 1].numBytesOfEncryptedData as int
  }

  /** The total is never negative and below 2^32 per entry, so it fits `ssize_t`. */
  lemma {:induction false} TotalSizeBound(samples: seq<SubSample>)
    ensures 0 <= TotalSize(samples) <= |samples| * (TWO_TO_THE_32 - 1)
  {
    if |samples| > 0 {
      TotalSizeBound(samples[..|samples| - 1]);
    }
  }

  /** A valid count keeps the total below MAX_TOTAL_LENGTH. */
  lemma ValidTotalBound(samples: seq<SubSample>)
    requires |samples| < MAX_SUB_SAMPLES
    ensures 0 <= TotalSize(samples) < MAX_TOTAL_LENGTH
  {
    TotalSizeBound(samples);
    assert |samples| * (TWO_TO_THE_32 - 1) <= MAX_SUB_SAMPLES * (TWO_TO_THE_32 - 1);
  }

  /** When no entry's clear + encrypted count reaches 2^32, the total is the plain byte count. */
  lemma {:induction false} TotalSizeIsByteCount(samples: seq<SubSample>)
    requires forall i | 0 <= i < |samples| ::
      samples[i].numBytesOfClearData as int + samples[i].numBytesOfEncryptedData as int < TWO_TO_THE_32
    ensures TotalSize(samples) == ClearBytes(samples) + EncryptedBytes(samples)
  {
    if |samples| > 0 {
      var init := samples[..|samples| - 1];
      assert forall i | 0 <= i < |init| :: init[i] == samples[i];
      TotalSizeIsByteCount(init);
    }
  }

  /** Non-negative counts are stored unchanged in the entries. */
  lemma EntriesKeepCounts(n: nat, clear: seq<int32>, encrypted: seq<int32>, i: nat)
    requires n <= |clear| && n <= |encrypted| && i < n
    requires clear[i] >= 0 && encrypted[i] >= 0
    ensures SubSamplesOf(n, Some(clear), Some(encrypted))[i] == SubSample(clear[i] as int as uint32, encrypted[i] as int as uint32)
  {
  }

  /**
   * A negative count wraps to a huge `uint32_t`, and the per-entry sum wraps back: the
   * entry below claims 2^32 - 1 clear bytes and one encrypted byte, yet adds nothing to
   * the total length.
   */
  lemma NegativeCountWraps()
    ensures var s := SubSamplesOf(1, Some([-1]), Some([1]));
      s[0].numBytesOfClearData as int == TWO_TO_THE_32 - 1 && TotalSize(s) == 0
  {
    var s := SubSamplesOf(1, Some([-1]), Some([1]));
    assert s[..0] == [];
  }

  /**
   * getSubSampleInfo: -1 for an invalid count; otherwise a new array of entries and the
   * total over them.  Allocation never fails in the model.
   */
  method GetSubSampleInfo(numSubSamples: int32, clear: Option<seq<int32>>, encrypted: Option<seq<int32>>)
    returns (totalSize: int, subSamples: array?<SubSample>)
    requires ValidCount(numSubSamples) ==> InputsCover(numSubSamples as int, clear, encrypted)
    ensures !ValidCount(numSubSamples) ==> totalSize == -1 && subSamples == null
    ensures ValidCount(numSubSamples) ==>
      subSamples != null && fresh(subSamples)
      && subSamples[..] == SubSamplesOf(numSubSamples as int, clear, encrypted)
      && totalSize == TotalSize(subSamples[..]) && 0 <= totalSize < MAX_TOTAL_LENGTH
  {
    if numSubSamples <= 0 || numSubSamples as int >= MAX_SUB_SAMPLES {
      return -1, null;
    }
    var n := numSubSamples as int;
    ghost var expected := SubSamplesOf(n, clear, encrypted);
    totalSize := 0;
    subSamples := new SubSample[n](_ => SubSample(0, 0));
    for i := 0 to n
      invariant subSamples[..i] == expected[..i]
      invariant totalSize == TotalSize(subSamples[..i])
    {
      subSamples[i] := SubSample(CountAt(clear, i), CountAt(encrypted, i));
      assert subSamples[..i + 1][..i] == subSamples[..i];
      totalSize := totalSize + EntrySize(subSamples[i]);
    }
    assert subSamples[..] == subSamples[..n];
    ValidTotalBound(subSamples[..]);
  }

  // ---------------------------------------------------------------- getBufferAndSize

  /**
   * A java.nio.ByteBuffer as getBufferAndSize sees it: a direct buffer's memory, a heap
   * buffer's accessible backing array, or a non-direct buffer whose `array()` throws:
   * ReadOnlyBufferException for a read-only view, UnsupportedOperationException when there
   * is no backing array. That call then yields null and leaves its exception pending.
   */
  datatype ByteBuffer = DirectBuffer(memory: array<byte>) | HeapBuffer(backing: array<byte>) | NoArrayBuffer(readOnly: bool)

  /** The exception `array()` leaves pending for a buffer without an accessible array. */
  function ArrayException(readOnly: bool): JavaException
  {
    if readOnly then ReadOnlyBufferException else UnsupportedOperationException
  }

  /**
   * The two failures of getBufferAndSize: INVALID_OPERATION, with the exception `array()`
   * left pending in the Java caller, and -ERANGE.
   */
  datatype BufferError = InvalidOperation(pending: JavaException) | OutOfRange

  /** The bytes the buffer gives access to, if any. */
  function Storage(buf: ByteBuffer): Option<array<byte>>
  {
    match buf
    case DirectBuffer(memory) => Some(memory)
    case HeapBuffer(backing) => Some(backing)
    case NoArrayBuffer(_) => None
  }

  /** `length` bytes from `offset` lie inside the buffer's storage. */
  predicate Fits(buf: ByteBuffer, offset: nat, length: nat)
  {
    Storage(buf).Some? && offset + length <= Storage(buf).value.Length
  }

  /** getBufferAndSize: the buffer's storage, after the `length + offset > bufSize` test in size_t. */
  function GetBufferAndSize(buf: ByteBuffer, offset: nat, length: nat): (r: Result<array<byte>, BufferError>)
    requires offset <= INT32_MAX && length < TWO_TO_THE_64
    ensures (r.Failure? && r.error.InvalidOperation?) <==> buf.NoArrayBuffer?
    ensures buf.NoArrayBuffer? ==> r == Failure(InvalidOperation(ArrayException(buf.readOnly)))
    ensures length + offset < TWO_TO_THE_64 ==> (r.Success? <==> Fits(buf, offset, length))
    ensures r.Success? ==> Storage(buf) == Some(r.value)
  {
    match buf
    case NoArrayBuffer(readOnly) => Failure(InvalidOperation(ArrayException(readOnly)))
    case _ =>
      var storage := Storage(buf).value;
      if SizeAdd(length, offset) > storage.Length then Failure(OutOfRange) else Success(storage)
  }

  // ---------------------------------------------------------------- ensureBufferCapacity

  /**
   * The capacity ensureBufferCapacity allocates: `neededSize` rounded up to the allocation
   * alignment and then to 64 KiB, in size_t arithmetic.
   */
  function AlignedCapacity(neededSize: nat, alignment: nat): (r: nat)
    requires neededSize < TWO_TO_THE_64 && alignment < TWO_TO_THE_64
    ensures r < TWO_TO_THE_64 && LowBits(r, 16) == 0
  {
    var aligned := AlignUp(neededSize, SizePred(alignment));
    Pow2Sixteen();
    AndNotLowOnesAligned(SizeAdd(aligned, 65535), 16);
    AlignUp(aligned, 65535)
  }

  /** For an alignment 2^k dividing 64 KiB, the two masks are round-ups without wrap-around. */
  lemma AlignedCapacityAsRoundUps(neededSize: nat, k: nat)
    requires k <= 16 && neededSize <= TWO_TO_THE_64 - 0x2_0000
    ensures Pow2(k) <= 0x1_0000
    ensures AlignedCapacity(neededSize, Pow2(k)) == RoundUp(RoundUp(neededSize, k), 16)
  {
    Pow2Monotone(k, 16);
    Pow2Sixteen();
    assert SizePred(Pow2(k)) == Pow2(k) - 1;
    AlignUpIsRoundUp(neededSize, k);
    var aligned := RoundUp(neededSize, k);
    RoundUpStep(neededSize, k);
    AlignUpIsRoundUp(aligned, 16);
  }

  /**
   * The allocated capacity is at least `neededSize`, a multiple of 65536 and a multiple
   * of the alignment, for every alignment 2^k dividing 65536.
   */
  lemma AlignedCapacityBounds(neededSize: nat, k: nat)
    requires k <= 16 && neededSize <= TWO_TO_THE_64 - 0x2_0000
    ensures Pow2(k) < TWO_TO_THE_64
    ensures var r := AlignedCapacity(neededSize, Pow2(k));
      neededSize <= r && r == 0x1_0000 * HighBits(r, 16) && r == Pow2(k) * HighBits(r, k)
  {
    AlignedCapacityAsRoundUps(neededSize, k);
    var aligned := RoundUp(neededSize, k);
    RoundUpStep(neededSize, k);
    RoundUpStep(aligned, 16);
    var r := RoundUp(aligned, 16);
    Pow2Sixteen();
    ClearLowBitsMultiple(r, 16);
    AlignedBelow(r, k, 16);
    ClearLowBitsMultiple(r, k);
  }

  // ---------------------------------------------------------------- the remote descrambler

  /**
   * The remote IDescrambler behind binder.  Its status and result are arbitrary and it may
   * rewrite the shared memory; the ghost fields record what it was given and answered.
   */
  class RemoteDescrambler {
    ghost var lastInput: seq<byte>
    ghost var lastKey: byte
    ghost var lastSubSamples: seq<SubSample>
    ghost var lastOk: bool
    ghost var lastResult: int32

    constructor ()
      ensures lastInput == []
    {
      lastInput := [];
    }

    method Descramble(key: byte, subSamples: seq<SubSample>, srcMem: array<byte>)
      returns (ok: bool, result: int32)
      modifies this, srcMem
      ensures lastInput == old(srcMem[..]) && lastKey == key && lastSubSamples == subSamples
      ensures lastOk == ok && lastResult == result
    {
      lastInput := srcMem[..];
      lastKey, lastSubSamples := key, subSamples;
      ok :| true;
      result :| true;
      lastOk, lastResult := ok, result;
    }
  }

  // ---------------------------------------------------------------- JDescrambler

  class JDescrambler {
    const remote: RemoteDescrambler
    /** MemoryDealer::getAllocationAlignment(), a power of two dividing 65536. */
    const allocationAlignment: nat
    ghost const alignmentLog2: nat
    /** mMem, the shared memory passed to the remote side; null until first needed. */
    var mem: array?<byte>

    ghost predicate Valid()
      reads this
    {
      alignmentLog2 <= 16 && allocationAlignment == Pow2(alignmentLog2) && allocationAlignment <= 0x1_0000
    }

    constructor (remote: RemoteDescrambler, alignmentLog2: nat)
      requires alignmentLog2 <= 16
      ensures Valid() && this.remote == remote && mem == null
    {
      this.remote := remote;
      this.alignmentLog2 := alignmentLog2;
      allocationAlignment := Pow2(alignmentLog2);
      mem := null;
      new;
      Pow2Monotone(alignmentLog2, 16);
      Pow2Sixteen();
    }

    /** ensureBufferCapacity: keep a large enough buffer, else allocate a rounded-up one. */
    method EnsureBufferCapacity(neededSize: nat)
      requires Valid() && neededSize < MAX_TOTAL_LENGTH
      modifies this`mem
      ensures old(mem) != null && old(mem).Length >= neededSize ==> mem == old(mem)
      ensures !(old(mem) != null && old(mem).Length >= neededSize) ==>
        mem != null && fresh(mem) && mem.Length == AlignedCapacity(neededSize, allocationAlignment)
      ensures mem != null && mem.Length >= neededSize
    {
      if mem != null && mem.Length >= neededSize {
        return;
      }
      AlignedCapacityBounds(neededSize, alignmentLog2);
      var size := AlignedCapacity(neededSize, allocationAlignment);
      mem := new byte[size];
    }

    /**
     * JDescrambler::descramble: copy the source range into the shared memory, call the
     * remote side, and copy its result back to the destination when it is positive.
     */
    method Descramble(key: byte, totalLength: nat, subSamples: seq<SubSample>,
                      src: array<byte>, srcOffset: nat, dst: array<byte>, dstOffset: nat)
      returns (result: int)
      requires Valid() && totalLength < MAX_TOTAL_LENGTH
      requires srcOffset + totalLength <= src.Length
      requires dstOffset + totalLength <= dst.Length
      requires src != mem && dst != mem
      modifies this`mem, mem, remote, dst
      ensures mem != null && mem.Length >= totalLength && mem != dst
      ensures old(mem) != null && old(mem).Length >= totalLength ==> mem == old(mem)
      ensures !(old(mem) != null && old(mem).Length >= totalLength) ==> fresh(mem)
      ensures remote.lastKey == key && remote.lastSubSamples == subSamples
      ensures |remote.lastInput| >= totalLength
      ensures remote.lastInput[..totalLength] == old(src[srcOffset..srcOffset + totalLength])
      ensures !remote.lastOk || remote.lastResult as int > totalLength ==>
        result == -1 && dst[..] == old(dst[..])
      ensures remote.lastOk && remote.lastResult as int <= totalLength ==> result == remote.lastResult as int
      ensures result <= 0 ==> dst[..] == old(dst[..])
      ensures 0 < result ==>
        result <= totalLength && dst[..] == old(dst[..dstOffset]) + mem[..result] + old(dst[dstOffset + result..])
    {
      EnsureBufferCapacity(totalLength);
      var shared := mem;
      forall k | 0 <= k < totalLength {
        shared[k] := src[srcOffset + k];
      }
      assert shared[..totalLength] == old(src[srcOffset..srcOffset + totalLength]);
      var ok, status := remote.Descramble(key, subSamples, shared);
      if !ok || status as int > totalLength {
        return -1;
      }
      result := status as int;
      if result > 0 {
        forall k | 0 <= k < result {
          dst[dstOffset + k] := shared[k];
        }
        assert dst[..] == old(dst[..dstOffset]) + shared[..result] + old(dst[dstOffset + result..]);
      }
    }
  }

  // ---------------------------------------------------------------- native_descramble

  /** Exceptions native_descramble raises in the Java caller. */
  datatype JavaException =
    | IllegalStateException
    | IllegalArgumentException(message: string)
    | UnsupportedOperationException
    | ReadOnlyBufferException

  /**
   * The source and destination storage as native_descramble selects them: in place when
   * there is no destination buffer, in which case the destination offset goes unchecked.
   */
  function SelectBuffersAsWritten(srcBuf: ByteBuffer, srcOffset: nat, dstBuf: Option<ByteBuffer>,
                                  dstOffset: nat, length: nat): (r: Result<(array<byte>, array<byte>), BufferError>)
    requires length < MAX_TOTAL_LENGTH && srcOffset <= INT32_MAX && dstOffset <= INT32_MAX
    ensures r.Success? ==> Fits(srcBuf, srcOffset, length)
  {
    var src := GetBufferAndSize(srcBuf, srcOffset, length);
    if src.Failure? then Failure(src.error)
    else match dstBuf
      case None => Success((src.value, src.value))
      case Some(buf) =>
        var dst := GetBufferAndSize(buf, dstOffset, length);
        if dst.Failure? then Failure(dst.error) else Success((src.value, dst.value))
  }

  /** In place, a destination offset far past the end of the source buffer is accepted. */
  lemma InPlaceOffsetUnchecked(memory: array<byte>)
    requires memory.Length == 10
    ensures var r := SelectBuffersAsWritten(DirectBuffer(memory), 0, None, 100, 10);
      r.Success? && r.value.1 == memory && 100 + 10 > r.value.1.Length
  {
  }

  /** The buffer written to: the destination buffer, or the source buffer when there is none. */
  function Destination(srcBuf: ByteBuffer, dstBuf: Option<ByteBuffer>): ByteBuffer
  {
    if dstBuf.Some? then dstBuf.value else srcBuf
  }

  /** The selection with the in-place destination range checked against the source buffer. */
  function SelectBuffers(srcBuf: ByteBuffer, srcOffset: nat, dstBuf: Option<ByteBuffer>,
                         dstOffset: nat, length: nat): (r: Result<(array<byte>, array<byte>), BufferError>)
    requires length < MAX_TOTAL_LENGTH && srcOffset <= INT32_MAX && dstOffset <= INT32_MAX
    ensures r.Success? <==> Fits(srcBuf, srcOffset, length) && Fits(Destination(srcBuf, dstBuf), dstOffset, length)
    ensures r.Success? ==> Storage(srcBuf) == Some(r.value.0) && Storage(Destination(srcBuf, dstBuf)) == Some(r.value.1)
    ensures r.Success? ==> srcOffset + length <= r.value.0.Length && dstOffset + length <= r.value.1.Length
  {
    var src := GetBufferAndSize(srcBuf, srcOffset, length);
    if src.Failure? then Failure(src.error)
    else match dstBuf
      case None =>
        if SizeAdd(length, dstOffset) > src.value.Length then Failure(OutOfRange) else Success((src.value, src.value))
      case Some(buf) =>
        var dst := GetBufferAndSize(buf, dstOffset, length);
        if dst.Failure? then Failure(dst.error) else Success((src.value, dst.value))
  }

  /** The corrected selection differs from the source only where the source misses the check. */
  lemma SelectBuffersAgrees(srcBuf: ByteBuffer, srcOffset: nat, dstBuf: Option<ByteBuffer>,
                            dstOffset: nat, length: nat)
    requires length < MAX_TOTAL_LENGTH && srcOffset <= INT32_MAX && dstOffset <= INT32_MAX
    ensures dstBuf.Some? || Fits(srcBuf, dstOffset, length) ==>
      SelectBuffers(srcBuf, srcOffset, dstBuf, dstOffset, length)
      == SelectBuffersAsWritten(srcBuf, srcOffset, dstBuf, dstOffset, length)
    ensures dstBuf.None? && Fits(srcBuf, srcOffset, length) && !Fits(srcBuf, dstOffset, length) ==>
      SelectBuffersAsWritten(srcBuf, srcOffset, dstBuf, dstOffset, length).Success?
      && SelectBuffers(srcBuf, srcOffset, dstBuf, dstOffset, length) == Failure(OutOfRange)
  {
  }

  /**
   * The exception native_descramble leaves pending after the selection: the source buffer's
   * `array()` failure, else the destination's once the source range fits, else none.
   */
  lemma PendingException(srcBuf: ByteBuffer, srcOffset: nat, dstBuf: Option<ByteBuffer>, dstOffset: nat, length: nat)
    requires length < MAX_TOTAL_LENGTH && srcOffset <= INT32_MAX && dstOffset <= INT32_MAX
    ensures var r := SelectBuffers(srcBuf, srcOffset, dstBuf, dstOffset, length);
      && ((r.Failure? && r.error.InvalidOperation?) <==>
            srcBuf.NoArrayBuffer? || (Fits(srcBuf, srcOffset, length) && dstBuf.Some? && dstBuf.value.NoArrayBuffer?))
      && (srcBuf.NoArrayBuffer? ==> r == Failure(InvalidOperation(ArrayException(srcBuf.readOnly))))
      && (Fits(srcBuf, srcOffset, length) && dstBuf.Some? && dstBuf.value.NoArrayBuffer? ==>
            r == Failure(InvalidOperation(ArrayException(dstBuf.value.readOnly))))
  {
  }

  /** The buffer's storage is not the shared memory. */
  predicate Apart(buf: ByteBuffer, shared: array?<byte>)
  {
    Storage(buf).Some? ==> Storage(buf).value != shared
  }

  /** The byte arrays the call may write. */
  function Writable(srcBuf: ByteBuffer, dstBuf: Option<ByteBuffer>): set<array<byte>>
  {
    (if Storage(srcBuf).Some? then {Storage(srcBuf).value} else {})
    + (if dstBuf.Some? && Storage(dstBuf.value).Some? then {Storage(dstBuf.value).value} else {})
  }

  /** The total length getSubSampleInfo computes for valid inputs. */
  function SubSampleTotal(numSubSamples: int32, clear: Option<seq<int32>>, encrypted: Option<seq<int32>>): (r: int)
    requires ValidCount(numSubSamples) && InputsCover(numSubSamples as int, clear, encrypted)
    ensures 0 <= r < MAX_TOTAL_LENGTH
  {
    ValidTotalBound(SubSamplesOf(numSubSamples as int, clear, encrypted));
    TotalSize(SubSamplesOf(numSubSamples as int, clear, encrypted))
  }

  /**
   * What native_descramble leaves behind once the sub-sample info is valid, for the total
   * length `total`. A failed selection gives -1, writes nothing and leaves pending the
   * exception `array()` threw, if any. A successful one gives the remote result when the
   * remote call succeeded with at most `total` bytes, otherwise -1. The remote side saw the
   * source range, the key and the sub-samples, and a positive result put that many shared bytes
   * at `dstOffset`; a separate source buffer is only read. The shared memory is kept or freshly
   * allocated, and a failed selection leaves the descrambler and its shared memory untouched.
   */
  twostate predicate Descrambled(descrambler: JDescrambler, key: byte, subSamples: seq<SubSample>,
                                 total: nat, srcBuf: ByteBuffer, srcOffset: nat,
                                 dstBuf: Option<ByteBuffer>, dstOffset: nat, result: int, new thrown: Option<JavaException>)
    requires total < MAX_TOTAL_LENGTH && srcOffset <= INT32_MAX && dstOffset <= INT32_MAX
    reads descrambler, descrambler.remote, descrambler.mem, Writable(srcBuf, dstBuf)
  {
    var selected := SelectBuffers(srcBuf, srcOffset, dstBuf, dstOffset, total);
      && thrown == (if selected.Failure? && selected.error.InvalidOperation? then Some(selected.error.pending) else None)
      && (selected.Failure? ==>
            result == -1 && unchanged(descrambler, descrambler.remote)
            && (descrambler.mem != null ==> unchanged(descrambler.mem))
            && forall a | a in Writable(srcBuf, dstBuf) :: a[..] == old(a[..]))
      && (selected.Success? ==>
            var (src, dst) := selected.value;
            && result == (if descrambler.remote.lastOk && descrambler.remote.lastResult as int <= total
                          then descrambler.remote.lastResult as int else -1)
            && (descrambler.mem == old(descrambler.mem) || fresh(descrambler.mem))
            && descrambler.remote.lastKey == key && descrambler.remote.lastSubSamples == subSamples
            && |descrambler.remote.lastInput| >= total
            && descrambler.remote.lastInput[..total] == old(src[srcOffset..srcOffset + total])
            && (src != dst ==> src[..] == old(src[..]))
            && (result <= 0 ==> dst[..] == old(dst[..]))
            && (0 < result ==>
                  && descrambler.mem != null && descrambler.mem.Length >= result
                  && dst[..] == old(dst[..dstOffset]) + descrambler.mem[..result] + old(dst[dstOffset + result..])))
  }

  /**
   * The part of native_descramble after the sub-sample check: select the buffers, then
   * descramble from one into the other when both ranges fit.
   */
  method SelectAndDescramble(descrambler: JDescrambler, key: byte, total: nat, subSamples: seq<SubSample>,
                             srcBuf: ByteBuffer, srcOffset: nat, dstBuf: Option<ByteBuffer>, dstOffset: nat)
    returns (result: int, thrown: Option<JavaException>)
    requires total < MAX_TOTAL_LENGTH && srcOffset <= INT32_MAX && dstOffset <= INT32_MAX
    requires descrambler.Valid() && Apart(srcBuf, descrambler.mem) && (dstBuf.Some? ==> Apart(dstBuf.value, descrambler.mem))
    modifies descrambler, descrambler.mem, descrambler.remote, Writable(srcBuf, dstBuf)
    ensures Descrambled(descrambler, key, subSamples, total, srcBuf, srcOffset, dstBuf, dstOffset, result, thrown)
  {
    result, thrown := -1, None;
    var selected := SelectBuffers(srcBuf, srcOffset, dstBuf, dstOffset, total);
    if selected.Success? {
      var (src, dst) := selected.value;
      result := descrambler.Descramble(key, total, subSamples, src, srcOffset, dst, dstOffset);
    } else if selected.error.InvalidOperation? {
      // `array()` threw inside getBufferAndSize; the exception stays pending on return.
      thrown := Some(selected.error.pending);
    }
  }

  /**
   * android_media_MediaDescrambler_native_descramble, with the in-place destination range
   * checked.  `descrambler` is the native context (null before setup or after release).
   */
  method NativeDescramble(descrambler: JDescrambler?, key: byte, numSubSamples: int32,
                          clear: Option<seq<int32>>, encrypted: Option<seq<int32>>,
                          srcBuf: ByteBuffer, srcOffset: int32, dstBuf: Option<ByteBuffer>, dstOffset: int32)
    returns (result: int, thrown: Option<JavaException>)
    requires srcOffset >= 0 && dstOffset >= 0
    requires ValidCount(numSubSamples) ==> InputsCover(numSubSamples as int, clear, encrypted)
    requires descrambler != null ==>
      descrambler.Valid() && Apart(srcBuf, descrambler.mem) && (dstBuf.Some? ==> Apart(dstBuf.value, descrambler.mem))
    modifies if descrambler == null then {} else {descrambler, descrambler.mem, descrambler.remote}
    modifies Writable(srcBuf, dstBuf)
    ensures descrambler == null ==> result == -1 && thrown == Some(IllegalStateException)
    ensures descrambler == null || !ValidCount(numSubSamples) ==>
      forall a | a in Writable(srcBuf, dstBuf) :: a[..] == old(a[..])
    ensures descrambler != null && !ValidCount(numSubSamples) ==> unchanged(descrambler, descrambler.remote)
    ensures descrambler != null && !ValidCount(numSubSamples) && descrambler.mem != null ==> unchanged(descrambler.mem)
    ensures descrambler != null && !ValidCount(numSubSamples) ==>
      result == -1 && thrown == Some(IllegalArgumentException("Invalid sub sample info!"))
    ensures descrambler != null && ValidCount(numSubSamples) ==>
      Descrambled(descrambler, key, SubSamplesOf(numSubSamples as int, clear, encrypted),
                  SubSampleTotal(numSubSamples, clear, encrypted),
                  srcBuf, srcOffset as int, dstBuf, dstOffset as int, result, thrown)
  {
    if descrambler == null {
      return -1, Some(IllegalStateException);
    }
    var totalLength, subSamples := GetSubSampleInfo(numSubSamples, clear, encrypted);
    if totalLength < 0 {
      return -1, Some(IllegalArgumentException("Invalid sub sample info!"));
    }
    ValidTotalBound(subSamples[..]);
    // getSubSampleInfo only allocates: everything the call below reads is as on entry.
    assert unchanged(descrambler, descrambler.remote);
    assert forall a | a in Writable(srcBuf, dstBuf) :: a[..] == old(a[..]);
    result, thrown := SelectAndDescramble(descrambler, key, totalLength, subSamples[..],
                                          srcBuf, srcOffset as int, dstBuf, dstOffset as int);
  }
}
