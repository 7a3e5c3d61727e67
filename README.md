# Wallpaper colour extraction and the media descrambler glue, in Dafny

This project models two pieces of the Android framework and proves properties of them.

**`ColorExtractor`** (module `ColorExtraction`, file `color_extractor.dfy`) is the wallpaper
colour cache.
- It has six slots: LOCK, SYSTEM, LOCKTINT, RECENTSTINT, STATUSBARTINT and POWERMENUTINT.
- Each slot holds the last raw `WallpaperColors` sample and three mutable `GradientColors`
  objects: its NORMAL, DARK and EXTRA_DARK variants.
- It keeps a list of weakly held listeners.
- `ColorExtractor` is a class. Its sample fields are reassigned in place, and the
  `GradientColors` objects are written through their setters.
- The ghost field `derived` records the values those objects hold. `Valid()` ties each
  object to its place in the table and to its value.
- `which` is a `bv32`. The slot flags are 2 (LOCK), 1 (SYSTEM), 3, 4, 5 and 6. The six `&`
  tests of `onColorsChanged` are kept exactly as they are, overlaps included: `which == 1`
  also refreshes LOCKTINT and STATUSBARTINT (`SingleBitsRefresh`).
- The derivation strategy is an arbitrary function from an optional sample to three
  gradient values.
- Listener callbacks are appended to a ghost log, `callbacks`.

**The JNI glue of `MediaDescrambler`** (module `MediaDescrambler`, file
`media_descrambler.dfy`) covers five operations:
- sub-sample validation and summation (`getSubSampleInfo`), with the `uint32_t` fields and
  their wrap-around;
- the byte-buffer range check (`getBufferAndSize`);
- the shared-memory buffer, rounded to the allocation alignment and then to 64 KiB
  (`JDescrambler::ensureBufferCapacity`);
- the copy in, the remote call and the filtered copy out (`JDescrambler::descramble`);
- the control flow of `native_descramble`.

The remote `IDescrambler` is a class whose status and result are arbitrary (`:| true`). It
may rewrite the shared memory.

Supporting modules:
- `SizeArithmetic` (`size_arith.dfy`) is `size_t` arithmetic on `nat`. It has wrap-around
  addition, and `x & ~m` defined bit by bit, with the rounding facts.
- `JavaTypes` (`java_types.dfy`) has `int32`, `uint32`, `byte` and Java's 32-bit
  wrap-around.
- `Wrappers` (`wrappers.dfy`) has `Option` and `Result`.

Thrown exceptions become `Result.Failure` values or an `Option<JavaException>`
out-parameter.

## Model

Source paths are relative to the repository root.

| member | source | states |
|---|---|---|
| ColorExtraction.SlotOf | core/java/com/android/internal/colorextraction/ColorExtractor.java:158-162 | a `which` value names a slot exactly when it is one of the six constants, and then the slot whose flag it is |
| ColorExtraction.AllSlotsListed | core/java/com/android/internal/colorextraction/ColorExtractor.java:78 | the constructor's flag list names every slot |
| ColorExtraction.ChangedIffLowBits | core/java/com/android/internal/colorextraction/ColorExtractor.java:195-245 | `changed` becomes true exactly when `which & 7 != 0`, so no notification happens for `which & 7 == 0` |
| ColorExtraction.SingleBitsRefresh | core/java/com/android/internal/colorextraction/ColorExtractor.java:48-51 | the overlapping tests: FLAG_SYSTEM refreshes SYSTEM, LOCKTINT and STATUSBARTINT and nothing else; FLAG_LOCK refreshes LOCK, LOCKTINT and POWERMENUTINT; FLAG_RECENTSTINT refreshes RECENTSTINT, STATUSBARTINT and POWERMENUTINT |
| ColorExtraction.PerSlot.With | core/java/com/android/internal/colorextraction/ColorExtractor.java:196-239 | replacing one slot's value changes that slot and no other |
| ColorExtraction.RefreshedAt | core/java/com/android/internal/colorextraction/ColorExtractor.java:195-241 | after the six tests a slot holds the new value exactly when its `&` test matched, and its old value otherwise |
| ColorExtraction.ChangedIffSomeSlot | core/java/com/android/internal/colorextraction/ColorExtractor.java:195-245 | the `changed` flag is set exactly when the test of at least one slot matched (both directions) |
| ColorExtraction.FlagInLowBits | core/java/com/android/internal/colorextraction/ColorExtractor.java:48-51 | every slot constant lies within the low three bits |
| ColorExtraction.NoTestMatched | core/java/com/android/internal/colorextraction/ColorExtractor.java:243-245 | when `changed` stays false, no slot's test matched |
| ColorExtraction.RefreshedInOrder | core/java/com/android/internal/colorextraction/ColorExtractor.java:195-241 | the six blocks taken one after the other, in source order, give the same per-slot result as all tests applied at once |
| ColorExtraction.DeriveAllRefreshed | core/java/com/android/internal/colorextraction/ColorExtractor.java:195-241 | deriving every slot from the refreshed samples equals refreshing the derived values with the strategy's output for the new sample |
| ColorExtraction.TintOffSample | core/java/com/android/internal/colorextraction/ColorExtractor.java:63-66 | corrected tint-off default: the colour the resource holds, three times, with no hints |
| ColorExtraction.TintOffSampleAsWritten | core/java/com/android/internal/colorextraction/ColorExtractor.java:63-66 | the default as the field initialisers write it: the resource ID itself read as an ARGB colour, three times, with no hints |
| ColorExtraction.FrameworkIdIsNearlyTransparent | core/java/com/android/internal/colorextraction/ColorExtractor.java:63-66 | a framework colour resource ID (package byte 0x01) read as a colour has alpha 1 |
| ColorExtraction.TintOffReadsIdAsColor | core/java/com/android/internal/colorextraction/ColorExtractor.java:63-66 | for a resource holding opaque black, the as-written default (alpha 1) differs from the corrected one (alpha 255) |
| ColorExtraction.IdentityResourcesGiveAsWritten | core/java/com/android/internal/colorextraction/ColorExtractor.java:63-66 | with resources mapping every ID to itself, the four tint slots start from exactly the as-written defaults |
| ColorExtraction.GradientColors.constructor | core/java/com/android/internal/colorextraction/ColorExtractor.java:82 | a new GradientColors holds (0, 0, false) |
| ColorExtraction.GradientColors.SetMainColor | core/java/com/android/internal/colorextraction/ColorExtractor.java:299-301 | sets the main colour, the other two fields unchanged |
| ColorExtraction.GradientColors.SetSecondaryColor | core/java/com/android/internal/colorextraction/ColorExtractor.java:303-305 | sets the secondary colour, the other two fields unchanged |
| ColorExtraction.GradientColors.SetSupportsDarkText | core/java/com/android/internal/colorextraction/ColorExtractor.java:307-309 | sets the dark-text hint, the other two fields unchanged |
| ColorExtraction.GradientColors.Set | core/java/com/android/internal/colorextraction/ColorExtractor.java:311-315 | afterwards the object holds exactly the value `other` held, also when `other` is this object |
| ColorExtraction.GradientColors.Equals | core/java/com/android/internal/colorextraction/ColorExtractor.java:329-338 | equal exactly when the other object is non-null and holds the same three fields |
| ColorExtraction.GradientColors.HashCode | core/java/com/android/internal/colorextraction/ColorExtractor.java:340-346 | the stepwise `31 * code + field` hash in Java `int` arithmetic equals 961·main + 31·secondary + (dark ? 0 : 1) wrapped once to 32 bits |
| ColorExtraction.EqualsImpliesSameHashCode | core/java/com/android/internal/colorextraction/ColorExtractor.java:329-346 | equals is symmetric and equal objects have equal hash codes |
| ColorExtraction.HashCodeSeparatesDarkText | core/java/com/android/internal/colorextraction/ColorExtractor.java:340-346 | two gradients that differ only in the dark-text hint never share a hash code |
| JavaTypes.Wrap32 | core/java/com/android/internal/colorextraction/ColorExtractor.java:342-344 | Java `int` arithmetic: the result is congruent to the exact value modulo 2^32 and equal to it when it is in range |
| JavaTypes.Wrap32MulAdd31 | core/java/com/android/internal/colorextraction/ColorExtractor.java:342-344 | one `31 * code + x` step gives the same `int` whether `code` was wrapped before or not |
| ColorExtraction.RemoveFirst | core/java/com/android/internal/colorextraction/ColorExtractor.java:256 | `ArrayList.remove(o)`: the list is unchanged when `o` is absent, and one element shorter when it is present |
| ColorExtraction.RemoveFirstSkips | core/java/com/android/internal/colorextraction/ColorExtractor.java:256 | `ArrayList.remove(o)` drops the first occurrence of `o` and keeps the order of the rest |
| ColorExtraction.WeakReference.constructor | core/java/com/android/internal/colorextraction/ColorExtractor.java:278 | a new weak reference refers to the listener it was made from |
| ColorExtraction.WeakReference.Clear | core/java/com/android/internal/colorextraction/ColorExtractor.java:254-255 | the garbage collector clearing a reference: `get()` returns null from then on |
| ColorExtraction.PrunedSnoc | core/java/com/android/internal/colorextraction/ColorExtractor.java:252-260 | one more reference in the copy adds at most one survivor and one callback, at the end |
| ColorExtraction.PassStep | core/java/com/android/internal/colorextraction/ColorExtractor.java:253-259 | one iteration of the pass: a cleared reference is the first occurrence removed from the live list, and a live one leaves the list alone and adds its callback |
| ColorExtraction.PrunedMembers | core/java/com/android/internal/colorextraction/ColorExtractor.java:248-261 | after the pass the list holds exactly the references whose referent is live |
| ColorExtraction.PrunedDistinct | core/java/com/android/internal/colorextraction/ColorExtractor.java:248-261 | the pass never duplicates a reference |
| ColorExtraction.RemoveAtDistinct | core/java/com/android/internal/colorextraction/ColorExtractor.java:285-289 | removing one reference from a list without repeats leaves a list without repeats |
| ColorExtraction.NotificationsFollowPruned | core/java/com/android/internal/colorextraction/ColorExtractor.java:248-261 | the callbacks go one-to-one, in order, to the listeners of the references that survive |
| ColorExtraction.IndexOfReferent | core/java/com/android/internal/colorextraction/ColorExtractor.java:284-291 | the index of the first reference to the listener: every earlier reference refers elsewhere |
| ColorExtraction.ColorExtractor.CellHolds | core/java/com/android/internal/colorextraction/ColorExtractor.java:162 | in a valid extractor each table object holds its slot's derived variant |
| ColorExtraction.ColorExtractor.constructor | core/java/com/android/internal/colorextraction/ColorExtractor.java:73-132 | six slots of three distinct fresh objects each. The strategy is the one passed in. The samples are the manager's colours for SYSTEM and LOCK (null without a manager) and the corrected tint-off defaults for the four tint slots. Every object holds that strategy's output for its slot's sample, and no listener is registered |
| ColorExtraction.ColorExtractor.NewGradientTable | core/java/com/android/internal/colorextraction/ColorExtractor.java:77-84 | the nested loops build, for each slot, three new objects at indices 0..2, each object at exactly one place |
| ColorExtraction.ColorExtractor.NewRow | core/java/com/android/internal/colorextraction/ColorExtractor.java:79-83 | the inner loop: three fresh blank objects, one per gradient type, placed at (slot, type) |
| ColorExtraction.ColorExtractor.ExtractAll | core/java/com/android/internal/colorextraction/ColorExtractor.java:108-131 | after the six extractInto calls every slot holds the strategy's output for its sample |
| ColorExtraction.ColorExtractor.ExtractIntoSlot | core/java/com/android/internal/colorextraction/ColorExtractor.java:197-200 | deriving one slot again changes that slot's three objects and nothing else |
| ColorExtraction.ColorExtractor.Fill | core/java/com/android/internal/colorextraction/ColorExtractor.java:299-309 | writing a value through the three setters leaves the object holding exactly that value |
| ColorExtraction.ColorExtractor.ExtractInto | core/java/com/android/internal/colorextraction/ColorExtractor.java:263-268 | the three output objects receive the strategy's NORMAL, DARK and EXTRA_DARK values for the sample |
| ColorExtraction.ColorExtractor.GetColorsOfType | core/java/com/android/internal/colorextraction/ColorExtractor.java:153-163 | a bad type throws first, then a `which` not among the six constants throws; otherwise the result is the table object holding that slot's variant of that type |
| ColorExtraction.ColorExtractor.GetColors | core/java/com/android/internal/colorextraction/ColorExtractor.java:141-143 | the DARK table object of the slot `which` names, with the same failure on a bad `which` |
| ColorExtraction.ColorExtractor.GetWallpaperColors | core/java/com/android/internal/colorextraction/ColorExtractor.java:172-188 | the cached sample of the named slot, without deriving; a failure exactly when `which` is not one of the six constants |
| ColorExtraction.ColorExtractor.OnColorsChanged | core/java/com/android/internal/colorextraction/ColorExtractor.java:191-246 | every slot whose `&` test matches takes the new sample and the strategy's three values for it, and the others keep theirs. If any test matched, one notification pass with the unmodified `which` runs; otherwise the listeners and callbacks are untouched. Consistency between samples and derived values is preserved |
| ColorExtraction.ColorExtractor.Block | core/java/com/android/internal/colorextraction/ColorExtractor.java:196-202 | one `if ((which & flag) != 0)` block: when the test matches, that slot takes the sample and its derived values and `changed` becomes true; when it does not, nothing changes and `changed` keeps its value |
| ColorExtraction.ColorExtractor.Refresh | core/java/com/android/internal/colorextraction/ColorExtractor.java:196-202 | one block: that slot's sample and derived values change, nothing else does |
| ColorExtraction.ColorExtractor.TriggerColorsChanged | core/java/com/android/internal/colorextraction/ColorExtractor.java:248-261 | afterwards the list is the live references of the snapshot in their order. Each live listener was called once with `which`, in list order |
| ColorExtraction.ColorExtractor.PassOne | core/java/com/android/internal/colorextraction/ColorExtractor.java:253-259 | one loop body over the snapshot, as PassStep states it |
| ColorExtraction.ColorExtractor.AddOnColorsChangedListener | core/java/com/android/internal/colorextraction/ColorExtractor.java:277-279 | one new weak reference to the listener is appended; the rest of the list is unchanged |
| ColorExtraction.ColorExtractor.RemoveOnColorsChangedListener | core/java/com/android/internal/colorextraction/ColorExtractor.java:281-292 | exactly the first reference whose referent is the listener is removed, others keep their order, and nothing changes when there is none |
| MediaDescrambler.ToUint32 | media/jni/android_media_MediaDescrambler.cpp:231-236 | a `jint` stored in a `uint32_t` is congruent to it modulo 2^32, and unchanged when non-negative |
| MediaDescrambler.EntrySize | media/jni/android_media_MediaDescrambler.cpp:238-239 | one entry adds the sum of its two `uint32_t` fields taken modulo 2^32, so never a negative amount |
| MediaDescrambler.TotalSize | media/jni/android_media_MediaDescrambler.cpp:238-239 | the accumulated total is never negative, since each entry adds an unsigned 32-bit sum |
| MediaDescrambler.TotalSizeBound | media/jni/android_media_MediaDescrambler.cpp:230-240 | the total is never negative and at most (2^32 - 1) per entry |
| MediaDescrambler.ValidTotalBound | media/jni/android_media_MediaDescrambler.cpp:200-207 | for a count that passes validation the total stays below 2^60, so a 64-bit `ssize_t` accumulator never overflows |
| MediaDescrambler.TotalSizeIsByteCount | media/jni/android_media_MediaDescrambler.cpp:238-239 | when no entry's clear plus encrypted count reaches 2^32, the total is the sum of all clear and all encrypted byte counts |
| MediaDescrambler.EntriesKeepCounts | media/jni/android_media_MediaDescrambler.cpp:231-236 | entry `i` takes `clear[i]` and `encrypted[i]` unchanged when they are non-negative |
| MediaDescrambler.NegativeCountWraps | media/jni/android_media_MediaDescrambler.cpp:231-239 | counts -1 and 1 give an entry of 2^32 - 1 clear bytes that adds nothing to the total length |
| MediaDescrambler.GetSubSampleInfo | media/jni/android_media_MediaDescrambler.cpp:196-257 | an invalid count (≤ 0 or ≥ INT32_MAX / 8) gives -1 and no array. Otherwise it gives a new array whose entry `i` is built from `clear[i]` and `encrypted[i]` (0 for a null array), and the total over those entries, which lies in [0, 2^60) |
| MediaDescrambler.GetBufferAndSize | media/jni/android_media_MediaDescrambler.cpp:56-98 | INVALID_OPERATION exactly for a non-direct buffer without an accessible array, carrying the exception `array()` left pending (ReadOnlyBufferException or UnsupportedOperationException). Otherwise -ERANGE exactly when `length + offset` exceeds the storage size, and on success the range lies inside the storage that is returned |
| MediaDescrambler.AlignedCapacity | media/jni/android_media_MediaDescrambler.cpp:124-127 | the two `(n + m) & ~m` steps in `size_t` give a value below 2^64 whose low 16 bits are clear |
| MediaDescrambler.AlignedCapacityAsRoundUps | media/jni/android_media_MediaDescrambler.cpp:124-127 | for an alignment 2^k ≤ 65536 the two `(n + m) & ~m` steps are round-ups without `size_t` wrap-around |
| MediaDescrambler.AlignedCapacityBounds | media/jni/android_media_MediaDescrambler.cpp:116-130 | the new capacity is at least `neededSize`, a multiple of 65536, and a multiple of the alignment |
| MediaDescrambler.RemoteDescrambler.constructor | media/jni/android_media_MediaDescrambler.cpp:101-107 | the remote end has seen no input yet |
| MediaDescrambler.RemoteDescrambler.Descramble | media/jni/android_media_MediaDescrambler.cpp:162-163 | the remote call receives the key, the sub-sample entries and the shared memory as it was handed over; its status and result are arbitrary |
| MediaDescrambler.JDescrambler.constructor | media/jni/android_media_MediaDescrambler.cpp:101-107 | the shared memory starts absent |
| MediaDescrambler.JDescrambler.EnsureBufferCapacity | media/jni/android_media_MediaDescrambler.cpp:116-130 | a buffer that is already large enough is kept. Otherwise a fresh one replaces it, of the aligned capacity; either way the buffer holds at least `neededSize` bytes |
| MediaDescrambler.JDescrambler.Descramble | media/jni/android_media_MediaDescrambler.cpp:132-172 | the shared memory is kept when large enough and is otherwise freshly allocated. The remote side receives the key, the sub-sample entries and the `totalLength` source bytes. A failed status or an oversized result gives -1 with the destination unchanged; otherwise the remote result is returned. For a positive result exactly that many shared bytes land at `dst[dstOffset..]`, and the rest of `dst` is unchanged |
| MediaDescrambler.SelectBuffersAsWritten | media/jni/android_media_MediaDescrambler.cpp:282-292 | the source's selection: success implies only that the source range fits |
| MediaDescrambler.InPlaceOffsetUnchecked | media/jni/android_media_MediaDescrambler.cpp:286-288 | a 10-byte source with no destination buffer and `dstOffset` 100 is accepted, so the in-place copy-out would land outside the buffer |
| MediaDescrambler.SelectBuffers | media/jni/android_media_MediaDescrambler.cpp:282-292 | corrected selection: success exactly when the source range fits and the destination range fits the destination buffer, or the source buffer when there is none. On success the storage and both ranges are as the checks state |
| MediaDescrambler.SelectBuffersAgrees | media/jni/android_media_MediaDescrambler.cpp:282-292 | the corrected selection equals the source's except in place with a destination range that does not fit, where only the corrected one fails |
| MediaDescrambler.PendingException | media/jni/android_media_MediaDescrambler.cpp:72-77 | the exception left pending after the selection is the source buffer's `array()` failure, else the destination's once the source range fits, else none |
| MediaDescrambler.SubSampleTotal | media/jni/android_media_MediaDescrambler.cpp:270-272 | the total length of valid sub-sample info lies in [0, 2^60) |
| MediaDescrambler.SelectAndDescramble | media/jni/android_media_MediaDescrambler.cpp:279-298 | with the corrected selection: a failed selection gives -1, writes no byte, leaves the descrambler and its shared memory untouched, and leaves pending the exception `array()` threw, if any. A successful one returns the remote result when the remote status is OK and the result is at most the total, and -1 otherwise. The shared memory is kept or freshly allocated. The remote side saw the key, the sub-sample entries and the source range, and a positive result put exactly that many shared bytes at `dst[dstOffset..]` with the rest of `dst` unchanged; a separate source buffer is only read |
| MediaDescrambler.NativeDescramble | media/jni/android_media_MediaDescrambler.cpp:259-308 | no native object gives -1 with IllegalStateException. Invalid sub-sample info gives -1 with IllegalArgumentException("Invalid sub sample info!"). On both early returns no buffer is written, and on the second the descrambler and its shared memory are untouched. Otherwise the result, the pending exception, the bytes written and what the remote receives are exactly as `SelectAndDescramble` states, for the entries and the total getSubSampleInfo computes |
| SizeArithmetic.SizeAdd | media/jni/android_media_MediaDescrambler.cpp:87 | `size_t` addition stays below 2^64 and is exact when it does not wrap |
| SizeArithmetic.SizePred | media/jni/android_media_MediaDescrambler.cpp:124 | `alignment - 1` in `size_t`, exact for a non-zero alignment |
| SizeArithmetic.AlignUpIsRoundUp | media/jni/android_media_MediaDescrambler.cpp:125-127 | `(x + 2^k - 1) & ~(2^k - 1)` in `size_t` is the round-up of `x` to a multiple of 2^k when the sum does not wrap |
| SizeArithmetic.LowBitsBelow | media/jni/android_media_MediaDescrambler.cpp:125-127 | the low `k` bits of a number are less than 2^k |
| SizeArithmetic.BitSplit | media/jni/android_media_MediaDescrambler.cpp:125-127 | every number is its high part shifted left by `k` plus its low `k` bits |
| SizeArithmetic.ShlIsProduct | media/jni/android_media_MediaDescrambler.cpp:125-127 | shifting left by `k` multiplies by 2^k |
| SizeArithmetic.AndNotLowOnes | media/jni/android_media_MediaDescrambler.cpp:124-127 | `x & ~(2^k - 1)` is `x` minus its low `k` bits |
| SizeArithmetic.RoundUpStep | media/jni/android_media_MediaDescrambler.cpp:124-127 | `(x + 2^k - 1) & ~(2^k - 1)` lies in [x, x + 2^k - 1] and has its low `k` bits clear |
| SizeArithmetic.AndNotLowOnesAligned | media/jni/android_media_MediaDescrambler.cpp:125-127 | `x & ~(2^k - 1)` has its low `k` bits clear |
| SizeArithmetic.AlignedBelow | media/jni/android_media_MediaDescrambler.cpp:125-127 | a number aligned to 2^k is aligned to every smaller power of two, so the 64 KiB round-up keeps the alignment |
| SizeArithmetic.ClearLowBitsMultiple | media/jni/android_media_MediaDescrambler.cpp:127 | a number whose low `k` bits are clear is a multiple of 2^k |

## Left out

- The `WallpaperManager` subscription in the constructor and in `destroy()`
  (ColorExtractor.java:94-105, 270-275) is a system-service call. "No manager" is modelled
  only as null samples for SYSTEM and LOCK.
- `Trace`, `Log` and the `DEBUG` logging have no effect on state.
- The tint-off defaults (ColorExtractor.java:63-66) apply `Color.valueOf` to the resource ID
  constants themselves, so no resource is read (see Findings). The model takes the IDs
  (`TintOffColors`) and the colours they hold (`ColorResources`) as constructor input.
- `ColorExtractor.constructor`: the four tint slots start from the corrected default
  `TintOffSample`, the colour each resource holds, not from the resource ID read as a colour
  as the initialisers write it (see Findings). Passing `resources := x => x` gives the
  source's start (`IdentityResourcesGiveAsWritten`).
- The colour maths of `Tonal`/`ExtractionType` is not visible here. The strategy is any
  deterministic function of the optional sample.
- `GradientColors.toString` is cosmetic hex formatting.
- The `GradientColors` getters are the `Value()` function over the three fields.
- `GradientColors.Equals`: the `getClass()` comparison is not modelled, because
  subclasses are not modelled.
- Garbage collection is the `WeakReference.Clear` method. The model does not say when
  it happens.
- A listener's own `onColorsChanged` is not run; each call is recorded in the ghost log
  `callbacks`. Re-entrant listeners that change the extractor during the pass are not
  modelled.
- Callers may mutate a `GradientColors` returned by `getColors`, which aliases the table.
  `Valid()` then no longer holds, and this model does not follow such writes.
- The `SparseArray` keyed by flag is a map keyed by the slot. Flag and slot correspond
  one to one (`SlotOf`).
- The JNI environment calls are not modelled: `GetDirectBufferAddress`,
  `Get/ReleaseByteArrayElements`, `GetIntArrayElements`, `FindClass` and
  `jniThrowException`. A heap array's element copy is treated as the array itself, so the
  copy-back on release is implicit.
- The binder transport of `IDescrambler` is not modelled beyond an arbitrary result.
  Neither are `MemoryDealer` internals, `incStrong`/`decStrong` reference counting, method
  registration or `mSharedMemLock` (concurrency).
- Allocation never fails in the model. This covers `new(std::nothrow)` in
  `getSubSampleInfo` and `MemoryDealer::allocate`.
- `NativeDescramble`: negative `jint` offsets are a precondition, because the source does
  not guard them. The `int[]` arrays holding at least `numSubSamples` elements
  (`InputsCover`) is a precondition for the same reason.
- `TotalSize`: `size_t` and `ssize_t` are taken to be 64 bits wide. On a 32-bit build the
  `ssize_t` total can wrap negative (two entries with clear counts 0x7FFFFFFF and 1 give
  -2^31), and the source then throws IllegalArgumentException("Invalid sub sample info!").
  The model gives 2^31 instead, so the range checks fail and -1 is returned without an
  exception. 32-bit builds are not modelled.
- `NativeDescramble`: on a 64-bit build the `totalLength < 0` test is reached only through
  `getSubSampleInfo`'s -1. A valid count never produces a negative total
  (`ValidTotalBound`).
- `NativeDescramble`: it uses the corrected `SelectBuffers` (see Findings). The as-written
  selection is `SelectBuffersAsWritten`.
- `JDescrambler.Descramble`: the shared buffer must not be the source or destination
  array, which holds in the source since it is freshly allocated shared memory.
- `SelectAndDescramble`: it uses the corrected `SelectBuffers` (see Findings), which also
  checks the in-place destination range; the as-written selection is `SelectBuffersAsWritten`.
- `JDescrambler.constructor`: a null binder object is not modelled. In the source
  (cpp:103-106) `mDescrambler` then stays null and a later descramble would dereference it;
  the model's `remote` is always present.
- `JDescrambler.constructor`: the allocation alignment is taken to be a power of two
  dividing 65536 (2^k with k ≤ 16).
- `GetBufferAndSize`: it requires an offset within `jint` and a length below 2^64, which every
  caller's arguments satisfy. It states the `length + offset > bufSize` equivalence only without
  `size_t` wrap-around. No call reaches the wrap, because every length is below 2^60 and
  every offset below 2^31.
- `PerSlot.Refreshed` has no contract of its own. Its meaning is the lemma `RefreshedAt`.

## Findings

| source | as written | input that shows it | evidently intended | confidence | as-written member | corrected member |
|---|---|---|---|---|---|---|
| core/java/com/android/internal/colorextraction/ColorExtractor.java:63-66 | the tint-off defaults apply `Color.valueOf(int)` to the `R.color.*_tint_off_color` resource ID, so the ID's bits are used as an ARGB colour | any framework colour resource: its ID 0x0106xxxx read as a colour has alpha 1, whatever colour the resource holds | use the colour the resource holds | medium, not executed | ColorExtraction.TintOffReadsIdAsColor | ColorExtraction.TintOffSample |
| media/jni/android_media_MediaDescrambler.cpp:286-288 | with no destination buffer, the destination is the source buffer, but `dstOffset` is never range-checked against it | a 10-byte direct source buffer, `srcOffset` 0, `totalLength` 10, no destination buffer, `dstOffset` 100: the selection succeeds and a positive result would be copied to bytes 100.. of a 10-byte buffer | check `dstOffset + totalLength` against the source buffer's size, as `getBufferAndSize` does for a separate destination | low (Java callers may always pass equal offsets), not executed | MediaDescrambler.InPlaceOffsetUnchecked | MediaDescrambler.SelectBuffers |

A second behaviour follows from the `uint32_t` fields and is shown by
`MediaDescrambler.NegativeCountWraps`. A negative count in the `int[]` arrays is stored as a
huge unsigned count, yet the per-entry unsigned sum can wrap back to a small length. The
source passes such entries to the remote descrambler unchanged, and the model keeps that
behaviour.
