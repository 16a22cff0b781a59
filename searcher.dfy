/** The host side of one device search session (core/searcher.py): packing
    the search patterns, binding them to device buffers under a
    reuse-unless-too-small rule, dispatching the kernel with one seed advance
    per call, and counting found outputs. Device buffers are a handle id and
    a size; the kernel itself is opaque. */
module Searcher {
  import opened Wrappers
  import opened Text

  /** A device buffer (`cl.Buffer`): its identity and its size in bytes. */
  datatype Buffer = Buffer(id: nat, size: nat)

  /** A kernel argument as `kernel.set_arg` receives it. */
  datatype KernelArg = BufferArg(buffer: Buffer) | UInt32Arg(value: nat) | UInt8Arg(value: nat)

  /** One `enqueue_nd_range_kernel` call: its work sizes and the seed (by
      its advance count) that was copied to the device for it. */
  datatype Launch = Launch(globalSize: nat, localSize: nat, seed: nat)

  /** The packed prefixes: concatenated bytes and one `uint8` length each. */
  datatype Packed = Packed(data: seq<byte>, lengths: seq<byte>)

  /** The host output array: found byte plus 32 bytes. */
  const OutputBytes: nat := 33

  /** `np.uint32` keeps the value modulo 2^32. */
  const UInt32Modulus: nat := 0x1_0000_0000

  function Zeros(n: nat): seq<byte>
  {
    seq(n, k => 0)
  }

  // ---------------------------------------------------------------------
  // Packing the prefixes

  /** Total number of UTF-8 bytes of a list of strings. */
  function EncodedSize(ps: seq<string>): nat
  {
    if ps == [] then 0 else |Utf8(ps[0])| + EncodedSize(ps[1..])
  }

  /** `b''.join(p.encode("utf-8") for p in ps)`. */
  function PackData(ps: seq<string>): (r: seq<byte>)
    ensures |r| == EncodedSize(ps)
  {
    if ps == [] then [] else Utf8(ps[0]) + PackData(ps[1..])
  }

  /** The bytes of prefix `i` sit in the packed data right after those of
      the prefixes before it: the data is the in-order concatenation. */
  lemma {:induction false} PackDataAt(ps: seq<string>, i: nat)
    requires i < |ps|
    ensures EncodedSize(ps[..i]) + |Utf8(ps[i])| <= |PackData(ps)|
    ensures PackData(ps)[EncodedSize(ps[..i])..EncodedSize(ps[..i]) + |Utf8(ps[i])|] == Utf8(ps[i])
  {
    var front, rest := ps[..i], ps[i..];
    var here, back := Utf8(ps[i]), PackData(ps[i + 1..]);
    assert PackData(ps) == PackData(front) + (here + back) by {
      assert ps == front + rest;
      PackDataAppend(front, rest);
      assert rest[0] == ps[i] && rest[1..] == ps[i + 1..];
    }
    SliceMiddle(PackData(front), here, back);
  }

  /** Packing a concatenation is concatenating the packings. */
  lemma {:induction false} PackDataAppend(xs: seq<string>, ys: seq<string>)
    ensures PackData(xs + ys) == PackData(xs) + PackData(ys)
  {
    if xs == [] {
      assert xs + ys == ys;
    } else {
      assert (xs + ys)[0] == xs[0] && (xs + ys)[1..] == xs[1..] + ys;
      PackDataAppend(xs[1..], ys);
    }
  }

  /** The middle part of a three-way concatenation, sliced back out. */
  lemma SliceMiddle<T>(a: seq<T>, b: seq<T>, c: seq<T>)
    ensures (a + (b + c))[|a|..|a| + |b|] == b
  {
  }

  /** The `uint8` length array: each prefix's encoded length modulo 256. */
  function Lengths(ps: seq<string>): (r: seq<byte>)
  {
    seq(|ps|, i requires 0 <= i < |ps| => |Utf8(ps[i])| % 256)
  }

  /** The prefix packing of `set_search_params`: `prefix_data` holds all
      encoded prefixes (laid out as `PackDataAt` states), and
      `prefix_lengths[i]` is the encoded length of prefix `i` as a `uint8`. */
  function PackPrefixes(ps: seq<string>): (r: Packed)
    ensures |r.lengths| == |ps|
    ensures forall i :: 0 <= i < |ps| ==> r.lengths[i] == |Utf8(ps[i])| % 256
    ensures |r.data| == EncodedSize(ps)
  {
    Packed(PackData(ps), Lengths(ps))
  }

  /** Reading packed data back by its length array, as a consumer of the
      kernel arguments would: None when the data runs short or has bytes
      left over. */
  function Unpack(data: seq<byte>, lengths: seq<byte>): Option<seq<seq<byte>>>
  {
    if lengths == [] then
      if data == [] then Some([]) else None
    else if |data| < lengths[0] then None
    else
      match Unpack(data[lengths[0]..], lengths[1..])
      case None => None
      case Some(rest) => Some([data[..lengths[0]]] + rest)
  }

  /** `[p.encode("utf-8") for p in ps]`. */
  function EncodeAll(ps: seq<string>): seq<seq<byte>>
  {
    seq(|ps|, i requires 0 <= i < |ps| => Utf8(ps[i]))
  }

  /** The packing can be read back exactly when every encoded prefix is
      shorter than 256 bytes. */
  lemma {:induction false} UnpackPackPrefixes(ps: seq<string>)
    requires forall i :: 0 <= i < |ps| ==> |Utf8(ps[i])| < 256
    ensures Unpack(PackPrefixes(ps).data, PackPrefixes(ps).lengths) == Some(EncodeAll(ps))
  {
    if ps == [] {
      assert Lengths(ps) == [] && EncodeAll(ps) == [];
    } else {
      var tail := ps[1..];
      assert forall i :: 0 <= i < |tail| ==> tail[i] == ps[i + 1];
      UnpackPackPrefixes(tail);
      UnpackPackCons(ps);
    }
  }

  /** One step of the read-back: a first prefix shorter than 256 bytes is
      read back in front of the rest. */
  lemma UnpackPackCons(ps: seq<string>)
    requires ps != [] && forall i :: 0 <= i < |ps| ==> |Utf8(ps[i])| < 256
    requires Unpack(PackData(ps[1..]), Lengths(ps[1..])) == Some(EncodeAll(ps[1..]))
    ensures Unpack(PackData(ps), Lengths(ps)) == Some(EncodeAll(ps))
  {
    var tail, head := ps[1..], Utf8(ps[0]);
    var d, l := PackData(ps), Lengths(ps);
    var dt, lt := PackData(tail), Lengths(tail);
    assert l != [] && l[0] == |head| && l[1..] == lt by {
      LengthsCons(ps);
      ByteFits(|head|);
    }
    assert |head| <= |d| && d[|head|..] == dt && d[..|head|] == head by {
      assert d == head + dt;
    }
    assert EncodeAll(ps) == [head] + EncodeAll(tail) by {
      EncodeAllCons(ps);
    }
  }

  /** A length below 256 is its own `uint8`. */
  lemma ByteFits(n: nat)
    requires n < 256
    ensures n % 256 == n
  {
  }

  /** The length array of a non-empty list starts with its first entry. */
  lemma LengthsCons(ps: seq<string>)
    requires ps != []
    ensures Lengths(ps) == [|Utf8(ps[0])| % 256] + Lengths(ps[1..])
  {
    var a, b := Lengths(ps), [|Utf8(ps[0])| % 256] + Lengths(ps[1..]);
    forall i | 0 <= i < |a|
      ensures a[i] == b[i]
    {
      if i > 0 {
        assert ps[1..][i - 1] == ps[i];
      }
    }
  }

  /** The encodings of a non-empty list start with that of its first entry. */
  lemma EncodeAllCons(ps: seq<string>)
    requires ps != []
    ensures EncodeAll(ps) == [Utf8(ps[0])] + EncodeAll(ps[1..])
  {
    var a, b := EncodeAll(ps), [Utf8(ps[0])] + EncodeAll(ps[1..]);
    forall i | 0 <= i < |a|
      ensures a[i] == b[i]
    {
      if i > 0 {
        assert ps[1..][i - 1] == ps[i];
      }
    }
  }

  /** A prefix of 256 encoded bytes gets the length byte 0. */
  lemma LongPrefixLengthWraps(p: string)
    requires |Utf8(p)| == 256
    ensures PackPrefixes([p]).lengths == [0]
  {
  }

  // ---------------------------------------------------------------------
  // The buffer-capacity rule

  /** The session's seven device buffers: `memobj_key32`, `memobj_output`,
      `memobj_occupied_bytes`, `memobj_group_offset`, `memobj_prefixes`,
      `memobj_prefix_lengths` and `memobj_suffix`. A slot that is not yet
      in the session's buffer map is one whose attribute is still `None`. */
  datatype Slot = Key32 | Output | OccupiedBytes | GroupOffset | PrefixData | PrefixLengths | SuffixData

  /** A map with all seven slots holds every slot. */
  lemma AllSlotsPresent(buffers: map<Slot, Buffer>)
    requires Key32 in buffers && Output in buffers && OccupiedBytes in buffers && GroupOffset in buffers
    requires PrefixData in buffers && PrefixLengths in buffers && SuffixData in buffers
    ensures forall slot: Slot :: slot in buffers
  {
    forall slot: Slot
      ensures slot in buffers
    {
      match slot
      case Key32 =>
      case Output =>
      case OccupiedBytes =>
      case GroupOffset =>
      case PrefixData =>
      case PrefixLengths =>
      case SuffixData =>
    }
  }

  /** The buffer in `slot`, `None` while its attribute is still unset. */
  function Get(buffers: map<Slot, Buffer>, slot: Slot): Option<Buffer>
  {
    if slot in buffers then Some(buffers[slot]) else None
  }

  /** A buffer is kept when present and large enough, otherwise replaced by
      a new one of `firstSize` bytes (when absent) or `required` bytes (when
      too small); either way it ends up with at least `required` bytes. New
      buffers have handles from `firstHandle` on. */
  ghost predicate Grown(before: Option<Buffer>, after: Option<Buffer>,
                        required: nat, firstSize: nat, firstHandle: nat)
  {
    after.Some? && after.value.size >= required &&
    (before.Some? && before.value.size >= required ==> after == before) &&
    (before.None? ==> after.value.size == firstSize && after.value.id >= firstHandle) &&
    (before.Some? && before.value.size < required ==>
       after.value.size == required && after.value.id >= firstHandle)
  }

  /** A buffer allocated with `size` bytes on the first call and kept
      afterwards. */
  ghost predicate AllocatedOnce(before: Option<Buffer>, after: Option<Buffer>, size: nat, firstHandle: nat)
  {
    Grown(before, after, 0, size, firstHandle)
  }

  /** The handle of the buffer in `slot`, or -1 when there is none. */
  function HandleOf(buffers: map<Slot, Buffer>, slot: Slot): int
  {
    if slot in buffers then buffers[slot].id else -1
  }

  /** Every buffer has a handle below `bound`, and no two slots share one. */
  ghost predicate DistinctBelow(buffers: map<Slot, Buffer>, bound: nat)
  {
    (forall s :: HandleOf(buffers, s) < bound) &&
    (forall s, t :: s != t && HandleOf(buffers, s) >= 0 ==> HandleOf(buffers, s) != HandleOf(buffers, t))
  }

  /** The allocation step of `set_search_params` for one buffer: keep it
      when present and large enough, otherwise make a new `cl.Buffer` with
      the next handle `handle`, of `firstSize` bytes when there was none and
      `required` bytes when it was too small. Returns the buffer and the
      handle after it. */
  function Reserved(before: Option<Buffer>, handle: nat, required: nat, firstSize: nat): (r: (Buffer, nat))
    requires firstSize >= required
    ensures Grown(before, Some(r.0), required, firstSize, handle)
    ensures (Some(r.0) == before && r.1 == handle) || (r.0.id == handle && r.1 == handle + 1)
  {
    if before.None? then (Buffer(handle, firstSize), handle + 1)
    else if before.value.size < required then (Buffer(handle, required), handle + 1)
    else (before.value, handle)
  }

  /** `max(1, n)`: the size of the first suffix buffer. */
  function FirstSuffixSize(n: nat): nat
  {
    if n < 1 then 1 else n
  }

  /** The allocation half of `set_search_params`, slot by slot in source
      order, each new buffer taking the next handle: every buffer is made
      when absent, and the prefix, prefix-length and suffix buffers are
      replaced when smaller than `dataSize`, `lengthsSize` and `suffixSize`
      bytes. Returns the buffers and the next unused handle. */
  function ReserveAll(buffers: map<Slot, Buffer>, handle: nat, key32Size: nat,
                      dataSize: nat, lengthsSize: nat, suffixSize: nat): (r: (map<Slot, Buffer>, nat))
    ensures handle <= r.1
  {
    var k := Reserved(Get(buffers, Key32), handle, 0, key32Size);
    var o := Reserved(Get(buffers, Output), k.1, 0, OutputBytes);
    var c := Reserved(Get(buffers, OccupiedBytes), o.1, 0, 1);
    var g := Reserved(Get(buffers, GroupOffset), c.1, 0, 1);
    var p := Reserved(Get(buffers, PrefixData), g.1, dataSize, dataSize);
    var l := Reserved(Get(buffers, PrefixLengths), p.1, lengthsSize, lengthsSize);
    var s := Reserved(Get(buffers, SuffixData), l.1, suffixSize, FirstSuffixSize(suffixSize));
    (buffers[Key32 := k.0][Output := o.0][OccupiedBytes := c.0][GroupOffset := g.0]
            [PrefixData := p.0][PrefixLengths := l.0][SuffixData := s.0], s.1)
  }

  /** Each buffer follows the reuse-unless-too-small rule, with new handles
      from `handle` on. */
  lemma ReserveAllGrows(buffers: map<Slot, Buffer>, handle: nat, key32Size: nat,
                        dataSize: nat, lengthsSize: nat, suffixSize: nat)
    ensures var after := ReserveAll(buffers, handle, key32Size, dataSize, lengthsSize, suffixSize).0;
            AllocatedOnce(Get(buffers, Key32), Get(after, Key32), key32Size, handle) &&
            AllocatedOnce(Get(buffers, Output), Get(after, Output), OutputBytes, handle) &&
            AllocatedOnce(Get(buffers, OccupiedBytes), Get(after, OccupiedBytes), 1, handle) &&
            AllocatedOnce(Get(buffers, GroupOffset), Get(after, GroupOffset), 1, handle) &&
            Grown(Get(buffers, PrefixData), Get(after, PrefixData), dataSize, dataSize, handle) &&
            Grown(Get(buffers, PrefixLengths), Get(after, PrefixLengths), lengthsSize, lengthsSize, handle) &&
            Grown(Get(buffers, SuffixData), Get(after, SuffixData), suffixSize,
                  FirstSuffixSize(suffixSize), handle)
  {
  }

  /** Reserving one slot keeps the handles distinct and below the next one. */
  lemma ReservedKeepsDistinct(buffers: map<Slot, Buffer>, slot: Slot, handle: nat, required: nat, firstSize: nat)
    requires firstSize >= required && DistinctBelow(buffers, handle)
    ensures var r := Reserved(Get(buffers, slot), handle, required, firstSize);
            DistinctBelow(buffers[slot := r.0], r.1)
  {
    var r := Reserved(Get(buffers, slot), handle, required, firstSize);
    var after := buffers[slot := r.0];
    var kept := Some(r.0) == Get(buffers, slot);
    assert kept ==> r.0.id == HandleOf(buffers, slot) < handle && r.1 == handle;
    assert !kept ==> r.0.id == handle && r.1 == handle + 1;
    forall s
      ensures HandleOf(after, s) < r.1
    {
      if s == slot {
        assert HandleOf(after, s) == r.0.id;
      } else {
        assert HandleOf(after, s) == HandleOf(buffers, s);
      }
    }
    forall s, t | s != t && HandleOf(after, s) >= 0
      ensures HandleOf(after, s) != HandleOf(after, t)
    {
      if s == slot {
        assert HandleOf(after, s) == r.0.id && HandleOf(after, t) == HandleOf(buffers, t);
      } else if t == slot {
        assert HandleOf(after, t) == r.0.id && HandleOf(after, s) == HandleOf(buffers, s);
      } else {
        assert HandleOf(after, s) == HandleOf(buffers, s) && HandleOf(after, t) == HandleOf(buffers, t);
      }
    }
  }

  /** After reserving, no two buffers share a handle and all lie below the
      next one. */
  lemma ReserveAllDistinct(buffers: map<Slot, Buffer>, handle: nat, key32Size: nat,
                           dataSize: nat, lengthsSize: nat, suffixSize: nat)
    requires DistinctBelow(buffers, handle)
    ensures var r := ReserveAll(buffers, handle, key32Size, dataSize, lengthsSize, suffixSize);
            DistinctBelow(r.0, r.1)
  {
    var m, h := buffers, handle;
    ReservedKeepsDistinct(m, Key32, h, 0, key32Size);
    var k := Reserved(Get(m, Key32), h, 0, key32Size);
    m, h := m[Key32 := k.0], k.1;
    assert Get(m, Output) == Get(buffers, Output);
    ReservedKeepsDistinct(m, Output, h, 0, OutputBytes);
    var o := Reserved(Get(m, Output), h, 0, OutputBytes);
    m, h := m[Output := o.0], o.1;
    assert Get(m, OccupiedBytes) == Get(buffers, OccupiedBytes);
    ReservedKeepsDistinct(m, OccupiedBytes, h, 0, 1);
    var c := Reserved(Get(m, OccupiedBytes), h, 0, 1);
    m, h := m[OccupiedBytes := c.0], c.1;
    assert Get(m, GroupOffset) == Get(buffers, GroupOffset);
    ReservedKeepsDistinct(m, GroupOffset, h, 0, 1);
    var g := Reserved(Get(m, GroupOffset), h, 0, 1);
    m, h := m[GroupOffset := g.0], g.1;
    assert Get(m, PrefixData) == Get(buffers, PrefixData);
    ReservedKeepsDistinct(m, PrefixData, h, dataSize, dataSize);
    var p := Reserved(Get(m, PrefixData), h, dataSize, dataSize);
    m, h := m[PrefixData := p.0], p.1;
    assert Get(m, PrefixLengths) == Get(buffers, PrefixLengths);
    ReservedKeepsDistinct(m, PrefixLengths, h, lengthsSize, lengthsSize);
    var l := Reserved(Get(m, PrefixLengths), h, lengthsSize, lengthsSize);
    m, h := m[PrefixLengths := l.0], l.1;
    assert Get(m, SuffixData) == Get(buffers, SuffixData);
    ReservedKeepsDistinct(m, SuffixData, h, suffixSize, FirstSuffixSize(suffixSize));
  }

  /** After reserving, every slot holds a buffer; when every buffer was
      kept, no handle was used. */
  lemma ReserveAllComplete(buffers: map<Slot, Buffer>, handle: nat, key32Size: nat,
                           dataSize: nat, lengthsSize: nat, suffixSize: nat)
    requires DistinctBelow(buffers, handle)
    ensures var r := ReserveAll(buffers, handle, key32Size, dataSize, lengthsSize, suffixSize);
            (forall slot: Slot :: slot in r.0) && (r.0 == buffers ==> r.1 == handle)
  {
    var r := ReserveAll(buffers, handle, key32Size, dataSize, lengthsSize, suffixSize);
    AllSlotsPresent(r.0);
  }

  /** Reserving again for the same sizes keeps every buffer and uses no
      handle. */
  lemma ReserveAllIdempotent(buffers: map<Slot, Buffer>, handle: nat, key32Size: nat,
                             dataSize: nat, lengthsSize: nat, suffixSize: nat)
    requires DistinctBelow(buffers, handle)
    ensures var r := ReserveAll(buffers, handle, key32Size, dataSize, lengthsSize, suffixSize);
            ReserveAll(r.0, r.1, key32Size, dataSize, lengthsSize, suffixSize) == r
  {
    var r := ReserveAll(buffers, handle, key32Size, dataSize, lengthsSize, suffixSize);
    ReserveAllGrows(buffers, handle, key32Size, dataSize, lengthsSize, suffixSize);
    ReserveAllComplete(buffers, handle, key32Size, dataSize, lengthsSize, suffixSize);
    ReserveAllDistinct(buffers, handle, key32Size, dataSize, lengthsSize, suffixSize);
    ReserveAllComplete(r.0, r.1, key32Size, dataSize, lengthsSize, suffixSize);
    var r2 := ReserveAll(r.0, r.1, key32Size, dataSize, lengthsSize, suffixSize);
    assert r2.0 == r.0;
  }

  /** Once the suffix buffer has been made with at least one byte, every
      later suffix buffer holds at least `max(1, suffixSize)` bytes: a kept
      one is at least that large, and a replacement is larger than the one
      it replaces. */
  lemma ReserveAllSuffixCapacity(buffers: map<Slot, Buffer>, handle: nat, key32Size: nat,
                                 dataSize: nat, lengthsSize: nat, suffixSize: nat)
    requires SuffixData in buffers ==> buffers[SuffixData].size >= 1
    ensures var after := ReserveAll(buffers, handle, key32Size, dataSize, lengthsSize, suffixSize).0;
            SuffixData in after && after[SuffixData].size >= FirstSuffixSize(suffixSize)
  {
    ReserveAllGrows(buffers, handle, key32Size, dataSize, lengthsSize, suffixSize);
  }

  /** Once the output buffer exists, it and the host output array have the
      33 bytes of one result. */
  ghost predicate OutputShaped(buffers: map<Slot, Buffer>, output: Option<seq<byte>>)
  {
    (Output in buffers ==> buffers[Output].size == OutputBytes && output.Some?) &&
    (output.Some? ==> |output.value| == OutputBytes)
  }

  /** Every launch used a different seed, in increasing order, and all of
      them lie before the current `seed`: no seed is ever searched twice. */
  ghost predicate SeedsFresh(launches: seq<Launch>, seed: nat)
  {
    (forall i :: 0 <= i < |launches| ==> launches[i].seed < seed) &&
    (forall i, j :: 0 <= i < j < |launches| ==> launches[i].seed < launches[j].seed)
  }

  // ---------------------------------------------------------------------
  // The shared setting and the session

  /** The part of the shared `HostSetting` the session reads: the work
      sizes, the occupied-byte count, the size of the seed buffer, and the
      seed, known here only by how many times it has been advanced. */
  class HostSetting {
    const globalWorkSize: nat
    const localWorkSize: nat
    const iterationBytes: byte
    const key32Size: nat
    var seed: nat

    constructor (globalWorkSize: nat, localWorkSize: nat, iterationBytes: byte, key32Size: nat)
      ensures this.globalWorkSize == globalWorkSize && this.localWorkSize == localWorkSize
      ensures this.iterationBytes == iterationBytes && this.key32Size == key32Size
      ensures seed == 0
    {
      this.globalWorkSize := globalWorkSize;
      this.localWorkSize := localWorkSize;
      this.iterationBytes := iterationBytes;
      this.key32Size := key32Size;
      seed := 0;
    }

    /** `increase_key32()`: one opaque advance of the seed. */
    method IncreaseKey32()
      modifies this
      ensures seed == old(seed) + 1
    {
      seed := seed + 1;
    }
  }

  class Searcher {
    const index: nat
    const gpuChunks: nat
    const setting: HostSetting

    /** The device buffers allocated so far. */
    var buffers: map<Slot, Buffer>
    /** The host output array `self.output`. */
    var output: Option<seq<byte>>
    /** The bytes last copied into each device buffer, by handle. */
    var contents: map<nat, seq<byte>>
    /** The seed (by advance count) last copied into the seed buffer. */
    var seedCopied: Option<nat>
    /** The kernel arguments set so far, by position. */
    var args: map<nat, KernelArg>
    /** Every kernel launch so far, in order. */
    var launches: seq<Launch>
    /** The next unused buffer handle. */
    var nextHandle: nat

    ghost predicate Valid()
      reads this, setting
    {
      index < gpuChunks &&
      DistinctBelow(buffers, nextHandle) &&
      (SuffixData in buffers ==> buffers[SuffixData].size >= 1) &&
      OutputShaped(buffers, output) &&
      SeedsFresh(launches, setting.seed)
    }

    /** `Searcher(...)` for device `index` of `gpuChunks` devices: no buffer
        yet. The OpenCL context, queue and program build are not modelled. */
    constructor (index: nat, gpuChunks: nat, setting: HostSetting)
      requires index < gpuChunks
      ensures Valid()
      ensures this.index == index && this.gpuChunks == gpuChunks && this.setting == setting
      ensures buffers == map[] && output.None? && seedCopied.None?
      ensures contents == map[] && args == map[] && launches == []
    {
      this.index := index;
      this.gpuChunks := gpuChunks;
      this.setting := setting;
      buffers, output := map[], None;
      contents, seedCopied, args, launches, nextHandle := map[], None, map[], [], 0;
    }

    /** The allocation half of `set_search_params`: every buffer is made
        when absent, and the prefix, prefix-length and suffix buffers are
        replaced when smaller than `dataSize`, `lengthsSize` and
        `suffixSize` bytes (a first suffix buffer has at least one byte).
        The host output array is made zeroed together with its buffer. */
    method ReserveBuffers(dataSize: nat, lengthsSize: nat, suffixSize: nat)
      requires DistinctBelow(buffers, nextHandle) && OutputShaped(buffers, output)
      requires SuffixData in buffers ==> buffers[SuffixData].size >= 1
      modifies this`buffers, this`nextHandle, this`output
      ensures (buffers, nextHandle) ==
              ReserveAll(old(buffers), old(nextHandle), setting.key32Size, dataSize, lengthsSize, suffixSize)
      ensures DistinctBelow(buffers, nextHandle) && OutputShaped(buffers, output)
      ensures forall slot: Slot :: slot in buffers
      ensures buffers[SuffixData].size >= FirstSuffixSize(suffixSize)
      ensures output == if Output in old(buffers) then old(output) else Some(Zeros(OutputBytes))
    {
      if Output !in buffers {
        output := Some(Zeros(OutputBytes));
      }
      ReserveAllGrows(buffers, nextHandle, setting.key32Size, dataSize, lengthsSize, suffixSize);
      ReserveAllDistinct(buffers, nextHandle, setting.key32Size, dataSize, lengthsSize, suffixSize);
      ReserveAllComplete(buffers, nextHandle, setting.key32Size, dataSize, lengthsSize, suffixSize);
      ReserveAllSuffixCapacity(buffers, nextHandle, setting.key32Size, dataSize, lengthsSize, suffixSize);
      var r := ReserveAll(buffers, nextHandle, setting.key32Size, dataSize, lengthsSize, suffixSize);
      buffers, nextHandle := r.0, r.1;
    }

    /** The upload half of `set_search_params`: the seed, the occupied-byte
        count, the device index, the packed prefixes, the suffix (a single
        zero byte when its length is 0 as a `uint32`) and a zeroed output
        array go to their buffers, and kernel arguments 0 to 9 are set. */
    method Upload(prefixes: seq<string>, suffix: string, caseSensitive: bool)
      requires forall slot: Slot :: slot in buffers
      modifies this`contents, this`args, this`output, this`seedCopied
      ensures output == Some(Zeros(OutputBytes))
      ensures seedCopied == Some(setting.seed)
      ensures contents == old(contents)
                [buffers[OccupiedBytes].id := [setting.iterationBytes]]
                [buffers[GroupOffset].id := [index % 256]]
                [buffers[PrefixData].id := PackPrefixes(prefixes).data]
                [buffers[PrefixLengths].id := PackPrefixes(prefixes).lengths]
                [buffers[SuffixData].id :=
                   if |Utf8(suffix)| % UInt32Modulus > 0 then Utf8(suffix) else [0]]
                [buffers[Output].id := Zeros(OutputBytes)]
      ensures args == old(args)
                [0 := BufferArg(buffers[Key32])]
                [1 := BufferArg(buffers[Output])]
                [2 := BufferArg(buffers[OccupiedBytes])]
                [3 := BufferArg(buffers[GroupOffset])]
                [4 := BufferArg(buffers[PrefixData])]
                [5 := BufferArg(buffers[PrefixLengths])]
                [6 := UInt32Arg(|prefixes| % UInt32Modulus)]
                [7 := BufferArg(buffers[SuffixData])]
                [8 := UInt32Arg(|Utf8(suffix)| % UInt32Modulus)]
                [9 := UInt8Arg(if caseSensitive then 1 else 0)]
    {
      var packed := PackPrefixes(prefixes);
      var suffixBytes := Utf8(suffix);
      var suffixLen := |suffixBytes| % UInt32Modulus;
      var caseFlag := if caseSensitive then 1 else 0;

      seedCopied := Some(setting.seed);
      // The copy of the previous host output array into the output buffer
      // is overwritten by the zeroed array below, so only the latter is kept.
      var c := contents;
      c := c[buffers[OccupiedBytes].id := [setting.iterationBytes]];
      c := c[buffers[GroupOffset].id := [index % 256]];
      c := c[buffers[PrefixData].id := packed.data];
      c := c[buffers[PrefixLengths].id := packed.lengths];
      c := c[buffers[SuffixData].id := if suffixLen > 0 then suffixBytes else [0]];
      output := Some(Zeros(OutputBytes));
      c := c[buffers[Output].id := output.value];
      contents := c;

      var a := args;
      a := a[0 := BufferArg(buffers[Key32])];
      a := a[1 := BufferArg(buffers[Output])];
      a := a[2 := BufferArg(buffers[OccupiedBytes])];
      a := a[3 := BufferArg(buffers[GroupOffset])];
      a := a[4 := BufferArg(buffers[PrefixData])];
      a := a[5 := BufferArg(buffers[PrefixLengths])];
      a := a[6 := UInt32Arg(|prefixes| % UInt32Modulus)];
      a := a[7 := BufferArg(buffers[SuffixData])];
      a := a[8 := UInt32Arg(suffixLen)];
      a := a[9 := UInt8Arg(caseFlag)];
      args := a;
    }

    /** `set_search_params(PREFIXES, SUFFIX, CASE_SENSITIVE)`: reserve the
        buffers, then upload the search parameters and set the kernel
        arguments. */
    method SetSearchParams(prefixes: seq<string>, suffix: string, caseSensitive: bool)
      requires Valid()
      modifies this
      ensures Valid()
      ensures (buffers, nextHandle) ==
              ReserveAll(old(buffers), old(nextHandle), setting.key32Size,
                         |PackPrefixes(prefixes).data|, |prefixes|, |Utf8(suffix)|)
      ensures forall slot: Slot :: slot in buffers
      ensures buffers[SuffixData].size >= FirstSuffixSize(|Utf8(suffix)|)
      ensures output == Some(Zeros(OutputBytes))
      ensures seedCopied == Some(setting.seed)
      ensures contents == old(contents)
                [buffers[OccupiedBytes].id := [setting.iterationBytes]]
                [buffers[GroupOffset].id := [index % 256]]
                [buffers[PrefixData].id := PackPrefixes(prefixes).data]
                [buffers[PrefixLengths].id := PackPrefixes(prefixes).lengths]
                [buffers[SuffixData].id :=
                   if |Utf8(suffix)| % UInt32Modulus > 0 then Utf8(suffix) else [0]]
                [buffers[Output].id := Zeros(OutputBytes)]
      ensures args == old(args)
                [0 := BufferArg(buffers[Key32])]
                [1 := BufferArg(buffers[Output])]
                [2 := BufferArg(buffers[OccupiedBytes])]
                [3 := BufferArg(buffers[GroupOffset])]
                [4 := BufferArg(buffers[PrefixData])]
                [5 := BufferArg(buffers[PrefixLengths])]
                [6 := UInt32Arg(|prefixes| % UInt32Modulus)]
                [7 := BufferArg(buffers[SuffixData])]
                [8 := UInt32Arg(|Utf8(suffix)| % UInt32Modulus)]
                [9 := UInt8Arg(if caseSensitive then 1 else 0)]
      ensures launches == old(launches)
    {
      ReserveBuffers(|PackPrefixes(prefixes).data|, |prefixes|, |Utf8(suffix)|);
      Upload(prefixes, suffix, caseSensitive);
    }

    /** `find(log_stats)`: copy the current seed to the device, launch the
        kernel on `global_work_size // gpu_chunks` work items, advance the
        seed exactly once, and read the output back. The kernel is opaque:
        `deviceOutput` is what it left in the output buffer. */
    method Find(deviceOutput: seq<byte>) returns (out: seq<byte>, globalSize: nat)
      requires Valid() && Key32 in buffers && Output in buffers
      requires |deviceOutput| == OutputBytes
      modifies this, setting
      ensures buffers == old(buffers) && args == old(args) && nextHandle == old(nextHandle)
      ensures Valid()
      ensures globalSize == setting.globalWorkSize / gpuChunks
      ensures launches == old(launches) + [Launch(globalSize, setting.localWorkSize, old(setting.seed))]
      ensures seedCopied == Some(old(setting.seed)) && setting.seed == old(setting.seed) + 1
      ensures out == deviceOutput && output == Some(deviceOutput)
      ensures contents == old(contents)[buffers[Output].id := deviceOutput]
    {
      seedCopied := Some(setting.seed);
      globalSize := setting.globalWorkSize / gpuChunks;
      launches := launches + [Launch(globalSize, setting.localWorkSize, setting.seed)];
      setting.IncreaseKey32();
      contents := contents[buffers[Output].id := deviceOutput];
      output := Some(deviceOutput);
      out := deviceOutput;
    }
  }

  /** A complete buffer map whose prefix, length and suffix buffers already
      have room for the sizes is left as it is, and no handle is used. */
  lemma ReserveAllKeeps(buffers: map<Slot, Buffer>, handle: nat, key32Size: nat,
                        dataSize: nat, lengthsSize: nat, suffixSize: nat)
    requires forall slot: Slot :: slot in buffers
    requires buffers[PrefixData].size >= dataSize && buffers[PrefixLengths].size >= lengthsSize
    requires buffers[SuffixData].size >= suffixSize
    ensures ReserveAll(buffers, handle, key32Size, dataSize, lengthsSize, suffixSize) == (buffers, handle)
  {
    ReserveAllGrows(buffers, handle, key32Size, dataSize, lengthsSize, suffixSize);
    var r := ReserveAll(buffers, handle, key32Size, dataSize, lengthsSize, suffixSize);
    assert r.0 == buffers;
  }

  /** Binding again to parameters the buffers already have room for
      allocates nothing: every buffer and the handle counter stay as they
      were, and the upload half of `set_search_params` runs as usual. */
  method RebindIsStable(s: Searcher, prefixes: seq<string>, suffix: string, caseSensitive: bool)
    requires s.Valid() && forall slot: Slot :: slot in s.buffers
    requires s.buffers[PrefixData].size >= |PackPrefixes(prefixes).data|
    requires s.buffers[PrefixLengths].size >= |prefixes|
    requires s.buffers[SuffixData].size >= |Utf8(suffix)|
    modifies s
    ensures s.Valid() && s.buffers == old(s.buffers) && s.nextHandle == old(s.nextHandle)
    ensures s.output == Some(Zeros(OutputBytes))
    ensures s.seedCopied == Some(s.setting.seed)
    ensures s.launches == old(s.launches)
    ensures s.contents == old(s.contents)
              [s.buffers[OccupiedBytes].id := [s.setting.iterationBytes]]
              [s.buffers[GroupOffset].id := [s.index % 256]]
              [s.buffers[PrefixData].id := PackPrefixes(prefixes).data]
              [s.buffers[PrefixLengths].id := PackPrefixes(prefixes).lengths]
              [s.buffers[SuffixData].id :=
                 if |Utf8(suffix)| % UInt32Modulus > 0 then Utf8(suffix) else [0]]
              [s.buffers[Output].id := Zeros(OutputBytes)]
    ensures s.args == old(s.args)
              [0 := BufferArg(s.buffers[Key32])]
              [1 := BufferArg(s.buffers[Output])]
              [2 := BufferArg(s.buffers[OccupiedBytes])]
              [3 := BufferArg(s.buffers[GroupOffset])]
              [4 := BufferArg(s.buffers[PrefixData])]
              [5 := BufferArg(s.buffers[PrefixLengths])]
              [6 := UInt32Arg(|prefixes| % UInt32Modulus)]
              [7 := BufferArg(s.buffers[SuffixData])]
              [8 := UInt32Arg(|Utf8(suffix)| % UInt32Modulus)]
              [9 := UInt8Arg(if caseSensitive then 1 else 0)]
  {
    ReserveAllKeeps(s.buffers, s.nextHandle, s.setting.key32Size,
                    |PackPrefixes(prefixes).data|, |prefixes|, |Utf8(suffix)|);
    s.SetSearchParams(prefixes, suffix, caseSensitive);
  }

  /** The buffer contents the upload half of `set_search_params` leaves,
      written over `contents`. */
  function UploadedContents(contents: map<nat, seq<byte>>, buffers: map<Slot, Buffer>, iterationBytes: byte,
                            index: nat, prefixes: seq<string>, suffix: string): map<nat, seq<byte>>
    requires forall slot: Slot :: slot in buffers
  {
    contents
      [buffers[OccupiedBytes].id := [iterationBytes]]
      [buffers[GroupOffset].id := [index % 256]]
      [buffers[PrefixData].id := PackPrefixes(prefixes).data]
      [buffers[PrefixLengths].id := PackPrefixes(prefixes).lengths]
      [buffers[SuffixData].id := if |Utf8(suffix)| % UInt32Modulus > 0 then Utf8(suffix) else [0]]
      [buffers[Output].id := Zeros(OutputBytes)]
  }

  /** The kernel arguments `set_search_params` leaves, written over `args`. */
  function UploadedArgs(args: map<nat, KernelArg>, buffers: map<Slot, Buffer>, prefixes: seq<string>,
                        suffix: string, caseSensitive: bool): map<nat, KernelArg>
    requires forall slot: Slot :: slot in buffers
  {
    args
      [0 := BufferArg(buffers[Key32])]
      [1 := BufferArg(buffers[Output])]
      [2 := BufferArg(buffers[OccupiedBytes])]
      [3 := BufferArg(buffers[GroupOffset])]
      [4 := BufferArg(buffers[PrefixData])]
      [5 := BufferArg(buffers[PrefixLengths])]
      [6 := UInt32Arg(|prefixes| % UInt32Modulus)]
      [7 := BufferArg(buffers[SuffixData])]
      [8 := UInt32Arg(|Utf8(suffix)| % UInt32Modulus)]
      [9 := UInt8Arg(if caseSensitive then 1 else 0)]
  }

  /** Uploading the same parameters into the same buffers a second time
      changes no buffer's contents. */
  lemma UploadedContentsTwice(contents: map<nat, seq<byte>>, buffers: map<Slot, Buffer>, iterationBytes: byte,
                              index: nat, prefixes: seq<string>, suffix: string)
    requires forall slot: Slot :: slot in buffers
    ensures var c := UploadedContents(contents, buffers, iterationBytes, index, prefixes, suffix);
            UploadedContents(c, buffers, iterationBytes, index, prefixes, suffix) == c
  {
    var c := UploadedContents(contents, buffers, iterationBytes, index, prefixes, suffix);
    var c2 := UploadedContents(c, buffers, iterationBytes, index, prefixes, suffix);
    assert c2.Keys == c.Keys;
    forall k | k in c
      ensures c2[k] == c[k]
    {
    }
  }

  /** Setting the same kernel arguments a second time changes none. */
  lemma UploadedArgsTwice(args: map<nat, KernelArg>, buffers: map<Slot, Buffer>, prefixes: seq<string>,
                          suffix: string, caseSensitive: bool)
    requires forall slot: Slot :: slot in buffers
    ensures var a := UploadedArgs(args, buffers, prefixes, suffix, caseSensitive);
            UploadedArgs(a, buffers, prefixes, suffix, caseSensitive) == a
  {
    var a := UploadedArgs(args, buffers, prefixes, suffix, caseSensitive);
    var a2 := UploadedArgs(a, buffers, prefixes, suffix, caseSensitive);
    assert a2.Keys == a.Keys;
    forall k | k in a
      ensures a2[k] == a[k]
    {
    }
  }

  /** Binding the same parameters twice in a row: the first call leaves
      room for them, so the second allocates nothing and rewrites the same
      contents and arguments. The state after both is the state after one. */
  method BindTwice(s: Searcher, prefixes: seq<string>, suffix: string, caseSensitive: bool)
    returns (afterFirst: map<Slot, Buffer>, handleAfterFirst: nat)
    requires s.Valid()
    modifies s
    ensures s.Valid()
    ensures (afterFirst, handleAfterFirst) ==
              ReserveAll(old(s.buffers), old(s.nextHandle), s.setting.key32Size,
                         |PackPrefixes(prefixes).data|, |prefixes|, |Utf8(suffix)|)
    ensures s.buffers == afterFirst && s.nextHandle == handleAfterFirst
    ensures s.output == Some(Zeros(OutputBytes))
    ensures s.seedCopied == Some(s.setting.seed)
    ensures s.launches == old(s.launches)
    ensures s.contents == old(s.contents)
              [s.buffers[OccupiedBytes].id := [s.setting.iterationBytes]]
              [s.buffers[GroupOffset].id := [s.index % 256]]
              [s.buffers[PrefixData].id := PackPrefixes(prefixes).data]
              [s.buffers[PrefixLengths].id := PackPrefixes(prefixes).lengths]
              [s.buffers[SuffixData].id :=
                 if |Utf8(suffix)| % UInt32Modulus > 0 then Utf8(suffix) else [0]]
              [s.buffers[Output].id := Zeros(OutputBytes)]
    ensures s.args == old(s.args)
              [0 := BufferArg(s.buffers[Key32])]
              [1 := BufferArg(s.buffers[Output])]
              [2 := BufferArg(s.buffers[OccupiedBytes])]
              [3 := BufferArg(s.buffers[GroupOffset])]
              [4 := BufferArg(s.buffers[PrefixData])]
              [5 := BufferArg(s.buffers[PrefixLengths])]
              [6 := UInt32Arg(|prefixes| % UInt32Modulus)]
              [7 := BufferArg(s.buffers[SuffixData])]
              [8 := UInt32Arg(|Utf8(suffix)| % UInt32Modulus)]
              [9 := UInt8Arg(if caseSensitive then 1 else 0)]
  {
    ghost var b0, h0 := s.buffers, s.nextHandle;
    s.SetSearchParams(prefixes, suffix, caseSensitive);
    afterFirst, handleAfterFirst := s.buffers, s.nextHandle;
    ghost var c0, a0 := old(s.contents), old(s.args);
    assert s.contents == UploadedContents(c0, s.buffers, s.setting.iterationBytes, s.index, prefixes, suffix);
    assert s.args == UploadedArgs(a0, s.buffers, prefixes, suffix, caseSensitive);
    UploadedContentsTwice(c0, s.buffers, s.setting.iterationBytes, s.index, prefixes, suffix);
    UploadedArgsTwice(a0, s.buffers, prefixes, suffix, caseSensitive);
    ReserveAllGrows(b0, h0, s.setting.key32Size, |PackPrefixes(prefixes).data|, |prefixes|, |Utf8(suffix)|);
    RebindIsStable(s, prefixes, suffix, caseSensitive);
  }

  // ---------------------------------------------------------------------
  // Counting found outputs

  /** The key material handed to `save_keypair`, one per output whose found
      byte is set, in input order: `bytes(output[1:])`. */
  function SavedKeys(outputs: seq<seq<byte>>): (r: seq<seq<byte>>)
    requires forall i :: 0 <= i < |outputs| ==> |outputs[i]| > 0
    ensures |r| <= |outputs|
  {
    if outputs == [] then []
    else
      var init, last := outputs[..|outputs| - 1], outputs[|outputs| - 1];
      SavedKeys(init) + (if last[0] != 0 then [last[1..]] else [])
  }

  /** The positions of the outputs whose found byte is set. */
  function FoundIndices(outputs: seq<seq<byte>>): set<nat>
    requires forall i :: 0 <= i < |outputs| ==> |outputs[i]| > 0
  {
    set i: nat | i < |outputs| && outputs[i][0] != 0
  }

  /** One saved key per found output. */
  lemma {:induction false} SavedKeysCount(outputs: seq<seq<byte>>)
    requires forall i :: 0 <= i < |outputs| ==> |outputs[i]| > 0
    ensures |SavedKeys(outputs)| == |FoundIndices(outputs)|
  {
    if outputs != [] {
      var n := |outputs| - 1;
      var init := outputs[..n];
      SavedKeysCount(init);
      if outputs[n][0] != 0 {
        assert FoundIndices(outputs) == FoundIndices(init) + {n};
      } else {
        assert FoundIndices(outputs) == FoundIndices(init);
      }
    }
  }

  /** Saving distributes over concatenation, so input order is kept. */
  lemma {:induction false} SavedKeysAppend(a: seq<seq<byte>>, b: seq<seq<byte>>)
    requires forall i :: 0 <= i < |a| ==> |a[i]| > 0
    requires forall i :: 0 <= i < |b| ==> |b[i]| > 0
    ensures forall i :: 0 <= i < |a + b| ==> |(a + b)[i]| > 0
    ensures SavedKeys(a + b) == SavedKeys(a) + SavedKeys(b)
  {
    if b == [] {
      assert a + b == a;
    } else {
      var init := b[..|b| - 1];
      assert (a + b)[..|a + b| - 1] == a + init;
      assert (a + b)[|a + b| - 1] == b[|b| - 1];
      SavedKeysAppend(a, init);
    }
  }

  /** `save_result(outputs, output_dir)`: call `save_keypair` on the key
      material of every output whose found byte is set and return how many
      there were. The calls are returned as `saved`, in order. */
  method SaveResult(outputs: seq<seq<byte>>) returns (count: nat, saved: seq<seq<byte>>)
    requires forall i :: 0 <= i < |outputs| ==> |outputs[i]| > 0
    ensures saved == SavedKeys(outputs)
    ensures count == |saved| == |FoundIndices(outputs)|
  {
    count, saved := 0, [];
    var n := 0;
    while n < |outputs|
      invariant n <= |outputs|
      invariant saved == SavedKeys(outputs[..n])
      invariant count == |saved|
    {
      var o := outputs[n];
      assert outputs[..n + 1][..n] == outputs[..n];
      if o[0] != 0 {
        count := count + 1;
        saved := saved + [o[1..]];
      }
      n := n + 1;
    }
    assert outputs[..n] == outputs;
    SavedKeysCount(outputs);
  }
}
