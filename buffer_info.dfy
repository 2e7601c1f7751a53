/** A buffer together with the CPU-visible memory bound to it: creation with
    memory-type selection, the mapped upload of a slice, and release. */
module Buffers {
  import opened Wrappers
  import opened Gpu

  newtype byte = x: int | 0 <= x < 0x100

  datatype MemoryProperty = DeviceLocal | CpuVisible | Coherent | CpuCached | LazilyAllocated

  /** One entry of the adapter's memory-type table. */
  datatype MemoryType = MemoryType(properties: set<MemoryProperty>, heapIndex: nat)

  /** What the driver requires of the memory backing a buffer. */
  datatype Requirements = Requirements(size: nat, alignment: nat, typeMask: bv64)

  /** `type_mask & (1 << id) != 0`. */
  predicate MaskHas(mask: bv64, id: nat)
    requires id < 64
  {
    mask & ((1 as bv64) << id) != 0
  }

  /** Memory type `id` may back the buffer and can be mapped by the CPU. */
  predicate Suitable(types: seq<MemoryType>, mask: bv64, id: nat)
    requires id < |types| <= 64
  {
    MaskHas(mask, id) && CpuVisible in types[id].properties
  }

  /** The search of `memory_types.iter().enumerate().find(..)`, from position `from` on. */
  function FindFrom(types: seq<MemoryType>, mask: bv64, from: nat): (r: Option<nat>)
    requires from <= |types| <= 64
    ensures r.Some? ==> from <= r.value < |types| && Suitable(types, mask, r.value)
    ensures r.Some? ==> forall j :: from <= j < r.value ==> !Suitable(types, mask, j)
    ensures r.None? ==> forall j :: from <= j < |types| ==> !Suitable(types, mask, j)
    decreases |types| - from
  {
    if from == |types| then None
    else if Suitable(types, mask, from) then Some(from)
    else FindFrom(types, mask, from + 1)
  }

  /** The memory type chosen for a buffer: the lowest index whose bit is set in the
      mask and whose properties contain CPU_VISIBLE, or none when no type qualifies. */
  function FindMemoryType(types: seq<MemoryType>, mask: bv64): (r: Option<nat>)
    requires |types| <= 64
    ensures r.Some? <==> exists id :: 0 <= id < |types| && Suitable(types, mask, id)
    ensures r.Some? ==> r.value < |types| && Suitable(types, mask, r.value)
    ensures r.Some? ==> forall j :: 0 <= j < r.value ==> !Suitable(types, mask, j)
  {
    FindFrom(types, mask, 0)
  }

  /** `array_size`: `len * size_of::<T>()`. */
  function ArraySize(len: nat, sizeOfT: nat): nat {
    len * sizeOfT
  }

  /** Every element of the slice occupies `size` bytes. */
  predicate Uniform(data: seq<seq<byte>>, size: nat) {
    forall i :: 0 <= i < |data| ==> |data[i]| == size
  }

  /** The bytes `data.as_ptr() as *const u8` reads: the elements' bytes back to back. */
  function AsBytes(data: seq<seq<byte>>): seq<byte> {
    if data == [] then [] else data[0] + AsBytes(data[1..])
  }

  /** The byte image of a slice of `len` elements of `size` bytes is `array_size` long. */
  lemma {:induction false} AsBytesLength(data: seq<seq<byte>>, size: nat)
    requires Uniform(data, size)
    ensures |AsBytes(data)| == ArraySize(|data|, size)
  {
    if data != [] {
      AsBytesLength(data[1..], size);
      assert |data| * size == size + (|data| - 1) * size;
    }
  }

  /** Element `i` of the slice sits at bytes `i * size .. (i + 1) * size` of its image. */
  lemma {:induction false} AsBytesElement(data: seq<seq<byte>>, size: nat, i: nat)
    requires Uniform(data, size) && i < |data|
    ensures (i + 1) * size <= |AsBytes(data)|
    ensures AsBytes(data)[i * size .. (i + 1) * size] == data[i]
  {
    AsBytesLength(data, size);
    assert (i + 1) * size <= |data| * size by {
      assert i + 1 <= |data|;
    }
    if i == 0 {
      assert AsBytes(data) == data[0] + AsBytes(data[1..]);
    } else {
      var rest := AsBytes(data[1..]);
      AsBytesElement(data[1..], size, i - 1);
      assert data[1..][i - 1] == data[i];
      assert i * size == size + (i - 1) * size;
      assert (i + 1) * size == size + i * size;
      assert AsBytes(data) == data[0] + rest;
      assert AsBytes(data)[size + (i - 1) * size .. size + i * size] == rest[(i - 1) * size .. i * size];
    }
  }

  /** A `u16` in the host's (little-endian) byte order. */
  function U16Le(x: nat): (b: seq<byte>)
    requires x < 0x1_0000
    ensures |b| == 2
  {
    [(x % 256) as byte, (x / 256) as byte]
  }

  function FromU16Le(b: seq<byte>): nat
    requires |b| == 2
  {
    b[0] as nat + 256 * b[1] as nat
  }

  lemma U16RoundTrip(x: nat)
    requires x < 0x1_0000
    ensures FromU16Le(U16Le(x)) == x
  {
  }

  /** Memory after `ptr::copy` of `bytes` to offset 0 of a mapping of `mem`. */
  function Overwrite(mem: seq<byte>, bytes: seq<byte>): seq<byte>
    requires |bytes| <= |mem|
  {
    bytes + mem[|bytes|..]
  }

  /** Upload then read-back: after copying a slice's image into memory, element `i`
      reads back from bytes `i * size .. (i + 1) * size`, and the memory past the
      image keeps its old bytes. */
  lemma UploadReadsBack(mem: seq<byte>, data: seq<seq<byte>>, size: nat, i: nat)
    requires Uniform(data, size) && ArraySize(|data|, size) <= |mem| && i < |data|
    ensures |AsBytes(data)| <= |mem|
    ensures (i + 1) * size <= |mem|
    ensures Overwrite(mem, AsBytes(data))[i * size .. (i + 1) * size] == data[i]
    ensures Overwrite(mem, AsBytes(data))[ArraySize(|data|, size)..] == mem[ArraySize(|data|, size)..]
  {
    AsBytesLength(data, size);
    AsBytesElement(data, size, i);
    var image := AsBytes(data);
    assert Overwrite(mem, image)[..|image|] == image;
  }

  /** The buffer and memory of a successfully created `BufferInfo`. */
  datatype BufferView = BufferView(buffer: Handle, memory: Handle, requirements: Requirements, memoryType: nat)

  /** The driver's answers to the calls of `BufferInfo::new`: the created buffer (or a
      failure), its memory requirements, the allocated memory (or a failure), and
      whether binding succeeded. */
  datatype BufferAnswers = BufferAnswers(
    buffer: Option<Handle>,
    requirements: Requirements,
    memory: Option<Handle>,
    bindOk: bool)

  /** The outcome of `BufferInfo::new`, step by step. */
  function NewBufferSpec(types: seq<MemoryType>, a: BufferAnswers): Result<BufferView>
    requires |types| <= 64
  {
    if a.buffer.None? then Err("Failed to create a buffer for the vertices")
    else match FindMemoryType(types, a.requirements.typeMask)
      case None => Err("Failed to find a memory type to support the vertex buffer")
      case Some(id) =>
        if a.memory.None? then Err("Failed to allocate vertex buffer memory")
        else if !a.bindOk then Err("Failed to bind the buffer memory")
        else Ok(BufferView(a.buffer.value, a.memory.value, a.requirements, id))
  }

  /** The device calls `BufferInfo::new` issues before it returns. */
  function NewBufferEvents(types: seq<MemoryType>, size: nat, usage: Usage, a: BufferAnswers): seq<Event>
    requires |types| <= 64
  {
    [CreateBuffer(size, usage)] +
    if a.buffer.None? then []
    else match FindMemoryType(types, a.requirements.typeMask)
      case None => []
      case Some(id) =>
        [AllocateMemory(id, a.requirements.size)] +
        if a.memory.None? then [] else [BindBufferMemory(a.memory.value, 0, a.buffer.value)]
  }

  /** `BufferInfo::new` succeeds exactly when the buffer is created, some memory type
      qualifies, the allocation succeeds and binding succeeds; it then holds the lowest
      qualifying memory type and the reported requirements, after a buffer of exactly
      `size` bytes was created, memory of exactly the required size allocated, and the
      memory bound at offset 0. Without a qualifying type it fails with the memory-type
      message and never allocates. */
  lemma NewBufferOutcome(types: seq<MemoryType>, size: nat, usage: Usage, a: BufferAnswers)
    requires |types| <= 64
    ensures var r := NewBufferSpec(types, a);
      r.Ok? <==> a.buffer.Some? && (exists id :: 0 <= id < |types| && Suitable(types, a.requirements.typeMask, id))
                 && a.memory.Some? && a.bindOk
    ensures var r := NewBufferSpec(types, a);
      r.Ok? ==>
        (r.value.buffer == a.buffer.value && r.value.memory == a.memory.value
         && r.value.requirements == a.requirements
         && r.value.memoryType < |types| && Suitable(types, a.requirements.typeMask, r.value.memoryType)
         && (forall j :: 0 <= j < r.value.memoryType ==> !Suitable(types, a.requirements.typeMask, j))
         && NewBufferEvents(types, size, usage, a) ==
              [CreateBuffer(size, usage), AllocateMemory(r.value.memoryType, a.requirements.size),
               BindBufferMemory(r.value.memory, 0, r.value.buffer)])
    ensures a.buffer.Some? && (forall id :: 0 <= id < |types| ==> !Suitable(types, a.requirements.typeMask, id)) ==>
      NewBufferSpec(types, a) == Err("Failed to find a memory type to support the vertex buffer")
        && NewBufferEvents(types, size, usage, a) == [CreateBuffer(size, usage)]
  {
    var found := FindMemoryType(types, a.requirements.typeMask);
    if a.buffer.Some? && found.Some? {
      var allocate := AllocateMemory(found.value, a.requirements.size);
      if a.memory.Some? {
        assert NewBufferEvents(types, size, usage, a) ==
          [CreateBuffer(size, usage)] + ([allocate] + [BindBufferMemory(a.memory.value, 0, a.buffer.value)]);
      }
    }
  }

  /** `destroy_buffer` and then `free_memory`. */
  function FreeEvents(b: BufferView): seq<Event> {
    [Destroy(Kind.Buffer, b.buffer), Destroy(Memory, b.memory)]
  }

  const MAP_FAILED := "Failed to memory map buffer"

  /** The device calls of a mapped upload of `count` bytes: map the whole allocation,
      then, when mapping succeeded, copy to offset 0 and unmap. */
  function LoadEvents(b: BufferView, count: nat, mapOk: bool): seq<Event> {
    [MapMemory(b.memory, 0, b.requirements.size)] +
    if mapOk then [CopyToMapped(b.memory, 0, count), UnmapMemory(b.memory)] else []
  }

  class BufferInfo {
    const buffer: Handle
    const memory: Handle
    const requirements: Requirements
    const memoryType: nat
    /** The bytes of the allocation, as a mapping of it sees them. */
    const contents: array<byte>

    ghost predicate Valid() {
      contents.Length == requirements.size
    }

    function View(): BufferView {
      BufferView(buffer, memory, requirements, memoryType)
    }

    constructor Bound(view: BufferView)
      ensures View() == view && Valid() && fresh(contents)
    {
      buffer := view.buffer;
      memory := view.memory;
      requirements := view.requirements;
      memoryType := view.memoryType;
      contents := new byte[view.requirements.size];
    }

    /** `BufferInfo::new` for a slice of `size` bytes: create the buffer, pick a memory
        type, allocate, bind; the first failing step ends it with its message. */
    static method New(device: Device, types: seq<MemoryType>, size: nat, usage: Usage, a: BufferAnswers)
      returns (r: Result<BufferInfo>)
      requires |types| <= 64
      modifies device
      ensures r.Ok? ==> NewBufferSpec(types, a) == Ok(r.value.View())
      ensures r.Ok? ==> r.value.Valid() && fresh(r.value) && fresh(r.value.contents)
      ensures r.Err? ==> NewBufferSpec(types, a) == Err(r.error)
      ensures device.trace == old(device.trace) + NewBufferEvents(types, size, usage, a)
      ensures device.signaled == old(device.signaled)
    {
      device.Log(CreateBuffer(size, usage));
      if a.buffer.None? {
        return Err("Failed to create a buffer for the vertices");
      }
      var memoryTypeId := FindMemoryType(types, a.requirements.typeMask);
      if memoryTypeId.None? {
        return Err("Failed to find a memory type to support the vertex buffer");
      }
      var allocate := AllocateMemory(memoryTypeId.value, a.requirements.size);
      device.Log(allocate);
      AppendAssoc(old(device.trace), [CreateBuffer(size, usage)], [allocate]);
      if a.memory.None? {
        return Err("Failed to allocate vertex buffer memory");
      }
      var bind := BindBufferMemory(a.memory.value, 0, a.buffer.value);
      device.Log(bind);
      AppendAssoc(old(device.trace) + [CreateBuffer(size, usage)], [allocate], [bind]);
      AppendAssoc(old(device.trace), [CreateBuffer(size, usage)], [allocate] + [bind]);
      if !a.bindOk {
        return Err("Failed to bind the buffer memory");
      }
      var info := new BufferInfo.Bound(BufferView(a.buffer.value, a.memory.value, a.requirements, memoryTypeId.value));
      r := Ok(info);
    }

    /** `load_data`: map the whole allocation, copy the slice's bytes to offset 0,
        unmap. Nothing in the source checks that the slice fits the allocation, so
        that is the caller's obligation here. */
    method LoadData(device: Device, data: seq<seq<byte>>, sizeOfT: nat, mapOk: bool) returns (r: Result<()>)
      requires Valid() && Uniform(data, sizeOfT)
      requires ArraySize(|data|, sizeOfT) <= requirements.size
      modifies device, contents
      ensures r == if mapOk then Ok(()) else Err(MAP_FAILED)
      ensures device.trace == old(device.trace) + LoadEvents(View(), ArraySize(|data|, sizeOfT), mapOk)
      ensures device.signaled == old(device.signaled)
      ensures |AsBytes(data)| == ArraySize(|data|, sizeOfT)
      ensures contents[..] == if mapOk then Overwrite(old(contents[..]), AsBytes(data)) else old(contents[..])
    {
      AsBytesLength(data, sizeOfT);
      device.Log(MapMemory(memory, 0, requirements.size));
      if !mapOk {
        return Err(MAP_FAILED);
      }
      var bytes := AsBytes(data);
      var count := ArraySize(|data|, sizeOfT);
      device.Log(CopyToMapped(memory, 0, count));
      var k := 0;
      while k < count
        modifies contents
        invariant 0 <= k <= count
        invariant forall j :: 0 <= j < k ==> contents[j] == bytes[j]
        invariant forall j :: k <= j < contents.Length ==> contents[j] == old(contents[j])
      {
        contents[k] := bytes[k];
        k := k + 1;
      }
      assert contents[..] == Overwrite(old(contents[..]), bytes);
      device.Log(UnmapMemory(memory));
      r := Ok(());
    }

    /** `free`: destroy the buffer, then free its memory. */
    method Free(device: Device)
      modifies device
      ensures device.trace == old(device.trace) + FreeEvents(View())
      ensures device.signaled == old(device.signaled)
    {
      device.Log(Destroy(Kind.Buffer, buffer));
      device.Log(Destroy(Memory, memory));
    }
  }
}
