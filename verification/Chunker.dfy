/**
 The fixed-block allocator of memory/chunker.hpp over raw bytes. Block `i` occupies the bytes from
 `i * Stride`; its data comes first and its 32-bit `next` field follows, aligned to four bytes.
 */
module Chunker {
  import opened Wrappers
  import opened Modular
  import opened FreeList

  type Byte = b: nat | b < 256

  const UINT32: nat := 0x1_0000_0000

  /** Where the `next` field starts inside a block. */
  function NextOffset(chunkSize: nat): (r: nat)
    ensures chunkSize <= r < chunkSize + 4 && r % 4 == 0
  {
    (chunkSize + 3) / 4 * 4
  }

  /** The size of a block. */
  function Stride(chunkSize: nat): nat { NextOffset(chunkSize) + 4 }

  /** The field is at the first aligned place behind the data, and the block ends with it: both are determined. */
  lemma LayoutIsTight(chunkSize: nat, offset: nat, stride: nat)
    requires offset % 4 == 0 && chunkSize <= offset < chunkSize + 4 && stride == offset + 4
    ensures NextOffset(chunkSize) == offset && Stride(chunkSize) == stride
  {
  }

  /** The addresses of different blocks are at least a block apart. */
  lemma BlocksApart(i: nat, j: nat, stride: nat)
    requires i < j
    ensures i * stride + stride <= j * stride
  {
    MulAtLeast(stride, j - i);
    assert j * stride == i * stride + stride * (j - i);
  }

  /** A byte inside one block is never a byte inside another. */
  lemma NoOverlap(i: nat, j: nat, stride: nat, a: nat, b: nat)
    requires i != j && a < stride && b < stride
    ensures i * stride + a != j * stride + b
  {
    if i < j { BlocksApart(i, j, stride); } else { BlocksApart(j, i, stride); }
  }

  /** A block inside the memory lies wholly inside it. */
  lemma BlockInside(i: nat, n: nat, stride: nat)
    requires i < n
    ensures i * stride + stride <= n * stride
  {
    if i + 1 < n { BlocksApart(i, n, stride); }
  }

  /** The 32-bit value stored from address `a`, lowest byte first. */
  function Load32(mem: seq<Byte>, a: nat): (v: nat)
    requires a + 4 <= |mem|
  {
    (mem[a] as nat) + 0x100 * ((mem[a + 1] as nat) + 0x100 * ((mem[a + 2] as nat) + 0x100 * (mem[a + 3] as nat)))
  }

  function Low(v: nat): Byte { v % 0x100 }

  /** The layout of the blocks in memory. */
  datatype Layout = Layout(stride: nat, offset: nat, blocks: nat) {
    ghost predicate Fits(mem: seq<Byte>) {
      offset + 4 <= stride && |mem| == blocks * stride
    }

    /** The address of a block's `next` field. */
    function FieldAddress(i: nat): nat { i * stride + offset }

    lemma FieldInside(i: nat)
      requires i < blocks && offset + 4 <= stride
      ensures FieldAddress(i) + 4 <= blocks * stride
    {
      BlockInside(i, blocks, stride);
    }

    function Field(mem: seq<Byte>, i: nat): nat
      requires Fits(mem) && i < blocks
    {
      FieldInside(i);
      Load32(mem, FieldAddress(i))
    }

    /** The `next` fields of all blocks. */
    function Fields(mem: seq<Byte>): (r: seq<nat>)
      requires Fits(mem)
      ensures |r| == blocks && forall i :: 0 <= i < blocks ==> r[i] == Field(mem, i)
    {
      seq(blocks, i requires 0 <= i < blocks && Fits(mem) => Field(mem, i))
    }

    lemma FieldsApart(i: nat, j: nat)
      requires i != j && offset + 4 <= stride
      ensures FieldAddress(j) + 4 <= FieldAddress(i) || FieldAddress(i) + 4 <= FieldAddress(j)
    {
      if i < j { BlocksApart(i, j, stride); } else { BlocksApart(j, i, stride); }
    }

    /** A store that stays within one block's field changes no other field. */
    lemma StoreIsLocal(mem: seq<Byte>, mem': seq<Byte>, i: nat)
      requires Fits(mem) && Fits(mem') && i < blocks
      requires forall a :: 0 <= a < |mem| && !(FieldAddress(i) <= a < FieldAddress(i) + 4) ==> mem'[a] == mem[a]
      ensures Fields(mem') == Fields(mem)[i := Field(mem', i)]
    {
      forall j | 0 <= j < blocks && j != i ensures Field(mem', j) == Field(mem, j) {
        FieldInside(j);
        FieldsApart(i, j);
      }
    }

    /** A store within one block's data changes no field. */
    lemma DataIsNoField(mem: seq<Byte>, mem': seq<Byte>, i: nat, o: nat)
      requires Fits(mem) && i < blocks && o < offset && i * stride + o < |mem|
      requires |mem'| == |mem| && forall a :: 0 <= a < |mem| && a != i * stride + o ==> mem'[a] == mem[a]
      ensures Fields(mem') == Fields(mem)
    {
      forall j | 0 <= j < blocks ensures Field(mem', j) == Field(mem, j) {
        FieldInside(j);
        if j != i {
          FieldsApart(i, j);
          NoOverlap(i, j, stride, o, offset);
          NoOverlap(i, j, stride, o, offset + 1);
          NoOverlap(i, j, stride, o, offset + 2);
          NoOverlap(i, j, stride, o, offset + 3);
        }
      }
    }
  }

  datatype Allocation = Chunk(address: nat) | TooBig | Exhausted

  class Chunker {
    const chunkSize: nat
    const maxChunks: nat
    const stride: nat
    const mem: array<Byte>
    // The first free block, as an index into the blocks; none when all are live.
    var next: Option<nat>
    ghost var free: seq<nat>

    function Shape(): Layout { Layout(stride, NextOffset(chunkSize), maxChunks) }

    ghost predicate Shaped()
      reads this
    {
      && 0 < chunkSize && 0 < maxChunks < UINT32 && stride == Stride(chunkSize)
      && mem.Length == maxChunks * stride
    }

    ghost function Value(): State
      requires Shaped()
      reads this, mem
    {
      State(Heap(next, Shape().Fields(mem[..])), free)
    }

    ghost predicate Valid()
      reads this, mem
    {
      Shaped() && Inv(Value())
    }

    /** The bytes outside one block's field are as before, all client data among them. */
    ghost predicate OnlyFieldChanged(before: seq<Byte>, after: seq<Byte>, i: nat)
      requires |before| == |after|
    {
      forall a :: 0 <= a < |before| && !(Shape().FieldAddress(i) <= a < Shape().FieldAddress(i) + 4) ==> after[a] == before[a]
    }

    /** Stores a 32-bit value, lowest byte first. */
    method Store32(a: nat, v: nat)
      requires a + 4 <= mem.Length && v < UINT32
      modifies mem
      ensures Load32(mem[..], a) == v
      ensures forall b :: 0 <= b < mem.Length && !(a <= b < a + 4) ==> mem[b] == old(mem[b])
    {
      var w := v / 0x100;
      var x := w / 0x100;
      mem[a], mem[a + 1], mem[a + 2], mem[a + 3] := Low(v), Low(w), Low(x), x / 0x100;
    }

    /** Stores a block's `next` field. */
    method StoreNext(i: nat, v: nat)
      requires Shaped() && i < maxChunks && v < UINT32
      modifies mem
      ensures Shape().Fields(mem[..]) == Shape().Fields(old(mem[..]))[i := v]
      ensures OnlyFieldChanged(old(mem[..]), mem[..], i)
    {
      Shape().FieldInside(i);
      Store32(Shape().FieldAddress(i), v);
      assert Shape().Field(mem[..], i) == v;
      Shape().StoreIsLocal(old(mem[..]), mem[..], i);
    }

    /** Loads a block's `next` field. */
    method LoadNext(i: nat) returns (v: nat)
      requires Shaped() && i < maxChunks
      ensures v == Shape().Fields(mem[..])[i]
    {
      Shape().FieldInside(i);
      v := Load32(mem[..], Shape().FieldAddress(i));
    }

    /** Links every block to the next one, and the last to the end mark. */
    method LinkBlocks()
      requires Shaped()
      modifies mem
      ensures Shape().Fields(mem[..]) == Ascending(1, maxChunks)
    {
      var current := 0;
      for i := 1 to maxChunks
        invariant current == i - 1
        invariant forall j :: 0 <= j < current ==> Shape().Fields(mem[..])[j] == j + 1
      {
        ghost var fields := Shape().Fields(mem[..]);
        StoreNext(current, i);
        assert Shape().Fields(mem[..]) == fields[current := i];
        current := current + 1;
      }
      ghost var fields := Shape().Fields(mem[..]);
      StoreNext(current, maxChunks);
      assert Shape().Fields(mem[..]) == fields[current := maxChunks];
    }

    constructor (chunkSize: nat, maxChunks: nat)
      requires 0 < chunkSize && 0 < maxChunks < UINT32
      ensures Valid() && Value() == Start(maxChunks)
      ensures this.chunkSize == chunkSize && this.maxChunks == maxChunks && fresh(mem)
    {
      this.chunkSize, this.maxChunks, stride := chunkSize, maxChunks, Stride(chunkSize);
      mem := new Byte[maxChunks * Stride(chunkSize)](_ => 0);
      next, free := Some(0), Ascending(0, maxChunks);
      new;
      LinkBlocks();
      StartInv(maxChunks);
    }

    /** Moves the start of the list past its first block. */
    method TakeFirst() returns (block: nat)
      requires Shaped() && next.Some? && next.value < maxChunks && free != []
      modifies `next, `free
      ensures Some(block) == old(next) && Value() == Step(old(Value()), Alloc)
    {
      block := next.value;
      var field := LoadNext(block);
      next := if field == maxChunks then None else Some(field);
      free := free[1..];
    }

    /** Hands out the first free block, as the address of its data. */
    method Create() returns (address: Option<nat>)
      requires Valid()
      modifies `next, `free
      ensures Valid() && Value() == Step(old(Value()), Alloc)
      ensures address.None? <==> old(Live(Value())) == All(maxChunks)
      ensures address.None? <==> old(next).None?
      ensures address.Some? ==>
                var b := old(next).value;
                address.value == b * stride && b !in old(Live(Value())) && Live(Value()) == old(Live(Value())) + {b}
    {
      CreateIsFresh(Value());
      if next.None? {
        return None;
      }
      var block := TakeFirst();
      return Some(block * stride);
    }

    /** Takes back a live block, given the address of its data. */
    method Destroy(address: nat)
      requires Valid()
      requires address % stride == 0 && address / stride in Live(Value())
      modifies this, mem
      ensures Valid() && Value() == Step(old(Value()), Free(address / stride))
      ensures Live(Value()) == old(Live(Value())) - {address / stride}
      ensures OnlyFieldChanged(old(mem[..]), mem[..], address / stride)
    {
      ghost var s := Value();
      var block := address / stride;
      DestroyFrees(s, block);
      StoreNext(block, if next.None? then maxChunks else next.value);
      next, free := Some(block), [block] + free;
    }

    /** A chunk of at least `size` bytes, or the reason there is none. */
    method GetShared(size: nat) returns (r: Allocation)
      requires Valid() && size > 0
      modifies `next, `free
      ensures Valid()
      ensures r.TooBig? <==> size > chunkSize
      ensures r.Exhausted? <==> size <= chunkSize && old(Live(Value())) == All(maxChunks)
      ensures r.Chunk? ==> old(next).Some? && r.address == old(next).value * stride
                           && Value() == Step(old(Value()), Alloc)
      ensures !r.Chunk? ==> Value() == old(Value())
    {
      if size > chunkSize {
        return TooBig;
      }
      CreateIsFresh(Value());
      var out := Create();
      if out.Some? {
        return Chunk(out.value);
      }
      return Exhausted;
    }

    /** A client writing inside its chunk disturbs neither the free list nor any byte of another block. */
    method ClientWrite(block: nat, offset: nat, byte: Byte)
      requires Valid() && block in Live(Value()) && offset < chunkSize
      modifies mem
      ensures Valid() && Value() == old(Value())
      ensures forall a :: 0 <= a < mem.Length && !(block * stride <= a < block * stride + chunkSize) ==> mem[a] == old(mem[a])
    {
      BlockInside(block, maxChunks, stride);
      mem[block * stride + offset] := byte;
      Shape().DataIsNoField(old(mem[..]), mem[..], block, offset);
    }
  }
}
