/**
 Memory, buffers and the cutting of buffers into fragments (`SecondaryQueue`).
 */
module Fragmentation {
  import opened Arithmetic

  type Byte = b: int | 0 <= b < 256

  /** A stretch of memory; address 0 is the null pointer. */
  datatype Buffer = Buffer(addr: nat, length: nat)

  predicate InBounds(mem: seq<Byte>, b: Buffer) {
    b.addr + b.length <= |mem|
  }

  function Read(mem: seq<Byte>, b: Buffer): (bytes: seq<Byte>)
    requires InBounds(mem, b)
    ensures |bytes| == b.length
  {
    mem[b.addr..b.addr + b.length]
  }

  function Write(mem: seq<Byte>, addr: nat, bytes: seq<Byte>): (mem': seq<Byte>)
    requires addr + |bytes| <= |mem|
    ensures |mem'| == |mem|
    ensures forall k :: 0 <= k < |mem| ==>
              mem'[k] == if addr <= k < addr + |bytes| then bytes[k - addr] else mem[k]
  {
    mem[..addr] + bytes + mem[addr + |bytes|..]
  }

  predicate Disjoint(a: Buffer, b: Buffer) {
    a.addr + a.length <= b.addr || b.addr + b.length <= a.addr
  }

  /** A write is read back where it went and is invisible everywhere else. */
  lemma ReadAfterWrite(mem: seq<Byte>, a: Buffer, bytes: seq<Byte>, b: Buffer)
    requires InBounds(mem, a) && InBounds(mem, b) && |bytes| == a.length
    ensures Read(Write(mem, a.addr, bytes), a) == bytes
    ensures Disjoint(a, b) ==> Read(Write(mem, a.addr, bytes), b) == Read(mem, b)
  {}

  /** The fragments of one buffer, in address order. A buffer of length 0 is one empty fragment. */
  function Cut(b: Buffer, size: nat): (fragments: seq<Buffer>)
    requires 0 < size
    ensures fragments != []
    decreases b.length
  {
    if b.length <= size then [b]
    else [Buffer(b.addr, size)] + Cut(Buffer(b.addr + size, b.length - size), size)
  }

  function CutAll(slices: seq<Buffer>, size: nat): seq<Buffer>
    requires 0 < size
  {
    if slices == [] then [] else Cut(slices[0], size) + CutAll(slices[1..], size)
  }

  /** The slices without the first `offset` bytes of the first one. */
  function Trim(slices: seq<Buffer>, offset: nat): seq<Buffer>
    requires slices == [] || offset <= slices[0].length
  {
    if slices == [] then []
    else [Buffer(slices[0].addr + offset, slices[0].length - offset)] + slices[1..]
  }

  /** The fragments of the part of the first slice from `offset` on, then of all the other slices. */
  function Remaining(slices: seq<Buffer>, offset: nat, size: nat): seq<Buffer>
    requires 0 < size
    requires slices == [] || offset <= slices[0].length
  {
    CutAll(Trim(slices, offset), size)
  }

  /** `(length + size - 1) / size`, what a pushed buffer adds to `fragment_id_`. */
  function FragmentCount(length: nat, size: nat): nat
    requires 0 < size
  {
    (length + size - 1) / size
  }

  function TotalCount(slices: seq<Buffer>, size: nat): nat
    requires 0 < size
  {
    if slices == [] then 0 else FragmentCount(slices[0].length, size) + TotalCount(slices[1..], size)
  }

  function EmptyBuffers(slices: seq<Buffer>): nat {
    if slices == [] then 0 else (if slices[0].length == 0 then 1 else 0) + EmptyBuffers(slices[1..])
  }

  lemma FragmentCountStep(length: nat, size: nat)
    requires 0 < size < length
    ensures FragmentCount(length, size) == 1 + FragmentCount(length - size, size)
  {
    var x := length - 1;
    var q, r := x / size, x % size;
    assert x == size * q + r;
    assert x + size == size * (q + 1) + r;
    DivModUnique(x + size, size, q + 1, r);
  }

  /** The k-th fragment is the k-th run of `size` bytes: every byte once, in order. */
  lemma {:induction false} CutAt(b: Buffer, size: nat, k: nat)
    requires 0 < size && k < |Cut(b, size)|
    ensures Cut(b, size)[k].addr == b.addr + size * k
    ensures Cut(b, size)[k].length == if k == |Cut(b, size)| - 1 then b.length - size * k else size
    ensures size * k <= b.length && Cut(b, size)[k].length <= size
    ensures b.length > 0 ==> Cut(b, size)[k].length > 0
    decreases b.length
  {
    if b.length > size && k > 0 {
      CutAt(Buffer(b.addr + size, b.length - size), size, k - 1);
      assert size * k == size + size * (k - 1);
    }
  }

  /** A buffer of positive length yields as many fragments as it is counted for, an empty one one more. */
  lemma {:induction false} CutCount(b: Buffer, size: nat)
    requires 0 < size
    ensures |Cut(b, size)| == FragmentCount(b.length, size) + (if b.length == 0 then 1 else 0)
    decreases b.length
  {
    if b.length > size {
      CutCount(Buffer(b.addr + size, b.length - size), size);
      FragmentCountStep(b.length, size);
    } else if b.length > 0 {
      DivModUnique(b.length + size - 1, size, 1, b.length - 1);
    } else {
      DivModUnique(size - 1, size, 0, size - 1);
    }
  }

  /** What is cut minus what is counted is the number of empty buffers, whatever was pushed. */
  lemma {:induction false} CutAllCount(slices: seq<Buffer>, size: nat)
    requires 0 < size
    ensures |CutAll(slices, size)| == TotalCount(slices, size) + EmptyBuffers(slices)
  {
    if slices != [] {
      CutCount(slices[0], size);
      CutAllCount(slices[1..], size);
    }
  }

  lemma {:induction false} EmptyBuffersZeroIff(slices: seq<Buffer>)
    ensures EmptyBuffers(slices) == 0 <==> forall b :: b in slices ==> b.length > 0
  {
    if slices != [] {
      EmptyBuffersZeroIff(slices[1..]);
      assert slices == [slices[0]] + slices[1..];
    }
  }

  lemma {:induction false} CutAllAppend(a: seq<Buffer>, b: seq<Buffer>, size: nat)
    requires 0 < size
    ensures CutAll(a + b, size) == CutAll(a, size) + CutAll(b, size)
    ensures TotalCount(a + b, size) == TotalCount(a, size) + TotalCount(b, size)
  {
    if a == [] {
      assert a + b == b;
    } else {
      assert (a + b)[1..] == a[1..] + b;
      CutAllAppend(a[1..], b, size);
    }
  }

  /** The contents of a list of buffers, one after the other. */
  function Gather(mem: seq<Byte>, buffers: seq<Buffer>): seq<Byte>
    requires forall b :: b in buffers ==> InBounds(mem, b)
  {
    if buffers == [] then [] else Read(mem, buffers[0]) + Gather(mem, buffers[1..])
  }

  lemma {:induction false} GatherAppend(mem: seq<Byte>, a: seq<Buffer>, b: seq<Buffer>)
    requires forall x :: x in a + b ==> InBounds(mem, x)
    ensures Gather(mem, a + b) == Gather(mem, a) + Gather(mem, b)
  {
    if a == [] {
      assert a + b == b;
    } else {
      assert (a + b)[1..] == a[1..] + b;
      GatherAppend(mem, a[1..], b);
    }
  }

  /** Cutting loses, repeats and reorders no byte of a buffer. */
  lemma {:induction false} CutGather(mem: seq<Byte>, b: Buffer, size: nat)
    requires 0 < size && InBounds(mem, b)
    ensures forall f :: f in Cut(b, size) ==> InBounds(mem, f)
    ensures Gather(mem, Cut(b, size)) == Read(mem, b)
    decreases b.length
  {
    if b.length > size {
      var rest := Buffer(b.addr + size, b.length - size);
      CutGather(mem, rest, size);
      assert Cut(b, size)[1..] == Cut(rest, size);
      assert Read(mem, b) == Read(mem, Buffer(b.addr, size)) + Read(mem, rest);
    } else {
      assert Cut(b, size)[1..] == [];
    }
  }

  /** Cutting loses, repeats and reorders no byte of a pushed list. */
  lemma {:induction false} CutAllGather(mem: seq<Byte>, slices: seq<Buffer>, size: nat)
    requires 0 < size && forall b :: b in slices ==> InBounds(mem, b)
    ensures forall f :: f in CutAll(slices, size) ==> InBounds(mem, f)
    ensures Gather(mem, CutAll(slices, size)) == Gather(mem, slices)
  {
    if slices != [] {
      CutGather(mem, slices[0], size);
      CutAllGather(mem, slices[1..], size);
      GatherAppend(mem, Cut(slices[0], size), CutAll(slices[1..], size));
    }
  }

  /** Equal buffer lengths give fragments of equal lengths, whatever the addresses. */
  lemma {:induction false} CutLengths(a: Buffer, b: Buffer, size: nat)
    requires 0 < size && a.length == b.length
    ensures |Cut(a, size)| == |Cut(b, size)|
    ensures forall k :: 0 <= k < |Cut(a, size)| ==> Cut(a, size)[k].length == Cut(b, size)[k].length
    decreases a.length
  {
    if a.length > size {
      CutLengths(Buffer(a.addr + size, a.length - size), Buffer(b.addr + size, b.length - size), size);
    }
  }

  lemma {:induction false} CutAllLengths(a: seq<Buffer>, b: seq<Buffer>, size: nat)
    requires 0 < size && |a| == |b| && forall i :: 0 <= i < |a| ==> a[i].length == b[i].length
    ensures |CutAll(a, size)| == |CutAll(b, size)|
    ensures forall k :: 0 <= k < |CutAll(a, size)| ==> CutAll(a, size)[k].length == CutAll(b, size)[k].length
  {
    if a != [] {
      CutLengths(a[0], b[0], size);
      CutAllLengths(a[1..], b[1..], size);
    }
  }

  // Empty fragments

  lemma {:induction false} EmptyAppend(a: seq<Buffer>, b: seq<Buffer>)
    ensures EmptyBuffers(a + b) == EmptyBuffers(a) + EmptyBuffers(b)
  {
    if a == [] {
      assert a + b == b;
    } else {
      assert (a + b)[1..] == a[1..] + b;
      EmptyAppend(a[1..], b);
    }
  }

  lemma {:induction false} EmptyAtMost(a: seq<Buffer>)
    ensures EmptyBuffers(a) <= |a|
  {
    if a != [] { EmptyAtMost(a[1..]); }
  }

  /** The empty fragments are those of the empty buffers, one each. */
  lemma {:induction false} EmptyCut(slices: seq<Buffer>, size: nat)
    requires 0 < size
    ensures EmptyBuffers(CutAll(slices, size)) == EmptyBuffers(slices)
  {
    if slices != [] {
      EmptyCutOne(slices[0], size);
      EmptyCut(slices[1..], size);
      EmptyAppend(Cut(slices[0], size), CutAll(slices[1..], size));
    }
  }

  lemma EmptyCutOne(b: Buffer, size: nat)
    requires 0 < size
    ensures EmptyBuffers(Cut(b, size)) == if b.length == 0 then 1 else 0
  {
    if b.length == 0 {
      assert Cut(b, size)[1..] == [];
    } else {
      forall f | f in Cut(b, size) ensures f.length > 0 {
        var k :| 0 <= k < |Cut(b, size)| && Cut(b, size)[k] == f;
        CutAt(b, size, k);
      }
      EmptyBuffersZeroIff(Cut(b, size));
    }
  }

  /** The queue of buffers that have not yet been turned into ring entries. */
  class SecondaryQueue {
    var slices: seq<Buffer>
    var offset: nat
    var fragmentId: nat
    const fragmentSize: nat

    ghost predicate Valid()
      reads this
    {
      0 < fragmentSize &&
      if slices == [] then offset == 0 else offset == 0 || offset < slices[0].length
    }

    /** The fragments still to come, in order. */
    ghost function Contents(): seq<Buffer>
      reads this
      requires Valid()
    {
      Remaining(slices, offset, fragmentSize)
    }

    constructor (size: nat)
      requires 0 < size
      ensures Valid() && Contents() == [] && fragmentId == 0 && fragmentSize == size
    {
      slices, offset, fragmentId, fragmentSize := [], 0, 0, size;
    }

    method HasRemainingFragment() returns (any: bool)
      requires Valid()
      ensures any <==> Contents() != []
    {
      any := slices != [];
    }

    method PopFragment() returns (fragment: Buffer)
      requires Valid()
      modifies this
      ensures Valid() && fragmentId == old(fragmentId)
      ensures old(Contents()) == [] ==> fragment == Buffer(0, 0) && Contents() == []
      ensures old(Contents()) != [] ==> old(Contents()) == [fragment] + Contents()
    {
      if slices == [] {
        return Buffer(0, 0);
      }
      var slice := slices[0];
      var length := Min(fragmentSize, slice.length - offset);
      fragment := Buffer(slice.addr + offset, length);
      if offset + length == slice.length {
        PopLast(slices, offset, fragmentSize);
        slices := slices[1..];
        offset := 0;
      } else {
        PopInner(slices, offset, fragmentSize);
        offset := offset + length;
      }
    }

    method Push(list: seq<Buffer>) returns (start: nat, end: nat)
      requires Valid()
      modifies this
      ensures Valid()
      ensures Contents() == old(Contents()) + CutAll(list, fragmentSize)
      ensures start == old(fragmentId) && end == fragmentId == start + TotalCount(list, fragmentSize)
    {
      start := fragmentId;
      var i := 0;
      assert list[..0] == [];
      ghost var before := slices;
      while i < |list|
        invariant 0 <= i <= |list| && Valid()
        invariant slices == before + list[..i]
        invariant offset == old(offset)
        invariant fragmentId == start + TotalCount(list[..i], fragmentSize)
      {
        assert list[..i + 1] == list[..i] + [list[i]];
        CutAllAppend(list[..i], [list[i]], fragmentSize);
        slices := slices + [list[i]];
        fragmentId := fragmentId + FragmentCount(list[i].length, fragmentSize);
        i := i + 1;
      }
      assert list[..i] == list;
      end := fragmentId;
      RemainingAppend(before, list, offset, fragmentSize);
    }
  }

  lemma PopLast(slices: seq<Buffer>, offset: nat, size: nat)
    requires 0 < size && slices != [] && offset <= slices[0].length <= offset + size
    ensures Remaining(slices, offset, size) ==
            [Buffer(slices[0].addr + offset, slices[0].length - offset)] + Remaining(slices[1..], 0, size)
  {
    assert Trim(slices, offset)[1..] == slices[1..] == Trim(slices[1..], 0);
  }

  lemma PopInner(slices: seq<Buffer>, offset: nat, size: nat)
    requires 0 < size && slices != [] && offset + size < slices[0].length
    ensures Remaining(slices, offset, size) ==
            [Buffer(slices[0].addr + offset, size)] + Remaining(slices, offset + size, size)
  {
    assert Trim(slices, offset)[1..] == slices[1..] == Trim(slices, offset + size)[1..];
    var rest := Cut(Trim(slices, offset + size)[0], size);
    Associative([Buffer(slices[0].addr + offset, size)], rest, CutAll(slices[1..], size));
  }

  lemma RemainingAppend(slices: seq<Buffer>, more: seq<Buffer>, offset: nat, size: nat)
    requires 0 < size
    requires if slices == [] then offset == 0 else offset <= slices[0].length
    ensures slices + more != [] ==> offset <= (slices + more)[0].length
    ensures Remaining(slices + more, offset, size) == Remaining(slices, offset, size) + CutAll(more, size)
  {
    assert Trim(slices + more, offset) == Trim(slices, offset) + more;
    CutAllAppend(Trim(slices, offset), more, size);
  }

  lemma Associative<T>(a: seq<T>, b: seq<T>, c: seq<T>)
    ensures a + (b + c) == a + b + c
  {}
}
