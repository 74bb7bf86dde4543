/**
 The physical memory device of src/mm-memphy.c: its bytes, its linked list of free frames, and
 the batch allocator of src/mm64.c that takes frames from it.
 */
module MemPhy {
  import opened Lists
  import opened Paging
  import opened Seqs

  /** BYTE is a C char, which is signed here. */
  newtype Byte = x: int | -128 <= x < 128

  const INT_LIMIT: nat := 0x8000_0000

  /** Device bytes after frame `to` has received frame `from` of another device: __swap_cp_page. */
  function CopyFrame(src: seq<Byte>, from: nat, dst: seq<Byte>, to: nat): (r: seq<Byte>)
    requires (from + 1) * PAGESZ <= |src| && (to + 1) * PAGESZ <= |dst|
    ensures |r| == |dst|
    ensures forall i :: 0 <= i < |dst| ==>
      r[i] == if to * PAGESZ <= i < (to + 1) * PAGESZ then src[from * PAGESZ + i - to * PAGESZ] else dst[i]
  {
    dst[..to * PAGESZ] + src[from * PAGESZ..(from + 1) * PAGESZ] + dst[(to + 1) * PAGESZ..]
  }

  /** framephy_struct. */
  type FrameNode = Cell<nat>

  class Device {
    const storage: array<Byte>
    var freeFpList: Cell?<nat>
    ghost var nodes: seq<FrameNode>
    ghost var free: seq<nat>

    ghost var Repr: set<object>

    ghost predicate Valid()
      reads this, Repr
      ensures Valid() ==> this in Repr && storage in Repr
    {
      && this in Repr && storage in Repr && (forall c :: c in nodes ==> c in Repr)
      && Chain(freeFpList, nodes, free)
    }

    /**
     init_memphy for a random-access device.  `junk` is what memory that nobody set holds: a device
     without a whole frame keeps it as its list, and a device of one frame links that frame to it.
     */
    constructor (maxSize: nat, junk: Cell?<nat>)
      requires maxSize < INT_LIMIT
      ensures storage[..] == seq(maxSize, _ => 0) && fresh(storage)
      ensures maxSize / PAGESZ >= 2 || (maxSize / PAGESZ == 1 && junk == null)
              ==> Valid() && fresh(Repr) && free == seq(maxSize / PAGESZ, i => i)
      ensures maxSize / PAGESZ == 1 ==> freeFpList != null && fresh(freeFpList) && freeFpList.item == 0 && freeFpList.next == junk
      ensures maxSize / PAGESZ == 0 ==> freeFpList == junk
    {
      storage := new Byte[maxSize](_ => 0);
      freeFpList := junk;
      nodes, free := [], [];
      new;
      Repr := {this, storage};
      var ok := Format(maxSize / PAGESZ, junk);
    }

    /** MEMPHY_format: with two frames or more, the free list holds every frame, in ascending order. */
    method Format(numfp: nat, junk: Cell?<nat>) returns (ok: bool)
      requires this in Repr && storage in Repr
      modifies this`freeFpList, this`nodes, this`free, this`Repr
      ensures ok == (numfp > 0)
      ensures fresh(Repr - old(Repr))
      ensures numfp >= 2 || (numfp == 1 && junk == null) ==> Valid() && free == seq(numfp, i => i)
      ensures numfp == 1 ==> freeFpList != null && fresh(freeFpList) && freeFpList.item == 0 && freeFpList.next == junk
      ensures numfp == 0 ==> unchanged(this)
    {
      if numfp <= 0 {
        return false;
      }
      ok := true;
      var fst := new Cell<nat>(0, junk);
      freeFpList := fst;
      nodes, free, Repr := [fst], [0], Repr + {fst};
      if numfp > 1 {
        var second := LinkSecond(fst);
        LinkRest(second, numfp);
      }
    }

    /** The second frame: its node overwrites the link of the first. */
    method LinkSecond(first: Cell<nat>) returns (second: Cell<nat>)
      requires this in Repr && storage in Repr && first in Repr
      requires freeFpList == first && first.item == 0
      modifies this`nodes, this`free, this`Repr, first`next
      ensures Valid() && fresh(Repr - old(Repr))
      ensures nodes == [first, second] && free == [0, 1] && fresh(second)
    {
      second := new Cell<nat>(1, null);
      first.next := second;
      nodes, free, Repr := [first, second], [0, 1], Repr + {second};
    }

    /** The rest of the list, each node behind the one before. */
    method LinkRest(second: Cell<nat>, numfp: nat)
      requires numfp >= 2 && Valid() && |nodes| == 2 && nodes[1] == second && free == [0, 1]
      modifies this`nodes, this`free, this`Repr, second`next
      ensures Valid() && fresh(Repr - old(Repr))
      ensures free == seq(numfp, i => i)
    {
      hide Chain;
      var fst := second;
      var iter := 2;
      while iter < numfp
        invariant 2 <= iter <= numfp
        invariant Valid() && fresh(Repr - old(Repr))
        invariant |nodes| == iter && fst == nodes[iter - 1] && (fst == second || fresh(fst))
        invariant |free| == iter && forall i :: 0 <= i < iter ==> free[i] == i
      {
        var newfst := new Cell<nat>(iter, null);
        LinkAfter(fst, newfst, freeFpList, nodes, free);
        nodes, free, Repr := nodes + [newfst], free + [iter], Repr + {newfst};
        fst := newfst;
        iter := iter + 1;
      }
    }

    /** MEMPHY_read of a random-access device. */
    method ReadByte(addr: nat) returns (value: Byte)
      requires Valid() && addr < storage.Length
      ensures value == storage[addr]
    {
      value := storage[addr];
    }

    /** MEMPHY_write of a random-access device. */
    method WriteByte(addr: nat, value: Byte)
      requires Valid() && addr < storage.Length
      modifies storage
      ensures Valid() && storage[..] == old(storage[..])[addr := value]
    {
      storage[addr] := value;
    }

    /** MEMPHY_get_freefp: the first free frame, or a failure that changes nothing. */
    method GetFreeFp() returns (ok: bool, fpn: nat)
      requires Valid()
      modifies this`freeFpList, this`nodes, this`free
      ensures Valid()
      ensures ok == (old(free) != [])
      ensures ok ==> fpn == old(free)[0] && free == old(free)[1..]
      ensures !ok ==> free == []
    {
      var fp := freeFpList;
      if fp == null {
        return false, 0;
      }
      fpn := fp.item;
      freeFpList := fp.next;
      nodes, free := nodes[1..], free[1..];
      ok := true;
    }

    /** MEMPHY_put_freefp: the frame goes to the front. */
    method PutFreeFp(fpn: nat)
      requires Valid()
      modifies this`freeFpList, this`nodes, this`free, this`Repr
      ensures Valid() && fresh(Repr - old(Repr))
      ensures free == [fpn] + old(free)
    {
      var newnode := new Cell<nat>(fpn, freeFpList);
      freeFpList := newnode;
      nodes, free, Repr := [newnode] + nodes, [fpn] + free, Repr + {newnode};
    }
  }

  /** __swap_cp_page: byte by byte from one frame to a frame of another device. */
  method SwapCpPage(src: Device, srcfpn: nat, dst: Device, dstfpn: nat)
    requires src.storage != dst.storage && src.Valid() && dst.Valid() && dst.storage !in src.Repr
    requires (srcfpn + 1) * PAGESZ <= src.storage.Length && (dstfpn + 1) * PAGESZ <= dst.storage.Length
    modifies dst.storage
    ensures dst.Valid()
    ensures forall i :: 0 <= i < dst.storage.Length ==>
      dst.storage[i] == if dstfpn * PAGESZ <= i < (dstfpn + 1) * PAGESZ then src.storage[srcfpn * PAGESZ + i - dstfpn * PAGESZ]
                        else old(dst.storage[i])
    ensures dst.storage[..] == CopyFrame(src.storage[..], srcfpn, old(dst.storage[..]), dstfpn)
  {
    hide Chain;
    ghost var before := dst.storage[..];
    var cell := 0;
    while cell < PAGESZ
      invariant 0 <= cell <= PAGESZ && src.Valid() && dst.Valid()
      invariant forall i :: 0 <= i < dst.storage.Length ==>
                  (dst.storage[i] == if dstfpn * PAGESZ <= i < dstfpn * PAGESZ + cell
                                     then src.storage[srcfpn * PAGESZ + i - dstfpn * PAGESZ] else before[i])
    {
      var data := src.ReadByte(srcfpn * PAGESZ + cell);
      dst.WriteByte(dstfpn * PAGESZ + cell, data);
      cell := cell + 1;
    }
    ghost var after := CopyFrame(src.storage[..], srcfpn, before, dstfpn);
    assert |after| == dst.storage.Length;
    assert forall i :: 0 <= i < |after| ==> after[i] == dst.storage[i];
  }

  // ----- alloc_pages_range -----

  datatype AllocStatus = AllocOk | BadRequest | OutOfFrames

  /**
   All or nothing: n frames from the front of the free list, in order, leaving exactly the rest;
   or, when fewer than n are free, no frames at all and the free list turned around.
   */
  method AllocPagesRange(mp: Device, n: int) returns (status: AllocStatus, head: Cell?<nat>,
                                                      ghost chain: seq<FrameNode>, ghost fpns: seq<nat>)
    requires mp.Valid()
    modifies mp`freeFpList, mp`nodes, mp`free, mp`Repr
    ensures mp.Valid() && fresh(mp.Repr - old(mp.Repr))
    ensures Chain(head, chain, fpns)
    ensures forall j :: 0 <= j < |chain| ==> fresh(chain[j]) && chain[j] !in mp.Repr
    ensures status == if n <= 0 then BadRequest else if n <= |old(mp.free)| then AllocOk else OutOfFrames
    ensures status.BadRequest? ==> fpns == [] && mp.free == old(mp.free)
    ensures status.AllocOk? ==> fpns == old(mp.free)[..n] && mp.free == old(mp.free)[n..]
    ensures status.OutOfFrames? ==> fpns == [] && mp.free == Reverse(old(mp.free))
  {
    hide Reverse, Chain;
    head, chain, fpns := null, [], [];
    ChainNil<nat>();
    if n <= 0 {
      return BadRequest, head, chain, fpns;
    }
    var tail: Cell?<nat> := null;
    var i := 0;
    while i < n
      invariant 0 <= i <= n && i <= |old(mp.free)|
      invariant mp.Valid() && mp.Repr == old(mp.Repr)
      invariant Chain(head, chain, fpns) && |chain| == i
      invariant forall j :: 0 <= j < |chain| ==> fresh(chain[j])
      invariant fpns == old(mp.free)[..i] && mp.free == old(mp.free)[i..]
      invariant tail == if i == 0 then null else chain[i - 1]
    {
      var ok, fpn := mp.GetFreeFp();
      if !ok {
        GiveBack(mp, head, chain, fpns);
        assert fpns == old(mp.free);
        return OutOfFrames, null, [], [];
      }
      var node := new Cell<nat>(fpn, null);
      if tail != null {
        LinkAfter(tail, node, head, chain, fpns);
      } else {
        head := node;
        ChainOne(node);
        assert chain + [node] == [node] && fpns + [fpn] == [fpn];
      }
      tail := node;
      chain, fpns := chain + [node], fpns + [fpn];
      i := i + 1;
    }
    status := AllocOk;
  }

  /** The roll-back loop: the taken frames go back one by one, first taken first. */
  method GiveBack(mp: Device, first: Cell?<nat>, ghost chain: seq<FrameNode>, ghost fpns: seq<nat>)
    requires mp.Valid() && mp.free == []
    requires Chain(first, chain, fpns) && forall j :: 0 <= j < |chain| ==> chain[j] !in mp.Repr
    modifies mp`freeFpList, mp`nodes, mp`free, mp`Repr
    ensures mp.Valid() && fresh(mp.Repr - old(mp.Repr))
    ensures mp.free == Reverse(fpns)
  {
    var head := first;
    ghost var k := 0;
    while head != null
      invariant 0 <= k <= |chain|
      invariant head == if k < |chain| then chain[k] else null
      invariant Chain(first, chain, fpns)
      invariant mp.Valid() && fresh(mp.Repr - old(mp.Repr))
      invariant mp.free == Reverse(fpns[..k])
      decreases |chain| - k
    {
      var next := head.next;
      mp.PutFreeFp(head.item);
      ReverseLast(fpns[..k + 1]);
      assert fpns[..k + 1][..k] == fpns[..k];
      head := next;
      k := k + 1;
    }
    assert fpns[..k] == fpns;
  }
}
