/**
 The one memory area of an mm (vm_area_struct) with its linked free list, changed in place by
 src/libmem.c and src/mm-vm.c.
 */
module VmArea {
  import opened Lists
  import opened Paging
  import opened Space

  class Area {
    var vmStart: nat
    var vmEnd: nat
    var sbrk: nat
    var freeRgList: Cell?<Region>
    ghost var cells: seq<Cell<Region>>
    ghost var free: seq<Region>

    ghost var Repr: set<object>

    ghost predicate Valid()
      reads this, Repr
      ensures Valid() ==> this in Repr
    {
      && this in Repr && (forall c :: c in cells ==> c in Repr)
      && Chain(freeRgList, cells, free)
    }

    /** The area that init_mm sets up: empty, with one empty free region. */
    constructor (start: nat)
      ensures Valid() && fresh(Repr)
      ensures vmStart == vmEnd == sbrk == start && free == [Region(start, start)]
    {
      vmStart, vmEnd, sbrk := start, start, start;
      var first := new Cell<Region>(Region(start, start), null);
      freeRgList := first;
      cells, free := [first], [Region(start, start)];
      Repr := {this, first};
      new;
      ChainOne(first);
    }

    /** enlist_vm_freerg_list and enlist_vm_rg_node: a new node at the head. */
    method PushRegion(r: Region)
      requires Valid()
      modifies this`freeRgList, this`cells, this`free, this`Repr
      ensures Valid() && fresh(Repr - old(Repr))
      ensures free == [r] + old(free)
    {
      var node := new Cell<Region>(r, freeRgList);
      ChainCons(node, freeRgList, cells, free);
      freeRgList := node;
      cells, free, Repr := [node] + cells, [r] + free, Repr + {node};
    }

    /** get_free_vmrg_area: first fit on the linked list, changed in place. */
    method GetFreeVmrgArea(size: int) returns (ok: bool, rg: Region)
      requires Valid()
      modifies this`cells, this`free, cells
      ensures Valid()
      ensures Taken(ok, rg, free) == TakeRegion(old(free), size)
    {
      rg := Region(WORD64 - 1, WORD64 - 1);
      var rgit := freeRgList;
      ghost var k := 0;
      ChainLength(freeRgList, cells, free);
      while rgit != null && !Fits(rgit.item, size)
        invariant Valid() && unchanged(this) && unchanged(cells)
        invariant 0 <= k <= |cells| == |free|
        invariant rgit == if k < |cells| then cells[k] else null
        invariant forall i :: 0 <= i < k ==> !Fits(free[i], size)
        decreases |cells| - k
      {
        ChainLast(freeRgList, cells, free, k);
        rgit := rgit.next;
        k := k + 1;
      }
      FirstFitIs(free, size, k);
      if rgit != null {
        rg := Region(rgit.item.start, Wrap64(rgit.item.start + size));
        CarveNode(rgit, size, k);
      }
      ok := rg.start != WORD64 - 1;
    }

    /** The chosen node gives its first bytes away; a used-up node becomes its successor's clone. */
    method CarveNode(rgit: Cell<Region>, size: int, ghost k: nat)
      requires Valid() && k < |cells| == |free| && rgit == cells[k]
      modifies this`cells, this`free, rgit
      ensures Valid()
      ensures free == Carve(old(free), k, size)
    {
      hide Lists.Chain;
      var start, end := rgit.item.start, rgit.item.end;
      ChainAt(freeRgList, cells, free, k);
      if Wrap64(start + size) < end {
        SetItem(rgit, Region(Wrap64(start + size), end), freeRgList, cells, free, k);
        free := free[k := rgit.item];
      } else if rgit.next != null {
        BecomeNext(rgit, freeRgList, cells, free, k);
        cells, free := cells[..k + 1] + cells[k + 2..], free[..k] + free[k + 1..];
      } else {
        SetItem(rgit, Region(end, end), freeRgList, cells, free, k);
        free := free[k := rgit.item];
      }
    }
  }

  lemma {:induction false} FirstFitIs(free: seq<Region>, size: int, k: nat)
    requires k <= |free| && (k < |free| ==> Fits(free[k], size))
    requires forall i :: 0 <= i < k ==> !Fits(free[i], size)
    ensures FirstFit(free, size) == k
  {
  }
}
