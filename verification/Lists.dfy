/**
 The singly linked list that the memory manager uses three times: for free frames
 (framephy_struct), for regions (vm_rg_struct) and for mapped pages (pgn_t).
 */
module Lists {

  class Cell<T> {
    var item: T
    var next: Cell?<T>

    constructor (item: T, next: Cell?<T>)
      ensures this.item == item && this.next == next
    {
      this.item, this.next := item, next;
    }
  }

  /** The list that starts at head runs through these cells and holds these items. */
  ghost predicate Chain<T>(head: Cell?<T>, cells: seq<Cell<T>>, items: seq<T>)
    reads cells
  {
    && |cells| == |items|
    && head == (if |cells| == 0 then null else cells[0])
    && (forall i :: 0 <= i < |cells| ==> cells[i].item == items[i])
    && (forall i :: 0 <= i < |cells| - 1 ==> cells[i].next == cells[i + 1])
    && (|cells| > 0 ==> cells[|cells| - 1].next == null)
    && (forall i, j :: 0 <= i < j < |cells| ==> cells[i] != cells[j])
  }

  lemma ChainNil<T>()
    ensures Chain<T>(null, [], [])
  {
  }

  lemma ChainOne<T>(cell: Cell<T>)
    requires cell.next == null
    ensures Chain(cell, [cell], [cell.item])
  {
  }

  lemma ChainCons<T>(cell: Cell<T>, head: Cell?<T>, cells: seq<Cell<T>>, items: seq<T>)
    requires Chain(head, cells, items) && cell.next == head && cell !in cells
    ensures Chain(cell, [cell] + cells, [cell.item] + items)
  {
  }

  lemma ChainLength<T>(head: Cell?<T>, cells: seq<Cell<T>>, items: seq<T>)
    requires Chain(head, cells, items)
    ensures |cells| == |items|
    ensures head == null <==> cells == []
    ensures |cells| > 0 ==> head == cells[0]
  {
  }

  /** The cell without a successor is the last one. */
  lemma ChainLast<T>(head: Cell?<T>, cells: seq<Cell<T>>, items: seq<T>, k: nat)
    requires Chain(head, cells, items) && k < |cells|
    ensures cells[k].next == null <==> k == |cells| - 1
  {
    if k < |cells| - 1 {
      var after: Cell<T> := cells[k + 1];
      assert cells[k].next == after;
    }
  }

  /** One step along the list. */
  lemma ChainAt<T>(head: Cell?<T>, cells: seq<Cell<T>>, items: seq<T>, k: nat)
    requires Chain(head, cells, items) && k < |cells|
    ensures k < |items| && cells[k].item == items[k]
    ensures cells[k].next == if k + 1 < |cells| then cells[k + 1] else null
  {
  }

  /** Hangs a new last cell behind a non-empty list. */
  method LinkAfter<T>(tail: Cell<T>, cell: Cell<T>, ghost head: Cell?<T>, ghost cells: seq<Cell<T>>, ghost items: seq<T>)
    requires Chain(head, cells, items) && |cells| > 0 && tail == cells[|cells| - 1]
    requires cell !in cells && cell.next == null
    modifies tail`next
    ensures Chain(head, cells + [cell], items + [cell.item])
  {
    tail.next := cell;
  }

  /** Overwrites the item of one cell. */
  method SetItem<T>(cell: Cell<T>, item: T, ghost head: Cell?<T>, ghost cells: seq<Cell<T>>, ghost items: seq<T>, ghost k: nat)
    requires Chain(head, cells, items) && k < |cells| == |items| && cell == cells[k]
    modifies cell`item
    ensures Chain(head, cells, items[k := item]) && cell.item == item
  {
    cell.item := item;
  }

  /** Removes a cell's item by turning the cell into a clone of its successor and dropping that one. */
  method BecomeNext<T>(cell: Cell<T>, ghost head: Cell?<T>, ghost cells: seq<Cell<T>>, ghost items: seq<T>, ghost k: nat)
    requires Chain(head, cells, items) && k + 1 < |cells| == |items| && cell == cells[k]
    requires cell.next == cells[k + 1]
    modifies cell
    ensures Chain(head, cells[..k + 1] + cells[k + 2..], items[..k] + items[k + 1..])
  {
    var next := cell.next;
    ChainAt(head, cells, items, k + 1);
    cell.item := next.item;
    cell.next := next.next;
  }
}
