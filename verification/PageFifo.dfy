/**
 The list of mapped pages of one mm (fifo_pgn): src/mm64.c puts pages in at the head,
 src/libmem.c takes victims from the tail.
 */
module PageFifo {
  import opened Lists
  import opened Seqs
  import opened Wrappers

  class Fifo {
    var head: Cell?<nat>
    ghost var cells: seq<Cell<nat>>
    ghost var pages: seq<nat>

    ghost var Repr: set<object>

    ghost predicate Valid()
      reads this, Repr
      ensures Valid() ==> this in Repr
    {
      && this in Repr && (forall c :: c in cells ==> c in Repr)
      && Chain(head, cells, pages)
    }

    constructor ()
      ensures Valid() && fresh(Repr) && pages == []
    {
      head, cells, pages := null, [], [];
      Repr := {this};
    }

    /** enlist_pgn_node. */
    method Enlist(pgn: nat)
      requires Valid()
      modifies this
      ensures Valid() && fresh(Repr - old(Repr))
      ensures pages == [pgn] + old(pages)
    {
      var pnode := new Cell<nat>(pgn, head);
      ChainCons(pnode, head, cells, pages);
      head := pnode;
      cells, pages, Repr := [pnode] + cells, [pgn] + pages, Repr + {pnode};
    }

    /** find_victim_page: the last page of the list leaves it; nothing to find in an empty list. */
    method FindVictim() returns (victim: Option<nat>)
      requires Valid()
      modifies Repr
      ensures Valid() && Repr == old(Repr)
      ensures (victim, pages) == TakeLast(old(pages))
    {
      var pg := head;
      ChainLength(head, cells, pages);
      if pg == null {
        return None;
      }
      var prev: Cell?<nat> := null;
      ghost var k := 0;
      while pg.next != null
        invariant Valid() && unchanged(this)
        invariant 0 <= k < |cells| && pg == cells[k]
        invariant prev == if k == 0 then null else cells[k - 1]
        decreases |cells| - k
      {
        ChainLast(head, cells, pages, k);
        prev := pg;
        pg := pg.next;
        k := k + 1;
      }
      ChainLast(head, cells, pages, k);
      victim := Some(pg.item);
      if prev != null {
        prev.next := null;
      } else {
        head := null;
      }
      cells, pages := cells[..k], pages[..k];
    }
  }

  function TakeLast(pages: seq<nat>): (Option<nat>, seq<nat>) {
    if pages == [] then (None, []) else (Some(pages[|pages| - 1]), pages[..|pages| - 1])
  }

  // ----- Any interleaving of the two operations -----

  datatype Op = Put(pgn: nat) | Take

  /** The list after a run, with the victims in the order they were found. */
  function Run(ops: seq<Op>): (r: (seq<nat>, seq<nat>)) {
    if ops == [] then ([], [])
    else
      var (pages, victims) := Run(ops[..|ops| - 1]);
      match ops[|ops| - 1]
      case Put(pgn) => ([pgn] + pages, victims)
      case Take =>
        match TakeLast(pages)
        case (None, rest) => (rest, victims)
        case (Some(v), rest) => (rest, victims + [v])
  }

  /** The pages put in during a run, in order. */
  function Enlisted(ops: seq<Op>): seq<nat> {
    if ops == [] then []
    else Enlisted(ops[..|ops| - 1]) + (if ops[|ops| - 1].Put? then [ops[|ops| - 1].pgn] else [])
  }

  /** First in, first out: the pages put in are the victims followed by what still waits. */
  lemma {:induction false} VictimsAreAPrefix(ops: seq<Op>)
    ensures var (pages, victims) := Run(ops); Enlisted(ops) == victims + Reverse(pages)
  {
    if ops != [] {
      var before := ops[..|ops| - 1];
      VictimsAreAPrefix(before);
      var (pages, victims) := Run(before);
      match ops[|ops| - 1]
      case Put(pgn) =>
        ReverseCons(pgn, pages);
        assert Enlisted(before) + [pgn] == victims + (Reverse(pages) + [pgn]);
      case Take =>
        if pages != [] {
          var v := pages[|pages| - 1];
          ReverseLast(pages);
          assert victims + ([v] + Reverse(pages[..|pages| - 1])) == (victims + [v]) + Reverse(pages[..|pages| - 1]);
        }
    }
  }

  /** A search fails exactly when every page put in has already been a victim. */
  lemma {:induction false} MissIffDrained(ops: seq<Op>)
    ensures TakeLast(Run(ops).0).0 == None <==> |Run(ops).1| == |Enlisted(ops)|
  {
    VictimsAreAPrefix(ops);
  }
}
