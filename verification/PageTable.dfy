/**
 The five-level page table of src/mm64.c.  Tables are arrays of 512 words linked in place and
 allocated on demand; the ghost map `flat` is the table a reader has in mind, from page numbers
 to entries, and every operation is stated as what it does to that map.
 */
module PageTable {
  import opened Bits
  import opened Paging

  /** A 64-bit word of a table: a number (the null pointer is 0) or the address of a table. */
  datatype Word = Number(v: nat) | Ptr(table: array<Word>)

  /** The place of a table: how many indices lead to it, and those indices read base 512. */
  datatype Node = Node(depth: nat, prefix: nat)

  const ROOT := Node(0, 0)
  const LEAF_DEPTH: nat := 4

  function Kid(n: Node, i: nat): Node {
    Node(n.depth + 1, n.prefix * ENTRIES + i)
  }

  function Parent(n: Node): Node
    requires n.depth > 0
  {
    Node(n.depth - 1, n.prefix / ENTRIES)
  }

  /** The leaf table that holds the entry of page p. */
  function LeafOf(p: nat): Node {
    Node(LEAF_DEPTH, p / ENTRIES)
  }

  /** The entry of page p in a flat table; pages without an entry read zero. */
  function Lookup(flat: map<nat, nat>, p: nat): nat {
    if p in flat then flat[p] else 0
  }

  lemma KidsDiffer(m: Node, j: nat, n: Node, i: nat)
    requires i < ENTRIES && j < ENTRIES
    ensures Kid(m, j) == Kid(n, i) <==> m == n && i == j
    ensures Parent(Kid(n, i)) == n
  {
  }

  // ----- Tables seen as values -----

  /** Which table sits at which place. */
  type Directory = map<Node, array<Word>>

  /** The words of every table. */
  type Image = map<Node, seq<Word>>

  /** Distinct places have distinct tables, and every table hangs below the root. */
  ghost predicate Linked(dir: Directory) {
    && ROOT in dir
    && (forall n :: n in dir ==> n.depth <= LEAF_DEPTH && dir[n].Length == ENTRIES)
    && (forall n {:trigger Parent(n)} :: n in dir && n.depth > 0 ==> Parent(n) in dir)
    && (forall m, n :: m in dir && n in dir && m != n ==> dir[m] != dir[n])
  }

  /** The word that belongs at index i of the table at place n. */
  ghost function Expected(dir: Directory, flat: map<nat, nat>, n: Node, i: nat): Word {
    if n.depth == LEAF_DEPTH then Number(Lookup(flat, n.prefix * ENTRIES + i))
    else if Kid(n, i) in dir then Ptr(dir[Kid(n, i)])
    else Number(0)
  }

  /** The tables hold the flat table and nothing else. */
  ghost predicate Represents(dir: Directory, image: Image, flat: map<nat, nat>) {
    && image.Keys == dir.Keys
    && (forall n :: n in image ==> |image[n]| == ENTRIES)
    && (forall n, i: nat :: n in image && i < ENTRIES ==> image[n][i] == Expected(dir, flat, n, i))
    && (forall p :: p in flat ==> p < PAGES && LeafOf(p) in dir)
  }

  /** The image after a zeroed table has been hung under word idx of the table at `at`. */
  ghost function Hung(image: Image, at: Node, idx: nat, sub: array<Word>): Image
    requires at in image && idx < |image[at]|
  {
    image[at := image[at][idx := Ptr(sub)]][Kid(at, idx) := seq(ENTRIES, _ => Number(0))]
  }

  lemma TableLinked(dir: Directory, at: Node, idx: nat, sub: array<Word>)
    requires Linked(dir)
    requires at in dir && at.depth < LEAF_DEPTH && idx < ENTRIES
    requires sub.Length == ENTRIES && forall n :: n in dir ==> dir[n] != sub
    ensures Linked(dir[Kid(at, idx) := sub])
  {
    KidsDiffer(at, idx, at, idx);
  }

  lemma HungWord(dir: Directory, image: Image, flat: map<nat, nat>, at: Node, idx: nat, sub: array<Word>,
                 n: Node, i: nat)
    requires Linked(dir) && Represents(dir, image, flat)
    requires at in dir && at.depth < LEAF_DEPTH && idx < ENTRIES && Kid(at, idx) !in dir
    requires n in Hung(image, at, idx, sub) && i < ENTRIES
    ensures Hung(image, at, idx, sub)[n][i] == Expected(dir[Kid(at, idx) := sub], flat, n, i)
  {
    KidsDiffer(n, i, at, idx);
    KidsDiffer(at, idx, at, idx);
    if n == Kid(at, idx) {
      if n.depth == LEAF_DEPTH {
        assert LeafOf(n.prefix * ENTRIES + i) == n;
      } else {
        KidsDiffer(n, i, n, i);
      }
    } else {
      assert image[n][i] == Expected(dir, flat, n, i);
    }
  }

  /** Hanging a zeroed table under an empty word represents the same flat table. */
  lemma TableAdded(dir: Directory, image: Image, flat: map<nat, nat>, at: Node, idx: nat, sub: array<Word>)
    requires Linked(dir) && Represents(dir, image, flat)
    requires at in dir && at.depth < LEAF_DEPTH && idx < ENTRIES && Kid(at, idx) !in dir
    ensures Represents(dir[Kid(at, idx) := sub], Hung(image, at, idx, sub), flat)
  {
    hide Linked, Expected;
    var dir' := dir[Kid(at, idx) := sub];
    var image' := Hung(image, at, idx, sub);
    forall n, i: nat | n in image' && i < ENTRIES
      ensures image'[n][i] == Expected(dir', flat, n, i)
    {
      HungWord(dir, image, flat, at, idx, sub, n, i);
    }
  }

  /** Writing one word of a leaf is writing one entry of the flat table. */
  lemma EntryWritten(dir: Directory, image: Image, flat: map<nat, nat>, p: nat, v: nat)
    requires Linked(dir) && Represents(dir, image, flat)
    requires p < PAGES && LeafOf(p) in dir
    ensures Represents(dir, image[LeafOf(p) := image[LeafOf(p)][p % ENTRIES := Number(v)]], flat[p := v])
  {
    var image' := image[LeafOf(p) := image[LeafOf(p)][p % ENTRIES := Number(v)]];
    forall n, i: nat | n in image' && i < ENTRIES
      ensures image'[n][i] == Expected(dir, flat[p := v], n, i)
    {
      if n.depth == LEAF_DEPTH && n.prefix * ENTRIES + i == p {
        assert n == LeafOf(p) && i == p % ENTRIES;
      }
    }
  }

  /** A place below a missing table has no table either. */
  lemma NothingBelow(dir: Directory, n: Node, i: nat)
    requires Linked(dir) && n !in dir && i < ENTRIES
    ensures Kid(n, i) !in dir
  {
    KidsDiffer(n, i, n, i);
  }

  class PageDir {
    var pgd: array<Word>
    ghost var dir: Directory
    ghost var flat: map<nat, nat>
    ghost var Repr: set<object>

    ghost predicate Owned()
      reads this
    {
      this in Repr && forall n :: n in dir ==> dir[n] in Repr
    }

    ghost function Contents(): Image
      requires Owned()
      reads Repr, this
    {
      map n | n in dir :: dir[n][..]
    }

    ghost predicate Valid()
      reads this, Repr
      ensures Valid() ==> this in Repr
    {
      && Owned()
      && Linked(dir) && dir[ROOT] == pgd
      && Represents(dir, Contents(), flat)
    }

    /** The empty table of init_mm. */
    constructor ()
      ensures Valid() && fresh(Repr)
      ensures flat == map[]
    {
      pgd := new Word[ENTRIES](_ => Number(0));
      new;
      dir := map[ROOT := pgd];
      flat := map[];
      Repr := {this, pgd};
    }

    /**
     One stanza of the walk: follow word idx of a table, allocating the table below when it is
     missing and create is set.
     */
    method NextTable(ghost at: Node, tbl: array<Word>, idx: nat, create: bool) returns (next: array?<Word>)
      requires Valid() && at in dir && dir[at] == tbl && at.depth < LEAF_DEPTH && idx < ENTRIES
      modifies this`dir, this`Repr, tbl
      ensures Valid()
      ensures fresh(Repr - old(Repr))
      ensures next == null <==> !create && Kid(at, idx) !in old(dir)
      ensures next != null ==> dir == old(dir)[Kid(at, idx) := next]
      ensures next != null ==> fresh(next) || next in old(Repr)
      ensures !create || Kid(at, idx) in old(dir) ==> dir == old(dir) && Contents() == old(Contents())
    {
      ghost var image := Contents();
      assert image[at][idx] == Expected(dir, flat, at, idx);
      if tbl[idx] != Number(0) {
        next := tbl[idx].table;
      } else if create {
        var sub := new Word[ENTRIES](_ => Number(0));
        tbl[idx] := Ptr(sub);
        TableAdded(dir, image, flat, at, idx, sub);
        TableLinked(dir, at, idx, sub);
        dir := dir[Kid(at, idx) := sub];
        Repr := Repr + {sub};
        assert Contents() == Hung(image, at, idx, sub) by {
          forall n | n in dir
            ensures dir[n][..] == Hung(image, at, idx, sub)[n]
          {
          }
        }
        next := sub;
      } else {
        next := null;
      }
    }

    lemma RootThere()
      requires Valid()
      ensures ROOT in dir && dir[ROOT] == pgd
    {
    }

    /** The word for page p in its leaf table. */
    lemma EntryAt(p: nat)
      requires Valid() && p < PAGES && LeafOf(p) in dir
      ensures dir[LeafOf(p)].Length == ENTRIES
      ensures dir[LeafOf(p)][p % ENTRIES] == Number(Lookup(flat, p))
    {
      assert Contents()[LeafOf(p)][p % ENTRIES] == Expected(dir, flat, LeafOf(p), p % ENTRIES);
    }

    lemma EntryMissing(p: nat)
      requires Valid() && LeafOf(p) !in dir
      ensures Lookup(flat, p) == 0
    {
    }

    /**
     mm64_page_walk.  The result is the address of the entry: a leaf table and an index into it.
     The walk never changes an entry; without create it changes nothing, and it finds no entry
     only where the flat table reads zero.
     */
    method Walk(pgn: nat, create: bool) returns (leaf: array?<Word>, idx: nat)
      requires Valid()
      modifies Repr
      ensures Valid() && fresh(Repr - old(Repr))
      ensures flat == old(flat)
      ensures leaf == null <==> !create && LeafOf(pgn % PAGES) !in old(dir)
      ensures leaf == null ==> Lookup(flat, pgn % PAGES) == 0
      ensures leaf != null ==> LeafOf(pgn % PAGES) in dir && dir[LeafOf(pgn % PAGES)] == leaf
      ensures idx == pgn % PAGES % ENTRIES
      ensures !create ==> dir == old(dir) && Contents() == old(Contents())
    {
      hide PdFromPagenum, Linked, Represents, Expected, Lookup;
      var ix := PdFromPagenum(pgn);
      IndexDigits(pgn);
      idx := ix.pt;
      RootThere();
      ghost var p4d := Kid(ROOT, ix.pgd);
      ghost var pud := Kid(p4d, ix.p4d);
      ghost var pmd := Kid(pud, ix.pud);
      assert Kid(pmd, ix.pmd) == LeafOf(pgn % PAGES);
      assert ROOT.depth == 0 && p4d.depth == 1 && pud.depth == 2 && pmd.depth == 3;
      hide Kid, LeafOf;
      leaf := NextTable(ROOT, pgd, ix.pgd, create);
      assert fresh(Repr - old(Repr)) && (leaf != null ==> fresh(leaf) || leaf in old(Repr));
      if leaf == null {
        NothingBelow(dir, p4d, ix.p4d);
        NothingBelow(dir, pud, ix.pud);
        NothingBelow(dir, pmd, ix.pmd);
        EntryMissing(pgn % PAGES);
        return;
      }
      leaf := NextTable(p4d, leaf, ix.p4d, create);
      assert fresh(Repr - old(Repr)) && (leaf != null ==> fresh(leaf) || leaf in old(Repr));
      if leaf == null {
        NothingBelow(dir, pud, ix.pud);
        NothingBelow(dir, pmd, ix.pmd);
        EntryMissing(pgn % PAGES);
        return;
      }
      leaf := NextTable(pud, leaf, ix.pud, create);
      assert fresh(Repr - old(Repr)) && (leaf != null ==> fresh(leaf) || leaf in old(Repr));
      if leaf == null {
        NothingBelow(dir, pmd, ix.pmd);
        EntryMissing(pgn % PAGES);
        return;
      }
      leaf := NextTable(pmd, leaf, ix.pmd, create);
      if leaf == null {
        EntryMissing(pgn % PAGES);
      }
    }

    /** Stores a word through the address that Walk returned. */
    method Store(ghost p: nat, leaf: array<Word>, idx: nat, v: nat)
      requires Valid() && p < PAGES && LeafOf(p) in dir && dir[LeafOf(p)] == leaf && idx == p % ENTRIES
      modifies this`flat, leaf
      ensures Valid()
      ensures flat == old(flat)[p := v]
    {
      ghost var image := Contents();
      EntryWritten(dir, image, flat, p, v);
      leaf[idx] := Number(v);
      flat := flat[p := v];
      assert Contents() == image[LeafOf(p) := image[LeafOf(p)][idx := Number(v)]];
    }

    /** pte_set_fpn: exactly the entry of this page changes. */
    method SetFpn(pgn: nat, fpn: nat)
      requires Valid()
      modifies Repr
      ensures Valid() && fresh(Repr - old(Repr))
      ensures flat == old(flat)[pgn % PAGES := WithFpn(Lookup(old(flat), pgn % PAGES), fpn)]
    {
      hide Linked, Represents, WithFpn, WithSwap, Low32, Lookup;
      var leaf, idx := Walk(pgn, true);
      EntryAt(pgn % PAGES);
      Store(pgn % PAGES, leaf, idx, WithFpn(leaf[idx].v, fpn));
    }

    /** pte_set_swap: exactly the entry of this page changes. */
    method SetSwap(pgn: nat, swptyp: nat, swpoff: nat)
      requires Valid()
      modifies Repr
      ensures Valid() && fresh(Repr - old(Repr))
      ensures flat == old(flat)[pgn % PAGES := WithSwap(Lookup(old(flat), pgn % PAGES), swptyp, swpoff)]
    {
      hide Linked, Represents, WithFpn, WithSwap, Low32, Lookup;
      var leaf, idx := Walk(pgn, true);
      EntryAt(pgn % PAGES);
      Store(pgn % PAGES, leaf, idx, WithSwap(leaf[idx].v, swptyp, swpoff));
    }

    /** pte_get_entry: reads the low 32 bits; no entry changes, although tables may be allocated. */
    method GetEntry(pgn: nat) returns (pte: nat)
      requires Valid()
      modifies Repr
      ensures Valid() && fresh(Repr - old(Repr))
      ensures flat == old(flat)
      ensures pte == Low32(Lookup(flat, pgn % PAGES))
    {
      hide Linked, Represents, WithFpn, WithSwap, Low32, Lookup;
      var leaf, idx := Walk(pgn, true);
      EntryAt(pgn % PAGES);
      pte := Low32(leaf[idx].v);
    }

    /** pte_set_entry: exactly the entry of this page changes. */
    method SetEntry(pgn: nat, pte: nat)
      requires Valid()
      modifies Repr
      ensures Valid() && fresh(Repr - old(Repr))
      ensures flat == old(flat)[pgn % PAGES := Low32(pte)]
    {
      hide Linked, Represents, WithFpn, WithSwap, Low32, Lookup;
      var leaf, idx := Walk(pgn, true);
      Store(pgn % PAGES, leaf, idx, Low32(pte));
    }
  }
}
