/**
 The binary tree of blocks behind the buddy allocator, driver/internal/devicebuddymemstate.go: a
 block of level l is one of 2^l equal parts of the storage, and its halves are of level l + 1.
 */
module BuddyTree {

  import opened Arithmetic

  datatype Node = Node(level: nat, index: nat)

  /** A block is free, handed out, cut in two, or being cut by the allocation under way. */
  datatype Kind = Free | Held | Used | Cut

  type Tree = map<Node, Kind>

  function Pow2(n: nat): (p: nat)
    ensures p > 0
  {
    if n == 0 then 1 else 2 * Pow2(n - 1)
  }

  lemma {:induction false} Pow2Grows(a: nat, b: nat)
    requires a <= b
    ensures Pow2(a) <= Pow2(b)
    decreases b
  {
    if a < b { Pow2Grows(a, b - 1); }
  }

  function Parent(n: Node): Node
    requires n.level > 0
  {
    Node(n.level - 1, n.index / 2)
  }

  function Left(n: Node): Node {
    Node(n.level + 1, 2 * n.index)
  }

  function Right(n: Node): Node {
    Node(n.level + 1, 2 * n.index + 1)
  }

  const ROOT: Node := Node(0, 0)

  predicate InLevel(n: Node) {
    n.index < Pow2(n.level)
  }

  /** indexOfBlock: all blocks of all levels, numbered through. */
  function Heap(n: Node): nat {
    Pow2(n.level) + n.index - 1
  }

  lemma HeapInRange(n: Node, levels: nat)
    requires n.level < levels && InLevel(n)
    ensures Heap(n) < Pow2(levels)
  {
    Pow2Grows(n.level + 1, levels);
  }

  lemma HeapInjective(n: Node, m: Node)
    requires InLevel(n) && InLevel(m) && Heap(n) == Heap(m)
    ensures n == m
  {
    if n.level < m.level {
      Pow2Grows(n.level + 1, m.level);
    } else if m.level < n.level {
      Pow2Grows(m.level + 1, n.level);
    }
  }

  /** Only halves of a cut block are blocks; the free ones, but for the whole storage, are second halves. */
  ghost predicate NodeOk(t: Tree, levels: nat, n: Node)
    requires n in t
  {
    && n.level <= levels && InLevel(n)
    && (n.level > 0 ==> Parent(n) in t && t[Parent(n)] == Cut)
    && (t[n] == Cut ==> n.level < levels && Left(n) in t && Right(n) in t)
    && (t[n] == Free && n.level > 0 ==> n.index % 2 == 1)
  }

  ghost predicate TreeOk(t: Tree, levels: nat) {
    ROOT in t && forall n | n in t :: NodeOk(t, levels, n)
  }

  /** Cutting a held block: its first half is held, its second half is free. */
  function CutOf(t: Tree, n: Node): Tree {
    t[n := Cut][Left(n) := Held][Right(n) := Free]
  }

  lemma NotYetHalves(t: Tree, levels: nat, n: Node)
    requires TreeOk(t, levels) && n in t && t[n] != Cut
    ensures Left(n) !in t && Right(n) !in t
  {
    hide NodeOk;
    if Left(n) in t { NodeFacts(t, levels, Left(n)); }
    if Right(n) in t { NodeFacts(t, levels, Right(n)); }
  }

  lemma NodeFacts(t: Tree, levels: nat, n: Node)
    requires TreeOk(t, levels) && n in t
    ensures n.level <= levels && InLevel(n)
    ensures n.level > 0 ==> Parent(n) in t && t[Parent(n)] == Cut
    ensures t[n] == Cut ==> n.level < levels && Left(n) in t && Right(n) in t
    ensures t[n] == Free && n.level > 0 ==> n.index % 2 == 1
  {
    assert NodeOk(t, levels, n);
  }

  lemma CutKeeps(t: Tree, levels: nat, n: Node)
    requires TreeOk(t, levels) && n in t && t[n] == Held && n.level < levels
    ensures TreeOk(CutOf(t, n), levels)
  {
    hide NodeOk;
    NotYetHalves(t, levels, n);
    forall m | m in CutOf(t, n) ensures NodeOk(CutOf(t, n), levels, m) {
      assert NodeOk(t, levels, n);
      assert m in t ==> NodeOk(t, levels, m);
      CutKeepsOne(t, levels, n, m);
    }
  }

  lemma CutKeepsOne(t: Tree, levels: nat, n: Node, m: Node)
    requires n in t && t[n] == Held && n.level < levels && NodeOk(t, levels, n) && Left(n) !in t && Right(n) !in t
    requires m in CutOf(t, n) && (m in t ==> NodeOk(t, levels, m))
    ensures NodeOk(CutOf(t, n), levels, m)
  {
    hide Pow2;
    if m == Left(n) {
      HalfInLevel(n, m);
      assert Parent(m) == n && m.index % 2 == 0;
    } else if m == Right(n) {
      HalfInLevel(n, m);
      assert Parent(m) == n;
    }
  }

  lemma HalfInLevel(n: Node, m: Node)
    requires InLevel(n) && (m == Left(n) || m == Right(n))
    ensures InLevel(m)
  {}

  /** Changing the kind of an uncut block. */
  lemma MarkKeeps(t: Tree, levels: nat, n: Node, k: Kind)
    requires TreeOk(t, levels) && n in t && t[n] != Cut && (k == Held || k == Used)
    ensures TreeOk(t[n := k], levels)
  {
    hide NodeOk;
    var after := t[n := k];
    forall m | m in after ensures NodeOk(after, levels, m) {
      assert NodeOk(t, levels, m);
      MarkKeepsOne(t, levels, n, k, m);
    }
  }

  lemma MarkKeepsOne(t: Tree, levels: nat, n: Node, k: Kind, m: Node)
    requires n in t && t[n] != Cut && (k == Held || k == Used) && m in t && NodeOk(t, levels, m)
    ensures NodeOk(t[n := k], levels, m)
  {}

  lemma NotNegative(a: nat, b: nat)
    requires b > 0
    ensures a / b >= 0
  {
    Quotient(a, b);
    if a / b < 0 { Times(a / b, -1, b); }
  }

  /** The block of a level that covers a page. */
  function BlockOf(levels: nat, l: nat, page: nat): Node
    requires l <= levels
  {
    NotNegative(page, Pow2(levels - l));
    Node(l, page / Pow2(levels - l))
  }

  predicate Covers(n: Node, levels: nat, page: nat) {
    n.level <= levels && BlockOf(levels, n.level, page) == n
  }

  /** The block of a level that covers a page is half of the one a level above. */
  lemma CoverUp(levels: nat, l: nat, page: nat)
    requires 0 < l <= levels
    ensures Parent(BlockOf(levels, l, page)) == BlockOf(levels, l - 1, page)
  {
    var s, q := Pow2(levels - l), page / Pow2(levels - l);
    assert Pow2(levels - (l - 1)) == 2 * s;
    Quotient(page, s);
    Quotient(q, 2);
    assert q * s == (q / 2) * (2 * s) + (q % 2) * s;
    if q % 2 == 1 { assert (q % 2) * s == s; } else { assert (q % 2) * s == 0; }
    DivUnique(page, 2 * s, q / 2, (q % 2) * s + page % s);
  }

  /** Above a block of the tree, everything that covers its pages is cut. */
  lemma {:induction false} AncestorsCut(t: Tree, levels: nat, n: Node, l: nat, page: nat)
    requires TreeOk(t, levels) && n in t && Covers(n, levels, page) && l < n.level
    ensures BlockOf(levels, l, page) in t && t[BlockOf(levels, l, page)] == Cut
    decreases n.level
  {
    hide TreeOk, NodeOk, BlockOf;
    NodeFacts(t, levels, n);
    CoverUp(levels, n.level, page);
    if l < n.level - 1 {
      AncestorsCut(t, levels, Parent(n), l, page);
    }
  }

  /** No page is in two uncut blocks. */
  lemma LeafUnique(t: Tree, levels: nat, page: nat, n: Node, m: Node)
    requires TreeOk(t, levels) && n in t && m in t && t[n] != Cut && t[m] != Cut
    requires Covers(n, levels, page) && Covers(m, levels, page)
    ensures n == m
  {
    hide TreeOk, NodeOk, BlockOf;
    if n.level < m.level {
      AncestorsCut(t, levels, m, n.level, page);
    } else if m.level < n.level {
      AncestorsCut(t, levels, n, m.level, page);
    }
  }

  /** Every page is in an uncut block at or below any block that covers it. */
  lemma {:induction false} LeafBelow(t: Tree, levels: nat, page: nat, n: Node) returns (m: Node)
    requires TreeOk(t, levels) && n in t && Covers(n, levels, page)
    ensures m in t && t[m] != Cut && Covers(m, levels, page)
    decreases levels - n.level
  {
    hide TreeOk, NodeOk, BlockOf;
    NodeFacts(t, levels, n);
    if t[n] != Cut {
      m := n;
    } else {
      var half := BlockOf(levels, n.level + 1, page);
      CoverUp(levels, n.level + 1, page);
      LevelOf(levels, n.level + 1, page);
      assert half == Left(n) || half == Right(n);
      m := LeafBelow(t, levels, page, half);
    }
  }

  lemma LevelOf(levels: nat, l: nat, page: nat)
    requires l <= levels
    ensures BlockOf(levels, l, page).level == l
  {}

  /** The uncut blocks partition the storage: every page of it is in one of them, and in no other. */
  lemma Partition(t: Tree, levels: nat, page: nat) returns (n: Node)
    requires TreeOk(t, levels) && page < Pow2(levels)
    ensures n in t && t[n] != Cut && Covers(n, levels, page)
    ensures forall m | m in t && t[m] != Cut && Covers(m, levels, page) :: m == n
  {
    hide Covers, NodeOk;
    RootCovers(levels, page);
    n := LeafBelow(t, levels, page, ROOT);
    forall m | m in t && t[m] != Cut && Covers(m, levels, page) ensures m == n {
      LeafUnique(t, levels, page, m, n);
    }
  }

  lemma RootCovers(levels: nat, page: nat)
    requires page < Pow2(levels)
    ensures Covers(ROOT, levels, page)
  {
    DivUnique(page, Pow2(levels), 0, page);
  }

  /** The bits of both fields say what became of each block that can be cut. */
  ghost predicate BitsOk(split: seq<bool>, merge: seq<bool>, t: Tree, levels: nat) {
    && |split| == |merge| == Pow2(levels)
    && forall n: Node | n.level < levels && InLevel(n) :: BitOk(split, merge, t, levels, n)
  }

  /**
   The split bit of a block is set when it is cut; the merge bit when, besides, its second half is not handed out
   whole.
   */
  ghost predicate BitOk(split: seq<bool>, merge: seq<bool>, t: Tree, levels: nat, n: Node)
    requires |split| == |merge| == Pow2(levels) && n.level < levels && InLevel(n)
  {
    HeapInRange(n, levels);
    && split[Heap(n)] == (n in t && t[n] == Cut)
    && merge[Heap(n)] == (n in t && t[n] == Cut && Right(n) in t && t[Right(n)] != Used)
  }

  /**
   The merge bit of a cut block is meant to say that exactly one of its halves is free. It does if
   and only if the second half is free or handed out, that is, not itself cut.
   */
  lemma MergeBitMeans(split: seq<bool>, merge: seq<bool>, t: Tree, levels: nat, n: Node)
    requires TreeOk(t, levels) && BitsOk(split, merge, t, levels) && n in t && t[n] == Cut
    requires forall m | m in t :: t[m] != Held // between two allocations
    ensures n.level < levels && InLevel(n) && Heap(n) < Pow2(levels) && Left(n) in t && Right(n) in t
    ensures (merge[Heap(n)] <==> (t[Left(n)] == Free) != (t[Right(n)] == Free)) <==> t[Right(n)] != Cut
  {
    hide BitOk, NodeOk, Heap;
    NodeFacts(t, levels, n);
    NodeFacts(t, levels, Left(n));
    HeapInRange(n, levels);
    BitAt(split, merge, t, levels, n);
    MergeBit(split, merge, t, levels, n);
  }

  lemma MergeBit(split: seq<bool>, merge: seq<bool>, t: Tree, levels: nat, n: Node)
    requires |split| == |merge| == Pow2(levels) && n.level < levels && InLevel(n) && n in t && t[n] == Cut
    requires BitOk(split, merge, t, levels, n) && Right(n) in t
    ensures Heap(n) < Pow2(levels) && (merge[Heap(n)] <==> t[Right(n)] != Used)
  {
    HeapInRange(n, levels);
  }

  function Flip(b: seq<bool>, i: nat): seq<bool>
    requires i < |b|
  {
    b[i := !b[i]]
  }

  lemma BitAt(split: seq<bool>, merge: seq<bool>, t: Tree, levels: nat, n: Node)
    requires BitsOk(split, merge, t, levels) && n.level < levels && InLevel(n)
    ensures BitOk(split, merge, t, levels, n)
  {}

  /** Cutting a block toggles both its bits. */
  lemma BitsCut(split: seq<bool>, merge: seq<bool>, t: Tree, levels: nat, n: Node)
    requires TreeOk(t, levels) && BitsOk(split, merge, t, levels) && n in t && t[n] == Held && n.level < levels
    ensures InLevel(n) && Heap(n) < Pow2(levels)
    ensures BitsOk(Flip(split, Heap(n)), Flip(merge, Heap(n)), CutOf(t, n), levels)
  {
    hide NodeOk, BitOk, InLevel, Heap;
    NodeFacts(t, levels, n);
    NotYetHalves(t, levels, n);
    HeapInRange(n, levels);
    forall m: Node | m.level < levels && InLevel(m)
      ensures BitOk(Flip(split, Heap(n)), Flip(merge, Heap(n)), CutOf(t, n), levels, m)
    {
      BitAt(split, merge, t, levels, m);
      if Heap(m) == Heap(n) { HeapInjective(m, n); }
      BitCut(split, merge, t, levels, n, m);
    }
  }

  lemma BitCut(split: seq<bool>, merge: seq<bool>, t: Tree, levels: nat, n: Node, m: Node)
    requires |split| == |merge| == Pow2(levels) && n in t && t[n] == Held && n.level < levels && InLevel(n)
    requires Left(n) !in t && Right(n) !in t && Heap(n) < Pow2(levels)
    requires m.level < levels && InLevel(m) && BitOk(split, merge, t, levels, m) && (Heap(m) == Heap(n) ==> m == n)
    ensures BitOk(Flip(split, Heap(n)), Flip(merge, Heap(n)), CutOf(t, n), levels, m)
  {
    hide Pow2, InLevel;
    HeapInRange(m, levels);
  }

  /** Holding a free block, or using a held first half, changes no bit. */
  lemma BitsMarked(split: seq<bool>, merge: seq<bool>, t: Tree, levels: nat, n: Node, k: Kind)
    requires BitsOk(split, merge, t, levels) && n in t && t[n] != Cut && t[n] != Used
    requires k == Held || (k == Used && n.index % 2 == 0)
    ensures BitsOk(split, merge, t[n := k], levels)
  {
    hide BitOk, InLevel, Heap;
    forall m: Node | m.level < levels && InLevel(m) ensures BitOk(split, merge, t[n := k], levels, m) {
      BitAt(split, merge, t, levels, m);
      BitMarked(split, merge, t, levels, n, k, m);
    }
  }

  lemma BitMarked(split: seq<bool>, merge: seq<bool>, t: Tree, levels: nat, n: Node, k: Kind, m: Node)
    requires |split| == |merge| == Pow2(levels) && n in t && t[n] != Cut && t[n] != Used
    requires k == Held || (k == Used && n.index % 2 == 0)
    requires m.level < levels && InLevel(m) && BitOk(split, merge, t, levels, m)
    ensures BitOk(split, merge, t[n := k], levels, m)
  {
    hide Pow2, InLevel;
    HeapInRange(m, levels);
  }

  /** Handing out a second half whole toggles the merge bit of the block it is half of. */
  lemma BitsUsed(split: seq<bool>, merge: seq<bool>, t: Tree, levels: nat, n: Node)
    requires TreeOk(t, levels) && BitsOk(split, merge, t, levels) && n in t && t[n] == Held && n.level > 0
             && n.index % 2 == 1
    ensures Heap(Parent(n)) < Pow2(levels)
    ensures BitsOk(split, Flip(merge, Heap(Parent(n))), t[n := Used], levels)
  {
    hide NodeOk, BitOk, InLevel, Heap;
    NodeFacts(t, levels, n);
    NodeFacts(t, levels, Parent(n));
    HeapInRange(Parent(n), levels);
    forall m: Node | m.level < levels && InLevel(m)
      ensures BitOk(split, Flip(merge, Heap(Parent(n))), t[n := Used], levels, m)
    {
      BitAt(split, merge, t, levels, m);
      if Heap(m) == Heap(Parent(n)) { HeapInjective(m, Parent(n)); }
      BitUsed(split, merge, t, levels, n, m);
    }
  }

  lemma BitUsed(split: seq<bool>, merge: seq<bool>, t: Tree, levels: nat, n: Node, m: Node)
    requires |split| == |merge| == Pow2(levels) && n in t && t[n] == Held && n.level > 0 && n.index % 2 == 1
    requires Parent(n) in t && t[Parent(n)] == Cut && Heap(Parent(n)) < Pow2(levels)
    requires m.level < levels && InLevel(m) && BitOk(split, merge, t, levels, m)
    requires Heap(m) == Heap(Parent(n)) ==> m == Parent(n)
    ensures BitOk(split, Flip(merge, Heap(Parent(n))), t[n := Used], levels, m)
  {
    hide Pow2, InLevel, Heap;
    HeapInRange(m, levels);
    assert Right(m) == n <==> m == Parent(n);
  }
}
