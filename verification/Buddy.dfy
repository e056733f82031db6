/**
 The buddy allocator of device memory, driver/internal/devicebuddymemstate.go:15-163, for
 allocation only, with pages of 4096 bytes and a storage of 2^levels pages.
 */
module Buddy {

  import opened Arithmetic
  import opened BitFields
  import opened BuddyTree
  import opened Collections

  const PAGE: nat := 4096

  /** A free list of a level, as indices in the level, holds the free blocks of the tree, each once. */
  ghost predicate ListOk(free: seq<nat>, t: Tree, l: nat) {
    && Distinct(free)
    && forall k: nat :: k in free <==> Node(l, k) in t && t[Node(l, k)] == Free
  }

  ghost predicate ListsOk(free: seq<seq<nat>>, t: Tree, levels: nat) {
    |free| == levels + 1 && forall l: nat | l <= levels :: ListOk(free[l], t, l)
  }

  /** The first page of a block. */
  function FirstPage(levels: nat, n: Node): nat
    requires n.level <= levels
  {
    n.index * Pow2(levels - n.level)
  }

  /** The j-th page of a block. */
  function Page(levels: nat, n: Node, j: nat): nat
    requires n.level <= levels
  {
    FirstPage(levels, n) + j
  }

  function Addr(initialAddress: nat, levels: nat, n: Node): nat
    requires n.level <= levels
  {
    initialAddress + FirstPage(levels, n) * PAGE
  }

  /** The addresses in a free list. */
  ghost predicate AddrsOk(freeList: seq<seq<nat>>, free: seq<seq<nat>>, initialAddress: nat, levels: nat) {
    && |freeList| == |free| == levels + 1
    && forall l: nat | l <= levels :: AddrsOf(freeList[l], free[l], initialAddress, levels, l)
  }

  ghost predicate AddrsOf(addrs: seq<nat>, indices: seq<nat>, initialAddress: nat, levels: nat, l: nat)
    requires l <= levels
  {
    |addrs| == |indices| && forall j: nat | j < |addrs| :: addrs[j] == Addr(initialAddress, levels, Node(l, indices[j]))
  }

  /** Handed-out pages lie in blocks that are handed out. */
  ghost predicate HoldersOk(holder: map<nat, Node>, t: Tree, levels: nat) {
    forall p | p in holder :: holder[p] in t && t[holder[p]] == Used && Covers(holder[p], levels, p)
  }

  /** The number of halvings that leave a block just large enough. */
  predicate Fits(numPages: nat, s: nat) {
    Pow2(s) >= numPages && (s > 0 ==> Pow2(s - 1) < numPages)
  }

  lemma FitsUnique(numPages: nat, s: nat, r: nat)
    requires Fits(numPages, s) && Fits(numPages, r)
    ensures s == r
  {
    if s < r { Pow2Grows(s, r - 1); }
    if r < s { Pow2Grows(r, s - 1); }
  }

  lemma FirstPages(levels: nat, n: Node)
    requires n.level < levels
    ensures FirstPage(levels, Left(n)) == FirstPage(levels, n)
    ensures FirstPage(levels, Right(n)) == FirstPage(levels, n) + Pow2(levels - (n.level + 1))
  {
    assert Pow2(levels - n.level) == 2 * Pow2(levels - (n.level + 1));
  }

  lemma AddrOfRight(levels: nat, initialAddress: nat, n: Node)
    requires n.level < levels
    ensures Addr(initialAddress, levels, Right(n))
            == Addr(initialAddress, levels, n) + Pow2(levels - (n.level + 1)) * PAGE
  {
    FirstPages(levels, n);
  }

  lemma {:induction false} Pow2Product(a: nat, b: nat)
    ensures Pow2(a) * Pow2(b) == Pow2(a + b)
    decreases a
  {
    if a > 0 {
      Pow2Product(a - 1, b);
      assert 2 * Pow2(a - 1) * Pow2(b) == 2 * (Pow2(a - 1) * Pow2(b));
    }
  }

  /** sizeOfLevel divides without remainder. */
  lemma LevelSize(levels: nat, l: nat)
    requires l <= levels
    ensures Pow2(levels) * PAGE / Pow2(l) == Pow2(levels - l) * PAGE
  {
    Pow2Product(levels - l, l);
    assert Pow2(levels) * PAGE == (Pow2(levels - l) * PAGE) * Pow2(l);
    DivUnique(Pow2(levels) * PAGE, Pow2(l), Pow2(levels - l) * PAGE, 0);
  }

  /** The index of a block in its own level, and in the level above. */
  lemma IndexOf(levels: nat, n: Node)
    requires n.level <= levels
    ensures FirstPage(levels, n) * PAGE / (Pow2(levels - n.level) * PAGE) == n.index
    ensures n.level > 0 ==> FirstPage(levels, n) * PAGE / (Pow2(levels - (n.level - 1)) * PAGE) == n.index / 2
  {
    var s := Pow2(levels - n.level);
    assert FirstPage(levels, n) * PAGE == n.index * (s * PAGE);
    Times(1, s, PAGE);
    DivUnique(FirstPage(levels, n) * PAGE, s * PAGE, n.index, 0);
    if n.level > 0 {
      assert Pow2(levels - (n.level - 1)) == 2 * s;
      Halves(n.index, s * PAGE);
      DivUnique(FirstPage(levels, n) * PAGE, 2 * s * PAGE, n.index / 2, (n.index % 2) * (s * PAGE));
    }
  }

  lemma Halves(k: nat, s: nat)
    requires s > 0
    ensures k * s == (k / 2) * (2 * s) + (k % 2) * s && 0 <= (k % 2) * s < 2 * s
  {
    assert k == (k / 2) * 2 + k % 2;
    if k % 2 == 1 { assert (k % 2) * s == s; } else { assert (k % 2) * s == 0; }
  }

  lemma PopList(free: seq<seq<nat>>, t: Tree, levels: nat, l: nat)
    requires ListsOk(free, t, levels) && l <= levels && free[l] != []
    ensures Node(l, free[l][0]) in t && t[Node(l, free[l][0])] == Free
    ensures ListsOk(free[l := free[l][1..]], t[Node(l, free[l][0]) := Held], levels)
  {
    var n := Node(l, free[l][0]);
    var after, u := free[l := free[l][1..]], t[n := Held];
    assert free[l][0] in free[l];
    forall m: nat | m <= levels ensures ListOk(after[m], u, m) {
      assert ListOk(free[m], t, m);
      if m == l { PoppedOk(free[l], t, l); }
    }
  }

  lemma PoppedOk(list: seq<nat>, t: Tree, l: nat)
    requires ListOk(list, t, l) && list != []
    ensures ListOk(list[1..], t[Node(l, list[0]) := Held], l)
  {
    assert list == [list[0]] + list[1..];
    forall k: nat ensures k in list[1..] <==> k in list && k != list[0] {
      if k in list[1..] {
        var j :| 0 <= j < |list| - 1 && list[1..][j] == k;
        assert list[j + 1] == k;
      }
    }
  }

  lemma PushList(free: seq<seq<nat>>, t: Tree, levels: nat, n: Node)
    requires ListsOk(free, t, levels) && n in t && t[n] == Held && n.level < levels && Left(n) !in t && Right(n) !in t
    ensures ListsOk(free[n.level + 1 := free[n.level + 1] + [Right(n).index]], CutOf(t, n), levels)
  {
    var l := n.level + 1;
    var after, u := free[l := free[l] + [Right(n).index]], CutOf(t, n);
    forall m: nat | m <= levels ensures ListOk(after[m], u, m) {
      assert ListOk(free[m], t, m);
      if m == l { PushedOk(free[l], t, n); }
    }
  }

  lemma PushedOk(list: seq<nat>, t: Tree, n: Node)
    requires ListOk(list, t, n.level + 1) && n in t && t[n] == Held && Left(n) !in t && Right(n) !in t
    ensures ListOk(list + [Right(n).index], CutOf(t, n), n.level + 1)
  {
    assert Right(n).index !in list;
    forall k: nat ensures k in list + [Right(n).index] <==> k in list || k == Right(n).index {}
  }

  lemma MarkLists(free: seq<seq<nat>>, t: Tree, levels: nat, n: Node)
    requires ListsOk(free, t, levels) && n in t && t[n] == Held
    ensures ListsOk(free, t[n := Used], levels)
  {
    var u := t[n := Used];
    forall m: nat | m <= levels ensures ListOk(free[m], u, m) {
      assert ListOk(free[m], t, m);
    }
  }

  lemma PopAddrs(freeList: seq<seq<nat>>, free: seq<seq<nat>>, initialAddress: nat, levels: nat, l: nat)
    requires AddrsOk(freeList, free, initialAddress, levels) && l <= levels && freeList[l] != []
    ensures free[l] != [] && freeList[l][0] == Addr(initialAddress, levels, Node(l, free[l][0]))
    ensures AddrsOk(freeList[l := freeList[l][1..]], free[l := free[l][1..]], initialAddress, levels)
  {
    hide Addr;
    assert AddrsOf(freeList[l], free[l], initialAddress, levels, l);
  }

  lemma PushAddrs(freeList: seq<seq<nat>>, free: seq<seq<nat>>, initialAddress: nat, levels: nat, n: Node)
    requires AddrsOk(freeList, free, initialAddress, levels) && n.level <= levels
    ensures AddrsOk(freeList[n.level := freeList[n.level] + [Addr(initialAddress, levels, n)]],
            free[n.level := free[n.level] + [n.index]], initialAddress, levels)
  {
    hide Addr;
    assert AddrsOf(freeList[n.level], free[n.level], initialAddress, levels, n.level);
  }

  lemma CutHolders(holder: map<nat, Node>, t: Tree, levels: nat, n: Node)
    requires HoldersOk(holder, t, levels) && n in t && t[n] == Held && Left(n) !in t && Right(n) !in t
    ensures HoldersOk(holder, CutOf(t, n), levels)
  {
    hide Covers;
  }

  lemma MarkHolders(holder: map<nat, Node>, t: Tree, levels: nat, n: Node, k: Kind)
    requires HoldersOk(holder, t, levels) && n in t && t[n] != Used && t[n] != Cut
    ensures HoldersOk(holder, t[n := k], levels)
  {
    hide Covers;
  }

  /** The pages of a block handed out now were in no block handed out before. */
  lemma NewHolder(holder: map<nat, Node>, t: Tree, levels: nat, n: Node, page: nat)
    requires TreeOk(t, levels) && HoldersOk(holder, t, levels) && n in t && t[n] == Used && Covers(n, levels, page)
    requires Holdless(holder, n)
    ensures page !in holder
  {
    hide TreeOk, Covers;
    if page in holder {
      LeafUnique(t, levels, page, n, holder[page]);
    }
  }

  lemma OldHolders(holder: map<nat, Node>, t: Tree, levels: nat, n: Node)
    requires HoldersOk(holder, t, levels) && !(n in t && t[n] == Used)
    ensures Holdless(holder, n)
  {
    hide Covers;
  }

  lemma MoreHolders(holder: map<nat, Node>, t: Tree, levels: nat, n: Node, page: nat)
    requires HoldersOk(holder, t, levels) && n in t && t[n] == Used && Covers(n, levels, page)
    ensures HoldersOk(holder[page := n], t, levels)
  {
    hide Covers;
  }

  lemma ListCount(free: seq<seq<nat>>, t: Tree, levels: nat)
    requires ListsOk(free, t, levels)
    ensures |free| == levels + 1
  {}

  lemma AddrCount(freeList: seq<seq<nat>>, free: seq<seq<nat>>, initialAddress: nat, levels: nat)
    requires AddrsOk(freeList, free, initialAddress, levels)
    ensures |freeList| == levels + 1
  {}

  lemma FirstOf(levels: nat, n: Node)
    requires n.level <= levels
    ensures Page(levels, n, 0) == FirstPage(levels, n)
    ensures forall initialAddress: nat :: Addr(initialAddress, levels, n) == initialAddress + Page(levels, n, 0) * PAGE
  {}

  /** One block was taken out of a free one, and nothing else: all other blocks are as they were, or free. */
  ghost predicate Took(before: Tree, after: Tree, block: Node) {
    && block in after && after[block] == Used && (block in before ==> before[block] == Free)
    && (forall n | n in before && before[n] != Free :: n in after && after[n] == before[n])
    && (forall n | n in after && after[n] == Used :: n == block || (n in before && before[n] == Used))
    && (forall n | n in after :: after[n] != Held)
  }

  /** The block `n` in hand was cut down to its part `block`; the other parts are free. */
  ghost predicate CutTo(before: Tree, after: Tree, n: Node, block: Node) {
    && n in before && before[n] == Held && block in after && after[block] == Held && (block != n ==> block !in before)
    && (forall m | m in before && m != n :: m in after && after[m] == before[m])
    && (forall m | m in after && m != block && (m !in before || m == n) :: after[m] == Cut || after[m] == Free)
  }

  lemma NotCutYet(t: Tree, n: Node)
    requires n in t && t[n] == Held
    ensures CutTo(t, t, n, n)
  {}

  lemma CutOnce(before: Tree, t: Tree, n: Node, block: Node)
    requires CutTo(before, t, n, block) && Left(block) !in t && Right(block) !in t && t.Keys >= before.Keys
    ensures CutTo(before, CutOf(t, block), n, Left(block))
  {}

  lemma TookWhole(before: Tree, n: Node)
    requires n in before && before[n] == Free && forall m | m in before :: before[m] != Held
    ensures Took(before, before[n := Used], n)
  {}

  lemma TookPart(before: Tree, after: Tree, n: Node, block: Node)
    requires n in before && before[n] == Free && forall m | m in before :: before[m] != Held
    requires CutTo(before[n := Held], after, n, block)
    ensures Took(before, after[block := Used], block)
  {}

  lemma AllTookPages(before: Tree, after: Tree, levels: nat, block: Node)
    requires TreeOk(before, levels) && TreeOk(after, levels)
    requires (forall n | n in before :: before[n] != Held) && Took(before, after, block)
    ensures forall page: nat | page < Pow2(levels) ::
              FreePage(after, levels, page) <==> FreePage(before, levels, page) && !Covers(block, levels, page)
  {
    hide TreeOk, Covers, FreePage, Took;
    forall page: nat | page < Pow2(levels)
      ensures FreePage(after, levels, page) <==> FreePage(before, levels, page) && !Covers(block, levels, page)
    {
      TookPages(before, after, levels, block, page);
    }
  }

  lemma TookFacts(before: Tree, after: Tree, block: Node)
    requires Took(before, after, block)
    ensures block in after && after[block] == Used && (block in before ==> before[block] == Free)
    ensures forall n | n in before && before[n] != Free :: n in after && after[n] == before[n]
    ensures forall n | n in after && after[n] == Used :: n == block || (n in before && before[n] == Used)
    ensures forall n | n in after :: after[n] != Held
  {}

  lemma InHand(before: Tree, after: Tree, n: Node, block: Node)
    requires CutTo(before, after, n, block)
    ensures block in after && after[block] == Held
  {}

  /** A page in a block that is free. */
  ghost predicate FreePage(t: Tree, levels: nat, page: nat) {
    exists n :: n in t && t[n] == Free && Covers(n, levels, page)
  }

  /** Taking a block takes its pages out of the free ones, and no others. */
  lemma TookPages(before: Tree, after: Tree, levels: nat, block: Node, page: nat)
    requires TreeOk(before, levels) && TreeOk(after, levels) && page < Pow2(levels)
    requires (forall n | n in before :: before[n] != Held) && Took(before, after, block)
    ensures FreePage(after, levels, page) <==> FreePage(before, levels, page) && !Covers(block, levels, page)
  {
    hide TreeOk, Covers;
    var n := Partition(before, levels, page);
    var m := Partition(after, levels, page);
    if before[n] == Used { assert after[n] == Used; }
  }

  /** The blocks that are handed out without a page. */
  ghost predicate WastedOk(wasted: set<Node>, holder: map<nat, Node>, t: Tree) {
    forall n :: n in wasted <==> n in t && t[n] == Used && Holdless(holder, n)
  }

  ghost predicate Holdless(holder: map<nat, Node>, n: Node) {
    forall p | p in holder :: holder[p] != n
  }

  lemma NoneWasted(t: Tree)
    requires forall n | n in t :: t[n] != Used
    ensures WastedOk({}, map[], t)
  {}

  /** Block `n` is handed out with the pages from `first` on, which nobody had. */
  ghost predicate Handed(before: map<nat, Node>, after: map<nat, Node>, n: Node, first: nat, numPages: nat) {
    && (forall p :: p in after <==> p in before || first <= p < first + numPages)
    && (forall p | p in before :: after[p] == before[p])
    && (forall p | first <= p < first + numPages :: p !in before && after[p] == n)
  }

  lemma NothingHanded(before: map<nat, Node>, n: Node, first: nat)
    ensures Handed(before, before, n, first, 0)
  {}

  lemma OneMoreHanded(before: map<nat, Node>, t: map<nat, Node>, n: Node, first: nat, numPages: nat)
    requires Handed(before, t, n, first, numPages) && first + numPages !in before
    ensures Handed(before, t[first + numPages := n], n, first, numPages + 1)
    ensures |t[first + numPages := n]| == |t| + 1
  {}

  lemma OneHanded(before: map<nat, Node>, after: map<nat, Node>, n: Node, first: nat)
    requires Handed(before, after, n, first, 1)
    ensures first !in before && after == before[first := n]
  {}

  /** A block that is handed out with its first pages is wasted if there are none. */
  lemma WastedNext(wasted: set<Node>, before: Tree, after: Tree, block: Node, holder: map<nat, Node>,
                   more: map<nat, Node>, first: nat, numPages: nat)
    requires WastedOk(wasted, holder, before) && Took(before, after, block)
    requires Handed(holder, more, block, first, numPages) && Holdless(holder, block)
    ensures block !in wasted && WastedOk(if numPages == 0 then wasted + {block} else wasted, more, after)
  {
    hide Holdless, Handed;
    forall n ensures Holdless(more, n) <==> Holdless(holder, n) && (numPages == 0 || n != block) {
      SamePages(holder, more, block, first, numPages, n);
    }
  }

  lemma SamePages(holder: map<nat, Node>, more: map<nat, Node>, block: Node, first: nat, numPages: nat, n: Node)
    requires Handed(holder, more, block, first, numPages)
    ensures Holdless(more, n) <==> Holdless(holder, n) && (numPages == 0 || n != block)
  {
    if numPages > 0 { assert first in more && more[first] == block; }
    if Holdless(more, n) {
      forall p | p in holder ensures holder[p] != n { assert p in more; }
    }
  }

  lemma PageCovered(levels: nat, n: Node, j: nat)
    requires n.level <= levels && j < Pow2(levels - n.level)
    ensures Covers(n, levels, Page(levels, n, j))
    ensures InLevel(n) ==> Page(levels, n, j) < Pow2(levels)
  {
    hide Pow2;
    var s := Pow2(levels - n.level);
    DivUnique(FirstPage(levels, n) + j, s, n.index, j);
    if InLevel(n) {
      Times(n.index + 1, Pow2(n.level), s);
      Pow2Product(n.level, levels - n.level);
    }
  }

  lemma NoHolders(t: Tree, levels: nat)
    ensures HoldersOk(map[], t, levels)
  {}

  lemma WholeTree(levels: nat)
    ensures TreeOk(map[ROOT := Free], levels)
  {}

  lemma WholeLists(free: seq<seq<nat>>, levels: nat)
    requires |free| == levels + 1 && free[0] == [0] && forall l | 1 <= l <= levels :: free[l] == []
    ensures ListsOk(free, map[ROOT := Free], levels)
  {}

  lemma WholeAddrs(freeList: seq<seq<nat>>, free: seq<seq<nat>>, initialAddress: nat, levels: nat)
    requires |free| == |freeList| == levels + 1 && free[0] == [0] && forall l | 1 <= l <= levels :: free[l] == []
    requires freeList[0] == [initialAddress] && forall l | 1 <= l <= levels :: freeList[l] == []
    ensures AddrsOk(freeList, free, initialAddress, levels)
  {
    assert FirstPage(levels, ROOT) == 0;
  }

  lemma WholeBits(split: seq<bool>, merge: seq<bool>, levels: nat)
    requires |split| == |merge| == Pow2(levels) && forall k | 0 <= k < Pow2(levels) :: !split[k] && !merge[k]
    ensures BitsOk(split, merge, map[ROOT := Free], levels)
  {
    hide Pow2, Heap, InLevel;
    forall n: Node | n.level < levels && InLevel(n) ensures BitOk(split, merge, map[ROOT := Free], levels, n) {
      HeapInRange(n, levels);
    }
  }

  /** The lowest level, from one on upwards, with a free block. */
  function FitLevel(freeList: seq<seq<nat>>, level: nat): (r: nat)
    ensures r <= level
  {
    if level == 0 || (level < |freeList| && freeList[level] != []) then level else FitLevel(freeList, level - 1)
  }

  /** The first free block of the smallest size that has one, from a level on upwards. */
  function BestFit(freeList: seq<seq<nat>>, level: nat): nat {
    var l := FitLevel(freeList, level);
    if l < |freeList| && freeList[l] != [] then freeList[l][0] else 0
  }

  lemma {:induction false} FitLevelAt(freeList: seq<seq<nat>>, start: nat, level: nat)
    requires start <= level < |freeList| && freeList[start] != [] && forall l: nat | start < l <= level ::
             freeList[l] == []
    ensures FitLevel(freeList, level) == start && BestFit(freeList, level) == freeList[start][0]
    decreases level
  {
    if start < level { FitLevelAt(freeList, start, level - 1); }
  }

  /**
   The free lists after an allocation: the level that had a block loses its first one, and every
   level that the block was cut down through gains the second half, at the end.
   */
  ghost predicate ListsAfter(before: seq<seq<nat>>, after: seq<seq<nat>>, levels: nat, start: nat, level: nat,
                             addr: nat)
    requires level <= levels
  {
    && |before| == |after| == levels + 1
    && forall l: nat | l <= levels ::
         after[l] == if l == start then Rest(before[l])
                     else if start < l <= level then before[l] + [addr + Pow2(levels - l) * PAGE]
                     else before[l]
  }

  function Rest(s: seq<nat>): seq<nat> {
    if s == [] then [] else s[1..]
  }

  lemma ListsTaken(before: seq<seq<nat>>, levels: nat, start: nat, addr: nat)
    requires |before| == levels + 1 && start <= levels && before[start] != []
    ensures ListsAfter(before, before[start := before[start][1..]], levels, start, start, addr)
  {}

  lemma ListsCut(before: seq<seq<nat>>, t: seq<seq<nat>>, levels: nat, start: nat, level: nat, addr: nat)
    requires start <= level < levels && ListsAfter(before, t, levels, start, level, addr)
    ensures ListsAfter(before, t[level + 1 := t[level + 1] + [addr + Pow2(levels - (level + 1)) * PAGE]], levels, start,
              level + 1, addr)
  {
    hide Pow2;
  }

  datatype BlockTracker = BlockTracker(numOfPages: nat, initialAddr: nat)

  class DeviceBuddyMemoryState {
    const initialAddress: nat
    const storageSize: nat
    const levels: nat // of the free lists, below the first one
    const bfBlockSplit: BitField
    const bfMergeList: BitField
    var freeList: seq<seq<nat>>
    var blockTracking: map<nat, BlockTracker>
    ghost var tree: Tree
    ghost var free: seq<seq<nat>>
    ghost var holder: map<nat, Node> // the pages handed out so far, by number
    ghost var wasted: set<Node> // the blocks handed out without a page
    ghost var empty: nat // allocations of no page

    ghost predicate Shape() {
      && storageSize == Pow2(levels) * PAGE
      && bfBlockSplit.Valid() && bfMergeList.Valid() && bfBlockSplit.field != bfMergeList.field
      && bfBlockSplit.size == bfMergeList.size == Pow2(levels)
    }

    /** All of the invariant, but that a block may be in hand. */
    ghost predicate Consistent()
      reads `freeList, `tree, `free, `holder, bfBlockSplit.field, bfMergeList.field
    {
      && Shape() && TreeOk(tree, levels) && ListsOk(free, tree, levels)
      && AddrsOk(freeList, free, initialAddress, levels)
      && BitsOk(bfBlockSplit.Bits(), bfMergeList.Bits(), tree, levels)
      && HoldersOk(holder, tree, levels)
    }

    ghost predicate Valid()
      reads `freeList, `tree, `free, `holder, `wasted, `empty, bfBlockSplit.field, bfMergeList.field
    {
      && Consistent() && (forall n | n in tree :: tree[n] != Held)
      && WastedOk(wasted, holder, tree) && |wasted| == empty
    }

    /** setStorageSize and setInitialAddress: the whole storage is one free block. */
    constructor (initialAddress: nat, levels: nat)
      ensures Valid() && this.initialAddress == initialAddress && this.levels == levels && holder == map[]
      ensures tree == map[ROOT := Free] && empty == 0 && |freeList| == levels + 1 && freeList[0] == [initialAddress]
      ensures fresh(bfBlockSplit.field) && fresh(bfMergeList.field)
    {
      this.initialAddress, this.levels, this.storageSize := initialAddress, levels, Pow2(levels) * PAGE;
      bfBlockSplit := new BitField(Pow2(levels));
      bfMergeList := new BitField(Pow2(levels));
      freeList := seq(levels + 1, l => if l == 0 then [initialAddress] else []);
      free := seq(levels + 1, l => if l == 0 then [0] else []);
      tree, blockTracking, holder, wasted, empty := map[ROOT := Free], map[], map[], {}, 0;
      new;
      Fresh();
    }

    lemma Fresh()
      requires Shape() && tree == map[ROOT := Free] && holder == map[] && wasted == {} && empty == 0
      requires freeList == seq(levels + 1, l => if l == 0 then [initialAddress] else [])
      requires free == seq(levels + 1, l => if l == 0 then [0] else [])
      requires forall k | 0 <= k < Pow2(levels) :: !bfBlockSplit.Bits()[k] && !bfMergeList.Bits()[k]
      ensures Valid()
    {
      hide TreeOk, ListsOk, AddrsOk, BitsOk, HoldersOk, Pow2;
      assert HoldersOk(holder, tree, levels) by { NoHolders(tree, levels); }
      NoneWasted(tree);
      WholeTree(levels);
      WholeLists(free, levels);
      WholeAddrs(freeList, free, initialAddress, levels);
      WholeBits(bfBlockSplit.Bits(), bfMergeList.Bits(), levels);
    }

    /** sizeOfLevel */
    function SizeOfLevel(level: nat): (r: nat)
      requires Shape() && level <= levels
      ensures r == Pow2(levels - level) * PAGE && r > 0
    {
      LevelSize(levels, level);
      Times(1, Pow2(levels - level), PAGE);
      storageSize / Pow2(level)
    }

    /** indexInLevelOf */
    function IndexInLevelOf(ptr: nat, level: nat): nat
      requires Shape() && level <= levels && ptr >= initialAddress
    {
      NotNegative(ptr - initialAddress, SizeOfLevel(level));
      (ptr - initialAddress) / SizeOfLevel(level)
    }

    /** indexOfBlock */
    function IndexOfBlock(ptr: nat, level: nat): nat
      requires Shape() && level <= levels && ptr >= initialAddress
    {
      Pow2(level) + IndexInLevelOf(ptr, level) - 1
    }

    /** buddyOf */
    function BuddyOf(addr: nat, level: nat): int
      requires Shape() && level <= levels && addr >= initialAddress
    {
      if IndexInLevelOf(addr, level) % 2 == 0 then addr + SizeOfLevel(level) else addr - SizeOfLevel(level)
    }

    lemma IndexOfAddr(n: Node)
      requires Shape() && n.level <= levels
      ensures IndexOfBlock(Addr(initialAddress, levels, n), n.level) == Heap(n)
      ensures n.level > 0 ==> IndexOfBlock(Addr(initialAddress, levels, n), n.level - 1) == Heap(Parent(n))
    {
      IndexOf(levels, n);
    }

    lemma BuddyOfHalf(n: Node)
      requires Shape() && n.level < levels
      ensures Addr(initialAddress, levels, Left(n)) == Addr(initialAddress, levels, n)
      ensures BuddyOf(Addr(initialAddress, levels, n), n.level + 1) == Addr(initialAddress, levels, Right(n))
    {
      FirstPages(levels, n);
      IndexOf(levels, Left(n));
    }

    /** Room for an allocation: a block of its size, or a larger one, is free. */
    ghost predicate CanAllocate(numPages: nat)
      reads `freeList
    {
      exists s: nat, i: nat :: Fits(numPages, s) && i + s <= levels && i < |freeList| && freeList[i] != []
    }

    /** The loop over `order`, less the 12 bits of a page: the level of the smallest blocks that are large enough. */
    method LevelFor(numPages: nat) returns (level: nat, ghost i0: nat)
      requires CanAllocate(numPages)
      ensures level <= levels && Fits(numPages, levels - level)
      ensures i0 <= level && i0 < |freeList| && freeList[i0] != []
    {
      hide Pow2;
      ghost var s: nat;
      s, i0 :| Fits(numPages, s) && i0 + s <= levels && i0 < |freeList| && freeList[i0] != [];
      var order := 0;
      while Pow2(order) < numPages
        invariant order <= s && (order > 0 ==> Pow2(order - 1) < numPages)
        decreases s - order
      {
        if order == s { assert false; }
        order := order + 1;
      }
      FitsUnique(numPages, order, s);
      level := levels - order;
    }

    /** Cutting the block in hand: its second half is freed, its first half is the new block in hand. */
    method SplitBlock(block: nat, i: nat, ghost n: Node)
      requires Consistent() && n in tree && tree[n] == Held && n.level == i < levels
               && block == Addr(initialAddress, levels, n)
      modifies `freeList, `tree, `free, bfBlockSplit.field, bfMergeList.field
      ensures Consistent() && block == Addr(initialAddress, levels, Left(n)) && tree == CutOf(old(tree), n)
      ensures Left(n) !in old(tree) && Right(n) !in old(tree) && |old(freeList)| == levels + 1
      ensures freeList
              == old(freeList)[i + 1 := old(freeList)[i + 1] + [block + Pow2(levels - (i + 1)) * PAGE]]
    {
      hide TreeOk, ListsOk, AddrsOk, BitsOk, HoldersOk, Addr, Heap, Pow2;
      NotYetHalves(tree, levels, n);
      IndexOfAddr(n);
      BuddyOfHalf(n);
      AddrOfRight(levels, initialAddress, n);
      BitsCut(bfBlockSplit.Bits(), bfMergeList.Bits(), tree, levels, n);
      CutKeeps(tree, levels, n);
      CutHolders(holder, tree, levels, n);
      PushList(free, tree, levels, n);
      PushAddrs(freeList, free, initialAddress, levels, Right(n));
      ListCount(free, tree, levels);
      AddrCount(freeList, free, initialAddress, levels);
      bfBlockSplit.UpdateBit(IndexOfBlock(block, i));
      bfMergeList.UpdateBit(IndexOfBlock(block, i));
      var buddy := BuddyOf(block, i + 1);
      freeList := freeList[i + 1 := freeList[i + 1] + [buddy]];
      free := free[i + 1 := free[i + 1] + [Right(n).index]];
      tree := CutOf(tree, n);
    }

    /** The loop that cuts the block in hand down to a level. */
    method CutDown(addr: nat, from: nat, level: nat, ghost n: Node, ghost before: seq<seq<nat>>)
      returns (ghost block: Node)
      requires Consistent() && n in tree && tree[n] == Held && n.level == from < level <= levels
      requires addr == Addr(initialAddress, levels, n)
      requires ListsAfter(before, freeList, levels, from, from, addr)
      modifies `freeList, `tree, `free, bfBlockSplit.field, bfMergeList.field
      ensures ListsAfter(before, freeList, levels, from, level, addr)
      ensures Consistent() && CutTo(old(tree), tree, n, block) && block.level == level && block.index % 2 == 0
      ensures addr == Addr(initialAddress, levels, block)
    {
      hide TreeOk, ListsOk, AddrsOk, BitsOk, HoldersOk, Addr, Heap, Pow2, CutTo, ListsAfter;
      var i := from;
      block := n;
      NotCutYet(tree, n);
      while i < level
        invariant from <= i <= level && Consistent() && block in tree && tree[block] == Held && block.level == i
        invariant addr == Addr(initialAddress, levels, block) && tree.Keys >= old(tree).Keys
        invariant CutTo(old(tree), tree, n, block) && (i > from ==> block.index % 2 == 0)
        invariant ListsAfter(before, freeList, levels, from, i, addr)
      {
        ghost var was := tree;
        ListsCut(before, freeList, levels, from, i, addr);
        SplitBlock(addr, i, block);
        CutOnce(old(tree), was, n, block);
        i := i + 1;
        block := Left(block);
      }
    }

    /** A block of the given level, from the smallest free one that is large enough. */
    method TakeSized(level: nat, ghost i0: nat) returns (addr: nat, ghost block: Node)
      requires Valid() && i0 <= level <= levels && i0 < |freeList| && freeList[i0] != []
      modifies `freeList, `tree, `free, bfBlockSplit.field, bfMergeList.field
      ensures Consistent() && Took(old(tree), tree, block) && block.level == level
      ensures addr == Addr(initialAddress, levels, block) == BestFit(old(freeList), level)
      ensures ListsAfter(old(freeList), freeList, levels, FitLevel(old(freeList), level), level, addr)
    {
      hide TreeOk, ListsOk, AddrsOk, BitsOk, HoldersOk, Addr, Heap, Pow2, CutTo, Took, BestFit, FitLevel, WastedOk,
           ListsAfter;
      ListCount(free, tree, levels);
      AddrCount(freeList, free, initialAddress, levels);
      var i := LevelWithBlock(level, i0);
      addr, block := TakeBlock(i, level);
      ListsTaken(old(freeList), levels, i, addr);
      if i < level {
        ghost var n := block;
        block := CutDown(addr, i, level, n, old(freeList));
        TookPart(old(tree), tree, n, block);
        InHand(old(tree)[n := Held], tree, n, block);
        MarkUsed(block);
      } else {
        TookWhole(old(tree), block);
      }
    }

    /**
     allocateMultiplePages. The block comes from the smallest level that has a free block large
     enough, and is cut down to the size asked for; its first pages are handed out. Of the pages
     that were free, exactly those of the block are not any more.
     */
    method AllocateMultiplePages(numPages: nat) returns (pAddrs: seq<nat>, ghost block: Node)
      requires Valid() && CanAllocate(numPages)
      modifies this, bfBlockSplit.field, bfMergeList.field
      ensures Valid() && block in tree && tree[block] == Used && block.level <= levels
      ensures !(block in old(tree) && old(tree)[block] == Used)
      ensures Addr(initialAddress, levels, block) == BestFit(old(freeList), block.level)
      ensures ListsAfter(old(freeList), freeList, levels, FitLevel(old(freeList), block.level), block.level,
                Addr(initialAddress, levels, block))
      ensures forall n | n in old(tree) && old(tree)[n] != Free :: n in tree && tree[n] == old(tree)[n]
      ensures forall n | n in tree && tree[n] == Used :: n == block || (n in old(tree) && old(tree)[n] == Used)
      ensures forall page: nat | page < Pow2(levels) ::
                FreePage(tree, levels, page) <==> FreePage(old(tree), levels, page) && !Covers(block, levels, page)
      ensures Fits(numPages, levels - block.level)
      ensures |pAddrs| == numPages
      ensures forall j: nat | j < numPages ::
                var page := Page(levels, block, j); pAddrs[j] == initialAddress + page * PAGE && page < Pow2(levels)
      ensures Handed(old(holder), holder, block, FirstPage(levels, block), numPages)
      ensures |holder| == |old(holder)| + numPages
      ensures empty == old(empty) + if numPages == 0 then 1 else 0
    {
      hide TreeOk, ListsOk, AddrsOk, BitsOk, HoldersOk, Addr, Heap, Pow2, FirstPage, Page, Fits, BestFit,
           FitLevel, Took, ListsAfter, WastedOk, FreePage, Covers, Handed, Holdless;
      pAddrs, block := Allocate(numPages);
      TookFacts(old(tree), tree, block);
      WastedNext(wasted, old(tree), tree, block, old(holder), holder, FirstPage(levels, block), numPages);
      if numPages == 0 {
        wasted, empty := wasted + {block}, empty + 1;
      }
      AllTookPages(old(tree), tree, levels, block);
    }

    /** The body of allocateMultiplePages, without the account of its blocks and pages. */
    method Allocate(numPages: nat) returns (pAddrs: seq<nat>, ghost block: Node)
      requires Valid() && CanAllocate(numPages)
      modifies `freeList, `tree, `free, `holder, `blockTracking, bfBlockSplit.field, bfMergeList.field
      ensures Consistent() && Took(old(tree), tree, block) && block.level <= levels
      ensures Addr(initialAddress, levels, block) == BestFit(old(freeList), block.level)
      ensures ListsAfter(old(freeList), freeList, levels, FitLevel(old(freeList), block.level), block.level,
                Addr(initialAddress, levels, block))
      ensures Fits(numPages, levels - block.level) && |pAddrs| == numPages
      ensures forall j: nat | j < numPages ::
                var page := Page(levels, block, j); pAddrs[j] == initialAddress + page * PAGE && page < Pow2(levels)
      ensures Handed(old(holder), holder, block, FirstPage(levels, block), numPages) && Holdless(old(holder), block)
      ensures |holder| == |old(holder)| + numPages
    {
      hide TreeOk, ListsOk, AddrsOk, BitsOk, HoldersOk, Addr, Heap, Pow2, FirstPage, Page, Fits, BestFit,
           FitLevel, Took, ListsAfter, WastedOk, Covers, Handed, Holdless, InLevel, NodeOk, Left, Right, Parent,
           DeviceBuddyMemoryState.Shape;
      var level, i0 := LevelFor(numPages);
      var addr;
      addr, block := TakeSized(level, i0);
      TookFacts(old(tree), tree, block);
      OldHolders(old(holder), old(tree), levels, block);
      NodeFacts(tree, levels, block);
      FitsEnough(numPages, levels - block.level);
      pAddrs := HandOut(addr, numPages, block);
    }

    /** The search loop; its panic for want of memory is the precondition. */
    method LevelWithBlock(level: nat, ghost i0: nat) returns (i: nat)
      requires i0 <= level < |freeList| && freeList[i0] != []
      ensures i == FitLevel(freeList, level) && i <= level
      ensures freeList[i] != [] && BestFit(freeList, level) == freeList[i][0]
    {
      i := level;
      while freeList[i] == []
        invariant i0 <= i <= level && forall l: nat | i < l <= level :: freeList[l] == []
        decreases i
      {
        i := i - 1;
      }
      FitLevelAt(freeList, i, level);
    }

    lemma FitsEnough(numPages: nat, s: nat)
      requires Fits(numPages, s)
      ensures numPages <= Pow2(s)
    {}

    /** Taking the first free block of a level; one that is handed out whole toggles the merge bit above it. */
    method TakeBlock(i: nat, level: nat) returns (block: nat, ghost n: Node)
      requires Valid() && i <= level <= levels && |freeList| == levels + 1 && freeList[i] != []
      modifies `freeList, `tree, `free, bfMergeList.field
      ensures Consistent() && n.level == i && block == Addr(initialAddress, levels, n) == old(freeList)[i][0]
      ensures n in old(tree) && old(tree)[n] == Free && tree == old(tree)[n := if i == level then Used else Held]
      ensures freeList == old(freeList)[i := old(freeList)[i][1..]]
    {
      hide TreeOk, ListsOk, AddrsOk, BitsOk, HoldersOk, Addr, Heap, Pow2, NodeOk;
      ListCount(free, tree, levels);
      PopAddrs(freeList, free, initialAddress, levels, i);
      PopList(free, tree, levels, i);
      n := Node(i, free[i][0]);
      NodeFacts(tree, levels, n);
      MarkKeeps(tree, levels, n, Held);
      MarkHolders(holder, tree, levels, n, Held);
      BitsMarked(bfBlockSplit.Bits(), bfMergeList.Bits(), tree, levels, n, Held);
      block := freeList[i][0];
      freeList := freeList[i := freeList[i][1..]];
      free := free[i := free[i][1..]];
      tree := tree[n := Held];
      if i == level && i > 0 {
        BitsUsed(bfBlockSplit.Bits(), bfMergeList.Bits(), tree, levels, n);
        MarkKeeps(tree, levels, n, Used);
        MarkHolders(holder, tree, levels, n, Used);
        MarkLists(free, tree, levels, n);
        IndexOfAddr(n);
        bfMergeList.UpdateBit(IndexOfBlock(block, i - 1));
        tree := tree[n := Used];
      } else if i == level {
        OnlyRoot(n);
        MarkUsed(n);
      }
    }

    lemma OnlyRoot(n: Node)
      requires n.level == 0 && InLevel(n)
      ensures n.index == 0
    {}

    /** The block in hand is handed out. */
    ghost method MarkUsed(n: Node)
      requires Consistent() && n in tree && tree[n] == Held && n.index % 2 == 0
      modifies `tree
      ensures Consistent() && tree == old(tree)[n := Used]
    {
      hide TreeOk, ListsOk, AddrsOk, BitsOk, HoldersOk;
      BitsMarked(bfBlockSplit.Bits(), bfMergeList.Bits(), tree, levels, n, Used);
      MarkKeeps(tree, levels, n, Used);
      MarkHolders(holder, tree, levels, n, Used);
      MarkLists(free, tree, levels, n);
      tree := tree[n := Used];
    }

    /** The loop that lists the pages of the block and tracks them. */
    method HandOut(first: nat, numPages: nat, ghost n: Node) returns (pAddrs: seq<nat>)
      requires Consistent() && n in tree && tree[n] == Used && n.level <= levels && InLevel(n)
      requires first == Addr(initialAddress, levels, n) && numPages <= Pow2(levels - n.level)
      requires Holdless(holder, n)
      modifies `holder, `blockTracking
      ensures Consistent() && |pAddrs| == numPages && |holder| == |old(holder)| + numPages
      ensures Handed(old(holder), holder, n, FirstPage(levels, n), numPages)
      ensures forall j: nat | j < numPages ::
                var page := Page(levels, n, j);
                && pAddrs[j] == initialAddress + page * PAGE && page < Pow2(levels)
                && pAddrs[j] in blockTracking && blockTracking[pAddrs[j]] == BlockTracker(numPages, first)
    {
      hide TreeOk, ListsOk, AddrsOk, BitsOk, HoldersOk, Pow2, FirstPage, Covers, Handed, Holdless;
      ghost var before := holder;
      var bTracker := BlockTracker(numPages, first);
      var block := first;
      pAddrs := [];
      FirstOf(levels, n);
      NothingHanded(before, n, FirstPage(levels, n));
      for j := 0 to numPages
        invariant Consistent() && |pAddrs| == j && block == initialAddress + Page(levels, n, j) * PAGE
        invariant |holder| == |before| + j && Handed(before, holder, n, FirstPage(levels, n), j)
        invariant forall i: nat | i < j ::
                    && pAddrs[i] == initialAddress + Page(levels, n, i) * PAGE && Page(levels, n, i) < Pow2(levels)
                    && pAddrs[i] in blockTracking && blockTracking[pAddrs[i]] == bTracker
      {
        PageCovered(levels, n, j);
        NewHolder(before, tree, levels, n, Page(levels, n, j));
        MoreHolders(holder, tree, levels, n, Page(levels, n, j));
        OneMoreHanded(before, holder, n, FirstPage(levels, n), j);
        pAddrs := pAddrs + [block];
        blockTracking := blockTracking[block := bTracker];
        holder := holder[Page(levels, n, j) := n];
        block := block + PAGE;
      }
    }

    /** popNextAvailablePAddrs */
    method PopNextAvailablePAddrs() returns (pAddr: nat, ghost block: Node)
      requires Valid() && CanAllocate(1)
      modifies this, bfBlockSplit.field, bfMergeList.field
      ensures Valid() && block.level == levels && pAddr == Addr(initialAddress, levels, block)
      ensures FirstPage(levels, block) !in old(holder) && holder == old(holder)[FirstPage(levels, block) := block]
    {
      hide TreeOk, ListsOk, AddrsOk, BitsOk, HoldersOk, WastedOk, FreePage, Covers, FirstPage, Handed;
      ghost var before := holder;
      var addrs;
      addrs, block := AllocateMultiplePages(1);
      FitsUnique(1, levels - block.level, 0);
      OneHanded(before, holder, block, FirstPage(levels, block));
      pAddr := addrs[0];
    }

    /** noAvailablePAddrs */
    method NoAvailablePAddrs() returns (none: bool)
      requires Valid()
      ensures none <==> !(exists n :: n in tree && tree[n] == Free)
    {
      hide TreeOk, AddrsOk, BitsOk, HoldersOk, ListsOk;
      AddrCount(freeList, free, initialAddress, levels);
      for i := 0 to |freeList|
        invariant forall l: nat | l < i :: freeList[l] == []
      {
        if freeList[i] != [] {
          PopAddrs(freeList, free, initialAddress, levels, i);
          PopList(free, tree, levels, i);
          return false;
        }
      }
      NoFree();
      return true;
    }

    lemma NoFree()
      requires Valid() && forall l: nat | l <= levels :: l < |freeList| && freeList[l] == []
      ensures forall n | n in tree :: tree[n] != Free
    {
      hide BitsOk, HoldersOk, NodeOk;
      forall n | n in tree ensures tree[n] != Free {
        NodeFacts(tree, levels, n);
        assert AddrsOf(freeList[n.level], free[n.level], initialAddress, levels, n.level);
        assert ListOk(free[n.level], tree, n.level);
      }
    }

    /**
     At every moment the blocks that are free and the blocks that were handed out partition the
     storage, each page that was handed out lies in a block that was, and, if no allocation was one
     of no page, each block that was handed out holds a page that was.
     */
    lemma Safety(page: nat) returns (n: Node)
      requires Valid() && page < Pow2(levels)
      ensures n in tree && (tree[n] == Free || tree[n] == Used) && Covers(n, levels, page)
      ensures forall m | m in tree && (tree[m] == Free || tree[m] == Used) && Covers(m, levels, page) :: m == n
      ensures page in holder ==> tree[n] == Used
      ensures tree[n] == Used && empty == 0 ==> exists p :: p in holder && holder[p] == n
    {
      hide Covers, TreeOk, ListsOk, AddrsOk, BitsOk, Holdless;
      n := Partition(tree, levels, page);
      if tree[n] == Used && empty == 0 {
        assert n !in wasted;
        HasPage(holder, n);
      }
    }

    static lemma HasPage(holder: map<nat, Node>, n: Node)
      ensures !Holdless(holder, n) <==> exists p :: p in holder && holder[p] == n
    {}

    /** Every block handed out holds a page handed out if and only if no allocation was one of no page. */
    lemma NothingLostIff()
      requires Valid()
      ensures (forall n | n in tree && tree[n] == Used :: exists p :: p in holder && holder[p] == n) <==> empty == 0
    {
      hide TreeOk, ListsOk, AddrsOk, BitsOk, HoldersOk, Holdless;
      forall n ensures !Holdless(holder, n) <==> exists p :: p in holder && holder[p] == n { HasPage(holder, n); }
      if empty > 0 {
        var n :| n in wasted;
      }
    }

    /** A free page can be allocated. */
    lemma RoomForOne(page: nat)
      requires Valid() && FreePage(tree, levels, page)
      ensures CanAllocate(1)
    {
      hide BitsOk, HoldersOk, NodeOk, Covers, TreeOk;
      var n :| n in tree && tree[n] == Free && Covers(n, levels, page);
      NodeFacts(tree, levels, n);
      assert ListOk(free[n.level], tree, n.level);
      assert AddrsOf(freeList[n.level], free[n.level], initialAddress, levels, n.level);
      assert Fits(1, 0) && n.level + 0 <= levels;
    }
  }

  // ---------------------------------------------------------------------------------------
  // Two runs
  // ---------------------------------------------------------------------------------------

  /** One request for no page takes the whole of a storage of one page, and nobody has it. */
  method NoPageTakesAll() returns (s: DeviceBuddyMemoryState, pAddrs: seq<nat>, none: bool)
    ensures s.Valid() && s.holder == map[] && pAddrs == [] && none
  {
    hide TreeOk, ListsOk, AddrsOk, BitsOk, HoldersOk, WastedOk, FreePage, Handed, Covers, NodeOk, BestFit, FitLevel,
         ListsAfter, Holdless;
    s := new DeviceBuddyMemoryState(0, 0);
    assert Fits(0, 0) && s.freeList[0] != [] && 0 + 0 <= s.levels;
    ghost var block;
    pAddrs, block := s.AllocateMultiplePages(0);
    NoneHanded(map[], s.holder, block, FirstPage(0, block));
    none := s.NoAvailablePAddrs();
    NodeFacts(s.tree, 0, block);
    assert block == ROOT;
    PageCovered(0, ROOT, 0);
    if !none {
      ghost var n :| n in s.tree && s.tree[n] == Free;
      NodeFacts(s.tree, 0, n);
      FreeCovers(s.tree, 0, n);
    }
  }

  lemma NoneHanded(before: map<nat, Node>, after: map<nat, Node>, n: Node, first: nat)
    requires Handed(before, after, n, first, 0)
    ensures before == after
  {}

  lemma FreeCovers(t: Tree, levels: nat, n: Node)
    requires n in t && t[n] == Free && n.level <= levels && InLevel(n)
    ensures Page(levels, n, 0) < Pow2(levels) && FreePage(t, levels, Page(levels, n, 0))
  {
    PageCovered(levels, n, 0);
  }

  /** The blocks of the lowest level of a storage of four pages are its pages. */
  lemma OnePageBlock(n: Node, page: nat)
    requires n.level == 2
    ensures Covers(n, 2, page) <==> n.index == page
  {
    assert Pow2(0) == 1;
  }

  /** One page is taken: it was not taken before, and all other free ones still are free. */
  ghost predicate TookPage(before: Tree, after: Tree, block: Node) {
    && block.level == 2 && block in after && after[block] == Used && !(block in before && before[block] == Used)
    && (forall n | n in before && before[n] == Used :: n in after && after[n] == Used)
    && (forall page: nat | page < 4 && page != block.index && FreePage(before, 2, page) :: FreePage(after, 2, page))
  }

  /** One more page from a storage of four. */
  method TakeOne(s: DeviceBuddyMemoryState, ghost free: nat) returns (ghost block: Node)
    requires s.Valid() && s.levels == 2 && FreePage(s.tree, 2, free)
    modifies s, s.bfBlockSplit.field, s.bfMergeList.field
    ensures s.Valid() && TookPage(old(s.tree), s.tree, block)
  {
    hide TreeOk, ListsOk, AddrsOk, BitsOk, HoldersOk, WastedOk, FreePage, Handed, Covers, Holdless;
    s.RoomForOne(free);
    var pAddrs;
    pAddrs, block := s.AllocateMultiplePages(1);
    assert Fits(1, 0);
    FitsUnique(1, s.levels - block.level, 0);
    forall page: nat ensures Covers(block, 2, page) <==> block.index == page { OnePageBlock(block, page); }
    assert Pow2(2) == 4;
  }

  /**
   After three allocations of one page from a storage of four, the merge bit of the whole does not
   say whether exactly one half of it is free.
   */
  method MergeBitMisleads() returns (s: DeviceBuddyMemoryState)
    ensures s.Valid() && s.levels == 2 && ROOT in s.tree && s.tree[ROOT] == Cut
    ensures Left(ROOT) in s.tree && Right(ROOT) in s.tree
    ensures !(s.bfMergeList.Bits()[Heap(ROOT)] <==> (s.tree[Left(ROOT)] == Free) != (s.tree[Right(ROOT)] == Free))
  {
    hide TreeOk, ListsOk, AddrsOk, BitsOk, HoldersOk, WastedOk, FreePage, Covers, NodeOk, Holdless;
    s := new DeviceBuddyMemoryState(0, 2);
    AllFree(2);
    assert Pow2(2) == 4;
    ghost var a := TakeOne(s, 0);
    ghost var b := TakeOne(s, if a.index == 0 then 1 else 0);
    ghost var third := if 0 != a.index && 0 != b.index then 0 else if 1 != a.index && 1 != b.index then 1 else 2;
    ghost var c := TakeOne(s, third);
    BlocksInTree(s.tree, a, b, c);
    MergeBitMeans(s.bfBlockSplit.Bits(), s.bfMergeList.Bits(), s.tree, 2, ROOT);
  }

  lemma AllFree(levels: nat)
    ensures forall page: nat | page < Pow2(levels) :: FreePage(map[ROOT := Free], levels, page)
  {
    hide Covers;
    forall page: nat | page < Pow2(levels) ensures FreePage(map[ROOT := Free], levels, page) {
      RootCovers(levels, page);
      assert ROOT in map[ROOT := Free];
    }
  }

  /** Three of the four pages are not all in the first half. */
  lemma BlocksInTree(t: Tree, a: Node, b: Node, c: Node)
    requires TreeOk(t, 2) && a in t && b in t && c in t && a.level == b.level == c.level == 2
    requires a != b && b != c && a != c
    ensures ROOT in t && t[ROOT] == Cut && Right(ROOT) in t && t[Right(ROOT)] == Cut
  {
    hide TreeOk, NodeOk;
    NodeFacts(t, 2, a);
    NodeFacts(t, 2, b);
    NodeFacts(t, 2, c);
    assert Pow2(2) == 4;
    var n := if a.index >= 2 then a else if b.index >= 2 then b else c;
    assert n.index >= 2;
    assert Parent(n) == Right(ROOT);
    NodeFacts(t, 2, Parent(n));
  }
}
