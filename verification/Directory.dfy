/**
 The cache directory with least-recently-used replacement: virtualdevice/directory.go and
 virtualdevice/victimfinder.go, without an address converter.

 A Go slice is a length and a backing array that several slices may share. Visit works on a copy
 of a set's slice header and never stores it back; that the set sees the visit is the
 sharing of the backing array.
 */
module Directory {

  import opened Arithmetic
  import opened Collections
  import opened Recency

  class Block {
    const SetID: nat
    const WayID: nat
    const CacheAddress: nat
    var PID: nat
    var Tag: nat
    var IsValid: bool
    var IsLocked: bool

    constructor (setID: nat, wayID: nat, cacheAddress: nat)
      ensures SetID == setID && WayID == wayID && CacheAddress == cacheAddress
      ensures !IsValid && !IsLocked && PID == Tag == 0
    {
      SetID, WayID, CacheAddress := setID, wayID, cacheAddress;
      PID, Tag, IsValid, IsLocked := 0, 0, false, false;
    }
  }

  datatype Slice = Slice(backing: array<Block?>, len: nat)

  datatype Set = Set(Blocks: seq<Block>, LRUQueue: Slice)

  /** What a slice shows of its backing array. */
  ghost predicate Shows(s: Slice, blocks: seq<Block>)
    reads s.backing
  {
    s.len == |blocks| <= s.backing.Length && forall i | 0 <= i < s.len :: s.backing[i] == blocks[i]
  }

  /** append(s, x): in place while there is room, else in a new array. */
  method Append(s: Slice, x: Block, ghost blocks: seq<Block>) returns (r: Slice)
    requires Shows(s, blocks)
    modifies s.backing
    ensures Shows(r, blocks + [x]) && (r.backing == s.backing || fresh(r.backing))
    ensures r.backing == s.backing <==> s.len < s.backing.Length
    ensures forall i | 0 <= i < s.backing.Length && i != s.len :: s.backing[i] == old(s.backing[i])
    ensures s.len == s.backing.Length ==> forall i | 0 <= i < s.backing.Length :: s.backing[i] == old(s.backing[i])
  {
    if s.len < s.backing.Length {
      s.backing[s.len] := x;
      return Slice(s.backing, s.len + 1);
    }
    var bigger := new Block?[if s.len == 0 then 1 else 2 * s.len](_ => null);
    for i := 0 to s.len
      invariant forall k | 0 <= k < i :: bigger[k] == s.backing[k]
      invariant unchanged(s.backing)
    {
      bigger[i] := s.backing[i];
    }
    bigger[s.len] := x;
    r := Slice(bigger, s.len + 1);
  }

  /** append(s[:i], s[i+1:]...): the rest moves up by one, in place. */
  method RemoveInPlace(s: Slice, i: nat, ghost blocks: seq<Block>) returns (r: Slice)
    requires Shows(s, blocks) && i < s.len
    modifies s.backing
    ensures r == Slice(s.backing, s.len - 1) && Shows(r, RemoveAt(blocks, i))
  {
    var k := i;
    while k + 1 < s.len
      invariant i <= k < s.len
      invariant forall j | 0 <= j < i :: s.backing[j] == blocks[j]
      invariant forall j | i <= j < k :: s.backing[j] == blocks[j + 1]
      invariant forall j | k <= j < s.len :: s.backing[j] == blocks[j]
    {
      s.backing[k] := s.backing[k + 1];
      k := k + 1;
    }
    r := Slice(s.backing, s.len - 1);
  }

  /** What Visit does to its copy `queue` of the header; the original header shows the outcome. */
  method VisitCopy(header: Slice, block: Block, ghost blocks: seq<Block>)
    requires Shows(header, blocks)
    modifies header.backing
    ensures Shows(header, MoveToEnd(blocks, block))
  {
    var queue := header;
    ghost var shown := blocks;
    var i := 0;
    while i < queue.len && queue.backing[i] != block
      invariant 0 <= i <= queue.len && forall k | 0 <= k < i :: blocks[k] != block
    {
      i := i + 1;
    }
    if i < queue.len {
      FoundAt(blocks, block, i);
      queue := RemoveInPlace(queue, i, blocks);
      shown := RemoveAt(blocks, i);
    }
    var _ := Append(queue, block, shown);
  }

  /** The blocks of set `i` as Reset makes them. */
  ghost predicate AsReset(blocks: seq<Block>, i: nat, numWays: nat, blockSize: nat)
    reads blocks
  {
    && |blocks| == numWays
    && forall j | 0 <= j < numWays ::
         && !blocks[j].IsValid && !blocks[j].IsLocked && blocks[j].SetID == i && blocks[j].WayID == j
         && blocks[j].CacheAddress == (i * numWays + j) * blockSize
  }

  class DirectoryImpl {
    const NumSets: nat
    const NumWays: nat
    const BlockSize: nat
    var Sets: seq<Set>
    ghost var queues: seq<seq<Block>> // what the LRUQueue of each set shows

    ghost function Backings(): set<object>
      reads this
    {
      set i | 0 <= i < |Sets| :: Sets[i].LRUQueue.backing as object
    }

    ghost predicate Valid()
      reads this, Backings()
    {
      && NumSets > 0 && NumWays > 0 && BlockSize > 0
      && |Sets| == |queues| == NumSets
      && (forall i | 0 <= i < NumSets :: SetOk(i))
      && (forall i, j | 0 <= i < j < NumSets :: Sets[i].LRUQueue.backing != Sets[j].LRUQueue.backing)
    }

    /** A set has its own blocks, and its queue is a permutation of them. */
    ghost predicate SetOk(i: nat)
      requires i < |Sets| && |Sets| == |queues|
      reads this, Sets[i].LRUQueue.backing
    {
      && |Sets[i].Blocks| == NumWays && Distinct(Sets[i].Blocks) && (forall b | b in Sets[i].Blocks :: b.SetID == i)
      && Shows(Sets[i].LRUQueue, queues[i]) && multiset(queues[i]) == multiset(Sets[i].Blocks)
    }

    constructor (numSets: nat, numWays: nat, blockSize: nat)
      requires numSets > 0 && numWays > 0 && blockSize > 0
      ensures Valid() && NumSets == numSets && NumWays == numWays && BlockSize == blockSize && fresh(Backings())
      ensures forall i | 0 <= i < numSets :: queues[i] == Sets[i].Blocks
      ensures forall i | 0 <= i < numSets :: AsReset(Sets[i].Blocks, i, numWays, blockSize)
    {
      NumSets, NumWays, BlockSize := numSets, numWays, blockSize;
      Sets, queues := [], [];
      new;
      Reset();
    }

    /** Reset: new blocks, none of them valid, queued in the order of their ways. */
    method Reset()
      requires NumSets > 0 && NumWays > 0 && BlockSize > 0
      modifies this
      ensures Valid() && fresh(Backings())
      ensures forall i | 0 <= i < NumSets :: queues[i] == Sets[i].Blocks
      ensures forall i | 0 <= i < NumSets :: AsReset(Sets[i].Blocks, i, NumWays, BlockSize)
    {
      hide AsReset, Distinct, Shows;
      Sets, queues := [], [];
      for i := 0 to NumSets
        invariant |Sets| == |queues| == i && forall k | 0 <= k < i :: SetOk(k) && queues[k] == Sets[k].Blocks
        invariant forall k | 0 <= k < i :: fresh(Sets[k].LRUQueue.backing)
        invariant forall k, l | 0 <= k < l < i :: Sets[k].LRUQueue.backing != Sets[l].LRUQueue.backing
        invariant forall k | 0 <= k < i :: AsReset(Sets[k].Blocks, k, NumWays, BlockSize)
      {
        var blocks, queue := NewSet(i);
        Sets := Sets + [Set(blocks, queue)];
        queues := queues + [blocks];
      }
    }

    method NewSet(i: nat) returns (blocks: seq<Block>, queue: Slice)
      ensures |blocks| == NumWays && Distinct(blocks) && Shows(queue, blocks) && fresh(queue.backing)
      ensures AsReset(blocks, i, NumWays, BlockSize) && forall b | b in blocks :: fresh(b) && b.SetID == i
    {
      blocks := [];
      var backing := new Block?[0];
      queue := Slice(backing, 0);
      for j := 0 to NumWays
        invariant |blocks| == j && Distinct(blocks) && Shows(queue, blocks) && fresh(queue.backing)
        invariant (forall b | b in blocks :: fresh(b) && b.SetID == i && !b.IsValid && !b.IsLocked)
        invariant forall k | 0 <= k < j ::
                    blocks[k].WayID == k && blocks[k].CacheAddress == (i * NumWays + k) * BlockSize
      {
        var block := new Block(i, j, (i * NumWays + j) * BlockSize);
        queue := Append(queue, block, blocks);
        blocks := blocks + [block];
      }
    }

    /** Visit: the set's own queue shows the block at its end. */
    method Visit(block: Block)
      requires Valid() && block.SetID < NumSets
      modifies `queues, Sets[block.SetID].LRUQueue.backing
      ensures Valid() && Sets == old(Sets)
      ensures queues == old(queues)[block.SetID := MoveToEnd(old(queues)[block.SetID], block)]
    {
      hide MoveToEnd, Distinct;
      var id := block.SetID;
      assert SetOk(id);
      VisitCopy(Sets[id].LRUQueue, block, queues[id]);
      SameElements(queues[id], block);
      queues := queues[id := MoveToEnd(queues[id], block)];
      forall i | 0 <= i < NumSets && i != id ensures SetOk(i) {
        assert old(SetOk(i)) && Sets[i].LRUQueue.backing != Sets[id].LRUQueue.backing;
      }
    }

    /** getSet */
    function SetIDOf(reqAddr: nat): nat
      requires NumSets > 0 && BlockSize > 0
    {
      (reqAddr / BlockSize) % NumSets
    }

    /** Consecutive blocks of memory go to consecutive sets, round and round; all bytes of a block to one. */
    lemma SetOfBlock(q: nat, s: nat, o: nat)
      requires BlockSize > 0 && s < NumSets && o < BlockSize
      ensures SetIDOf((q * NumSets + s) * BlockSize + o) == s
    {
      DivUnique((q * NumSets + s) * BlockSize + o, BlockSize, q * NumSets + s, o);
      DivUnique(q * NumSets + s, NumSets, q, s);
    }

    /** Lookup: the first block of the address's set that holds it. */
    method Lookup(PID: nat, reqAddr: nat) returns (block: Block?)
      requires Valid()
      ensures SetIDOf(reqAddr) < NumSets
      ensures block == null ==> forall b | b in Sets[SetIDOf(reqAddr)].Blocks ::
              !(b.IsValid && b.Tag == reqAddr && b.PID == PID)
      ensures block != null ==>
                && block in Sets[SetIDOf(reqAddr)].Blocks && block.IsValid && block.Tag == reqAddr && block.PID == PID
                && block.SetID == SetIDOf(reqAddr)
      ensures block != null ==> exists i :: HoldsFirst(Sets[SetIDOf(reqAddr)].Blocks, i, PID, reqAddr, block)
    {
      assert SetOk(SetIDOf(reqAddr));
      var blocks := Sets[SetIDOf(reqAddr)].Blocks;
      for i := 0 to |blocks|
        invariant forall k | 0 <= k < i :: !(blocks[k].IsValid && blocks[k].Tag == reqAddr && blocks[k].PID == PID)
      {
        if blocks[i].IsValid && blocks[i].Tag == reqAddr && blocks[i].PID == PID {
          assert HoldsFirst(blocks, i, PID, reqAddr, blocks[i]);
          return blocks[i];
        }
      }
      return null;
    }

    /** Of the blocks of a set, the one at `i` is `block`, and none before it holds the address. */
    static ghost predicate HoldsFirst(blocks: seq<Block>, i: int, PID: nat, reqAddr: nat, block: Block)
      reads blocks
    {
      && 0 <= i < |blocks| && blocks[i] == block
      && forall k | 0 <= k < i :: !(blocks[k].IsValid && blocks[k].Tag == reqAddr && blocks[k].PID == PID)
    }

    /** FindVictim: the first empty unlocked block of the queue, else the first unlocked one, else the first. */
    method FindVictim(addr: nat) returns (block: Block)
      requires Valid()
      ensures SetIDOf(addr) < NumSets && queues[SetIDOf(addr)] != [] && block == Victim(queues[SetIDOf(addr)])
      ensures block in Sets[SetIDOf(addr)].Blocks && block.SetID == SetIDOf(addr)
    {
      var queue := Sets[SetIDOf(addr)].LRUQueue;
      ghost var shown := queues[SetIDOf(addr)];
      assert SetOk(SetIDOf(addr));
      assert |multiset(shown)| == NumWays;
      for i := 0 to queue.len
        invariant forall k | 0 <= k < i :: shown[k].IsValid || shown[k].IsLocked
      {
        var b := queue.backing[i];
        if !b.IsValid && !b.IsLocked {
          FirstOf(shown, i, true);
          assert b in multiset(shown);
          return b;
        }
      }
      NoneOf(shown, true);
      for i := 0 to queue.len
        invariant forall k | 0 <= k < i :: shown[k].IsLocked
      {
        var b := queue.backing[i];
        if !b.IsLocked {
          FirstOf(shown, i, false);
          assert b in multiset(shown);
          return b;
        }
      }
      NoneOf(shown, false);
      assert shown[0] in multiset(shown);
      return queue.backing[0];
    }
  }

  lemma FoundAt(q: seq<Block>, b: Block, i: nat)
    requires i < |q| && q[i] == b && forall k | 0 <= k < i :: q[k] != b
    ensures b in q && IndexOf(q, b) == i
  {}

  /** A block that may be evicted; `empty` asks for one that holds nothing. */
  predicate Candidate(b: Block, empty: bool)
    reads b
  {
    !b.IsLocked && (empty ==> !b.IsValid)
  }

  /** The index of the first candidate, or the length of the queue. */
  function First(q: seq<Block>, empty: bool): (i: nat)
    reads q
    ensures i <= |q| && (forall k | 0 <= k < i :: !Candidate(q[k], empty)) && (i < |q| ==> Candidate(q[i], empty))
  {
    if q == [] then 0 else if Candidate(q[0], empty) then 0 else 1 + First(q[1..], empty)
  }

  lemma FirstOf(q: seq<Block>, i: nat, empty: bool)
    requires i < |q| && Candidate(q[i], empty) && forall k | 0 <= k < i :: !Candidate(q[k], empty)
    ensures First(q, empty) == i
  {}

  lemma NoneOf(q: seq<Block>, empty: bool)
    requires forall k | 0 <= k < |q| :: !Candidate(q[k], empty)
    ensures First(q, empty) == |q|
  {}

  /** What LRUVictimFinder picks. */
  function Victim(q: seq<Block>): Block
    requires q != []
    reads q
  {
    if First(q, true) < |q| then q[First(q, true)]
    else if First(q, false) < |q| then q[First(q, false)]
    else q[0]
  }

  /**
   Over any run of visits: the victim is the least recently visited empty unlocked block, if there
   is one; else the least recently visited unlocked block; else the least recently visited block.
   */
  lemma VictimIsLeastRecent(q: seq<Block>, visits: seq<Block>, b: Block)
    requires q != [] && Distinct(q) && b in q
    ensures AfterVisits(q, visits) != [] && Victim(AfterVisits(q, visits)) in q
    ensures var v := Victim(AfterVisits(q, visits));
            && (!b.IsLocked && !b.IsValid ==>
                  !v.IsLocked && !v.IsValid && Rank(q, visits, v) <= Rank(q, visits, b))
            && (!b.IsLocked && (v.IsLocked || v.IsValid) ==>
                  !v.IsLocked && Rank(q, visits, v) <= Rank(q, visits, b))
            && (v.IsLocked ==> Rank(q, visits, v) <= Rank(q, visits, b))
  {
    hide Rank, AfterVisits, First;
    var r := AfterVisits(q, visits);
    OrderedByLastVisit(q, visits);
    StillPermutation(q, visits);
    assert b in multiset(r);
    var i: nat :| i < |r| && r[i] == b;
    VictimPlace(r, i);
    var v := VictimIndex(r);
    assert v < |r| && r[v] == Victim(r);
    RisingRanks(r, q, visits, v, i);
  }

  function VictimIndex(q: seq<Block>): nat
    requires q != []
    reads q
  {
    if First(q, true) < |q| then First(q, true) else if First(q, false) < |q| then First(q, false) else 0
  }

  lemma VictimPlace(r: seq<Block>, i: nat)
    requires i < |r|
    ensures VictimIndex(r) < |r| && r[VictimIndex(r)] == Victim(r)
    ensures Candidate(r[i], true) ==> Candidate(Victim(r), true) && VictimIndex(r) <= i
    ensures Candidate(r[i], false) && !Candidate(Victim(r), true) ==> Candidate(Victim(r), false) && VictimIndex(r) <= i
    ensures !Candidate(Victim(r), false) ==> VictimIndex(r) <= i
  {}

  lemma RisingRanks(r: seq<Block>, q: seq<Block>, visits: seq<Block>, i: nat, j: nat)
    requires ByRank(r, q, visits) && i < |r| && j < |r|
    ensures r[i] in q && r[j] in q
    ensures i <= j ==> Rank(q, visits, r[i]) <= Rank(q, visits, r[j])
  {
    hide Rank;
  }
}
