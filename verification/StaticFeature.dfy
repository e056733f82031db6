/**
 The static sweep over a kernel (emu/static_feature.go): from the first instruction to the
 first s_endpgm, in memory order, it records every basic block a wavefront can execute.
 */
module StaticFeature {
  import opened Arithmetic
  import opened Instructions

  /** Kernel memory as the decoder sees it: the instruction at each address. */
  type Code = int -> Inst

  /** The instructions from a kernel's start to its first s_endpgm, with their addresses. */
  datatype Listing = Listing(pcs: seq<int>, insts: seq<Inst>) {

    ghost predicate Valid() {
      && |pcs| == |insts| > 0
      && (forall k | 0 <= k < |pcs| :: 0 <= pcs[k] < UINT64)
      && (forall j, k | 0 <= j < k < |pcs| :: pcs[j] < pcs[k])
      && (forall k | 0 <= k < |insts| - 1 :: !IsEnd(insts[k]))
      && IsEnd(insts[|insts| - 1])
    }

    /** The listing of the kernel at `start`. */
    ghost predicate Of(code: Code, start: int): (r: bool)
      ensures r ==> Valid()
    {
      Decoded(code, start) && (DecodedValid(code, start); true)
    }

    ghost predicate Decoded(code: Code, start: int) {
      && |pcs| == |insts| > 0
      && pcs[0] == start
      && (forall k | 0 <= k < |pcs| :: insts[k] == code(pcs[k]))
      && (forall k | 0 <= k < |pcs| - 1 :: pcs[k + 1] == NextPC(pcs[k], insts[k]))
      && (forall k | 0 <= k < |insts| - 1 :: !IsEnd(insts[k]))
      && IsEnd(insts[|insts| - 1])
      && 0 <= start && pcs[|pcs| - 1] < UINT64
    }

    /** Where the branch or barrier at `k` may go besides the next instruction. */
    ghost function Other(k: nat): int
      requires k < |pcs| == |insts|
    {
      Target(pcs[k], insts[k])
    }

    /** Index of the instruction that ends the block beginning at `k`. */
    ghost function BlockEnd(k: nat): (e: nat)
      requires Valid() && k < |insts|
      ensures k <= e < |insts|
      ensures IsCut(insts[e]) || e == |insts| - 1
      ensures forall j | k <= j < e :: !IsCut(insts[j])
      decreases |insts| - k
    {
      if IsCut(insts[k]) || k == |insts| - 1 then k else BlockEnd(k + 1)
    }

    /** The block that begins at instruction `k`, and its instructions. */
    ghost function BlockAt(k: nat): BBL
      requires Valid() && k < |insts|
    {
      BBL(Rel(pcs[k], pcs[0]), BlockEnd(k) + 1 - k)
    }

    ghost function BlockInsts(k: nat): seq<Inst>
      requires Valid() && k < |insts|
    {
      insts[k..BlockEnd(k) + 1]
    }

    /** Block entry points: the kernel's first instruction, the one after a cut, and a cut's target. */
    ghost predicate Leader(k: nat): (r: bool)
      requires Valid()
      ensures r ==> k < |insts|
    {
      k < |insts| &&
      (k == 0 || IsCut(insts[k - 1]) || exists j :: 0 <= j < |insts| && IsCut(insts[j]) && Other(j) == pcs[k])
    }

    /** A block that begins at a swept address. */
    ghost predicate Inside(b: BBL)
      requires Valid()
    {
      exists k :: 0 <= k < |insts| && b == BlockAt(k)
    }

    /** The block of an entry point. */
    ghost predicate Entry(b: BBL)
      requires Valid()
    {
      exists k: nat :: Leader(k) && b == BlockAt(k)
    }

    /** A cut's target that the sweep never reached, recorded as a block of no instructions. */
    ghost predicate Outside(b: BBL)
      requires Valid()
    {
      && b.InsNum == 0
      && exists j :: 0 <= j < |insts| && IsCut(insts[j]) && Other(j) !in pcs && b.PC == Rel(Other(j), pcs[0])
    }

    /** What the sweep records: a block for every entry point, and the targets it never reached. */
    ghost predicate Records(b: BBL)
      requires Valid()
    {
      Entry(b) || Outside(b)
    }

    /** The instruction list that belongs to a recorded block. */
    ghost predicate RightInsts(b: BBL, list: seq<Inst>)
      requires Valid()
    {
      && (forall k | 0 <= k < |insts| && b == BlockAt(k) :: list == BlockInsts(k))
      && (b.InsNum == 0 ==> list == [])
    }

    lemma {:induction false} BlockEndIs(k: nat, e: nat)
      requires Valid() && k <= e < |insts|
      requires IsCut(insts[e]) || e == |insts| - 1
      requires forall j | k <= j < e :: !IsCut(insts[j])
      ensures BlockEnd(k) == e
    {}

    lemma {:induction false} Growing(j: nat, k: nat)
      requires |pcs| == |insts| && j <= k < |pcs|
      requires forall k | 0 <= k < |pcs| - 1 :: pcs[k + 1] == NextPC(pcs[k], insts[k])
      ensures pcs[j] + (k - j) <= pcs[k]
    {
      if j < k { Growing(j, k - 1); }
    }

    lemma DecodedValid(code: Code, start: int)
      requires Decoded(code, start)
      ensures Valid()
    {
      forall j, k | 0 <= j <= k < |pcs| ensures pcs[j] + (k - j) <= pcs[k] { Growing(j, k); }
      assert forall k | 0 <= k < |pcs| :: pcs[0] <= pcs[k] <= pcs[|pcs| - 1];
    }

    /** Addresses in a listing are the byte sizes of the instructions apart. */
    lemma AddressesApart(code: Code, start: int, k: nat)
      requires Of(code, start) && k + 1 < |pcs|
      ensures pcs[0] == start && pcs[k + 1] - pcs[k] == insts[k].byteSize && insts[k] == code(pcs[k])
    {
      assert Decoded(code, start);
    }

    lemma RelInside(k: nat)
      requires Valid() && k < |pcs|
      ensures Rel(pcs[k], pcs[0]) == pcs[k] - pcs[0]
    {
      assert k > 0 ==> pcs[0] < pcs[k];
    }

    /** At a swept address a recorded block's PC determines its length. */
    lemma PCDeterminesBlock(a: BBL, b: BBL)
      requires Valid() && (Inside(a) || Outside(a)) && (Inside(b) || Outside(b)) && a.PC == b.PC
      ensures a == b
    {
      forall k | 0 <= k < |pcs| ensures Rel(pcs[k], pcs[0]) == pcs[k] - pcs[0] { RelInside(k); }
      if Inside(a) && Inside(b) {
        var j :| 0 <= j < |insts| && a == BlockAt(j);
        var k :| 0 <= k < |insts| && b == BlockAt(k);
        assert pcs[j] == pcs[k];
      } else if Inside(a) {
        OutsideElsewhere(a, b);
      } else if Inside(b) {
        OutsideElsewhere(b, a);
      }
    }

    lemma OutsideElsewhere(a: BBL, b: BBL)
      requires Valid() && Inside(a) && Outside(b)
      ensures a.PC != b.PC
    {
      var k :| 0 <= k < |insts| && a == BlockAt(k);
      var j :| 0 <= j < |insts| && IsCut(insts[j]) && Other(j) !in pcs && b.PC == Rel(Other(j), pcs[0]);
      RelInjective(pcs[k], Other(j), pcs[0]);
    }
  }

  lemma RelInjective(a: int, b: int, start: int)
    requires 0 <= a < UINT64 && 0 <= b < UINT64
    ensures Rel(a, start) == Rel(b, start) ==> a == b
  {}

  function Lookup<K>(m: map<K, int>, k: K): int {
    if k in m then m[k] else 0
  }

  /** pc2endingpc holds, for the first `b` instructions, how many remain until the end of the block. */
  ghost predicate Ending(m: map<int, int>, l: Listing, b: nat)
    requires l.Valid() && b <= |l.insts|
  {
    && (forall j | 0 <= j < b :: l.pcs[j] in m && m[l.pcs[j]] == l.BlockEnd(j) + 1 - j)
    && (forall p | p in m :: p in l.pcs[..b])
  }

  /** The open block begins at `b` and reaches to instruction `i`. */
  ghost predicate Open(l: Listing, b: nat, i: nat)
    requires l.Valid()
  {
    && b <= i <= |l.insts|
    && (0 < b < |l.insts| ==> IsCut(l.insts[b - 1]))
    && (forall j | b <= j < i :: !IsCut(l.insts[j]) && !IsEnd(l.insts[j]))
  }

  /** serialinsts and pc2idx cover the first `i` instructions. */
  ghost predicate Indexed(l: Listing, i: nat, pc2idx: map<int, int>, serialinsts: seq<Inst>)
    requires l.Valid()
  {
    && i <= |l.insts|
    && serialinsts == l.insts[..i]
    && (forall j | 0 <= j < i :: Rel(l.pcs[j], l.pcs[0]) in pc2idx && pc2idx[Rel(l.pcs[j], l.pcs[0])] == j)
    && (forall r | r in pc2idx :: 0 <= pc2idx[r] < i)
  }

  /** anotherpcs holds the targets of the cuts among the first `i` instructions. */
  ghost predicate TargetsOf(l: Listing, i: nat, anotherpcs: seq<int>)
    requires l.Valid()
  {
    && i <= |l.insts|
    && (forall j | 0 <= j < i && IsCut(l.insts[j]) :: l.Other(j) in anotherpcs)
    && (forall p | p in anotherpcs :: exists j :: 0 <= j < i && IsCut(l.insts[j]) && p == l.Other(j))
  }

  /** The blocks that fall through are recorded, as far as instruction `b`. */
  ghost predicate Recorded(l: Listing, b: nat, blocks: map<BBL, int>)
    requires l.Valid()
  {
    b <= |l.insts| && forall k | 0 <= k < b && (k == 0 || IsCut(l.insts[k - 1])) :: l.BlockAt(k) in blocks
  }

  lemma SweepStart(l: Listing, blocks: map<BBL, int>)
    requires l.Valid()
    ensures Open(l, 0, 0) && Indexed(l, 0, map[], []) && TargetsOf(l, 0, []) && Recorded(l, 0, blocks)
            && Ending(map[], l, 0) && Grown(l, blocks, blocks)
  {}

  /** Addresses relative to the kernel start are distinct. */
  lemma NewIndex(l: Listing, i: nat, pc2idx: map<int, int>, serialinsts: seq<Inst>)
    requires l.Valid() && i < |l.insts| && Indexed(l, i, pc2idx, serialinsts)
    ensures Indexed(l, i + 1, pc2idx[Rel(l.pcs[i], l.pcs[0]) := i], serialinsts + [l.insts[i]])
  {
    forall j | 0 <= j < |l.pcs| ensures Rel(l.pcs[j], l.pcs[0]) == l.pcs[j] - l.pcs[0] {
      l.RelInside(j);
    }
    assert l.insts[..i + 1] == l.insts[..i] + [l.insts[i]];
  }

  lemma NewTarget(l: Listing, i: nat, anotherpcs: seq<int>)
    requires l.Valid() && i < |l.insts| && TargetsOf(l, i, anotherpcs)
    ensures IsCut(l.insts[i]) ==> TargetsOf(l, i + 1, anotherpcs + [Target(l.pcs[i], l.insts[i])])
    ensures !IsCut(l.insts[i]) ==> TargetsOf(l, i + 1, anotherpcs)
  {
    hide Target;
    if IsCut(l.insts[i]) {
      assert l.Other(i) in anotherpcs + [l.Other(i)];
    }
  }

  /** Instruction `i` ends the open block. */
  lemma BlockEnds(l: Listing, b: nat, i: nat, blocks: map<BBL, int>)
    requires l.Valid() && Open(l, b, i) && i < |l.insts| && Recorded(l, b, blocks)
    requires IsCut(l.insts[i]) || i == |l.insts| - 1
    ensures forall j | b <= j <= i :: l.BlockEnd(j) == i
    ensures l.BlockAt(b) == BBL(Rel(l.pcs[b], l.pcs[0]), i - b + 1)
    ensures Open(l, i + 1, i + 1) && Recorded(l, i + 1, blocks[l.BlockAt(b) := 1])
  {
    hide Listing.BlockEnd, Rel;
    forall j | b <= j <= i ensures l.BlockEnd(j) == i { l.BlockEndIs(j, i); }
  }

  /** The table of blocks has kept what it held and gained only blocks of the kernel. */
  ghost predicate Grown(l: Listing, before: map<BBL, int>, after: map<BBL, int>)
    requires l.Valid()
  {
    && (forall b | b in before :: b in after)
    && (forall b | b in after && b !in before :: l.Records(b))
  }

  lemma NewEntry(l: Listing, b: nat, before: map<BBL, int>, after: map<BBL, int>)
    requires l.Valid() && b < |l.insts| && (b > 0 ==> IsCut(l.insts[b - 1])) && Grown(l, before, after)
    ensures Grown(l, before, after[l.BlockAt(b) := 1])
  {
    hide Listing.Outside, Listing.BlockAt, Listing.Valid;
    assert l.Leader(b);
  }

  /** The tables after an analysis: the kernel's blocks are added, older lists stay, new ones are right. */
  ghost predicate Analysed(l: Listing, before: map<BBL, seq<Inst>>, after: map<BBL, seq<Inst>>)
    requires l.Valid()
  {
    && (forall b :: b in after <==> b in before || l.Records(b))
    && (forall b | b in before :: after[b] == before[b])
    && (forall b | b in after && b !in before :: l.RightInsts(b, after[b]))
  }

  /** The blocks that fall through and the blocks at targets are all blocks of the kernel. */
  lemma AllRecorded(l: Listing, swept: map<BBL, int>, pc2endingpc: map<int, int>, anotherpcs: seq<int>,
                    blocks: map<BBL, int>)
    requires l.Valid() && Recorded(l, |l.insts|, swept) && (forall b | b in swept :: b in blocks)
    requires Ending(pc2endingpc, l, |l.insts|) && TargetsOf(l, |l.insts|, anotherpcs)
    requires forall pc | pc in anotherpcs :: BBL(Rel(pc, l.pcs[0]), Lookup(pc2endingpc, pc)) in blocks
    ensures forall k: nat | l.Leader(k) :: l.BlockAt(k) in blocks
    ensures forall b | l.Records(b) :: b in blocks
  {
    hide Listing.BlockEnd, Listing.BlockAt, Ending, Rel, Target, Lookup;
    forall k: nat | l.Leader(k) ensures l.BlockAt(k) in blocks {
      if k > 0 && !IsCut(l.insts[k - 1]) {
        StaticComputeUnit.InsideTarget(k, pc2endingpc, l);
      }
    }
    forall b | l.Outside(b) ensures b in blocks {
      var j :| 0 <= j < |l.insts| && IsCut(l.insts[j]) && l.Other(j) !in l.pcs && b.PC == Rel(l.Other(j), l.pcs[0]);
      StaticComputeUnit.OutsideTarget(l.Other(j), pc2endingpc, anotherpcs, l);
    }
  }

  /** Static_compute_unit: the blocks found and their instructions. */
  class StaticComputeUnit {
    var Bbvset: map<BBL, int>
    var Bbv2insts: map<BBL, seq<Inst>>

    /** Between two analyses, whatever the kernels, every block has an instruction list. */
    ghost predicate Valid()
      reads this
    {
      Bbvset.Keys == Bbv2insts.Keys
    }

    /** All entry points of the kernel are recorded, with their instructions. */
    ghost predicate Covers(l: Listing)
      requires l.Valid()
      reads this
    {
      forall k: nat | l.Leader(k) :: l.BlockAt(k) in Bbvset && l.BlockAt(k) in Bbv2insts
    }

    constructor ()
      ensures Valid() && Bbv2insts == map[]
    {
      Bbvset, Bbv2insts := map[], map[];
    }

    method Reset()
      modifies this
      ensures Valid() && Bbv2insts == map[]
    {
      Bbvset := map[];
      Bbv2insts := map[];
    }

    /** Record how far the instructions of the block closed by instruction `i` are from its end. */
    static method CloseBlock(pc2endingpc: map<int, int>, pcs_without_endingpc: seq<int>, pc: int,
                             ghost l: Listing, ghost b: nat, ghost i: nat) returns (r: map<int, int>)
      requires l.Valid() && b <= i < |l.pcs| && pc == l.pcs[i] && pcs_without_endingpc == l.pcs[b..i]
      requires forall j | b <= j <= i :: l.BlockEnd(j) == i
      requires Ending(pc2endingpc, l, b)
      ensures Ending(r, l, i + 1)
    {
      hide Listing.BlockEnd;
      r := pc2endingpc;
      var size := |pcs_without_endingpc|;
      for idx := 0 to size
        invariant Ending(r, l, b + idx)
      {
        r := r[pcs_without_endingpc[idx] := size + 1 - idx];
        assert l.pcs[..b + idx + 1] == l.pcs[..b + idx] + [l.pcs[b + idx]];
      }
      r := r[pc := 1];
      assert l.pcs[..i + 1] == l.pcs[..i] + [l.pcs[i]];
    }

    /** First loop of analysisWfUntilEnd: decode until s_endpgm. */
    method Sweep(code: Code, startpc: int, ghost l: Listing)
      returns (pc2endingpc: map<int, int>, pc2idx: map<int, int>, serialinsts: seq<Inst>, anotherpcs: seq<int>)
      requires l.Of(code, startpc)
      modifies `Bbvset
      ensures Grown(l, old(Bbvset), Bbvset)
      ensures Ending(pc2endingpc, l, |l.insts|) && Indexed(l, |l.insts|, pc2idx, serialinsts)
      ensures TargetsOf(l, |l.insts|, anotherpcs) && Recorded(l, |l.insts|, Bbvset)
    {
      hide Listing.BlockEnd, Listing.Outside, Listing.Entry, Listing.Valid, Grown, Ending, Indexed, TargetsOf, Recorded;
      hide Rel, Target;
      pc2endingpc, pc2idx, serialinsts, anotherpcs := map[], map[], [], [];
      var pc := startpc;
      var pcs_without_endingpc: seq<int> := [];
      var bbstartpc := Rel(pc, startpc);
      var inst_idx := 0;
      var continue_execute := true;
      ghost var b: nat := 0;
      SweepStart(l, Bbvset);
      while continue_execute
        invariant Grown(l, old(Bbvset), Bbvset) && Open(l, b, inst_idx)
        invariant if continue_execute then
                    && inst_idx < |l.insts| && pc == l.pcs[inst_idx] && bbstartpc == Rel(l.pcs[b], startpc)
                    && pcs_without_endingpc == l.pcs[b..inst_idx]
                  else b == inst_idx == |l.insts|
        invariant Indexed(l, inst_idx, pc2idx, serialinsts) && TargetsOf(l, inst_idx, anotherpcs)
        invariant Ending(pc2endingpc, l, b) && Recorded(l, b, Bbvset)
        decreases |l.insts| - inst_idx
      {
        ghost var i := inst_idx;
        NewIndex(l, i, pc2idx, serialinsts);
        NewTarget(l, i, anotherpcs);
        var inst := code(pc);
        pc2idx := pc2idx[Rel(pc, startpc) := inst_idx];
        serialinsts := serialinsts + [inst];
        inst_idx := inst_idx + 1;
        var is_branch_or_barrier := false;
        if inst.sopp {
          if inst.opcode == 1 {
            continue_execute := false;
          } else if inst.opcode == 2 || 4 <= inst.opcode <= 10 {
            is_branch_or_barrier := true;
          }
        }
        if is_branch_or_barrier || !continue_execute {
          BlockEnds(l, b, i, Bbvset);
          NewEntry(l, b, old(Bbvset), Bbvset);
          Bbvset := Bbvset[BBL(bbstartpc, |pcs_without_endingpc| + 1) := 1];
          pc2endingpc := CloseBlock(pc2endingpc, pcs_without_endingpc, pc, l, b, i);
          b := inst_idx;
          if continue_execute {
            anotherpcs := anotherpcs + [Target(pc, inst)];
            pc := NextPC(pc, inst);
            pcs_without_endingpc := [];
          }
        } else {
          pcs_without_endingpc := pcs_without_endingpc + [pc];
          pc := NextPC(pc, inst);
        }
        if is_branch_or_barrier {
          bbstartpc := Rel(pc, startpc);
        }
      }
    }

    /** Second loop: the blocks at the targets of branches and barriers. */
    method AddTargets(startpc: int, pc2endingpc: map<int, int>, anotherpcs: seq<int>, ghost l: Listing)
      requires l.Valid() && startpc == l.pcs[0]
      requires Ending(pc2endingpc, l, |l.insts|) && TargetsOf(l, |l.insts|, anotherpcs)
      modifies `Bbvset
      ensures Grown(l, old(Bbvset), Bbvset)
      ensures forall pc | pc in anotherpcs :: BBL(Rel(pc, l.pcs[0]), Lookup(pc2endingpc, pc)) in Bbvset
    {
      hide Listing.BlockEnd, Listing.Records, Listing.BlockAt, Ending, TargetsOf, Rel, Lookup;
      for x := 0 to |anotherpcs|
        invariant Grown(l, old(Bbvset), Bbvset)
        invariant forall pc | pc in anotherpcs[..x] :: BBL(Rel(pc, l.pcs[0]), Lookup(pc2endingpc, pc)) in Bbvset
      {
        var pc := anotherpcs[x];
        var another_bbv := BBL(Rel(pc, startpc), Lookup(pc2endingpc, pc));
        TargetBlock(pc, pc2endingpc, anotherpcs, l);
        Bbvset := Bbvset[another_bbv := 1];
      }
      assert anotherpcs[..|anotherpcs|] == anotherpcs;
    }

    static lemma TargetBlock(pc: int, pc2endingpc: map<int, int>, anotherpcs: seq<int>, l: Listing)
      requires l.Valid() && Ending(pc2endingpc, l, |l.insts|)
      requires TargetsOf(l, |l.insts|, anotherpcs) && pc in anotherpcs
      ensures l.Records(BBL(Rel(pc, l.pcs[0]), Lookup(pc2endingpc, pc)))
    {
      hide Listing.BlockEnd, Listing.BlockAt, Listing.Outside, Ending, Rel, Target;
      if k: nat :| k < |l.pcs| && l.pcs[k] == pc {
        InsideTarget(k, pc2endingpc, l);
        assert l.Leader(k);
      } else {
        OutsideTarget(pc, pc2endingpc, anotherpcs, l);
      }
    }

    static lemma InsideTarget(k: nat, pc2endingpc: map<int, int>, l: Listing)
      requires l.Valid() && Ending(pc2endingpc, l, |l.insts|) && k < |l.pcs|
      ensures BBL(Rel(l.pcs[k], l.pcs[0]), Lookup(pc2endingpc, l.pcs[k])) == l.BlockAt(k)
    {
      hide Listing.BlockEnd, Rel;
    }

    static lemma OutsideTarget(pc: int, pc2endingpc: map<int, int>, anotherpcs: seq<int>, l: Listing)
      requires l.Valid() && Ending(pc2endingpc, l, |l.insts|)
      requires TargetsOf(l, |l.insts|, anotherpcs) && pc in anotherpcs && pc !in l.pcs
      ensures Lookup(pc2endingpc, pc) == 0 && l.Outside(BBL(Rel(pc, l.pcs[0]), 0))
    {
      hide Listing.BlockEnd, Rel, Target;
      assert l.pcs[..|l.pcs|] == l.pcs;
      assert pc !in pc2endingpc;
    }

    /** Third loop: the instructions of every block that has no list yet. */
    method InitInsts(pc2idx: map<int, int>, serialinsts: seq<Inst>, ghost l: Listing)
      requires l.Valid() && Indexed(l, |l.insts|, pc2idx, serialinsts)
      requires Bbv2insts.Keys <= Bbvset.Keys && forall b | b in Bbvset && b !in Bbv2insts :: l.Records(b)
      modifies `Bbv2insts
      ensures Valid()
      ensures forall b | b in old(Bbv2insts) :: Bbv2insts[b] == old(Bbv2insts)[b]
      ensures forall b | b in Bbv2insts && b !in old(Bbv2insts) :: l.RightInsts(b, Bbv2insts[b])
    {
      hide Listing.BlockEnd, Listing.Records, Listing.RightInsts;
      var todo := Bbvset.Keys;
      while todo != {}
        invariant todo <= Bbvset.Keys && Bbv2insts.Keys <= Bbvset.Keys
        invariant forall b | b in Bbvset && b !in todo :: b in Bbv2insts
        invariant forall b | b in old(Bbv2insts) :: b in Bbv2insts && Bbv2insts[b] == old(Bbv2insts)[b]
        invariant forall b | b in Bbv2insts && b !in old(Bbv2insts) :: l.RightInsts(b, Bbv2insts[b])
      {
        var bbl :| bbl in todo;
        todo := todo - {bbl};
        if bbl !in Bbv2insts {
          var idx := Lookup(pc2idx, bbl.PC);
          assert serialinsts == l.insts;
          SliceFits(bbl, idx, l);
          Bbv2insts := Bbv2insts[bbl := serialinsts[idx..idx + bbl.InsNum]];
        }
      }
    }

    static lemma SliceFits(bbl: BBL, idx: int, l: Listing)
      requires l.Valid() && l.Records(bbl) && 0 <= idx < |l.pcs|
      requires forall k | 0 <= k < |l.pcs| && Rel(l.pcs[k], l.pcs[0]) == bbl.PC :: idx == k
      ensures 0 <= idx + bbl.InsNum <= |l.insts| && bbl.InsNum >= 0
      ensures l.RightInsts(bbl, l.insts[idx..idx + bbl.InsNum])
    {
      hide Listing.BlockEnd;
    }

    /**
     The sweep adds exactly the kernel's blocks to whatever the tables hold, and the lists of the
     blocks that are new.
     */
    method AnalysisWfUntilEnd(code: Code, startpc: int, ghost l: Listing)
      requires Valid() && l.Of(code, startpc)
      modifies this
      ensures Valid() && Analysed(l, old(Bbv2insts), Bbv2insts) && Covers(l)
    {
      hide Listing.BlockEnd, Listing.Entry, Listing.Outside, Listing.RightInsts, Listing.BlockAt;
      hide Ending, Indexed, TargetsOf, Recorded, Rel, Target, Lookup;
      ghost var before := Bbvset;
      var pc2endingpc, pc2idx, serialinsts, anotherpcs := Sweep(code, startpc, l);
      ghost var swept := Bbvset;
      AddTargets(startpc, pc2endingpc, anotherpcs, l);
      AllRecorded(l, swept, pc2endingpc, anotherpcs, Bbvset);
      InitInsts(pc2idx, serialinsts, l);
    }

    /** GetBBLInsts: a caller that asks for a block of the analysed kernels does not meet the panic. */
    method GetBBLInsts(bbl: BBL) returns (res: seq<Inst>)
      requires bbl in Bbv2insts
      ensures res == Bbv2insts[bbl]
    {
      res := Bbv2insts[bbl];
    }
  }

  // ---------------------------------------------------------------------------------------
  // Kernels analysed one after another, without a Reset
  // ---------------------------------------------------------------------------------------

  /** The tables already hold another list under the key of one of the kernel's blocks. */
  ghost predicate Conflict(l: Listing, before: map<BBL, seq<Inst>>)
    requires l.Valid()
  {
    exists k: nat :: l.Leader(k) && l.BlockAt(k) in before && before[l.BlockAt(k)] != l.BlockInsts(k)
  }

  /** A block of the kernel has its own instructions unless another list stood under its key. */
  lemma ListIsRight(l: Listing, before: map<BBL, seq<Inst>>, after: map<BBL, seq<Inst>>, k: nat)
    requires l.Valid() && Analysed(l, before, after) && l.Leader(k)
    ensures l.BlockAt(k) in after
    ensures after[l.BlockAt(k)] == l.BlockInsts(k) <==>
              (l.BlockAt(k) in before ==> before[l.BlockAt(k)] == l.BlockInsts(k))
  {
    hide Listing.Leader, Listing.BlockAt, Listing.BlockInsts, Listing.Valid;
    assert l.Records(l.BlockAt(k));
  }

  /** All lists are the kernel's own if and only if the tables held no other list under a key of it. */
  lemma AllListsRight(l: Listing, before: map<BBL, seq<Inst>>, after: map<BBL, seq<Inst>>)
    requires l.Valid() && Analysed(l, before, after)
    ensures forall k: nat | l.Leader(k) :: l.BlockAt(k) in after
    ensures (forall k: nat | l.Leader(k) :: after[l.BlockAt(k)] == l.BlockInsts(k)) <==> !Conflict(l, before)
  {
    hide Listing.Leader, Listing.BlockAt, Listing.BlockInsts, Listing.Valid, Analysed;
    forall k: nat | l.Leader(k)
      ensures l.BlockAt(k) in after
      ensures after[l.BlockAt(k)] == l.BlockInsts(k) <==>
                (l.BlockAt(k) in before ==> before[l.BlockAt(k)] == l.BlockInsts(k))
    {
      ListIsRight(l, before, after, k);
    }
  }

  /**
   After a Reset and one kernel, a second kernel gets a wrong list if and only if the two kernels
   have entry points at the same distance, whose blocks are equally long but not the same.
   */
  lemma SecondKernel(first: Listing, second: Listing, table: map<BBL, seq<Inst>>)
    requires first.Valid() && second.Valid() && Analysed(first, map[], table)
    ensures Conflict(second, table) <==>
            exists j: nat, k: nat :: first.Leader(j) && second.Leader(k)
              && first.BlockAt(j) == second.BlockAt(k) && first.BlockInsts(j) != second.BlockInsts(k)
  {
    hide Listing.Leader, Listing.BlockInsts, Listing.Valid, Listing.BlockEnd, Rel;
    forall j: nat | first.Leader(j)
      ensures first.BlockAt(j) in table && table[first.BlockAt(j)] == first.BlockInsts(j)
    {
      ListIsRight(first, map[], table, j);
    }
    if Conflict(second, table) {
      var k: nat :| second.Leader(k) && second.BlockAt(k) in table
                    && table[second.BlockAt(k)] != second.BlockInsts(k);
      assert first.Records(second.BlockAt(k)) && second.BlockAt(k).InsNum > 0;
      var j: nat :| first.Leader(j) && second.BlockAt(k) == first.BlockAt(j);
    }
  }

  // ---------------------------------------------------------------------------------------
  // A loop
  // ---------------------------------------------------------------------------------------

  /** s_cbranch_scc1 back over two words */
  const S_BACK := Inst(true, 5, 4, 0xFFFE)

  /** `s_nop; L: s_nop; s_cbranch_scc1 L; s_endpgm`: the loop's body is a block of two instructions. */
  lemma LoopRecorded(code: Code, l: Listing, before: map<BBL, seq<Inst>>, after: map<BBL, seq<Inst>>)
    requires l.Of(code, 0) && l.pcs == [0, 4, 8, 12] && l.insts == [S_NOP, S_NOP, S_BACK, S_ENDPGM]
    requires Analysed(l, before, after)
    ensures BBL(0, 3) in after && BBL(4, 2) in after && BBL(12, 1) in after
    ensures forall b | b in after && b !in before :: b == BBL(0, 3) || b == BBL(4, 2) || b == BBL(12, 1)
  {
    BranchDistance(8, S_BACK, 12);
    l.BlockEndIs(0, 2);
    l.BlockEndIs(1, 2);
    l.BlockEndIs(3, 3);
    assert l.Other(2) == l.pcs[1] && l.Leader(0) && l.Leader(1) && l.Leader(3);
    assert l.Entry(l.BlockAt(0)) && l.Entry(l.BlockAt(1)) && l.Entry(l.BlockAt(3));
    OnlyLoopBlocks(code, l);
  }

  lemma OnlyLoopBlocks(code: Code, l: Listing)
    requires l.Of(code, 0) && l.pcs == [0, 4, 8, 12] && l.insts == [S_NOP, S_NOP, S_BACK, S_ENDPGM]
    ensures forall b | l.Records(b) :: b == BBL(0, 3) || b == BBL(4, 2) || b == BBL(12, 1)
  {
    BranchDistance(8, S_BACK, 12);
    l.BlockEndIs(0, 2);
    l.BlockEndIs(1, 2);
    l.BlockEndIs(3, 3);
    assert l.Other(2) == 4 && !l.Leader(2);
    assert forall j | 0 <= j < 4 && IsCut(l.insts[j]) :: j == 2;
  }

  /** s_nop, s_waitcnt and s_endpgm */
  const S_NOP := Inst(true, 0, 4, 0)
  const S_WAITCNT := Inst(true, 12, 4, 0)
  const S_ENDPGM := Inst(true, 1, 4, 0)

  /** A kernel of one instruction and s_endpgm. */
  function ShortKernel(start: int, inst: Inst): Listing {
    Listing([start, NextPC(start, inst)], [inst, S_ENDPGM])
  }

  lemma ShortKernelIs(code: Code, start: int, inst: Inst)
    requires !IsCut(inst) && !IsEnd(inst) && code(start) == inst && code(NextPC(start, inst)) == S_ENDPGM
    requires 0 <= start && NextPC(start, inst) < UINT64
    ensures var l := ShortKernel(start, inst);
            l.Of(code, start) && l.Leader(0) && l.BlockAt(0) == BBL(0, 2) && l.BlockInsts(0) == [inst, S_ENDPGM]
  {
    var l := ShortKernel(start, inst);
    assert l.Of(code, start);
    l.BlockEndIs(0, 1);
  }

  /** Two kernels analysed without a Reset: the second one's block is answered with the first one's list. */
  method SecondKernelMisread() returns (cu: StaticComputeUnit, list: seq<Inst>, ghost second: Listing)
    ensures second.Valid() && second.Leader(0) && second.BlockInsts(0) == [S_WAITCNT, S_ENDPGM]
    ensures second.BlockAt(0) in cu.Bbv2insts && cu.Bbv2insts[second.BlockAt(0)] == list == [S_NOP, S_ENDPGM]
  {
    hide Listing.Of, Listing.BlockAt, Listing.BlockInsts, Listing.Leader, ShortKernel, Listing.Records;
    var code: Code := pc => if pc == 0 then S_NOP else if pc == 0x1000 then S_WAITCNT else S_ENDPGM;
    ghost var first := ShortKernel(0, S_NOP);
    second := ShortKernel(0x1000, S_WAITCNT);
    ShortKernelIs(code, 0, S_NOP);
    ShortKernelIs(code, 0x1000, S_WAITCNT);
    cu := new StaticComputeUnit();
    cu.AnalysisWfUntilEnd(code, 0, first);
    ListIsRight(first, map[], cu.Bbv2insts, 0);
    cu.AnalysisWfUntilEnd(code, 0x1000, second);
    list := cu.GetBBLInsts(BBL(0, 2));
  }
}
