/**
 When the static sweep finds every block: as long as a wavefront's run stays at swept addresses,
 whatever the branches decide, it only ever enters a block where the sweep has recorded one.
 */
module BlockCoverage {
  import opened Arithmetic
  import opened Instructions
  import opened BlockTrace
  import opened StaticFeature

  /** `pc` may be executed after `f` (emu/alu.go: only branches change the PC). */
  predicate Follows(f: Fetch, pc: int) {
    if !IsBranch(f.inst) then pc == NextPC(f.pc, f.inst)
    else pc == Target(f.pc, f.inst) || (f.inst.opcode != 2 && pc == NextPC(f.pc, f.inst))
  }

  /** A run of the kernel at `start`, up to some instruction. */
  ghost predicate Run(code: Code, start: int, trace: seq<Fetch>) {
    && (|trace| > 0 ==> trace[0].pc == start)
    && (forall i | 0 <= i < |trace| :: trace[i].inst == code(trace[i].pc))
    && (forall i | 0 <= i < |trace| - 1 :: !IsEnd(trace[i].inst) && Follows(trace[i], trace[i + 1].pc))
  }

  /** Where a run goes on after its i-th instruction, if `pc` is where it goes on after the last. */
  function GoesOn(trace: seq<Fetch>, pc: int, i: nat): int
    requires i < |trace|
  {
    if i + 1 < |trace| then trace[i + 1].pc else pc
  }

  /**
   The branches of a run, the n-th of them as outcome n says: an s_branch goes to its target, a
   conditional branch does so if its outcome is true, else it falls through.
   */
  ghost predicate Decided(trace: seq<Fetch>, pc: int, outcomes: seq<bool>) {
    forall i: nat | i < |trace| && IsBranch(trace[i].inst) ::
      && Branches(trace[..i]) < |outcomes|
      && GoesOn(trace, pc, i) == if trace[i].inst.opcode == 2 || outcomes[Branches(trace[..i])]
                                 then Target(trace[i].pc, trace[i].inst) else NextPC(trace[i].pc, trace[i].inst)
  }

  lemma DecidedNext(trace: seq<Fetch>, f: Fetch, pc: int, outcomes: seq<bool>)
    requires Decided(trace, f.pc, outcomes)
    requires IsBranch(f.inst) ==>
               && Branches(trace) < |outcomes|
               && pc == if f.inst.opcode == 2 || outcomes[Branches(trace)] then Target(f.pc, f.inst)
                        else NextPC(f.pc, f.inst)
    ensures Decided(trace + [f], pc, outcomes)
  {
    hide Target, NextPC, IsBranch, Branches;
    var t := trace + [f];
    forall i: nat | i < |t|
      ensures t[..i] == trace[..i] && (i < |trace| ==> GoesOn(t, pc, i) == GoesOn(trace, f.pc, i))
    {}
  }

  lemma NothingDecided(pc: int, outcomes: seq<bool>)
    ensures Decided([], pc, outcomes)
  {}

  /** The outcomes decide the run: of two runs of a kernel with the same outcomes, one begins with the other. */
  lemma {:induction false} OneRun(code: Code, start: int, t: seq<Fetch>, p: int, u: seq<Fetch>, q: int,
                                  outcomes: seq<bool>, n: nat)
    requires Run(code, start, t) && Run(code, start, u) && Decided(t, p, outcomes) && Decided(u, q, outcomes)
    requires n <= |t| && n <= |u|
    ensures t[..n] == u[..n]
  {
    hide Target, NextPC, IsBranch, Branches;
    if n > 0 {
      OneRun(code, start, t, p, u, q, outcomes, n - 1);
      assert t[..n - 1] == u[..n - 1];
      if n > 1 {
        assert t[n - 2] == t[..n - 1][n - 2] == u[n - 2];
        assert t[..n - 2] == t[..n - 1][..n - 2] == u[..n - 2];
        assert GoesOn(t, p, n - 2) == t[n - 1].pc && GoesOn(u, q, n - 2) == u[n - 1].pc;
        assert Follows(t[n - 2], t[n - 1].pc) && Follows(u[n - 2], u[n - 1].pc);
      }
      assert t[n - 1] == u[n - 1];
    }
  }

  /** So a complete run is the only one its outcomes lead to. */
  lemma OneCompleteRun(code: Code, start: int, t: seq<Fetch>, p: int, u: seq<Fetch>, q: int, outcomes: seq<bool>)
    requires Run(code, start, t) && Run(code, start, u) && Decided(t, p, outcomes) && Decided(u, q, outcomes)
    requires Complete(t) && |t| <= |u|
    ensures t == u
  {
    hide Decided, Follows;
    OneRun(code, start, t, p, u, q, outcomes, |t|);
    assert t[..|t|] == t;
    assert u[..|t|][|t| - 1] == u[|t| - 1];
    assert u[..|u|] == u;
  }

  /** The run stays at instructions of the listing. */
  ghost predicate Within(l: Listing, trace: seq<Fetch>) {
    forall i | 0 <= i < |trace| :: trace[i].pc in l.pcs
  }

  /** Every branch of the kernel goes to an instruction of the kernel. */
  ghost predicate BranchesInside(l: Listing) {
    |l.pcs| == |l.insts| && forall k | 0 <= k < |l.insts| && IsBranch(l.insts[k]) :: l.Other(k) in l.pcs
  }

  /** Instruction `i` of a run lies in the block that begins at listing index `k`. */
  ghost predicate InBlock(l: Listing, trace: seq<Fetch>, i: nat, k: nat)
    requires l.Valid() && i < |trace|
  {
    var o := OpenStart(trace, i);
    && l.Leader(k) && k + (i - o) < |l.insts|
    && forall x | o <= x <= i :: trace[x].pc == l.pcs[k + (x - o)] && trace[x].inst == l.insts[k + (x - o)]
  }

  lemma {:induction false} Position(code: Code, start: int, l: Listing, trace: seq<Fetch>, i: nat) returns (k: nat)
    requires l.Of(code, start) && Run(code, start, trace) && Within(l, trace) && i < |trace|
    ensures InBlock(l, trace, i, k)
  {
    if i == 0 {
      k := 0;
    } else {
      var k0 := Position(code, start, l, trace, i - 1);
      k := Advance(code, start, l, trace, i, k0);
    }
  }

  lemma Advance(code: Code, start: int, l: Listing, trace: seq<Fetch>, i: nat, k0: nat) returns (k: nat)
    requires l.Of(code, start) && Run(code, start, trace) && Within(l, trace) && 0 < i < |trace|
    requires InBlock(l, trace, i - 1, k0)
    ensures InBlock(l, trace, i, k)
  {
    hide Listing.Leader, OpenStart, Target;
    var o := OpenStart(trace, i - 1);
    var j := k0 + (i - 1 - o);
    assert trace[i - 1].pc == l.pcs[j] && trace[i - 1].inst == l.insts[j];
    assert !IsEnd(trace[i - 1].inst) && Follows(trace[i - 1], trace[i].pc);
    k := Entered(l, trace[i - 1], j, trace[i].pc);
    NextPosition(code, start, l, trace, i, k0, k);
    if !IsCut(trace[i - 1].inst) { k := k0; }
  }

  /** Where the listing stands after instruction `j`. */
  lemma Entered(l: Listing, f: Fetch, j: nat, pc: int) returns (k: nat)
    requires l.Valid() && j < |l.insts| - 1 && pc in l.pcs
    requires forall x | 0 <= x < |l.pcs| - 1 :: l.pcs[x + 1] == NextPC(l.pcs[x], l.insts[x])
    requires f.pc == l.pcs[j] && f.inst == l.insts[j] && Follows(f, pc)
    ensures k < |l.insts| && l.pcs[k] == pc
    ensures IsCut(f.inst) ==> l.Leader(k)
    ensures !IsCut(f.inst) ==> k == j + 1
  {
    if pc == NextPC(f.pc, f.inst) {
      k := j + 1;
    } else {
      k :| 0 <= k < |l.pcs| && l.pcs[k] == pc;
    }
  }

  lemma NextPosition(code: Code, start: int, l: Listing, trace: seq<Fetch>, i: nat, k0: nat, k: nat)
    requires l.Of(code, start) && Run(code, start, trace) && 0 < i < |trace|
    requires InBlock(l, trace, i - 1, k0) && !IsEnd(trace[i - 1].inst)
    requires k < |l.insts| && l.pcs[k] == trace[i].pc
    requires if IsCut(trace[i - 1].inst) then l.Leader(k) else k == k0 + (i - OpenStart(trace, i - 1))
    ensures InBlock(l, trace, i, if IsCut(trace[i - 1].inst) then k else k0)
  {
    hide Listing.Leader;
  }

  /**
   Every block of a run, whatever its branch outcomes, is the block of an entry point of the
   kernel, and the instructions executed in it are the instructions listed for it.
   */
  lemma RunBlocksKnown(code: Code, start: int, l: Listing, trace: seq<Fetch>, b: BBL, first: nat, e: nat)
    returns (k: nat)
    requires l.Of(code, start) && Run(code, start, trace) && Within(l, trace)
    requires IsBlockAt(trace, b, first, e)
    ensures l.Leader(k) && b == l.BlockAt(k)
    ensures l.BlockInsts(k) == seq(e - first, x requires 0 <= x < e - first => trace[first + x].inst)
  {
    hide Listing.Leader, Listing.Valid, Listing.BlockEnd, Listing.BlockAt, Within, OpenStart, Rel, Target;
    k := Position(code, start, l, trace, e - 1);
    StartOfBlock(trace, first, e);
    assert forall x | first <= x < e ::
        trace[x].pc == l.pcs[k + (x - first)] && trace[x].inst == l.insts[k + (x - first)];
    StretchIsBlock(l, trace, first, e, k);
  }

  lemma StretchIsBlock(l: Listing, trace: seq<Fetch>, first: nat, e: nat, k: nat)
    requires l.Valid() && first < e <= |trace| && k + (e - first) <= |l.insts|
    requires forall x | first <= x < e ::
               trace[x].pc == l.pcs[k + (x - first)] && trace[x].inst == l.insts[k + (x - first)]
    requires trace[0].pc == l.pcs[0]
    requires Cuts(trace[e - 1]) && forall j | first <= j < e - 1 :: !Cuts(trace[j])
    ensures BlockOf(trace, first, e) == l.BlockAt(k)
    ensures l.BlockInsts(k) == seq(e - first, x requires 0 <= x < e - first => trace[first + x].inst)
  {
    hide Listing.BlockEnd, Rel;
    var last := k + (e - 1 - first);
    assert trace[e - 1].inst == l.insts[last];
    forall j | k <= j < last ensures !IsCut(l.insts[j]) {
      assert trace[first + (j - k)].inst == l.insts[j];
    }
    l.BlockEndIs(k, last);
  }

  lemma StartOfBlock(trace: seq<Fetch>, first: nat, e: nat)
    requires first < e <= |trace| && (first == 0 || Cuts(trace[first - 1]))
    requires forall j | first <= j < e - 1 :: !Cuts(trace[j])
    ensures OpenStart(trace, e - 1) == first
  {}

  /**
   After an analysis, whatever the tables held before, GetBBLInsts finds every block of a run. It
   returns exactly what was executed unless another list stood under the block's key.
   */
  lemma LookupSucceeds(code: Code, start: int, l: Listing, trace: seq<Fetch>, b: BBL, first: nat, e: nat,
                       before: map<BBL, seq<Inst>>, after: map<BBL, seq<Inst>>)
    requires l.Of(code, start) && Run(code, start, trace) && Within(l, trace)
    requires Analysed(l, before, after) && IsBlockAt(trace, b, first, e)
    ensures b in after
    ensures var executed := seq(e - first, x requires 0 <= x < e - first => trace[first + x].inst);
            after[b] == executed <==> (b in before ==> before[b] == executed)
  {
    hide Listing.Of, Listing.Leader, Listing.BlockAt, Listing.BlockInsts, Analysed, Run, Within, IsBlockAt;
    var k := RunBlocksKnown(code, start, l, trace, b, first, e);
    ListIsRight(l, before, after, k);
  }

  /** A block that begins outside the listing is not one of the kernel's. */
  lemma OutsideUnknown(l: Listing, trace: seq<Fetch>, b: BBL, first: nat, e: nat)
    requires l.Valid() && IsBlockAt(trace, b, first, e) && trace[0].pc == l.pcs[0]
    requires trace[first].pc !in l.pcs && 0 <= trace[first].pc < UINT64
    ensures !l.Records(b)
  {
    hide Listing.Leader, Listing.BlockEnd, Rel;
    if k: nat :| l.Leader(k) && b == l.BlockAt(k) {
      RelInjective(trace[first].pc, l.pcs[k], l.pcs[0]);
    }
  }

  /** A run leaves the listing only at a branch, that is, at the beginning of a block. */
  lemma {:induction false} LeavesAtBranch(code: Code, start: int, l: Listing, trace: seq<Fetch>, i: nat)
    requires l.Of(code, start) && Run(code, start, trace) && i < |trace|
    requires Within(l, trace[..i]) && trace[i].pc !in l.pcs
    ensures i > 0 && IsCut(trace[i - 1].inst) && 0 <= trace[i].pc < UINT64
  {
    if i > 0 {
      var f := trace[..i][i - 1];
      assert f == trace[i - 1] && f.pc in l.pcs;
      var j :| 0 <= j < |l.pcs| && l.pcs[j] == f.pc;
      assert f.inst == l.insts[j] && Follows(f, trace[i].pc);
      assert j < |l.pcs| - 1 && l.pcs[j + 1] == NextPC(f.pc, f.inst);
    }
  }

  /**
   All blocks of a run are the kernel's if and only if every instruction of the run is in the
   listing. The run ends where a block ends, as a complete one does.
   */
  lemma FoundIffWithin(code: Code, start: int, l: Listing, trace: seq<Fetch>)
    requires l.Of(code, start) && Run(code, start, trace) && |trace| > 0 && Cuts(trace[|trace| - 1])
    ensures (forall b | b in Blocks(trace) :: l.Records(b)) <==> Within(l, trace)
  {
    hide Listing.Of, Listing.Records, Run, Blocks, Cuts;
    if Within(l, trace) {
      forall b | b in Blocks(trace) ensures l.Records(b) {
        var first, e := InTrace(trace, b);
        var k := RunBlocksKnown(code, start, l, trace, b, first, e);
        LeaderRecorded(l, k);
      }
    } else {
      var b := FirstOutside(code, start, l, trace);
    }
  }

  /** So with tables that were empty, GetBBLInsts finds all blocks of a run under the same condition. */
  lemma FoundIffWithinTables(code: Code, start: int, l: Listing, trace: seq<Fetch>, after: map<BBL, seq<Inst>>)
    requires l.Of(code, start) && Run(code, start, trace) && |trace| > 0 && Cuts(trace[|trace| - 1])
    requires Analysed(l, map[], after)
    ensures (forall b | b in Blocks(trace) :: b in after) <==> Within(l, trace)
  {
    hide Listing.Of, Listing.Records, Run, Blocks, Cuts, Within;
    FoundIffWithin(code, start, l, trace);
  }

  lemma LeaderRecorded(l: Listing, k: nat)
    requires l.Valid() && l.Leader(k)
    ensures l.Records(l.BlockAt(k))
  {
    hide Listing.Leader, Listing.BlockAt, Listing.Valid, Listing.Outside;
    assert l.Entry(l.BlockAt(k));
  }

  lemma InTrace(trace: seq<Fetch>, b: BBL) returns (first: nat, e: nat)
    requires b in Blocks(trace)
    ensures IsBlockAt(trace, b, first, e)
  {
    hide Closed, IsBlockAt;
    var x :| 0 <= x < |Blocks(trace)| && Blocks(trace)[x] == b;
    ClosedAreBlocks(trace, |trace|, x);
    first, e :| IsBlockAt(trace, Closed(trace, |trace|)[x], first, e) && e <= |trace|;
  }

  /** The first block of a run that begins outside the listing. */
  lemma FirstOutside(code: Code, start: int, l: Listing, trace: seq<Fetch>) returns (b: BBL)
    requires l.Of(code, start) && Run(code, start, trace) && |trace| > 0 && Cuts(trace[|trace| - 1])
    requires !Within(l, trace)
    ensures b in Blocks(trace) && !l.Records(b)
  {
    hide Listing.Records, Listing.Valid, Follows, IsEnd, Closed;
    var i := FirstSuch(l, trace);
    LeavesAtBranch(code, start, l, trace, i);
    var e := NextCut(trace, i);
    b := BlockOf(trace, i, e);
    BlocksHave(trace, i, e);
    OutsideUnknown(l, trace, b, i, e);
  }

  lemma {:induction false} FirstSuch(l: Listing, trace: seq<Fetch>) returns (i: nat)
    requires !Within(l, trace)
    ensures i < |trace| && trace[i].pc !in l.pcs && Within(l, trace[..i])
  {
    var t := trace[..|trace| - 1];
    if Within(l, t) {
      i := |trace| - 1;
      assert forall j | 0 <= j < |t| :: trace[j] == t[j];
    } else {
      i := FirstSuch(l, t);
      assert t[..i] == trace[..i];
    }
  }

  /** Where the block that begins at `i` ends. */
  lemma NextCut(trace: seq<Fetch>, i: nat) returns (e: nat)
    requires i < |trace| && Cuts(trace[|trace| - 1])
    ensures i < e <= |trace| && Cuts(trace[e - 1]) && forall j | i <= j < e - 1 :: !Cuts(trace[j])
    decreases |trace| - i
  {
    if Cuts(trace[i]) { e := i + 1; } else { e := NextCut(trace, i + 1); }
  }

  /** Every stretch between two cuts is one of the blocks. */
  lemma BlocksHave(trace: seq<Fetch>, first: nat, e: nat)
    requires first < e <= |trace| && (first == 0 || Cuts(trace[first - 1])) && Cuts(trace[e - 1])
    requires forall j | first <= j < e - 1 :: !Cuts(trace[j])
    ensures BlockOf(trace, first, e) in Blocks(trace)
    ensures IsBlockAt(trace, BlockOf(trace, first, e), first, e)
  {
    StartOfBlock(trace, first, e);
    ClosedGrows(trace, e, |trace|);
    var c := Closed(trace, e);
    assert c[|c| - 1] == BlockOf(trace, first, e);
    assert Blocks(trace)[|c| - 1] == c[|c| - 1];
  }

  /** If every branch goes to an instruction of the kernel, every run stays in the listing. */
  lemma {:induction false} BranchesKeepWithin(code: Code, start: int, l: Listing, trace: seq<Fetch>)
    requires l.Of(code, start) && BranchesInside(l) && Run(code, start, trace)
    ensures Within(l, trace)
  {
    if |trace| > 0 {
      var t := trace[..|trace| - 1];
      assert Run(code, start, t);
      BranchesKeepWithin(code, start, l, t);
      StaysAfter(code, start, l, trace);
      assert forall i | 0 <= i < |t| :: trace[i] == t[i];
    }
  }

  /** After a listed instruction the PC is listed too. */
  lemma StaysInside(code: Code, start: int, l: Listing, at: nat, pc: int)
    requires l.Of(code, start) && BranchesInside(l) && at < |l.insts| - 1
    requires Follows(Fetch(l.pcs[at], l.insts[at]), pc)
    ensures pc in l.pcs
  {
    hide Target;
    assert pc == l.pcs[at + 1] || l.Other(at) in l.pcs;
  }

  lemma StaysAfter(code: Code, start: int, l: Listing, trace: seq<Fetch>)
    requires l.Of(code, start) && BranchesInside(l) && Run(code, start, trace)
    requires |trace| > 0 && Within(l, trace[..|trace| - 1])
    ensures trace[|trace| - 1].pc in l.pcs
  {
    var i := |trace| - 1;
    if i > 0 {
      var f := trace[..i][i - 1];
      assert f == trace[i - 1] && f.pc in l.pcs;
      var j :| 0 <= j < |l.pcs| && l.pcs[j] == f.pc;
      assert f.inst == l.insts[j] && Follows(f, trace[i].pc);
      StaysInside(code, start, l, j, trace[i].pc);
    }
  }

  // ---------------------------------------------------------------------------------------
  // A run that leaves the listing
  // ---------------------------------------------------------------------------------------

  /** s_branch over ten words, from 0 to 44 */
  const S_BRANCH_OUT := Inst(true, 2, 4, 10)

  /** A kernel that is `s_branch; s_endpgm`, and an s_endpgm at 44, beyond it. */
  lemma BranchesOut() returns (code: Code, l: Listing, trace: seq<Fetch>)
    ensures l.Of(code, 0) && Run(code, 0, trace) && Complete(trace)
    ensures Blocks(trace) == [BBL(0, 1), BBL(44, 1)] && !l.Records(BBL(44, 1))
    ensures forall after | Analysed(l, map[], after) :: BBL(44, 1) !in after
  {
    code := pc => if pc == 0 then S_BRANCH_OUT else S_ENDPGM;
    l := Listing([0, 4], [S_BRANCH_OUT, S_ENDPGM]);
    assert l.Decoded(code, 0) && l.Of(code, 0);
    trace := [Fetch(0, S_BRANCH_OUT), Fetch(44, S_ENDPGM)];
    assert Target(0, S_BRANCH_OUT) == 44;
    assert Run(code, 0, trace);
    TwoBlocks(trace);
    assert IsBlockAt(trace, BBL(44, 1), 1, 2);
    assert trace[1].pc !in l.pcs;
    OutsideUnknown(l, trace, BBL(44, 1), 1, 2);
  }

  lemma TwoBlocks(trace: seq<Fetch>)
    requires trace == [Fetch(0, S_BRANCH_OUT), Fetch(44, S_ENDPGM)]
    ensures Blocks(trace) == [BBL(0, 1), BBL(44, 1)]
  {
    assert Closed(trace, 0) == [];
    assert Closed(trace, 1) == [BBL(0, 1)];
    assert Closed(trace, 2) == [BBL(0, 1)] + [BBL(44, 1)];
  }
}
