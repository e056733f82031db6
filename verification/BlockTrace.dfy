/**
 The reference splitter: an instruction trace is cut after every branch, every barrier and
 the final s_endpgm.
 */
module BlockTrace {
  import opened Instructions

  predicate Cuts(f: Fetch) {
    IsCut(f.inst) || IsEnd(f.inst)
  }

  /** Where the block that is open after the first `i` instructions begins. */
  function OpenStart(trace: seq<Fetch>, i: nat): (l: nat)
    requires i <= |trace|
    ensures l <= i
    ensures l == 0 || Cuts(trace[l - 1])
    ensures forall j | l <= j < i :: !Cuts(trace[j])
  {
    if i == 0 || Cuts(trace[i - 1]) then i else OpenStart(trace, i - 1)
  }

  function BlockOf(trace: seq<Fetch>, l: nat, e: nat): BBL
    requires l < e <= |trace|
  {
    BBL(Rel(trace[l].pc, trace[0].pc), e - l)
  }

  /** The blocks whose last instruction is among the first `i`. */
  function Closed(trace: seq<Fetch>, i: nat): seq<BBL>
    requires i <= |trace|
  {
    if i == 0 then []
    else if Cuts(trace[i - 1]) then Closed(trace, i - 1) + [BlockOf(trace, OpenStart(trace, i - 1), i)]
    else Closed(trace, i - 1)
  }

  function Blocks(trace: seq<Fetch>): seq<BBL> {
    Closed(trace, |trace|)
  }

  /** A complete run of a wavefront: s_endpgm comes last and only last. */
  predicate Complete(trace: seq<Fetch>) {
    |trace| > 0 && IsEnd(trace[|trace| - 1].inst) && forall i | 0 <= i < |trace| - 1 :: !IsEnd(trace[i].inst)
  }

  /** How many barriers a run executes. */
  function Barriers(trace: seq<Fetch>): nat {
    if trace == [] then 0
    else Barriers(trace[..|trace| - 1]) + if IsBarrier(trace[|trace| - 1].inst) then 1 else 0
  }

  lemma BarriersNext(trace: seq<Fetch>, f: Fetch)
    ensures Barriers([]) == 0
    ensures Barriers(trace + [f]) == Barriers(trace) + if IsBarrier(f.inst) then 1 else 0
  {
    assert (trace + [f])[..|trace|] == trace;
  }

  /** How many branches a run executes. */
  function Branches(trace: seq<Fetch>): nat {
    if trace == [] then 0
    else Branches(trace[..|trace| - 1]) + if IsBranch(trace[|trace| - 1].inst) then 1 else 0
  }

  lemma BranchesNext(trace: seq<Fetch>, f: Fetch)
    ensures Branches([]) == 0
    ensures Branches(trace + [f]) == Branches(trace) + if IsBranch(f.inst) then 1 else 0
  {
    assert (trace + [f])[..|trace|] == trace;
  }

  function TotalLength(blocks: seq<BBL>): int {
    if blocks == [] then 0 else TotalLength(blocks[..|blocks| - 1]) + blocks[|blocks| - 1].InsNum
  }

  /** The closed blocks account for every instruction before the open block. */
  lemma {:induction false} ClosedLength(trace: seq<Fetch>, i: nat)
    requires i <= |trace|
    ensures TotalLength(Closed(trace, i)) == OpenStart(trace, i)
  {
    if i > 0 {
      ClosedLength(trace, i - 1);
      if Cuts(trace[i - 1]) {
        var b := BlockOf(trace, OpenStart(trace, i - 1), i);
        var all := Closed(trace, i);
        assert all[..|all| - 1] == Closed(trace, i - 1) && all[|all| - 1] == b;
      }
    }
  }

  /** The block lengths of a complete run sum to the length of the trace. */
  lemma LengthsSum(trace: seq<Fetch>)
    requires Complete(trace)
    ensures TotalLength(Blocks(trace)) == |trace|
  {
    ClosedLength(trace, |trace|);
  }

  /** `b` is a stretch l..e-1 of the trace that begins after a cut, ends with a cut and has none inside. */
  ghost predicate IsBlockAt(trace: seq<Fetch>, b: BBL, l: nat, e: nat) {
    && l < e <= |trace|
    && b.PC == Rel(trace[l].pc, trace[0].pc) && b.InsNum == e - l
    && (l == 0 || Cuts(trace[l - 1]))
    && Cuts(trace[e - 1])
    && forall j | l <= j < e - 1 :: !Cuts(trace[j])
  }

  lemma {:induction false} ClosedAreBlocks(trace: seq<Fetch>, i: nat, b: nat)
    requires i <= |trace| && b < |Closed(trace, i)|
    ensures exists l: nat, e: nat :: IsBlockAt(trace, Closed(trace, i)[b], l, e) && e <= i
  {
    if b < |Closed(trace, i - 1)| {
      ClosedAreBlocks(trace, i - 1, b);
      var l: nat, e: nat :| IsBlockAt(trace, Closed(trace, i - 1)[b], l, e) && e <= i - 1;
      assert IsBlockAt(trace, Closed(trace, i)[b], l, e);
    } else {
      assert IsBlockAt(trace, Closed(trace, i)[b], OpenStart(trace, i - 1), i);
    }
  }

  lemma {:induction false} OpenStartPrefix(trace: seq<Fetch>, longer: seq<Fetch>, i: nat)
    requires i <= |trace| <= |longer| && trace == longer[..|trace|]
    ensures OpenStart(longer, i) == OpenStart(trace, i)
  {
    if i > 0 { OpenStartPrefix(trace, longer, i - 1); }
  }

  /** A longer trace begins with the same blocks. */
  lemma {:induction false} ClosedPrefix(trace: seq<Fetch>, longer: seq<Fetch>, i: nat)
    requires i <= |trace| <= |longer| && trace == longer[..|trace|]
    ensures Closed(longer, i) == Closed(trace, i)
  {
    if i > 0 {
      ClosedPrefix(trace, longer, i - 1);
      OpenStartPrefix(trace, longer, i - 1);
      hide OpenStart;
      assert longer[i - 1] == trace[i - 1] && longer[0] == trace[0];
    }
  }

  lemma {:induction false} ClosedGrows(trace: seq<Fetch>, i: nat, j: nat)
    requires i <= j <= |trace|
    ensures |Closed(trace, i)| <= |Closed(trace, j)| && Closed(trace, i) == Closed(trace, j)[..|Closed(trace, i)|]
  {
    if i < j { ClosedGrows(trace, i, j - 1); }
  }

  // ---------------------------------------------------------------------------------------
  // Splitters that lag one instruction behind
  // ---------------------------------------------------------------------------------------

  /**
   The state of a splitter at the last instruction of `trace`, with all earlier blocks put out.
   `length` does not count the open block's first instruction.
   */
  ghost predicate Opened(trace: seq<Fetch>, out: seq<BBL>, startPC: int, lastPC: int, length: int) {
    |trace| > 0 &&
    var i := |trace| - 1;
    var l := OpenStart(trace, i);
    && startPC == trace[0].pc
    && lastPC == trace[l].pc
    && length == i - l
    && out == Closed(trace, i)
  }

  /**
   The state between two instructions: the block that a last instruction may have closed is
   put out only when the next instruction arrives.
   */
  ghost predicate Lagging(trace: seq<Fetch>, out: seq<BBL>, startPC: int, lastPC: int, length: int,
                          lastIsBranch: bool) {
    && Opened(trace, out, startPC, lastPC, length)
    && !IsEnd(trace[|trace| - 1].inst)
    && lastIsBranch == IsCut(trace[|trace| - 1].inst)
  }

  lemma LagFirst(f: Fetch)
    ensures Opened([f], [], f.pc, f.pc, 0)
  {}

  /** The next instruction closes the block that a cut has ended. */
  lemma LagNext(trace: seq<Fetch>, f: Fetch, out: seq<BBL>, startPC: int, lastPC: int, length: int, lastIsBranch: bool)
    requires Lagging(trace, out, startPC, lastPC, length, lastIsBranch)
    ensures lastIsBranch ==>
              Opened(trace + [f], out + [BBL(Rel(lastPC, startPC), length + 1)], startPC, f.pc, 0)
    ensures !lastIsBranch ==> Opened(trace + [f], out, startPC, lastPC, length + 1)
  {
    var i, longer := |trace|, trace + [f];
    ClosedPrefix(trace, longer, i);
    OpenStartPrefix(trace, longer, i);
    OpenStartPrefix(trace, longer, i - 1);
    var l := OpenStart(trace, i - 1);
    assert OpenStart(longer, i) == if Cuts(trace[i - 1]) then i else l;
  }

  /** s_endpgm closes the last block; any other instruction leaves the splitter one behind. */
  lemma LagEnd(trace: seq<Fetch>, out: seq<BBL>, startPC: int, lastPC: int, length: int)
    requires |trace| > 0 && Opened(trace, out, startPC, lastPC, length)
    ensures var last := trace[|trace| - 1].inst;
            if IsEnd(last) then Blocks(trace) == out + [BBL(Rel(lastPC, startPC), length + 1)]
            else Lagging(trace, out, startPC, lastPC, length, IsCut(last))
  {
    if IsEnd(trace[|trace| - 1].inst) { assert Cuts(trace[|trace| - 1]); }
  }
}
