/**
 Functional replay of a wavefront (emu/sampledcomputeunit.go): it executes the wavefront to
 its end, cuts the run into basic blocks and adds up the engine's time for each.
 */
module SampledComputeUnit {
  import opened Instructions
  import opened BlockTrace
  import opened StaticFeature
  import opened BlockCoverage
  import opened BranchTracer

  class Wavefront {
    const UID: UID
    var PC: int
    var start_pc: int
    var last_bbl_pc: int
    var last_ins_num: int
    var current_ins_num: int
    var is_last_inst_branch: bool
    var AtBarrier: bool
    var Completed: bool
    ghost var trace: seq<Fetch> // the instructions executed so far
    ghost var at: nat // index of the next instruction in the kernel's listing

    constructor (UID: UID, PC: int)
      ensures this.UID == UID && this.PC == PC && !Completed && !AtBarrier && !is_last_inst_branch && trace == []
    {
      this.UID, this.PC := UID, PC;
      start_pc, last_bbl_pc, last_ins_num, current_ins_num := 0, 0, 0, 0;
      is_last_inst_branch, AtBarrier, Completed := false, false, false;
      trace, at := [], 0;
    }

    /** The blocks put out so far: those closed before the last instruction. */
    ghost function Emitted(): seq<BBL>
      reads `trace
    {
      if trace == [] then [] else Closed(trace, |trace| - 1)
    }

    /** The counters describe the run so far. */
    ghost predicate Running(code: Code, start: int)
      reads this
    {
      && Run(code, start, trace) && start_pc == start
      && current_ins_num == |trace|
      && is_last_inst_branch == (|trace| > 0 && IsCut(trace[|trace| - 1].inst))
      && Completed == (|trace| > 0 && IsEnd(trace[|trace| - 1].inst))
      && (if trace == [] then PC == start && last_bbl_pc == 0 && last_ins_num == 0
          else
            && last_ins_num == OpenStart(trace, |trace| - 1)
            && last_bbl_pc == Rel(trace[last_ins_num].pc, start)
            && (!Completed ==> Follows(trace[|trace| - 1], PC)))
    }

    /** The next instruction is instruction `at` of the kernel's listing. */
    ghost predicate Located(l: Listing)
      reads this
    {
      |l.pcs| == |l.insts| && (!Completed ==> at < |l.insts| && PC == l.pcs[at])
    }
  }

  /** One fetch: the trace grows, and the block that a cut has ended is the next one to put out. */
  lemma Fetched(code: Code, start: int, trace: seq<Fetch>, pc: int)
    requires Run(code, start, trace)
    requires if trace == [] then pc == start else !IsEnd(trace[|trace| - 1].inst) && Follows(trace[|trace| - 1], pc)
    ensures Run(code, start, trace + [Fetch(pc, code(pc))])
  {
    hide Follows, IsEnd;
    var t := trace + [Fetch(pc, code(pc))];
    forall i | 0 <= i < |t| - 1 ensures !IsEnd(t[i].inst) && Follows(t[i], t[i + 1].pc) {
      if i < |trace| - 1 { assert t[i] == trace[i] && t[i + 1] == trace[i + 1]; }
    }
  }

  /** What one more instruction does to the open block. */
  lemma OpenAdvances(trace: seq<Fetch>, f: Fetch)
    requires |trace| > 0 && !IsEnd(trace[|trace| - 1].inst)
    ensures var i := |trace|;
            if IsCut(trace[i - 1].inst) then
              && OpenStart(trace + [f], i) == i
              && Closed(trace + [f], i) == Closed(trace, i - 1) + [BlockOf(trace, OpenStart(trace, i - 1), i)]
            else
              && OpenStart(trace + [f], i) == OpenStart(trace, i - 1)
              && Closed(trace + [f], i) == Closed(trace, i - 1)
  {
    OpenStartPrefix(trace, trace + [f], |trace|);
    ClosedPrefix(trace, trace + [f], |trace|);
  }

  /** Whatever the branches decide, the kernel at `start` stays at listed instructions. */
  ghost predicate StaysListed(code: Code, start: int, l: Listing) {
    forall trace | Run(code, start, trace) :: Within(l, trace)
  }

  /** It does if every branch goes to a listed instruction. */
  lemma BranchesInsideSuffice(code: Code, start: int, l: Listing)
    requires l.Of(code, start) && BranchesInside(l)
    ensures StaysListed(code, start, l)
  {
    forall trace | Run(code, start, trace) ensures Within(l, trace) { BranchesKeepWithin(code, start, l, trace); }
  }

  /** The block that the last instruction of a run has closed is known to the static sweep. */
  lemma ClosedBlockKnown(cu: StaticComputeUnit, code: Code, start: int, l: Listing, trace: seq<Fetch>)
    requires l.Of(code, start) && StaysListed(code, start, l) && Run(code, start, trace)
    requires cu.Covers(l)
    requires |trace| > 0 && Cuts(trace[|trace| - 1])
    ensures BlockOf(trace, OpenStart(trace, |trace| - 1), |trace|) in cu.Bbv2insts
  {
    hide Listing.Valid, Listing.Of, Within, Run, Target;
    var o, e := OpenStart(trace, |trace| - 1), |trace|;
    assert IsBlockAt(trace, BlockOf(trace, o, e), o, e);
    var k := RunBlocksKnown(code, start, l, trace, BlockOf(trace, o, e), o, e);
  }

  /** The engine and the static sweep are ready for the kernel at `start`. */
  ghost predicate Ready(engine: BranchSampledEngine, code: Code, start: int, l: Listing)
    reads engine, engine.static_compute_unit
  {
    && l.Of(code, start) && StaysListed(code, start, l)
    && engine.static_compute_unit.Covers(l)
    && engine.enableSampled && engine.CacheValid()
  }

  /** The engine's answers for `blocks` add up to `sum`, and it is ready to answer for the next. */
  ghost predicate Answered(engine: BranchSampledEngine, UID: UID, k: nat, interval: real, blocks: seq<BBL>, sum: real)
    reads engine, engine.static_compute_unit
  {
    && Known(engine.sampled, engine.static_compute_unit.Bbv2insts, blocks)
    && engine.Replaying(UID, k, interval, |blocks|)
    && sum == Total(engine.sampled, engine.static_compute_unit.Bbv2insts, engine.model, k, interval, blocks)
  }

  lemma NothingAnswered(engine: BranchSampledEngine, UID: UID, k: nat, interval: real)
    requires engine.Replaying(UID, k, interval, 0)
    ensures Answered(engine, UID, k, interval, [], 0.0)
  {}

  lemma AnsweredOne(engine: BranchSampledEngine, UID: UID, k: nat, interval: real, blocks: seq<BBL>, bbl: BBL,
                    sum: real, t: real)
    requires Known(engine.sampled, engine.static_compute_unit.Bbv2insts, blocks)
    requires bbl in engine.static_compute_unit.Bbv2insts
    requires sum == Total(engine.sampled, engine.static_compute_unit.Bbv2insts, engine.model, k, interval, blocks)
    requires engine.Replaying(UID, k, interval, |blocks| + 1)
    requires t == Share(k, interval, |blocks| + 1,
                        ModelTime(engine.sampled, engine.static_compute_unit.Bbv2insts, engine.model, bbl))
    ensures Answered(engine, UID, k, interval, blocks + [bbl], sum + t)
  {
    TotalGrows(engine.sampled, engine.static_compute_unit.Bbv2insts, engine.model, k, interval, blocks, bbl);
  }

  /** Ask the engine for one more block. */
  method Ask(engine: BranchSampledEngine, UID: UID, bbl: BBL,
             ghost k: nat, ghost interval: real, ghost blocks: seq<BBL>, ghost sum: real) returns (t: real)
    requires engine.enableSampled && engine.CacheValid() && bbl in engine.static_compute_unit.Bbv2insts
    requires Answered(engine, UID, k, interval, blocks, sum)
    modifies engine`wfcount_map, engine`bbv2bbmodeltime_map
    ensures engine.CacheValid() && Answered(engine, UID, k, interval, blocks + [bbl], sum + t)
  {
    hide Total, Share, ModelTime;
    t := engine.Predict(UID, bbl, k, interval, |blocks|);
    AnsweredOne(engine, UID, k, interval, blocks, bbl, sum, t);
  }

  /** The first half of an iteration: fetch, put out the block that ended before this instruction, and count it. */
  method FetchInst(engine: BranchSampledEngine, wf: Wavefront, code: Code, start: int, ghost l: Listing,
                ghost k: nat, ghost interval: real, ghost sum: real) returns (inst: Inst, ret: real)
    requires Ready(engine, code, start, l) && wf.Running(code, start) && !wf.Completed
    requires Answered(engine, wf.UID, k, interval, wf.Emitted(), sum)
    modifies engine`wfcount_map, engine`bbv2bbmodeltime_map
    modifies wf`last_bbl_pc, wf`last_ins_num, wf`current_ins_num, wf`is_last_inst_branch, wf`trace
    ensures Ready(engine, code, start, l)
    ensures inst == code(wf.PC) && wf.trace == old(wf.trace) + [Fetch(wf.PC, inst)]
    ensures Run(code, start, wf.trace) && !wf.is_last_inst_branch && wf.current_ins_num == |wf.trace|
    ensures wf.last_ins_num == OpenStart(wf.trace, |wf.trace| - 1)
    ensures wf.last_bbl_pc == Rel(wf.trace[wf.last_ins_num].pc, start)
    ensures Answered(engine, wf.UID, k, interval, wf.Emitted(), sum + ret)
  {
    hide Listing.Valid, Listing.Of, StaysListed, StaticComputeUnit.Covers;
    hide BranchSampledEngine.CacheValid, Answered, Rel, OpenStart, Closed, Run, Follows, IsEnd;
    ret := 0.0;
    inst := code(wf.PC);
    ghost var trace, f := wf.trace, Fetch(wf.PC, inst);
    Fetched(code, start, trace, wf.PC);
    if trace == [] {
      FirstBlock(code, start, f);
      assert trace + [f] == [f];
    } else {
      NextBlock(code, start, trace, f);
    }
    if wf.is_last_inst_branch {
      var bbl := BBL(wf.last_bbl_pc, wf.current_ins_num - wf.last_ins_num);
      LastBlock(engine.static_compute_unit, code, start, l, trace);
      wf.last_bbl_pc := Rel(wf.PC, wf.start_pc);
      wf.last_ins_num := wf.current_ins_num;
      ret := Ask(engine, wf.UID, bbl, k, interval, wf.Emitted(), sum);
      wf.is_last_inst_branch := false;
    }
    wf.current_ins_num := wf.current_ins_num + INST_WIDTH;
    wf.trace := trace + [f];
  }

  lemma FirstBlock(code: Code, start: int, f: Fetch)
    requires f.pc == start
    ensures OpenStart([f], 0) == 0 && Closed([f], 0) == [] && Rel(start, start) == 0
  {}

  lemma NextBlock(code: Code, start: int, trace: seq<Fetch>, f: Fetch)
    requires trace != [] && !IsEnd(trace[|trace| - 1].inst) && Run(code, start, trace)
    ensures var o, i := OpenStart(trace, |trace| - 1), |trace|;
            if IsCut(trace[i - 1].inst) then
              && OpenStart(trace + [f], i) == i
              && Closed(trace + [f], i) == Closed(trace, i - 1) + [BBL(Rel(trace[o].pc, start), i - o)]
            else
              && OpenStart(trace + [f], i) == o
              && Closed(trace + [f], i) == Closed(trace, i - 1)
  {
    hide Rel, Follows, IsEnd, IsCut, OpenStart, Closed;
    OpenAdvances(trace, f);
  }

  lemma LastBlock(cu: StaticComputeUnit, code: Code, start: int, l: Listing, trace: seq<Fetch>)
    requires l.Of(code, start) && StaysListed(code, start, l) && Run(code, start, trace)
    requires cu.Covers(l)
    requires |trace| > 0 && (IsCut(trace[|trace| - 1].inst) || IsEnd(trace[|trace| - 1].inst))
    ensures var o := OpenStart(trace, |trace| - 1); BBL(Rel(trace[o].pc, start), |trace| - o) in cu.Bbv2insts
  {
    hide Listing.Valid, Listing.Of, StaysListed, StaticComputeUnit.Covers;
    hide Rel, OpenStart, IsCut, IsEnd, Follows;
    ClosedBlockKnown(cu, code, start, l, trace);
  }

  /** The instruction after the last one of a run, by what the ALU does to the PC. */
  lemma Continue(code: Code, start: int, l: Listing, trace: seq<Fetch>, at: nat, pc: int) returns (next: nat)
    requires l.Of(code, start) && StaysListed(code, start, l) && Run(code, start, trace) && trace != []
    requires at < |l.insts| && trace[|trace| - 1] == Fetch(l.pcs[at], l.insts[at])
    requires !IsEnd(l.insts[at]) && Follows(Fetch(l.pcs[at], l.insts[at]), pc)
    ensures next < |l.insts| == |l.pcs| && l.pcs[next] == pc && (!IsBranch(l.insts[at]) ==> next == at + 1)
  {
    hide Target, Run, Follows;
    Fetched(code, start, trace, pc);
    var longer := trace + [Fetch(pc, code(pc))];
    assert Within(l, longer) && longer[|trace|].pc in l.pcs;
    next := NextListed(code, start, l, at, pc);
  }

  lemma NextListed(code: Code, start: int, l: Listing, at: nat, pc: int) returns (next: nat)
    requires l.Of(code, start) && at < |l.insts| && pc in l.pcs
    requires !IsEnd(l.insts[at]) && Follows(Fetch(l.pcs[at], l.insts[at]), pc)
    ensures next < |l.insts| == |l.pcs| && l.pcs[next] == pc && (!IsBranch(l.insts[at]) ==> next == at + 1)
  {
    hide Target, Listing.Other, Listing.Valid;
    next := Entered(l, Fetch(l.pcs[at], l.insts[at]), at, pc);
    if IsBarrier(l.insts[at]) { next := at + 1; }
  }

  /** One iteration of the execution loop. */
  method Iterate(engine: BranchSampledEngine, wf: Wavefront, code: Code, start: int, outcomes: seq<bool>, from: nat,
                 ghost l: Listing, ghost k: nat, ghost interval: real, ghost sum: real)
    returns (continue_execute: bool, used: nat, ret: real)
    requires Ready(engine, code, start, l) && wf.Located(l) && wf.Running(code, start) && !wf.Completed && !wf.AtBarrier
    requires from <= |outcomes| && (IsBranch(code(wf.PC)) ==> from < |outcomes|)
    requires Obeys(wf.trace, wf.PC, outcomes, from)
    requires Answered(engine, wf.UID, k, interval, wf.Emitted(), sum)
    modifies engine`wfcount_map, engine`bbv2bbmodeltime_map, wf
    ensures Obeys(wf.trace, wf.PC, outcomes, used)
    ensures Ready(engine, code, start, l) && wf.Located(l) && wf.Running(code, start)
    ensures Answered(engine, wf.UID, k, interval, wf.Emitted(), sum + ret)
    ensures continue_execute == !(wf.Completed || wf.AtBarrier) && from <= used <= |outcomes|
    ensures used == from && !wf.Completed ==> wf.at == old(wf.at) + 1
    ensures Barriers(wf.trace) == Barriers(old(wf.trace)) + (if wf.AtBarrier then 1 else 0)
    ensures !(wf.Completed && wf.AtBarrier)
  {
    hide Listing.Valid, Listing.Of, StaysListed, StaticComputeUnit.Covers;
    hide BranchSampledEngine.CacheValid, Answered, Rel, OpenStart, Closed, Run, Target, Follows, Barriers, IsBarrier;
    hide Obeys;
    BarriersNext(wf.trace, Fetch(wf.PC, code(wf.PC)));
    var inst;
    inst, ret := FetchInst(engine, wf, code, start, l, k, interval, sum);
    ghost var trace, f := old(wf.trace), Fetch(wf.PC, inst);
    continue_execute, used := Execute(wf, inst, code, start, outcomes, from, l);
    ObeysNext(trace, f, wf.PC, outcomes, from);
  }

  /** The run so far has taken its branches as the first `used` outcomes say. */
  ghost predicate Obeys(trace: seq<Fetch>, pc: int, outcomes: seq<bool>, used: nat) {
    Decided(trace, pc, outcomes) && used == Branches(trace)
  }

  lemma ObeysNext(trace: seq<Fetch>, f: Fetch, pc: int, outcomes: seq<bool>, used: nat)
    requires Obeys(trace, f.pc, outcomes, used)
    requires IsBranch(f.inst) ==>
               && used < |outcomes|
               && pc == if f.inst.opcode == 2 || outcomes[used] then Target(f.pc, f.inst) else NextPC(f.pc, f.inst)
    ensures Obeys(trace + [f], pc, outcomes, if IsBranch(f.inst) then used + 1 else used)
  {
    hide Decided, Target, NextPC, IsBranch, Branches;
    DecidedNext(trace, f, pc, outcomes);
    BranchesNext(trace, f);
  }

  lemma NothingObeyed(pc: int, outcomes: seq<bool>)
    ensures Obeys([], pc, outcomes, 0)
  {}

  lemma ObeysMeans(trace: seq<Fetch>, pc: int, outcomes: seq<bool>, used: nat)
    requires Obeys(trace, pc, outcomes, used)
    ensures Decided(trace, pc, outcomes) && used == Branches(trace)
  {}

  /** The block that s_endpgm ends. */
  method EndingBlock(engine: BranchSampledEngine, wf: Wavefront, code: Code, start: int,
                     ghost l: Listing, ghost k: nat, ghost interval: real, ghost sum: real) returns (ret: real)
    requires Ready(engine, code, start, l) && wf.Running(code, start) && wf.Completed
    requires Answered(engine, wf.UID, k, interval, wf.Emitted(), sum)
    modifies engine`wfcount_map, engine`bbv2bbmodeltime_map
    ensures Ready(engine, code, start, l)
    ensures Complete(wf.trace) && Answered(engine, wf.UID, k, interval, Blocks(wf.trace), sum + ret)
  {
    hide Listing.Valid, Listing.Of, StaysListed, StaticComputeUnit.Covers;
    hide BranchSampledEngine.CacheValid, Answered, Rel, OpenStart, Closed, Run, Follows, IsEnd, Complete, Blocks;
    var bbl := BBL(wf.last_bbl_pc, wf.current_ins_num - wf.last_ins_num);
    LastBlock(engine.static_compute_unit, code, start, l, wf.trace);
    CompleteRun(code, start, wf.trace);
    ret := Ask(engine, wf.UID, bbl, k, interval, wf.Emitted(), sum);
  }

  /**
   Execute until the next barrier or the end. `outcomes` decides the conditional branches; where
   it is used up the run stops, so every finite part of every run is covered. `sum` is what the
   engine has answered before.
   */
  method RunWfUntilBarrier(engine: BranchSampledEngine, wf: Wavefront, inited: bool, code: Code, start: int,
                           outcomes: seq<bool>, from: nat, ghost l: Listing,
                           ghost k: nat, ghost interval: real, ghost sum: real)
    returns (ret: real, used: nat)
    requires Ready(engine, code, start, l) && wf.Located(l) && !wf.Completed && !wf.AtBarrier && from <= |outcomes|
    requires if inited then wf.trace == [] && wf.PC == start && !wf.is_last_inst_branch else wf.Running(code, start)
    requires Answered(engine, wf.UID, k, interval, wf.Emitted(), sum) && Obeys(wf.trace, wf.PC, outcomes, from)
    modifies engine`wfcount_map, engine`bbv2bbmodeltime_map, wf
    ensures Obeys(wf.trace, wf.PC, outcomes, used)
    ensures Ready(engine, code, start, l) && wf.Located(l) && wf.Running(code, start) && from <= used <= |outcomes|
    ensures wf.Completed ==> Complete(wf.trace) && Answered(engine, wf.UID, k, interval, Blocks(wf.trace), sum + ret)
    ensures !wf.Completed ==> Answered(engine, wf.UID, k, interval, wf.Emitted(), sum + ret)
    ensures !wf.Completed && !wf.AtBarrier ==> used == |outcomes| && IsBranch(code(wf.PC))
    ensures !wf.Completed && used == from && wf.AtBarrier ==> wf.at > old(wf.at)
    ensures Barriers(wf.trace) == Barriers(old(wf.trace)) + (if wf.AtBarrier then 1 else 0)
    ensures !(wf.Completed && wf.AtBarrier)
  {
    hide Ready, Answered, Wavefront.Running, Wavefront.Emitted, Listing.Valid, IsBranch, Barriers, Obeys;
    if inited {
      Begin(wf, code, start);
    }
    ret, used := 0.0, from;
    var continue_execute := true;
    while continue_execute
      invariant Ready(engine, code, start, l) && wf.Located(l) && wf.Running(code, start) && from <= used <= |outcomes|
      invariant Answered(engine, wf.UID, k, interval, wf.Emitted(), sum + ret) && Obeys(wf.trace, wf.PC, outcomes, used)
      invariant continue_execute == !(wf.Completed || wf.AtBarrier)
      invariant Barriers(wf.trace) == Barriers(old(wf.trace)) + (if wf.AtBarrier then 1 else 0)
      invariant !(wf.Completed && wf.AtBarrier)
      invariant used == from && !wf.Completed ==> wf.at >= old(wf.at) && (wf.AtBarrier ==> wf.at > old(wf.at))
      decreases continue_execute, |outcomes| - used, |l.insts| - wf.at
    {
      if IsBranch(code(wf.PC)) && used == |outcomes| {
        return;
      }
      var r;
      continue_execute, used, r := Iterate(engine, wf, code, start, outcomes, used, l, k, interval, sum + ret);
      ret := ret + r;
    }
    if wf.Completed {
      var t := EndingBlock(engine, wf, code, start, l, k, interval, sum + ret);
      ret := ret + t;
    }
  }

  method Begin(wf: Wavefront, code: Code, start: int)
    requires wf.trace == [] && wf.PC == start && !wf.is_last_inst_branch && !wf.Completed
    modifies wf`start_pc, wf`last_bbl_pc, wf`last_ins_num, wf`current_ins_num
    ensures wf.Running(code, start)
  {
    wf.start_pc := wf.PC;
    wf.last_bbl_pc := 0;
    wf.last_ins_num := 0;
    wf.current_ins_num := 0;
  }

  /**
   RunWG for one wavefront: run from barrier to barrier until the end. The predicted time is the
   start and end ticks plus the engine's answers for exactly the blocks of the executed run. It
   takes one call more than the run has barriers. The run is the one that the outcomes decide; it
   is executed to its end, or to the first branch for which there is no outcome.
   */
  method RunWavefront(engine: BranchSampledEngine, wf: Wavefront, code: Code, start: int, outcomes: seq<bool>,
                      ghost l: Listing, ghost k: nat, ghost interval: real)
    returns (wfstime: real, used: nat, ghost rounds: nat)
    requires Ready(engine, code, start, l) && engine.Replaying(wf.UID, k, interval, 0)
    requires wf.trace == [] && wf.PC == start && !wf.is_last_inst_branch && !wf.Completed && !wf.AtBarrier
    modifies engine`wfcount_map, engine`bbv2bbmodeltime_map, wf
    ensures Run(code, start, wf.trace) && Ready(engine, code, start, l)
    ensures Decided(wf.trace, wf.PC, outcomes) && used == Branches(wf.trace) <= |outcomes|
    ensures !wf.Completed ==> used == |outcomes| && IsBranch(code(wf.PC)) && !wf.AtBarrier
    ensures !wf.Completed ==>
              && Known(engine.sampled, engine.static_compute_unit.Bbv2insts, wf.Emitted())
              && wfstime == engine.StartTime() + engine.EndTime() +
                            Total(engine.sampled, engine.static_compute_unit.Bbv2insts, engine.model, k, interval,
                              wf.Emitted())
    ensures wf.Completed ==>
              && Complete(wf.trace) && rounds == Barriers(wf.trace) + 1
              && Known(engine.sampled, engine.static_compute_unit.Bbv2insts, Blocks(wf.trace))
              && wfstime == engine.StartTime() + engine.EndTime() +
                            Total(engine.sampled, engine.static_compute_unit.Bbv2insts, engine.model, k, interval,
                              Blocks(wf.trace))
  {
    hide Listing.Valid, StaysListed, StaticComputeUnit.Covers, BranchSampledEngine.CacheValid;
    hide Blocks, Complete, Run, Target, Barriers, Known, Total, Closed, OpenStart, Rel, Follows;
    hide Obeys, Decided, Branches, IsBranch, Wavefront.Emitted;
    assert Barriers([]) == 0 by { BarriersNext([], Fetch(wf.PC, code(wf.PC))); }
    NothingAnswered(engine, wf.UID, k, interval);
    NothingObeyed(wf.PC, outcomes);
    NothingEmitted(wf);
    rounds := 0;
    wfstime := engine.StartTime() + engine.EndTime();
    wf.at := 0;
    var inited := true;
    used := 0;
    ghost var sum := 0.0;
    while !wf.Completed
      invariant Ready(engine, code, start, l) && wf.Located(l) && used <= |outcomes| && !wf.AtBarrier
      invariant wfstime == engine.StartTime() + engine.EndTime() + sum && Obeys(wf.trace, wf.PC, outcomes, used)
      invariant rounds == Barriers(wf.trace) + if wf.Completed then 1 else 0
      invariant if inited then wf.trace == [] && wf.PC == start && !wf.is_last_inst_branch && !wf.Completed && used == 0
                else wf.Running(code, start)
      invariant !wf.Completed ==> Answered(engine, wf.UID, k, interval, wf.Emitted(), sum)
      invariant wf.Completed ==> Complete(wf.trace) && Answered(engine, wf.UID, k, interval, Blocks(wf.trace), sum)
      decreases !wf.Completed, |outcomes| - used, |l.insts| - wf.at
    {
      var predicttime;
      predicttime, used := RunWfUntilBarrier(engine, wf, inited, code, start, outcomes, used, l, k, interval, sum);
      wfstime := wfstime + predicttime;
      sum := sum + predicttime;
      rounds := rounds + 1;
      inited := false;
      if !wf.Completed && !wf.AtBarrier {
        break;
      }
      wf.AtBarrier := false; // resolveBarrier
    }
    ObeysMeans(wf.trace, wf.PC, outcomes, used);
  }

  lemma NothingEmitted(wf: Wavefront)
    requires wf.trace == []
    ensures wf.Emitted() == []
  {}

  /**
   A wavefront that was measured up to some instruction and is replayed: if its run begins with
   what was measured, the predicted time is the measured time of the first blocks, or the start
   and end ticks if there are none, plus the model time of every block after them.
   */
  method PredictMeasured(engine: BranchSampledEngine, wf: Wavefront, code: Code, start: int, outcomes: seq<bool>,
                         ghost l: Listing, ghost measured: seq<Fetch>, ghost times: seq<real>)
    returns (wfstime: real, used: nat)
    requires Ready(engine, code, start, l) && wf.UID in engine.wfcount_map
    requires Measuring(engine.wfcount_map[wf.UID], measured, times)
    requires engine.wfcount_map[wf.UID].predict_bb_idx == 0
    requires wf.trace == [] && wf.PC == start && !wf.is_last_inst_branch && !wf.Completed && !wf.AtBarrier
    modifies engine`wfcount_map, engine`bbv2bbmodeltime_map, wf
    ensures Run(code, start, wf.trace) && Decided(wf.trace, wf.PC, outcomes) && used == Branches(wf.trace)
    ensures !wf.Completed ==> used == |outcomes| && IsBranch(code(wf.PC)) && !wf.AtBarrier
    ensures wf.Completed && |measured| <= |wf.trace| && measured == wf.trace[..|measured|] ==>
              var f := old(engine.wfcount_map)[wf.UID];
              var k, blocks := |f.bbl_seq|, Blocks(wf.trace);
              && k <= |blocks| && f.bbl_seq == blocks[..k]
              && Known(engine.sampled, engine.static_compute_unit.Bbv2insts, blocks[k..])
              && wfstime == (if k == 0 then engine.startTick + engine.startTick
                             else f.lastBBLFinishTime - f.wfStartTime + engine.startTick)
                            + ModelSum(engine.sampled, engine.static_compute_unit.Bbv2insts, engine.model, blocks[k..])
  {
    hide Ready, Measuring, Run, Blocks, Total, ModelSum, Complete, Known, Decided, Branches, IsBranch;
    ghost var f := engine.wfcount_map[wf.UID];
    ghost var k, interval := |f.bbl_seq|, f.lastBBLFinishTime - f.wfStartTime - engine.startTick;
    ghost var rounds;
    wfstime, used, rounds := RunWavefront(engine, wf, code, start, outcomes, l, k, interval);
    if wf.Completed && |measured| <= |wf.trace| && measured == wf.trace[..|measured|] {
      KnownRest(engine.sampled, engine.static_compute_unit.Bbv2insts, Blocks(wf.trace));
      StitchedTime(engine.sampled, engine.static_compute_unit.Bbv2insts, engine.model, engine.startTick, f, measured,
                   times, wf.trace);
    }
  }

  lemma KnownRest(sampled: map<BBL, real>, insts: map<BBL, seq<Inst>>, blocks: seq<BBL>)
    requires Known(sampled, insts, blocks)
    ensures forall k: nat | k <= |blocks| :: Known(sampled, insts, blocks[k..])
  {}

  lemma CompleteRun(code: Code, start: int, trace: seq<Fetch>)
    requires Run(code, start, trace) && |trace| > 0 && IsEnd(trace[|trace| - 1].inst)
    ensures Complete(trace)
    ensures var o := OpenStart(trace, |trace| - 1);
            Blocks(trace) == Closed(trace, |trace| - 1) + [BBL(Rel(trace[o].pc, start), |trace| - o)]
  {
    hide Follows, Rel, OpenStart;
    assert Cuts(trace[|trace| - 1]);
  }

  /** The second half of an iteration: classify the instruction, advance the PC and execute. */
  method Execute(wf: Wavefront, inst: Inst, code: Code, start: int, outcomes: seq<bool>, from: nat, ghost l: Listing)
    returns (continue_execute: bool, used: nat)
    requires l.Of(code, start) && StaysListed(code, start, l) && wf.Located(l) && !wf.Completed && !wf.AtBarrier
    requires inst == code(wf.PC) && from <= |outcomes| && (IsBranch(inst) ==> from < |outcomes|)
    requires |wf.trace| > 0 && wf.trace[|wf.trace| - 1] == Fetch(wf.PC, inst)
    requires Run(code, start, wf.trace) && !wf.is_last_inst_branch && wf.current_ins_num == |wf.trace|
             && wf.start_pc == start
    requires wf.last_ins_num == OpenStart(wf.trace, |wf.trace| - 1)
    requires wf.last_bbl_pc == Rel(wf.trace[wf.last_ins_num].pc, start)
    modifies wf`PC, wf`is_last_inst_branch, wf`AtBarrier, wf`Completed, wf`at
    ensures wf.Located(l) && wf.Running(code, start)
    ensures wf.Completed == IsEnd(inst) && wf.AtBarrier == IsBarrier(inst) && !(wf.Completed && wf.AtBarrier)
    ensures continue_execute == !(wf.Completed || wf.AtBarrier)
    ensures wf.Completed == (inst.sopp && inst.opcode == 1) && wf.AtBarrier == (inst.sopp && inst.opcode == 10)
    ensures used == if inst.sopp && (inst.opcode == 2 || 4 <= inst.opcode <= 9) then from + 1 else from
    ensures wf.PC == if IsBranch(inst) && (inst.opcode == 2 || outcomes[from]) then Target(old(wf.PC), inst)
                     else NextPC(old(wf.PC), inst)
    ensures !wf.Completed && !IsBranch(inst) ==> wf.at == old(wf.at) + 1
  {
    hide Listing.Valid, StaysListed, Rel, OpenStart, Run, Target;
    continue_execute, used := true, from;
    var pc := wf.PC;
    if inst.sopp {
      if inst.opcode == 10 {
        wf.is_last_inst_branch := true;
        wf.AtBarrier := true;
        continue_execute := false;
      } else if inst.opcode == 1 {
        wf.Completed := true;
        continue_execute := false;
      } else if inst.opcode == 2 || 4 <= inst.opcode <= 9 {
        wf.is_last_inst_branch := true;
      }
    }
    wf.PC := NextPC(wf.PC, inst);
    if continue_execute && IsBranch(inst) {
      // executeInst: s_branch always jumps, the others if their condition holds
      if inst.opcode == 2 || outcomes[used] {
        wf.PC := Target(pc, inst);
      }
      used := used + 1;
    }
    if !wf.Completed {
      ghost var next := Continue(code, start, l, wf.trace, wf.at, wf.PC);
      wf.at := next;
    }
  }
}
