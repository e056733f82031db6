/**
 The basic-block sampling engine (samples/sampledrunner/branchtracer.go): it measures the
 blocks of running wavefronts, and once enough of them are predictable it answers how long a
 wavefront takes from the measured prefix and a model of the remaining blocks.
 */
module BranchTracer {
  import opened Instructions
  import opened BlockTrace
  import opened StaticFeature

  /** Wavefront ids are only compared; numbers stand for the generated strings. */
  datatype WfBranchFeature = WfBranchFeature(
    wfStartTime: real, startTime: real, startIns: int, currentIns: int, PC: int, StartPC: int,
    last_inst_is_branch: bool, bbl_seq: seq<BBL>, lastBBLFinishTime: real, predict_bb_idx: nat)

  /** The entry of a wavefront that has executed `trace`, instruction by instruction at `times`. */
  ghost predicate Measuring(f: WfBranchFeature, trace: seq<Fetch>, times: seq<real>) {
    && |times| == |trace| && f.predict_bb_idx == 0
    && if trace == [] then f.currentIns == 0 && f.bbl_seq == [] && !f.last_inst_is_branch
      && f.startTime == f.wfStartTime
       else
         && f.currentIns > 0
         && Lagging(trace, f.bbl_seq, f.StartPC, f.PC, f.currentIns - f.startIns, f.last_inst_is_branch)
         && FinishedAt(f, times, OpenStart(trace, |trace| - 1))
  }

  /** The measured blocks end where instruction `e` of the trace begins. */
  ghost predicate FinishedAt(f: WfBranchFeature, times: seq<real>, e: nat) {
    e > 0 ==> e < |times| && f.lastBBLFinishTime == times[e]
  }

  /** The entry when the block before `inst` is put out but `inst` itself is not yet judged. */
  ghost predicate Judging(f: WfBranchFeature, trace: seq<Fetch>, times: seq<real>) {
    && |times| == |trace| > 0 && f.predict_bb_idx == 0
    && f.currentIns > 0 && !f.last_inst_is_branch
    && Opened(trace, f.bbl_seq, f.StartPC, f.PC, f.currentIns - f.startIns)
    && FinishedAt(f, times, OpenStart(trace, |trace| - 1))
  }

  /** The entry after Flush. */
  function Flushed(f: WfBranchFeature, now: real, pc: int): WfBranchFeature {
    f.(startIns := f.currentIns, PC := pc, startTime := now, lastBBLFinishTime := now,
       bbl_seq := f.bbl_seq + [BBL(Rel(f.PC, f.StartPC), f.currentIns - f.startIns)])
  }

  lemma FlushedTimes(f: WfBranchFeature, now: real, pc: int)
    ensures Flushed(f, now, pc).lastBBLFinishTime == now && Flushed(f, now, pc).wfStartTime == f.wfStartTime
  {}

  lemma FirstInst(f: WfBranchFeature, inst: Fetch, now: real)
    requires Measuring(f, [], [])
    ensures Judging(f.(PC := inst.pc, StartPC := inst.pc, currentIns := INST_WIDTH, startIns := INST_WIDTH), [inst],
            [now])
  {
    LagFirst(inst);
  }

  lemma NextInst(f: WfBranchFeature, trace: seq<Fetch>, times: seq<real>, inst: Fetch, now: real)
    requires Measuring(f, trace, times) && trace != []
    ensures var f1 := f.(currentIns := f.currentIns + INST_WIDTH);
            Judging(if f.last_inst_is_branch then Flushed(f1, now, inst.pc).(last_inst_is_branch := false) else f1,
                    trace + [inst], times + [now])
  {
    LagNext(trace, inst, f.bbl_seq, f.StartPC, f.PC, f.currentIns - f.startIns, f.last_inst_is_branch);
    OpenStartPrefix(trace, trace + [inst], |trace|);
    OpenStartPrefix(trace, trace + [inst], |trace| - 1);
    hide Opened;
    var o := OpenStart(trace + [inst], |trace|);
    assert o == if Cuts(trace[|trace| - 1]) then |trace| else OpenStart(trace, |trace| - 1);
    assert (times + [now])[o] == if o < |trace| then times[o] else now;
  }

  lemma JudgedInst(f: WfBranchFeature, trace: seq<Fetch>, times: seq<real>, now: real, pc: int)
    requires Judging(f, trace, times)
    ensures var last := trace[|trace| - 1].inst;
            if IsEnd(last) then Flushed(f.(currentIns := f.currentIns + INST_WIDTH), now, pc).bbl_seq == Blocks(trace)
            else Measuring(f.(last_inst_is_branch := IsCut(last)), trace, times)
  {
    hide Opened, Blocks, OpenStart;
    LagEnd(trace, f.bbl_seq, f.StartPC, f.PC, f.currentIns - f.startIns);
  }

  lemma StartsAtZero(f: WfBranchFeature, trace: seq<Fetch>, times: seq<real>)
    requires Measuring(f, trace, times)
    ensures f.currentIns == 0 <==> trace == []
    ensures trace == [] ==> times == [] && !f.last_inst_is_branch
    ensures f.last_inst_is_branch == AfterCut(trace)
  {}

  lemma NotYetMarked(f: WfBranchFeature, trace: seq<Fetch>, times: seq<real>)
    requires Judging(f, trace, times)
    ensures !f.last_inst_is_branch
  {}

  /** What a known block takes: the sampled time if its sampling engine predicts, else the interval model's. */
  ghost function ModelTime(sampled: map<BBL, real>, insts: map<BBL, seq<Inst>>, model: seq<Inst> -> real, b: BBL): real
    requires b in sampled || b in insts
  {
    if b in sampled then sampled[b] else model(insts[b])
  }

  /** The part of the answer given for the `m`-th block, if the first `k` blocks were measured to take `interval`. */
  function Share(k: nat, interval: real, m: nat, t: real): real {
    if k == 0 || m > k then t else if m == k then interval else 0.0
  }

  ghost predicate Known(sampled: map<BBL, real>, insts: map<BBL, seq<Inst>>, blocks: seq<BBL>) {
    forall b | b in blocks :: b in sampled || b in insts
  }

  /** Sum of the answers for a sequence of blocks. */
  ghost function Total(sampled: map<BBL, real>, insts: map<BBL, seq<Inst>>, model: seq<Inst> -> real,
                       k: nat, interval: real, blocks: seq<BBL>): real
    requires Known(sampled, insts, blocks)
  {
    if blocks == [] then 0.0
    else Total(sampled, insts, model, k, interval, blocks[..|blocks| - 1])
         + Share(k, interval, |blocks|, ModelTime(sampled, insts, model, blocks[|blocks| - 1]))
  }

  lemma TotalGrows(sampled: map<BBL, real>, insts: map<BBL, seq<Inst>>, model: seq<Inst> -> real,
                   k: nat, interval: real, blocks: seq<BBL>, b: BBL)
    requires Known(sampled, insts, blocks) && (b in sampled || b in insts)
    ensures Known(sampled, insts, blocks + [b])
    ensures Total(sampled, insts, model, k, interval, blocks + [b]) ==
            Total(sampled, insts, model, k, interval, blocks)
            + Share(k, interval, |blocks| + 1, ModelTime(sampled, insts, model, b))
  {
    assert (blocks + [b])[..|blocks + [b]| - 1] == blocks;
  }

  /** The model's time for every block. */
  ghost function ModelSum(sampled: map<BBL, real>, insts: map<BBL, seq<Inst>>, model: seq<Inst> -> real,
                          blocks: seq<BBL>): real
    requires Known(sampled, insts, blocks)
  {
    if blocks == [] then 0.0
    else ModelSum(sampled, insts, model, blocks[..|blocks| - 1]) + ModelTime(sampled, insts, model,
      blocks[|blocks| - 1])
  }

  /**
   Every block is counted once: the first `k` by the measured interval, the others by the model;
   with nothing measured, all by the model.
   */
  lemma {:induction false} EachBlockOnce(sampled: map<BBL, real>, insts: map<BBL, seq<Inst>>, model: seq<Inst> -> real,
                                         k: nat, interval: real, blocks: seq<BBL>)
    requires Known(sampled, insts, blocks)
    ensures k <= |blocks| ==>
              Total(sampled, insts, model, k, interval, blocks) ==
              (if k == 0 then 0.0 else interval) + ModelSum(sampled, insts, model, blocks[k..])
    ensures k > |blocks| ==> Total(sampled, insts, model, k, interval, blocks) == 0.0
  {
    if |blocks| > 0 {
      var init := blocks[..|blocks| - 1];
      EachBlockOnce(sampled, insts, model, k, interval, init);
      if k < |blocks| {
        assert blocks[k..][..|blocks[k..]| - 1] == init[k..];
      }
    }
  }

  /**
   The stitched prediction of a wavefront that was measured up to some instruction and then
   replayed to its end: the measured blocks are the first blocks of the run, they are charged
   with the measured time up to the instruction after them, and the model is charged for the rest.
   */
  lemma StitchedTime(sampled: map<BBL, real>, insts: map<BBL, seq<Inst>>, model: seq<Inst> -> real, tick: real,
                     f: WfBranchFeature, measured: seq<Fetch>, times: seq<real>, trace: seq<Fetch>)
    requires Measuring(f, measured, times) && Complete(trace) && |measured| <= |trace|
             && measured == trace[..|measured|]
    requires Known(sampled, insts, Blocks(trace))
    ensures var k := |f.bbl_seq|;
            var blocks := Blocks(trace);
            && k <= |blocks| && f.bbl_seq == blocks[..k]
            && tick + tick + Total(sampled, insts, model, k, f.lastBBLFinishTime - f.wfStartTime - tick, blocks) ==
               (if k == 0 then tick + tick else f.lastBBLFinishTime - f.wfStartTime + tick)
               + ModelSum(sampled, insts, model, blocks[k..])
    ensures f.bbl_seq != [] ==>
              exists e: nat :: e < |measured| && TotalLength(f.bbl_seq) == e && f.lastBBLFinishTime == times[e]
  {
    hide Total, ModelSum, Cuts, OpenStart, Closed, TotalLength;
    var k := |f.bbl_seq|;
    if measured != [] {
      var i := |measured| - 1;
      ClosedPrefix(measured, trace, i);
      ClosedGrows(trace, i, |trace|);
      ClosedLength(measured, i);
      assert f.bbl_seq == Closed(measured, i);
      if f.bbl_seq != [] {
        ClosedNonEmpty(measured, i);
      }
    }
    EachBlockOnce(sampled, insts, model, k, f.lastBBLFinishTime - f.wfStartTime - tick, Blocks(trace));
  }

  lemma {:induction false} ClosedNonEmpty(trace: seq<Fetch>, i: nat)
    requires i <= |trace| && Closed(trace, i) != []
    ensures OpenStart(trace, i) > 0
  {
    if !Cuts(trace[i - 1]) { ClosedNonEmpty(trace, i - 1); }
  }

  /** The instruction before ended a block, which the next one flushes. */
  predicate AfterCut(trace: seq<Fetch>) {
    trace != [] && IsCut(trace[|trace| - 1].inst)
  }

  class BranchSampledEngine {
    const startTick: real // Freq.NextTick(0)
    const model: seq<Inst> -> real // Global_bbmode.IntervalModel
    const static_compute_unit: StaticComputeUnit
    var sampled: map<BBL, real> // blocks whose sampling engine gives a prediction
    var bbv2bbmodeltime_map: map<BBL, real>
    var wfcount_map: map<UID, WfBranchFeature>
    var enableSampled: bool
    var disableEngine: bool
    var analysed: bool // bbl2rate is not empty
    ghost var traces: map<UID, seq<Fetch>>
    ghost var times: map<UID, seq<real>>
    ghost var ended: set<UID>

    /**
     Every entry describes what has been collected of its wavefront. That is all it executed since
     CollectWfStart if collection was on throughout.
     */
    ghost predicate Valid()
      reads this
    {
      forall w | w in wfcount_map && w !in ended ::
        w in traces && w in times && Measuring(wfcount_map[w], traces[w], times[w])
    }

    /** The cached model times are the model's. */
    ghost predicate CacheValid()
      reads this, static_compute_unit
    {
      forall b | b in bbv2bbmodeltime_map ::
        b in static_compute_unit.Bbv2insts && bbv2bbmodeltime_map[b] == model(static_compute_unit.Bbv2insts[b])
    }

    constructor (startTick: real, model: seq<Inst> -> real, static_compute_unit: StaticComputeUnit)
      ensures this.startTick == startTick && this.model == model && this.static_compute_unit == static_compute_unit
      ensures Valid() && CacheValid() && !enableSampled && disableEngine && !analysed
      ensures wfcount_map == map[] && sampled == map[]
    {
      this.startTick, this.model, this.static_compute_unit := startTick, model, static_compute_unit;
      sampled, bbv2bbmodeltime_map, wfcount_map := map[], map[], map[];
      enableSampled, disableEngine, analysed := false, true, false;
      traces, times, ended := map[], map[], {};
    }

    function StartTime(): real { startTick }

    function EndTime(): real { startTick }

    method CollectWfStart(wfid: UID, now: real)
      requires Valid()
      modifies `wfcount_map, `traces, `times, `ended
      ensures Valid()
      ensures !old(enableSampled) ==>
                wfid in wfcount_map && wfid !in ended && wfcount_map[wfid].wfStartTime == now && traces[wfid] == []
      ensures old(enableSampled) ==> unchanged(`wfcount_map, `traces, `times, `ended)
      ensures forall w | w != wfid :: w in wfcount_map <==> w in old(wfcount_map)
      ensures forall w | w != wfid && w in wfcount_map :: wfcount_map[w] == old(wfcount_map)[w]
    {
      if enableSampled {
        return;
      }
      wfcount_map := wfcount_map[wfid := WfBranchFeature(now, now, 0, 0, 0, 0, false, [], 0.0, 0)];
      traces, times, ended := traces[wfid := []], times[wfid := []], ended - {wfid};
    }

    method CollectWfEnd(wfid: UID)
      requires Valid()
      modifies `wfcount_map
      ensures Valid()
      ensures !enableSampled ==> wfcount_map == old(wfcount_map) - {wfid}
      ensures enableSampled ==> wfcount_map == old(wfcount_map)
    {
      if enableSampled {
        return;
      }
      if wfid in wfcount_map {
        wfcount_map := wfcount_map - {wfid};
      }
    }

    /**
     Record the open block. The block's sampling engine learns from it, which may change the
     predictions (`learned`) and may complete the coverage that turns sampling on (`covered`).
     */
    method Flush(f: WfBranchFeature, now: real, pc: int, learned: map<BBL, real>, covered: bool)
      returns (r: WfBranchFeature)
      modifies `sampled, `enableSampled
      ensures r == Flushed(f, now, pc)
      ensures enableSampled == (old(enableSampled) || covered) && sampled == learned
    {
      var bbl := BBL(Rel(f.PC, f.StartPC), f.currentIns - f.startIns);
      r := f.(startIns := f.currentIns, PC := pc, startTime := now, lastBBLFinishTime := now,
              bbl_seq := f.bbl_seq + [bbl]);
      sampled := learned;
      if covered {
        enableSampled := true;
      }
    }

    /** Collect up to its first flush. */
    method CollectPending(f: WfBranchFeature, now: real, inst: Fetch, learned: map<BBL, real>, covered: bool,
                          ghost trace: seq<Fetch>, ghost ts: seq<real>) returns (r: WfBranchFeature)
      requires Measuring(f, trace, ts)
      modifies `sampled, `enableSampled
      ensures Judging(r, trace + [inst], ts + [now]) && r.wfStartTime == f.wfStartTime
      ensures enableSampled == (old(enableSampled) || (AfterCut(trace) && covered))
      ensures sampled == if AfterCut(trace) then learned else old(sampled)
    {
      hide Measuring, Judging, AfterCut;
      StartsAtZero(f, trace, ts);
      r := f;
      if r.currentIns == 0 {
        FirstInst(f, inst, now);
        assert trace + [inst] == [inst] && ts + [now] == [now];
        r := r.(PC := inst.pc, StartPC := inst.pc, currentIns := INST_WIDTH, startIns := INST_WIDTH);
      } else {
        NextInst(f, trace, ts, inst, now);
        r := r.(currentIns := r.currentIns + INST_WIDTH);
      }
      if r.last_inst_is_branch {
        r := Flush(r, now, inst.pc, learned, covered);
        r := r.(last_inst_is_branch := false);
      }
    }

    /**
     One executed instruction of wavefront `wfid`. Unless collection is off, the entry keeps
     describing the trace; after s_endpgm it holds all blocks of the run and the final time.
     */
    method Collect(wfid: UID, now: real, inst: Fetch, learned: seq<map<BBL, real>>, covered: seq<bool>)
      requires Valid() && |learned| == |covered| == 2
      requires wfid in wfcount_map && wfid !in ended
      modifies `wfcount_map, `sampled, `enableSampled, `traces, `times, `ended
      ensures Valid()
      ensures forall w | w != wfid && w in wfcount_map :: w in old(wfcount_map) && wfcount_map[w] == old(wfcount_map)[w]
      ensures old(enableSampled) || disableEngine || !analysed ==>
                unchanged(`wfcount_map, `sampled, `enableSampled, `traces, `times, `ended)
      ensures !(old(enableSampled) || disableEngine || !analysed) ==>
                var flushes := AfterCut(old(traces)[wfid]);
                && (enableSampled <==> (flushes && covered[0]) || (IsEnd(inst.inst) && covered[1]))
                && sampled == if IsEnd(inst.inst) then learned[1] else if flushes then learned[0] else old(sampled)
      ensures !(old(enableSampled) || disableEngine || !analysed) ==>
                && wfid in wfcount_map && wfcount_map[wfid].wfStartTime == old(wfcount_map)[wfid].wfStartTime
                && traces == old(traces)[wfid := old(traces)[wfid] + [inst]]
                && times == old(times)[wfid := old(times)[wfid] + [now]]
                && ended == (if IsEnd(inst.inst) then old(ended) + {wfid} else old(ended))
                && (IsEnd(inst.inst) ==>
                      wfcount_map[wfid].bbl_seq == Blocks(traces[wfid]) && wfcount_map[wfid].lastBBLFinishTime == now)
    {
      hide Measuring, Judging, Blocks, Flushed, AfterCut, IsEnd;
      if enableSampled || disableEngine {
        return;
      }
      if !analysed {
        return;
      }
      CollectInst(wfid, now, inst, learned, covered);
    }

    /** Collect, when collection is on. */
    method CollectInst(wfid: UID, now: real, inst: Fetch, learned: seq<map<BBL, real>>, covered: seq<bool>)
      requires Valid() && |learned| == |covered| == 2
      requires wfid in wfcount_map && wfid !in ended && !enableSampled
      modifies `wfcount_map, `sampled, `enableSampled, `traces, `times, `ended
      ensures Valid()
      ensures var flushes := AfterCut(old(traces)[wfid]);
              && (enableSampled <==> (flushes && covered[0]) || (IsEnd(inst.inst) && covered[1]))
              && sampled == if IsEnd(inst.inst) then learned[1] else if flushes then learned[0] else old(sampled)
      ensures traces == old(traces)[wfid := old(traces)[wfid] + [inst]]
      ensures times == old(times)[wfid := old(times)[wfid] + [now]]
      ensures ended == if IsEnd(inst.inst) then old(ended) + {wfid} else old(ended)
      ensures wfid in wfcount_map && wfcount_map == old(wfcount_map)[wfid := wfcount_map[wfid]]
      ensures wfcount_map[wfid].wfStartTime == old(wfcount_map)[wfid].wfStartTime
      ensures IsEnd(inst.inst) ==>
                wfcount_map[wfid].bbl_seq == Blocks(traces[wfid]) && wfcount_map[wfid].lastBBLFinishTime == now
    {
      hide Measuring, Judging, Blocks, Flushed, AfterCut, IsEnd;
      ghost var trace, ts := traces[wfid] + [inst], times[wfid] + [now];
      var f := CollectPending(wfcount_map[wfid], now, inst, learned[0], covered[0], traces[wfid], times[wfid]);
      traces, times := traces[wfid := trace], times[wfid := ts];
      f := CollectJudged(f, now, inst, learned[1], covered[1], trace, ts);
      if IsEnd(inst.inst) {
        ended := ended + {wfid};
      }
      wfcount_map := wfcount_map[wfid := f];
    }

    /** The rest of Collect: mark the end of a block, or flush the last one. */
    method CollectJudged(f: WfBranchFeature, now: real, inst: Fetch, learned: map<BBL, real>, covered: bool,
                         ghost trace: seq<Fetch>, ghost ts: seq<real>) returns (r: WfBranchFeature)
      requires Judging(f, trace, ts) && |trace| > 0 && trace[|trace| - 1] == inst
      modifies `sampled, `enableSampled
      ensures r.wfStartTime == f.wfStartTime
      ensures if IsEnd(inst.inst) then r.bbl_seq == Blocks(trace) && r.lastBBLFinishTime == now
              else Measuring(r, trace, ts)
      ensures enableSampled == (old(enableSampled) || (IsEnd(inst.inst) && covered))
      ensures sampled == if IsEnd(inst.inst) then learned else old(sampled)
    {
      hide Measuring, Judging, Blocks, Flushed, AfterCut;
      JudgedInst(f, trace, ts, now, inst.pc);
      NotYetMarked(f, trace, ts);
      r := f;
      var flush_data := false;
      if inst.inst.sopp {
        if inst.inst.opcode == 2 || 4 <= inst.inst.opcode <= 10 {
          r := r.(last_inst_is_branch := true);
        } else if inst.inst.opcode == 1 {
          flush_data := true;
          r := r.(currentIns := r.currentIns + INST_WIDTH);
        }
      }
      if flush_data {
        FlushedTimes(r, now, inst.pc);
        r := Flush(r, now, inst.pc, learned, covered);
      }
    }

    // -------------------------------------------------------------------------------------
    // Prediction
    // -------------------------------------------------------------------------------------

    /** `m` blocks of wavefront `wfid` have been answered for; its first `k` were measured to take `interval`. */
    ghost predicate Replaying(wfid: UID, k: nat, interval: real, m: nat)
      reads this
    {
      if k > 0 && m < k then
        && wfid in wfcount_map
        && |wfcount_map[wfid].bbl_seq| == k && wfcount_map[wfid].predict_bb_idx == m
        && interval == wfcount_map[wfid].lastBBLFinishTime - wfcount_map[wfid].wfStartTime - startTick
      else
        wfid in wfcount_map ==> k == 0 && wfcount_map[wfid].bbl_seq == [] && wfcount_map[wfid].predict_bb_idx == m
    }

    method Predict(wfid: UID, bbv: BBL, ghost k: nat, ghost interval: real, ghost m: nat) returns (t: real)
      requires CacheValid() && (enableSampled ==> Replaying(wfid, k, interval, m))
      requires enableSampled ==> bbv in sampled || bbv in static_compute_unit.Bbv2insts
      modifies `wfcount_map, `bbv2bbmodeltime_map
      ensures !enableSampled ==> t == 0.0 && wfcount_map == old(wfcount_map)
      ensures CacheValid() && (enableSampled ==> Replaying(wfid, k, interval, m + 1))
      ensures enableSampled ==> t == Share(k, interval, m + 1,
              ModelTime(sampled, static_compute_unit.Bbv2insts, model, bbv))
      ensures enableSampled && (k == 0 || m >= k) ==>
                t == if bbv in sampled then sampled[bbv] else model(static_compute_unit.Bbv2insts[bbv])
      ensures bbv2bbmodeltime_map == if enableSampled && (k == 0 || m >= k) && bbv !in sampled
              then old(bbv2bbmodeltime_map)[bbv := t] else old(bbv2bbmodeltime_map)
      ensures enableSampled && m + 1 == k ==> t == interval
      ensures enableSampled && m + 1 < k ==> t == 0.0
      ensures forall w | w != wfid :: w in wfcount_map <==> w in old(wfcount_map)
      ensures forall w | w != wfid && w in wfcount_map :: wfcount_map[w] == old(wfcount_map)[w]
    {
      if enableSampled {
        if wfid in wfcount_map {
          var f := wfcount_map[wfid];
          f := f.(predict_bb_idx := f.predict_bb_idx + 1);
          wfcount_map := wfcount_map[wfid := f];
          if f.predict_bb_idx == |f.bbl_seq| {
            var measured := f.lastBBLFinishTime - f.wfStartTime;
            measured := measured - StartTime();
            wfcount_map := wfcount_map - {wfid};
            return measured;
          } else if f.predict_bb_idx < |f.bbl_seq| {
            return 0.0;
          }
        }
        if bbv in sampled {
          return sampled[bbv];
        }
        if bbv in bbv2bbmodeltime_map {
          return bbv2bbmodeltime_map[bbv];
        }
        var insts := static_compute_unit.GetBBLInsts(bbv);
        t := model(insts);
        bbv2bbmodeltime_map := bbv2bbmodeltime_map[bbv := t];
      } else {
        return 0.0;
      }
    }
  }
}
