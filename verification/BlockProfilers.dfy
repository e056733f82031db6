/**
 The two block profilers: OnlineBbv.CountInst (profiler/wf_feature.go) and
 BranchFeature.Collect (profiler/branch_feature.go).

 Both see a wavefront's instructions one by one. They learn that a block is complete only
 from the instruction after it, and start counting at the second instruction of the trace;
 at s_endpgm they count the last instruction twice. Each is proved equal to the reference
 splitter.
 */
module BlockProfilers {
  import opened Instructions
  import opened BlockTrace

  ghost predicate Tally(counts: map<BBL, nat>, blocks: seq<BBL>) {
    forall b :: (if b in counts then counts[b] else 0) == multiset(blocks)[b]
  }

  class OnlineBbv {
    var inscount: int
    var lastinscount: int
    var inited: bool
    var startPC: int
    var lastPC: int
    var bbv_count: map<BBL, nat>
    var last_is_branch: bool
    ghost var trace: seq<Fetch>
    ghost var counted: seq<BBL>

    /** The counters while the wavefront runs. */
    ghost predicate Valid()
      reads this
    {
      && Tally(bbv_count, counted)
      && inited == (|trace| > 0)
      && if inited then Lagging(trace, counted, startPC, lastPC, inscount - lastinscount, last_is_branch)
         else counted == []
    }

    constructor ()
      ensures Valid() && trace == []
    {
      inited, last_is_branch := false, false;
      inscount, lastinscount, startPC, lastPC := 0, 0, 0, 0;
      bbv_count := map[];
      trace, counted := [], [];
    }

    method Count(pc: int, count: int)
      modifies `bbv_count, `counted
      requires Tally(bbv_count, counted)
      ensures Tally(bbv_count, counted) && counted == old(counted) + [BBL(pc, count)]
    {
      var bb := BBL(pc, count);
      bbv_count := bbv_count[bb := (if bb in bbv_count then bbv_count[bb] else 0) + 1];
      counted := counted + [bb];
    }

    /** CountInst up to its first flush: count the block that ended before this instruction. */
    method CountPending(f: Fetch)
      requires Valid()
      modifies this
      ensures trace == old(trace) + [f] && inited && !last_is_branch && Tally(bbv_count, counted)
      ensures Opened(trace, counted, startPC, lastPC, inscount - lastinscount)
    {
      hide Opened, Lagging, Tally, Rel;
      if !inited {
        startPC := f.pc;
        lastPC := f.pc;
        inited := true;
        last_is_branch := false;
        inscount := INST_WIDTH;
        lastinscount := INST_WIDTH;
        LagFirst(f);
        assert trace + [f] == [f];
      } else {
        LagNext(trace, f, counted, startPC, lastPC, inscount - lastinscount, last_is_branch);
        inscount := inscount + INST_WIDTH;
      }
      if last_is_branch {
        last_is_branch := false;
        Count(Rel(lastPC, startPC), inscount - lastinscount);
        lastinscount := inscount;
        lastPC := f.pc;
      }
      trace := trace + [f];
    }

    /** After s_endpgm every block of the run is counted, as often as it was executed. */
    method CountInst(f: Fetch)
      requires Valid()
      modifies this
      ensures trace == old(trace) + [f]
      ensures !IsEnd(f.inst) ==> Valid()
      ensures IsEnd(f.inst) ==> counted == Blocks(trace) && Tally(bbv_count, Blocks(trace))
    {
      hide Opened, Lagging, Blocks, Tally, Rel;
      CountPending(f);
      LagEnd(trace, counted, startPC, lastPC, inscount - lastinscount);
      var flush_data := false;
      if f.inst.sopp {
        if f.inst.opcode == 2 || 4 <= f.inst.opcode <= 10 {
          last_is_branch := true;
        } else if f.inst.opcode == 1 {
          inscount := inscount + INST_WIDTH;
          flush_data := true;
        }
      }
      if flush_data {
        Count(Rel(lastPC, startPC), inscount - lastinscount);
      }
    }
  }

  /** A recorded block, with the times at which it began and at which the next one began. */
  datatype BBVDataFeature = BBVDataFeature(Start_time: real, End_time: real, Bbv: BBL)

  function Bbvs(features: seq<BBVDataFeature>): seq<BBL> {
    seq(|features|, i requires 0 <= i < |features| => features[i].Bbv)
  }

  /** The records follow each other without gaps from time `t0` to time `t1`. */
  ghost predicate Contiguous(features: seq<BBVDataFeature>, t0: real, t1: real) {
    if features == [] then t0 == t1
    else
      && features[|features| - 1].End_time == t1
      && Contiguous(features[..|features| - 1], t0, features[|features| - 1].Start_time)
  }

  lemma RecordsGrow(features: seq<BBVDataFeature>, t0: real, r: BBVDataFeature)
    requires Contiguous(features, t0, r.Start_time)
    ensures Contiguous(features + [r], t0, r.End_time)
    ensures Bbvs(features + [r]) == Bbvs(features) + [r.Bbv]
  {
    assert (features + [r])[..|features + [r]| - 1] == features;
  }

  datatype WfBranchFeature = WfBranchFeature(startTime: real, startIns: int, currentIns: int, PC: int, StartPC: int,
                                             flush_data: bool)

  /** The run of a wavefront: what it executed, when it began, and how many records earlier runs under its id left. */
  datatype WfRun = WfRun(trace: seq<Fetch>, began: real, earlier: nat)

  /** The record of the open block. */
  function RecordOf(f: WfBranchFeature, now: real): BBVDataFeature {
    BBVDataFeature(f.startTime, now, BBL(Rel(f.PC, f.StartPC), f.currentIns - f.startIns))
  }

  function Reopened(f: WfBranchFeature, now: real, pc: int): WfBranchFeature {
    f.(startIns := f.currentIns, PC := pc, startTime := now)
  }

  /** The last instruction of the run is in its open block, and all earlier blocks are recorded. */
  ghost predicate Judging(f: WfBranchFeature, run: WfRun, own: seq<BBVDataFeature>) {
    && Opened(run.trace, Bbvs(own), f.StartPC, f.PC, f.currentIns - f.startIns)
    && Contiguous(own, run.began, f.startTime) && !f.flush_data
  }

  /** Between two instructions of the run. */
  ghost predicate Recording(f: WfBranchFeature, run: WfRun, own: seq<BBVDataFeature>) {
    && Lagging(run.trace, Bbvs(own), f.StartPC, f.PC, f.currentIns - f.startIns, f.flush_data)
    && Contiguous(own, run.began, f.startTime)
  }

  lemma FirstOf(f: Fetch, now: real, earlier: nat)
    ensures Judging(WfBranchFeature(now, INST_WIDTH, INST_WIDTH, f.pc, f.pc, false), WfRun([f], now, earlier), [])
  {
    LagFirst(f);
    assert Bbvs([]) == [];
  }

  lemma NextOf(f: WfBranchFeature, run: WfRun, own: seq<BBVDataFeature>, inst: Fetch, now: real)
    requires Recording(f, run, own)
    ensures var g, longer := f.(currentIns := f.currentIns + INST_WIDTH), run.(trace := run.trace + [inst]);
            if f.flush_data then
              Judging(Reopened(g.(flush_data := false), now, inst.pc), longer, own + [RecordOf(g, now)])
            else Judging(g, longer, own)
  {
    hide Opened, Lagging, Rel, Contiguous;
    var g := f.(currentIns := f.currentIns + INST_WIDTH);
    LagNext(run.trace, inst, Bbvs(own), f.StartPC, f.PC, f.currentIns - f.startIns, f.flush_data);
    RecordsGrow(own, run.began, RecordOf(g, now));
  }

  /** s_endpgm ends the last block; otherwise the feature waits for the next instruction. */
  lemma JudgedOf(f: WfBranchFeature, run: WfRun, own: seq<BBVDataFeature>, now: real)
    requires Judging(f, run, own) && |run.trace| > 0
    ensures var last := run.trace[|run.trace| - 1].inst;
            if IsEnd(last) then
              var all := own + [RecordOf(f.(currentIns := f.currentIns + INST_WIDTH), now)];
              Bbvs(all) == Blocks(run.trace) && Contiguous(all, run.began, now)
            else Recording(f.(flush_data := IsCut(last)), run, own)
  {
    hide Opened, Lagging, Rel, Blocks, Contiguous;
    LagEnd(run.trace, Bbvs(own), f.StartPC, f.PC, f.currentIns - f.startIns);
    RecordsGrow(own, run.began, RecordOf(f.(currentIns := f.currentIns + INST_WIDTH), now));
  }

  /** The records that a wavefront has made, in a list that all wavefronts share. */
  ghost function RecordsOf(features: seq<BBVDataFeature>, who: seq<UID>, w: UID): seq<BBVDataFeature>
    requires |features| == |who|
  {
    if features == [] then []
    else
      var n := |features| - 1;
      RecordsOf(features[..n], who[..n], w) + if who[n] == w then [features[n]] else []
  }

  lemma OneMoreRecord(features: seq<BBVDataFeature>, who: seq<UID>, r: BBVDataFeature, v: UID, w: UID)
    requires |features| == |who|
    ensures RecordsOf(features + [r], who + [v], w)
            == if v == w then RecordsOf(features, who, w) + [r] else RecordsOf(features, who, w)
  {
    assert (features + [r])[..|features|] == features && (who + [v])[..|who|] == who;
  }

  /** BranchFeature: the wavefronts' instructions come interleaved, and they share one list of records. */
  class BranchFeature {
    var Bbv_data_features: seq<BBVDataFeature>
    var wfcount_map: map<UID, WfBranchFeature>
    ghost var who: seq<UID> // made each record
    ghost var runs: map<UID, WfRun> // the latest run of each wavefront

    /** The records of the latest run of a wavefront. */
    ghost function Own(w: UID): seq<BBVDataFeature>
      requires |who| == |Bbv_data_features| && w in runs
      reads `Bbv_data_features, `who, `runs
    {
      var all := RecordsOf(Bbv_data_features, who, w);
      if runs[w].earlier <= |all| then all[runs[w].earlier..] else []
    }

    ghost predicate Kept()
      reads `Bbv_data_features, `who, `runs
    {
      |who| == |Bbv_data_features|
      && forall w | w in runs :: runs[w].earlier <= |RecordsOf(Bbv_data_features, who, w)|
    }

    ghost predicate Valid()
      reads this
    {
      Kept() && forall w | w in wfcount_map :: w in runs && Recording(wfcount_map[w], runs[w], Own(w))
    }

    constructor ()
      ensures Valid() && wfcount_map == map[] && runs == map[] && Bbv_data_features == []
    {
      Bbv_data_features, wfcount_map, who, runs := [], map[], [], map[];
    }

    /** One record of the wavefront's open block; the records of all others are as they were. */
    method FlushData(f: WfBranchFeature, now: real, pc: int, ghost wfid: UID) returns (r: WfBranchFeature)
      requires Kept()
      modifies `Bbv_data_features, `who
      ensures Kept() && r == Reopened(f, now, pc)
      ensures Bbv_data_features == old(Bbv_data_features) + [RecordOf(f, now)]
      ensures forall w | w in runs :: Own(w) == if w == wfid then old(Own(w)) + [RecordOf(f, now)] else old(Own(w))
    {
      hide RecordsOf, Rel;
      var inscount := f.currentIns - f.startIns;
      var bbvdatafeature := BBVDataFeature(f.startTime, now, BBL(Rel(f.PC, f.StartPC), inscount));
      forall w ensures RecordsOf(Bbv_data_features + [bbvdatafeature], who + [wfid], w)
                       == if wfid == w then RecordsOf(Bbv_data_features, who, w) + [bbvdatafeature]
                          else RecordsOf(Bbv_data_features, who, w)
      {
        OneMoreRecord(Bbv_data_features, who, bbvdatafeature, wfid, w);
      }
      r := f.(startIns := f.currentIns, PC := pc, startTime := now);
      Bbv_data_features := Bbv_data_features + [bbvdatafeature];
      who := who + [wfid];
    }

    /** Collect up to its first flush. */
    method CollectPending(wfid: UID, now: real, inst: Fetch) returns (f: WfBranchFeature)
      requires Valid()
      modifies `Bbv_data_features, `who, `runs
      ensures Kept() && runs.Keys == old(runs).Keys + {wfid} && Judging(f, runs[wfid], Own(wfid))
      ensures runs[wfid].trace == (if wfid in wfcount_map then old(runs)[wfid].trace else []) + [inst]
      ensures runs[wfid].began == if wfid in wfcount_map then old(runs)[wfid].began else now
      ensures old(Bbv_data_features) <= Bbv_data_features
      ensures forall w | w in old(runs) && w != wfid :: runs[w] == old(runs)[w] && Own(w) == old(Own(w))
    {
      hide RecordsOf, Judging, Recording, RecordOf, Reopened, Opened, Lagging, Contiguous, Bbvs, Rel;
      if wfid !in wfcount_map {
        f := WfBranchFeature(now, INST_WIDTH, INST_WIDTH, inst.pc, inst.pc, false);
        ghost var earlier := |RecordsOf(Bbv_data_features, who, wfid)|;
        runs := runs[wfid := WfRun([inst], now, earlier)];
        FirstOf(inst, now, earlier);
        return;
      }
      f := wfcount_map[wfid];
      NextOf(f, runs[wfid], Own(wfid), inst, now);
      f := f.(currentIns := f.currentIns + INST_WIDTH);
      runs := runs[wfid := runs[wfid].(trace := runs[wfid].trace + [inst])];
      if f.flush_data {
        ghost var g := f;
        f := f.(flush_data := false);
        SameRecord(g, f, now);
        f := FlushData(f, now, inst.pc, wfid);
      }
    }

    static lemma SameRecord(f: WfBranchFeature, g: WfBranchFeature, now: real)
      requires g == f.(flush_data := g.flush_data)
      ensures RecordOf(f, now) == RecordOf(g, now)
    {}

    /**
     After s_endpgm the wavefront's records are the blocks of its run and tile it from its first
     instruction on, whatever other wavefronts do in between.
     */
    method Collect(wfid: UID, now: real, inst: Fetch)
      requires Valid()
      modifies this
      ensures Valid() && (wfid in wfcount_map <==> !IsEnd(inst.inst)) && wfid in runs
      ensures runs[wfid].trace == (if wfid in old(wfcount_map) then old(runs)[wfid].trace else []) + [inst]
      ensures runs[wfid].began == if wfid in old(wfcount_map) then old(runs)[wfid].began else now
      ensures IsEnd(inst.inst) ==>
                Bbvs(Own(wfid)) == Blocks(runs[wfid].trace) && Contiguous(Own(wfid), runs[wfid].began, now)
      ensures old(Bbv_data_features) <= Bbv_data_features
      ensures forall w | w in old(runs) && w != wfid :: w in runs && runs[w] == old(runs)[w] && Own(w) == old(Own(w))
      ensures forall w | w != wfid :: w in wfcount_map <==> w in old(wfcount_map)
      ensures forall w | w != wfid && w in wfcount_map :: wfcount_map[w] == old(wfcount_map)[w]
    {
      hide Judging, Recording, Blocks, Contiguous, RecordsOf, RecordOf, Reopened, BranchFeature.Own, Bbvs;
      var f := CollectPending(wfid, now, inst);
      JudgedOf(f, runs[wfid], Own(wfid), now);
      Unmarked(f, runs[wfid], Own(wfid));
      var flush_data := false;
      if inst.inst.sopp {
        if inst.inst.opcode == 1 {
          wfcount_map := wfcount_map - {wfid};
          f := f.(currentIns := f.currentIns + INST_WIDTH);
          flush_data := true;
        } else if inst.inst.opcode == 2 || 4 <= inst.inst.opcode <= 10 {
          f := f.(flush_data := true);
        }
      }
      if flush_data {
        f := FlushData(f, now, inst.pc, wfid);
      } else {
        wfcount_map := wfcount_map[wfid := f];
      }
    }

    static lemma Unmarked(f: WfBranchFeature, run: WfRun, own: seq<BBVDataFeature>)
      requires Judging(f, run, own)
      ensures f.(flush_data := false) == f
    {}
  }
}
