/**
 The sliding window of instruction counts, samples/sampledrunner/ipctracer.go:67-143: a ring array
 of 3000 per-cycle counts and their running sum.

 The caller gives the cycle number and the verdict of the deviation test, which the code computes
 in floating point.
 */
module IpcWindow {

  const IPC_GRANULARY: nat := 3000

  /** Instructions collected at a cycle. */
  datatype Event = Event(cycle: nat, insnum: nat)

  predicate InTime(trace: seq<Event>) {
    forall i, j | 0 <= i < j < |trace| :: trace[i].cycle <= trace[j].cycle
  }

  /** The instructions of one cycle. */
  function At(trace: seq<Event>, cycle: int): nat {
    if trace == [] then 0
    else At(trace[..|trace| - 1], cycle) + if trace[|trace| - 1].cycle == cycle then trace[|trace| - 1].insnum else 0
  }

  /** The instructions of the last 3000 cycles up to `cycle`. */
  function Window(trace: seq<Event>, cycle: int): nat {
    if trace == [] then 0
    else
      var e := trace[|trace| - 1];
      Window(trace[..|trace| - 1], cycle) + if cycle - IPC_GRANULARY < e.cycle <= cycle then e.insnum else 0
  }

  function Total(trace: seq<Event>): nat {
    if trace == [] then 0 else Total(trace[..|trace| - 1]) + trace[|trace| - 1].insnum
  }

  /** When the window moves on by a cycle, one cycle leaves it and one enters it. */
  lemma {:induction false} WindowStep(trace: seq<Event>, cycle: int)
    ensures Window(trace, cycle) + At(trace, cycle - IPC_GRANULARY) == Window(trace, cycle - 1) + At(trace, cycle)
  {
    if trace != [] {
      WindowStep(trace[..|trace| - 1], cycle);
    }
  }

  lemma {:induction false} NothingLater(trace: seq<Event>, cycle: int)
    requires InTime(trace) && (trace != [] ==> trace[|trace| - 1].cycle < cycle)
    ensures At(trace, cycle) == 0
  {
    if trace != [] {
      if |trace| > 1 { assert trace[|trace| - 2].cycle <= trace[|trace| - 1].cycle; }
      NothingLater(trace[..|trace| - 1], cycle);
    }
  }

  /** When all cycles so far are in the window, it holds everything. */
  lemma {:induction false} WindowIsTotal(trace: seq<Event>, cycle: int)
    requires forall i | 0 <= i < |trace| :: cycle - IPC_GRANULARY < trace[i].cycle <= cycle
    ensures Window(trace, cycle) == Total(trace)
  {
    if trace != [] {
      WindowIsTotal(trace[..|trace| - 1], cycle);
    }
  }

  /** The last cycle up to `cycle` that is counted in slot `r`. */
  function CycleOf(cycle: int, r: nat): int {
    cycle - (cycle - r) % IPC_GRANULARY
  }

  lemma SlotMoves(cycle: nat, r: nat)
    requires r < IPC_GRANULARY
    ensures r == cycle % IPC_GRANULARY ==> CycleOf(cycle, r) == cycle && CycleOf(cycle - 1, r) == cycle - IPC_GRANULARY
    ensures r != cycle % IPC_GRANULARY ==> CycleOf(cycle, r) == CycleOf(cycle - 1, r) && CycleOf(cycle, r) != cycle
  {}

  /** Every cycle of the window has a slot of its own. */
  lemma SlotOf(cycle: nat, c: nat)
    requires cycle - IPC_GRANULARY < c <= cycle
    ensures CycleOf(cycle, c % IPC_GRANULARY) == c
  {}

  /** The slots and their sum hold the window that ends at `cycle`. */
  ghost predicate Slotted(slots: seq<nat>, sum: nat, trace: seq<Event>, cycle: nat)
    requires |slots| == IPC_GRANULARY
  {
    && (forall r | 0 <= r < IPC_GRANULARY :: slots[r] == At(trace, CycleOf(cycle, r)))
    && sum == Window(trace, cycle)
  }

  predicate AllZero(slots: seq<nat>) {
    forall i | 0 <= i < |slots| :: slots[i] == 0
  }

  class IPCSampledEngine {
    const instnums: array<nat>
    var last_cycle: nat
    var End_cycle: nat
    var Start_cycle: nat
    var interval_insts_sum: nat
    var Insts_sum: nat
    var Avg_IPC: real
    var Inited: bool
    ghost var trace: seq<Event>

    /** The ring array and its sum hold the window that ends at `cycle`. */
    ghost predicate Holds(cycle: nat)
      reads `interval_insts_sum, `trace, instnums
    {
      && instnums.Length == IPC_GRANULARY
      && Slotted(instnums[..], interval_insts_sum, trace, cycle)
    }

    ghost predicate Valid()
      reads this, instnums
    {
      && instnums.Length == IPC_GRANULARY && InTime(trace) && Insts_sum == Total(trace)
      && (Inited <==> trace != [])
      && (Inited ==>
            last_cycle == End_cycle == trace[|trace| - 1].cycle && Start_cycle == trace[0].cycle && Holds(last_cycle))
      && (!Inited ==> AllZero(instnums[..]))
    }

    constructor ()
      ensures Valid() && trace == []
    {
      last_cycle, End_cycle, Start_cycle, interval_insts_sum, Insts_sum, Avg_IPC, Inited := 0, 0, 0, 0, 0, 0.0, false;
      instnums := new nat[IPC_GRANULARY](_ => 0);
      trace := [];
    }

    /** Each count of the window can be read off its slot. */
    lemma CountOf(c: nat)
      requires Valid() && Inited && last_cycle - IPC_GRANULARY < c <= last_cycle
      ensures instnums[c % IPC_GRANULARY] == At(trace, c)
    {
      SlotOf(last_cycle, c);
    }

    /**
     Collect. Between two cycles with instructions all slots in between are cleared, however many
     they are. When the window is full and its counts are stable, the average goes to Avg_IPC and
     the program ends.
     */
    method Collect(cycle: nat, insnum: nat, stable: bool) returns (exits: bool)
      requires Valid() && (Inited ==> last_cycle <= cycle)
      modifies this, instnums
      ensures !exits ==> Valid() && Inited && trace == old(trace) + [Event(cycle, insnum)]
      ensures exits <==> old(Inited) && cycle != old(last_cycle) && cycle - old(Start_cycle) >= IPC_GRANULARY && stable
      ensures !exits ==> Avg_IPC == old(Avg_IPC)
      ensures exits ==> Avg_IPC == Window(old(trace), old(last_cycle)) as real / IPC_GRANULARY as real
    {
      hide At, Window, CycleOf, Total, Slotted, InTime, AllZero, IPCSampledEngine.Holds;
      ghost var event := Event(cycle, insnum);
      ghost var after := trace + [event];
      NextTotal(trace, event);
      LastInTime(trace, event);
      End_cycle := cycle;
      Insts_sum := Insts_sum + insnum;
      if !Inited {
        Inited := true;
        Start_cycle := cycle;
        last_cycle := cycle;
        PutFirst(cycle, insnum);
        assert after == [event];
      } else if cycle == last_cycle {
        Put(cycle, instnums[cycle % IPC_GRANULARY] + insnum, insnum);
      } else {
        if cycle - Start_cycle >= IPC_GRANULARY {
          if stable {
            Stop();
            return true;
          }
        }
        ClearTo(cycle);
        Put(cycle, insnum, insnum);
        last_cycle := cycle;
      }
      return false;
    }

    /** The average of the window. */
    method Stop()
      requires Holds(last_cycle)
      modifies `Avg_IPC
      ensures Avg_IPC == Window(trace, last_cycle) as real / IPC_GRANULARY as real
    {
      hide At, Window, CycleOf;
      Avg_IPC := interval_insts_sum as real / IPC_GRANULARY as real;
    }

    /** The first count goes into an empty window. */
    method PutFirst(cycle: nat, insnum: nat)
      requires instnums.Length == IPC_GRANULARY && AllZero(instnums[..])
      modifies `interval_insts_sum, `trace, instnums
      ensures Holds(cycle) && trace == [Event(cycle, insnum)]
    {
      hide At, Window, CycleOf, Slotted;
      var idxRound := cycle % IPC_GRANULARY;
      instnums[idxRound] := insnum;
      interval_insts_sum := insnum;
      FirstEvent(Event(cycle, insnum), instnums[..]);
      trace := [Event(cycle, insnum)];
    }

    /** The slot of the cycle that ends the window gets its new count, and the sum grows with it. */
    method Put(cycle: nat, count: nat, insnum: nat)
      requires Holds(cycle) && count == instnums[cycle % IPC_GRANULARY] + insnum
      modifies `interval_insts_sum, `trace, instnums
      ensures Holds(cycle) && trace == old(trace) + [Event(cycle, insnum)]
    {
      hide At, Window, CycleOf, Slotted;
      ghost var slots := instnums[..];
      var idxRound := cycle % IPC_GRANULARY;
      instnums[idxRound] := count;
      SameCycle(slots, instnums[..], interval_insts_sum, trace, Event(cycle, insnum));
      interval_insts_sum := interval_insts_sum + insnum;
      trace := trace + [Event(cycle, insnum)];
    }

    /** The window moves on to `cycle`, one cycle after the other. */
    method ClearTo(cycle: nat)
      requires InTime(trace) && trace != [] && trace[|trace| - 1].cycle == last_cycle < cycle && Holds(last_cycle)
      modifies `interval_insts_sum, instnums
      ensures Holds(cycle) && instnums[cycle % IPC_GRANULARY] == 0
    {
      hide At, Window, CycleOf;
      for idx := last_cycle + 1 to cycle
        invariant Holds(idx - 1)
      {
        NothingLater(trace, idx);
        Clear(idx);
      }
      NothingLater(trace, cycle);
      Clear(cycle);
    }

    /** The slot of a new cycle is cleared; the running sum never falls below zero. */
    method Clear(idx: nat)
      requires idx > 0 && Holds(idx - 1) && At(trace, idx) == 0
      modifies `interval_insts_sum, instnums
      ensures Holds(idx) && instnums[idx % IPC_GRANULARY] == 0
    {
      hide At, Window, CycleOf;
      WindowStep(trace, idx);
      Slots(idx);
      var idxRound := idx % IPC_GRANULARY;
      interval_insts_sum := interval_insts_sum - instnums[idxRound];
      instnums[idxRound] := 0;
    }

    lemma Slots(idx: nat)
      ensures forall r | 0 <= r < IPC_GRANULARY && r != idx % IPC_GRANULARY ::
                CycleOf(idx, r) == CycleOf(idx - 1, r) && CycleOf(idx, r) != idx
      ensures CycleOf(idx, idx % IPC_GRANULARY) == idx && CycleOf(idx - 1, idx % IPC_GRANULARY) == idx - IPC_GRANULARY
    {
      hide CycleOf;
      forall r: nat | 0 <= r < IPC_GRANULARY
        ensures r != idx % IPC_GRANULARY ==> CycleOf(idx, r) == CycleOf(idx - 1, r) && CycleOf(idx, r) != idx
        ensures r == idx % IPC_GRANULARY ==> CycleOf(idx, r) == idx && CycleOf(idx - 1, r) == idx - IPC_GRANULARY
      {
        SlotMoves(idx, r);
      }
    }

    lemma OneMore(t: seq<Event>, e: Event)
      ensures forall c: int :: At(t + [e], c) == At(t, c) + if c == e.cycle then e.insnum else 0
      ensures Window(t + [e], e.cycle) == Window(t, e.cycle) + e.insnum
    {
      assert (t + [e])[..|t|] == t;
    }

    lemma NextTotal(t: seq<Event>, e: Event)
      ensures Total(t + [e]) == Total(t) + e.insnum
    {
      assert (t + [e])[..|t|] == t;
    }

    lemma LastInTime(t: seq<Event>, e: Event)
      requires InTime(t) && (t != [] ==> t[|t| - 1].cycle <= e.cycle)
      ensures InTime(t + [e])
    {}

    lemma FirstEvent(e: Event, slots: seq<nat>)
      requires |slots| == IPC_GRANULARY && slots[e.cycle % IPC_GRANULARY] == e.insnum
      requires forall i | 0 <= i < IPC_GRANULARY && i != e.cycle % IPC_GRANULARY :: slots[i] == 0
      ensures Slotted(slots, e.insnum, [e], e.cycle)
    {
      hide CycleOf;
      OneMore([], e);
      assert [] + [e] == [e];
      Slots(e.cycle);
    }

    lemma SameCycle(before: seq<nat>, after: seq<nat>, sum: nat, t: seq<Event>, e: Event)
      requires |before| == IPC_GRANULARY && Slotted(before, sum, t, e.cycle)
      requires after == before[e.cycle % IPC_GRANULARY := before[e.cycle % IPC_GRANULARY] + e.insnum]
      ensures Slotted(after, sum + e.insnum, t + [e], e.cycle)
    {
      hide At, Window, CycleOf, Total;
      OneMore(t, e);
      Slots(e.cycle);
    }
  }
}
