/**
 The sampled time engine, samples/sampledrunner/sampledengine.go:98-209: wavefronts whose end
 time was predicted wait in a heap; wake-up events complete them; when the last wavefront of a
 kernel is submitted, the pending end times are rescaled.

 Times are reals. The heap library is used through its contract: its first element ends first.
 The event engine delivers wake-up events in time order; the tick grid is a parameter.
 */
module SampledEngine {
  import opened Collections

  datatype Wavefront = Wavefront(id: nat, cu: nat, starttime: real, endtime: real, submitted: bool)

  /** WfCompletionEvent: tells compute unit `cu` that a wavefront is done. */
  datatype Completion = Completion(time: real, cu: nat, id: nat)

  function WfIds(s: seq<Wavefront>): seq<nat> {
    seq(|s|, i requires 0 <= i < |s| => s[i].id)
  }

  function CompletionIds(s: seq<Completion>): seq<nat> {
    seq(|s|, i requires 0 <= i < |s| => s[i].id)
  }

  lemma WfIdsConcat(s: seq<Wavefront>, t: seq<Wavefront>)
    ensures WfIds(s + t) == WfIds(s) + WfIds(t)
  {}

  lemma WfIdsOne(w: Wavefront)
    ensures WfIds([w]) == [w.id] && WfIds([]) == []
  {}

  lemma WithoutBag(t: seq<Wavefront>, j: nat)
    requires j < |t|
    ensures multiset(t) == multiset(RemoveAt(t, j)) + multiset{t[j]}
  {
    assert t == t[..j] + [t[j]] + t[j + 1..];
  }

  lemma WithoutIds(t: seq<Wavefront>, j: nat)
    requires j < |t|
    ensures multiset(WfIds(t)) == multiset(WfIds(RemoveAt(t, j))) + multiset{t[j].id}
  {
    hide WfIds;
    assert t == t[..j] + ([t[j]] + t[j + 1..]);
    WfIdsConcat(t[..j], [t[j]] + t[j + 1..]);
    WfIdsConcat([t[j]], t[j + 1..]);
    WfIdsConcat(t[..j], t[j + 1..]);
    WfIdsOne(t[j]);
  }

  lemma {:induction false} PermutedIds(s: seq<Wavefront>, t: seq<Wavefront>)
    requires multiset(s) == multiset(t)
    ensures multiset(WfIds(s)) == multiset(WfIds(t))
    decreases |s|
  {
    hide WfIds, RemoveAt;
    if s == [] {
      assert |multiset(t)| == 0;
    } else {
      assert s[0] in multiset(t);
      var j :| 0 <= j < |t| && t[j] == s[0];
      WithoutBag(s, 0);
      WithoutBag(t, j);
      WithoutIds(s, 0);
      WithoutIds(t, j);
      CancelOne(multiset(RemoveAt(s, 0)), multiset(RemoveAt(t, j)), s[0]);
      assert |RemoveAt(s, 0)| < |s| by { Shorter(s, 0); }
      PermutedIds(RemoveAt(s, 0), RemoveAt(t, j));
    }
  }

  lemma Shorter(t: seq<Wavefront>, j: nat)
    requires j < |t|
    ensures |RemoveAt(t, j)| == |t| - 1
  {}

  lemma SplitIds(a: seq<Wavefront>, b: seq<Wavefront>, all: seq<Wavefront>)
    requires multiset(a) + multiset(b) == multiset(all)
    ensures multiset(WfIds(a)) + multiset(WfIds(b)) == multiset(WfIds(all))
  {
    hide WfIds;
    PermutedIds(a + b, all);
    WfIdsConcat(a, b);
  }

  /** What the heap promises: no element ends before the first. */
  predicate HeadFirst(s: seq<Wavefront>) {
    forall i | 0 <= i < |s| :: s[0].endtime <= s[i].endtime
  }

  function Ends(s: seq<Wavefront>): (r: seq<real>)
    ensures |r| == |s| && forall i | 0 <= i < |s| :: r[i] == s[i].endtime
  {
    seq(|s|, i requires 0 <= i < |s| => s[i].endtime)
  }

  predicate Ascending(ends: seq<real>) {
    forall i, j | 0 <= i < j < |ends| :: ends[i] <= ends[j]
  }

  /** The time that `left` running wavefronts need to get through a gap of theirs with `active` side by side. */
  function Share(gap: real, left: nat, active: nat): real
    requires active > 0
  {
    gap * left as real / active as real
  }

  /**
   The k-th end time after rescaling: with `active` wavefronts running side by side, the gap
   before the k-th end is filled by the |ends| - k wavefronts still running.
   */
  function Rescaled(ends: seq<real>, active: nat, k: nat): real
    requires k < |ends| && active > 0
  {
    if k == 0 then ends[0]
    else Rescaled(ends, active, k - 1) + Share(ends[k] - ends[k - 1], |ends| - k, active)
  }

  /** The time the wavefronts up to the k-th run beyond the first end. */
  function Overtime(ends: seq<real>, k: nat): real
    requires k < |ends|
  {
    if k == 0 then 0.0 else Overtime(ends, k - 1) + (ends[k] - ends[0])
  }

  lemma ShareIs(gap: real, left: nat, active: nat)
    requires active > 0
    ensures Share(gap, left, active) == gap * left as real / active as real
  {}

  lemma ShareOfWork(gap: real, left: nat, active: nat)
    requires active > 0
    ensures active as real * Share(gap, left, active) == gap * left as real
  {}

  lemma Distribute(a: real, x: real, y: real)
    ensures a * (x + y) == a * x + a * y
  {}

  lemma Weighted(left: real, e: real, f: real, g: real)
    ensures (left + 1.0) * (f - e) + (g - f) * (left + 1.0) == (g - e) + left * (g - e)
  {}

  /** Up to each wavefront, the rescaled time times the active ones is the work done until then. */
  lemma {:induction false} WorkSoFar(ends: seq<real>, active: nat, k: nat)
    requires k < |ends| && active > 0
    ensures active as real * (Rescaled(ends, active, k) - ends[0])
            == Overtime(ends, k) + (|ends| - 1 - k) as real * (ends[k] - ends[0])
  {
    hide Share;
    if k > 0 {
      WorkSoFar(ends, active, k - 1);
      var left := (|ends| - 1 - k) as real;
      var before := Rescaled(ends, active, k - 1) - ends[0];
      var work := Overtime(ends, k - 1) + (left + 1.0) * (ends[k - 1] - ends[0]);
      ShareOfWork(ends[k] - ends[k - 1], |ends| - k, active);
      Distribute(active as real, before, Share(ends[k] - ends[k - 1], |ends| - k, active));
      Weighted(left, ends[0], ends[k - 1], ends[k]);
    }
  }

  /** Rescaling conserves wavefront time: the pending work, spread over the active wavefronts. */
  lemma WorkConserved(ends: seq<real>, active: nat)
    requires ends != [] && active > 0
    ensures active as real * (Rescaled(ends, active, |ends| - 1) - ends[0]) == Overtime(ends, |ends| - 1)
  {
    WorkSoFar(ends, active, |ends| - 1);
  }

  lemma ShareBounds(gap: real, left: nat, active: nat)
    requires gap >= 0.0 && active > 0
    ensures Share(gap, left, active) >= 0.0
    ensures left <= active ==> Share(gap, left, active) <= gap
  {
    hide Share;
    ShareOfWork(gap, left, active);
    Sign(active as real, Share(gap, left, active));
    Sign(active as real, gap - Share(gap, left, active));
    Distribute(active as real, gap, -Share(gap, left, active));
    Sign(gap, left as real);
    Sign(gap, active as real - left as real);
    Distribute(gap, active as real, -(left as real));
  }

  lemma Sign(a: real, x: real)
    ensures a > 0.0 ==> (a * x >= 0.0 <==> x >= 0.0)
    ensures a >= 0.0 && x >= 0.0 ==> a * x >= 0.0
  {}

  /** Rescaling keeps the completion order. */
  lemma {:induction false} OrderKept(ends: seq<real>, active: nat, j: nat, k: nat)
    requires Ascending(ends) && active > 0 && j <= k < |ends|
    ensures Rescaled(ends, active, j) <= Rescaled(ends, active, k)
  {
    hide Share;
    if j < k {
      OrderKept(ends, active, j, k - 1);
      ShareBounds(ends[k] - ends[k - 1], |ends| - k, active);
    }
  }

  lemma {:induction false} NoGrowth(ends: seq<real>, active: nat, k: nat)
    requires Ascending(ends) && k < |ends| && active > 0 && active >= |ends| - 1
    ensures Rescaled(ends, active, k) <= ends[k]
  {
    hide Share;
    if k > 0 {
      NoGrowth(ends, active, k - 1);
      ShareBounds(ends[k] - ends[k - 1], |ends| - k, active);
    }
  }

  ghost predicate NeverLater(active: nat, n: nat)
    requires active > 0
  {
    forall ends: seq<real>, k: nat | |ends| == n && Ascending(ends) && k < n :: Rescaled(ends, active, k) <= ends[k]
  }

  /** No end time ever grows exactly when there are at least as many active wavefronts as pending ones but one. */
  lemma NoGrowthIff(active: nat, n: nat)
    requires active > 0
    ensures NeverLater(active, n) <==> active + 1 >= n
  {
    if active + 1 >= n {
      forall ends: seq<real>, k: nat | |ends| == n && Ascending(ends)
        && k < n ensures Rescaled(ends, active, k) <= ends[k] {
        NoGrowth(ends, active, k);
      }
    } else {
      var ends: seq<real> := seq(n, i => if i == 0 then 0.0 else 1.0);
      assert Ascending(ends);
      assert Rescaled(ends, active, 0) == 0.0;
      Exceeds(n - 1, active);
      assert Rescaled(ends, active, 1) > ends[1];
    }
  }

  lemma Exceeds(left: nat, active: nat)
    requires left > active > 0
    ensures Share(1.0, left, active) > 1.0
  {
    hide Share;
    ShareOfWork(1.0, left, active);
    Sign(active as real, 1.0 - Share(1.0, left, active));
    Distribute(active as real, 1.0, -Share(1.0, left, active));
  }

  function Later(a: real, b: real): real {
    if a < b then b else a
  }

  /** The completions that finetuneTime schedules for wavefronts in completion order. */
  function Finetuned(ws: seq<Wavefront>, active: nat, nextTick: real): (r: seq<Completion>)
    requires active > 0
    ensures |r| == |ws|
  {
    seq(|ws|, k requires 0 <= k < |ws| =>
      Completion(Later(Rescaled(Ends(ws), active, k), nextTick), ws[k].cu, ws[k].id))
  }

  /** Completions of wavefronts, all at one time. */
  function Completed(ws: seq<Wavefront>, time: real): seq<Completion> {
    seq(|ws|, k requires 0 <= k < |ws| => Completion(time, ws[k].cu, ws[k].id))
  }

  /**
   What finetuneTime schedules: each wavefront completes when its rescaled end and the next tick
   are both there, and not later, at its own compute unit.
   */
  lemma FinetunedMeans(before: seq<Completion>, ws: seq<Wavefront>, active: nat, nextTick: real)
    requires active > 0
    ensures Rescheduled(before, before + Finetuned(ws, active, nextTick), ws, active, nextTick)
  {
    hide Rescaled, Ends;
  }

  /** One new completion for each wavefront, in their order, at their compute units. */
  ghost predicate ScheduledFor(before: seq<Completion>, after: seq<Completion>, ws: seq<Wavefront>) {
    && |after| == |before| + |ws| && after[..|before|] == before
    && forall i | |before| <= i < |after| :: after[i].cu == ws[i - |before|].cu && after[i].id == ws[i - |before|].id
  }

  /** Each wavefront completes as soon as its rescaled end and the next tick are both there. */
  ghost predicate Rescheduled(before: seq<Completion>, after: seq<Completion>, ws: seq<Wavefront>, active: nat,
                              nextTick: real)
    requires active > 0
  {
    && ScheduledFor(before, after, ws)
    && forall i | |before| <= i < |after| ::
         var t, end := after[i].time, Rescaled(Ends(ws), active, i - |before|);
         t >= end && t >= nextTick && (t == end || t == nextTick)
  }

  /** Each wavefront completes at `time`. */
  ghost predicate ScheduledAt(before: seq<Completion>, after: seq<Completion>, ws: seq<Wavefront>, time: real) {
    ScheduledFor(before, after, ws) && forall i | |before| <= i < |after| :: after[i].time == time
  }

  /** What the wake-up handler schedules. */
  lemma CompletedMeans(before: seq<Completion>, ws: seq<Wavefront>, time: real)
    ensures ScheduledAt(before, before + Completed(ws, time), ws, time)
  {}

  lemma NoneScheduled(before: seq<Completion>, time: real)
    ensures ScheduledAt(before, before, [], time)
  {}

  /** The heap with its first element marked as having a wake-up event. */
  function Marked(s: seq<Wavefront>): seq<Wavefront> {
    if s == [] then [] else [s[0].(submitted := true)] + s[1..]
  }

  ghost predicate AddUp(wfs: seq<Wavefront>, completions: seq<Completion>, dropped: multiset<nat>,
                        known: multiset<nat>) {
    multiset(WfIds(wfs)) + multiset(CompletionIds(completions)) + dropped == known
  }

  lemma MoveIds(wfs: seq<Wavefront>, completions: seq<Completion>, popped: seq<Wavefront>, rest: seq<Wavefront>,
                after: seq<Completion>,
                dropped: multiset<nat>, known: multiset<nat>)
    requires AddUp(wfs, completions, dropped, known)
    requires multiset(WfIds(popped)) + multiset(WfIds(rest)) == multiset(WfIds(wfs))
    requires CompletionIds(after) == CompletionIds(completions) + WfIds(popped)
    ensures AddUp(rest, after, dropped, known)
  {
    hide WfIds, CompletionIds;
  }

  lemma AddId(wfs: seq<Wavefront>, wf: Wavefront, after: seq<Wavefront>, completions: seq<Completion>,
              dropped: multiset<nat>,
              known: multiset<nat>)
    requires AddUp(wfs, completions, dropped, known) && multiset(after) == multiset(wfs) + multiset{wf}
    ensures AddUp(after, completions, dropped, known + multiset{wf.id})
  {
    hide WfIds, CompletionIds;
    OneMore(wfs, wf, after);
  }

  lemma SameAccount(rest: seq<Wavefront>, wfs: seq<Wavefront>, completions: seq<Completion>, dropped: multiset<nat>,
                    known: multiset<nat>)
    requires AddUp(rest, completions, dropped, known) && (wfs == rest || wfs == Marked(rest))
    ensures AddUp(wfs, completions, dropped, known)
  {
    MarkedIds(rest);
  }

  /** Nothing is overdue, and what is marked as having a wake-up event has one. */
  predicate Pending(wfs: seq<Wavefront>, wakeups: multiset<real>, now: real) {
    && (forall w | w in wfs :: w.endtime >= now && (w.submitted ==> w.endtime in wakeups))
    && (forall t | t in wakeups :: t >= now)
  }

  /** When the wavefronts of the earliest wake-up event are gone. */
  lemma StillPending(wfs: seq<Wavefront>, wakeups: multiset<real>, now: real, time: real, popped: seq<Wavefront>,
                     rest: seq<Wavefront>)
    requires Pending(wfs, wakeups, now) && time in wakeups && forall t | t in wakeups :: time <= t
    requires multiset(popped) + multiset(rest) == multiset(wfs) && forall w | w in rest :: w.endtime > time
    ensures Pending(rest, wakeups - multiset{time}, time)
  {
    forall w | w in rest ensures w in wfs {
      assert w in multiset(rest);
      assert w in multiset(wfs);
    }
  }

  lemma NoneOverdue(wfs: seq<Wavefront>, wakeups: multiset<real>, now: real, time: real)
    requires Pending(wfs, wakeups, now) && HeadFirst(wfs) && (wfs != [] ==> wfs[0].submitted)
    requires forall t | t in wakeups :: time <= t
    ensures forall w | w in wfs :: w.endtime >= time
  {
    if wfs != [] { assert wfs[0] in wfs; }
  }

  lemma MarkedPending(wfs: seq<Wavefront>, wakeups: multiset<real>, now: real)
    requires wfs != [] && Pending(wfs, wakeups, now) && HeadFirst(wfs)
    ensures Pending(Marked(wfs), wakeups + multiset{wfs[0].endtime}, now) && HeadFirst(Marked(wfs))
  {
    assert wfs[0] in wfs;
    var after := Marked(wfs);
    forall w | w in after ensures w.endtime >= now
      && (w.submitted ==> w.endtime in wakeups + multiset{wfs[0].endtime}) {
      var i :| 0 <= i < |after| && after[i] == w;
      assert i > 0 ==> wfs[i] in wfs;
    }
  }

  lemma MorePending(wfs: seq<Wavefront>, wakeups: multiset<real>, now: real, time: real, wf: Wavefront,
                    after: seq<Wavefront>)
    requires Pending(wfs, wakeups, now) && HeadFirst(wfs) && (wfs != [] ==> wfs[0].submitted)
    requires now <= time <= wf.endtime && !wf.submitted && forall t | t in wakeups :: time <= t
    requires forall w | w in after :: w in wfs || w == wf
    ensures Pending(after, wakeups, time)
  {
    if wfs != [] { assert wfs[0] in wfs; }
  }

  class SampledTimeEngine {
    const NextTick: real -> real
    var wfs: seq<Wavefront>
    var targetcompltedwfs: nat
    var submitedwfs: nat
    var finishedbytimemodel: nat
    var activate_wfs: nat
    var wakeups: multiset<real> // scheduled SampledWfCompletedEvents
    var completions: seq<Completion> // scheduled WfCompletionEvents
    ghost var now: real // time of the latest event
    ghost var known: multiset<nat> // the wavefronts submitted
    ghost var dropped: multiset<nat> // the wavefronts that finetuneTime dropped

    /** Every submitted wavefront is pending, completed or dropped, each once. */
    ghost predicate Accounted()
      reads `wfs, `completions, `known, `dropped
    {
      AddUp(wfs, completions, dropped, known)
    }

    ghost predicate Valid()
      reads this
    {
      HeadFirst(wfs) && Accounted() && Pending(wfs, wakeups, now) && (wfs != [] ==> wfs[0].submitted)
    }

    constructor (nextTick: real -> real)
      ensures Valid() && wfs == [] && completions == [] && wakeups == multiset{} && now == 0.0 && NextTick == nextTick
      ensures submitedwfs == 0 && targetcompltedwfs == 0 && activate_wfs == 0 && dropped == multiset{} == known
    {
      NextTick := nextTick;
      wfs, completions, wakeups := [], [], multiset{};
      targetcompltedwfs, submitedwfs, finishedbytimemodel, activate_wfs := 0, 0, 0, 0;
      now, known, dropped := 0.0, multiset{}, multiset{};
    }

    /** No pending wavefront is overdue, and the first one has a wake-up event at its end. */
    lemma HeadWakesUp()
      requires Valid() && wfs != []
      ensures wfs[0].endtime in wakeups && forall w | w in wfs :: now <= wfs[0].endtime <= w.endtime
    {
      assert wfs[0] in wfs;
    }

    /** Once all events are delivered, every wavefront has one completion, or was dropped. */
    lemma AllCompleted()
      requires Valid() && wakeups == multiset{}
      ensures multiset(CompletionIds(completions)) + dropped == known
    {
      if wfs != [] { HeadWakesUp(); }
      assert WfIds(wfs) == [];
    }

    method SetTargetCompletedWfs(target: nat)
      requires Valid()
      modifies `targetcompltedwfs
      ensures Valid() && targetcompltedwfs == target
    {
      targetcompltedwfs := target;
    }

    method UpdateMaxWFS(wfnum: nat)
      requires Valid()
      modifies `activate_wfs
      ensures Valid() && activate_wfs >= old(activate_wfs) && activate_wfs >= wfnum
      ensures activate_wfs == old(activate_wfs) || activate_wfs == wfnum
    {
      if activate_wfs < wfnum {
        activate_wfs := wfnum;
      }
    }

    method IncreaseIdx()
      requires Valid()
      modifies `submitedwfs, `finishedbytimemodel
      ensures Valid() && submitedwfs == old(submitedwfs) + 1 && finishedbytimemodel == old(finishedbytimemodel) + 1
    {
      submitedwfs := submitedwfs + 1;
      finishedbytimemodel := finishedbytimemodel + 1;
    }

    /** A heap with the given elements; which of several first ones comes first is open. */
    static method Heapify(s: seq<Wavefront>) returns (h: seq<Wavefront>)
      ensures multiset(h) == multiset(s) && |h| == |s| && HeadFirst(h)
    {
      h := s;
      for i := 0 to |s|
        invariant |h| == |s| && multiset(h) == multiset(s)
        invariant forall j | 0 <= j < i && j < |h| :: h[0].endtime <= h[j].endtime
      {
        if h[i].endtime < h[0].endtime {
          h := h[i := h[0]][0 := h[i]];
        }
      }
    }

    /** heap.Pop: the first element goes. */
    method HeapPop()
      requires wfs != [] && HeadFirst(wfs)
      modifies `wfs
      ensures multiset(wfs) + multiset{old(wfs)[0]} == multiset(old(wfs)) && |wfs| == |old(wfs)| - 1 && HeadFirst(wfs)
      ensures forall w | w in wfs :: w in old(wfs)
    {
      assert wfs == [wfs[0]] + wfs[1..];
      var h := Heapify(wfs[1..]);
      forall w | w in h ensures w in wfs {
        assert w in multiset(h);
        assert w in multiset(wfs[1..]);
      }
      wfs := h;
    }

    /** heap.Push: a new element comes first only if it ends before the first one. */
    method HeapPush(wf: Wavefront)
      requires HeadFirst(wfs)
      modifies `wfs
      ensures multiset(wfs) == multiset(old(wfs)) + multiset{wf} && |wfs| == |old(wfs)| + 1 && HeadFirst(wfs)
      ensures forall w | w in wfs :: w in old(wfs) || w == wf
      ensures wfs[0] == if old(wfs) == [] || wf.endtime < old(wfs)[0].endtime then wf else old(wfs)[0]
    {
      if |wfs| == 0 || wf.endtime < wfs[0].endtime {
        wfs := [wf] + wfs;
      } else {
        wfs := wfs + [wf];
      }
    }

    /** NewSampledWfCompleteEvent for the first wavefront. */
    method NewSampledWfCompleteEvent()
      requires wfs != [] && HeadFirst(wfs) && Pending(wfs, wakeups, now)
      modifies `wfs, `wakeups
      ensures wfs != [] && wfs[0].submitted && HeadFirst(wfs) && Pending(wfs, wakeups, now)
      ensures wfs == Marked(old(wfs)) && wakeups == old(wakeups) + multiset{old(wfs)[0].endtime}
    {
      MarkedPending(wfs, wakeups, now);
      var new_wf := wfs[0].(submitted := true);
      wfs := wfs[0 := new_wf];
      wakeups := wakeups + multiset{new_wf.endtime};
    }

    /**
     handleSampledWfCompletedEvent, for the earliest wake-up event: the wavefronts that end now,
     and no others, complete at the next tick.
     */
    method HandleSampledWfCompletedEvent(time: real) returns (ghost popped: seq<Wavefront>, ghost rest: seq<Wavefront>)
      requires Valid() && time in wakeups && forall t | t in wakeups :: time <= t
      modifies `wfs, `wakeups, `completions, `now
      ensures Valid() && now == time
      ensures ScheduledAt(old(completions), completions, popped, NextTick(time))
      ensures multiset(popped) + multiset(rest) == multiset(old(wfs)) && wfs == Marked(rest)
      ensures (forall w | w in popped :: w.endtime == time) && (forall w | w in rest :: w.endtime > time)
    {
      hide WfIds, CompletionIds, Completed, HeadFirst, Pending, AddUp, Marked, ScheduledAt;
      ghost var events, before := wakeups, now;
      wakeups := wakeups - multiset{time};
      now := time;
      if |wfs| == 0 {
        popped, rest := [], [];
        NoneScheduled(completions, NextTick(time));
        StillPending([], events, before, time, [], []);
        MarkedAgain([]);
        return;
      }
      NoneOverdue(wfs, events, before, time);
      popped := CompleteAt(time);
      CompletedMeans(old(completions), popped, NextTick(time));
      rest := wfs;
      StillPending(old(wfs), events, before, time, popped, rest);
      WakeNext();
    }

    /** The first wavefront gets a wake-up event if it has none. */
    method WakeNext()
      requires HeadFirst(wfs) && Accounted() && Pending(wfs, wakeups, now)
      modifies `wfs, `wakeups
      ensures Valid() && wfs == Marked(old(wfs))
    {
      hide HeadFirst, Pending, AddUp, Marked;
      if wfs == [] || wfs[0].submitted { MarkedAgain(wfs); }
      if |wfs| > 0 && !wfs[0].submitted {
        NewSampledWfCompleteEvent();
      }
      SameAccount(old(wfs), wfs, completions, dropped, known);
    }

    /** The loop of handleSampledWfCompletedEvent. */
    method CompleteAt(time: real) returns (ghost popped: seq<Wavefront>)
      requires HeadFirst(wfs) && Accounted() && forall w | w in wfs :: w.endtime >= time
      modifies `wfs, `completions
      ensures HeadFirst(wfs) && Accounted() && completions == old(completions) + Completed(popped, NextTick(time))
      ensures multiset(popped) + multiset(wfs) == multiset(old(wfs))
      ensures (forall w | w in popped :: w.endtime == time) && (forall w | w in wfs :: w.endtime > time)
    {
      hide AddUp, WfIds, CompletionIds;
      var completeTime := NextTick(time);
      popped := [];
      while |wfs| > 0 && wfs[0].endtime == time
        invariant HeadFirst(wfs) && forall w | w in wfs :: w.endtime >= time
        invariant multiset(popped) + multiset(wfs) == multiset(old(wfs))
        invariant completions == old(completions) + Completed(popped, completeTime)
        invariant forall w | w in popped :: w.endtime == time
        decreases |wfs|
      {
        var newWf := wfs[0];
        completions := completions + [Completion(completeTime, newWf.cu, newWf.id)];
        HeapPop();
        popped := popped + [newWf];
      }
      PoppedIds(old(wfs), old(completions), popped, wfs, completeTime, dropped, known);
    }

    /** NewRawSampledWfCompletionEvent: a wavefront is submitted with its predicted end time. */
    method NewRawSampledWfCompletionEvent(time: real, end: real, cu: nat, id: nat) returns (ghost ws: seq<Wavefront>)
      requires Valid() && now <= time <= end && forall t | t in wakeups :: time <= t
      requires submitedwfs + 1 == targetcompltedwfs ==> activate_wfs > 0
      modifies `wfs, `wakeups, `completions, `submitedwfs, `now, `known, `dropped
      ensures Valid() && now == time && known == old(known) + multiset{id} && submitedwfs == old(submitedwfs) + 1
      ensures multiset(ws) == multiset(old(wfs)) + multiset{Wavefront(id, cu, time, end, false)}
      ensures submitedwfs != targetcompltedwfs ==>
                wfs == Marked(ws) && completions == old(completions) && dropped == old(dropped)
      ensures submitedwfs == targetcompltedwfs ==>
                && wfs == [] && Ascending(Ends(ws))
                && (if activate_wfs == 1 then completions == old(completions)
                    else Rescheduled(old(completions), completions, ws, activate_wfs, NextTick(time)))
                && dropped == old(dropped) + (if activate_wfs == 1 then multiset(WfIds(ws)) else multiset{})
    {
      hide WfIds, CompletionIds, Finetuned, Rescaled, HeadFirst, Ascending, Ends, Pending, AddUp, Marked, Rescheduled;
      var newWf := Wavefront(id, cu, time, end, false);
      PushNew(newWf, time);
      ws := wfs;
      submitedwfs := submitedwfs + 1;
      if submitedwfs == targetcompltedwfs {
        ws := FinetuneTime(time);
      } else if wfs[0] == newWf {
        SameAccount(ws, Marked(ws), completions, dropped, known);
        NewSampledWfCompleteEvent();
      } else {
        MarkedAgain(ws);
      }
    }

    method PushNew(wf: Wavefront, time: real)
      requires Valid() && now <= time <= wf.endtime && !wf.submitted && forall t | t in wakeups :: time <= t
      modifies `wfs, `now, `known
      ensures HeadFirst(wfs) && Accounted() && Pending(wfs, wakeups, now) && Pending([], wakeups, now)
      ensures now == time && known == old(known) + multiset{wf.id}
      ensures wfs != [] && multiset(wfs) == multiset(old(wfs)) + multiset{wf} && (wfs[0] == wf || wfs[0].submitted)
    {
      hide HeadFirst, Pending, AddUp;
      ghost var before, at := wfs, now;
      now := time;
      known := known + multiset{wf.id};
      HeapPush(wf);
      AddId(before, wf, wfs, completions, dropped, old(known));
      MorePending(before, wakeups, at, time, wf, wfs);
      MorePending(before, wakeups, at, time, wf, []);
    }

    /**
     finetuneTime: all pending wavefronts complete at their rescaled end times, but not before
     the next tick. With exactly one active wavefront it returns early and drops all of them: every
     pending wavefront gets its completion if and only if the number of active ones is not one.
     */
    method FinetuneTime(time: real) returns (ghost ws: seq<Wavefront>)
      requires HeadFirst(wfs) && Accounted() && wfs != [] && activate_wfs > 0
      modifies `wfs, `completions, `dropped
      ensures Accounted() && HeadFirst(wfs) && wfs == [] && multiset(ws) == multiset(old(wfs)) && Ascending(Ends(ws))
      ensures if activate_wfs == 1 then completions == old(completions)
              else Rescheduled(old(completions), completions, ws, activate_wfs, NextTick(time))
      ensures dropped == old(dropped) + if activate_wfs == 1 then multiset(WfIds(ws)) else multiset{}
      ensures multiset(CompletionIds(completions)) == multiset(CompletionIds(old(completions))) + multiset(WfIds(ws))
              <==> activate_wfs != 1
    {
      hide WfIds, CompletionIds, Finetuned, Rescaled, Ends, Rescheduled;
      var wfnums := |wfs|;
      var popped := PopAll();
      ws := popped;
      PermutedIds(ws, old(wfs));
      NoIds();
      CompletedOrDropped(completions, ws, activate_wfs, NextTick(time));
      if activate_wfs == 1 {
        dropped := dropped + multiset(WfIds(ws));
        return;
      }
      FinetunedIds(completions, ws, activate_wfs, NextTick(time));
      var ends := RescaleEnds(popped, activate_wfs);
      CompleteAll(popped, ends, NextTick(time));
      FinetunedMeans(old(completions), ws, activate_wfs, NextTick(time));
    }

    /** The last loop of finetuneTime. */
    method CompleteAll(popped: seq<Wavefront>, ends: array<real>, nexttick: real)
      requires activate_wfs > 0 && ends.Length == |popped|
      requires forall k | 0 <= k < |popped| :: ends[k] == Rescaled(Ends(popped), activate_wfs, k)
      modifies `completions
      ensures completions == old(completions) + Finetuned(popped, activate_wfs, nexttick)
    {
      hide Finetuned, Rescaled, Ends;
      for i := 0 to |popped|
        invariant completions == old(completions) + Finetuned(popped, activate_wfs, nexttick)[..i]
      {
        var endtime := ends[i];
        if endtime < nexttick {
          endtime := nexttick;
        }
        FinetunedAt(popped, activate_wfs, nexttick, i);
        completions := completions + [Completion(endtime, popped[i].cu, popped[i].id)];
      }
      assert Finetuned(popped, activate_wfs, nexttick)[..|popped|] == Finetuned(popped, activate_wfs, nexttick);
    }

    /** Taking one after the other gives the completion order. */
    method PopAll() returns (ws: seq<Wavefront>)
      requires HeadFirst(wfs)
      modifies `wfs
      ensures wfs == [] && |ws| == |old(wfs)| && multiset(ws) == multiset(old(wfs)) && Ascending(Ends(ws))
    {
      ws := [];
      while |wfs| != 0
        invariant HeadFirst(wfs) && |ws| + |wfs| == |old(wfs)|
        invariant multiset(ws) + multiset(wfs) == multiset(old(wfs))
        invariant Ascending(Ends(ws)) && forall i, w | 0 <= i < |ws| && w in wfs :: ws[i].endtime <= w.endtime
        decreases |wfs|
      {
        ghost var was := wfs;
        var wf := wfs[0];
        ws := ws + [wf];
        assert wf in was;
        HeapPop();
      }
    }

    /** The two loops of finetuneTime over the gaps. */
    static method RescaleEnds(wfs: seq<Wavefront>, activate_wfs: nat) returns (ends: array<real>)
      requires wfs != [] && activate_wfs > 0
      ensures fresh(ends) && ends.Length == |wfs| && forall k | 0 <= k < |wfs| ::
              ends[k] == Rescaled(Ends(wfs), activate_wfs, k)
    {
      hide Share, Rescaled;
      var leftTimes := LeftTimes(wfs, activate_wfs);
      var wfnums := |wfs|;
      ends := new real[wfnums];
      ends[0] := wfs[0].endtime;
      RescaledNext(Ends(wfs), activate_wfs, 0);
      var idx := 1;
      while idx < wfnums
        invariant 1 <= idx <= wfnums && forall k | 0 <= k < idx :: ends[k] == Rescaled(Ends(wfs), activate_wfs, k)
      {
        RescaledNext(Ends(wfs), activate_wfs, idx);
        ends[idx] := ends[idx - 1] + leftTimes[idx - 1];
        idx := idx + 1;
      }
    }

    static method LeftTimes(wfs: seq<Wavefront>, activate_wfs: nat) returns (leftTimes: seq<real>)
      requires wfs != [] && activate_wfs > 0
      ensures |leftTimes| == |wfs| - 1
      ensures forall k | 1 <= k < |wfs| ::
                leftTimes[k - 1] == Share(wfs[k].endtime - wfs[k - 1].endtime, |wfs| - k, activate_wfs)
    {
      hide Share;
      var wfnums := |wfs|;
      leftTimes := [];
      var idx := 1;
      while idx < wfnums
        invariant 1 <= idx <= wfnums && |leftTimes| == idx - 1
        invariant forall k | 1 <= k < idx ::
                    leftTimes[k - 1] == Share(wfs[k].endtime - wfs[k - 1].endtime, wfnums - k, activate_wfs)
      {
        var leftTime := wfs[idx].endtime - wfs[idx - 1].endtime;
        var currentActivateWfs := wfnums - idx;
        ShareIs(leftTime, currentActivateWfs, activate_wfs);
        leftTimes := leftTimes + [leftTime * currentActivateWfs as real / activate_wfs as real];
        idx := idx + 1;
      }
    }
  }

  lemma RescaledNext(ends: seq<real>, active: nat, k: nat)
    requires k < |ends| && active > 0
    ensures Rescaled(ends, active, k)
            == if k == 0 then ends[0] else Rescaled(ends, active, k - 1) + Share(ends[k] - ends[k - 1], |ends| - k,
              active)
  {}

  /** Wavefronts that are popped and completed stay accounted for. */
  lemma PoppedIds(wfs: seq<Wavefront>, completions: seq<Completion>, popped: seq<Wavefront>, rest: seq<Wavefront>,
                  time: real, dropped: multiset<nat>, known: multiset<nat>)
    requires AddUp(wfs, completions, dropped, known) && multiset(popped) + multiset(rest) == multiset(wfs)
    ensures AddUp(rest, completions + Completed(popped, time), dropped, known)
  {
    hide AddUp, Completed, WfIds, CompletionIds;
    SplitIds(popped, rest, wfs);
    CompletedIds(completions, popped, time);
    MoveIds(wfs, completions, popped, rest, completions + Completed(popped, time), dropped, known);
  }

  lemma CompletedIds(before: seq<Completion>, ws: seq<Wavefront>, time: real)
    ensures CompletionIds(before + Completed(ws, time)) == CompletionIds(before) + WfIds(ws)
  {}

  lemma FinetunedIds(before: seq<Completion>, ws: seq<Wavefront>, active: nat, nextTick: real)
    requires active > 0
    ensures CompletionIds(before + Finetuned(ws, active, nextTick)) == CompletionIds(before) + WfIds(ws)
  {}

  lemma FinetunedAt(ws: seq<Wavefront>, active: nat, nextTick: real, k: nat)
    requires active > 0 && k < |ws|
    ensures Finetuned(ws, active, nextTick)[k]
            == Completion(Later(Rescaled(Ends(ws), active, k), nextTick), ws[k].cu, ws[k].id)
  {}

  lemma MarkedAgain(s: seq<Wavefront>)
    requires s == [] || s[0].submitted
    ensures Marked(s) == s
  {}

  lemma MarkedIds(s: seq<Wavefront>)
    ensures WfIds(Marked(s)) == WfIds(s)
  {}

  lemma NoIds()
    ensures WfIds([]) == []
  {}

  lemma OneMore(before: seq<Wavefront>, wf: Wavefront, after: seq<Wavefront>)
    requires multiset(after) == multiset(before) + multiset{wf}
    ensures multiset(WfIds(after)) == multiset(WfIds(before)) + multiset{wf.id}
  {
    hide WfIds;
    SplitIds(before, [wf], after);
    WfIdsOne(wf);
  }

  /** Rescaled completions are one for each pending wavefront; none are none. */
  lemma CompletedOrDropped(before: seq<Completion>, ws: seq<Wavefront>, active: nat, nextTick: real)
    requires active > 0 && ws != []
    ensures multiset(CompletionIds(before + Finetuned(ws, active, nextTick)))
            == multiset(CompletionIds(before)) + multiset(WfIds(ws))
    ensures multiset(CompletionIds(before)) != multiset(CompletionIds(before)) + multiset(WfIds(ws))
  {
    hide Finetuned;
    FinetunedIds(before, ws, active, nextTick);
    var done := CompletionIds(before);
    assert multiset(done + WfIds(ws)) == multiset(done) + multiset(WfIds(ws));
    assert |multiset(done) + multiset(WfIds(ws))| == |done| + |ws|;
  }

  /** One wavefront at a time: the last one is submitted, and never completes. */
  method OneActiveDropped(nextTick: real -> real, end: real) returns (e: SampledTimeEngine)
    requires end >= 0.0
    ensures e.Valid() && e.known == e.dropped == multiset{7} && e.wfs == [] && e.completions == []
  {
    hide WfIds, CompletionIds, Finetuned, Rescaled, HeadFirst, Ascending, Ends, Pending, AddUp, Marked;
    e := new SampledTimeEngine(nextTick);
    e.SetTargetCompletedWfs(1);
    e.UpdateMaxWFS(1);
    ghost var ws := e.NewRawSampledWfCompletionEvent(0.0, end, 0, 7);
    OnlyOne(ws, Wavefront(7, 0, 0.0, end, false));
  }

  lemma OnlyOne(ws: seq<Wavefront>, w: Wavefront)
    requires multiset(ws) == multiset{w}
    ensures WfIds(ws) == [w.id]
  {
    assert |multiset(ws)| == 1 && ws[0] in multiset(ws);
  }
}
