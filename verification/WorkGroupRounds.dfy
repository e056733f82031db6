/**
 How RunWG (emu/sampledcomputeunit.go:279-311) takes the wavefronts of a work-group from barrier
 to barrier, and when resolveBarrier (lines 263-274) panics. A wavefront is given by its run;
 SampledComputeUnit shows that it takes one call more than the run has barriers.
 */
module WorkGroupRounds {
  import opened Instructions
  import opened BlockTrace

  datatype Status = Status(Completed: bool, AtBarrier: bool)

  predicate AllCompleted(wfs: seq<Status>) {
    forall i | 0 <= i < |wfs| :: wfs[i].Completed
  }

  /** Every wavefront meets the same number of barriers. */
  predicate InStep(runs: seq<seq<Fetch>>) {
    forall i, j | 0 <= i < j < |runs| :: Barriers(runs[i]) == Barriers(runs[j])
  }

  /** Where a wavefront stands after `rounds` calls of runWfUntilBarrier, before the barrier is resolved. */
  function After(run: seq<Fetch>, rounds: nat): Status {
    if rounds <= Barriers(run) then Status(false, true) else Status(true, false)
  }

  /** resolveBarrier */
  method ResolveBarrier(wfs: seq<Status>) returns (panics: bool, resolved: seq<Status>)
    ensures panics <==> !AllCompleted(wfs) && exists i :: 0 <= i < |wfs| && !wfs[i].AtBarrier
    ensures |resolved| == |wfs|
    ensures !panics ==> forall i | 0 <= i < |wfs| ::
              resolved[i] == if AllCompleted(wfs) then wfs[i] else wfs[i].(AtBarrier := false)
  {
    resolved := wfs;
    if AllCompleted(wfs) {
      return false, resolved;
    }
    for i := 0 to |wfs|
      invariant |resolved| == |wfs|
      invariant forall k | 0 <= k < |wfs| :: resolved[k] == if k < i then wfs[k].(AtBarrier := false) else wfs[k]
      invariant forall k | 0 <= k < i :: wfs[k].AtBarrier
    {
      if !resolved[i].AtBarrier {
        return true, resolved;
      }
      resolved := resolved[i := resolved[i].(AtBarrier := false)];
    }
    return false, resolved;
  }

  /**
   The outer loop of RunWG. No wavefront is run again after its s_endpgm, every wavefront runs to
   its end, and resolveBarrier panics if and only if two wavefronts meet different numbers of barriers.
   */
  method RunWG(runs: seq<seq<Fetch>>) returns (panics: bool, rounds: nat)
    ensures panics <==> !InStep(runs)
    ensures !panics ==> rounds == if runs == [] then 0 else Barriers(runs[0]) + 1
  {
    hide Barriers;
    rounds := 0;
    var wfs := seq(|runs|, i => Status(false, false));
    assert runs != [] ==> !wfs[0].Completed;
    while !AllCompleted(wfs)
      invariant |wfs| == |runs|
      invariant AllCompleted(wfs) ==>
                  InStep(runs) && rounds == if runs == [] then 0 else Barriers(runs[0]) + 1
      invariant !AllCompleted(wfs) ==> forall i | 0 <= i < |wfs| ::
                wfs[i] == Status(false, false) && rounds <= Barriers(runs[i])
      decreases !AllCompleted(wfs), if runs == [] then 0 else Barriers(runs[0]) + 1 - rounds
    {
      ghost var before := wfs;
      rounds := rounds + 1;
      for i := 0 to |wfs|
        invariant |wfs| == |runs|
        invariant forall k | 0 <= k < |wfs| :: wfs[k] == if k < i then After(runs[k], rounds) else before[k]
      {
        assert !wfs[i].Completed;
        wfs := wfs[i := if rounds <= Barriers(runs[i]) then wfs[i].(AtBarrier := true) else wfs[i].(Completed := true)];
      }
      panics, wfs := ResolveBarrier(wfs);
      if panics {
        return;
      }
    }
    panics := false;
  }
}
