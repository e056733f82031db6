/**
 Pipelined ring broadcast (benchmarks/mccl/broadcast.go).

 In step s the GPU at distance d behind the root passes chunk s - d on to its neighbour, so
 a chunk travels one GPU per step and the chunks follow each other round the ring.
 */
module Broadcast {
  import opened Arithmetic
  import opened CollectiveKernels

  const CHUNK := 4096 // words: 4 * mem.KB

  /** Go's `%` takes the sign of the dividend. */
  function GoMod(a: int, b: int): int
    requires b > 0
  {
    if a >= 0 then a % b else -((-a) % b)
  }

  /** The GPU ids of the group, in ring order. */
  predicate Consecutive(ids: seq<int>) {
    |ids| > 0 && forall i | 0 <= i < |ids| :: ids[i] == ids[0] + i
  }

  ghost predicate RingDistances(dist: seq<int>, n: nat) {
    && |dist| == n > 0
    && (forall i | 0 <= i < n :: 0 <= dist[i] < n)
    && (forall i | 0 <= i < n :: dist[if i + 1 == n then 0 else i + 1] == if dist[i] == n - 1 then 0 else dist[i] + 1)
    && (forall i, j | 0 <= i < n && 0 <= j < n && dist[i] == dist[j] :: i == j)
  }

  lemma ModSteps(x: int, n: nat, i: nat)
    requires n > 0 && i < n && 0 <= x
    ensures (x + i) % n == if x % n + i < n then x % n + i else x % n + i - n
  {
    var q, r := x / n, x % n;
    assert x == q * n + r;
    if r + i < n {
      DivUnique(x + i, n, q, r + i);
    } else {
      assert (q + 1) * n == q * n + n;
      DivUnique(x + i, n, q + 1, r + i - n);
    }
  }

  /** The host's distance of a GPU from the root. */
  function Distances(ids: seq<int>, root: int): seq<int>
    requires |ids| > 0
  {
    seq(|ids|, i requires 0 <= i < |ids| => GoMod(ids[i] - root + |ids|, |ids|))
  }

  method ComputeGPUDist(ids: seq<int>, root: int) returns (distance: seq<int>)
    requires |ids| > 0
    ensures distance == Distances(ids, root)
  {
    var numGPU := |ids|;
    distance := [];
    for i := 0 to numGPU
      invariant |distance| == i
      invariant forall j | 0 <= j < i :: distance[j] == GoMod(ids[j] - root + numGPU, numGPU)
    {
      distance := distance + [GoMod(ids[i] - root + numGPU, numGPU)];
    }
  }

  /**
   The distances go round the ring once, from the GPU whose id is the root modulo the group
   size, if and only if the root is not so large that Go's remainder turns negative.
   */
  lemma DistancesGoRound(ids: seq<int>, root: int)
    requires Consecutive(ids)
    ensures RingDistances(Distances(ids, root), |ids|) <==> |ids| == 1 || root <= ids[0] + |ids|
    ensures root <= ids[0] + |ids| ==>
              forall i | 0 <= i < |ids| :: Distances(ids, root)[i] == 0 <==> (ids[i] - root) % |ids| == 0
  {
    var n, dist := |ids|, Distances(ids, root);
    var x := ids[0] - root + n;
    if x >= 0 {
      forall i | 0 <= i < n
        ensures dist[i] == if x % n + i < n then x % n + i else x % n + i - n
        ensures dist[i] == (ids[i] - root) % n
      {
        ModSteps(x, n, i);
        OneTurn(ids[i] - root, n);
      }
    } else if n > 1 {
      NegativeDistance(x, n);
      assert dist[0] == GoMod(x, n) && dist[1] == GoMod(x + 1, n);
    }
  }

  /** For two GPUs 1 and 2 and root 5 the second distance is -1. */
  lemma NegativeDistances()
    ensures Distances([1, 2], 5) == [0, -1] && !RingDistances(Distances([1, 2], 5), 2)
  {
    assert Distances([1, 2], 5)[1] == GoMod(-1, 2) == -1;
  }

  lemma OneTurn(a: int, n: nat)
    requires n > 0
    ensures (a + n) % n == a % n
  {
    assert (a / n + 1) * n == (a / n) * n + n;
    DivUnique(a + n, n, a / n + 1, a % n);
  }

  lemma NegativeDistance(x: int, n: nat)
    requires x < 0 && n > 1
    ensures GoMod(x, n) < 0 || GoMod(x + 1, n) < 0
  {
    if (-x) % n == 0 {
      var q := (-x) / n;
      assert q >= 1;
      assert (q - 1) * n == q * n - n;
      DivUnique(-x - 1, n, q - 1, n - 1);
    }
  }

  /** Word `k` of the GPU at distance `d` has arrived once `steps` steps are done. */
  predicate Arrived(d: int, k: int, steps: int) {
    d == 0 || k / CHUNK + d <= steps
  }

  function ChunkNum(dataSize: nat): int {
    GoDiv(dataSize - 1, CHUNK) + 1
  }

  ghost function State(init: seq<seq<real>>, dist: seq<int>, source: nat, dataSize: nat, steps: nat,
                       i: nat, k: nat): real
    requires i < |init| == |dist| && source < |init| && k < |init[i]| && k < |init[source]|
  {
    if k < dataSize && Arrived(dist[i], k, steps) then init[source][k] else init[i][k]
  }

  /** Word `k` is in the chunk that a GPU at distance `d` of `n` passes on in this step. */
  predicate Sends(n: nat, d: int, dataSize: nat, step: nat, k: int) {
    d != n - 1 && 0 <= k < dataSize && k / CHUNK == step - d
  }

  /** What one GPU does in a step: the host skips the last GPU and the GPUs without a chunk to send. */
  method SendChunk(data: array2<real>, dataSize: nat, step: nat, i: nat, d: nat)
    requires i < data.Length0 && d < data.Length0 && dataSize <= data.Length1
    modifies data
    ensures forall g, k | 0 <= g < data.Length0 && 0 <= k < data.Length1 ::
              data[g, k] == if Prev(data.Length0, g) == i && Sends(data.Length0, d, dataSize, step, k)
                            then old(data[i, k]) else old(data[g, k])
  {
    var numGPU, chunkNum := data.Length0, ChunkNum(dataSize);
    if d == numGPU - 1 {
      return;
    }
    var srcChunkNum := step - d;
    if srcChunkNum < 0 || srcChunkNum >= chunkNum {
      return;
    }
    var sizeToPush := Min(CHUNK, dataSize - srcChunkNum * CHUNK);
    var dst := (i + 1) % numGPU;
    NextMod(numGPU, i);
    WordsExact(sizeToPush);
    PushData(data, i, srcChunkNum * CHUNK, data, dst, srcChunkNum * CHUNK, sizeToPush);
  }

  /** One step: the kernels of the GPUs run in any order. */
  method Step(dist: seq<int>, data: array2<real>, dataSize: nat, step: nat)
    requires RingDistances(dist, data.Length0) && dataSize <= data.Length1
    modifies data
    ensures forall i, k | 0 <= i < data.Length0 && 0 <= k < data.Length1 ::
              data[i, k] == var p := Prev(data.Length0, i);
                            if Sends(data.Length0, dist[p], dataSize, step, k) then old(data[p, k]) else old(data[i, k])
  {
    var numGPU := data.Length0;
    var pending := AllGPUs(numGPU);
    while pending != {}
      invariant forall i | i in pending :: 0 <= i < numGPU
      invariant forall i, k | 0 <= i < numGPU && 0 <= k < data.Length1 ::
                  data[i, k] == var p := Prev(numGPU, i);
                                if p !in pending && Sends(numGPU, dist[p], dataSize, step, k)
                                then old(data[p, k]) else old(data[i, k])
    {
      var i :| i in pending;
      assert dist[i] == if dist[Prev(numGPU, i)] == numGPU - 1 then 0 else dist[Prev(numGPU, i)] + 1;
      SendChunk(data, dataSize, step, i, dist[i]);
      pending := pending - {i};
    }
  }

  /** A step brings every chunk under way one GPU further. */
  lemma StateAdvances(init: seq<seq<real>>, dist: seq<int>, source: nat, dataSize: nat, words: nat, step: nat,
                      i: nat, k: nat)
    requires RingDistances(dist, |init|) && IsMemory(init, |init|, words)
    requires source < |init| && dist[source] == 0 && i < |init| && k < words
    ensures State(init, dist, source, dataSize, step + 1, i, k) ==
            var p := Prev(|init|, i);
            if Sends(|init|, dist[p], dataSize, step, k) then State(init, dist, source, dataSize, step, p, k)
            else State(init, dist, source, dataSize, step, i, k)
  {
    var p := Prev(|init|, i);
    assert dist[i] == if dist[p] == |init| - 1 then 0 else dist[p] + 1;
  }

  ghost function ZeroDistance(dist: seq<int>, n: nat): (source: nat)
    requires RingDistances(dist, n)
    ensures source < n && dist[source] == 0
  {
    if dist[0] == 0 then 0
    else DistanceGrows(dist, n, n - dist[0]); n - dist[0]
  }

  lemma {:induction false} DistanceGrows(dist: seq<int>, n: nat, i: nat)
    requires RingDistances(dist, n) && dist[0] > 0 && i <= n - dist[0]
    ensures dist[i] == if i == n - dist[0] then 0 else dist[0] + i
  {
    if i > 0 {
      DistanceGrows(dist, n, i - 1);
      assert dist[if (i - 1) + 1 == n then 0 else (i - 1) + 1] == if dist[i - 1] == n - 1 then 0 else dist[i - 1] + 1;
    }
  }

  /** When `steps` steps bring every chunk to every GPU. */
  lemma EnoughSteps(n: nat, dataSize: nat, steps: int)
    requires n > 1 && dataSize > 0
    ensures (forall d, k :: 0 <= d < n && 0 <= k < dataSize ==> Arrived(d, k, steps))
            <==> steps >= ChunkNum(dataSize) + (n - 2)
  {
    if forall d, k :: 0 <= d < n && 0 <= k < dataSize ==> Arrived(d, k, steps) {
      assert Arrived(n - 1, dataSize - 1, steps);
    }
  }

  /** After the broadcast every GPU holds the root's data, and nothing else changed. */
  method BroadcastRing(ids: seq<int>, root: int, data: array2<real>, dataSize: nat)
    requires Consecutive(ids) && (|ids| == 1 || root <= ids[0] + |ids|)
    requires data.Length0 == |ids| && dataSize <= data.Length1
    modifies data
    ensures forall i, k, r | 0 <= i < |ids| && 0 <= k < data.Length1 && 0 <= r < |ids|
            && (ids[r] - root) % |ids| == 0 ::
              data[i, k] == if k < dataSize then old(data[r, k]) else old(data[i, k])
  {
    var numGPU := |ids|;
    var chunkNum := ChunkNum(dataSize);
    var distance := ComputeGPUDist(ids, root);
    ghost var init := Snapshot(data);
    DistancesGoRound(ids, root);
    ghost var source := ZeroDistance(distance, numGPU);
    for step := 0 to chunkNum + (numGPU - 2)
      invariant forall i, k | 0 <= i < numGPU && 0 <= k < data.Length1 ::
                  data[i, k] == State(init, distance, source, dataSize, step, i, k)
    {
      Step(distance, data, dataSize, step);
      forall i, k | 0 <= i < numGPU && 0 <= k < data.Length1
        ensures data[i, k] == State(init, distance, source, dataSize, step + 1, i, k)
      {
        StateAdvances(init, distance, source, dataSize, data.Length1, step, i, k);
      }
    }
    if numGPU > 1 && dataSize > 0 {
      EnoughSteps(numGPU, dataSize, chunkNum + (numGPU - 2));
    }
  }
}
