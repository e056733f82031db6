/**
 Ring AllReduce (benchmarks/mccl/allreduce.go).

 The data is averaged in big steps of at most one buffer. In a big step every GPU owns a
 chunk; n-1 push/reduce rounds accumulate each chunk around the ring and n-1 further pushes
 hand the averages round. Within a drained round the kernels of the GPUs run in any order.
 */
module AllReduce {
  import opened Arithmetic
  import opened CollectiveKernels

  // ---------------------------------------------------------------------------------------
  // Chunks of one big step
  // ---------------------------------------------------------------------------------------

  /** The chunks of one big step: `cb` words from word `off` on, cut into chunks of `push` words. */
  datatype Layout = Layout(n: nat, off: nat, cb: nat, push: nat) {

    predicate Valid() {
      && n >= 1
      && push * n >= cb
      && n * push + cb < UINT64 / 2
    }

    /** The size of chunk `c` for the host. The subtraction is one on uint64, so it wraps. */
    function SizeToPush(c: nat): nat {
      var left := (cb - c * push) % UINT64;
      if push < left then push else left
    }

    /** How many words of chunk `c` the kernels handle. */
    function Size(c: nat): nat {
      Words(SizeToPush(c))
    }

    /** No kernel overflows the index its threads count with. */
    ghost predicate Countable() {
      forall c: nat | c < n :: Size(c) <= MAX_COUNT
    }

    /** The chunk that word `k` of the data belongs to, or -1 if no kernel of the step touches it. */
    function ChunkAt(k: int): (c: int)
      ensures -1 <= c < n || c == -1
      ensures Valid() && c >= 0 ==> off <= k < off + Extent()
    {
      if push > 0 && off <= k && (k - off) / push < n && (k - off) % push < Size((k - off) / push)
      then InsideExtent(this, k); (k - off) / push
      else -1
    }

    /** Words from `off` on that the step reads and writes. */
    function Extent(): nat {
      if (n - 1) * push <= cb then cb else n * push
    }
  }

  /** chunkIndex of GPU `i`'s push, reduction and hand-round. */
  function PushedChunk(n: nat, i: nat, step: nat): int requires n > 0 { (i + n - step) % n }
  function ReducedChunk(n: nat, i: nat, step: nat): int requires n > 0 { (i + n - (step + 1)) % n }
  function HandedChunk(n: nat, i: nat, step: nat): int requires n > 0 { (i + 1 + n - step) % n }

  /** How far GPU `i` is behind GPU `c` on the ring. */
  function Dist(n: nat, c: int, i: int): int {
    if c <= i then i - c else i - c + n
  }

  /** The host code's chunk indices and neighbour, as distances on the ring. */
  lemma ChunkIndices(n: nat, i: nat, step: nat)
    requires i < n && step < n - 1
    ensures 0 <= PushedChunk(n, i, step) < n && 0 <= ReducedChunk(n, i, step) < n && 0 <= HandedChunk(n, i, step) < n
    ensures forall c | 0 <= c < n :: c == PushedChunk(n, i, step) <==> Dist(n, c, i) == step
    ensures forall c | 0 <= c < n :: c == ReducedChunk(n, i, step) <==> Dist(n, c, i) == step + 1
    ensures forall c | 0 <= c < n :: c == HandedChunk(n, i, step) <==> Dist(n, c, Next(n, i)) == step
    ensures (i + 1) % n == Next(n, i)
  {
    ModOnce(i + n - step, n);
    ModOnce(i + n - (step + 1), n);
    NextMod(n, i);
    ModOnce(i + 1 + n - step, n);
  }

  /** The uint64 subtraction either is exact or wraps to a number above any push size. */
  lemma SizeExact(l: Layout, c: nat)
    requires l.Valid() && c < l.n
    ensures l.SizeToPush(c) == if c * l.push <= l.cb then Min(l.push, l.cb - c * l.push) else l.push
    ensures l.Size(c) == Words(l.SizeToPush(c)) <= l.SizeToPush(c)
    ensures c * l.push + l.push <= l.n * l.push
    ensures c * l.push + l.Size(c) <= l.Extent()
  {
    ToPushExact(l, c);
    WordsExact(l.SizeToPush(c));
    hide Words, Layout.SizeToPush;
    Times(c, l.n - 1, l.push);
    if c < l.n - 1 { Times(c + 1, l.n - 1, l.push); }
  }

  lemma ToPushExact(l: Layout, c: nat)
    requires l.Valid() && c < l.n
    ensures l.SizeToPush(c) == if c * l.push <= l.cb then Min(l.push, l.cb - c * l.push) else l.push
    ensures c * l.push + l.push <= l.n * l.push
  {
    Times(c, l.n, l.push);
    Times(c + 1, l.n, l.push);
    WrappedSize(l.cb, c * l.push, l.push);
  }

  lemma WrappedSize(cb: nat, start: nat, push: nat)
    requires start + push + cb < UINT64
    ensures (var left := (cb - start) % UINT64; if push < left then push else left)
            == if start <= cb then Min(push, cb - start) else push
  {
    if start > cb { assert (cb - start) % UINT64 == cb - start + UINT64; }
  }

  /** `ChunkAt` inverts the address arithmetic of the kernels' arguments. */
  lemma InChunk(l: Layout, c: nat, k: int)
    requires l.Valid() && c < l.n
    ensures l.ChunkAt(k) == c <==> l.off + c * l.push <= k < l.off + c * l.push + l.Size(c)
  {
    SizeExact(l, c);
    hide Layout.Size, Layout.Extent, Layout.Valid;
    if l.push > 0 { SameQuotient(k - l.off, l.push, c); }
  }

  lemma InsideExtent(l: Layout, k: int)
    requires l.push > 0 && l.off <= k
    ensures l.Valid() && (k - l.off) / l.push < l.n && (k - l.off) % l.push < l.Size((k - l.off) / l.push)
            ==> k < l.off + l.Extent()
  {
    Quotient(k - l.off, l.push);
    if l.Valid() && (k - l.off) / l.push < l.n { SizeExact(l, (k - l.off) / l.push); }
  }

  /** A step touches its word `k` unless the chunk of `k` is pushed short. */
  lemma CoversWord(l: Layout, k: int)
    requires l.Valid() && l.off <= k < l.off + l.cb
    ensures l.push > 0 && 0 <= (k - l.off) / l.push < l.n
    ensures l.ChunkAt(k) >= 0 <==> (k - l.off) % l.push < l.Size((k - l.off) / l.push)
    ensures (k - l.off) % l.push < l.SizeToPush((k - l.off) / l.push)
  {
    hide Layout.Size, Layout.SizeToPush;
    assert l.push > 0;
    var c := (k - l.off) / l.push;
    Quotient(k - l.off, l.push);
    if c < l.n {
      SizeExact(l, c);
    } else {
      Times(l.n, c, l.push);
    }
  }

  /** A step touches all of its data if and only if its chunks have less than 2^31 words. */
  lemma CoversData(l: Layout)
    requires l.Valid() && l.push <= l.cb
    ensures (forall k | l.off <= k < l.off + l.cb :: l.ChunkAt(k) >= 0) <==> l.push < UINT32 / 2
  {
    hide Layout.Size, Layout.SizeToPush, Layout.ChunkAt, Words;
    if l.push < UINT32 / 2 {
      forall k | l.off <= k < l.off + l.cb ensures l.ChunkAt(k) >= 0 {
        CoversWord(l, k);
        var c := (k - l.off) / l.push;
        SizeExact(l, c);
        WordsExact(l.SizeToPush(c));
      }
    } else {
      ShortChunk(l);
    }
  }

  /** The last word of a chunk of 2^31 words or more is not touched. */
  lemma ShortChunk(l: Layout)
    requires l.Valid() && UINT32 / 2 <= l.push <= l.cb
    ensures l.ChunkAt(l.off + l.push - 1) == -1
  {
    hide Layout.Size, Layout.SizeToPush, Layout.ChunkAt, Words;
    var k := l.off + l.push - 1;
    DivUnique(l.push - 1, l.push, 0, l.push - 1);
    CoversWord(l, k);
    SizeExact(l, 0);
    WordsExact(l.push);
    assert l.ChunkAt(k) >= -1;
  }

  /** A step keeps to its `cb` words exactly when the uint64 subtraction never wraps or the kernels then do nothing. */
  lemma StaysInside(l: Layout)
    requires l.Valid()
    ensures (forall k :: l.ChunkAt(k) >= 0 ==> l.off <= k < l.off + l.cb)
            <==> (l.n - 1) * l.push <= l.cb || Words(l.push) == 0
  {
    hide Layout.SizeToPush, Words;
    if (l.n - 1) * l.push <= l.cb {
    } else if Words(l.push) == 0 {
      forall k ensures l.ChunkAt(k) >= 0 ==> l.off <= k < l.off + l.cb {
        if l.ChunkAt(k) >= 0 { InsideUnlessWrapped(l, k); }
      }
    } else {
      var c := l.n - 1;
      SizeExact(l, c);
      assert l.push > 0;
      InChunk(l, c, l.off + c * l.push);
      assert l.ChunkAt(l.off + c * l.push) == c;
    }
  }

  lemma InsideUnlessWrapped(l: Layout, k: int)
    requires l.Valid() && Words(l.push) == 0 && l.ChunkAt(k) >= 0
    ensures l.off <= k < l.off + l.cb
  {
    hide Layout.Size, Layout.SizeToPush, Words;
    var c := l.ChunkAt(k);
    SizeExact(l, c);
    Quotient(k - l.off, l.push);
  }

  // ---------------------------------------------------------------------------------------
  // What the data holds
  // ---------------------------------------------------------------------------------------

  /** Sum of word `k` over the GPUs lo..hi-1. */
  ghost function Sum(d: seq<seq<real>>, k: nat, lo: nat, hi: nat): real
    requires lo <= hi <= |d| && forall g | 0 <= g < |d| :: k < |d[g]|
  {
    if lo == hi then 0.0 else Sum(d, k, lo, hi - 1) + d[hi - 1][k]
  }

  /** The element-wise average of all GPUs. */
  ghost function Average(d: seq<seq<real>>, k: nat): real
    requires |d| > 0 && forall g | 0 <= g < |d| :: k < |d[g]|
  {
    Sum(d, k, 0, |d|) / |d| as real
  }

  /** Sum of word `k` over GPU `c` and the `dist` GPUs after it on the ring. */
  ghost function RingSum(d: seq<seq<real>>, k: nat, c: nat, dist: nat): real
    requires c < |d| && dist < |d| && forall g | 0 <= g < |d| :: k < |d[g]|
  {
    var i := if c + dist < |d| then c + dist else c + dist - |d|;
    d[i][k] + if dist == 0 then 0.0 else RingSum(d, k, c, dist - 1)
  }

  lemma {:induction false} SumSplit(d: seq<seq<real>>, k: nat, lo: nat, mid: nat, hi: nat)
    requires lo <= mid <= hi <= |d| && forall g | 0 <= g < |d| :: k < |d[g]|
    ensures Sum(d, k, lo, hi) == Sum(d, k, lo, mid) + Sum(d, k, mid, hi)
  {
    if mid < hi { SumSplit(d, k, lo, mid, hi - 1); }
  }

  lemma {:induction false} RingSumSegments(d: seq<seq<real>>, k: nat, c: nat, dist: nat)
    requires c < |d| && dist < |d| && forall g | 0 <= g < |d| :: k < |d[g]|
    ensures RingSum(d, k, c, dist) ==
            if c + dist < |d| then Sum(d, k, c, c + dist + 1)
            else Sum(d, k, c, |d|) + Sum(d, k, 0, c + dist + 1 - |d|)
  {
    if dist > 0 { RingSumSegments(d, k, c, dist - 1); }
  }

  /** Going once round the ring sums all GPUs, wherever it starts. */
  lemma OnceRound(d: seq<seq<real>>, k: nat, c: nat)
    requires c < |d| && forall g | 0 <= g < |d| :: k < |d[g]|
    ensures RingSum(d, k, c, |d| - 1) == Sum(d, k, 0, |d|)
  {
    RingSumSegments(d, k, c, |d| - 1);
    SumSplit(d, k, 0, c, |d|);
  }

  /** GPU `i`'s word `k` after `m` reduce rounds of a big step that began with memory `d`. */
  ghost function Reduced(d: seq<seq<real>>, l: Layout, m: nat, i: nat, k: nat): real
    requires |d| == l.n && i < |d| && forall g | 0 <= g < |d| :: k < |d[g]|
  {
    var c := l.ChunkAt(k);
    if c == -1 || Dist(l.n, c, i) > m then d[i][k]
    else if Dist(l.n, c, i) < l.n - 1 then RingSum(d, k, c, Dist(l.n, c, i))
    else RingSum(d, k, c, l.n - 1) / l.n as real
  }

  /** GPU `i`'s word `k` after all reduce rounds and `m` hand-round rounds. */
  ghost function Gathered(d: seq<seq<real>>, l: Layout, m: nat, i: nat, k: nat): real
    requires |d| == l.n && i < |d| && forall g | 0 <= g < |d| :: k < |d[g]|
  {
    var c := l.ChunkAt(k);
    if c == -1 then d[i][k]
    else if Dist(l.n, c, i) < m then Average(d, k)
    else Reduced(d, l, l.n - 1, i, k)
  }

  // ---------------------------------------------------------------------------------------
  // One drained round
  // ---------------------------------------------------------------------------------------

  ghost predicate Shape(data: array2<real>, bufs: array2<real>, l: Layout) {
    && data != bufs && l.Valid() && l.Countable()
    && data.Length0 == bufs.Length0 == l.n
    && l.off + l.Extent() <= data.Length1 && l.Extent() <= bufs.Length1
  }

  lemma InChunks(l: Layout, c: nat, start: int)
    requires l.Valid() && c < l.n && start == c * l.push
    ensures 0 <= start && start + l.Size(c) <= l.Extent() && l.Size(c) == Words(l.SizeToPush(c))
    ensures forall k: int :: l.ChunkAt(k) == c <==> l.off + start <= k < l.off + start + l.Size(c)
  {
    SizeExact(l, c);
    Times(0, c, l.push);
    forall k: int
      ensures l.ChunkAt(k) == c <==> l.off + start <= k < l.off + start + l.Size(c)
    {
      InChunk(l, c, k);
    }
  }

  /** Push chunk `c` from GPU `i`'s data into the buffer of GPU `to`. */
  method PushChunkToBuffer(l: Layout, c: nat, data: array2<real>, i: nat, bufs: array2<real>, to: nat)
    requires Shape(data, bufs, l) && c < l.n && i < l.n && to < l.n
    modifies bufs
    ensures forall g, b | 0 <= g < l.n && 0 <= b < bufs.Length1 ::
              bufs[g, b] == if g == to && l.ChunkAt(l.off + b) == c then data[i, l.off + b] else old(bufs[g, b])
  {
    var start := c * l.push;
    InChunks(l, c, start);
    hide *;
    PushData(data, i, l.off + start, bufs, to, start, l.SizeToPush(c));
  }

  /** Add chunk `c` of GPU `i`'s buffer to its data. */
  method ReduceChunk(l: Layout, c: nat, bufs: array2<real>, data: array2<real>, i: nat, last: bool)
    requires Shape(data, bufs, l) && c < l.n && i < l.n
    modifies data
    ensures forall k | 0 <= k < data.Length1 && l.ChunkAt(k) == c :: l.off <= k < l.off + bufs.Length1
    ensures forall g, k | 0 <= g < l.n && 0 <= k < data.Length1 ::
              data[g, k] == if g == i && l.ChunkAt(k) == c
                            then Accumulated(old(data[g, k]), bufs[g, k - l.off], l.n, last)
                            else old(data[g, k])
  {
    var start := c * l.push;
    InChunks(l, c, start);
    hide *;
    ReduceData(bufs, start, data, l.off + start, i, l.SizeToPush(c), l.n, last);
  }

  /** Push chunk `c` from GPU `i`'s data into the data of GPU `to`. */
  method PushChunkToGPU(l: Layout, c: nat, data: array2<real>, i: nat, to: nat)
    requires l.Valid() && l.Countable() && data.Length0 == l.n && l.off + l.Extent() <= data.Length1
    requires c < l.n && i < l.n && to < l.n && i != to
    modifies data
    ensures forall g, k | 0 <= g < l.n && 0 <= k < data.Length1 ::
              data[g, k] == if g == to && l.ChunkAt(k) == c then old(data[i, k]) else old(data[g, k])
  {
    var start := c * l.push;
    InChunks(l, c, start);
    hide *;
    PushData(data, i, l.off + start, data, to, l.off + start, l.SizeToPush(c));
  }

  /**
   Every GPU pushes one chunk into the next GPU's buffer. The command queues drain
   concurrently: `i :| i in pending` runs the kernels in an arbitrary order.
   */
  method PushToBuffer(data: array2<real>, bufs: array2<real>, l: Layout, step: nat)
    requires Shape(data, bufs, l) && step < l.n - 1
    modifies bufs
    ensures forall i, b | 0 <= i < l.n && 0 <= b < bufs.Length1
                          && l.ChunkAt(l.off + b) >= 0 && Dist(l.n, l.ChunkAt(l.off + b), Prev(l.n, i)) == step ::
              bufs[i, b] == data[Prev(l.n, i), l.off + b]
  {
    hide Layout.ChunkAt, Layout.Size, Layout.Extent, Layout.Valid, PushedChunk, ReducedChunk, HandedChunk;
    var pending := AllGPUs(l.n);
    while pending != {}
      invariant forall i | i in pending :: 0 <= i < l.n
      invariant forall i, b | 0 <= i < l.n && 0 <= b < bufs.Length1 && Prev(l.n, i) !in pending
                              && l.ChunkAt(l.off + b) >= 0 && Dist(l.n, l.ChunkAt(l.off + b), Prev(l.n, i)) == step ::
                  bufs[i, b] == data[Prev(l.n, i), l.off + b]
    {
      var i :| i in pending;
      var c, dst := PushedChunk(l.n, i, step), (i + 1) % l.n;
      ChunkIndices(l.n, i, step);
      PushChunkToBuffer(l, c, data, i, bufs, dst);
      pending := pending - {i};
    }
  }

  /** Every GPU adds the chunk it received to its own data. */
  method Reduce(data: array2<real>, bufs: array2<real>, l: Layout, step: nat)
    requires Shape(data, bufs, l) && step < l.n - 1
    modifies data
    ensures forall i, k | 0 <= i < l.n && 0 <= k < data.Length1 ::
              data[i, k] == if l.ChunkAt(k) >= 0 && Dist(l.n, l.ChunkAt(k), i) == step + 1
                            then Accumulated(old(data[i, k]), bufs[i, k - l.off], l.n, step == l.n - 2)
                            else old(data[i, k])
  {
    hide Layout.ChunkAt, Layout.Size, Layout.Extent, Layout.Valid, PushedChunk, ReducedChunk, HandedChunk;
    var pending := AllGPUs(l.n);
    while pending != {}
      invariant forall i | i in pending :: 0 <= i < l.n
      invariant forall i, k | 0 <= i < l.n && 0 <= k < data.Length1 ::
                  data[i, k] == if i !in pending && l.ChunkAt(k) >= 0 && Dist(l.n, l.ChunkAt(k), i) == step + 1
                                then Accumulated(old(data[i, k]), bufs[i, k - l.off], l.n, step == l.n - 2)
                                else old(data[i, k])
    {
      var i :| i in pending;
      var c := ReducedChunk(l.n, i, step);
      ChunkIndices(l.n, i, step);
      ReduceChunk(l, c, bufs, data, i, step == l.n - 2);
      pending := pending - {i};
    }
  }

  /** Every GPU hands one finished chunk to the next GPU's data. */
  method PushToGPU(data: array2<real>, l: Layout, step: nat)
    requires l.Valid() && l.Countable() && data.Length0 == l.n && l.off + l.Extent() <= data.Length1 && step < l.n - 1
    modifies data
    ensures forall i, k | 0 <= i < l.n && 0 <= k < data.Length1 ::
              data[i, k] == if l.ChunkAt(k) >= 0 && Dist(l.n, l.ChunkAt(k), i) == step
                            then old(data[Prev(l.n, i), k])
                            else old(data[i, k])
  {
    hide Layout.ChunkAt, Layout.Size, Layout.Extent, Layout.Valid, PushedChunk, ReducedChunk, HandedChunk;
    var pending := AllGPUs(l.n);
    while pending != {}
      invariant forall i | i in pending :: 0 <= i < l.n
      invariant forall i, k | 0 <= i < l.n && 0 <= k < data.Length1 ::
                  data[i, k] == if Prev(l.n, i) !in pending && l.ChunkAt(k) >= 0 && Dist(l.n, l.ChunkAt(k), i) == step
                                then old(data[Prev(l.n, i), k])
                                else old(data[i, k])
    {
      var i :| i in pending;
      var c, dst := HandedChunk(l.n, i, step), (i + 1) % l.n;
      ChunkIndices(l.n, i, step);
      PushChunkToGPU(l, c, data, i, dst);
      pending := pending - {i};
    }
  }

  // ---------------------------------------------------------------------------------------
  // One big step
  // ---------------------------------------------------------------------------------------

  ghost predicate Holds(data: array2<real>, d: seq<seq<real>>, l: Layout, m: nat, gathering: bool)
    reads data
    requires data.Length0 == l.n && IsMemory(d, l.n, data.Length1)
  {
    forall i, k | 0 <= i < l.n && 0 <= k < data.Length1 ::
      data[i, k] == if gathering then Gathered(d, l, m, i, k) else Reduced(d, l, m, i, k)
  }

  /** A push round followed by its reduce round advances every partial sum by one GPU. */
  method ReduceRound(data: array2<real>, bufs: array2<real>, l: Layout, step: nat, ghost d: seq<seq<real>>)
    requires Shape(data, bufs, l) && step < l.n - 1 && IsMemory(d, l.n, data.Length1)
    requires Holds(data, d, l, step, false)
    modifies data, bufs
    ensures Holds(data, d, l, step + 1, false)
  {
    hide Layout.ChunkAt;
    PushToBuffer(data, bufs, l, step);
    Reduce(data, bufs, l, step);
    forall i, k | 0 <= i < l.n && 0 <= k < data.Length1
      ensures data[i, k] == Reduced(d, l, step + 1, i, k)
    {
      if l.ChunkAt(k) >= 0 && Dist(l.n, l.ChunkAt(k), i) == step + 1 {
        assert k == l.off + (k - l.off);
        assert bufs[i, k - l.off] == old(data[Prev(l.n, i), l.off + (k - l.off)]);
      }
    }
  }

  /** A hand-round round gives the averages to one more GPU. */
  method GatherRound(data: array2<real>, l: Layout, step: nat, ghost d: seq<seq<real>>)
    requires l.Valid() && l.Countable() && data.Length0 == l.n && l.off + l.Extent() <= data.Length1 && step < l.n - 1
    requires IsMemory(d, l.n, data.Length1)
    requires Holds(data, d, l, step, true)
    modifies data
    ensures Holds(data, d, l, step + 1, true)
  {
    hide Layout.ChunkAt;
    PushToGPU(data, l, step);
    forall i, k | 0 <= i < l.n && 0 <= k < data.Length1
      ensures data[i, k] == Gathered(d, l, step + 1, i, k)
    {
      if l.ChunkAt(k) >= 0 { OnceRound(d, k, l.ChunkAt(k)); }
    }
  }

  /** One iteration of the host loop: every touched word becomes the average on every GPU. */
  method BigStep(data: array2<real>, bufs: array2<real>, l: Layout, ghost d: seq<seq<real>>)
    requires Shape(data, bufs, l) && d == Snapshot(data)
    modifies data, bufs
    ensures forall i, k | 0 <= i < l.n && 0 <= k < data.Length1 ::
              data[i, k] == if l.ChunkAt(k) >= 0 then Average(d, k) else d[i][k]
  {
    hide Layout.ChunkAt;
    for step := 0 to l.n - 1
      invariant Holds(data, d, l, step, false)
    {
      ReduceRound(data, bufs, l, step, d);
    }
    for step := 0 to l.n - 1
      invariant Holds(data, d, l, step, true)
    {
      GatherRound(data, l, step, d);
    }
    forall i, k | 0 <= i < l.n && 0 <= k < data.Length1
      ensures data[i, k] == if l.ChunkAt(k) >= 0 then Average(d, k) else d[i][k]
    {
      if l.ChunkAt(k) >= 0 { OnceRound(d, k, l.ChunkAt(k)); }
    }
  }

  // ---------------------------------------------------------------------------------------
  // The whole operation
  // ---------------------------------------------------------------------------------------

  function BigSteps(dataSize: nat, sizePerBuf: nat): (r: int)
    requires sizePerBuf > 0
    ensures r >= 0
  {
    GoDiv(dataSize - 1, sizePerBuf) + 1
  }

  /** The chunks of big step `j`: the buffer, or what is left of the data, in n chunks rounded up. */
  function LayoutOf(n: nat, dataSize: nat, sizePerBuf: nat, j: nat): (l: Layout)
    requires n > 0 && sizePerBuf > 0 && j < BigSteps(dataSize, sizePerBuf)
  {
    StepInData(dataSize, sizePerBuf, j);
    var dataOffset := j * sizePerBuf;
    var currBufSize := Min(sizePerBuf, dataSize - dataOffset);
    Layout(n, dataOffset, currBufSize, EachGPUDataSize(currBufSize, n))
  }

  function EachGPUDataSize(currBufSize: nat, n: nat): nat
    requires n > 0
  {
    var each := currBufSize / n;
    if each * n < currBufSize then each + 1 else each
  }

  lemma StepInData(dataSize: nat, sizePerBuf: nat, j: nat)
    requires sizePerBuf > 0 && j < BigSteps(dataSize, sizePerBuf)
    ensures 0 <= j * sizePerBuf <= dataSize
    ensures dataSize > 0 ==> j * sizePerBuf < dataSize
  {
    if dataSize > 0 {
      Quotient(dataSize - 1, sizePerBuf);
      Times(j, (dataSize - 1) / sizePerBuf, sizePerBuf);
    } else {
      assert (1 / sizePerBuf) <= 1;
    }
  }

  lemma LayoutValid(n: nat, dataSize: nat, sizePerBuf: nat, j: nat)
    requires n > 0 && sizePerBuf > 0 && j < BigSteps(dataSize, sizePerBuf)
    requires 2 * sizePerBuf + n < UINT64 / 2
    ensures LayoutOf(n, dataSize, sizePerBuf, j).Valid() && LayoutOf(n, dataSize, sizePerBuf, j).n == n
  {
    var l := LayoutOf(n, dataSize, sizePerBuf, j);
    Quotient(l.cb, n);
    Rounded(l.cb / n, l.cb % n, n, l.push, l.cb);
  }

  lemma Rounded(q: nat, r: nat, n: nat, push: nat, cb: nat)
    requires r < n && cb == q * n + r && push == if q * n < cb then q + 1 else q
    ensures cb <= push * n < cb + n
  {
    assert (q + 1) * n == q * n + n;
  }

  /** Word `k` is averaged by one of the first `j` big steps. */
  ghost predicate Touched(n: nat, dataSize: nat, sizePerBuf: nat, j: nat, k: nat)
    requires n > 0 && sizePerBuf > 0 && j <= BigSteps(dataSize, sizePerBuf)
  {
    j > 0 && (Touched(n, dataSize, sizePerBuf, j - 1, k) || LayoutOf(n, dataSize, sizePerBuf, j - 1).ChunkAt(k) >= 0)
  }

  /** The chunks of a run, of which those of the first big step are the largest. */
  function LargestChunk(n: nat, dataSize: nat, sizePerBuf: nat): nat
    requires n > 0
  {
    EachGPUDataSize(Min(sizePerBuf, dataSize), n)
  }

  lemma FirstIsLargest(n: nat, dataSize: nat, sizePerBuf: nat, j: nat)
    requires n > 0 && sizePerBuf > 0 && j < BigSteps(dataSize, sizePerBuf)
    ensures var l := LayoutOf(n, dataSize, sizePerBuf, j);
            l.push <= l.cb && l.push <= LargestChunk(n, dataSize, sizePerBuf)
    ensures j == 0 ==> LayoutOf(n, dataSize, sizePerBuf, 0).push == LargestChunk(n, dataSize, sizePerBuf)
  {
    StepInData(dataSize, sizePerBuf, j);
    var l := LayoutOf(n, dataSize, sizePerBuf, j);
    MoreDataLargerChunks(l.cb, Min(sizePerBuf, dataSize), n);
  }

  lemma MoreDataLargerChunks(a: nat, b: nat, n: nat)
    requires n > 0 && a <= b
    ensures EachGPUDataSize(a, n) <= EachGPUDataSize(b, n) && EachGPUDataSize(a, n) <= a
  {
    RoundedUp(a, n);
    RoundedUp(b, n);
    hide EachGPUDataSize;
    RoundedLess(EachGPUDataSize(a, n), EachGPUDataSize(b, n), a, b, n);
  }

  lemma RoundedUp(a: nat, n: nat)
    requires n > 0
    ensures a <= EachGPUDataSize(a, n) * n < a + n
  {
    Quotient(a, n);
    Rounded(a / n, a % n, n, EachGPUDataSize(a, n), a);
  }

  lemma RoundedLess(p: nat, q: nat, a: nat, b: nat, n: nat)
    requires n > 0 && a <= b && p * n < a + n && b <= q * n
    ensures p <= q && p <= a
  {
    assert (q + 1) * n == q * n + n && (a + 1) * n == a * n + n;
    Times(1, n, a);
    if p > q { Times(q + 1, p, n); }
    if p > a { Times(a + 1, p, n); }
  }

  /** The big steps cover the data if no chunk is pushed short. */
  lemma {:induction false} TouchesData(n: nat, dataSize: nat, sizePerBuf: nat, j: nat, k: nat)
    requires n > 0 && sizePerBuf > 0 && j <= BigSteps(dataSize, sizePerBuf)
    requires 2 * sizePerBuf + n < UINT64 / 2 && LargestChunk(n, dataSize, sizePerBuf) < UINT32 / 2
    requires k < dataSize && k < j * sizePerBuf
    ensures Touched(n, dataSize, sizePerBuf, j, k)
  {
    hide Layout.ChunkAt, Layout.Size, Layout.Extent, Layout.Valid, LargestChunk, EachGPUDataSize;
    assert j * sizePerBuf == (j - 1) * sizePerBuf + sizePerBuf;
    if k < (j - 1) * sizePerBuf {
      TouchesData(n, dataSize, sizePerBuf, j - 1, k);
    } else {
      LayoutValid(n, dataSize, sizePerBuf, j - 1);
      FirstIsLargest(n, dataSize, sizePerBuf, j - 1);
      CoversData(LayoutOf(n, dataSize, sizePerBuf, j - 1));
    }
  }

  /** Only the first big step touches the data before the second one's. */
  lemma {:induction false} OnlyFirst(n: nat, dataSize: nat, sizePerBuf: nat, j: nat, k: nat)
    requires n > 0 && sizePerBuf > 0 && 0 < j <= BigSteps(dataSize, sizePerBuf) && k < sizePerBuf
    ensures Touched(n, dataSize, sizePerBuf, j, k) <==> LayoutOf(n, dataSize, sizePerBuf, 0).ChunkAt(k) >= 0
  {
    hide Layout.Size, Layout.Extent, Layout.Valid, LargestChunk;
    if j > 1 {
      OnlyFirst(n, dataSize, sizePerBuf, j - 1, k);
      Times(1, j - 1, sizePerBuf);
    } else {
      assert !Touched(n, dataSize, sizePerBuf, 0, k);
    }
  }

  /** The last big step ends where the data ends. */
  lemma LastStep(n: nat, dataSize: nat, sizePerBuf: nat)
    requires n > 0 && sizePerBuf > 0 && dataSize > 0
    ensures BigSteps(dataSize, sizePerBuf) > 0 && dataSize <= BigSteps(dataSize, sizePerBuf) * sizePerBuf
    ensures var l := LayoutOf(n, dataSize, sizePerBuf, BigSteps(dataSize, sizePerBuf) - 1);
            l.off + l.cb == dataSize && l.cb > 0
  {
    Quotient(dataSize - 1, sizePerBuf);
    var q := (dataSize - 1) / sizePerBuf;
    assert (q + 1) * sizePerBuf == q * sizePerBuf + sizePerBuf;
  }

  /** A whole run averages all of the data if and only if no chunk has 2^31 words or more. */
  lemma WholeData(n: nat, dataSize: nat, sizePerBuf: nat)
    requires n > 0 && sizePerBuf > 0 && 2 * sizePerBuf + n < UINT64 / 2
    ensures (forall k | 0 <= k < dataSize :: Touched(n, dataSize, sizePerBuf, BigSteps(dataSize, sizePerBuf), k))
            <==> LargestChunk(n, dataSize, sizePerBuf) < UINT32 / 2
  {
    hide Layout.ChunkAt, Touched, BigSteps, EachGPUDataSize;
    if LargestChunk(n, dataSize, sizePerBuf) < UINT32 / 2 {
      if dataSize > 0 { LastStep(n, dataSize, sizePerBuf); }
      forall k | 0 <= k < dataSize
        ensures Touched(n, dataSize, sizePerBuf, BigSteps(dataSize, sizePerBuf), k)
      {
        TouchesData(n, dataSize, sizePerBuf, BigSteps(dataSize, sizePerBuf), k);
      }
    } else {
      var k := UntouchedWord(n, dataSize, sizePerBuf);
    }
  }

  /** A word that a run with larger chunks leaves as it was. */
  lemma UntouchedWord(n: nat, dataSize: nat, sizePerBuf: nat) returns (k: nat)
    requires n > 0 && sizePerBuf > 0 && 2 * sizePerBuf + n < UINT64 / 2
    requires LargestChunk(n, dataSize, sizePerBuf) >= UINT32 / 2
    ensures k < dataSize && !Touched(n, dataSize, sizePerBuf, BigSteps(dataSize, sizePerBuf), k)
  {
    hide Layout.ChunkAt, Touched;
    MoreDataLargerChunks(Min(sizePerBuf, dataSize), Min(sizePerBuf, dataSize), n);
    LastStep(n, dataSize, sizePerBuf);
    LayoutValid(n, dataSize, sizePerBuf, 0);
    FirstIsLargest(n, dataSize, sizePerBuf, 0);
    var l := LayoutOf(n, dataSize, sizePerBuf, 0);
    k := l.push - 1;
    ShortChunk(l);
    OnlyFirst(n, dataSize, sizePerBuf, BigSteps(dataSize, sizePerBuf), k);
  }

  lemma FitsData(n: nat, dataSize: nat, sizePerBuf: nat, words: nat, bufWords: nat)
    requires n > 0 && sizePerBuf > 0 && Fits(n, dataSize, sizePerBuf, words, bufWords)
    ensures dataSize <= words
  {
    if dataSize > 0 {
      LastStep(n, dataSize, sizePerBuf);
      var l := LayoutOf(n, dataSize, sizePerBuf, BigSteps(dataSize, sizePerBuf) - 1);
      Times(n - 1, n, l.push);
    }
  }

  ghost predicate NeverWraps(n: nat, dataSize: nat, sizePerBuf: nat)
    requires n > 0 && sizePerBuf > 0
  {
    forall j | 0 <= j < BigSteps(dataSize, sizePerBuf) ::
      var l := LayoutOf(n, dataSize, sizePerBuf, j); (n - 1) * l.push <= l.cb
  }

  /** All words a run touches exist, given the sizes of a GPU's memory and of its buffer. */
  ghost predicate Fits(n: nat, dataSize: nat, sizePerBuf: nat, words: nat, bufWords: nat)
    requires n > 0 && sizePerBuf > 0
  {
    forall j | 0 <= j < BigSteps(dataSize, sizePerBuf) ::
      var l := LayoutOf(n, dataSize, sizePerBuf, j);
      l.off + l.Extent() <= words && l.Extent() <= bufWords
  }

  /** No kernel of a run overflows the index its threads count with. */
  ghost predicate Countable(n: nat, dataSize: nat, sizePerBuf: nat)
    requires n > 0 && sizePerBuf > 0
  {
    forall j: nat | j < BigSteps(dataSize, sizePerBuf) :: LayoutOf(n, dataSize, sizePerBuf, j).Countable()
  }

  lemma SmallChunksCountable(n: nat, dataSize: nat, sizePerBuf: nat)
    requires n > 0 && sizePerBuf > 0 && LargestChunk(n, dataSize, sizePerBuf) <= MAX_COUNT
    ensures Countable(n, dataSize, sizePerBuf)
  {
    hide LayoutOf, LargestChunk, BigSteps, Words;
    forall j: nat | j < BigSteps(dataSize, sizePerBuf) ensures LayoutOf(n, dataSize, sizePerBuf, j).Countable() {
      var l := LayoutOf(n, dataSize, sizePerBuf, j);
      FirstIsLargest(n, dataSize, sizePerBuf, j);
      forall c: nat | c < l.n ensures l.Size(c) <= MAX_COUNT { WordsExact(l.SizeToPush(c)); }
    }
  }

  /** Memory of exactly the sizes the caller passes is enough if and only if no push size wraps. */
  lemma ExactMemorySuffices(n: nat, dataSize: nat, sizePerBuf: nat)
    requires n > 0 && sizePerBuf > 0
    ensures Fits(n, dataSize, sizePerBuf, dataSize, sizePerBuf) <==> NeverWraps(n, dataSize, sizePerBuf)
  {
    forall j | 0 <= j < BigSteps(dataSize, sizePerBuf)
      ensures var l := LayoutOf(n, dataSize, sizePerBuf, j);
              l.off + l.Extent() <= dataSize && l.Extent() <= sizePerBuf <==> (n - 1) * l.push <= l.cb
    {
      StepInData(dataSize, sizePerBuf, j);
      var l := LayoutOf(n, dataSize, sizePerBuf, j);
      assert n * l.push == (n - 1) * l.push + l.push;
    }
    if Fits(n, dataSize, sizePerBuf, dataSize, sizePerBuf) {
      forall j | 0 <= j < BigSteps(dataSize, sizePerBuf)
        ensures var l := LayoutOf(n, dataSize, sizePerBuf, j); (n - 1) * l.push <= l.cb
      {
      }
    }
  }

  /** The sizes of the repository's own test wrap: its last big step cuts 5 words into chunks of 2. */
  lemma RepositoryTestWraps()
    ensures !NeverWraps(4, 1029, 256) && !Fits(4, 1029, 256, 1029, 256)
    ensures Fits(4, 1029, 256, 1032, 256)
  {
    assert BigSteps(1029, 256) == 5;
    var l := LayoutOf(4, 1029, 256, 4);
    assert l.cb == 5 && l.push == 2 && l.off == 1024;
    ExactMemorySuffices(4, 1029, 256);
    forall j | 0 <= j < BigSteps(1029, 256)
      ensures var l := LayoutOf(4, 1029, 256, j); l.off + l.Extent() <= 1032 && l.Extent() <= 256
    {
      assert j == 0 || j == 1 || j == 2 || j == 3 || j == 4;
    }
  }

  /** The average of equal words is the word. */
  lemma {:induction false} SumOfEqual(d: seq<seq<real>>, k: nat, hi: nat, v: real)
    requires hi <= |d| && forall g | 0 <= g < |d| :: k < |d[g]| && d[g][k] == v
    ensures Sum(d, k, 0, hi) == hi as real * v
  {
    if hi > 0 { SumOfEqual(d, k, hi - 1, v); }
  }

  lemma {:induction false} SumSame(d: seq<seq<real>>, e: seq<seq<real>>, k: nat, hi: nat)
    requires |d| == |e| && hi <= |d|
    requires forall g | 0 <= g < |d| :: k < |d[g]| && k < |e[g]| && d[g][k] == e[g][k]
    ensures Sum(d, k, 0, hi) == Sum(e, k, 0, hi)
  {
    if hi > 0 { SumSame(d, e, k, hi - 1); }
  }

  lemma AverageOfEqual(d: seq<seq<real>>, k: nat, v: real)
    requires |d| > 0 && forall g | 0 <= g < |d| :: k < |d[g]| && d[g][k] == v
    ensures Average(d, k) == v
  {
    SumOfEqual(d, k, |d|, v);
  }

  lemma AverageSame(d: seq<seq<real>>, e: seq<seq<real>>, k: nat)
    requires |d| == |e| > 0
    requires forall g | 0 <= g < |d| :: k < |d[g]| && k < |e[g]| && d[g][k] == e[g][k]
    ensures Average(d, k) == Average(e, k)
  {
    SumSame(d, e, k, |d|);
  }

  ghost predicate Averaged(data: array2<real>, d: seq<seq<real>>, dataSize: nat, sizePerBuf: nat, j: nat)
    reads data
    requires data.Length0 > 0 && sizePerBuf > 0 && j <= BigSteps(dataSize, sizePerBuf)
    requires IsMemory(d, data.Length0, data.Length1)
  {
    forall i, k | 0 <= i < data.Length0 && 0 <= k < data.Length1 ::
      data[i, k] == if Touched(data.Length0, dataSize, sizePerBuf, j, k) then Average(d, k) else d[i][k]
  }

  /** Big step `j`: averaging words that earlier big steps have averaged leaves them as they are. */
  method BigStepOf(data: array2<real>, dataSize: nat, bufs: array2<real>, sizePerBuf: nat, j: nat,
                   ghost d: seq<seq<real>>)
    requires data != bufs && data.Length0 == bufs.Length0 > 0 && sizePerBuf > 0
    requires 2 * sizePerBuf + data.Length0 < UINT64 / 2
    requires Fits(data.Length0, dataSize, sizePerBuf, data.Length1, bufs.Length1)
    requires Countable(data.Length0, dataSize, sizePerBuf)
    requires j < BigSteps(dataSize, sizePerBuf) && IsMemory(d, data.Length0, data.Length1)
    requires Averaged(data, d, dataSize, sizePerBuf, j)
    modifies data, bufs
    ensures Averaged(data, d, dataSize, sizePerBuf, j + 1)
  {
    var l := LayoutOf(data.Length0, dataSize, sizePerBuf, j);
    LayoutValid(data.Length0, dataSize, sizePerBuf, j);
    hide Layout.ChunkAt, Layout.Extent, Layout.Valid, Layout.Countable, LayoutOf, Average, BigSteps;
    ghost var e := Snapshot(data);
    BigStep(data, bufs, l, e);
    forall i, k | 0 <= i < data.Length0 && 0 <= k < data.Length1
      ensures data[i, k] == if Touched(data.Length0, dataSize, sizePerBuf, j + 1, k) then Average(d, k) else d[i][k]
    {
      if Touched(data.Length0, dataSize, sizePerBuf, j, k) {
        AverageOfEqual(e, k, Average(d, k));
      } else {
        AverageSame(d, e, k);
      }
    }
  }

  /**
   Averages all GPUs' data, unless a chunk has so many words that the kernels take its size for a
   smaller number. The memory of a GPU may be larger than the data: the words a wrapped push size
   reaches beyond it must exist, and they are averaged as well.
   */
  method AllReduceRing(data: array2<real>, dataSize: nat, bufs: array2<real>, sizePerBuf: nat)
    requires data != bufs && data.Length0 == bufs.Length0 > 0 && sizePerBuf > 0
    requires 2 * sizePerBuf + data.Length0 < UINT64 / 2
    requires Fits(data.Length0, dataSize, sizePerBuf, data.Length1, bufs.Length1)
    requires Countable(data.Length0, dataSize, sizePerBuf)
    modifies data, bufs
    ensures forall i, k | 0 <= i < data.Length0 && 0 <= k < data.Length1 ::
              data[i, k] == if Touched(data.Length0, dataSize, sizePerBuf, BigSteps(dataSize, sizePerBuf), k)
                            then Average(old(Snapshot(data)), k)
                            else old(data[i, k])
    ensures dataSize <= data.Length1
    ensures data.Length0 == 1 || LargestChunk(data.Length0, dataSize, sizePerBuf) < UINT32 / 2 ==>
              forall i, k | 0 <= i < data.Length0 && 0 <= k < dataSize ::
                data[i, k] == Average(old(Snapshot(data)), k)
  {
    assert BigSteps(dataSize, sizePerBuf) >= 0;
    assert forall k | 0 <= k < data.Length1 :: !Touched(data.Length0, dataSize, sizePerBuf, 0, k);
    hide Layout.ChunkAt, Layout.Extent, LayoutOf, Average, Touched, Fits, Countable, BigSteps, LargestChunk;
    var numGPU := data.Length0;
    ghost var d := Snapshot(data);
    var bigSteps := BigSteps(dataSize, sizePerBuf);
    for j := 0 to bigSteps
      invariant Averaged(data, d, dataSize, sizePerBuf, j)
    {
      BigStepOf(data, dataSize, bufs, sizePerBuf, j, d);
    }
    WholeData(numGPU, dataSize, sizePerBuf);
    FitsData(numGPU, dataSize, sizePerBuf, data.Length1, bufs.Length1);
    if numGPU == 1 {
      forall k | 0 <= k < dataSize ensures Average(d, k) == d[0][k] { AverageOfEqual(d, k, d[0][k]); }
    }
  }
}
