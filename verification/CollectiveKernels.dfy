/**
 The two device kernels of the collective library (benchmarks/mccl/broadcast.cl and
 benchmarks/mccl/allreduce.cl) and the notation the ring algorithms share.

 The memory of all GPUs is one matrix: row g is the memory of GPU g, counted in words.
 Words are real numbers; the rounding of float32 is not modelled.
 */
module CollectiveKernels {

  import opened Arithmetic

  /** The largest count at which the index that a thread counts with, an int, does not overflow. */
  const MAX_COUNT := 0x7FFF_FC00

  /** The host passes a size as a uint32 and the kernels read it as an int. */
  function KernelCount(size: nat): int {
    var u := size % UINT32;
    if u < UINT32 / 2 then u else u - UINT32
  }

  /** How many words the kernels handle when the host asks for `size`. */
  function Words(size: nat): nat {
    if KernelCount(size) > 0 then KernelCount(size) else 0
  }

  /** The kernels handle all words if and only if the size is below 2^31. */
  lemma WordsExact(size: nat)
    ensures Words(size) <= size && (Words(size) == size <==> size < UINT32 / 2)
  {
    Quotient(size, UINT32);
    Times(0, size / UINT32, UINT32);
    if size < UINT32 { DivUnique(size, UINT32, 0, size); } else { Times(1, size / UINT32, UINT32); }
  }

  /** The GPU after `i` on the ring. */
  function Next(n: nat, i: int): int {
    if i + 1 == n then 0 else i + 1
  }

  lemma NextMod(n: nat, i: nat)
    requires i < n
    ensures (i + 1) % n == Next(n, i)
  {
    ModOnce(i + 1, n);
  }

  /** The GPU before `i` on the ring. */
  function Prev(n: nat, i: int): int {
    if i == 0 then n - 1 else i - 1
  }

  /** All GPUs of a group, by index: the kernels of a drained round run once for each, in any order. */
  function AllGPUs(n: nat): (s: set<nat>)
    ensures forall i :: i in s <==> 0 <= i < n
  {
    if n == 0 then {} else AllGPUs(n - 1) + {n - 1}
  }

  /** The value of a matrix at one point in time. */
  ghost function Snapshot(a: array2<real>): (s: seq<seq<real>>)
    reads a
    ensures |s| == a.Length0
    ensures forall g | 0 <= g < |s| :: |s[g]| == a.Length1
    ensures forall g, k | 0 <= g < a.Length0 && 0 <= k < a.Length1 :: s[g][k] == a[g, k]
  {
    seq(a.Length0, g requires 0 <= g < a.Length0 reads a =>
      seq(a.Length1, k requires 0 <= k < a.Length1 reads a => a[g, k]))
  }

  ghost predicate IsMemory(s: seq<seq<real>>, n: nat, words: nat) {
    |s| == n && forall g | 0 <= g < n :: |s[g]| == words
  }

  /** `pushData`: every thread copies the words congruent to its id; together they copy the first words. */
  method PushData(src: array2<real>, srcGPU: nat, srcBase: nat,
                  dst: array2<real>, dstGPU: nat, dstBase: nat, size: nat)
    requires Words(size) <= MAX_COUNT
    requires srcGPU < src.Length0 && srcBase + Words(size) <= src.Length1
    requires dstGPU < dst.Length0 && dstBase + Words(size) <= dst.Length1
    requires src != dst || srcGPU != dstGPU
    modifies dst
    ensures forall g, k | 0 <= g < dst.Length0 && 0 <= k < dst.Length1 ::
              dst[g, k] == if g == dstGPU && dstBase <= k < dstBase + Words(size)
                           then old(src[srcGPU, srcBase + (k - dstBase)])
                           else old(dst[g, k])
  {
    hide KernelCount;
    var num_element := KernelCount(size);
    if num_element <= 0 {
      return;
    }
    for id := 0 to num_element
      invariant forall g, k | 0 <= g < dst.Length0 && 0 <= k < dst.Length1 ::
                  dst[g, k] == if g == dstGPU && dstBase <= k < dstBase + id
                               then old(src[srcGPU, srcBase + (k - dstBase)])
                               else old(dst[g, k])
    {
      dst[dstGPU, dstBase + id] := src[srcGPU, srcBase + id];
    }
  }

  /** One word of a reduction. */
  function Accumulated(store: real, buf: real, gpuNum: nat, last: bool): real
    requires gpuNum > 0
  {
    if last then (store + buf) / gpuNum as real else store + buf
  }

  /** `reduceData`: add the buffer to the store; the last reduction also divides by the number of GPUs. */
  method ReduceData(buf: array2<real>, bufBase: nat, store: array2<real>, storeBase: nat,
                    gpu: nat, size: nat, gpuNum: nat, last: bool)
    requires buf != store && gpuNum > 0
    requires Words(size) <= MAX_COUNT
    requires gpu < buf.Length0 && bufBase + Words(size) <= buf.Length1
    requires gpu < store.Length0 && storeBase + Words(size) <= store.Length1
    modifies store
    ensures forall g, k | 0 <= g < store.Length0 && 0 <= k < store.Length1 ::
              store[g, k] == if g == gpu && storeBase <= k < storeBase + Words(size)
                             then Accumulated(old(store[g, k]), buf[g, bufBase + (k - storeBase)], gpuNum, last)
                             else old(store[g, k])
  {
    hide KernelCount;
    var num_element := KernelCount(size);
    if num_element <= 0 {
      return;
    }
    for id := 0 to num_element
      invariant forall g, k | 0 <= g < store.Length0 && 0 <= k < store.Length1 ::
                  store[g, k] == if g == gpu && storeBase <= k < storeBase + id
                                 then Accumulated(old(store[g, k]), buf[g, bufBase + (k - storeBase)], gpuNum, last)
                                 else old(store[g, k])
    {
      store[gpu, storeBase + id] :=
        Accumulated(store[gpu, storeBase + id], buf[gpu, bufBase + id], gpuNum, last);
    }
  }
}
