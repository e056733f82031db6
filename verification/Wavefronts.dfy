/**
 The inside of a work-group: its work-items (kernels/gridbuilder.go:171-183), their wavefronts of
 64 lanes (kernels/gridbuilder.go:185-205, kernels/grid.go:87-90) and the ids in the lanes'
 vector registers (emu/computeunit.go:298-314).
 */
module Wavefronts {

  import opened Arithmetic
  import opened Coordinates

  const WAVEFRONT_SIZE: nat := 64

  /** A work-group: its place in the grid, its nominal size, and its size at the edge of the grid. */
  datatype WorkGroup = WorkGroup(id: Point, size: Point, curr: Point)

  /** InitExecMask is given as its 64 bits. */
  datatype Wavefront = Wavefront(FirstWiFlatID: nat, WorkItems: seq<Point>, InitExecMask: seq<bool>)

  /** What the grid builder makes: no empty group, none larger than its nominal size. */
  predicate WellSized(wg: WorkGroup) {
    && 0 < wg.curr.x <= wg.size.x && 0 < wg.curr.y <= wg.size.y && 0 < wg.curr.z <= wg.size.z
  }

  /** FlattenedID: the number of a work-item in a group of nominal size. */
  function FlattenedID(wi: Point, size: Point): nat {
    Flat(wi, size.x, size.y)
  }

  /** spawnWorkItems */
  method SpawnWorkItems(wg: WorkGroup) returns (items: seq<Point>)
    requires WellSized(wg)
    ensures Spawned(items, wg)
  {
    hide Flat, PointAt, Volume;
    items := [];
    Origin(wg.curr);
    for z := 0 to wg.curr.z
      invariant |items| == Flat(Point(0, 0, z), wg.curr.x, wg.curr.y)
      invariant forall i: nat | i < |items| :: items[i] == PointAt(i, wg.curr.x, wg.curr.y)
    {
      for y := 0 to wg.curr.y
        invariant |items| == if y < wg.curr.y then Flat(Point(0, y, z), wg.curr.x, wg.curr.y)
                             else Flat(Point(0, 0, z + 1), wg.curr.x, wg.curr.y)
        invariant forall i: nat | i < |items| :: items[i] == PointAt(i, wg.curr.x, wg.curr.y)
      {
        for x := 0 to wg.curr.x
          invariant |items| == if x < wg.curr.x then Flat(Point(x, y, z), wg.curr.x, wg.curr.y)
                               else if y + 1 < wg.curr.y then Flat(Point(0, y + 1, z), wg.curr.x, wg.curr.y)
                               else Flat(Point(0, 0, z + 1), wg.curr.x, wg.curr.y)
          invariant forall i: nat | i < |items| :: items[i] == PointAt(i, wg.curr.x, wg.curr.y)
        {
          PointOfFlat(Point(x, y, z), wg.curr.x, wg.curr.y);
          Follows(Point(x, y, z), wg.curr.x, wg.curr.y);
          items := items + [Point(x, y, z)];
        }
      }
    }
  }

  /** The work-items are all points of the group, in the order of their numbers. */
  predicate Spawned(items: seq<Point>, wg: WorkGroup)
    requires WellSized(wg)
  {
    && |items| == Flat(Point(0, 0, wg.curr.z), wg.curr.x, wg.curr.y)
    && forall i: nat | i < |items| :: items[i] == PointAt(i, wg.curr.x, wg.curr.y)
  }

  lemma Origin(dims: Point)
    ensures Flat(Point(0, 0, 0), dims.x, dims.y) == 0
  {}

  /** Every point of the group is spawned once, and nothing else is. */
  lemma SpawnedOnce(items: seq<Point>, wg: WorkGroup, p: Point)
    requires WellSized(wg) && Spawned(items, wg)
    ensures p in items <==> Inside(p, wg.curr.x, wg.curr.y, wg.curr.z)
    ensures forall i: nat, j: nat | i < j < |items| :: items[i] != items[j]
  {
    hide Flat, PointAt, Volume;
    TopOfBox(wg.curr);
    if Inside(p, wg.curr.x, wg.curr.y, wg.curr.z) {
      InsideBelow(p, wg.curr.x, wg.curr.y, wg.curr.z);
      PointOfFlat(p, wg.curr.x, wg.curr.y);
      assert items[Flat(p, wg.curr.x, wg.curr.y)] == p;
    }
    if p in items {
      var i :| 0 <= i < |items| && items[i] == p;
      FlatOfPoint(i, wg.curr.x, wg.curr.y);
      InsideBelow(p, wg.curr.x, wg.curr.y, wg.curr.z);
    }
    forall i: nat, j: nat | i < j < |items| ensures items[i] != items[j] {
      FlatOfPoint(i, wg.curr.x, wg.curr.y);
      FlatOfPoint(j, wg.curr.x, wg.curr.y);
    }
  }

  lemma TopOfBox(dims: Point)
    ensures Flat(Point(0, 0, dims.z), dims.x, dims.y) == Volume(dims.x, dims.y, dims.z)
  {
    assert dims.z * dims.x * dims.y == dims.x * dims.y * dims.z;
  }

  /** The flattened ids of the work-items rise, from zero on. */
  lemma IdsRise(items: seq<Point>, wg: WorkGroup)
    requires WellSized(wg) && Spawned(items, wg)
    ensures |items| > 0 && FlattenedID(items[0], wg.size) == 0
    ensures forall i: nat, j: nat | i < j < |items| :: FlattenedID(items[i], wg.size) < FlattenedID(items[j], wg.size)
  {
    hide Flat, PointAt, Volume;
    TopOfBox(wg.curr);
    InsideBelow(Point(0, 0, 0), wg.curr.x, wg.curr.y, wg.curr.z);
    Origin(wg.curr);
    Origin(wg.size);
    PointOfFlat(Point(0, 0, 0), wg.curr.x, wg.curr.y);
    forall i: nat, j: nat | i < j < |items|
      ensures FlattenedID(items[i], wg.size) < FlattenedID(items[j], wg.size)
    {
      FlatOfPoint(i, wg.curr.x, wg.curr.y);
      FlatOfPoint(j, wg.curr.x, wg.curr.y);
      LaterPoint(items[i], items[j], wg);
      SmallerPoint(items[i], items[j], wg.size.x, wg.size.y);
    }
  }

  lemma LaterPoint(p: Point, q: Point, wg: WorkGroup)
    requires WellSized(wg) && p.x < wg.curr.x && p.y < wg.curr.y && q.x < wg.curr.x && q.y < wg.curr.y
    requires Flat(p, wg.curr.x, wg.curr.y) < Flat(q, wg.curr.x, wg.curr.y)
    ensures p.z < q.z || (p.z == q.z && (p.y < q.y || (p.y == q.y && p.x < q.x)))
  {
    hide Flat;
    if q.z < p.z || (p.z == q.z && (q.y < p.y || (p.y == q.y && q.x < p.x))) {
      SmallerPoint(q, p, wg.curr.x, wg.curr.y);
    }
  }

  /** The end of the w-th wavefront's stretch of work-items. */
  function EndOf(starts: seq<nat>, w: nat, n: nat): nat
    requires w < |starts|
  {
    if w + 1 < |starts| then starts[w + 1] else n
  }

  /** One wavefront: the items from a multiple of 64 up to before the next, and the bits of their lanes. */
  ghost predicate WavefrontOf(wf: Wavefront, ids: seq<nat>, items: seq<Point>, from: nat, to: nat)
    requires |ids| == |items|
  {
    && from < to <= |items| && ids[from] % WAVEFRONT_SIZE == 0
    && wf.FirstWiFlatID == ids[from] && wf.WorkItems == items[from..to] && |wf.InitExecMask| == WAVEFRONT_SIZE
    && (forall k: nat | from < k < to :: ids[k] % WAVEFRONT_SIZE != 0)
    && (forall l: nat | l < WAVEFRONT_SIZE ::
          wf.InitExecMask[l] <==> exists k: nat :: from <= k < to && ids[k] % WAVEFRONT_SIZE == l)
  }

  /** The first `n` work-items are cut into wavefronts at the items whose id is a multiple of 64. */
  ghost predicate Formed(wavefronts: seq<Wavefront>, ids: seq<nat>, items: seq<Point>, starts: seq<nat>, n: nat)
    requires |ids| == |items|
  {
    && |starts| == |wavefronts| && n <= |items|
    && (|starts| > 0 <==> n > 0) && (|starts| > 0 ==> starts[0] == 0)
    && (forall w: nat | w < |starts| ::
      starts[w] < EndOf(starts, w, n) <= n && WavefrontOf(wavefronts[w], ids, items, starts[w], EndOf(starts, w, n)))
  }

  function Ids(items: seq<Point>, size: Point): (ids: seq<nat>)
    ensures |ids| == |items| && forall i: nat | i < |items| :: ids[i] == FlattenedID(items[i], size)
  {
    seq(|items|, i requires 0 <= i < |items| => FlattenedID(items[i], size))
  }

  function NoLanes(): (m: seq<bool>)
    ensures |m| == WAVEFRONT_SIZE && forall l | 0 <= l < WAVEFRONT_SIZE :: !m[l]
  {
    seq(WAVEFRONT_SIZE, k => false)
  }

  /** formWavefronts. The first work-item opens a wavefront, so there always is one to add to. */
  method FormWavefronts(items: seq<Point>, wg: WorkGroup) returns (wavefronts: seq<Wavefront>, ghost starts: seq<nat>)
    requires WellSized(wg) && Spawned(items, wg)
    ensures Formed(wavefronts, Ids(items, wg.size), items, starts, |items|)
  {
    hide FlattenedID, Spawned, Formed, NoLanes;
    IdsRise(items, wg);
    ghost var ids := Ids(items, wg.size);
    wavefronts, starts := [], [];
    NoneFormed(ids, items);
    for i := 0 to |items|
      invariant Formed(wavefronts, ids, items, starts, i)
    {
      var wi := items[i];
      var inWGID := FlattenedID(wi, wg.size);
      var lane := inWGID % WAVEFRONT_SIZE;
      if lane == 0 {
        Opened(wavefronts, ids, items, starts, i);
        starts := starts + [i];
        wavefronts := wavefronts + [Wavefront(inWGID, [], NoLanes())];
      } else {
        Grown(wavefronts, ids, items, starts, i);
      }
      var last := |wavefronts| - 1;
      var wf := wavefronts[last];
      wavefronts := wavefronts[last := WithItem(wf, wi, lane)];
    }
  }

  /** A work-item joins a wavefront: WorkItems is appended to, and the bit of its lane is set. */
  function WithItem(wf: Wavefront, wi: Point, lane: nat): Wavefront
    requires lane < |wf.InitExecMask|
  {
    Wavefront(wf.FirstWiFlatID, wf.WorkItems + [wi], wf.InitExecMask[lane := true])
  }

  lemma NoneFormed(ids: seq<nat>, items: seq<Point>)
    requires |ids| == |items|
    ensures Formed([], ids, items, [], 0)
  {}

  lemma Opened(wavefronts: seq<Wavefront>, ids: seq<nat>, items: seq<Point>, starts: seq<nat>, i: nat)
    requires |ids| == |items| && Formed(wavefronts, ids, items, starts, i) && i < |items|
             && ids[i] % WAVEFRONT_SIZE == 0
    ensures var wf := Wavefront(ids[i], [], NoLanes());
            Formed((wavefronts + [wf])[|wavefronts| := WithItem(wf, items[i], 0)], ids, items, starts + [i], i + 1)
  {
    hide WavefrontOf;
    var wf := Wavefront(ids[i], [], NoLanes());
    NewWavefront(wf, ids, items, i);
    var after := (wavefronts + [wf])[|wavefronts| := WithItem(wf, items[i], 0)];
    forall w: nat | w < |starts|
      ensures WavefrontOf(after[w], ids, items, starts[w], EndOf(starts + [i], w, i + 1))
    {
      assert EndOf(starts + [i], w, i + 1) == EndOf(starts, w, i);
    }
  }

  lemma NewWavefront(wf: Wavefront, ids: seq<nat>, items: seq<Point>, i: nat)
    requires |ids| == |items| && i < |items| && ids[i] % WAVEFRONT_SIZE == 0
    requires wf == Wavefront(ids[i], [], NoLanes())
    ensures WavefrontOf(WithItem(wf, items[i], 0), ids, items, i, i + 1)
  {}

  lemma Grown(wavefronts: seq<Wavefront>, ids: seq<nat>, items: seq<Point>, starts: seq<nat>, i: nat)
    requires |ids| == |items| && Formed(wavefronts, ids, items, starts, i) && i < |items|
    requires ids[i] % WAVEFRONT_SIZE != 0 && (i == 0 ==> ids[0] % WAVEFRONT_SIZE == 0)
    ensures |wavefronts| > 0 && |wavefronts[|wavefronts| - 1].InitExecMask| == WAVEFRONT_SIZE
    ensures var last := |wavefronts| - 1;
            var after := wavefronts[last := WithItem(wavefronts[last], items[i], ids[i] % WAVEFRONT_SIZE)];
            Formed(after, ids, items, starts, i + 1)
  {
    hide WavefrontOf;
    var last := |wavefronts| - 1;
    MaskSize(wavefronts[last], ids, items, starts[last], EndOf(starts, last, i));
    GrownWavefront(wavefronts[last], ids, items, starts[last], i);
    var after := wavefronts[last := WithItem(wavefronts[last], items[i], ids[i] % WAVEFRONT_SIZE)];
    forall w: nat | w < |starts|
      ensures WavefrontOf(after[w], ids, items, starts[w], EndOf(starts, w, i + 1))
    {
      if w < last { assert EndOf(starts, w, i + 1) == EndOf(starts, w, i); }
    }
  }

  lemma MaskSize(wf: Wavefront, ids: seq<nat>, items: seq<Point>, from: nat, to: nat)
    requires |ids| == |items| && WavefrontOf(wf, ids, items, from, to)
    ensures |wf.InitExecMask| == WAVEFRONT_SIZE
  {}

  lemma GrownWavefront(wf: Wavefront, ids: seq<nat>, items: seq<Point>, from: nat, i: nat)
    requires |ids| == |items| && WavefrontOf(wf, ids, items, from, i) && i < |items| && ids[i] % WAVEFRONT_SIZE != 0
    ensures WavefrontOf(WithItem(wf, items[i], ids[i] % WAVEFRONT_SIZE), ids, items, from, i + 1)
  {
    var lane := ids[i] % WAVEFRONT_SIZE;
    var after := WithItem(wf, items[i], lane);
    forall l: nat | l < WAVEFRONT_SIZE
      ensures after.InitExecMask[l] <==> exists k: nat :: from <= k < i + 1 && ids[k] % WAVEFRONT_SIZE == l
    {
      if after.InitExecMask[l] && l != lane {
        var k: nat :| from <= k < i && ids[k] % WAVEFRONT_SIZE == l;
        assert k < i + 1;
      }
    }
  }

  /** Every work-item is on the lane that its id says. */
  ghost predicate OnItsLane(wf: Wavefront, size: Point) {
    forall p | p in wf.WorkItems :: wf.FirstWiFlatID <= FlattenedID(p, size) < wf.FirstWiFlatID + WAVEFRONT_SIZE
  }

  /** The id where a block of 64 ids begins. */
  function BlockStart(id: nat): (r: nat)
    ensures r % WAVEFRONT_SIZE == 0 && r <= id < r + WAVEFRONT_SIZE
  {
    id / WAVEFRONT_SIZE * WAVEFRONT_SIZE
  }

  lemma BlockStartIs(id: nat, s: nat)
    requires s % WAVEFRONT_SIZE == 0 && s <= id < s + WAVEFRONT_SIZE
    ensures BlockStart(id) == s
  {}

  /**
   The wavefronts hold their work-items on the right lanes exactly when the first id of every
   occupied block of 64 ids is itself a work-item of the group.
   */
  lemma RightLanes(wavefronts: seq<Wavefront>, items: seq<Point>, starts: seq<nat>, wg: WorkGroup)
    requires WellSized(wg) && Spawned(items, wg) && Formed(wavefronts, Ids(items, wg.size), items, starts, |items|)
    ensures (forall w: nat | w < |wavefronts| :: OnItsLane(wavefronts[w], wg.size))
            <==> (forall i: nat | i < |items| :: BlockStart(FlattenedID(items[i], wg.size)) in Ids(items, wg.size))
  {
    hide FlattenedID, Spawned, BlockStart, WavefrontOf, OnItsLane, Formed;
    IdsRise(items, wg);
    var ids := Ids(items, wg.size);
    if forall w: nat | w < |wavefronts| :: OnItsLane(wavefronts[w], wg.size) {
      forall i: nat | i < |items| ensures BlockStart(ids[i]) in ids {
        var w := WavefrontWith(wavefronts, ids, items, starts, |items|, i);
        LaneToBlock(wavefronts[w], ids, items, wg.size, starts[w], EndOf(starts, w, |items|), i);
      }
    }
    if forall i: nat | i < |items| :: BlockStart(ids[i]) in ids {
      forall w: nat | w < |wavefronts| ensures OnItsLane(wavefronts[w], wg.size) {
        FormedAt(wavefronts, ids, items, starts, |items|, w);
        BlockToLane(wavefronts[w], ids, items, wg.size, starts[w], EndOf(starts, w, |items|));
      }
    }
  }

  lemma FormedAt(wavefronts: seq<Wavefront>, ids: seq<nat>, items: seq<Point>, starts: seq<nat>, n: nat, w: nat)
    requires |ids| == |items| && Formed(wavefronts, ids, items, starts, n) && w < |wavefronts|
    ensures |starts| == |wavefronts| && WavefrontOf(wavefronts[w], ids, items, starts[w], EndOf(starts, w, n))
  {}

  /** Every work-item is in a wavefront, and in no other. */
  lemma WavefrontWith(wavefronts: seq<Wavefront>, ids: seq<nat>, items: seq<Point>, starts: seq<nat>, n: nat, i: nat)
    returns (w: nat)
    requires |ids| == |items| && Formed(wavefronts, ids, items, starts, n) && i < n
    ensures w < |wavefronts| == |starts| && starts[w] <= i < EndOf(starts, w, n)
    ensures WavefrontOf(wavefronts[w], ids, items, starts[w], EndOf(starts, w, n))
    ensures forall v: nat | v < |starts| && starts[v] <= i < EndOf(starts, v, n) :: v == w
  {
    hide WavefrontOf;
    FirstStart(wavefronts, ids, items, starts, n);
    w := 0;
    while EndOf(starts, w, n) <= i
      invariant w < |starts| && starts[w] <= i
      decreases |starts| - w
    {
      w := w + 1;
    }
    forall v: nat | v < |starts| && starts[v] <= i < EndOf(starts, v, n) ensures v == w {
      SameWavefront(wavefronts, ids, items, starts, n, i, v, w);
    }
  }

  /** The stretches of two wavefronts have no index in common. */
  lemma SameWavefront(wavefronts: seq<Wavefront>, ids: seq<nat>, items: seq<Point>, starts: seq<nat>, n: nat, i: nat,
                      v: nat, w: nat)
    requires |ids| == |items| && Formed(wavefronts, ids, items, starts, n) && v < |starts| && w < |starts|
    requires starts[v] <= i < EndOf(starts, v, n) && starts[w] <= i < EndOf(starts, w, n)
    ensures v == w
  {
    hide WavefrontOf, Formed;
    if v < w { StartsRise(wavefronts, ids, items, starts, n, v + 1, w); }
    if w < v { StartsRise(wavefronts, ids, items, starts, n, w + 1, v); }
  }

  lemma FirstStart(wavefronts: seq<Wavefront>, ids: seq<nat>, items: seq<Point>, starts: seq<nat>, n: nat)
    requires |ids| == |items| && Formed(wavefronts, ids, items, starts, n) && n > 0
    ensures |starts| == |wavefronts| > 0 && starts[0] == 0
  {}

  lemma {:induction false} StartsRise(wavefronts: seq<Wavefront>, ids: seq<nat>, items: seq<Point>, starts: seq<nat>,
                                      n: nat, v: nat, w: nat)
    requires |ids| == |items| && Formed(wavefronts, ids, items, starts, n) && v <= w < |starts|
    ensures starts[v] <= starts[w]
    decreases w
  {
    hide WavefrontOf;
    if v < w {
      StartsRise(wavefronts, ids, items, starts, n, v, w - 1);
      assert starts[w - 1] < EndOf(starts, w - 1, n);
    }
  }

  lemma LaneToBlock(wf: Wavefront, ids: seq<nat>, items: seq<Point>, size: Point, from: nat, to: nat, i: nat)
    requires |ids| == |items| && ids == Ids(items, size) && WavefrontOf(wf, ids, items, from, to) && from <= i < to
    requires OnItsLane(wf, size)
    ensures BlockStart(ids[i]) in ids
  {
    hide FlattenedID, BlockStart;
    assert wf.WorkItems[i - from] == items[i];
    BlockStartIs(ids[i], ids[from]);
  }

  lemma BlockToLane(wf: Wavefront, ids: seq<nat>, items: seq<Point>, size: Point, from: nat, to: nat)
    requires |ids| == |items| && ids == Ids(items, size) && WavefrontOf(wf, ids, items, from, to)
    requires forall i: nat, j: nat | i < j < |ids| :: ids[i] < ids[j]
    requires forall i: nat | i < |ids| :: BlockStart(ids[i]) in ids
    ensures OnItsLane(wf, size)
  {
    hide FlattenedID, BlockStart;
    forall p | p in wf.WorkItems ensures wf.FirstWiFlatID <= FlattenedID(p, size) < wf.FirstWiFlatID + WAVEFRONT_SIZE {
      var k: nat :| k < |wf.WorkItems| && wf.WorkItems[k] == p;
      BlockOpens(wf, ids, items, from, to, from + k);
      assert ids[from + k] == FlattenedID(p, size);
    }
  }

  /** The block of an id in a wavefront begins with that wavefront. */
  lemma BlockOpens(wf: Wavefront, ids: seq<nat>, items: seq<Point>, from: nat, to: nat, i: nat)
    requires |ids| == |items| && WavefrontOf(wf, ids, items, from, to) && from <= i < to
    requires forall i: nat, j: nat | i < j < |ids| :: ids[i] < ids[j]
    requires BlockStart(ids[i]) in ids
    ensures BlockStart(ids[i]) == ids[from]
  {
    hide BlockStart;
    var m: nat :| m < |ids| && ids[m] == BlockStart(ids[i]);
    assert ids[from] <= ids[i];
    if m < from {
      NextBlock(ids[m], ids[from]);
      assert false;
    }
  }

  lemma NextBlock(a: nat, b: nat)
    requires a % WAVEFRONT_SIZE == 0 && b % WAVEFRONT_SIZE == 0 && a < b
    ensures a + WAVEFRONT_SIZE <= b
  {}

  /** The work-items of a group that is full in x and y have consecutive ids. */
  lemma FullGroup(items: seq<Point>, wg: WorkGroup, i: nat)
    requires WellSized(wg) && Spawned(items, wg) && i < |items|
    requires (wg.curr.x == wg.size.x && wg.curr.y == wg.size.y) || (wg.curr.y == 1 && wg.curr.z == 1)
             || (wg.curr.x == wg.size.x && wg.curr.z == 1)
    ensures FlattenedID(items[i], wg.size) == i
  {
    hide Flat, PointAt, Volume;
    FlatOfPoint(i, wg.curr.x, wg.curr.y);
    TopOfBox(wg.curr);
    InsideBelow(items[i], wg.curr.x, wg.curr.y, wg.curr.z);
    Nested(items[i], wg.curr.x, wg.curr.y);
    Nested(items[i], wg.size.x, wg.size.y);
    if wg.curr.z == 1 { Zero(items[i].z, wg.curr.y); Zero(items[i].z, wg.size.y); }
    if wg.curr.z == 1 && wg.curr.y == 1 { Zero(items[i].y, wg.curr.x); Zero(items[i].y, wg.size.x); }
  }

  lemma Zero(a: nat, b: nat)
    ensures a == 0 ==> a * b == 0
  {}

  /** So the lanes of such a group are right. */
  lemma FullGroupLanes(wavefronts: seq<Wavefront>, items: seq<Point>, starts: seq<nat>, wg: WorkGroup)
    requires WellSized(wg) && Spawned(items, wg) && Formed(wavefronts, Ids(items, wg.size), items, starts, |items|)
    requires (wg.curr.x == wg.size.x && wg.curr.y == wg.size.y) || (wg.curr.y == 1 && wg.curr.z == 1)
             || (wg.curr.x == wg.size.x && wg.curr.z == 1)
    ensures forall w: nat | w < |wavefronts| :: OnItsLane(wavefronts[w], wg.size)
  {
    hide FlattenedID, Spawned, BlockStart, Formed, OnItsLane;
    RightLanes(wavefronts, items, starts, wg);
    forall i: nat | i < |items| ensures BlockStart(FlattenedID(items[i], wg.size)) in Ids(items, wg.size) {
      FullGroup(items, wg, i);
      var b := BlockStart(i);
      FullGroup(items, wg, b);
      assert Ids(items, wg.size)[b] == b;
    }
  }

  /** A group of nominal size 96 x 2 with one column left at the edge of the grid: its second item has id 96. */
  lemma PartialGroupFails(wavefronts: seq<Wavefront>, items: seq<Point>, starts: seq<nat>)
    requires Spawned(items, WorkGroup(Point(0, 0, 0), Point(96, 2, 1), Point(1, 2, 1)))
    requires Formed(wavefronts, Ids(items, Point(96, 2, 1)), items, starts, |items|)
    ensures exists w: nat :: w < |wavefronts| && !OnItsLane(wavefronts[w], Point(96, 2, 1))
  {
    hide Formed, OnItsLane, Spawned, BlockStart, Ids;
    var wg := WorkGroup(Point(0, 0, 0), Point(96, 2, 1), Point(1, 2, 1));
    RightLanes(wavefronts, items, starts, wg);
    TwoItems(items);
    BlockStartIs(96, 64);
    assert BlockStart(FlattenedID(items[1], wg.size)) !in Ids(items, wg.size);
  }

  lemma TwoItems(items: seq<Point>)
    requires Spawned(items, WorkGroup(Point(0, 0, 0), Point(96, 2, 1), Point(1, 2, 1)))
    ensures |items| == 2 && Ids(items, Point(96, 2, 1)) == [0, 96] && FlattenedID(items[1], Point(96, 2, 1)) == 96
  {
    assert Flat(Point(0, 0, 1), 1, 2) == 2;
    assert PointAt(0, 1, 2) == Point(0, 0, 0) && PointAt(1, 1, 2) == Point(0, 1, 0);
    assert items[0] == Point(0, 0, 0) && items[1] == Point(0, 1, 0);
  }

  /** The bits of the mask are the lanes of the work-items. */
  lemma MaskIsLanes(wf: Wavefront, items: seq<Point>, wg: WorkGroup, from: nat, to: nat, l: nat)
    requires WellSized(wg) && Spawned(items, wg) && WavefrontOf(wf, Ids(items, wg.size), items, from, to)
    requires OnItsLane(wf, wg.size) && l < WAVEFRONT_SIZE
    ensures wf.InitExecMask[l] <==> exists p :: p in wf.WorkItems && FlattenedID(p, wg.size) == wf.FirstWiFlatID + l
  {
    hide FlattenedID, Spawned;
    var ids := Ids(items, wg.size);
    if wf.InitExecMask[l] {
      var k: nat :| from <= k < to && ids[k] % WAVEFRONT_SIZE == l;
      assert wf.WorkItems[k - from] == items[k];
      LaneOf(wf.FirstWiFlatID, ids[k]);
    }
    if p :| p in wf.WorkItems && FlattenedID(p, wg.size) == wf.FirstWiFlatID + l {
      var k: nat :| k < |wf.WorkItems| && wf.WorkItems[k] == p;
      assert items[from + k] == p && ids[from + k] == wf.FirstWiFlatID + l;
      LaneOf(wf.FirstWiFlatID, ids[from + k]);
    }
  }

  lemma LaneOf(first: nat, id: nat)
    requires first % WAVEFRONT_SIZE == 0 && first <= id < first + WAVEFRONT_SIZE
    ensures id % WAVEFRONT_SIZE == id - first
  {}

  /** The loop of initWfRegs: v0, v1 and v2 of every lane; the latter two only if the kernel asks for them. */
  method InitWfRegs(first: nat, size: Point, enableVgprWorkItemID: nat, v0: array<nat>, v1: array<nat>, v2: array<nat>)
    requires size.x > 0 && size.y > 0
    requires v0.Length == v1.Length == v2.Length == WAVEFRONT_SIZE && v0 != v1 && v0 != v2 && v1 != v2
    modifies v0, v1, v2
    ensures forall l: nat | l < WAVEFRONT_SIZE :: v0[l] == PointAt(first + l, size.x, size.y).x
    ensures forall l: nat | l < WAVEFRONT_SIZE ::
              v1[l] == if enableVgprWorkItemID > 0 then PointAt(first + l, size.x, size.y).y else old(v1[l])
    ensures forall l: nat | l < WAVEFRONT_SIZE ::
              v2[l] == if enableVgprWorkItemID > 1 then PointAt(first + l, size.x, size.y).z else old(v2[l])
  {
    hide PointAt;
    for i := first to first + WAVEFRONT_SIZE
      invariant forall l: nat | l < i - first :: v0[l] == PointAt(first + l, size.x, size.y).x
      invariant forall l: nat | l < WAVEFRONT_SIZE ::
                  v1[l] == if enableVgprWorkItemID > 0
                    && l < i - first then PointAt(first + l, size.x, size.y).y else old(v1[l])
      invariant forall l: nat | l < WAVEFRONT_SIZE ::
                  v2[l] == if enableVgprWorkItemID > 1
                    && l < i - first then PointAt(first + l, size.x, size.y).z else old(v2[l])
    {
      PositiveProduct(size.x, size.y);
      Decode(i, size.x, size.y);
      var z := i / (size.x * size.y);
      var y := i % (size.x * size.y) / size.x;
      var x := i % (size.x * size.y) % size.x;
      var laneID := i - first;
      v0[laneID] := x;
      if enableVgprWorkItemID > 0 {
        v1[laneID] := y;
      }
      if enableVgprWorkItemID > 1 {
        v2[laneID] := z;
      }
    }
  }

  lemma PositiveProduct(a: nat, b: nat)
    requires a > 0 && b > 0
    ensures a * b > 0
  {}

  /** The code's way of taking an id apart. */
  lemma Decode(i: nat, dimX: nat, dimY: nat)
    requires dimX > 0 && dimY > 0 && dimX * dimY > 0
    ensures PointAt(i, dimX, dimY)
            == Point(i % (dimX * dimY) % dimX, i % (dimX * dimY) / dimX, i / (dimX * dimY))
  {
    hide Flat, PointAt;
    var p := PointAt(i, dimX, dimY);
    FlatOfPoint(i, dimX, dimY);
    Nested(p, dimX, dimY);
    RowOrder(p.y, dimY, dimX, p.x, 0);
    assert (p.z * dimY + p.y) * dimX == p.z * (dimX * dimY) + p.y * dimX;
    assert dimY * dimX == dimX * dimY;
    DivUnique(i, dimX * dimY, p.z, p.y * dimX + p.x);
    DivUnique(p.y * dimX + p.x, dimX, p.y, p.x);
  }

  /** A lane of a right wavefront has the ids of its own work-item in its registers. */
  lemma LaneHasItsIds(wf: Wavefront, wg: WorkGroup, p: Point)
    requires WellSized(wg) && OnItsLane(wf, wg.size) && p in wf.WorkItems && p.x < wg.size.x && p.y < wg.size.y
    ensures var l := FlattenedID(p, wg.size) - wf.FirstWiFlatID;
            0 <= l < WAVEFRONT_SIZE && PointAt(wf.FirstWiFlatID + l, wg.size.x, wg.size.y) == p
  {
    PointOfFlat(p, wg.size.x, wg.size.y);
  }
}
