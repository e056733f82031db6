/**
 A launch over several GPUs as a whole: driver/driver.go:380-463, kernels/gridbuilder.go:80-205 and
 emu/computeunit.go:298-314 together.
 */
module KernelLaunch {

  import opened Arithmetic
  import opened Collections
  import opened Coordinates
  import opened WorkDistribution
  import opened GridBuilder
  import opened Wavefronts

  /** What NextWG hands out with a work-group. */
  datatype Built = Built(items: seq<Point>, wavefronts: seq<Wavefront>, starts: seq<nat>)

  /** The contract of NextWG, for the work-group with the given id. */
  ghost predicate BuiltFor(b: Built, packet: Packet, id: Point) {
    var wg := GroupAt(packet, id);
    && WellSized(wg) && Spawned(b.items, wg)
    && Formed(b.wavefronts, Ids(b.items, packet.group), b.items, b.starts, |b.items|)
  }

  function Groups(packet: Packet): nat
    requires Launchable(packet)
  {
    var d := Dims(packet);
    Volume(d.x, d.y, d.z)
  }

  function IdOf(packet: Packet, k: nat): Point
    requires Launchable(packet)
  {
    PointAt(k, Dims(packet).x, Dims(packet).y)
  }

  ghost predicate AllBuilt(packet: Packet, built: map<nat, Built>)
    requires Launchable(packet)
  {
    forall k: nat | k < Groups(packet) :: k in built && BuiltFor(built[k], packet, IdOf(packet, k))
  }

  /** A place where a work-item runs: a GPU, a work-group, a wavefront, and a place in it. */
  datatype Site = Site(gpu: nat, group: nat, wf: nat, at: nat)

  ghost predicate Holds(b: Built, p: Point, w: nat, at: nat) {
    w < |b.wavefronts| && at < |b.wavefronts[w].WorkItems| && b.wavefronts[w].WorkItems[at] == p
  }

  /** GPU `s.gpu` enumerates work-group `s.group`, and the work-item there stands for grid point `g`. */
  ghost predicate RunsAt(packet: Packet, wgDist: seq<nat>, gpus: nat, built: map<nat, Built>, g: Point, s: Site)
    requires Launchable(packet)
  {
    && s.gpu < gpus && s.group in built
    && s.group in Rest(FilterOf(packet, wgDist, s.gpu), Dims(packet), 0, Groups(packet))
    && exists p :: Holds(built[s.group], p, s.wf, s.at) && GridPoint(packet, IdOf(packet, s.group), p) == g
  }

  /** In its group, a work-item has one place. */
  lemma OnePlace(b: Built, packet: Packet, id: Point, p: Point) returns (w: nat, at: nat)
    requires BuiltFor(b, packet, id) && Inside(p, GroupAt(packet, id).curr.x, GroupAt(packet, id).curr.y,
                                               GroupAt(packet, id).curr.z)
    ensures Holds(b, p, w, at) && forall v: nat, a: nat :: Holds(b, p, v, a) ==> v == w && a == at
  {
    hide Formed, Spawned, WellSized, GroupAt, Ids, WavefrontOf, EndOf, Holds;
    var ids, n := Ids(b.items, packet.group), |b.items|;
    SpawnedOnce(b.items, GroupAt(packet, id), p);
    var i: nat :| i < n && b.items[i] == p;
    w := WavefrontWith(b.wavefronts, ids, b.items, b.starts, n, i);
    at := i - b.starts[w];
    AtIndex(b, packet, id, i, w);
    forall v: nat, a: nat | Holds(b, p, v, a) ensures v == w && a == at {
      var x := IndexOfHeld(b, packet, id, p, v, a);
      assert x == i;
    }
  }

  lemma AtIndex(b: Built, packet: Packet, id: Point, i: nat, w: nat)
    requires BuiltFor(b, packet, id) && w < |b.wavefronts| && |b.starts| == |b.wavefronts|
    requires b.starts[w] <= i < EndOf(b.starts, w, |b.items|) && i < |b.items|
    ensures Holds(b, b.items[i], w, i - b.starts[w])
  {
    hide Formed, Spawned, WellSized, GroupAt, Ids, WavefrontOf, EndOf;
    var ids, n := Ids(b.items, packet.group), |b.items|;
    FormedAt(b.wavefronts, ids, b.items, b.starts, n, w);
    ItemsOf(b.wavefronts[w], ids, b.items, b.starts[w], EndOf(b.starts, w, n));
  }

  lemma IndexOfHeld(b: Built, packet: Packet, id: Point, p: Point, w: nat, at: nat) returns (i: nat)
    requires BuiltFor(b, packet, id) && Holds(b, p, w, at)
    ensures i < |b.items| && b.items[i] == p && w < |b.starts| && i == b.starts[w] + at
    ensures b.starts[w] <= i < EndOf(b.starts, w, |b.items|)
  {
    hide Formed, Spawned, WellSized, GroupAt, Ids, WavefrontOf, EndOf;
    var ids, n := Ids(b.items, packet.group), |b.items|;
    FormedAt(b.wavefronts, ids, b.items, b.starts, n, w);
    ItemsOf(b.wavefronts[w], ids, b.items, b.starts[w], EndOf(b.starts, w, n));
    i := b.starts[w] + at;
  }

  lemma ItemsOf(wf: Wavefront, ids: seq<nat>, items: seq<Point>, from: nat, to: nat)
    requires |ids| == |items| && WavefrontOf(wf, ids, items, from, to)
    ensures from < to <= |items| && wf.WorkItems == items[from..to]
  {}

  /** Whatever stands in a wavefront of a group is a point of the group. */
  lemma HeldInside(b: Built, packet: Packet, id: Point, p: Point, w: nat, at: nat)
    requires BuiltFor(b, packet, id) && Holds(b, p, w, at)
    ensures Inside(p, GroupAt(packet, id).curr.x, GroupAt(packet, id).curr.y, GroupAt(packet, id).curr.z)
  {
    hide Formed, Spawned, WellSized, GroupAt, Ids, WavefrontOf;
    var i := IndexOfHeld(b, packet, id, p, w, at);
    SpawnedOnce(b.items, GroupAt(packet, id), p);
  }

  /** The work-group and the place in it that a grid point belongs to. */
  function Home(packet: Packet, g: Point): (r: (Point, Point))
    requires Launchable(packet)
  {
    Positive(g.x, packet.group.x);
    Positive(g.y, packet.group.y);
    Positive(g.z, packet.group.z);
    (Point(g.x / packet.group.x, g.y / packet.group.y, g.z / packet.group.z),
     Point(g.x % packet.group.x, g.y % packet.group.y, g.z % packet.group.z))
  }

  /**
   Over all GPUs of a launch, every grid point runs at exactly one place. If the group has its
   work-items on the right lanes, the point's lane is in the execution mask and decodes to its ids.
   */
  lemma EveryPointRunsOnce(packet: Packet, wgDist: seq<nat>, cuCounts: seq<nat>, wgPerCU: nat,
                           built: map<nat, Built>, g: Point) returns (s: Site, p: Point)
    requires Launchable(packet) && !HasZero(packet) && Inside(g, packet.grid.x, packet.grid.y, packet.grid.z)
    requires Fits(packet.grid)
    requires Shares(wgDist, cuCounts, wgPerCU) && wgDist[|cuCounts|] >= TotalWG(packet)
    requires AllBuilt(packet, built)
    ensures RunsAt(packet, wgDist, |cuCounts|, built, g, s)
    ensures forall t :: RunsAt(packet, wgDist, |cuCounts|, built, g, t) ==> t == s
    ensures s.group in built && Holds(built[s.group], p, s.wf, s.at)
    ensures GridPoint(packet, IdOf(packet, s.group), p) == g
    ensures LanesRight(built[s.group], packet.group) ==> OnLane(built[s.group].wavefronts[s.wf], packet.group, p)
  {
    hide Shares, TotalWG, Rest, FilterOf, BuiltFor, Holds, IdOf, Groups, GroupAt, GridPoint, Dims, LanesRight, OnLane;
    var id, item := Home(packet, g).0, Home(packet, g).1;
    p := item;
    var k := HomeGroup(packet, g);
    var gpu := GroupOnOneGPU(packet, wgDist, cuCounts, wgPerCU, k);
    var w, at := OnePlace(built[k], packet, id, item);
    s := Site(gpu, k, w, at);
    forall t | RunsAt(packet, wgDist, |cuCounts|, built, g, t) ensures t == s {
      var q :| Holds(built[t.group], q, t.wf, t.at) && GridPoint(packet, IdOf(packet, t.group), q) == g;
      InGroups(FilterOf(packet, wgDist, t.gpu), packet, t.group);
      HeldInside(built[t.group], packet, IdOf(packet, t.group), q, t.wf, t.at);
      OnlyHome(packet, g, t.group, q);
    }
    if LanesRight(built[k], packet.group) { LaneOfHeld(built[k], packet, id, p, w, at); }
  }

  /** The work-items of a group all have the lane that their id says; RightLanes says when. */
  ghost predicate LanesRight(b: Built, size: Point) {
    forall w: nat | w < |b.wavefronts| :: OnItsLane(b.wavefronts[w], size)
  }

  /** The lane of `p` is on, and the ids that initWfRegs decodes for it are those of `p`. */
  ghost predicate OnLane(wf: Wavefront, size: Point, p: Point) {
    var l := FlattenedID(p, size) - wf.FirstWiFlatID;
    && size.x > 0 && size.y > 0 && 0 <= l < WAVEFRONT_SIZE == |wf.InitExecMask|
    && wf.InitExecMask[l] && PointAt(wf.FirstWiFlatID + l, size.x, size.y) == p
  }

  lemma LaneOfHeld(b: Built, packet: Packet, id: Point, p: Point, w: nat, at: nat)
    requires BuiltFor(b, packet, id) && Holds(b, p, w, at) && LanesRight(b, packet.group)
    ensures OnLane(b.wavefronts[w], packet.group, p)
  {
    hide Formed, Spawned, Ids, WavefrontOf, FlattenedID, PointAt, OnItsLane;
    var ids, n := Ids(b.items, packet.group), |b.items|;
    var wf := b.wavefronts[w];
    HeldInside(b, packet, id, p, w, at);
    FormedAt(b.wavefronts, ids, b.items, b.starts, n, w);
    MaskSize(wf, ids, b.items, b.starts[w], EndOf(b.starts, w, n));
    LaneHasItsIds(wf, GroupAt(packet, id), p);
    var l := FlattenedID(p, packet.group) - wf.FirstWiFlatID;
    MaskIsLanes(wf, b.items, GroupAt(packet, id), b.starts[w], EndOf(b.starts, w, n), l);
    assert p in wf.WorkItems;
  }

  lemma HomeGroup(packet: Packet, g: Point) returns (k: nat)
    requires Launchable(packet) && !HasZero(packet) && Inside(g, packet.grid.x, packet.grid.y, packet.grid.z)
    ensures k < Groups(packet) && IdOf(packet, k) == Home(packet, g).0
    ensures var wg := GroupAt(packet, Home(packet, g).0);
            Inside(Home(packet, g).1, wg.curr.x, wg.curr.y, wg.curr.z)
    ensures GridPoint(packet, Home(packet, g).0, Home(packet, g).1) == g
  {
    hide Flat, PointAt, Volume, GroupAt, Dims, GridPoint;
    var id, d := Home(packet, g).0, Dims(packet);
    EveryPointOnce(packet, g, id, Home(packet, g).1);
    k := Flat(id, d.x, d.y);
    PointOfFlat(id, d.x, d.y);
    InsideBelow(id, d.x, d.y, d.z);
  }

  /** A work-item that stands for `g` is the one at its home. */
  lemma OnlyHome(packet: Packet, g: Point, k: nat, q: Point)
    requires Launchable(packet) && !HasZero(packet) && Inside(g, packet.grid.x, packet.grid.y, packet.grid.z)
    requires k < Groups(packet) && GridPoint(packet, IdOf(packet, k), q) == g
    requires var wg := GroupAt(packet, IdOf(packet, k)); Inside(q, wg.curr.x, wg.curr.y, wg.curr.z)
    ensures IdOf(packet, k) == Home(packet, g).0 && q == Home(packet, g).1
    ensures forall j: nat :: j < Groups(packet) && IdOf(packet, j) == IdOf(packet, k) ==> j == k
  {
    hide Flat, PointAt, Volume, GroupAt, Dims, GridPoint;
    var d := Dims(packet);
    PointInside(k, d);
    EveryPointOnce(packet, g, IdOf(packet, k), q);
    FlatOfPoint(k, d.x, d.y);
    forall j: nat | j < Groups(packet) && IdOf(packet, j) == IdOf(packet, k) ensures j == k {
      FlatOfPoint(j, d.x, d.y);
    }
  }

  lemma InGroups(filter: Option<Point -> bool>, packet: Packet, k: nat)
    requires Launchable(packet) && k in Rest(filter, Dims(packet), 0, Groups(packet))
    ensures k < Groups(packet)
  {}

  lemma GroupOnOneGPU(packet: Packet, wgDist: seq<nat>, cuCounts: seq<nat>, wgPerCU: nat, k: nat) returns (gpu: nat)
    requires Launchable(packet) && !HasZero(packet) && k < Groups(packet)
    requires Fits(packet.grid)
    requires Shares(wgDist, cuCounts, wgPerCU) && wgDist[|cuCounts|] >= TotalWG(packet)
    ensures gpu < |cuCounts|
    ensures forall i: nat | i < |cuCounts| ::
              k in Rest(FilterOf(packet, wgDist, i), Dims(packet), 0, Groups(packet)) <==> i == gpu
  {
    hide Shares, TotalWG, Rest, FilterOf, Dims, Volume;
    gpu := EachGroupOnce(packet, wgDist, cuCounts, wgPerCU, k);
  }
}
