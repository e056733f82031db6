/**
 Enumerating the work-groups of a kernel, kernels/gridbuilder.go:80-169: how many there are for
 one GPU, and which one comes next.
 */
module GridBuilder {

  import opened Arithmetic
  import opened Collections
  import opened Coordinates
  import opened WorkDistribution
  import opened Wavefronts

  predicate Lets(filter: Option<Point -> bool>, wg: Point) {
    filter.None? || filter.value(wg)
  }

  /** The dimension that countWG computes: in 64 bits, so only the subtraction can wrap. */
  function Dim(g: nat, s: nat): (n: nat)
    requires s > 0
    ensures n > 0 && n == Pieces(if g > 0 then g else UINT32, s)
  {
    Positive(Before(g), s);
    Before(g) / s + 1
  }

  function Dims(p: Packet): (d: Point)
    requires Launchable(p)
    ensures d.x > 0 && d.y > 0 && d.z > 0
  {
    Point(Dim(p.grid.x, p.group.x), Dim(p.grid.y, p.group.y), Dim(p.grid.z, p.group.z))
  }

  /** The work-groups that a filter lets through, by number, from `i` on and below `n`. */
  function Rest(filter: Option<Point -> bool>, dims: Point, i: nat, n: nat): (r: seq<nat>)
    requires dims.x > 0 && dims.y > 0
    ensures forall k | k in r :: i <= k < n && Lets(filter, PointAt(k, dims.x, dims.y))
    decreases n - i
  {
    if i >= n then []
    else (if Lets(filter, PointAt(i, dims.x, dims.y)) then [i] else []) + Rest(filter, dims, i + 1, n)
  }

  predicate Rising(r: seq<nat>) {
    forall a: nat, b: nat | a < b < |r| :: r[a] < r[b]
  }

  lemma RisingMore(i: nat, r: seq<nat>)
    requires Rising(r) && forall k | k in r :: i < k
    ensures Rising([i] + r)
  {
    var s := [i] + r;
    forall a: nat, b: nat | a < b < |s| ensures s[a] < s[b] {
      assert s[b] == r[b - 1] && r[b - 1] in r;
      if a > 0 { assert s[a] == r[a - 1]; }
    }
  }

  /** All of them are there, in order and once. */
  lemma {:induction false} RestIsAll(filter: Option<Point -> bool>, dims: Point, i: nat, n: nat)
    requires dims.x > 0 && dims.y > 0
    ensures forall k: nat | i <= k < n && Lets(filter, PointAt(k, dims.x, dims.y)) :: k in Rest(filter, dims, i, n)
    ensures Rising(Rest(filter, dims, i, n))
    decreases n - i
  {
    hide PointAt, Lets, Rising;
    if i < n {
      RestIsAll(filter, dims, i + 1, n);
      RestStep(filter, dims, i, n);
      if Lets(filter, PointAt(i, dims.x, dims.y)) {
        RisingMore(i, Rest(filter, dims, i + 1, n));
      } else {
        assert Rest(filter, dims, i, n) == Rest(filter, dims, i + 1, n);
      }
    } else {
      assert Rest(filter, dims, i, n) == [];
      RisingNone();
    }
  }

  lemma RisingNone()
    ensures Rising([])
  {}

  /** The numbers below `n` of the work-groups that a filter lets through. */
  function Passing(filter: Option<Point -> bool>, dims: Point, n: nat): set<nat>
    requires dims.x > 0 && dims.y > 0
  {
    set k: nat | k < n && Lets(filter, PointAt(k, dims.x, dims.y))
  }

  lemma {:induction false} RestSize(filter: Option<Point -> bool>, dims: Point, i: nat, n: nat)
    requires dims.x > 0 && dims.y > 0 && i <= n
    ensures |Rest(filter, dims, i, n)| + |Passing(filter, dims, i)| == |Passing(filter, dims, n)|
    decreases n - i
  {
    hide PointAt, Lets;
    if i < n {
      RestSize(filter, dims, i + 1, n);
      if Lets(filter, PointAt(i, dims.x, dims.y)) {
        assert Passing(filter, dims, i + 1) == Passing(filter, dims, i) + {i};
      } else {
        assert Passing(filter, dims, i + 1) == Passing(filter, dims, i);
      }
    }
  }

  /** The point comes before (x, y, z) in the order in which countWG visits the points. */
  predicate Visited(p: Point, x: nat, y: nat, z: nat) {
    p.x < x || (p.x == x && (p.y < y || (p.y == y && p.z < z)))
  }

  /** The work-groups counted when the loops of countWG have come to (x, y, z). */
  ghost predicate Counted(counted: set<nat>, filter: Option<Point -> bool>, dims: Point, x: nat, y: nat, z: nat) {
    && dims.x > 0 && dims.y > 0
    && forall k: nat :: k in counted <==>
         && k < Volume(dims.x, dims.y, dims.z) && Lets(filter, PointAt(k, dims.x, dims.y))
         && Visited(PointAt(k, dims.x, dims.y), x, y, z)
  }

  lemma CountStep(counted: set<nat>, filter: Option<Point -> bool>, dims: Point, p: Point)
    requires Counted(counted, filter, dims, p.x, p.y, p.z) && Inside(p, dims.x, dims.y, dims.z)
    ensures Flat(p, dims.x, dims.y) !in counted
    ensures Counted(if Lets(filter, p) then counted + {Flat(p, dims.x, dims.y)} else counted, filter, dims, p.x, p.y,
            p.z + 1)
  {
    hide PointAt, Flat, Volume, Lets;
    PointOfFlat(p, dims.x, dims.y);
    InsideBelow(p, dims.x, dims.y, dims.z);
    forall k: nat | PointAt(k, dims.x, dims.y) == p ensures k == Flat(p, dims.x, dims.y) {
      FlatOfPoint(k, dims.x, dims.y);
    }
  }

  lemma CountRow(counted: set<nat>, filter: Option<Point -> bool>, dims: Point, x: nat, y: nat)
    requires Counted(counted, filter, dims, x, y, dims.z)
    ensures Counted(counted, filter, dims, x, y + 1, 0)
  {
    hide PointAt, Flat, Volume, Lets;
    forall k: nat | k < Volume(dims.x, dims.y, dims.z)
      ensures Visited(PointAt(k, dims.x, dims.y), x, y, dims.z) <==> Visited(PointAt(k, dims.x, dims.y), x, y + 1, 0)
    {
      PointInside(k, dims);
    }
  }

  lemma CountPlane(counted: set<nat>, filter: Option<Point -> bool>, dims: Point, x: nat)
    requires Counted(counted, filter, dims, x, dims.y, 0)
    ensures Counted(counted, filter, dims, x + 1, 0, 0)
  {
    hide PointAt, Flat, Volume, Lets;
    forall k: nat | k < Volume(dims.x, dims.y, dims.z)
      ensures Visited(PointAt(k, dims.x, dims.y), x, dims.y, 0) <==> Visited(PointAt(k, dims.x, dims.y), x + 1, 0, 0)
    {
      PointInside(k, dims);
    }
  }

  lemma CountAll(counted: set<nat>, filter: Option<Point -> bool>, dims: Point)
    requires Counted(counted, filter, dims, dims.x, 0, 0)
    ensures counted == Passing(filter, dims, Volume(dims.x, dims.y, dims.z))
  {
    hide PointAt, Flat, Volume, Lets;
    forall k: nat | k < Volume(dims.x, dims.y, dims.z) ensures Visited(PointAt(k, dims.x, dims.y), dims.x, 0, 0) {
      PointInside(k, dims);
    }
  }

  lemma CountNone(filter: Option<Point -> bool>, dims: Point)
    requires dims.x > 0 && dims.y > 0
    ensures Counted({}, filter, dims, 0, 0, 0)
  {
    hide PointAt, Volume, Lets;
  }

  lemma PointInside(k: nat, dims: Point)
    requires dims.x > 0 && dims.y > 0 && k < Volume(dims.x, dims.y, dims.z)
    ensures Inside(PointAt(k, dims.x, dims.y), dims.x, dims.y, dims.z)
  {
    hide PointAt, Flat, Volume;
    FlatOfPoint(k, dims.x, dims.y);
    InsideBelow(PointAt(k, dims.x, dims.y), dims.x, dims.y, dims.z);
  }

  lemma {:induction false} AllPass(filter: Option<Point -> bool>, dims: Point, n: nat)
    requires dims.x > 0 && dims.y > 0 && filter.None?
    ensures |Passing(filter, dims, n)| == n
  {
    hide PointAt;
    if n > 0 {
      AllPass(filter, dims, n - 1);
      assert Passing(filter, dims, n) == Passing(filter, dims, n - 1) + {n - 1};
    }
  }

  lemma RestStep(filter: Option<Point -> bool>, dims: Point, i: nat, n: nat)
    requires dims.x > 0 && dims.y > 0 && i < n
    ensures Rest(filter, dims, i, n)
            == (if Lets(filter, PointAt(i, dims.x, dims.y)) then [i] else []) + Rest(filter, dims, i + 1, n)
  {}

  lemma RestOver(filter: Option<Point -> bool>, dims: Point, n: nat)
    requires dims.x > 0 && dims.y > 0
    ensures Rest(filter, dims, n, n) == []
  {}

  /** What is left of a dimension at the i-th work-group, before and after it. */
  lemma LeftOver(g: nat, s: nat, i: nat)
    requires g > 0 && s > 0
    ensures g - i * s <= 0 <==> i >= Pieces(g, s)
    ensures (g - i * s) - Min(g - i * s, s) <= 0 <==> i + 1 >= Pieces(g, s)
  {
    hide Pieces;
    PieceStarts(g, s, i);
    PieceStarts(g, s, i + 1);
    assert (i + 1) * s == i * s + s;
  }

  /** The size of the i-th work-group along one dimension. */
  function CurrSize(g: nat, s: nat, i: nat): nat {
    if g <= i * s then 0 else Min(g - i * s, s)
  }

  /** The work-group with the given id. */
  function GroupAt(p: Packet, id: Point): WorkGroup {
    WorkGroup(id, p.group, Point(CurrSize(p.grid.x, p.group.x, id.x), CurrSize(p.grid.y, p.group.y, id.y),
                                 CurrSize(p.grid.z, p.group.z, id.z)))
  }

  lemma GroupWellSized(p: Packet, id: Point)
    requires Launchable(p) && !HasZero(p) && Inside(id, Dims(p).x, Dims(p).y, Dims(p).z)
    ensures WellSized(GroupAt(p, id))
  {
    hide Pieces;
    LeftOver(p.grid.x, p.group.x, id.x);
    LeftOver(p.grid.y, p.group.y, id.y);
    LeftOver(p.grid.z, p.group.z, id.z);
  }

  /** Along one dimension, every coordinate of the grid belongs to one group and to one place in it. */
  lemma Cover(g: nat, s: nat, v: nat, i: nat, x: nat)
    requires g > 0 && s > 0
    ensures v < g ==> (i < Pieces(g, s) && x < CurrSize(g, s, i) && i * s + x == v <==> i == v / s && x == v % s)
    ensures i < Pieces(g, s) && x < CurrSize(g, s, i) ==> i * s + x < g
  {
    hide Pieces;
    PieceStarts(g, s, i);
    Quotient(v, s);
    if v < g && i == v / s && x == v % s {
      assert i * s + x == v;
    }
    if i * s + x == v && x < s {
      DivUnique(v, s, i, x);
    }
  }

  /** The grid point that a work-item stands for. */
  function GridPoint(p: Packet, id: Point, item: Point): Point {
    Point(id.x * p.group.x + item.x, id.y * p.group.y + item.y, id.z * p.group.z + item.z)
  }

  /** Every point of the grid is one work-item of one work-group, and every work-item is a point of the grid. */
  lemma EveryPointOnce(p: Packet, g: Point, id: Point, item: Point)
    requires Launchable(p) && !HasZero(p)
    ensures Inside(g, p.grid.x, p.grid.y, p.grid.z) ==>
              (Inside(id, Dims(p).x, Dims(p).y, Dims(p).z)
               && Inside(item, GroupAt(p, id).curr.x, GroupAt(p, id).curr.y, GroupAt(p, id).curr.z)
               && GridPoint(p, id, item) == g
               <==> id.x == g.x / p.group.x && id.y == g.y / p.group.y && id.z == g.z / p.group.z
                    && item.x == g.x % p.group.x && item.y == g.y % p.group.y && item.z == g.z % p.group.z)
    ensures Inside(id, Dims(p).x, Dims(p).y, Dims(p).z)
            && Inside(item, GroupAt(p, id).curr.x, GroupAt(p, id).curr.y, GroupAt(p, id).curr.z)
            ==> Inside(GridPoint(p, id, item), p.grid.x, p.grid.y, p.grid.z)
  {
    hide Pieces, CurrSize;
    Cover(p.grid.x, p.group.x, g.x, id.x, item.x);
    Cover(p.grid.y, p.group.y, g.y, id.y, item.y);
    Cover(p.grid.z, p.group.z, g.z, id.z, item.z);
  }

  class GridBuilder {
    const packet: Packet
    const filter: Option<Point -> bool>
    var numWG: nat
    var xdim: nat
    var ydim: nat
    var zdim: nat
    var xid: nat
    var yid: nat
    var zid: nat

    /** How far the enumeration is; the work-groups come in the order of their numbers. */
    ghost function Position(): nat
      reads this
    {
      Flat(Point(xid, yid, zid), xdim, ydim)
    }

    ghost function Count(): nat
      reads this
    {
      Volume(xdim, ydim, zdim)
    }

    ghost predicate Valid()
      reads this
    {
      && Launchable(packet) && Point(xdim, ydim, zdim) == Dims(packet)
      && (if HasZero(packet) then xid == yid == zid == 0
          else xid < xdim && yid < ydim && (zid < zdim || (zid == zdim && xid == yid == 0)))
    }

    /** The work-groups still to come. */
    ghost function Coming(): seq<nat>
      requires Valid()
      reads this
    {
      if HasZero(packet) then [] else Rest(filter, Dims(packet), Position(), Count())
    }

    /** SetKernel */
    constructor (packet: Packet, filter: Option<Point -> bool>)
      requires Launchable(packet)
      ensures Valid() && this.packet == packet && this.filter == filter
      ensures numWG == |Passing(filter, Dims(packet), Volume(Dims(packet).x, Dims(packet).y, Dims(packet).z))|
      ensures Coming() == if HasZero(packet) then [] else Rest(filter, Dims(packet), 0, Count())
    {
      this.packet, this.filter := packet, filter;
      xid, yid, zid := 0, 0, 0;
      xdim := Dim(packet.grid.x, packet.group.x);
      ydim := Dim(packet.grid.y, packet.group.y);
      zdim := Dim(packet.grid.z, packet.group.z);
      new;
      hide Dim, Flat, Volume, Rest, Passing;
      Origin(Point(xdim, ydim, zdim));
      CountWG();
    }

    /** countWG, the dimensions given: without a filter their product, else by asking for each. */
    method CountWG()
      requires Valid()
      modifies `numWG
      ensures numWG == |Passing(filter, Dims(packet), Count())|
    {
      hide Dims, Flat, Volume, PointAt, Rest;
      ghost var dims := Dims(packet);
      if filter.None? {
        AllPass(filter, dims, Count());
        numWG := xdim * ydim * zdim;
        VolumeOf(xdim, ydim, zdim);
        return;
      }
      numWG := 0;
      ghost var counted: set<nat> := {};
      CountNone(filter, dims);
      for i := 0 to xdim
        invariant Counted(counted, filter, dims, i, 0, 0) && numWG == |counted|
      {
        for j := 0 to ydim
          invariant Counted(counted, filter, dims, i, j, 0) && numWG == |counted|
        {
          for k := 0 to zdim
            invariant Counted(counted, filter, dims, i, j, k) && numWG == |counted|
          {
            CountStep(counted, filter, dims, Point(i, j, k));
            if filter.value(Point(i, j, k)) {
              numWG := numWG + 1;
              counted := counted + {Flat(Point(i, j, k), xdim, ydim)};
            }
          }
          CountRow(counted, filter, dims, i, j);
        }
        CountPlane(counted, filter, dims, i);
      }
      CountAll(counted, filter, dims);
    }

    /** NextWG: the next work-group that the filter lets through, with its work-items and wavefronts. */
    method NextWG() returns (wg: Option<WorkGroup>, items: seq<Point>, wavefronts: seq<Wavefront>,
                  ghost starts: seq<nat>)
      requires Valid()
      modifies `xid, `yid, `zid
      ensures Valid() && (wg.None? <==> old(Coming()) == [])
      ensures Coming() == if wg.None? then [] else old(Coming())[1..]
      ensures wg.Some? ==>
                && wg.value == GroupAt(packet, PointAt(old(Coming())[0], Dims(packet).x, Dims(packet).y))
                && WellSized(wg.value) && Spawned(items, wg.value)
                && Formed(wavefronts, Ids(items, packet.group), items, starts, |items|)
    {
      hide Flat, Volume, PointAt, Rest, Pieces, Formed, Ids, Spawned, Dim, WellSized, Min, GroupAt, Lets;
      items, wavefronts, starts := [], [], [];
      var found := false;
      var group := WorkGroup(Point(0, 0, 0), packet.group, Point(0, 0, 0));
      ghost var number := 0;
      while !found
        invariant Valid() && (found ==> !HasZero(packet) && Inside(group.id, xdim, ydim, zdim))
        invariant found ==> number == Flat(group.id, xdim, ydim) && group == GroupAt(packet, group.id)
        invariant old(Coming()) == (if found then [number] else []) + Coming()
        decreases !found, if HasZero(packet) then 0 else Count() - Position()
      {
        if !HasZero(packet) { Lefts(); }
        var xLeft := packet.grid.x - xid * packet.group.x;
        var yLeft := packet.grid.y - yid * packet.group.y;
        var zLeft := packet.grid.z - zid * packet.group.z;
        if xLeft <= 0 || yLeft <= 0 || zLeft <= 0 {
          Finished();
          wg := None;
          return;
        }
        var xToAllocate := Min(xLeft, packet.group.x);
        var yToAllocate := Min(yLeft, packet.group.y);
        var zToAllocate := Min(zLeft, packet.group.z);
        group := WorkGroup(Point(xid, yid, zid), packet.group, Point(xToAllocate, yToAllocate, zToAllocate));
        number := Position();
        Advance();
        xid := xid + 1;
        xLeft := xLeft - xToAllocate;
        if xLeft <= 0 {
          xid := 0;
          yid := yid + 1;
          yLeft := yLeft - yToAllocate;
          if yLeft <= 0 {
            yid := 0;
            zid := zid + 1;
          }
        }
        found := Lets(filter, group.id);
      }
      PointOfFlat(group.id, xdim, ydim);
      items, wavefronts, starts := Build(group);
      wg := Some(group);
    }

    method Build(wg: WorkGroup) returns (items: seq<Point>, wavefronts: seq<Wavefront>, ghost starts: seq<nat>)
      requires Valid() && !HasZero(packet) && wg == GroupAt(packet, wg.id) && Inside(wg.id, xdim, ydim, zdim)
      ensures WellSized(wg) && Spawned(items, wg)
              && Formed(wavefronts, Ids(items, packet.group), items, starts, |items|)
    {
      hide Formed, Ids, Spawned, WellSized;
      GroupWellSized(packet, wg.id);
      items := SpawnWorkItems(wg);
      wavefronts, starts := FormWavefronts(items, wg);
    }

    lemma Lefts()
      requires Valid() && !HasZero(packet)
      ensures zid < zdim ==>
                var x, y := packet.grid.x - xid * packet.group.x, packet.grid.y - yid * packet.group.y;
                var z := packet.grid.z - zid * packet.group.z;
                && Min(x, packet.group.x) >= 0 && Min(y, packet.group.y) >= 0 && Min(z, packet.group.z) >= 0
                && GroupAt(packet, Point(xid, yid, zid))
                   == WorkGroup(Point(xid, yid, zid), packet.group,
                     Point(Min(x, packet.group.x), Min(y, packet.group.y), Min(z, packet.group.z)))
      ensures packet.grid.x - xid * packet.group.x > 0 && packet.grid.y - yid * packet.group.y > 0
      ensures packet.grid.z - zid * packet.group.z > 0 <==> zid < zdim
      ensures var x := packet.grid.x - xid * packet.group.x; x - Min(x, packet.group.x) <= 0 <==> xid + 1 == xdim
      ensures var y := packet.grid.y - yid * packet.group.y; y - Min(y, packet.group.y) <= 0 <==> yid + 1 == ydim
    {
      hide Pieces;
      LeftOver(packet.grid.x, packet.group.x, xid);
      LeftOver(packet.grid.y, packet.group.y, yid);
      LeftOver(packet.grid.z, packet.group.z, zid);
    }

    /** Where the code returns nil, no work-group is left. */
    lemma Finished()
      requires Valid() && (HasZero(packet) || zid == zdim)
      ensures Coming() == []
    {
      hide Rest, Dim, Volume, Flat;
      if !HasZero(packet) {
        TopOfBox(Point(xdim, ydim, zdim));
        RestOver(filter, Dims(packet), Count());
      }
    }

    /** One step on, the first number is gone. */
    lemma Advance()
      requires Valid() && !HasZero(packet) && zid < zdim
      ensures Position() < Count()
      ensures Coming() == (if Lets(filter, Point(xid, yid, zid)) then [Position()] else [])
                          + Rest(filter, Dims(packet), Position() + 1, Count())
      ensures Flat(Point(xid + 1, yid, zid), xdim, ydim) == Position() + 1
      ensures xid + 1 == xdim ==> Flat(Point(0, yid + 1, zid), xdim, ydim) == Position() + 1
      ensures xid + 1 == xdim && yid + 1 == ydim ==> Flat(Point(0, 0, zid + 1), xdim, ydim) == Position() + 1
    {
      hide Rest, Dim, Volume, Flat, PointAt;
      var p := Point(xid, yid, zid);
      PointOfFlat(p, xdim, ydim);
      InsideBelow(p, xdim, ydim, zdim);
      RestStep(filter, Dims(packet), Position(), Count());
      Follows(p, xdim, ydim);
    }
  }

  lemma VolumeOf(x: nat, y: nat, z: nat)
    ensures Volume(x, y, z) == x * y * z
  {}

  /**
   NumWG is the number of work-groups that NextWG yields, unless a grid dimension is zero: then
   NextWG yields none, but NumWG counts the groups of a wrapped dimension.
   */
  lemma NumWGAgrees(packet: Packet, filter: Option<Point -> bool>)
    requires Launchable(packet)
    ensures var d := Dims(packet);
            var yielded := if HasZero(packet) then [] else Rest(filter, d, 0, Volume(d.x, d.y, d.z));
            |yielded| == |Passing(filter, d, Volume(d.x, d.y, d.z))|
            <==> !HasZero(packet) || Passing(filter, d, Volume(d.x, d.y, d.z)) == {}
  {
    hide Rest, Volume;
    var d := Dims(packet);
    RestSize(filter, d, 0, Volume(d.x, d.y, d.z));
    assert Passing(filter, d, 0) == {};
  }

  /** Without a filter the disagreement is total: a grid with a zero dimension always counts some groups. */
  lemma ZeroGridCounts(packet: Packet)
    requires Launchable(packet) && HasZero(packet)
    ensures |Passing(None, Dims(packet), Volume(Dims(packet).x, Dims(packet).y, Dims(packet).z))| > 0
  {
    hide Dim;
    var d := Dims(packet);
    AllPass(None, d, Volume(d.x, d.y, d.z));
    PositiveVolume(d.x, d.y, d.z);
  }

  lemma PositiveVolume(x: nat, y: nat, z: nat)
    requires x > 0 && y > 0 && z > 0
    ensures Volume(x, y, z) > 0
  {
    Times(1, y, x);
    Times(1, z, x * y);
  }

  /** The filter of the i-th GPU as the grid builder gets it. */
  function FilterOf(packet: Packet, wgDist: seq<nat>, i: nat): Option<Point -> bool> {
    Some((wg: Point) => Launchable(packet) && i + 1 < |wgDist| && WGFilter(packet, wgDist, i, wg))
  }

  /** Over all GPUs, every work-group of a launched grid is enumerated by one GPU. */
  lemma EachGroupOnce(packet: Packet, wgDist: seq<nat>, cuCounts: seq<nat>, wgPerCU: nat, k: nat) returns (g: nat)
    requires Launchable(packet) && !HasZero(packet)
    requires Fits(packet.grid)
    requires Shares(wgDist, cuCounts, wgPerCU) && wgDist[|cuCounts|] >= TotalWG(packet)
    requires k < Volume(Dims(packet).x, Dims(packet).y, Dims(packet).z)
    ensures g < |cuCounts|
    ensures var d := Dims(packet);
            forall i: nat | i < |cuCounts| ::
              k in Rest(FilterOf(packet, wgDist, i), d, 0, Volume(d.x, d.y, d.z)) <==> i == g
  {
    hide Rest, Volume, PointAt, Shares, TotalWG, WGFilter, Dim, NumWG, Pieces;
    var d := Dims(packet);
    PointInside(k, d);
    g := OneGPU(packet, wgDist, cuCounts, wgPerCU, PointAt(k, d.x, d.y));
    ShareCount(wgDist, cuCounts, wgPerCU);
    forall i: nat | i < |cuCounts|
      ensures k in Rest(FilterOf(packet, wgDist, i), d, 0, Volume(d.x, d.y, d.z)) <==> i == g
    {
      RestIsAll(FilterOf(packet, wgDist, i), d, 0, Volume(d.x, d.y, d.z));
      assert Lets(FilterOf(packet, wgDist, i), PointAt(k, d.x, d.y))
             <==> Accepts(packet, wgDist, |cuCounts|, i, PointAt(k, d.x, d.y));
    }
  }

  lemma ShareCount(wgDist: seq<nat>, cuCounts: seq<nat>, wgPerCU: nat)
    requires Shares(wgDist, cuCounts, wgPerCU)
    ensures |wgDist| == |cuCounts| + 1
  {}
}
