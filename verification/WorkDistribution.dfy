/**
 Splitting a kernel's work-groups over the GPUs of a unified device:
 driver/driver.go:380-463, distributeWGToGPUs and the WGFilter of each launch request.
 */
module WorkDistribution {

  import opened Arithmetic
  import opened Coordinates

  /** The sizes in a kernel dispatch packet, in x, y and z. */
  datatype Packet = Packet(grid: Point, group: Point)

  /** Group sizes of zero make the code divide by zero. */
  predicate Launchable(p: Packet) {
    p.group.x > 0 && p.group.y > 0 && p.group.z > 0
  }

  predicate HasZero(p: Packet) {
    p.grid.x == 0 || p.grid.y == 0 || p.grid.z == 0
  }

  /** uint32 subtraction of one. */
  function Before(g: nat): nat {
    if g == 0 then UINT32 - 1 else g - 1
  }

  /** The number of work-groups along one dimension, in uint32 arithmetic. */
  function NumWG(g: nat, s: nat): (n: nat)
    requires s > 0
    ensures g > 0 && g < UINT32 ==> n == Pieces(g, s)
    ensures g == 0 ==> n == if s == 1 then 0 else Pieces(UINT32, s)
  {
    ZeroWraps(s);
    Quotient(Before(g), s);
    Positive(Before(g), s);
    NoWrap(g, s);
    (Before(g) / s + 1) % UINT32
  }

  /** A dimension of zero counts as 2^32, and so does its number of groups of one. */
  lemma ZeroWraps(s: nat)
    requires s > 0
    ensures s > 1 ==> Pieces(UINT32, s) < UINT32
    ensures s == 1 ==> Pieces(UINT32, s) == UINT32
  {
    Quotient(UINT32 - 1, s);
    Positive(UINT32 - 1, s);
    if s > 1 { Times(2, s, (UINT32 - 1) / s); }
  }

  lemma NoWrap(g: nat, s: nat)
    requires s > 0
    ensures 0 < g < UINT32 ==> 0 < Pieces(g, s) < UINT32
  {
    if 0 < g < UINT32 {
      Quotient(g - 1, s);
      Positive(g - 1, s);
      Times(1, s, (g - 1) / s);
    }
  }

  function Sum(s: seq<nat>): nat {
    if s == [] then 0 else Sum(s[..|s| - 1]) + s[|s| - 1]
  }

  /** Where the share of each GPU begins; the last entry is the end of the last share. */
  predicate Shares(wgDist: seq<nat>, cuCounts: seq<nat>, wgPerCU: nat) {
    && |wgDist| == |cuCounts| + 1 && wgDist[0] == 0
    && forall i: nat | i < |cuCounts| :: wgDist[i + 1] == wgDist[i] + cuCounts[i] * wgPerCU
  }

  lemma {:induction false} SharesSum(wgDist: seq<nat>, cuCounts: seq<nat>, wgPerCU: nat, i: nat)
    requires Shares(wgDist, cuCounts, wgPerCU) && i <= |cuCounts|
    ensures wgDist[i] == Sum(cuCounts[..i]) * wgPerCU
  {
    if i > 0 {
      SharesSum(wgDist, cuCounts, wgPerCU, i - 1);
      assert cuCounts[..i][..i - 1] == cuCounts[..i - 1];
      assert (Sum(cuCounts[..i - 1]) + cuCounts[i - 1]) * wgPerCU
             == Sum(cuCounts[..i - 1]) * wgPerCU + cuCounts[i - 1] * wgPerCU;
    }
  }

  lemma {:induction false} SharesGrow(wgDist: seq<nat>, cuCounts: seq<nat>, wgPerCU: nat, i: nat, j: nat)
    requires Shares(wgDist, cuCounts, wgPerCU) && i <= j <= |cuCounts|
    ensures wgDist[i] <= wgDist[j]
    decreases j
  {
    if i < j {
      SharesGrow(wgDist, cuCounts, wgPerCU, i, j - 1);
      Times(0, cuCounts[j - 1], wgPerCU);
    }
  }

  /** Rounding up the groups per compute unit leaves no group over. */
  lemma Enough(total: nat, cus: nat)
    requires cus > 0
    ensures GoDiv(total - 1, cus) + 1 >= 0
    ensures cus * (GoDiv(total - 1, cus) + 1) >= total
    ensures total > 0 ==> GoDiv(total - 1, cus) >= 0 && cus * GoDiv(total - 1, cus) < total
  {
    if total > 0 {
      Quotient(total - 1, cus);
      Positive(total - 1, cus);
    } else {
      Quotient(1, cus);
      if 1 / cus > 1 { Times(2, 1 / cus, cus); }
      if -(1 / cus) + 1 >= 0 { Times(0, -(1 / cus) + 1, cus); }
    }
  }

  /**
   distributeWGToGPUs. The panic for groups that no GPU got is never reached: it is the
   assertion after the loop.
   */
  method DistributeWGToGPUs(packet: Packet, cuCounts: seq<nat>) returns (wgDist: seq<nat>, ghost wgPerCU: nat)
    requires Launchable(packet) && Sum(cuCounts) > 0
    ensures Shares(wgDist, cuCounts, wgPerCU)
    ensures wgDist[|cuCounts|] >= TotalWG(packet)
    ensures TotalWG(packet) > 0 ==> wgPerCU > 0 && Sum(cuCounts) * (wgPerCU - 1) < TotalWG(packet)
    ensures !HasZero(packet) && Fits(packet.grid) ==>
              Sum(cuCounts) * (wgPerCU - 1) < |GroupIds(packet)| <= Sum(cuCounts) * wgPerCU == wgDist[|cuCounts|]
  {
    hide TotalWG, GoDiv, Sum, GroupIds;
    if !HasZero(packet) && Fits(packet.grid) { TotalIsAll(packet); }
    SumNone(cuCounts);
    var totalCUCount := 0;
    for i := 0 to |cuCounts|
      invariant totalCUCount == Sum(cuCounts[..i])
    {
      SumMore(cuCounts, i);
      totalCUCount := totalCUCount + cuCounts[i];
    }
    assert cuCounts[..|cuCounts|] == cuCounts;
    var totalWGCount: int := TotalWG(packet);
    Enough(totalWGCount, totalCUCount);
    var perCU: nat := GoDiv(totalWGCount - 1, totalCUCount) + 1;
    wgPerCU := perCU;
    wgDist := [0];
    var wgAllocated := 0;
    for i := 0 to |cuCounts|
      invariant |wgDist| == i + 1 && wgDist[0] == 0 && wgAllocated == wgDist[i]
      invariant forall j: nat | j < i :: wgDist[j + 1] == wgDist[j] + cuCounts[j] * perCU
    {
      var wgToAllocate := cuCounts[i] * perCU;
      Times(0, cuCounts[i], perCU);
      wgDist := wgDist + [wgAllocated + wgToAllocate];
      wgAllocated := wgAllocated + wgToAllocate;
    }
    SharesSum(wgDist, cuCounts, perCU, |cuCounts|);
    assert wgAllocated >= totalWGCount;
  }

  /** The sizes of a packet are 32-bit numbers. */
  predicate Fits(p: Point) {
    p.x < UINT32 && p.y < UINT32 && p.z < UINT32
  }

  /** The ids of the work-groups of a grid: those whose first work-item is a point of it. */
  ghost function GroupIds(p: Packet): set<Point> {
    set x: nat, y: nat, z: nat |
      && x < p.grid.x && y < p.grid.y && z < p.grid.z
      && x * p.group.x < p.grid.x && y * p.group.y < p.grid.y && z * p.group.z < p.grid.z :: Point(x, y, z)
  }

  /** The total of the code is the number of work-groups of the grid. */
  lemma TotalIsAll(packet: Packet)
    requires Launchable(packet) && !HasZero(packet) && Fits(packet.grid)
    ensures |GroupIds(packet)| == TotalWG(packet) > 0
  {
    hide NumWG, Volume, PointAt, Pieces;
    var x, y := NumWG(packet.grid.x, packet.group.x), NumWG(packet.grid.y, packet.group.y);
    var z := NumWG(packet.grid.z, packet.group.z);
    NoWrap(packet.grid.x, packet.group.x);
    NoWrap(packet.grid.y, packet.group.y);
    PointsBelow(TotalWG(packet), x, y);
    forall p: Point ensures p in GroupIds(packet) <==> p in Points(TotalWG(packet), x, y) {
      PieceStarts(packet.grid.x, packet.group.x, p.x);
      PieceStarts(packet.grid.y, packet.group.y, p.y);
      PieceStarts(packet.grid.z, packet.group.z, p.z);
      PointAmong(p, x, y, z);
      StartsInside(p, packet);
    }
    assert GroupIds(packet) == Points(TotalWG(packet), x, y);
    assert Point(0, 0, 0) in GroupIds(packet);
  }

  lemma StartsInside(p: Point, packet: Packet)
    requires Launchable(packet)
    ensures p in GroupIds(packet)
            <==> p.x * packet.group.x < packet.grid.x && p.y * packet.group.y < packet.grid.y
                 && p.z * packet.group.z < packet.grid.z
  {
    Times(1, packet.group.x, p.x);
    Times(1, packet.group.y, p.y);
    Times(1, packet.group.z, p.z);
  }

  /** The points with the first `n` numbers. */
  ghost function Points(n: nat, dimX: nat, dimY: nat): set<Point>
    requires dimX > 0 && dimY > 0
  {
    set k: nat | k < n :: PointAt(k, dimX, dimY)
  }

  lemma {:induction false} PointsBelow(n: nat, dimX: nat, dimY: nat)
    requires dimX > 0 && dimY > 0
    ensures |Points(n, dimX, dimY)| == n
  {
    hide PointAt, Flat;
    if n > 0 {
      PointsBelow(n - 1, dimX, dimY);
      var p := PointAt(n - 1, dimX, dimY);
      assert p !in Points(n - 1, dimX, dimY) by {
        FlatOfPoint(n - 1, dimX, dimY);
        forall k: nat | k < n - 1 ensures PointAt(k, dimX, dimY) != p { FlatOfPoint(k, dimX, dimY); }
      }
      assert Points(n, dimX, dimY) == Points(n - 1, dimX, dimY) + {p};
    }
  }

  lemma PointAmong(p: Point, dimX: nat, dimY: nat, dimZ: nat)
    requires dimX > 0 && dimY > 0
    ensures p in Points(Volume(dimX, dimY, dimZ), dimX, dimY) <==> Inside(p, dimX, dimY, dimZ)
  {
    hide PointAt, Flat, Volume;
    if p.x < dimX && p.y < dimY {
      PointOfFlat(p, dimX, dimY);
      InsideBelow(p, dimX, dimY, dimZ);
    }
    forall k: nat | PointAt(k, dimX, dimY) == p ensures k == Flat(p, dimX, dimY) && p.x < dimX && p.y < dimY {
      FlatOfPoint(k, dimX, dimY);
    }
  }

  function TotalWG(packet: Packet): nat
    requires Launchable(packet)
  {
    Volume(NumWG(packet.grid.x, packet.group.x), NumWG(packet.grid.y, packet.group.y),
      NumWG(packet.grid.z, packet.group.z))
  }

  lemma SumMore(s: seq<nat>, i: nat)
    requires i < |s|
    ensures Sum(s[..i + 1]) == Sum(s[..i]) + s[i]
  {
    assert s[..i + 1][..i] == s[..i];
  }

  lemma SumNone(s: seq<nat>)
    ensures Sum(s[..0]) == 0
  {}

  /** The WGFilter of the i-th GPU's request. */
  predicate WGFilter(packet: Packet, wgDist: seq<nat>, i: nat, wg: Point)
    requires Launchable(packet) && i + 1 < |wgDist|
  {
    var flattenedID := Flat(wg, NumWG(packet.grid.x, packet.group.x), NumWG(packet.grid.y, packet.group.y));
    wgDist[i] <= flattenedID < wgDist[i + 1]
  }

  ghost predicate Accepts(packet: Packet, wgDist: seq<nat>, n: nat, i: nat, wg: Point)
    requires Launchable(packet)
  {
    i < n && n + 1 == |wgDist| && WGFilter(packet, wgDist, i, wg)
  }

  /** Every work-group of the grid is accepted by one GPU, and by no other. */
  lemma OneGPU(packet: Packet, wgDist: seq<nat>, cuCounts: seq<nat>, wgPerCU: nat, wg: Point)
    returns (g: nat)
    requires Launchable(packet) && Shares(wgDist, cuCounts, wgPerCU) && wgDist[|cuCounts|] >= TotalWG(packet)
    requires Inside(wg, NumWG(packet.grid.x, packet.group.x), NumWG(packet.grid.y, packet.group.y),
             NumWG(packet.grid.z, packet.group.z))
    ensures g < |cuCounts|
    ensures forall i: nat :: Accepts(packet, wgDist, |cuCounts|, i, wg) <==> i == g
  {
    hide NumWG, Flat;
    var dimX, dimY := NumWG(packet.grid.x, packet.group.x), NumWG(packet.grid.y, packet.group.y);
    var id := Flat(wg, dimX, dimY);
    InsideBelow(wg, dimX, dimY, NumWG(packet.grid.z, packet.group.z));
    g := ShareOf(wgDist, cuCounts, wgPerCU, id, |cuCounts|);
    forall i: nat | i < |cuCounts| && i != g ensures !(wgDist[i] <= id < wgDist[i + 1]) {
      if i < g {
        SharesGrow(wgDist, cuCounts, wgPerCU, i + 1, g);
      } else {
        SharesGrow(wgDist, cuCounts, wgPerCU, g + 1, i);
      }
    }
  }

  lemma {:induction false} ShareOf(wgDist: seq<nat>, cuCounts: seq<nat>, wgPerCU: nat, id: nat, n: nat) returns (g: nat)
    requires Shares(wgDist, cuCounts, wgPerCU) && n <= |cuCounts| && id < wgDist[n]
    ensures g < n && wgDist[g] <= id < wgDist[g + 1]
    decreases n
  {
    if wgDist[n - 1] <= id {
      g := n - 1;
    } else {
      g := ShareOf(wgDist, cuCounts, wgPerCU, id, n - 1);
    }
  }
}
