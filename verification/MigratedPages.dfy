/**
 Where a migration's new addresses come from: preparePageForMigration (driver/driver.go:693-712)
 with the allocator it calls (driver/internal/memoryallocator.go:225-249). The allocator's
 invariant provides what the copies of a migration rely on.
 */
module MigratedPages {

  import A = MemoryAllocator
  import M = Migration

  /** The page table of a process as a migration sees it. */
  ghost predicate Shows(entries: map<nat, M.Entry>, table: map<A.Key, A.Page>, pid: A.PID) {
    && (forall v :: v in entries <==> A.Key(pid, v) in table)
    && (forall v | v in entries ::
          var page := table[A.Key(pid, v)]; entries[v].PAddr == page.PAddr && entries[v].DeviceID == page.DeviceID)
  }

  /** The new addresses are pages that were free, each taken once. */
  ghost predicate TakenFrom(free: set<nat>, reqs: seq<M.PageReq>, left: set<nat>) {
    && left <= free
    && (forall i | 0 <= i < |reqs| :: reqs[i].toWrite in free && reqs[i].toWrite !in left)
    && (forall i, j | 0 <= i < j < |reqs| :: reqs[i].toWrite != reqs[j].toWrite)
  }

  lemma TakenNext(free: set<nat>, reqs: seq<M.PageReq>, left: set<nat>, req: M.PageReq)
    requires TakenFrom(free, reqs, left) && req.toWrite in left
    ensures TakenFrom(free, reqs + [req], left - {req.toWrite})
  {}

  ghost predicate NoneFree(entries: map<nat, M.Entry>, free: set<nat>) {
    forall v | v in entries :: entries[v].PAddr !in free
  }

  /** What is mapped is not free. */
  lemma MappedNotFree(a: A.MemoryAllocator, entries: map<nat, M.Entry>, pid: A.PID)
    requires a.Valid() && Shows(entries, a.pageTable, pid)
    ensures NoneFree(entries, a.free)
  {
    hide A.Regions, A.Owners, A.FreeLists, A.Entries;
    forall v | v in entries ensures entries[v].PAddr !in a.free {
      assert a.pageTable[A.Key(pid, v)].PAddr in a.at.Keys;
    }
  }

  /** So pages taken from the free ones are fresh. */
  lemma FreeIsFresh(entries: map<nat, M.Entry>, free: set<nat>, reqs: seq<M.PageReq>, left: set<nat>)
    requires NoneFree(entries, free) && TakenFrom(free, reqs, left)
    ensures M.FreshAddresses(entries, reqs)
  {}

  /** Every GPU has room for `n` pages. */
  ghost predicate RoomForAll(devices: map<int, A.Device>, owner: map<nat, int>, free: set<nat>, gpus: seq<nat>,
                             n: nat) {
    forall g | g in gpus :: |A.RoomOf(devices, owner, free, g + 1)| >= n
  }

  lemma RoomShrinks(before: map<int, A.Device>, after: map<int, A.Device>, owner: map<nat, int>, free: set<nat>,
                    gpus: seq<nat>, n: nat, taken: nat)
    requires n > 0 && RoomForAll(before, owner, free, gpus, n) && A.SameShape(before, after)
    ensures RoomForAll(after, owner, free - {taken}, gpus, n - 1)
  {
    forall g | g in gpus ensures |A.RoomOf(after, owner, free - {taken}, g + 1)| >= n - 1 {
      assert A.RoomOf(after, owner, free - {taken}, g + 1) == A.RoomOf(before, owner, free, g + 1) - {taken};
    }
  }

  lemma HasRoom(a: A.MemoryAllocator, gpus: seq<nat>, n: nat, g: nat)
    requires RoomForAll(a.devices, a.owner, a.free, gpus, n) && n > 0 && g in gpus
    ensures a.Room(g + 1) != {} && a.Room(g + 1) <= a.free
    ensures a.Room(g + 1) == A.RoomOf(a.devices, a.owner, a.free, g + 1)
  {}

  lemma NothingPrepared(before: map<nat, M.Entry>, free: set<nat>)
    ensures TakenFrom(free, [], free) && M.ReadsCurrent(before, [], []) && M.Replay(before, [], [], 0) == before
  {}

  lemma NothingMoved(table: map<A.Key, A.Page>, pid: A.PID)
    ensures OthersStay(table, table, pid, []) && NowUnified(table, pid, [])
  {}

  lemma Looked(entries: map<nat, M.Entry>, table: map<A.Key, A.Page>, pid: A.PID, v: nat)
    requires Shows(entries, table, pid) && v in entries
    ensures A.Key(pid, v) in table
    ensures entries[v].PAddr == table[A.Key(pid, v)].PAddr && entries[v].DeviceID == table[A.Key(pid, v)].DeviceID
  {}

  lemma ShowsNext(entries: map<nat, M.Entry>, table: map<A.Key, A.Page>, pid: A.PID, v: nat, e: M.Entry, page: A.Page)
    requires Shows(entries, table, pid) && e.PAddr == page.PAddr && e.DeviceID == page.DeviceID
    ensures Shows(entries[v := e], table[A.Key(pid, v) := page], pid)
  {}

  /** preparePageForMigration: the page moves to a new address, and one request copies it there. */
  method PreparePage(a: A.MemoryAllocator, pid: A.PID, vAddr: nat, gpu: nat, ghost gpus: seq<nat>, ghost n: nat,
                     ghost entries: map<nat, M.Entry>) returns (req: M.PageReq)
    requires a.Valid() && Shows(entries, a.pageTable, pid) && vAddr in entries
    requires RoomForAll(a.devices, a.owner, a.free, gpus, n) && n > 0 && gpu in gpus
    modifies a
    ensures a.Valid() && RoomForAll(a.devices, a.owner, a.free, gpus, n - 1)
    ensures req.gpu == gpu && req.toRead == entries[vAddr].PAddr
    ensures req.toWrite in old(a.free) && a.free == old(a.free) - {req.toWrite}
    ensures a.owner == old(a.owner) && A.SameShape(old(a.devices), a.devices) && OnGPU(a.devices, a.owner, req)
    ensures OneMoved(old(a.pageTable), a.pageTable, A.Key(pid, vAddr), a.pageSize)
    ensures Shows(entries[vAddr := M.Entry(req.toWrite, gpu + 1, true)], a.pageTable, pid)
  {
    hide A.MemoryAllocator.Valid, A.MemoryAllocator.Room, A.SameShape, A.NextPage, A.RoomOf, RoomForAll, Shows, OnGPU;
    ghost var table, devices, free := a.pageTable, a.devices, a.free;
    Looked(entries, table, pid, vAddr);
    HasRoom(a, gpus, n, gpu);
    var page := a.pageTable[A.Key(pid, vAddr)];
    var newPage := a.AllocatePageWithGivenVAddr(pid, gpu + 1, vAddr, true);
    RoomShrinks(devices, a.devices, a.owner, free, gpus, n, newPage.PAddr);
    ShowsNext(entries, table, pid, vAddr, M.Entry(newPage.PAddr, gpu + 1, true), newPage);
    req := M.PageReq(gpu, page.PAddr, newPage.PAddr);
    RoomIsOnGPU(devices, a.devices, a.owner, free, req);
  }

  /** The new page of a request is one of the GPU that asks, or of a GPU that it bundles. */
  ghost predicate OnGPU(devices: map<int, A.Device>, owner: map<nat, int>, req: M.PageReq) {
    && req.gpu + 1 in devices && req.toWrite in owner
    && (if devices[req.gpu + 1].unified then owner[req.toWrite] in devices[req.gpu + 1].actualGPUs
        else owner[req.toWrite] == req.gpu + 1)
  }

  lemma RoomIsOnGPU(before: map<int, A.Device>, after: map<int, A.Device>, owner: map<nat, int>, free: set<nat>,
                    req: M.PageReq)
    requires req.toWrite in A.RoomOf(before, owner, free, req.gpu + 1) && A.SameShape(before, after)
    ensures OnGPU(after, owner, req)
  {}

  lemma StillOnGPU(before: map<int, A.Device>, after: map<int, A.Device>, owner: map<nat, int>, reqs: seq<M.PageReq>)
    requires (forall i | 0 <= i < |reqs| :: OnGPU(before, owner, reqs[i])) && A.SameShape(before, after)
    ensures forall i | 0 <= i < |reqs| :: OnGPU(after, owner, reqs[i])
  {}

  /** Entries of pages nobody asked for are as they were. */
  ghost predicate OthersStay(before: map<A.Key, A.Page>, after: map<A.Key, A.Page>, pid: A.PID, vAddrs: seq<nat>) {
    forall k | k in before && !(k.pid == pid && k.vAddr in vAddrs) :: k in after && after[k] == before[k]
  }

  ghost predicate OneMoved(before: map<A.Key, A.Page>, after: map<A.Key, A.Page>, key: A.Key, pageSize: nat) {
    && key in after && after == before[key := after[key]]
    && after[key].Unified && after[key].PageSize == pageSize
  }

  /** Moved pages are unified ones. */
  ghost predicate NowUnified(table: map<A.Key, A.Page>, pid: A.PID, vAddrs: seq<nat>) {
    forall v | v in vAddrs :: A.Key(pid, v) in table && table[A.Key(pid, v)].Unified
  }

  lemma OthersStayNext(before: map<A.Key, A.Page>, t: map<A.Key, A.Page>, pid: A.PID, vAddrs: seq<nat>, v: nat,
                       after: map<A.Key, A.Page>, pageSize: nat)
    requires OthersStay(before, t, pid, vAddrs) && OneMoved(t, after, A.Key(pid, v), pageSize)
    requires NowUnified(t, pid, vAddrs)
    ensures OthersStay(before, after, pid, vAddrs + [v]) && NowUnified(after, pid, vAddrs + [v])
  {
    forall k | k in before && !(k.pid == pid && k.vAddr in vAddrs + [v])
      ensures k in t && t[k] == before[k] && k != A.Key(pid, v)
    {
      assert v in vAddrs + [v];
      if k.pid == pid { assert k.vAddr !in vAddrs; }
    }
  }

  /** The page requests so far, and what they have taken and moved. */
  ghost predicate Prepared(free: set<nat>, left: set<nat>, table: map<A.Key, A.Page>, pid: A.PID,
                           before: map<nat, M.Entry>, order: seq<nat>, reqs: seq<M.PageReq>) {
    && |reqs| == |order| && TakenFrom(free, reqs, left) && M.ReadsCurrent(before, order, reqs)
    && Shows(M.Replay(before, order, reqs, |order|), table, pid)
    && forall v | v in before :: v in M.Replay(before, order, reqs, |order|)
  }

  lemma PreparedNext(free: set<nat>, left: set<nat>, table: map<A.Key, A.Page>, pid: A.PID,
                     before: map<nat, M.Entry>, order: seq<nat>, reqs: seq<M.PageReq>, v: nat, req: M.PageReq,
                     after: map<A.Key, A.Page>)
    requires Prepared(free, left, table, pid, before, order, reqs) && v in before && req.toWrite in left
    requires req.toRead == M.Replay(before, order, reqs, |order|)[v].PAddr
    requires Shows(M.Replay(before, order, reqs, |order|)[v := M.Entry(req.toWrite, req.gpu + 1, true)], after, pid)
    ensures Prepared(free, left - {req.toWrite}, after, pid, before, order + [v], reqs + [req])
  {
    hide M.Replay, M.ReadsCurrent, Shows, TakenFrom;
    TakenNext(free, reqs, left, req);
    M.ReplayStep(before, order, reqs, v, req);
  }

  /** The page requests of a migration, page by page: `gpus[i]` asks for `vAddrs[i]`. */
  method PreparePages(a: A.MemoryAllocator, pid: A.PID, vAddrs: seq<nat>, gpus: seq<nat>,
                      ghost before: map<nat, M.Entry>) returns (reqs: seq<M.PageReq>)
    requires a.Valid() && |gpus| == |vAddrs| && Shows(before, a.pageTable, pid)
    requires (forall v | v in vAddrs :: v in before) && RoomForAll(a.devices, a.owner, a.free, gpus, |vAddrs|)
    modifies a
    ensures a.Valid() && |reqs| == |vAddrs| && M.FreshAddresses(before, reqs) && M.ReadsCurrent(before, vAddrs, reqs)
    ensures Shows(M.Replay(before, vAddrs, reqs, |vAddrs|), a.pageTable, pid)
    ensures forall i | 0 <= i < |reqs| :: reqs[i].gpu == gpus[i] && OnGPU(a.devices, a.owner, reqs[i])
    ensures OthersStay(old(a.pageTable), a.pageTable, pid, vAddrs) && NowUnified(a.pageTable, pid, vAddrs)
  {
    hide A.MemoryAllocator.Valid, M.Replay, M.ReadsCurrent, M.FreshAddresses, RoomForAll, Shows, TakenFrom, NoneFree;
    hide OnGPU, OthersStay, OneMoved, NowUnified, A.SameShape;
    reqs := [];
    ghost var free := a.free;
    MappedNotFree(a, before, pid);
    NothingPrepared(before, free);
    NothingMoved(a.pageTable, pid);
    for i := 0 to |vAddrs|
      invariant a.Valid() && |reqs| == i && RoomForAll(a.devices, a.owner, a.free, gpus, |vAddrs| - i)
      invariant Prepared(free, a.free, a.pageTable, pid, before, vAddrs[..i], reqs)
      invariant forall j | 0 <= j < i :: reqs[j].gpu == gpus[j] && OnGPU(a.devices, a.owner, reqs[j])
      invariant OthersStay(old(a.pageTable), a.pageTable, pid, vAddrs[..i]) && NowUnified(a.pageTable, pid, vAddrs[..i])
    {
      assert vAddrs[i] in vAddrs && gpus[i] in gpus;
      ghost var left, table, devices := a.free, a.pageTable, a.devices;
      ghost var entries := M.Replay(before, vAddrs[..i], reqs, i);
      var req := PreparePage(a, pid, vAddrs[i], gpus[i], gpus, |vAddrs| - i, entries);
      StillOnGPU(devices, a.devices, a.owner, reqs);
      OthersStayNext(old(a.pageTable), table, pid, vAddrs[..i], vAddrs[i], a.pageTable, a.pageSize);
      PreparedNext(free, left, table, pid, before, vAddrs[..i], reqs, vAddrs[i], req, a.pageTable);
      assert vAddrs[..i + 1] == vAddrs[..i] + [vAddrs[i]];
      reqs := reqs + [req];
    }
    assert vAddrs[..|vAddrs|] == vAddrs;
    FreeIsFresh(before, free, reqs, a.free);
  }

  /**
   So the copies that a migration queues leave every page of the process, moved or not, with its
   old contents under the address that the allocator's page table has for it.
   */
  lemma PagesKeepContents(before: map<nat, M.Entry>, after: map<A.Key, A.Page>, pid: A.PID, vAddrs: seq<nat>,
                          reqs: seq<M.PageReq>, content: map<nat, int>, v: nat)
    requires |reqs| == |vAddrs| && M.FreshAddresses(before, reqs) && M.ReadsCurrent(before, vAddrs, reqs)
    requires Shows(M.Replay(before, vAddrs, reqs, |vAddrs|), after, pid)
    requires v in before && (forall w | w in before :: before[w].PAddr in content)
    requires forall w | w in vAddrs :: w in before
    ensures A.Key(pid, v) in after
    ensures var a := after[A.Key(pid, v)].PAddr;
            var carried := M.Carried(content, reqs, |reqs|);
            a in carried && carried[a] == content[before[v].PAddr]
  {
    hide M.Replay, M.Carried, M.ReadsCurrent, M.FreshAddresses;
    M.ContentsFollow(before, vAddrs, reqs, content, |vAddrs|, v);
  }

  /** The entry of a page is the one that the last request for it made. */
  lemma {:induction false} LastMove(before: map<nat, M.Entry>, order: seq<nat>, reqs: seq<M.PageReq>, n: nat, i: nat)
    requires i < n <= |order| == |reqs| && order[i] !in order[i + 1..n]
    ensures order[i] in M.Replay(before, order, reqs, n)
    ensures M.Replay(before, order, reqs, n)[order[i]] == M.Entry(reqs[i].toWrite, reqs[i].gpu + 1, true)
  {
    hide M.Replay;
    M.ReplayOne(before, order, reqs, n - 1);
    if i < n - 1 {
      assert order[i + 1..n] == order[i + 1..n - 1] + [order[n - 1]];
      LastMove(before, order, reqs, n - 1, i);
    }
  }

  /** A migration's pages, moved with the allocator: fresh addresses need not be supposed. */
  method MovePages(a: A.MemoryAllocator, pid: A.PID, vAddrs: seq<nat>, gpus: seq<nat>,
                   ghost before: map<nat, M.Entry>, ghost content: map<nat, int>) returns (reqs: seq<M.PageReq>)
    requires a.Valid() && |gpus| == |vAddrs| && Shows(before, a.pageTable, pid)
    requires (forall v | v in vAddrs :: v in before) && RoomForAll(a.devices, a.owner, a.free, gpus, |vAddrs|)
    requires forall v | v in before :: before[v].PAddr in content
    modifies a
    ensures a.Valid() && |reqs| == |vAddrs| && NowUnified(a.pageTable, pid, vAddrs)
    ensures OthersStay(old(a.pageTable), a.pageTable, pid, vAddrs)
    ensures forall i | 0 <= i < |reqs| :: reqs[i].gpu == gpus[i] && OnGPU(a.devices, a.owner, reqs[i])
    ensures forall i: nat | i < |vAddrs| && vAddrs[i] !in vAddrs[i + 1..] ::
              && A.Key(pid, vAddrs[i]) in a.pageTable
              && a.pageTable[A.Key(pid, vAddrs[i])].PAddr == reqs[i].toWrite
              && a.pageTable[A.Key(pid, vAddrs[i])].DeviceID == gpus[i] + 1
    ensures forall v | v in before ::
              && A.Key(pid, v) in a.pageTable
              && var p, carried := a.pageTable[A.Key(pid, v)].PAddr, M.Carried(content, reqs, |reqs|);
              p in carried && carried[p] == content[before[v].PAddr]
  {
    hide A.MemoryAllocator.Valid, M.Replay, M.ReadsCurrent, M.FreshAddresses, M.Carried, RoomForAll, Shows, OnGPU,
         OthersStay, NowUnified;
    reqs := PreparePages(a, pid, vAddrs, gpus, before);
    forall i: nat | i < |vAddrs| && vAddrs[i] !in vAddrs[i + 1..]
      ensures A.Key(pid, vAddrs[i]) in a.pageTable
      ensures a.pageTable[A.Key(pid, vAddrs[i])].PAddr == reqs[i].toWrite
      ensures a.pageTable[A.Key(pid, vAddrs[i])].DeviceID == gpus[i] + 1
    {
      LastMove(before, vAddrs, reqs, |vAddrs|, i);
      Looked(M.Replay(before, vAddrs, reqs, |vAddrs|), a.pageTable, pid, vAddrs[i]);
    }
    forall v | v in before
      ensures A.Key(pid, v) in a.pageTable
      ensures var p, carried := a.pageTable[A.Key(pid, v)].PAddr, M.Carried(content, reqs, |reqs|);
              p in carried && carried[p] == content[before[v].PAddr]
    {
      PagesKeepContents(before, a.pageTable, pid, vAddrs, reqs, content, v);
    }
  }
}
