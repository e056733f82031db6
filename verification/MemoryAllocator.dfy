/**
 The driver's memory allocator with its default (free-list) device memory state:
 driver/internal/memoryallocator.go, device.go and devicememstateinterface.go.

 Addresses and sizes are unbounded numbers. A Go panic is a precondition.
 */
module MemoryAllocator {

  import opened Arithmetic
  import opened Collections

  type PID = nat

  /** The page table is keyed by process and page address. */
  datatype Key = Key(pid: PID, vAddr: nat)

  datatype Page = Page(PID: PID, VAddr: nat, PAddr: nat, PageSize: nat, DeviceID: int, Unified: bool)

  /** deviceMemoryStateImpl */
  datatype MemState = MemState(initialAddress: nat, storageSize: nat, availablePAddrs: seq<nat>)

  /** A CPU or GPU, or a unified GPU that hands out the pages of the GPUs it bundles. */
  datatype Device = Device(unified: bool, actualGPUs: seq<int>, nextActualGPUIndex: nat, mem: MemState)

  ghost function Elems(s: seq<nat>): set<nat> {
    set a | a in s
  }

  /** isPAddrOnDevice */
  predicate OnDevice(a: nat, m: MemState) {
    m.initialAddress <= a < m.initialAddress + m.storageSize
  }

  /** `a` is the address of one of the pages of a device. */
  predicate IsPageOf(a: nat, m: MemState, pageSize: nat)
    requires pageSize > 0
  {
    OnDevice(a, m) && (a - m.initialAddress) % pageSize == 0
  }

  predicate WholePages(m: MemState, pageSize: nat)
    requires pageSize > 0
  {
    m.storageSize % pageSize == 0
  }

  /** Disjoint address ranges below `total`; unified GPUs bundle actual ones. */
  ghost predicate Regions(devices: map<int, Device>, total: nat) {
    && (forall d | d in devices :: devices[d].mem.initialAddress + devices[d].mem.storageSize <= total)
    && (forall d, e | d in devices && e in devices && d != e ::
          || devices[d].mem.initialAddress + devices[d].mem.storageSize <= devices[e].mem.initialAddress
          || devices[e].mem.initialAddress + devices[e].mem.storageSize <= devices[d].mem.initialAddress)
    && (forall d | d in devices && devices[d].unified :: 0 <= devices[d].nextActualGPUIndex < |devices[d].actualGPUs|)
    && (forall d, i | d in devices && devices[d].unified && 0 <= i < |devices[d].actualGPUs| ::
          devices[d].actualGPUs[i] in devices && !devices[devices[d].actualGPUs[i]].unified)
  }

  /** `owner` names the device of every page. */
  ghost predicate Owners(devices: map<int, Device>, pageSize: nat, owner: map<nat, int>)
    requires pageSize > 0
  {
    && (forall a | a in owner :: owner[a] in devices && IsPageOf(a, devices[owner[a]].mem, pageSize))
    && (forall d, a: nat | d in devices && IsPageOf(a, devices[d].mem, pageSize) :: a in owner && owner[a] == d)
  }

  /** The free lists hold exactly the pages `free`, each once and on its own device's list. */
  ghost predicate FreeLists(devices: map<int, Device>, owner: map<nat, int>, free: set<nat>) {
    && (forall d | d in devices :: Distinct(devices[d].mem.availablePAddrs))
    && (forall d, i | d in devices && 0 <= i < |devices[d].mem.availablePAddrs| ::
          var a := devices[d].mem.availablePAddrs[i]; a in free && a in owner && owner[a] == d)
    && (forall a | a in free :: a in owner && owner[a] in devices && a in devices[owner[a]].mem.availablePAddrs)
  }

  /** `at` is the inverse of the page table: no two entries share a physical page. */
  ghost predicate Inverse(pageTable: map<Key, Page>, at: map<nat, Key>) {
    && (forall k | k in pageTable :: pageTable[k].PAddr in at && at[pageTable[k].PAddr] == k)
    && (forall a | a in at :: at[a] in pageTable && pageTable[at[a]].PAddr == a)
  }

  /** Every page is in one and only one of the four sets. */
  ghost predicate Partition(pages: set<nat>, free: set<nat>, mapped: set<nat>, lost: set<nat>, held: set<nat>) {
    && pages == free + mapped + lost + held
    && free !! mapped && free !! lost && free !! held && mapped !! lost && mapped !! held && lost !! held
  }

  /** Entries sit under their own key, below the process's next address; the vAddr index agrees with them. */
  ghost predicate Entries(pageTable: map<Key, Page>, index: map<nat, Page>, nextVAddr: map<PID, nat>, pageSize: nat) {
    && (forall k | k in pageTable ::
          && k == Key(pageTable[k].PID, pageTable[k].VAddr) && pageTable[k].PageSize == pageSize
          && k.pid in nextVAddr && k.vAddr + pageSize <= nextVAddr[k.pid] && k.vAddr in index)
    && (forall v: nat | v in index ::
          && index[v].VAddr == v
          && (Key(index[v].PID, v) in pageTable ==> pageTable[Key(index[v].PID, v)].PAddr == index[v].PAddr))
  }

  /** What popping the head of a free list changes. */
  function Popped(devices: map<int, Device>, id: int): map<int, Device>
    requires id in devices && devices[id].mem.availablePAddrs != []
  {
    var m := devices[id].mem;
    devices[id := devices[id].(mem := m.(availablePAddrs := m.availablePAddrs[1..]))]
  }

  /** Changing one device's free list, or its turn, moves no region. */
  lemma SameRegions(devices: map<int, Device>, total: nat, id: int, next: Device)
    requires id in devices && Regions(devices, total)
    requires next.mem.initialAddress == devices[id].mem.initialAddress
             && next.mem.storageSize == devices[id].mem.storageSize
    requires next.unified == devices[id].unified && next.actualGPUs == devices[id].actualGPUs
    requires next.nextActualGPUIndex == devices[id].nextActualGPUIndex || next.nextActualGPUIndex < |next.actualGPUs|
    ensures Regions(devices[id := next], total)
  {
    var after := devices[id := next];
    assert forall d | d in devices ::
        && after[d].mem.initialAddress == devices[d].mem.initialAddress
          && after[d].mem.storageSize == devices[d].mem.storageSize
        && after[d].unified == devices[d].unified && after[d].actualGPUs == devices[d].actualGPUs;
  }

  lemma SameOwners(devices: map<int, Device>, pageSize: nat, owner: map<nat, int>, id: int, next: Device)
    requires pageSize > 0 && id in devices && Owners(devices, pageSize, owner)
    requires next.mem.initialAddress == devices[id].mem.initialAddress
             && next.mem.storageSize == devices[id].mem.storageSize
    ensures Owners(devices[id := next], pageSize, owner)
  {
    var after := devices[id := next];
    forall d, a: nat | d in devices
      ensures IsPageOf(a, after[d].mem, pageSize) == IsPageOf(a, devices[d].mem, pageSize)
    {}
    hide IsPageOf;
  }

  lemma HeadFree(devices: map<int, Device>, owner: map<nat, int>, free: set<nat>, id: int)
    requires id in devices && devices[id].mem.availablePAddrs != [] && FreeLists(devices, owner, free)
    ensures var p := devices[id].mem.availablePAddrs[0]; p in free && p in owner && owner[p] == id
  {}

  lemma PopLists(devices: map<int, Device>, owner: map<nat, int>, free: set<nat>, id: int)
    requires id in devices && devices[id].mem.availablePAddrs != [] && FreeLists(devices, owner, free)
    ensures FreeLists(Popped(devices, id), owner, free - {devices[id].mem.availablePAddrs[0]})
  {
    var after, list := Popped(devices, id), devices[id].mem.availablePAddrs;
    forall d, i | d in after && 0 <= i < |after[d].mem.availablePAddrs|
      ensures var a := after[d].mem.availablePAddrs[i]; a in free - {list[0]} && a in owner && owner[a] == d
    {
      if d == id { assert after[d].mem.availablePAddrs[i] == list[i + 1]; }
    }
    forall a | a in free - {list[0]}
      ensures a in after[owner[a]].mem.availablePAddrs
    {
      if owner[a] == id {
        var i :| 0 <= i < |list| && list[i] == a;
        assert after[id].mem.availablePAddrs[i - 1] == a;
      }
    }
  }

  /** What returning a page to its device's list changes. */
  function Pushed(devices: map<int, Device>, id: int, a: nat): map<int, Device>
    requires id in devices
  {
    var m := devices[id].mem;
    devices[id := devices[id].(mem := m.(availablePAddrs := m.availablePAddrs + [a]))]
  }

  lemma PushLists(devices: map<int, Device>, owner: map<nat, int>, free: set<nat>, a: nat)
    requires FreeLists(devices, owner, free) && a in owner && owner[a] in devices && a !in free
    ensures FreeLists(Pushed(devices, owner[a], a), owner, free + {a})
  {
    var id := owner[a];
    var after, list := Pushed(devices, id, a), devices[id].mem.availablePAddrs;
    assert a !in list;
    assert after[id].mem.availablePAddrs[|list|] == a;
    forall d, i | d in after && 0 <= i < |after[d].mem.availablePAddrs|
      ensures var b := after[d].mem.availablePAddrs[i]; b in free + {a} && b in owner && owner[b] == d
    {
      if d == id && i < |list| { assert after[d].mem.availablePAddrs[i] == list[i]; }
    }
    forall b | b in free + {a}
      ensures b in owner && owner[b] in after && b in after[owner[b]].mem.availablePAddrs
    {
      if b != a && owner[b] == id { assert b in list; }
    }
  }

  /** Addresses in rising order, one page apart. */
  predicate InRow(addrs: seq<nat>, first: nat, pageSize: nat) {
    forall i | 0 <= i < |addrs| :: addrs[i] == first + i * pageSize
  }

  class MemoryAllocator {
    const pageSize: nat
    var pageTable: map<Key, Page>
    var vAddrToPageMapping: map<nat, Page>
    var nextVAddr: map<PID, nat> // processMemoryStates
    var devices: map<int, Device>
    var totalStorageByteSize: nat
    ghost var owner: map<nat, int>
    ghost var free: set<nat>
    ghost var at: map<nat, Key>
    ghost var lost: set<nat> // pages that a remapping replaced: mapped by nothing and on no free list

    /** The physical pages, while an operation holds the pages `held`. */
    ghost predicate Pool(held: set<nat>)
      reads `pageTable, `devices, `totalStorageByteSize, `owner, `free, `at, `lost
    {
      && pageSize > 0
      && Regions(devices, totalStorageByteSize)
      && Owners(devices, pageSize, owner)
      && FreeLists(devices, owner, free)
      && Inverse(pageTable, at)
      && Partition(owner.Keys, free, at.Keys, lost, held)
    }

    ghost predicate Valid()
      reads this
    {
      pageSize > 0 && Pool({}) && Entries(pageTable, vAddrToPageMapping, nextVAddr, pageSize)
    }

    /** The free pages that an allocation on device `id` can use. */
    ghost function Room(id: int): set<nat>
      reads `devices, `free, `owner
    {
      RoomOf(devices, owner, free, id)
    }

    constructor (pageSize: nat)
      requires pageSize > 0
      ensures Valid() && this.pageSize == pageSize && pageTable == map[] && devices == map[] && nextVAddr == map[]
      ensures totalStorageByteSize == pageSize && free == {}
    {
      this.pageSize := pageSize;
      pageTable, vAddrToPageMapping, nextVAddr, devices := map[], map[], map[], map[];
      totalStorageByteSize := pageSize; // the first page is never handed out
      owner, free, at, lost := map[], {}, map[], {};
    }

    /**
     What every operation keeps: no two entries share a physical page, no mapped page is on a
     free list, and the pages of each device are its free, its mapped and its lost ones, each once.
     */
    lemma Safety()
      requires Valid()
      ensures forall j, k | j in pageTable && k in pageTable && j != k :: pageTable[j].PAddr != pageTable[k].PAddr
      ensures forall k, d | k in pageTable && d in devices :: pageTable[k].PAddr !in devices[d].mem.availablePAddrs
      ensures forall d, a: nat | d in devices && IsPageOf(a, devices[d].mem, pageSize) ::
                && (a in devices[d].mem.availablePAddrs || a in at || a in lost)
                && !(a in devices[d].mem.availablePAddrs && a in at)
                && !(a in devices[d].mem.availablePAddrs && a in lost)
                && !(a in at && a in lost)
    {
      hide IsPageOf;
      forall j, k | j in pageTable && k in pageTable && pageTable[j].PAddr == pageTable[k].PAddr ensures j == k {
        assert at[pageTable[j].PAddr] == j;
      }
      forall k, d | k in pageTable && d in devices ensures pageTable[k].PAddr !in devices[d].mem.availablePAddrs {
        assert pageTable[k].PAddr in at.Keys;
        ListsFree(devices, owner, free, d);
      }
      forall d, a: nat | d in devices && IsPageOf(a, devices[d].mem, pageSize)
        ensures a in owner.Keys && owner[a] == d && (a in free <==> a in devices[d].mem.availablePAddrs)
      {
        ListsFree(devices, owner, free, d);
      }
    }

    /** How many pages there are; remapping and migration only ever turn mapped pages into lost ones. */
    lemma PagesAddUp()
      requires Valid()
      ensures |owner| == |free| + |pageTable| + |lost|
    {
      hide Regions, Owners, FreeLists, Entries;
      SameSize(pageTable, at);
      assert owner.Keys == free + at.Keys + lost;
    }

    /** setInitialAddress: the pages of a device, from its first address on. */
    static method InitialPages(pageSize: nat, initialAddress: nat, storageSize: nat) returns (avail: seq<nat>)
      requires pageSize > 0
      ensures Distinct(avail) && InRow(avail, initialAddress, pageSize)
      ensures forall a: nat :: a in avail <==> IsPageOf(a, MemState(initialAddress, storageSize, []), pageSize)
    {
      avail := [];
      var addr := initialAddress;
      ghost var n: nat := 0;
      ghost var m := MemState(initialAddress, storageSize, []);
      while addr < initialAddress + storageSize
        invariant addr == initialAddress + n * pageSize && |avail| == n
        invariant Distinct(avail) && InRow(avail, initialAddress, pageSize)
        invariant forall a: nat :: a in avail <==> IsPageOf(a, m, pageSize) && a < addr
        decreases initialAddress + storageSize - addr
      {
        forall a: nat ensures IsPageOf(a, m, pageSize) && a < addr + pageSize
          <==> (IsPageOf(a, m, pageSize) && a < addr) || a == addr {
          if addr <= a < addr + pageSize { NextMultiple(pageSize, n, a - initialAddress); }
        }
        assert addr !in avail;
        avail := avail + [addr];
        addr := addr + pageSize;
        n := n + 1;
      }
    }

    /** A device's pages are put on its free list; the address space grows by its size. */
    method RegisterDevice(id: int, unified: bool, actualGPUs: seq<int>, storageSize: nat)
      requires Valid() && id !in devices
      requires unified ==> actualGPUs != [] && forall g | g in actualGPUs :: g in devices && !devices[g].unified
      modifies `devices, `totalStorageByteSize, `owner, `free
      ensures Valid()
      ensures id in devices && devices == old(devices)[id := devices[id]]
      ensures devices[id].unified == unified && devices[id].actualGPUs == actualGPUs
      ensures devices[id].nextActualGPUIndex == 0
      ensures InRow(devices[id].mem.availablePAddrs, old(totalStorageByteSize), pageSize)
      ensures devices[id].mem.initialAddress == old(totalStorageByteSize) && devices[id].mem.storageSize == storageSize
      ensures totalStorageByteSize == old(totalStorageByteSize) + storageSize
      ensures free == old(free) + NewPages(devices[id].mem, pageSize)
    {
      hide Regions, Owners, FreeLists, NewPages, IsPageOf, Distinct, Entries, Inverse, Partition, NewOwner, InRow;
      var avail := InitialPages(pageSize, totalStorageByteSize, storageSize);
      var dev := Device(unified, actualGPUs, 0, MemState(totalStorageByteSize, storageSize, avail));
      ghost var added := NewPages(dev.mem, pageSize);
      AllPages(avail, dev.mem, pageSize);
      NewRegion(devices, totalStorageByteSize, id, dev);
      NewOwners(devices, totalStorageByteSize, pageSize, owner, id, dev);
      NewLists(devices, pageSize, owner, free, id, dev);
      NewPartition(owner, id, added, free, at.Keys, lost);
      owner := NewOwner(owner, id, added);
      free := free + added;
      devices := devices[id := dev];
      totalStorageByteSize := totalStorageByteSize + storageSize;
    }

    /** popNextAvailablePAddrs */
    method PopNext(id: int, ghost held: set<nat>) returns (pAddr: nat)
      requires Pool(held) && id in devices && !devices[id].unified && devices[id].mem.availablePAddrs != []
      modifies `devices, `free
      ensures pAddr == old(devices)[id].mem.availablePAddrs[0] && pAddr !in held
      ensures pAddr in old(free) && pAddr in owner && owner[pAddr] == id
      ensures Pool(held + {pAddr}) && free == old(free) - {pAddr} && devices == Popped(old(devices), id)
    {
      hide Regions, Owners, FreeLists, Inverse;
      SameRegions(devices, totalStorageByteSize, id, Popped(devices, id)[id]);
      SameOwners(devices, pageSize, owner, id, Popped(devices, id)[id]);
      PopLists(devices, owner, free, id);
      HeadFree(devices, owner, free, id);
      var m := devices[id].mem;
      pAddr := m.availablePAddrs[0];
      devices := devices[id := devices[id].(mem := m.(availablePAddrs := m.availablePAddrs[1..]))];
      free := free - {pAddr};
    }

    /** allocatePage: a unified GPU takes a page of the last of its GPUs, from its turn on, that has one left. */
    method AllocatePage(id: int, ghost held: set<nat>) returns (pAddr: nat)
      requires Pool(held) && Room(id) != {}
      modifies `devices, `free
      ensures pAddr !in held && pAddr in old(Room(id)) && Pool(held + {pAddr}) && free == old(free) - {pAddr}
      ensures SameShape(old(devices), devices) && pAddr == NextPage(old(devices), id) && id in devices
      ensures devices[id].nextActualGPUIndex == TurnAfter(old(devices)[id])
      ensures pAddr in owner && owner[pAddr] in old(devices)
              && var list := old(devices)[owner[pAddr]].mem.availablePAddrs;
              && list != [] && pAddr == list[0] && OnlyList(old(devices), devices, owner[pAddr], list[1..])
    {
      hide Regions, Owners, FreeLists, Inverse, Partition;
      RoomMeansPages(devices, owner, free, id);
      if !devices[id].unified {
        pAddr := PopNext(id, held);
        return;
      }
      var d := devices[id];
      var n := |d.actualGPUs|;
      UnifiedOf(devices, totalStorageByteSize, id);
      var devSelected := -1;
      for i := 0 to n
        invariant var t := LastTurn(devices, d, i); devSelected == if t < 0 then -1 else Turn(d, t)
      {
        var devIndex := Turn(d, i);
        if devices[d.actualGPUs[devIndex]].mem.availablePAddrs != [] {
          devSelected := devIndex;
        }
      }
      if devSelected == -1 {
        ghost var g :| 0 <= g < n && devices[d.actualGPUs[g]].mem.availablePAddrs != [];
        ghost var i := TurnOf(d, g);
        assert false;
      }
      pAddr := PopNext(d.actualGPUs[devSelected], held);
      NextTurn(id, d, held + {pAddr});
    }

    method NextTurn(id: int, d: Device, ghost held: set<nat>)
      requires Pool(held) && id in devices && devices[id] == d && d.unified && d.actualGPUs != []
      modifies `devices
      ensures Pool(held) && SameShape(old(devices), devices)
      ensures devices == old(devices)[id := d.(nextActualGPUIndex := TurnAfter(d))]
    {
      hide Regions, Owners, FreeLists, Inverse, Partition;
      var next := d.(nextActualGPUIndex := (d.nextActualGPUIndex + 1) % |d.actualGPUs|);
      SameRegions(devices, totalStorageByteSize, id, next);
      SameOwners(devices, pageSize, owner, id, next);
      SameLists(devices, owner, free, id, next);
      devices := devices[id := next];
    }

    /** Insert a new entry for a held page. */
    method InsertPage(page: Page, ghost held: set<nat>)
      requires Pool(held + {page.PAddr}) && page.PAddr !in held
      requires Key(page.PID, page.VAddr) !in pageTable // pageMustNotExist
      modifies `pageTable, `at
      ensures Pool(held) && pageTable == old(pageTable)[Key(page.PID, page.VAddr) := page]
    {
      hide Regions, Owners, FreeLists, Inverse;
      var key := Key(page.PID, page.VAddr);
      InsertInverse(pageTable, at, key, page);
      pageTable := pageTable[key := page];
      at := at[page.PAddr := key];
    }

    /** Let an entry point to a held page; the page it pointed to is lost. */
    method UpdatePage(page: Page, ghost held: set<nat>)
      requires Pool(held + {page.PAddr}) && page.PAddr !in held
      requires Key(page.PID, page.VAddr) in pageTable // pageMustExist
      modifies `pageTable, `at, `lost
      ensures Pool(held) && pageTable == old(pageTable)[Key(page.PID, page.VAddr) := page]
      ensures lost == old(lost) + {old(pageTable)[Key(page.PID, page.VAddr)].PAddr}
    {
      hide Regions, Owners, FreeLists, Inverse;
      var key := Key(page.PID, page.VAddr);
      UpdateInverse(pageTable, at, key, page);
      ghost var was := pageTable[key].PAddr;
      pageTable := pageTable[key := page];
      at := (at - {was})[page.PAddr := key];
      lost := lost + {was};
    }

    /** One iteration of allocatePages: map a new virtual page to a physical page of the device. */
    method AllocateOne(pid: PID, vAddr: nat, deviceID: int, unified: bool, ghost next: map<PID, nat>)
      requires Pool({}) && Room(deviceID) != {} && deviceID in devices
      requires Entries(pageTable, vAddrToPageMapping, next[pid := vAddr], pageSize)
      modifies `devices, `free, `pageTable, `at, `vAddrToPageMapping
      ensures Pool({}) && SameShape(old(devices), devices)
      ensures Entries(pageTable, vAddrToPageMapping, next[pid := vAddr + pageSize], pageSize)
      ensures var key := Key(pid, vAddr);
              && key !in old(pageTable) && key in pageTable && pageTable == old(pageTable)[key := pageTable[key]]
              && pageTable[key].PAddr in old(Room(deviceID))
              && pageTable[key].Unified == unified && pageTable[key].PID == pid
              && pageTable[key].PAddr in owner && pageTable[key].DeviceID == owner[pageTable[key].PAddr]
              && Room(deviceID) == old(Room(deviceID)) - {pageTable[key].PAddr}
              && pageTable[key].PAddr == NextPage(old(devices), deviceID)
              && |Room(deviceID)| == |old(Room(deviceID))| - 1
              && (!old(devices)[deviceID].unified ==> HeadTaken(old(devices), devices, deviceID, pageTable[key].PAddr))
              && vAddrToPageMapping == old(vAddrToPageMapping)[vAddr := pageTable[key]]
    {
      hide Regions, Owners, FreeLists, Inverse, Partition, Entries, NextPage;
      FreshKey(pageTable, vAddrToPageMapping, next[pid := vAddr], pageSize, pid, vAddr);
      var pAddr := AllocatePage(deviceID, {});
      assert {} + {pAddr} == {pAddr};
      var dev := DeviceIDByPAddr(pAddr, {pAddr});
      var page := Page(pid, vAddr, pAddr, pageSize, dev, unified);
      NewEntry(pageTable, vAddrToPageMapping, next, pageSize, page);
      InsertPage(page, {});
      vAddrToPageMapping := vAddrToPageMapping[vAddr := page];
    }

    /** allocatePages: `numPages` new consecutive virtual pages of a process, on the pages of a device. */
    method AllocatePages(numPages: nat, pid: PID, deviceID: int, unified: bool) returns (first: nat)
      requires Valid() && deviceID in devices && numPages <= |Room(deviceID)|
      modifies this
      ensures Valid() && SameShape(old(devices), devices) && lost == old(lost) && owner == old(owner)
      ensures first == if pid in old(nextVAddr) then old(nextVAddr)[pid] else pageSize
      ensures nextVAddr == old(nextVAddr)[pid := VAddrOf(first, pageSize, numPages)]
      ensures forall k | k in old(pageTable) :: k in pageTable && pageTable[k] == old(pageTable)[k]
      ensures forall k | k in pageTable && k !in old(pageTable) ::
                && (exists i: nat :: i < numPages && k == Key(pid, VAddrOf(first, pageSize, i)))
                && pageTable[k].PAddr in old(Room(deviceID)) && pageTable[k].Unified == unified
                && pageTable[k].PAddr in owner && pageTable[k].DeviceID == owner[pageTable[k].PAddr]
      ensures forall i: nat | i < numPages ::
                Key(pid, VAddrOf(first, pageSize, i)) in pageTable
                  && Key(pid, VAddrOf(first, pageSize, i)) !in old(pageTable)
      ensures LastMappedBy(vAddrToPageMapping, pid, first, pageSize, numPages)
      ensures |Room(deviceID)| == |old(Room(deviceID))| - numPages
      ensures !old(devices)[deviceID].unified ==>
                InListOrder(old(devices)[deviceID].mem.availablePAddrs, devices, deviceID, pageTable, pid, first,
                  pageSize, numPages)
    {
      hide Regions, Owners, FreeLists, Inverse, Partition, Entries, VAddrOf, Appended, LastMappedBy, SameShape,
           NextPage, HeadTaken, InListOrder, MemoryAllocator.Pool, MemoryAllocator.Room;
      ghost var list := devices[deviceID].mem.availablePAddrs;
      if pid !in nextVAddr {
        NewProcess(pageTable, vAddrToPageMapping, nextVAddr, pageSize, pid);
        nextVAddr := nextVAddr[pid := pageSize];
      }
      first := nextVAddr[pid];
      ghost var next, table, room := nextVAddr, pageTable, Room(deviceID);
      assert next[pid := first] == next;
      VAddrStep(first, pageSize, 0);
      NothingAppended(table, pid, first, pageSize, room, owner, unified);
      NothingMappedYet(vAddrToPageMapping, pid, first, pageSize);
      NoneInList(devices, deviceID, table, pid, first, pageSize);
      SameShapeChain(devices, devices, devices);
      var i, vAddr := 0, first;
      while i < numPages
        invariant i <= numPages && vAddr == VAddrOf(first, pageSize, i) && nextVAddr == next
        invariant Pool({}) && SameShape(old(devices), devices) && owner == old(owner) && lost == old(lost)
        invariant Entries(pageTable, vAddrToPageMapping, next[pid := vAddr], pageSize)
        invariant Room(deviceID) <= room && |Room(deviceID)| == |room| - i
        invariant LastMappedBy(vAddrToPageMapping, pid, first, pageSize, i) && deviceID in devices
        invariant devices[deviceID].unified == old(devices)[deviceID].unified
        invariant !devices[deviceID].unified ==>
                    InListOrder(list, devices, deviceID, pageTable, pid, first, pageSize, i)
        invariant Appended(table, pageTable, pid, first, pageSize, room, owner, unified, i)
      {
        ghost var was, shape, index := pageTable, devices, vAddrToPageMapping;
        assert Room(deviceID) != {};
        AllocateOne(pid, vAddr, deviceID, unified, next);
        VAddrStep(first, pageSize, i);
        AppendStep(table, was, pid, first, pageSize, room, owner, unified, i, pageTable[Key(pid, vAddr)]);
        MappedStep(index, pid, first, pageSize, i, pageTable[Key(pid, vAddr)]);
        SameShapeChain(old(devices), shape, devices);
        SameKindOf(shape, devices, deviceID);
        if !shape[deviceID].unified {
          NextInList(list, shape, devices, deviceID, was, pageTable, pid, first, pageSize, i);
        }
        i := i + 1;
        vAddr := vAddr + pageSize;
      }
      AppendedRange(table, pageTable, pid, first, pageSize, room, owner, unified, numPages);
      nextVAddr := nextVAddr[pid := vAddr];
    }

    lemma PageSizePositive()
      requires Valid()
      ensures pageSize > 0
    {}

    /** Allocate and AllocateUnified (device 1): every byte of the new buffer lies in a page of the process. */
    method Allocate(pid: PID, byteSize: nat, deviceID: int, unified: bool) returns (buffer: nat)
      requires Valid() && deviceID in devices && byteSize > 0 && PageCount(byteSize, pageSize) <= |Room(deviceID)|
      modifies this
      ensures Valid() && SameShape(old(devices), devices) && lost == old(lost)
      ensures buffer == if pid in old(nextVAddr) then old(nextVAddr)[pid] else pageSize
      ensures nextVAddr == old(nextVAddr)[pid := VAddrOf(buffer, pageSize, PageCount(byteSize, pageSize))]
      ensures forall k | k in old(pageTable) :: k in pageTable && pageTable[k] == old(pageTable)[k]
      ensures forall o: nat | o < byteSize ::
                var k := Key(pid, VAddrOf(buffer, pageSize, PageIndex(o, pageSize)));
                && k in pageTable && k !in old(pageTable) && k.vAddr <= buffer + o < k.vAddr + pageSize
                && pageTable[k].PAddr in old(Room(deviceID)) && pageTable[k].Unified == unified
    {
      hide *;
      PageSizePositive();
      AtLeastOnePage(byteSize, pageSize);
      buffer := AllocatePages(PageIndex(byteSize - 1, pageSize) + 1, pid, deviceID, unified);
      forall o: nat | o < byteSize
        ensures PageIndex(o, pageSize) < PageCount(byteSize, pageSize)
        ensures VAddrOf(buffer, pageSize, PageIndex(o, pageSize)) <= buffer + o < VAddrOf(buffer, pageSize,
                PageIndex(o, pageSize)) + pageSize
      {
        ByteInPage(buffer, byteSize, pageSize, o);
      }
    }

    /** Let the entry of a virtual page point to a held physical page, and keep the vAddr index in step. */
    method RemapOne(page: Page, ghost held: set<nat>)
      requires Pool(held + {page.PAddr}) && page.PAddr !in held && page.PageSize == pageSize
      requires Entries(pageTable, vAddrToPageMapping, nextVAddr, pageSize)
      requires Key(page.PID, page.VAddr) in pageTable
      modifies `pageTable, `at, `lost, `vAddrToPageMapping
      ensures Pool(held) && Entries(pageTable, vAddrToPageMapping, nextVAddr, pageSize)
      ensures pageTable == old(pageTable)[Key(page.PID, page.VAddr) := page]
      ensures vAddrToPageMapping == old(vAddrToPageMapping)[page.VAddr := page]
      ensures lost == old(lost) + {old(pageTable)[Key(page.PID, page.VAddr)].PAddr}
    {
      hide Regions, Owners, FreeLists, Inverse, Partition, Entries;
      UpdatedEntry(pageTable, vAddrToPageMapping, nextVAddr, pageSize, page);
      vAddrToPageMapping := vAddrToPageMapping[page.VAddr := page];
      UpdatePage(page, held);
    }

    /** allocatePageWithGivenVAddr: a page migration moves a mapped virtual page to a new physical page. */
    method AllocatePageWithGivenVAddr(pid: PID, deviceID: int, vAddr: nat, isUnified: bool) returns (page: Page)
      requires Valid() && Room(deviceID) != {} && Key(pid, vAddr) in pageTable
      modifies this
      ensures Valid() && SameShape(old(devices), devices)
      ensures page == Page(pid, vAddr, page.PAddr, pageSize, deviceID, isUnified) && page.PAddr in old(Room(deviceID))
      ensures page.PAddr == NextPage(old(devices), deviceID)
      ensures pageTable == old(pageTable)[Key(pid, vAddr) := page]
      ensures lost == old(lost) + {old(pageTable)[Key(pid, vAddr)].PAddr}
      ensures free == old(free) - {page.PAddr} && owner == old(owner)
      ensures page.PAddr in owner && owner[page.PAddr] in old(devices)
              && var list := old(devices)[owner[page.PAddr]].mem.availablePAddrs;
              && list != [] && page.PAddr == list[0]
              && OnlyList(old(devices), devices, owner[page.PAddr], list[1..])
    {
      hide Regions, Owners, FreeLists, Inverse, Partition, Entries;
      var pAddr := AllocatePage(deviceID, {});
      assert {} + {pAddr} == {pAddr};
      page := Page(pid, vAddr, pAddr, pageSize, deviceID, isUnified);
      RemapOne(page, {});
    }

    /** allocateMultiplePages */
    method AllocateMultiplePages(id: int, numPages: nat) returns (pAddrs: seq<nat>)
      requires Pool({}) && Spare(devices, id) != [] && numPages <= |Spare(devices, id)|
      modifies `devices, `free
      ensures Pool(Elems(pAddrs)) && SameShape(old(devices), devices)
      ensures pAddrs == old(Spare(devices, id))[..numPages] && Distinct(pAddrs)
      ensures forall a | a in pAddrs :: a in old(free) && a in owner
      ensures id in old(devices) && var d := old(devices)[id];
              && (d.unified ==> d.nextActualGPUIndex < |d.actualGPUs|)
              && forall a | a in pAddrs :: owner[a] == if d.unified then d.actualGPUs[d.nextActualGPUIndex] else id
      ensures id in devices && devices[id].nextActualGPUIndex == TurnAfter(old(devices)[id])
      ensures OnlyList(old(devices), devices, Source(old(devices), id), old(Spare(devices, id))[numPages..])
    {
      hide Regions, Owners, FreeLists, Inverse, Partition;
      if devices[id].unified { UnifiedOf(devices, totalStorageByteSize, id); }
      var src := Source(devices, id);
      ghost var list := Spare(devices, id);
      pAddrs := [];
      assert Elems(pAddrs) == {};
      while |pAddrs| < numPages
        invariant |pAddrs| <= numPages && Pool(Elems(pAddrs)) && SameShape(old(devices), devices)
        invariant src in devices && devices[src].mem.availablePAddrs == list[|pAddrs|..] && pAddrs == list[..|pAddrs|]
        invariant OnlyList(old(devices), devices, src, list[|pAddrs|..])
        invariant Distinct(pAddrs) && forall a | a in pAddrs :: a in old(free) && a in owner && owner[a] == src
        invariant free <= old(free) && devices[id].nextActualGPUIndex == old(devices)[id].nextActualGPUIndex
      {
        ghost var held := Elems(pAddrs);
        var pAddr := PopNext(src, held);
        pAddrs := pAddrs + [pAddr];
        assert Elems(pAddrs) == held + {pAddr};
      }
      if devices[id].unified {
        NextTurn(id, devices[id], Elems(pAddrs));
      }
    }

    /** Remap: move the pages of a virtual range to a device. Their old physical pages are lost. */
    method Remap(pid: PID, pageVAddr: nat, byteSize: nat, deviceID: int) returns (ghost n: nat)
      requires Valid() && Spare(devices, deviceID) != [] && PageCount(byteSize, pageSize) <= |Spare(devices, deviceID)|
      requires forall i: nat | i < PageCount(byteSize, pageSize) ::
               Key(pid, VAddrOf(pageVAddr, pageSize, i)) in pageTable
      modifies this
      ensures Valid() && SameShape(old(devices), devices)
      ensures n == PageCount(byteSize, pageSize)
      ensures forall i: nat | i < n ::
                var k := Key(pid, VAddrOf(pageVAddr, pageSize, i));
                && k in pageTable
                && pageTable[k].PAddr == old(Spare(devices, deviceID))[i]
                && pageTable[k].DeviceID == deviceID && !pageTable[k].Unified
      ensures lost == old(lost)
                      + (set i: nat | i < n :: old(pageTable)[Key(pid, VAddrOf(pageVAddr, pageSize, i))].PAddr)
      ensures pageTable.Keys == old(pageTable).Keys
      ensures forall k | k in pageTable
                && !(exists i: nat :: i < n && k == Key(pid, VAddrOf(pageVAddr, pageSize, i))) ::
                pageTable[k] == old(pageTable)[k]
    {
      hide Regions, Owners, FreeLists, Inverse, Partition, Entries, VAddrOf, Remapped, Elems, SameShape, Distinct,
           Replaced;
      var vAddrs := VAddrs(pageVAddr, byteSize);
      n := |vAddrs|;
      var pAddrs := AllocateMultiplePages(deviceID, |vAddrs|);
      ghost var table := pageTable;
      assert pAddrs[0..] == pAddrs;
      NothingRemapped(table, pid, vAddrs, pAddrs, deviceID, pageSize);
      for i := 0 to |vAddrs|
        invariant Pool(Elems(pAddrs[i..])) && Entries(pageTable, vAddrToPageMapping, nextVAddr, pageSize)
        invariant SameShape(old(devices), devices)
        invariant Remapped(table, pageTable, pid, vAddrs, pAddrs, deviceID, pageSize, i)
        invariant lost == old(lost) + Replaced(table, pid, vAddrs, i)
      {
        RestOf(pAddrs, i);
        ghost var was := pageTable;
        var page := Page(pid, vAddrs[i], pAddrs[i], pageSize, deviceID, false);
        StillThere(table, pageTable, pid, vAddrs, pAddrs, deviceID, pageSize, i);
        RemapStep(table, pageTable, pid, vAddrs, pAddrs, deviceID, pageSize, i);
        OneMoreReplaced(table, pid, vAddrs, i);
        RemapOne(page, Elems(pAddrs[i + 1..]));
      }
      RestEmpty(pAddrs);
      RemappedRange(table, pageTable, pid, vAddrs, pAddrs, deviceID, pageSize, pageVAddr);
    }

    /** The page addresses of a range, as Remap lists them. */
    method VAddrs(pageVAddr: nat, byteSize: nat) returns (vAddrs: seq<nat>)
      requires pageSize > 0
      ensures |vAddrs| == PageCount(byteSize, pageSize)
      ensures forall i: nat | i < |vAddrs| :: vAddrs[i] == VAddrOf(pageVAddr, pageSize, i)
      ensures forall i, j | 0 <= i < j < |vAddrs| :: vAddrs[i] < vAddrs[j]
    {
      vAddrs := [];
      var addr := pageVAddr;
      VAddrStep(pageVAddr, pageSize, 0);
      while addr < pageVAddr + byteSize
        invariant addr == VAddrOf(pageVAddr, pageSize, |vAddrs|)
        invariant |vAddrs| > 0 ==> vAddrs[|vAddrs| - 1] + pageSize == addr && addr < pageVAddr + byteSize + pageSize
        invariant forall i: nat | i < |vAddrs| :: vAddrs[i] == VAddrOf(pageVAddr, pageSize, i) && vAddrs[i] < addr
        invariant forall i, j | 0 <= i < j < |vAddrs| :: vAddrs[i] < vAddrs[j]
        decreases pageVAddr + byteSize - addr
      {
        VAddrStep(pageVAddr, pageSize, |vAddrs|);
        vAddrs := vAddrs + [addr];
        addr := addr + pageSize;
      }
      Pages(byteSize, pageSize, |vAddrs|);
    }

    /**
     removePage and Free. The page that goes is the one last mapped at `vAddr`, by whichever
     process; it must still be mapped.
     */
    method RemovePage(vAddr: nat)
      requires Valid() && vAddr in vAddrToPageMapping
      requires Key(vAddrToPageMapping[vAddr].PID, vAddr) in pageTable
      modifies this
      ensures Valid() && SameShape(old(devices), devices)
      ensures var page := old(vAddrToPageMapping)[vAddr];
              && pageTable == old(pageTable) - {Key(page.PID, vAddr)}
              && free == old(free) + {page.PAddr} && page.PAddr !in old(free)
              && vAddrToPageMapping == old(vAddrToPageMapping) && lost == old(lost) && nextVAddr == old(nextVAddr)
      ensures var p := old(vAddrToPageMapping)[vAddr].PAddr;
              && p in owner && owner[p] in old(devices)
              && OnlyList(old(devices), devices, owner[p], old(devices)[owner[p]].mem.availablePAddrs + [p])
    {
      hide Regions, Owners, FreeLists, Inverse, Entries, Partition;
      var page := vAddrToPageMapping[vAddr];
      var key := Key(page.PID, vAddr);
      RemovedEntry(pageTable, vAddrToPageMapping, nextVAddr, pageSize, vAddr);
      RemoveInverse(pageTable, at, key);
      ReturnMapped(owner.Keys, free, at.Keys, lost, page.PAddr);
      assert (at - {page.PAddr}).Keys == at.Keys - {page.PAddr};
      var deviceID := DeviceIDByPAddr(page.PAddr, {});
      OwnerDevice(devices, pageSize, owner, page.PAddr);
      SameRegions(devices, totalStorageByteSize, deviceID, Pushed(devices, deviceID, page.PAddr)[deviceID]);
      SameOwners(devices, pageSize, owner, deviceID, Pushed(devices, deviceID, page.PAddr)[deviceID]);
      PushLists(devices, owner, free, page.PAddr);
      devices := Pushed(devices, deviceID, page.PAddr);
      free := free + {page.PAddr};
      pageTable := pageTable - {key};
      at := at - {page.PAddr};
    }

    /**
     Free, with its panics: one when the address was never mapped, one when the page that was last
     mapped there is gone. What a panic leaves behind is not modelled. Of the processes that have
     the address mapped, the one that mapped it last loses its page, and no other does.
     */
    method Free(ptr: nat) returns (panics: bool)
      requires Valid()
      modifies this
      ensures Valid() && SameShape(old(devices), devices)
      ensures panics <==> ptr !in old(vAddrToPageMapping)
                          || Key(old(vAddrToPageMapping)[ptr].PID, ptr) !in old(pageTable)
      ensures panics ==> pageTable == old(pageTable) && free == old(free)
      ensures !panics ==>
                var p := old(vAddrToPageMapping)[ptr].PAddr;
                && free == old(free) + {p} && p !in old(free) && p in owner && owner[p] in old(devices)
                && OnlyList(old(devices), devices, owner[p], old(devices)[owner[p]].mem.availablePAddrs + [p])
      ensures lost == old(lost) && nextVAddr == old(nextVAddr)
      ensures forall pid | Key(pid, ptr) in old(pageTable) ::
                ptr in old(vAddrToPageMapping)
                && (Key(pid, ptr) !in pageTable <==> pid == old(vAddrToPageMapping)[ptr].PID)
      ensures forall k: Key | k.vAddr != ptr :: k in pageTable <==> k in old(pageTable)
      ensures forall k | k in pageTable :: k in old(pageTable) && pageTable[k] == old(pageTable)[k]
      ensures vAddrToPageMapping == old(vAddrToPageMapping)
    {
      hide Regions, Owners, FreeLists, Inverse, Partition;
      SameShapeChain(devices, devices, devices);
      if ptr !in vAddrToPageMapping || Key(vAddrToPageMapping[ptr].PID, ptr) !in pageTable {
        return true;
      }
      RemovePage(ptr);
      return false;
    }

    /** deviceIDByPAddr: tries the devices in any order. */
    method DeviceIDByPAddr(pAddr: nat, ghost held: set<nat>) returns (id: int)
      requires Pool(held) && pAddr in owner
      ensures id == owner[pAddr]
    {
      hide FreeLists, Inverse, Partition;
      var todo := devices.Keys;
      ghost var o := owner[pAddr];
      while true
        invariant todo <= devices.Keys && o in todo
        decreases todo
      {
        assert todo != {};
        var d :| d in todo;
        if OnDevice(pAddr, devices[d].mem) {
          return d;
        }
        todo := todo - {d};
      }
    }
  }

  /** The devices an allocation on `id` takes pages of. */
  function Group(devices: map<int, Device>, id: int): set<int>
    requires id in devices
  {
    if devices[id].unified then set g | g in devices[id].actualGPUs else {id}
  }

  ghost function RoomOf(devices: map<int, Device>, owner: map<nat, int>, free: set<nat>, id: int): set<nat> {
    if id !in devices then {} else set a | a in free && a in owner && owner[a] in Group(devices, id)
  }

  /** `a` was the first page of the device's free list, and is off it. */
  ghost predicate HeadTaken(before: map<int, Device>, after: map<int, Device>, id: int, a: nat) {
    && id in before && id in after && before[id].mem.availablePAddrs != []
    && a == before[id].mem.availablePAddrs[0]
    && after[id].mem.availablePAddrs == before[id].mem.availablePAddrs[1..]
  }

  /** The first `n` virtual pages have the first `n` pages of the device's list, in order; the others stay there. */
  ghost predicate InListOrder(list: seq<nat>, devices: map<int, Device>, id: int, table: map<Key, Page>, pid: PID,
                              first: nat, pageSize: nat, n: nat) {
    && id in devices && n <= |list| && devices[id].mem.availablePAddrs == list[n..]
    && forall i: nat | i < n ::
         var k := Key(pid, VAddrOf(first, pageSize, i)); k in table && table[k].PAddr == list[i]
  }

  lemma NoneInList(devices: map<int, Device>, id: int, table: map<Key, Page>, pid: PID, first: nat, pageSize: nat)
    requires id in devices
    ensures InListOrder(devices[id].mem.availablePAddrs, devices, id, table, pid, first, pageSize, 0)
  {}

  lemma NextInList(list: seq<nat>, before: map<int, Device>, after: map<int, Device>, id: int, was: map<Key, Page>,
                   table: map<Key, Page>, pid: PID, first: nat, pageSize: nat, n: nat)
    requires InListOrder(list, before, id, was, pid, first, pageSize, n)
    requires var k := Key(pid, VAddrOf(first, pageSize, n));
             k in table && k !in was && table == was[k := table[k]] && HeadTaken(before, after, id, table[k].PAddr)
    ensures InListOrder(list, after, id, table, pid, first, pageSize, n + 1)
  {
    hide VAddrOf;
  }

  /** Only the free list of device `id` changes, to `list`. */
  ghost predicate OnlyList(before: map<int, Device>, after: map<int, Device>, id: int, list: seq<nat>) {
    && before.Keys == after.Keys
    && forall d | d in before ::
         after[d].mem.availablePAddrs == if d == id then list else before[d].mem.availablePAddrs
  }

  /** Which devices exist, and what they bundle. */
  ghost predicate SameShape(before: map<int, Device>, after: map<int, Device>) {
    && before.Keys == after.Keys
    && forall d | d in before :: before[d].unified == after[d].unified && before[d].actualGPUs == after[d].actualGPUs
  }

  lemma UnifiedOf(devices: map<int, Device>, total: nat, id: int)
    requires Regions(devices, total) && id in devices && devices[id].unified
    ensures devices[id].nextActualGPUIndex < |devices[id].actualGPUs|
    ensures forall i | 0 <= i < |devices[id].actualGPUs| ::
              devices[id].actualGPUs[i] in devices && !devices[devices[id].actualGPUs[i]].unified
                && devices[id].actualGPUs[i] != id
  {}

  lemma RoomMeansPages(devices: map<int, Device>, owner: map<nat, int>, free: set<nat>, id: int)
    requires FreeLists(devices, owner, free) && id in devices
    requires exists a :: a in free && a in owner && owner[a] in Group(devices, id)
    ensures if !devices[id].unified then devices[id].mem.availablePAddrs != []
            else exists i :: 0 <= i < |devices[id].actualGPUs| && devices[id].actualGPUs[i] in devices
                             && devices[devices[id].actualGPUs[i]].mem.availablePAddrs != []
  {
    var a :| a in free && a in owner && owner[a] in Group(devices, id);
    if devices[id].unified {
      var i :| 0 <= i < |devices[id].actualGPUs| && devices[id].actualGPUs[i] == owner[a];
    }
  }

  /** An allocation on a device panics for want of memory unless it, or a GPU that it bundles, has a page left. */
  lemma RoomIff(a: MemoryAllocator, id: int)
    requires a.Valid() && id in a.devices
    ensures a.Room(id) != {} <==> var d := a.devices[id];
            if d.unified then exists i :: 0 <= i < |d.actualGPUs| && Stocked(a.devices, d.actualGPUs[i])
            else Stocked(a.devices, id)
  {
    hide Regions, Owners, FreeLists, Inverse, Partition, Entries;
    var d := a.devices[id];
    if a.Room(id) != {} {
      RoomMeansPages(a.devices, a.owner, a.free, id);
      if d.unified {
        var i :| 0 <= i < |d.actualGPUs| && d.actualGPUs[i] in a.devices
                 && a.devices[d.actualGPUs[i]].mem.availablePAddrs != [];
        assert Stocked(a.devices, d.actualGPUs[i]);
      }
    }
    if d.unified && exists i :: 0 <= i < |d.actualGPUs| && Stocked(a.devices, d.actualGPUs[i]) {
      var i :| 0 <= i < |d.actualGPUs| && Stocked(a.devices, d.actualGPUs[i]);
      HeadFree(a.devices, a.owner, a.free, d.actualGPUs[i]);
      assert a.devices[d.actualGPUs[i]].mem.availablePAddrs[0] in a.Room(id);
    }
    if !d.unified && Stocked(a.devices, id) {
      HeadFree(a.devices, a.owner, a.free, id);
      assert d.mem.availablePAddrs[0] in a.Room(id);
    }
  }

  lemma SameLists(devices: map<int, Device>, owner: map<nat, int>, free: set<nat>, id: int, next: Device)
    requires FreeLists(devices, owner, free) && id in devices && next.mem == devices[id].mem
    ensures FreeLists(devices[id := next], owner, free)
  {
    var after := devices[id := next];
    assert forall d | d in devices :: after[d].mem == devices[d].mem;
  }

  /** The i-th GPU a unified GPU tries. */
  function Turn(d: Device, i: nat): (r: nat)
    requires d.actualGPUs != []
    ensures r < |d.actualGPUs|
  {
    (d.nextActualGPUIndex + i) % |d.actualGPUs|
  }

  /** Whose turn it is after an allocation: a unified GPU goes round its GPUs. */
  function TurnAfter(d: Device): nat {
    if d.unified && d.actualGPUs != [] then Turn(d, 1) else d.nextActualGPUIndex
  }

  /** The i-th GPU from the turn on, when the turn wraps at the last GPU. */
  predicate InTurn(d: Device, i: nat, g: nat) {
    g == d.nextActualGPUIndex + i || g + |d.actualGPUs| == d.nextActualGPUIndex + i
  }

  lemma TurnWraps(d: Device, i: nat)
    requires d.nextActualGPUIndex < |d.actualGPUs| && i <= |d.actualGPUs|
    ensures InTurn(d, i, Turn(d, i))
  {
    ModOnce(d.nextActualGPUIndex + i, |d.actualGPUs|);
  }

  /** With each allocation it is the turn of the next GPU, and after the last one of the first. */
  lemma TurnMovesOn(devices: map<int, Device>, total: nat, id: int)
    requires Regions(devices, total) && id in devices && devices[id].unified
    ensures var d := devices[id]; InTurn(d, 1, TurnAfter(d)) && TurnAfter(d) < |d.actualGPUs|
  {
    TurnWraps(devices[id], 1);
  }

  predicate Stocked(devices: map<int, Device>, g: int) {
    g in devices && devices[g].mem.availablePAddrs != []
  }

  /** Of the first `n` turns, the last one whose GPU has a page left, or -1. */
  function LastTurn(devices: map<int, Device>, d: Device, n: nat): (t: int)
    requires d.actualGPUs != []
    ensures -1 <= t < n && (t >= 0 ==> Stocked(devices, d.actualGPUs[Turn(d, t)]))
    ensures forall j | t < j < n :: !Stocked(devices, d.actualGPUs[Turn(d, j)])
  {
    if n == 0 then -1
    else if Stocked(devices, d.actualGPUs[Turn(d, n - 1)]) then n - 1
    else LastTurn(devices, d, n - 1)
  }

  /** The page that the next allocation on a device takes: the first of its list, or of the chosen GPU's. */
  function NextPage(devices: map<int, Device>, id: int): nat {
    if id !in devices then 0
    else
      var d := devices[id];
      var t := if d.unified && d.actualGPUs != [] then LastTurn(devices, d, |d.actualGPUs|) else -1;
      var src := if t < 0 then id else d.actualGPUs[Turn(d, t)];
      if Stocked(devices, src) then devices[src].mem.availablePAddrs[0] else 0
  }

  /**
   Where the next page of a unified GPU comes from: a GPU `g` whose turn is the `t`-th has pages
   left, and every GPU whose turn is later has none.
   */
  lemma NextPageServes(devices: map<int, Device>, total: nat, id: int) returns (t: nat, g: nat)
    requires Regions(devices, total) && id in devices && devices[id].unified
    requires exists i :: 0 <= i < |devices[id].actualGPUs| && Stocked(devices, devices[id].actualGPUs[i])
    ensures var d := devices[id];
            && t < |d.actualGPUs| && g < |d.actualGPUs| && InTurn(d, t, g) && Stocked(devices, d.actualGPUs[g])
            && NextPage(devices, id) == devices[d.actualGPUs[g]].mem.availablePAddrs[0]
            && forall j: nat, h: nat | t < j < |d.actualGPUs| && h < |d.actualGPUs| && InTurn(d, j, h) ::
              !Stocked(devices, d.actualGPUs[h])
  {
    hide Regions, Turn, Stocked;
    var d := devices[id];
    UnifiedOf(devices, total, id);
    var i :| 0 <= i < |d.actualGPUs| && Stocked(devices, d.actualGPUs[i]);
    var k := TurnOf(d, i);
    t := LastTurn(devices, d, |d.actualGPUs|);
    g := Turn(d, t);
    TurnWraps(d, t);
    forall j: nat, h: nat | t < j < |d.actualGPUs| && h < |d.actualGPUs| && InTurn(d, j, h)
      ensures !Stocked(devices, d.actualGPUs[h])
    {
      TurnWraps(d, j);
    }
  }

  /** Every GPU has its turn. */
  lemma TurnOf(d: Device, g: nat) returns (i: nat)
    requires d.nextActualGPUIndex < |d.actualGPUs| && g < |d.actualGPUs|
    ensures i < |d.actualGPUs| && Turn(d, i) == g
  {
    i := if d.nextActualGPUIndex <= g then g - d.nextActualGPUIndex else g - d.nextActualGPUIndex + |d.actualGPUs|;
    ModOnce(d.nextActualGPUIndex + i, |d.actualGPUs|);
  }

  lemma ListsFree(devices: map<int, Device>, owner: map<nat, int>, free: set<nat>, d: int)
    requires FreeLists(devices, owner, free) && d in devices
    ensures forall a | a in devices[d].mem.availablePAddrs :: a in free && a in owner && owner[a] == d
    ensures forall a | a in free && a in owner && owner[a] == d :: a in devices[d].mem.availablePAddrs
  {}

  /** A map and its inverse have the same size. */
  lemma SameSize(pageTable: map<Key, Page>, at: map<nat, Key>)
    requires Inverse(pageTable, at)
    ensures |pageTable| == |at|
    decreases |pageTable|
  {
    if pageTable == map[] {
      assert at.Keys == {};
    } else {
      var k :| k in pageTable;
      var a := pageTable[k].PAddr;
      RemoveInverse(pageTable, at, k);
      assert (pageTable - {k}).Keys == pageTable.Keys - {k} && (at - {a}).Keys == at.Keys - {a};
      SameSize(pageTable - {k}, at - {a});
    }
  }

  /** No byte of physical memory belongs to two entries. */
  ghost predicate BytesApart(pageTable: map<Key, Page>, pageSize: nat) {
    forall j, k | j in pageTable && k in pageTable && j != k ::
      || pageTable[j].PAddr + pageSize <= pageTable[k].PAddr || pageTable[k].PAddr + pageSize <= pageTable[j].PAddr
  }

  /**
   Pages of one device never overlap. Two devices one behind the other keep their pages apart
   exactly when the first one's storage is a whole number of pages.
   */
  lemma {:induction false} PagesOverlap(m: MemState, next: MemState, pageSize: nat)
    requires pageSize > 0 && next.initialAddress == m.initialAddress + m.storageSize
    requires m.storageSize > 0 && next.storageSize > 0
    ensures (forall a: nat, b: nat | IsPageOf(a, m, pageSize) && IsPageOf(b, next, pageSize) :: a + pageSize <= b)
            <==> WholePages(m, pageSize)
  {
    var size := m.storageSize;
    Quotient(size, pageSize);
    if size % pageSize == 0 {
      forall a: nat, b: nat | IsPageOf(a, m, pageSize) && IsPageOf(b, next, pageSize) ensures a + pageSize <= b {
        PageFits(m, pageSize, a);
      }
    } else {
      var a := m.initialAddress + size / pageSize * pageSize;
      var b := next.initialAddress;
      if size / pageSize < 0 { Times(size / pageSize, -1, pageSize); }
      if size / pageSize > 0 { Times(0, size / pageSize, pageSize); }
      DivUnique(a - m.initialAddress, pageSize, size / pageSize, 0);
      DivUnique(0, pageSize, 0, 0);
      assert IsPageOf(a, m, pageSize) && IsPageOf(b, next, pageSize) && !(a + pageSize <= b);
    }
  }

  /** A page of a device whose size is a whole number of pages ends inside the device. */
  lemma PageFits(m: MemState, pageSize: nat, a: nat)
    requires pageSize > 0
    requires WholePages(m, pageSize) && IsPageOf(a, m, pageSize)
    ensures a + pageSize <= m.initialAddress + m.storageSize
  {
    Apart(pageSize, a - m.initialAddress, m.storageSize);
  }

  lemma Apart(b: nat, x: int, y: int)
    requires b > 0 && x % b == 0 && y % b == 0 && x < y
    ensures x + b <= y
  {
    Quotient(x, b);
    Quotient(y, b);
    if y / b <= x / b { Times(y / b, x / b, b); }
    Times(x / b + 1, y / b, b);
  }

  /** With whole numbers of pages everywhere, no two entries share a byte. */
  lemma NoSharedByte(a: MemoryAllocator)
    requires a.Valid() && forall d | d in a.devices :: WholePages(a.devices[d].mem, a.pageSize)
    ensures BytesApart(a.pageTable, a.pageSize)
  {
    forall j, k | j in a.pageTable && k in a.pageTable && j != k
      ensures a.pageTable[j].PAddr + a.pageSize <= a.pageTable[k].PAddr
              || a.pageTable[k].PAddr + a.pageSize <= a.pageTable[j].PAddr
    {
      var p, q := a.pageTable[j].PAddr, a.pageTable[k].PAddr;
      DifferentPages(a, j, k);
      if p < q {
        PagesFollow(a.devices, a.totalStorageByteSize, a.pageSize, a.owner, p, q);
      } else {
        PagesFollow(a.devices, a.totalStorageByteSize, a.pageSize, a.owner, q, p);
      }
    }
  }

  /** Entries stay inside the registered storage. */
  lemma InsideStorage(a: MemoryAllocator)
    requires a.Valid() && forall d | d in a.devices :: WholePages(a.devices[d].mem, a.pageSize)
    ensures forall k | k in a.pageTable ::
              && k == Key(a.pageTable[k].PID, a.pageTable[k].VAddr) && a.pageTable[k].PageSize == a.pageSize
              && a.pageTable[k].PAddr + a.pageSize <= a.totalStorageByteSize
    ensures a.pageSize > 0
  {
    hide WholePages, IsPageOf, FreeLists;
    forall k | k in a.pageTable ensures a.pageTable[k].PAddr + a.pageSize <= a.totalStorageByteSize {
      var p := a.pageTable[k].PAddr;
      assert p in a.at.Keys;
      PageFacts(a.devices, a.pageSize, a.owner, p);
      PageFits(a.devices[a.owner[p]].mem, a.pageSize, p);
      RegionEnd(a.devices, a.totalStorageByteSize, a.owner[p]);
    }
  }

  lemma RegionEnd(devices: map<int, Device>, total: nat, d: int)
    requires Regions(devices, total) && d in devices
    ensures devices[d].mem.initialAddress + devices[d].mem.storageSize <= total
  {}

  lemma DifferentPages(a: MemoryAllocator, j: Key, k: Key)
    requires a.Valid() && j in a.pageTable && k in a.pageTable && j != k
    ensures a.pageTable[j].PAddr != a.pageTable[k].PAddr && a.pageTable[j].PAddr in a.owner
            && a.pageTable[k].PAddr in a.owner
  {
    hide Regions, Owners, FreeLists, Entries;
    assert a.at[a.pageTable[j].PAddr] == j && a.at[a.pageTable[k].PAddr] == k;
    assert a.pageTable[j].PAddr in a.at.Keys && a.pageTable[k].PAddr in a.at.Keys;
  }

  lemma PagesFollow(devices: map<int, Device>, total: nat, pageSize: nat, owner: map<nat, int>, p: nat, q: nat)
    requires pageSize > 0 && Regions(devices, total) && Owners(devices, pageSize, owner)
    requires forall d | d in devices :: WholePages(devices[d].mem, pageSize)
    requires p in owner && q in owner && p < q
    ensures p + pageSize <= q
  {
    hide Regions, Owners, WholePages;
    PageFacts(devices, pageSize, owner, p);
    PageFacts(devices, pageSize, owner, q);
    var m, n := devices[owner[p]].mem, devices[owner[q]].mem;
    PageFits(m, pageSize, p);
    if owner[p] == owner[q] {
      Apart(pageSize, p - m.initialAddress, q - m.initialAddress);
    } else {
      RegionsApart(devices, total, owner[p], owner[q]);
    }
  }

  lemma PageFacts(devices: map<int, Device>, pageSize: nat, owner: map<nat, int>, p: nat)
    requires pageSize > 0 && Owners(devices, pageSize, owner) && p in owner
    requires forall d | d in devices :: WholePages(devices[d].mem, pageSize)
    ensures owner[p] in devices && IsPageOf(p, devices[owner[p]].mem, pageSize)
            && WholePages(devices[owner[p]].mem, pageSize)
  {
    hide WholePages, IsPageOf;
    var d := owner[p];
    assert d in devices;
    assert WholePages(devices[d].mem, pageSize);
  }

  lemma RegionsApart(devices: map<int, Device>, total: nat, d: int, e: int)
    requires Regions(devices, total) && d in devices && e in devices && d != e
    ensures || devices[d].mem.initialAddress + devices[d].mem.storageSize <= devices[e].mem.initialAddress
            || devices[e].mem.initialAddress + devices[e].mem.storageSize <= devices[d].mem.initialAddress
  {}

  /**
   Free takes no process: when two processes hold the same virtual address, freeing it unmaps
   the page of the one that mapped it last, whoever asked. A second call, for the other's page,
   panics.
   */
  method FreeTakesTheLastMapped() returns (a: MemoryAllocator, v: nat, panics: bool)
    ensures a.Valid() && Key(1, v) in a.pageTable && Key(2, v) !in a.pageTable && panics
  {
    hide Regions, Owners, FreeLists, Inverse, Partition, Entries, VAddrOf, NewPages, IsPageOf,
         MemoryAllocator.Pool, MemoryAllocator.Room;
    a := new MemoryAllocator(4096);
    a.RegisterDevice(0, false, [], 8192);
    TwoPages(a);
    v := a.AllocatePages(1, 1, 0, false);
    VAddrStep(v, 4096, 0);
    var w := a.AllocatePages(1, 2, 0, false);
    VAddrStep(w, 4096, 0);
    assert Key(1, VAddrOf(v, 4096, 0)) in a.pageTable && Key(2, VAddrOf(w, 4096, 0)) in a.pageTable;
    assert VAddrOf(w, 4096, 0) in a.vAddrToPageMapping && a.vAddrToPageMapping[VAddrOf(w, 4096, 0)].PID == 2;
    panics := a.Free(v);
    panics := a.Free(v);
  }

  lemma TwoPages(a: MemoryAllocator)
    requires a.Valid() && a.pageSize == 4096 && 0 in a.devices && !a.devices[0].unified
    requires a.devices[0].mem.initialAddress == 4096 && a.devices[0].mem.storageSize == 8192
    requires a.free == NewPages(a.devices[0].mem, 4096)
    ensures |a.Room(0)| == 2
  {
    var m := a.devices[0].mem;
    assert IsPageOf(4096, m, 4096) && IsPageOf(8192, m, 4096);
    assert a.Room(0) == {4096, 8192};
  }

  lemma InsertInverse(pageTable: map<Key, Page>, at: map<nat, Key>, key: Key, page: Page)
    requires Inverse(pageTable, at) && key !in pageTable && page.PAddr !in at
    ensures Inverse(pageTable[key := page], at[page.PAddr := key])
  {}

  lemma UpdateInverse(pageTable: map<Key, Page>, at: map<nat, Key>, key: Key, page: Page)
    requires Inverse(pageTable, at) && key in pageTable && page.PAddr !in at
    ensures pageTable[key].PAddr in at
    ensures Inverse(pageTable[key := page], (at - {pageTable[key].PAddr})[page.PAddr := key])
  {}

  lemma RemoveInverse(pageTable: map<Key, Page>, at: map<nat, Key>, key: Key)
    requires Inverse(pageTable, at) && key in pageTable
    ensures pageTable[key].PAddr in at
    ensures Inverse(pageTable - {key}, at - {pageTable[key].PAddr})
  {}

  /** The pages of a newly registered device. */
  ghost function NewPages(m: MemState, pageSize: nat): set<nat>
    requires pageSize > 0
  {
    set a: nat | m.initialAddress <= a < m.initialAddress + m.storageSize && IsPageOf(a, m, pageSize)
  }

  lemma AllPages(avail: seq<nat>, m: MemState, pageSize: nat)
    requires pageSize > 0
    requires forall a: nat :: a in avail <==> IsPageOf(a, MemState(m.initialAddress, m.storageSize, []), pageSize)
    ensures forall a: nat :: a in avail <==> a in NewPages(m, pageSize)
  {}

  ghost function NewOwner(owner: map<nat, int>, id: int, added: set<nat>): map<nat, int> {
    map a | a in owner.Keys + added :: if a in added then id else owner[a]
  }

  /** A new region lies above all others. */
  lemma NewRegion(devices: map<int, Device>, total: nat, id: int, dev: Device)
    requires Regions(devices, total) && id !in devices
    requires dev.mem.initialAddress == total && dev.nextActualGPUIndex == 0
    requires dev.unified ==> dev.actualGPUs != [] && forall g | g in dev.actualGPUs ::
             g in devices && !devices[g].unified
    ensures Regions(devices[id := dev], total + dev.mem.storageSize)
  {
    var after := devices[id := dev];
    forall d, i | d in after && after[d].unified && 0 <= i < |after[d].actualGPUs|
      ensures after[d].actualGPUs[i] in after && !after[after[d].actualGPUs[i]].unified
    {
      var g := after[d].actualGPUs[i];
      assert d == id ==> g in dev.actualGPUs;
      assert d != id ==> devices[d].actualGPUs[i] in devices;
      assert g in devices && !devices[g].unified && after[g] == devices[g];
    }
  }

  lemma NewPartition(owner: map<nat, int>, id: int, added: set<nat>, free: set<nat>, mapped: set<nat>, lost: set<nat>)
    requires Partition(owner.Keys, free, mapped, lost, {}) && added !! owner.Keys
    ensures Partition(NewOwner(owner, id, added).Keys, free + added, mapped, lost, {})
  {
    assert NewOwner(owner, id, added).Keys == owner.Keys + added;
  }

  lemma NewOwners(devices: map<int, Device>, total: nat, pageSize: nat, owner: map<nat, int>, id: int, dev: Device)
    requires pageSize > 0 && Regions(devices, total) && Owners(devices, pageSize, owner) && id !in devices
    requires dev.mem.initialAddress == total
    ensures NewPages(dev.mem, pageSize) !! owner.Keys
    ensures Owners(devices[id := dev], pageSize, NewOwner(owner, id, NewPages(dev.mem, pageSize)))
  {
    forall a | a in owner ensures a < total {
      var d := owner[a];
      assert d in devices && IsPageOf(a, devices[d].mem, pageSize);
      assert devices[d].mem.initialAddress + devices[d].mem.storageSize <= total;
    }
  }

  lemma NewLists(devices: map<int, Device>, pageSize: nat, owner: map<nat, int>, free: set<nat>, id: int, dev: Device)
    requires pageSize > 0 && id !in devices && FreeLists(devices, owner, free)
    requires Distinct(dev.mem.availablePAddrs)
    requires forall a: nat :: a in dev.mem.availablePAddrs <==> a in NewPages(dev.mem, pageSize)
    requires NewPages(dev.mem, pageSize) !! owner.Keys
    ensures FreeLists(devices[id := dev], NewOwner(owner, id, NewPages(dev.mem, pageSize)),
            free + NewPages(dev.mem, pageSize))
  {
    hide NewPages;
    var after, added := devices[id := dev], NewPages(dev.mem, pageSize);
    forall d, i | d in after && 0 <= i < |after[d].mem.availablePAddrs|
      ensures var a := after[d].mem.availablePAddrs[i];
              a in free + added && a in NewOwner(owner, id, added) && NewOwner(owner, id, added)[a] == d
    {
      if d == id { assert dev.mem.availablePAddrs[i] in dev.mem.availablePAddrs; }
    }
  }

  /** The address of the i-th page from `first` on. */
  function VAddrOf(first: nat, pageSize: nat, i: nat): nat {
    first + i * pageSize
  }

  lemma VAddrStep(first: nat, pageSize: nat, i: nat)
    ensures VAddrOf(first, pageSize, i + 1) == VAddrOf(first, pageSize, i) + pageSize
            && VAddrOf(first, pageSize, 0) == first
  {}

  lemma NewProcess(pageTable: map<Key, Page>, index: map<nat, Page>, nextVAddr: map<PID, nat>, pageSize: nat, pid: PID)
    requires Entries(pageTable, index, nextVAddr, pageSize) && pid !in nextVAddr
    ensures Entries(pageTable, index, nextVAddr[pid := pageSize], pageSize)
  {}

  lemma FreshKey(pageTable: map<Key, Page>, index: map<nat, Page>, nextVAddr: map<PID, nat>, pageSize: nat, pid: PID,
                 vAddr: nat)
    requires Entries(pageTable, index, nextVAddr, pageSize) && pid in nextVAddr && nextVAddr[pid] == vAddr
             && pageSize > 0
    ensures Key(pid, vAddr) !in pageTable
  {}

  lemma NewEntry(pageTable: map<Key, Page>, index: map<nat, Page>, nextVAddr: map<PID, nat>, pageSize: nat, page: Page)
    requires Entries(pageTable, index, nextVAddr[page.PID := page.VAddr], pageSize) && page.PageSize == pageSize
    ensures Entries(pageTable[Key(page.PID, page.VAddr) := page], index[page.VAddr := page],
            nextVAddr[page.PID := page.VAddr + pageSize], pageSize)
  {}

  lemma UpdatedEntry(pageTable: map<Key, Page>, index: map<nat, Page>, nextVAddr: map<PID, nat>, pageSize: nat,
                     page: Page)
    requires Entries(pageTable, index, nextVAddr, pageSize) && page.PageSize == pageSize
    requires Key(page.PID, page.VAddr) in pageTable
    ensures Entries(pageTable[Key(page.PID, page.VAddr) := page], index[page.VAddr := page], nextVAddr, pageSize)
  {}

  lemma RemovedEntry(pageTable: map<Key, Page>, index: map<nat, Page>, nextVAddr: map<PID, nat>, pageSize: nat, v: nat)
    requires Entries(pageTable, index, nextVAddr, pageSize) && v in index && Key(index[v].PID, v) in pageTable
    ensures pageTable[Key(index[v].PID, v)].PAddr == index[v].PAddr
    ensures Entries(pageTable - {Key(index[v].PID, v)}, index, nextVAddr, pageSize)
  {}

  lemma OwnerDevice(devices: map<int, Device>, pageSize: nat, owner: map<nat, int>, a: nat)
    requires pageSize > 0 && Owners(devices, pageSize, owner) && a in owner
    ensures owner[a] in devices
  {}

  lemma RestOf(s: seq<nat>, i: nat)
    requires i < |s| && Distinct(s)
    ensures Elems(s[i..]) == Elems(s[i + 1..]) + {s[i]} && s[i] !in Elems(s[i + 1..])
  {
    assert s[i..] == [s[i]] + s[i + 1..];
  }

  lemma RestEmpty(s: seq<nat>)
    ensures Elems(s[|s|..]) == {}
  {}

  lemma ReturnMapped(pages: set<nat>, free: set<nat>, mapped: set<nat>, lost: set<nat>, a: nat)
    requires Partition(pages, free, mapped, lost, {}) && a in mapped
    ensures a in pages && a !in free && Partition(pages, free + {a}, mapped - {a}, lost, {})
  {}

  /** The device whose list allocateMultiplePages pops: a unified GPU takes all pages from one GPU. */
  function Source(devices: map<int, Device>, id: int): int
    requires id in devices
  {
    var d := devices[id];
    if d.unified && d.nextActualGPUIndex < |d.actualGPUs| then d.actualGPUs[d.nextActualGPUIndex] else id
  }

  function Spare(devices: map<int, Device>, id: int): seq<nat> {
    if id in devices && Source(devices, id) in devices then devices[Source(devices, id)].mem.availablePAddrs else []
  }

  lemma SameShapeChain(a: map<int, Device>, b: map<int, Device>, c: map<int, Device>)
    ensures SameShape(a, a) && (SameShape(a, b) && SameShape(b, c) ==> SameShape(a, c))
  {}

  lemma SameKindOf(a: map<int, Device>, b: map<int, Device>, id: int)
    requires SameShape(a, b) && id in a
    ensures id in b && a[id].unified == b[id].unified
  {}

  /** `n` new consecutive pages of a process, on pages of `room`, and nothing else changed. */
  ghost predicate Appended(before: map<Key, Page>, after: map<Key, Page>, pid: PID, first: nat, pageSize: nat,
                           room: set<nat>, owner: map<nat, int>, unified: bool, n: nat) {
    && (forall k | k in before :: k in after && after[k] == before[k])
    && (forall k | k in after && k !in before ::
          && (exists i: nat :: i < n && k == Key(pid, VAddrOf(first, pageSize, i)))
          && after[k].PAddr in room && after[k].Unified == unified
          && after[k].PAddr in owner && after[k].DeviceID == owner[after[k].PAddr])
    && (forall i: nat | i < n ::
          var k := Key(pid, VAddrOf(first, pageSize, i)); k in after && k !in before)
  }

  lemma NothingAppended(table: map<Key, Page>, pid: PID, first: nat, pageSize: nat, room: set<nat>,
                        owner: map<nat, int>, unified: bool)
    ensures Appended(table, table, pid, first, pageSize, room, owner, unified, 0)
  {}

  lemma AppendStep(before: map<Key, Page>, after: map<Key, Page>, pid: PID, first: nat, pageSize: nat,
                   room: set<nat>, owner: map<nat, int>, unified: bool, n: nat, page: Page)
    requires Appended(before, after, pid, first, pageSize, room, owner, unified, n)
    requires page.PAddr in owner && page.DeviceID == owner[page.PAddr]
    requires Key(pid, VAddrOf(first, pageSize, n)) !in after && page.PAddr in room && page.Unified == unified
    ensures Appended(before, after[Key(pid, VAddrOf(first, pageSize, n)) := page], pid, first, pageSize, room, owner,
            unified, n + 1)
  {
    hide VAddrOf;
  }

  lemma AppendedRange(before: map<Key, Page>, after: map<Key, Page>, pid: PID, first: nat, pageSize: nat,
                      room: set<nat>, owner: map<nat, int>, unified: bool, n: nat)
    requires Appended(before, after, pid, first, pageSize, room, owner, unified, n)
    ensures forall k | k in before :: k in after && after[k] == before[k]
    ensures forall k | k in after && k !in before ::
              && (exists i: nat :: i < n && k == Key(pid, VAddrOf(first, pageSize, i)))
              && after[k].PAddr in room && after[k].Unified == unified
              && after[k].PAddr in owner && after[k].DeviceID == owner[after[k].PAddr]
    ensures forall i: nat | i < n ::
              Key(pid, VAddrOf(first, pageSize, i)) in after && Key(pid, VAddrOf(first, pageSize, i)) !in before
  {
    hide VAddrOf;
  }

  /** The address-only index holds the pages of this process for `n` consecutive addresses. */
  ghost predicate LastMappedBy(index: map<nat, Page>, pid: PID, first: nat, pageSize: nat, n: nat) {
    forall i: nat | i < n ::
      VAddrOf(first, pageSize, i) in index && index[VAddrOf(first, pageSize, i)].PID == pid
  }

  lemma NothingMappedYet(index: map<nat, Page>, pid: PID, first: nat, pageSize: nat)
    ensures LastMappedBy(index, pid, first, pageSize, 0)
  {}

  lemma MappedStep(index: map<nat, Page>, pid: PID, first: nat, pageSize: nat, n: nat, page: Page)
    requires LastMappedBy(index, pid, first, pageSize, n) && page.PID == pid
    ensures LastMappedBy(index[VAddrOf(first, pageSize, n) := page], pid, first, pageSize, n + 1)
  {
    hide VAddrOf;
  }

  /** The first `i` of the pages moved to their new physical pages, and nothing else changed. */
  ghost predicate Remapped(before: map<Key, Page>, after: map<Key, Page>, pid: PID, vAddrs: seq<nat>, pAddrs: seq<nat>,
                           deviceID: int, pageSize: nat, i: nat)
    requires i <= |vAddrs| <= |pAddrs|
  {
    && after.Keys == before.Keys
    && (forall j: nat | j < |vAddrs| :: Key(pid, vAddrs[j]) in before)
    && (forall j: nat | j < i ::
          var k := Key(pid, vAddrs[j]);
          after[k] == Page(pid, vAddrs[j], pAddrs[j], pageSize, deviceID, false))
    && (forall k | k in after && !Among(k, pid, vAddrs, i) :: after[k] == before[k])
  }

  /** The physical pages that the first `n` of the virtual ones had. */
  ghost function Replaced(before: map<Key, Page>, pid: PID, vAddrs: seq<nat>, n: nat): set<nat>
    requires n <= |vAddrs| && forall j: nat | j < n :: Key(pid, vAddrs[j]) in before
  {
    set j: nat | j < n :: before[Key(pid, vAddrs[j])].PAddr
  }

  lemma OneMoreReplaced(before: map<Key, Page>, pid: PID, vAddrs: seq<nat>, n: nat)
    requires n < |vAddrs| && forall j: nat | j <= n :: Key(pid, vAddrs[j]) in before
    ensures Replaced(before, pid, vAddrs, n + 1)
            == Replaced(before, pid, vAddrs, n) + {before[Key(pid, vAddrs[n])].PAddr}
  {}

  ghost predicate Among(k: Key, pid: PID, vAddrs: seq<nat>, i: nat)
    requires i <= |vAddrs|
  {
    k.pid == pid && exists j: nat :: j < i && vAddrs[j] == k.vAddr
  }

  lemma NothingRemapped(table: map<Key, Page>, pid: PID, vAddrs: seq<nat>, pAddrs: seq<nat>, deviceID: int,
                        pageSize: nat)
    requires |vAddrs| <= |pAddrs| && forall j: nat | j < |vAddrs| :: Key(pid, vAddrs[j]) in table
    ensures Remapped(table, table, pid, vAddrs, pAddrs, deviceID, pageSize, 0) && Replaced(table, pid, vAddrs, 0) == {}
  {}

  lemma StillThere(before: map<Key, Page>, after: map<Key, Page>, pid: PID, vAddrs: seq<nat>, pAddrs: seq<nat>,
                   deviceID: int, pageSize: nat, i: nat)
    requires i < |vAddrs| <= |pAddrs| && Remapped(before, after, pid, vAddrs, pAddrs, deviceID, pageSize, i)
    ensures Key(pid, vAddrs[i]) in after && Key(pid, vAddrs[i]) in before
  {}

  lemma RemapStep(before: map<Key, Page>, after: map<Key, Page>, pid: PID, vAddrs: seq<nat>, pAddrs: seq<nat>,
                  deviceID: int, pageSize: nat, i: nat)
    requires i < |vAddrs| <= |pAddrs| && Remapped(before, after, pid, vAddrs, pAddrs, deviceID, pageSize, i)
    requires Key(pid, vAddrs[i]) in after && forall j, k | 0 <= j < k < |vAddrs| :: vAddrs[j] < vAddrs[k]
    ensures Remapped(before, after[Key(pid, vAddrs[i]) := Page(pid, vAddrs[i], pAddrs[i], pageSize, deviceID, false)],
            pid, vAddrs, pAddrs, deviceID, pageSize, i + 1)
    ensures after[Key(pid, vAddrs[i])] == before[Key(pid, vAddrs[i])]
  {
    var key := Key(pid, vAddrs[i]);
    assert !Among(key, pid, vAddrs, i) && after[key] == before[key];
    forall k | k in after && !Among(k, pid, vAddrs, i + 1) ensures k != key && after[k] == before[k] {
      assert !Among(k, pid, vAddrs, i);
    }
  }

  lemma RemappedRange(before: map<Key, Page>, after: map<Key, Page>, pid: PID, vAddrs: seq<nat>, pAddrs: seq<nat>,
                      deviceID: int, pageSize: nat, first: nat)
    requires |vAddrs| <= |pAddrs| && Remapped(before, after, pid, vAddrs, pAddrs, deviceID, pageSize, |vAddrs|)
    requires forall i: nat | i < |vAddrs| :: vAddrs[i] == VAddrOf(first, pageSize, i)
    ensures after.Keys == before.Keys
    ensures forall i: nat | i < |vAddrs| ::
              var k := Key(pid, VAddrOf(first, pageSize, i));
              && k in after && k in before && after[k].PAddr == pAddrs[i] && after[k].DeviceID == deviceID
              && !after[k].Unified
    ensures Replaced(before, pid, vAddrs, |vAddrs|)
            == set i: nat | i < |vAddrs| :: before[Key(pid, VAddrOf(first, pageSize, i))].PAddr
    ensures forall k | k in after && !(exists i: nat :: i < |vAddrs| && k == Key(pid, VAddrOf(first, pageSize, i))) ::
              after[k] == before[k]
  {
    hide VAddrOf;
    forall k | k in after && !(exists i: nat :: i < |vAddrs| && k == Key(pid, VAddrOf(first, pageSize, i)))
      ensures after[k] == before[k]
    {
      if Among(k, pid, vAddrs, |vAddrs|) {
        AmongRange(k, pid, vAddrs, first, pageSize);
        assert false;
      }
    }
  }

  lemma AmongRange(k: Key, pid: PID, vAddrs: seq<nat>, first: nat, pageSize: nat)
    requires Among(k, pid, vAddrs, |vAddrs|)
    requires forall i: nat | i < |vAddrs| :: vAddrs[i] == VAddrOf(first, pageSize, i)
    ensures exists i: nat :: i < |vAddrs| && k == Key(pid, VAddrOf(first, pageSize, i))
  {
    hide VAddrOf;
    var i :| 0 <= i < |vAddrs| && vAddrs[i] == k.vAddr;
    assert k == Key(pid, VAddrOf(first, pageSize, i));
  }

  /** The page a byte is on, counted from a page's start. */
  function PageIndex(o: nat, pageSize: nat): nat
    requires pageSize > 0
  {
    o / pageSize
  }

  /** How many pages a range of `byteSize` bytes from a page's start on touches. */
  function PageCount(byteSize: nat, pageSize: nat): nat
    requires pageSize > 0
  {
    if byteSize == 0 then 0 else PageIndex(byteSize - 1, pageSize) + 1
  }

  lemma AtLeastOnePage(byteSize: nat, pageSize: nat)
    requires pageSize > 0 && byteSize > 0
    ensures PageCount(byteSize, pageSize) == PageIndex(byteSize - 1, pageSize) + 1
  {}

  lemma PageOfByte(byteSize: nat, pageSize: nat, o: nat)
    requires pageSize > 0 && o < byteSize
    ensures PageIndex(o, pageSize) < PageCount(byteSize, pageSize)
  {
    Quotient(o, pageSize);
    Quotient(byteSize - 1, pageSize);
    if o / pageSize > (byteSize - 1) / pageSize { Times((byteSize - 1) / pageSize + 1, o / pageSize, pageSize); }
  }

  lemma ByteInPage(buffer: nat, byteSize: nat, pageSize: nat, o: nat)
    requires pageSize > 0 && o < byteSize
    ensures PageIndex(o, pageSize) < PageCount(byteSize, pageSize)
    ensures VAddrOf(buffer, pageSize, PageIndex(o, pageSize)) <= buffer + o < VAddrOf(buffer, pageSize,
            PageIndex(o, pageSize)) + pageSize
  {
    hide PageCount;
    PageOfByte(byteSize, pageSize, o);
    Quotient(o, pageSize);
  }

  lemma Pages(byteSize: nat, pageSize: nat, n: nat)
    requires pageSize > 0 && byteSize <= VAddrOf(0, pageSize, n) && (n > 0 ==> VAddrOf(0, pageSize, n - 1) < byteSize)
    ensures n == PageCount(byteSize, pageSize)
  {
    if n > 0 {
      assert n * pageSize == (n - 1) * pageSize + pageSize;
      DivUnique(byteSize - 1, pageSize, n - 1, byteSize - 1 - (n - 1) * pageSize);
    }
  }
}
