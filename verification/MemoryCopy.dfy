/**
 Copying byte strings between the host, the emulator and paged GPU memory:
 driver/memorycopyglobalstorage.go and emu/storageaccessor.go, without an address converter.

 The global storage is an array of bytes. The page loops are proved equal to copying one byte
 at a time through the page table; what the copies promise is then proved about that.
 */
module MemoryCopy {

  import opened Arithmetic
  import A = MemoryAllocator

  newtype byte = x: int | 0 <= x < 256

  type PageTable = map<A.Key, A.Page>

  /** alignToPage */
  function Align(pageSize: nat, vAddr: nat): (r: nat)
    requires pageSize > 0
    ensures r <= vAddr < r + pageSize
  {
    Quotient(vAddr, pageSize);
    assert vAddr / pageSize * pageSize == vAddr - vAddr % pageSize;
    vAddr / pageSize * pageSize
  }

  /** Addresses up to the end of the page are on the same page. */
  lemma SamePage(pageSize: nat, v: nat, w: nat)
    requires pageSize > 0 && Align(pageSize, v) <= w < Align(pageSize, v) + pageSize
    ensures Align(pageSize, w) == Align(pageSize, v)
  {
    SameQuotient(w, pageSize, v / pageSize);
  }

  /** Every entry is filed under its own key, has the size of a page and lies inside the storage. */
  ghost predicate WellFormed(table: PageTable, pageSize: nat, storageSize: nat) {
    && pageSize > 0
    && forall k | k in table ::
         && k == A.Key(table[k].PID, table[k].VAddr) && table[k].PageSize == pageSize
         && table[k].PAddr + pageSize <= storageSize
  }

  predicate Mapped(table: PageTable, pageSize: nat, pid: A.PID, vAddr: nat)
    requires pageSize > 0
  {
    A.Key(pid, Align(pageSize, vAddr)) in table
  }

  /** Every byte of a virtual range is mapped. */
  ghost predicate AllMapped(table: PageTable, pageSize: nat, pid: A.PID, first: nat, n: nat)
    requires pageSize > 0
  {
    forall v: nat | first <= v < first + n :: Mapped(table, pageSize, pid, v)
  }

  /** The physical address of a virtual one. */
  function Translate(table: PageTable, pageSize: nat, pid: A.PID, vAddr: nat): nat
    requires pageSize > 0 && Mapped(table, pageSize, pid, vAddr)
  {
    table[A.Key(pid, Align(pageSize, vAddr))].PAddr + (vAddr - Align(pageSize, vAddr))
  }

  lemma Inside(table: PageTable, pageSize: nat, storageSize: nat, pid: A.PID, vAddr: nat)
    requires WellFormed(table, pageSize, storageSize) && Mapped(table, pageSize, pid, vAddr)
    ensures Translate(table, pageSize, pid, vAddr) < storageSize
  {}

  /** From any address to the end of its page, translation adds offsets. */
  lemma AlongPage(table: PageTable, pageSize: nat, pid: A.PID, v: nat, i: nat)
    requires pageSize > 0 && Mapped(table, pageSize, pid, v) && v + i < Align(pageSize, v) + pageSize
    ensures Mapped(table, pageSize, pid, v + i)
    ensures Translate(table, pageSize, pid, v + i) == Translate(table, pageSize, pid, v) + i
  {
    SamePage(pageSize, v, v + i);
    hide Align;
  }

  /** When no two entries share a byte, no two virtual bytes do. */
  lemma TranslateInjective(table: PageTable, pageSize: nat, p: A.PID, v: nat, q: A.PID, w: nat)
    requires pageSize > 0 && A.BytesApart(table, pageSize)
    requires Mapped(table, pageSize, p, v) && Mapped(table, pageSize, q, w)
    requires Translate(table, pageSize, p, v) == Translate(table, pageSize, q, w)
    ensures p == q && v == w
  {
    hide Align;
    var j, k := A.Key(p, Align(pageSize, v)), A.Key(q, Align(pageSize, w));
    assert j == k;
  }

  /** A valid allocator of whole pages gives page tables that these copies are made for. */
  lemma AllocatorTables(a: A.MemoryAllocator)
    requires a.Valid() && forall d | d in a.devices :: A.WholePages(a.devices[d].mem, a.pageSize)
    ensures WellFormed(a.pageTable, a.pageSize, a.totalStorageByteSize) && A.BytesApart(a.pageTable, a.pageSize)
  {
    A.NoSharedByte(a);
    A.InsideStorage(a);
  }

  /** Storage.Write of akita's memory, as a value. */
  function Replace(mem: seq<byte>, at: nat, data: seq<byte>): (r: seq<byte>)
    requires at + |data| <= |mem|
    ensures |r| == |mem|
  {
    mem[..at] + data + mem[at + |data|..]
  }

  lemma ReplaceStep(mem: seq<byte>, at: nat, data: seq<byte>, n: nat)
    requires n < |data| && at + |data| <= |mem|
    ensures Replace(mem, at, data[..n + 1]) == Replace(mem, at, data[..n])[at + n := data[n]]
  {}

  lemma ReplaceMore(mem: seq<byte>, at: nat, data: seq<byte>, n: nat, k: nat)
    requires n + k <= |data| && at + |data| <= |mem|
    ensures Replace(Replace(mem, at, data[..n]), at + n, data[n..n + k]) == Replace(mem, at, data[..n + k])
  {
    assert data[..n + k] == data[..n] + data[n..n + k];
  }

  method StorageWrite(storage: array<byte>, at: nat, data: seq<byte>)
    requires at + |data| <= storage.Length
    modifies storage
    ensures storage[..] == Replace(old(storage[..]), at, data)
  {
    forall i | 0 <= i < |data| {
      storage[at + i] := data[i];
    }
  }

  /** Memory after the first `n` bytes of `data` are stored one by one from `dst` on. */
  ghost function Written(mem: seq<byte>, table: PageTable, pageSize: nat, pid: A.PID, dst: nat, data: seq<byte>,
                         n: nat): (r: seq<byte>)
    requires WellFormed(table, pageSize, |mem|) && AllMapped(table, pageSize, pid, dst, |data|) && n <= |data|
    ensures |r| == |mem|
  {
    if n == 0 then mem
    else
      assert Mapped(table, pageSize, pid, dst + (n - 1));
      Inside(table, pageSize, |mem|, pid, dst + (n - 1));
      Written(mem, table, pageSize, pid, dst, data,
        n - 1)[Translate(table, pageSize, pid, dst + (n - 1)) := data[n - 1]]
  }

  /** The `n` bytes of a process from `src` on. */
  ghost function Fetched(mem: seq<byte>, table: PageTable, pageSize: nat, pid: A.PID, src: nat, n: nat): (r: seq<byte>)
    requires WellFormed(table, pageSize, |mem|) && AllMapped(table, pageSize, pid, src, n)
    ensures |r| == n
  {
    if n == 0 then []
    else
      assert Mapped(table, pageSize, pid, src + (n - 1));
      Inside(table, pageSize, |mem|, pid, src + (n - 1));
      Fetched(mem, table, pageSize, pid, src, n - 1) + [mem[Translate(table, pageSize, pid, src + (n - 1))]]
  }

  lemma {:induction false} FetchedAt(mem: seq<byte>, table: PageTable, pageSize: nat, pid: A.PID, src: nat, n: nat,
                                     i: nat)
    requires WellFormed(table, pageSize, |mem|) && AllMapped(table, pageSize, pid, src, n) && i < n
    ensures Mapped(table, pageSize, pid, src + i) && Translate(table, pageSize, pid, src + i) < |mem|
    ensures Fetched(mem, table, pageSize, pid, src, n)[i] == mem[Translate(table, pageSize, pid, src + i)]
  {
    hide Translate, Mapped;
    if i < n - 1 {
      FetchedAt(mem, table, pageSize, pid, src, n - 1, i);
    } else {
      Inside(table, pageSize, |mem|, pid, src + i);
    }
  }

  /** One piece of a page loop stores `k` bytes at once: the same as `k` single steps. */
  lemma {:induction false} WrittenPiece(mem: seq<byte>, table: PageTable, pageSize: nat, pid: A.PID, dst: nat,
                                        data: seq<byte>, n: nat, k: nat)
    requires WellFormed(table, pageSize, |mem|) && AllMapped(table, pageSize, pid, dst, |data|)
    requires n < n + k <= |data| && dst + n + k <= Align(pageSize, dst + n) + pageSize
    ensures Mapped(table, pageSize, pid, dst + n) && Translate(table, pageSize, pid, dst + n) + k <= |mem|
    ensures Written(mem, table, pageSize, pid, dst, data, n + k)
            == Replace(Written(mem, table, pageSize, pid, dst, data, n), Translate(table, pageSize, pid, dst + n),
              data[n..n + k])
    decreases k
  {
    hide Align, Translate, Mapped, Replace;
    var before := Written(mem, table, pageSize, pid, dst, data, n);
    assert Mapped(table, pageSize, pid, dst + n);
    var p := Translate(table, pageSize, pid, dst + n);
    AlongPage(table, pageSize, pid, dst + n, k - 1);
    assert dst + n + (k - 1) == dst + (n + k - 1);
    Inside(table, pageSize, |mem|, pid, dst + (n + k - 1));
    assert data[n..n + k][..k - 1] == data[n..n + k - 1] && data[n..n + k][..k] == data[n..n + k];
    ReplaceStep(before, p, data[n..n + k], k - 1);
    if k == 1 {
      ReplaceNothing(before, p);
      assert data[n..n + k - 1] == [];
    } else {
      WrittenPiece(mem, table, pageSize, pid, dst, data, n, k - 1);
    }
  }

  lemma ReplaceNothing(mem: seq<byte>, at: nat)
    requires at <= |mem|
    ensures Replace(mem, at, []) == mem
  {}

  lemma {:induction false} FetchedPiece(mem: seq<byte>, table: PageTable, pageSize: nat, pid: A.PID, src: nat, n: nat,
                                        k: nat, total: nat)
    requires WellFormed(table, pageSize, |mem|) && AllMapped(table, pageSize, pid, src, total)
    requires n < n + k <= total && src + n + k <= Align(pageSize, src + n) + pageSize
    ensures AllMapped(table, pageSize, pid, src, n) && AllMapped(table, pageSize, pid, src, n + k)
    ensures Mapped(table, pageSize, pid, src + n) && Translate(table, pageSize, pid, src + n) + k <= |mem|
    ensures Fetched(mem, table, pageSize, pid, src, n + k)
            == Fetched(mem, table, pageSize, pid, src, n) + mem[Translate(table, pageSize, pid, src + n)..][..k]
    decreases k
  {
    hide Align, Translate, Mapped;
    assert Mapped(table, pageSize, pid, src + n);
    AlongPage(table, pageSize, pid, src + n, k - 1);
    assert src + n + (k - 1) == src + (n + k - 1);
    Inside(table, pageSize, |mem|, pid, src + (n + k - 1));
    if k > 1 {
      FetchedPiece(mem, table, pageSize, pid, src, n, k - 1, total);
    }
  }

  /** processMemCopyH2DCommand */
  method MemCopyH2D(storage: array<byte>, table: PageTable, pageSize: nat, pid: A.PID, dst: nat, rawBytes: seq<byte>)
    requires WellFormed(table, pageSize, storage.Length) && AllMapped(table, pageSize, pid, dst, |rawBytes|)
    modifies storage
    ensures storage[..] == Written(old(storage[..]), table, pageSize, pid, dst, rawBytes, |rawBytes|)
  {
    hide Align, Translate, Mapped, Replace, WellFormed, AllMapped;
    Size(table, pageSize, storage.Length);
    var offset, addr, sizeLeft := 0, dst, |rawBytes|;
    ghost var before := storage[..];
    while sizeLeft > 0
      invariant 0 <= offset && 0 <= sizeLeft && offset + sizeLeft == |rawBytes| && addr == dst + offset
      invariant storage[..] == Written(before, table, pageSize, pid, dst, rawBytes, offset)
    {
      InRange(table, pageSize, storage.Length, pid, dst, |rawBytes|, offset);
      var page := table[A.Key(pid, Align(pageSize, addr))];
      PageAt(table, pageSize, storage.Length, pid, addr);
      var pAddr := page.PAddr + (addr - page.VAddr);
      var sizeLeftInPage := page.PageSize - (addr - page.VAddr);
      var sizeToCopy := sizeLeftInPage;
      if sizeLeft < sizeLeftInPage {
        sizeToCopy := sizeLeft;
      }
      WrittenPiece(before, table, pageSize, pid, dst, rawBytes, offset, sizeToCopy);
      StorageWrite(storage, pAddr, rawBytes[offset..offset + sizeToCopy]);
      sizeLeft := sizeLeft - sizeToCopy;
      addr := addr + sizeToCopy;
      offset := offset + sizeToCopy;
    }
  }

  lemma Size(table: PageTable, pageSize: nat, storageSize: nat)
    requires WellFormed(table, pageSize, storageSize)
    ensures pageSize > 0
  {}

  lemma InRange(table: PageTable, pageSize: nat, storageSize: nat, pid: A.PID, first: nat, n: nat, i: nat)
    requires WellFormed(table, pageSize, storageSize) && AllMapped(table, pageSize, pid, first, n) && i < n
    ensures Mapped(table, pageSize, pid, first + i) && A.Key(pid, Align(pageSize, first + i)) in table
  {}

  /** What Find returns for a mapped address. */
  lemma PageAt(table: PageTable, pageSize: nat, storageSize: nat, pid: A.PID, addr: nat)
    requires WellFormed(table, pageSize, storageSize) && Mapped(table, pageSize, pid, addr)
    ensures A.Key(pid, Align(pageSize, addr)) in table
    ensures var page := table[A.Key(pid, Align(pageSize, addr))];
            && page.VAddr == Align(pageSize, addr) && page.PageSize == pageSize
            && page.PAddr + (addr - page.VAddr) == Translate(table, pageSize, pid, addr)
  {
    hide Align;
  }

  /** processMemCopyD2HCommand */
  method MemCopyD2H(storage: array<byte>, table: PageTable, pageSize: nat, pid: A.PID, src: nat, size: nat)
    returns (rawData: seq<byte>)
    requires WellFormed(table, pageSize, storage.Length) && AllMapped(table, pageSize, pid, src, size)
    ensures rawData == Fetched(storage[..], table, pageSize, pid, src, size)
  {
    hide Align, Translate, Mapped, WellFormed, AllMapped;
    Size(table, pageSize, storage.Length);
    rawData := [];
    var offset, addr, sizeLeft := 0, src, size;
    NoneMapped(table, pageSize, pid, src);
    while sizeLeft > 0
      invariant 0 <= offset && 0 <= sizeLeft && offset + sizeLeft == size && addr == src + offset
                && AllMapped(table, pageSize, pid, src, offset)
      invariant rawData == Fetched(storage[..], table, pageSize, pid, src, offset)
    {
      InRange(table, pageSize, storage.Length, pid, src, size, offset);
      var page := table[A.Key(pid, Align(pageSize, addr))];
      PageAt(table, pageSize, storage.Length, pid, addr);
      var pAddr := page.PAddr + (addr - page.VAddr);
      var sizeLeftInPage := page.PageSize - (addr - page.VAddr);
      var sizeToCopy := sizeLeftInPage;
      if sizeLeft < sizeLeftInPage {
        sizeToCopy := sizeLeft;
      }
      FetchedPiece(storage[..], table, pageSize, pid, src, offset, sizeToCopy, size);
      assert storage[..][pAddr..][..sizeToCopy] == storage[pAddr..pAddr + sizeToCopy];
      var data := storage[pAddr..pAddr + sizeToCopy];
      rawData := rawData + data;
      sizeLeft := sizeLeft - sizeToCopy;
      addr := addr + sizeToCopy;
      offset := offset + sizeToCopy;
    }
  }

  lemma NoneMapped(table: PageTable, pageSize: nat, pid: A.PID, first: nat)
    requires pageSize > 0
    ensures AllMapped(table, pageSize, pid, first, 0)
  {}

  /** The start of the page after the one of an address. */
  function NextPageStart(pageSize: nat, vAddr: nat): (r: nat)
    requires pageSize > 0
    ensures r == Align(pageSize, vAddr) + pageSize
  {
    (vAddr / pageSize + 1) * pageSize
  }

  /** storageAccessor.Read */
  method Read(storage: array<byte>, table: PageTable, pageSize: nat, pid: A.PID, vAddr: nat, byteSize: nat)
    returns (data: seq<byte>)
    requires WellFormed(table, pageSize, storage.Length) && AllMapped(table, pageSize, pid, vAddr, byteSize)
    ensures data == Fetched(storage[..], table, pageSize, pid, vAddr, byteSize)
  {
    hide Align, Translate, Mapped, WellFormed, AllMapped, NextPageStart;
    Size(table, pageSize, storage.Length);
    data := [];
    var sizeLeft, offset := byteSize, 0;
    NoneMapped(table, pageSize, pid, vAddr);
    while sizeLeft > 0
      invariant 0 <= offset && 0 <= sizeLeft && offset + sizeLeft == byteSize
                && AllMapped(table, pageSize, pid, vAddr, offset)
      invariant data == Fetched(storage[..], table, pageSize, pid, vAddr, offset)
    {
      var currVAddr := vAddr + offset;
      var sizeInPageLeft := NextPageStart(pageSize, currVAddr) - currVAddr;
      var sizeToRead := sizeInPageLeft;
      if sizeToRead > sizeLeft {
        sizeToRead := sizeLeft;
      }
      InRange(table, pageSize, storage.Length, pid, vAddr, byteSize, offset);
      var page := table[A.Key(pid, Align(pageSize, currVAddr))];
      PageAt(table, pageSize, storage.Length, pid, currVAddr);
      var pAddr := page.PAddr + (currVAddr - page.VAddr);
      FetchedPiece(storage[..], table, pageSize, pid, vAddr, offset, sizeToRead, byteSize);
      assert storage[..][pAddr..][..sizeToRead] == storage[pAddr..pAddr + sizeToRead];
      var d := storage[pAddr..pAddr + sizeToRead];
      data := data + d;
      offset := offset + sizeToRead;
      sizeLeft := sizeLeft - sizeToRead;
    }
  }

  /**
   storageAccessor.Write. Every piece looks up the page of `vAddr`, not its own, so the bytes
   land one behind the other from the translation of `vAddr` on.
   */
  method Write(storage: array<byte>, table: PageTable, pageSize: nat, pid: A.PID, vAddr: nat, data: seq<byte>)
    requires WellFormed(table, pageSize, storage.Length) && Mapped(table, pageSize, pid, vAddr)
    requires Translate(table, pageSize, pid, vAddr) + |data| <= storage.Length
    modifies storage
    ensures storage[..] == Replace(old(storage[..]), Translate(table, pageSize, pid, vAddr), data)
  {
    hide Align, Translate, Mapped, WellFormed, NextPageStart, Replace;
    Size(table, pageSize, storage.Length);
    ReplaceNothing(storage[..], Translate(table, pageSize, pid, vAddr));
    ghost var before, p := storage[..], Translate(table, pageSize, pid, vAddr);
    var sizeLeft, offset := |data|, 0;
    while sizeLeft > 0
      invariant 0 <= offset && 0 <= sizeLeft && offset + sizeLeft == |data|
      invariant storage[..] == Replace(before, p, data[..offset])
    {
      var currVAddr := vAddr + offset;
      var sizeInPageLeft := NextPageStart(pageSize, currVAddr) - currVAddr;
      var sizeToWrite := sizeInPageLeft;
      if sizeToWrite > sizeLeft {
        sizeToWrite := sizeLeft;
      }
      PageAt(table, pageSize, storage.Length, pid, vAddr);
      var page := table[A.Key(pid, Align(pageSize, vAddr))];
      var pAddr := page.PAddr + (currVAddr - page.VAddr);
      StorageWrite(storage, pAddr, data[offset..offset + sizeToWrite]);
      ReplaceMore(before, p, data, offset, sizeToWrite);
      offset := offset + sizeToWrite;
      sizeLeft := sizeLeft - sizeToWrite;
    }
    assert data[..|data|] == data;
  }

  /** What a copy to the device does to any mapped byte of any process. */
  lemma {:induction false} WrittenByte(mem: seq<byte>, table: PageTable, pageSize: nat, pid: A.PID, dst: nat,
                                       data: seq<byte>, n: nat,
                                       q: A.PID, v: nat)
    requires WellFormed(table, pageSize, |mem|) && AllMapped(table, pageSize, pid, dst, |data|) && n <= |data|
    requires A.BytesApart(table, pageSize) && Mapped(table, pageSize, q, v)
    ensures Translate(table, pageSize, q, v) < |mem|
    ensures Written(mem, table, pageSize, pid, dst, data, n)[Translate(table, pageSize, q, v)]
            == if q == pid && dst <= v < dst + n then data[v - dst] else mem[Translate(table, pageSize, q, v)]
  {
    hide Translate, Mapped, A.BytesApart;
    Inside(table, pageSize, |mem|, q, v);
    if n > 0 {
      WrittenByte(mem, table, pageSize, pid, dst, data, n - 1, q, v);
      assert Mapped(table, pageSize, pid, dst + (n - 1));
      Inside(table, pageSize, |mem|, pid, dst + (n - 1));
      if Translate(table, pageSize, pid, dst + (n - 1)) == Translate(table, pageSize, q, v) {
        TranslateInjective(table, pageSize, pid, dst + (n - 1), q, v);
      }
    }
  }

  /** A copy to the device followed by a copy, or an emulator read, of the same range gives the bytes back. */
  lemma {:induction false} RoundTrip(mem: seq<byte>, table: PageTable, pageSize: nat, pid: A.PID, dst: nat,
                                     data: seq<byte>)
    requires WellFormed(table, pageSize, |mem|) && AllMapped(table, pageSize, pid, dst, |data|)
             && A.BytesApart(table, pageSize)
    ensures Fetched(Written(mem, table, pageSize, pid, dst, data, |data|), table, pageSize, pid, dst, |data|) == data
  {
    hide Translate, Mapped, A.BytesApart;
    var after := Written(mem, table, pageSize, pid, dst, data, |data|);
    forall i: nat | i < |data| ensures Fetched(after, table, pageSize, pid, dst, |data|)[i] == data[i] {
      FetchedAt(after, table, pageSize, pid, dst, |data|, i);
      WrittenByte(mem, table, pageSize, pid, dst, data, |data|, pid, dst + i);
    }
  }

  /** Two ranges that share no virtual byte do not disturb each other. */
  lemma {:induction false} OthersUnchanged(mem: seq<byte>, table: PageTable, pageSize: nat, pid: A.PID, dst: nat,
                                           data: seq<byte>,
                                           q: A.PID, src: nat, n: nat)
    requires WellFormed(table, pageSize, |mem|) && AllMapped(table, pageSize, pid, dst, |data|)
             && A.BytesApart(table, pageSize)
    requires AllMapped(table, pageSize, q, src, n)
    requires q != pid || src + n <= dst || dst + |data| <= src
    ensures Fetched(Written(mem, table, pageSize, pid, dst, data, |data|), table, pageSize, q, src, n)
            == Fetched(mem, table, pageSize, q, src, n)
  {
    hide Translate, Mapped, A.BytesApart;
    var after := Written(mem, table, pageSize, pid, dst, data, |data|);
    forall i: nat | i < n
      ensures Fetched(after, table, pageSize, q, src, n)[i] == Fetched(mem, table, pageSize, q, src, n)[i]
    {
      FetchedAt(after, table, pageSize, q, src, n, i);
      FetchedAt(mem, table, pageSize, q, src, n, i);
      WrittenByte(mem, table, pageSize, pid, dst, data, |data|, q, src + i);
    }
  }

  /** The pages of a range lie one behind the other in physical memory too. */
  ghost predicate Contiguous(table: PageTable, pageSize: nat, pid: A.PID, first: nat, n: nat)
    requires pageSize > 0 && Mapped(table, pageSize, pid, first) && AllMapped(table, pageSize, pid, first, n)
  {
    forall i: nat | i < n :: PhysicalStep(table, pageSize, pid, first, i)
      == Align(pageSize, first + i) - Align(pageSize, first)
  }

  function PhysicalStep(table: PageTable, pageSize: nat, pid: A.PID, first: nat, i: nat): int
    requires pageSize > 0 && Mapped(table, pageSize, pid, first) && Mapped(table, pageSize, pid, first + i)
  {
    table[A.Key(pid, Align(pageSize, first + i))].PAddr - table[A.Key(pid, Align(pageSize, first))].PAddr
  }

  /** An emulator write reads back as written, whatever the bytes, exactly when its pages are contiguous. */
  lemma {:induction false} EmulatorWrite(table: PageTable, pageSize: nat, storageSize: nat, pid: A.PID, v: nat, n: nat)
    requires WellFormed(table, pageSize, storageSize) && Mapped(table, pageSize, pid, v)
             && AllMapped(table, pageSize, pid, v, n)
    requires Translate(table, pageSize, pid, v) + n <= storageSize
    ensures (forall mem: seq<byte>, data: seq<byte> | |mem| == storageSize && |data| == n ::
               ReadsBack(mem, table, pageSize, pid, v, data))
            <==> Contiguous(table, pageSize, pid, v, n)
  {
    hide Mapped, Align, Replace;
    if Contiguous(table, pageSize, pid, v, n) {
      forall mem: seq<byte>, data: seq<byte> | |mem| == storageSize && |data| == n
        ensures ReadsBack(mem, table, pageSize, pid, v, data)
      {
        WriteWorks(mem, table, pageSize, pid, v, data);
      }
    } else {
      var i: nat :| i < n && PhysicalStep(table, pageSize, pid, v, i) != Align(pageSize, v + i) - Align(pageSize, v);
      WriteFails(table, pageSize, storageSize, pid, v, n, i);
    }
  }

  ghost predicate ReadsBack(mem: seq<byte>, table: PageTable, pageSize: nat, pid: A.PID, v: nat, data: seq<byte>)
    requires WellFormed(table, pageSize, |mem|) && Mapped(table, pageSize, pid, v)
             && AllMapped(table, pageSize, pid, v, |data|)
    requires Translate(table, pageSize, pid, v) + |data| <= |mem|
  {
    Fetched(Replace(mem, Translate(table, pageSize, pid, v), data), table, pageSize, pid, v, |data|) == data
  }

  lemma WriteWorks(mem: seq<byte>, table: PageTable, pageSize: nat, pid: A.PID, v: nat, data: seq<byte>)
    requires WellFormed(table, pageSize, |mem|) && Mapped(table, pageSize, pid, v)
             && AllMapped(table, pageSize, pid, v, |data|)
    requires Translate(table, pageSize, pid, v) + |data| <= |mem| && Contiguous(table, pageSize, pid, v, |data|)
    ensures ReadsBack(mem, table, pageSize, pid, v, data)
  {
    hide Mapped, Align;
    var after := Replace(mem, Translate(table, pageSize, pid, v), data);
    forall i: nat | i < |data| ensures Fetched(after, table, pageSize, pid, v, |data|)[i] == data[i] {
      FetchedAt(after, table, pageSize, pid, v, |data|, i);
      assert PhysicalStep(table, pageSize, pid, v, i) == Align(pageSize, v + i) - Align(pageSize, v);
    }
  }

  /** Where the pages are not contiguous, some byte reads back as something else. */
  lemma WriteFails(table: PageTable, pageSize: nat, storageSize: nat, pid: A.PID, v: nat, n: nat, i: nat)
    requires WellFormed(table, pageSize, storageSize) && Mapped(table, pageSize, pid, v)
             && AllMapped(table, pageSize, pid, v, n)
    requires Translate(table, pageSize, pid, v) + n <= storageSize && i < n
    requires PhysicalStep(table, pageSize, pid, v, i) != Align(pageSize, v + i) - Align(pageSize, v)
    ensures exists mem: seq<byte>, data: seq<byte> ::
              |mem| == storageSize && |data| == n && !ReadsBack(mem, table, pageSize, pid, v, data)
  {
    hide Mapped, Align, Replace, Fetched;
    var p := Translate(table, pageSize, pid, v);
    var mem, data := OneByte(storageSize, p, n, i);
    FetchedAt(Replace(mem, p, data), table, pageSize, pid, v, n, i);
  }

  /** Zeros, but for byte `i` of the data. */
  lemma OneByte(storageSize: nat, p: nat, n: nat, i: nat) returns (mem: seq<byte>, data: seq<byte>)
    requires p + n <= storageSize && i < n
    ensures |mem| == storageSize && |data| == n && data[i] == 1
    ensures forall a: nat | a < storageSize && a != p + i :: Replace(mem, p, data)[a] == 0
  {
    mem := seq(storageSize, j => 0);
    data := seq(n, j => if j == i then 1 else 0);
  }
}
