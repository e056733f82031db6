/**
 The page-migration handshake of driver/driver.go:542-841: drain the RDMA engines, shoot down
 the TLBs, move the pages one by one, restart the GPUs, restart the RDMA engines.

 The code steers itself by five response counters. It is proved to follow a machine with one
 phase at a time, for every order in which the GPUs answer and for any interleaving with the
 driver's other commands. GPUs and ports are the environment: a port may refuse a message for
 as long as it likes, and every command is answered once.
 */
module Migration {
  import opened Collections

  /** Kinds of command to a GPU; each has its own response. All that is not migration is one kind. */
  datatype Kind = RDMADrain | Shootdown | PageMigration | GPURestart | RDMARestart | Command

  datatype Request = Request(kind: Kind, gpu: nat, vAddrs: seq<nat>)

  /** PageMigrationReqToCP */
  datatype PageReq = PageReq(gpu: nat, toRead: nat, toWrite: nat)

  /** A page-table entry of the process whose pages migrate. */
  datatype Entry = Entry(PAddr: nat, DeviceID: nat, IsMigrating: bool)

  /** PageMigrationReqToDriver: who accesses the pages, and which pages each GPU (from 1) asks for. */
  datatype MigrationReq = MigrationReq(currAccessingGPUs: seq<nat>, gpuReqToVAddrMap: map<nat, seq<nat>>)

  /** The one thing the driver is waiting for, and how many responses of it are missing. */
  datatype Phase = Idle | Draining(left: nat) | ShootingDown(left: nat) | Migrating(left: nat)
                 | RestartingGPUs(left: nat) | RestartingRDMAs(left: nat)

  /** How many GPUs, accessing GPUs and pages a migration involves. */
  datatype Sizes = Sizes(gpus: nat, accessing: nat, pages: nat)

  function Left(p: Phase): nat {
    if p.Idle? then 0 else p.left
  }

  /** The response that a phase waits for. */
  function Awaits(p: Phase): Kind
    requires !p.Idle?
  {
    match p
    case Draining(_) => RDMADrain
    case ShootingDown(_) => Shootdown
    case Migrating(_) => PageMigration
    case RestartingGPUs(_) => GPURestart
    case RestartingRDMAs(_) => RDMARestart
  }

  /** One response later. */
  function Next(p: Phase, z: Sizes): Phase
    requires Left(p) > 0
  {
    match p
    case Draining(n) => if n > 1 then Draining(n - 1) else ShootingDown(z.accessing)
    case ShootingDown(n) => if n > 1 then ShootingDown(n - 1) else Migrating(z.pages)
    case Migrating(n) => if n > 1 then Migrating(n - 1) else RestartingGPUs(z.accessing)
    case RestartingGPUs(n) => if n > 1 then RestartingGPUs(n - 1) else RestartingRDMAs(z.gpus)
    case RestartingRDMAs(n) => if n > 1 then RestartingRDMAs(n - 1) else Idle
  }

  /** The responses from a phase to the end of the migration. */
  function Remaining(p: Phase, z: Sizes): nat {
    match p
    case Idle => 0
    case Draining(n) => n + 2 * z.accessing + z.pages + z.gpus
    case ShootingDown(n) => n + z.pages + z.accessing + z.gpus
    case Migrating(n) => n + z.accessing + z.gpus
    case RestartingGPUs(n) => n + z.gpus
    case RestartingRDMAs(n) => n
  }

  /** `k` responses later; None when a phase waits for a response that nobody owes. */
  function After(p: Phase, z: Sizes, k: nat): Option<Phase>
    decreases k
  {
    if k == 0 then Some(p)
    else if Left(p) == 0 then None
    else After(Next(p, z), z, k - 1)
  }

  /** Which response is which: the GPUs drain, the accessing ones shoot down, the pages move, and all restart. */
  lemma {:induction false} PhaseAfter(z: Sizes, k: nat)
    requires z.gpus > 0 && z.accessing > 0 && z.pages > 0
    ensures var drained, shot := z.gpus, z.gpus + z.accessing;
            var moved, restarted := shot + z.pages, shot + z.pages + z.accessing;
            var p := After(Draining(z.gpus), z, k);
            && (k < drained ==> p == Some(Draining(drained - k)))
            && (drained <= k < shot ==> p == Some(ShootingDown(shot - k)))
            && (shot <= k < moved ==> p == Some(Migrating(moved - k)))
            && (moved <= k < restarted ==> p == Some(RestartingGPUs(restarted - k)))
            && (restarted <= k < restarted + z.gpus ==> p == Some(RestartingRDMAs(restarted + z.gpus - k)))
            && (k == restarted + z.gpus ==> p == Some(Idle))
  {
    if k > 0 {
      PhaseAfter(z, k - 1);
      if After(Draining(z.gpus), z, k - 1).Some? { AfterStep(Draining(z.gpus), z, k - 1); }
    }
  }

  lemma {:induction false} AfterStep(p: Phase, z: Sizes, k: nat)
    requires After(p, z, k).Some?
    ensures var q := After(p, z, k).value; After(p, z, k + 1) == if Left(q) > 0 then Some(Next(q, z)) else None
    decreases k
  {
    if k > 0 { AfterStep(Next(p, z), z, k - 1); }
  }

  lemma {:induction false} ExactlyRemaining(p: Phase, z: Sizes, k: nat)
    requires z.gpus > 0 && z.accessing > 0 && z.pages > 0 && (p.Idle? || p.left > 0)
    ensures After(p, z, k) == Some(Idle) <==> k == Remaining(p, z)
    decreases k
  {
    if p.Idle? {
    } else if k > 0 {
      ExactlyRemaining(Next(p, z), z, k - 1);
    }
  }

  /** A phase without responses to wait for never ends. */
  lemma {:induction false} Stuck(p: Phase, z: Sizes, k: nat)
    requires !p.Idle? && (p.left == 0 || Blocked(p, z))
    ensures After(p, z, k) != Some(Idle)
    decreases k
  {
    if k > 0 && p.left > 0 {
      Stuck(Next(p, z), z, k - 1);
    }
  }

  /** A phase still ahead has nothing to wait for. */
  predicate Blocked(p: Phase, z: Sizes)
    requires !p.Idle?
  {
    match p
    case Draining(_) => z.accessing == 0 || z.pages == 0 || z.gpus == 0
    case ShootingDown(_) => z.pages == 0 || z.accessing == 0 || z.gpus == 0
    case Migrating(_) => z.accessing == 0 || z.gpus == 0
    case RestartingGPUs(_) => z.gpus == 0
    case RestartingRDMAs(_) => false
  }

  /**
   A migration ends if and only if there are GPUs, accessing GPUs and pages; then it ends after
   exactly 2 * GPUs + 2 * accessing GPUs + pages responses.
   */
  lemma {:induction false} MigrationEnds(z: Sizes)
    ensures (exists k: nat :: After(Draining(z.gpus), z, k) == Some(Idle))
            <==> z.gpus > 0 && z.accessing > 0 && z.pages > 0
    ensures forall k: nat :: After(Draining(z.gpus), z, k) == Some(Idle) ==> k == 2 * z.gpus + 2 * z.accessing + z.pages
  {
    if z.gpus > 0 && z.accessing > 0 && z.pages > 0 {
      ExactlyRemaining(Draining(z.gpus), z, 2 * z.gpus + 2 * z.accessing + z.pages);
      forall k: nat | After(Draining(z.gpus), z, k) == Some(Idle) ensures k == 2 * z.gpus + 2 * z.accessing + z.pages {
        ExactlyRemaining(Draining(z.gpus), z, k);
      }
    } else {
      forall k: nat ensures After(Draining(z.gpus), z, k) != Some(Idle) {
        Stuck(Draining(z.gpus), z, k);
      }
    }
  }

  /** How many requests of a kind are in a queue. */
  function Count(s: seq<Request>, kind: Kind): nat {
    if s == [] then 0 else Count(s[1..], kind) + if s[0].kind == kind then 1 else 0
  }

  lemma {:induction false} CountConcat(s: seq<Request>, t: seq<Request>, kind: Kind)
    ensures Count(s + t, kind) == Count(s, kind) + Count(t, kind)
  {
    if s == [] {
      assert s + t == t;
    } else {
      assert (s + t)[1..] == s[1..] + t;
      CountConcat(s[1..], t, kind);
    }
  }

  lemma {:induction false} CountAll(s: seq<Request>, kind: Kind, other: Kind)
    requires forall r | r in s :: r.kind == kind
    ensures Count(s, other) == if other == kind then |s| else 0
  {
    if s != [] {
      assert s[0] in s;
      CountAll(s[1..], kind, other);
    }
  }

  function CountKind(s: seq<Kind>, kind: Kind): nat {
    if s == [] then 0 else CountKind(s[1..], kind) + if s[0] == kind then 1 else 0
  }

  lemma {:induction false} CountKindEnd(s: seq<Kind>, k: Kind, kind: Kind)
    ensures CountKind(s + [k], kind) == CountKind(s, kind) + if k == kind then 1 else 0
  {
    if s == [] {
      assert s + [k] == [k];
    } else {
      assert (s + [k])[1..] == s[1..] + [k];
      CountKindEnd(s[1..], k, kind);
    }
  }

  /** The same command to each GPU. */
  function ToAll(kind: Kind, n: nat): (s: seq<Request>)
    ensures |s| == n && forall i | 0 <= i < n :: s[i] == Request(kind, i, [])
  {
    seq(n, i requires i >= 0 => Request(kind, i, []))
  }

  /** The same command to each accessing GPU; these are counted from 1. */
  function ToAccessing(kind: Kind, accessing: seq<nat>, vAddrs: seq<nat>): (s: seq<Request>)
    ensures |s| == |accessing|
    ensures forall i | 0 <= i < |accessing| && accessing[i] >= 1 :: s[i] == Request(kind, accessing[i] - 1, vAddrs)
    ensures forall r | r in s :: r.kind == kind
  {
    seq(|accessing|, i requires 0 <= i < |accessing| =>
      Request(kind, if accessing[i] == 0 then 0 else accessing[i] - 1, vAddrs))
  }

  /** The pages asked for by the GPUs 1 to `n`, in that order. */
  function PagesUpTo(pages: map<nat, seq<nat>>, n: nat): seq<nat> {
    if n == 0 then [] else PagesUpTo(pages, n - 1) + if n in pages then pages[n] else []
  }

  /** What the MMU may ask: the code indexes the GPUs and looks up the pages. */
  ghost predicate Askable(req: MigrationReq, gpus: nat, pageTable: map<nat, Entry>) {
    && (forall g | g in req.currAccessingGPUs :: 1 <= g <= gpus)
    && (forall g, v | 1 <= g <= gpus && Asks(req.gpuReqToVAddrMap, g, v) :: v in pageTable)
  }

  /** These are the pages that some GPU asks for. */
  lemma {:induction false} AskedPages(pages: map<nat, seq<nat>>, n: nat, v: nat)
    ensures v in PagesUpTo(pages, n) <==> exists g :: 1 <= g <= n && Asks(pages, g, v)
  {
    if n > 0 {
      AskedPages(pages, n - 1, v);
      if v in PagesUpTo(pages, n) && v !in PagesUpTo(pages, n - 1) { assert Asks(pages, n, v); }
    }
  }

  /** Taking one GPU's pages out. */
  lemma {:induction false} PagesWithout(pages: map<nat, seq<nat>>, g: nat, n: nat)
    requires g in pages
    ensures g > n || g == 0 ==> PagesUpTo(pages - {g}, n) == PagesUpTo(pages, n)
    ensures 1 <= g <= n ==> multiset(PagesUpTo(pages, n)) == multiset(PagesUpTo(pages - {g}, n)) + multiset(pages[g])
  {
    hide PagesUpTo;
    if n == 0 {
      NonePages(pages, g);
    } else {
      var less := pages - {g};
      PagesWithout(pages, g, n - 1);
      PagesStep(pages, n);
      PagesStep(less, n);
      if n != g && 1 <= g < n {
        Grow(PagesUpTo(pages, n - 1), PagesUpTo(less, n - 1), multiset(pages[g]), PagesOf(pages, n));
      }
    }
  }

  function PagesOf(pages: map<nat, seq<nat>>, g: nat): seq<nat> {
    if g in pages then pages[g] else []
  }

  lemma NonePages(pages: map<nat, seq<nat>>, g: nat)
    ensures PagesUpTo(pages, 0) == PagesUpTo(pages - {g}, 0) == []
  {}

  lemma PagesStep(pages: map<nat, seq<nat>>, n: nat)
    requires n > 0
    ensures PagesUpTo(pages, n) == PagesUpTo(pages, n - 1) + PagesOf(pages, n)
  {}

  lemma Grow(a: seq<nat>, b: seq<nat>, m: multiset<nat>, more: seq<nat>)
    requires multiset(a) == multiset(b) + m
    ensures multiset(a + more) == multiset(b + more) + m
  {}

  lemma {:induction false} OnlyRequesting(pages: map<nat, seq<nat>>, some: map<nat, seq<nat>>, n: nat)
    requires forall g | 1 <= g <= n :: (g in some <==> g in pages) && (g in some ==> some[g] == pages[g])
    ensures PagesUpTo(some, n) == PagesUpTo(pages, n)
  {
    if n > 0 {
      OnlyRequesting(pages, some, n - 1);
    }
  }

  lemma {:induction false} NoPages(n: nat)
    ensures PagesUpTo(map[], n) == []
  {
    if n > 0 {
      NoPages(n - 1);
    }
  }

  /**
   The page table after the first `n` page requests were prepared: request i moves the page
   `order[i]` to its new address, on the asking GPU.
   */
  ghost function Replay(before: map<nat, Entry>, order: seq<nat>, reqs: seq<PageReq>, n: nat): map<nat, Entry>
    requires n <= |order| && n <= |reqs|
  {
    if n == 0 then before
    else Replay(before, order, reqs, n - 1)[order[n - 1] := Entry(reqs[n - 1].toWrite, reqs[n - 1].gpu + 1, true)]
  }

  /** Every request reads the address its page has at that moment. */
  ghost predicate ReadsCurrent(before: map<nat, Entry>, order: seq<nat>, reqs: seq<PageReq>)
    requires |order| == |reqs|
  {
    forall i | 0 <= i < |order| ::
      && order[i] in Replay(before, order, reqs, i)
      && Replay(before, order, reqs, i)[order[i]].PAddr == reqs[i].toRead
  }

  /** The pages of the first `n` requests that are for GPU `g`, counted from 1. */
  ghost function PagesFor(order: seq<nat>, reqs: seq<PageReq>, g: nat, n: nat): seq<nat>
    requires n <= |order| && n <= |reqs|
  {
    if n == 0 then []
    else PagesFor(order, reqs, g, n - 1) + if reqs[n - 1].gpu + 1 == g then [order[n - 1]] else []
  }

  lemma {:induction false} PagesForPrefix(order: seq<nat>, reqs: seq<PageReq>, v: nat, r: PageReq, g: nat, n: nat)
    requires n <= |order| == |reqs|
    ensures PagesFor(order + [v], reqs + [r], g, n) == PagesFor(order, reqs, g, n)
  {
    if n > 0 { PagesForPrefix(order, reqs, v, r, g, n - 1); }
  }

  /** Each GPU but those still to come has requests for the pages it asks for, in its order, and for no others. */
  ghost predicate Served(order: seq<nat>, reqs: seq<PageReq>, asked: map<nat, seq<nat>>, gpus: nat, todo: set<nat>) {
    && |order| == |reqs|
    && forall g | 1 <= g <= gpus ::
         PagesFor(order, reqs, g, |order|) == if g in todo then [] else PagesOf(asked, g)
  }

  /** While GPU `g` is served, it has requests for its first `n` pages. */
  ghost predicate Serving(order: seq<nat>, reqs: seq<PageReq>, asked: map<nat, seq<nat>>, gpus: nat, todo: set<nat>,
                          g: nat, n: nat) {
    && |order| == |reqs| && n <= |PagesOf(asked, g)|
    && PagesFor(order, reqs, g, |order|) == PagesOf(asked, g)[..n]
    && forall h | 1 <= h <= gpus && h != g ::
         PagesFor(order, reqs, h, |order|) == if h in todo then [] else PagesOf(asked, h)
  }

  lemma NoneServed(asked: map<nat, seq<nat>>, gpus: nat, todo: set<nat>)
    requires forall g | 1 <= g <= gpus :: g in asked <==> g in todo
    ensures Served([], [], asked, gpus, todo)
  {}

  lemma ServingStep(order: seq<nat>, reqs: seq<PageReq>, asked: map<nat, seq<nat>>, gpus: nat, todo: set<nat>, g: nat,
                    n: nat, v: nat, r: PageReq)
    requires Serving(order, reqs, asked, gpus, todo, g, n) && n < |PagesOf(asked, g)| && PagesOf(asked, g)[n] == v
    requires r.gpu + 1 == g
    ensures Serving(order + [v], reqs + [r], asked, gpus, todo, g, n + 1)
  {
    hide PagesOf;
    forall h ensures PagesFor(order + [v], reqs + [r], h, |order|) == PagesFor(order, reqs, h, |order|) {
      PagesForPrefix(order, reqs, v, r, h, |order|);
    }
    assert PagesOf(asked, g)[..n + 1] == PagesOf(asked, g)[..n] + [v];
  }

  lemma ServingStarts(order: seq<nat>, reqs: seq<PageReq>, asked: map<nat, seq<nat>>, gpus: nat, todo: set<nat>, g: nat)
    requires Served(order, reqs, asked, gpus, todo) && 1 <= g <= gpus && g in todo
    ensures Serving(order, reqs, asked, gpus, todo, g, 0)
  {
    hide PagesFor;
  }

  lemma ServingEnds(order: seq<nat>, reqs: seq<PageReq>, asked: map<nat, seq<nat>>, gpus: nat, todo: set<nat>, g: nat)
    requires Serving(order, reqs, asked, gpus, todo, g, |PagesOf(asked, g)|)
    ensures Served(order, reqs, asked, gpus, todo - {g})
  {
    hide PagesFor;
    assert PagesOf(asked, g)[..|PagesOf(asked, g)|] == PagesOf(asked, g);
  }

  /** The pages asked for are moved to the GPUs that ask for them, for each GPU its own and in the order it asks. */
  ghost predicate Moved(before: map<nat, Entry>, after: map<nat, Entry>, order: seq<nat>, reqs: seq<PageReq>,
                        asked: map<nat, seq<nat>>, gpus: nat) {
    && |order| == |reqs| && after == Replay(before, order, reqs, |order|) && ReadsCurrent(before, order, reqs)
    && multiset(order) == multiset(PagesUpTo(asked, gpus)) && Served(order, reqs, asked, gpus, {})
    && forall i | 0 <= i < |order| :: reqs[i].gpu + 1 <= gpus && Asks(asked, reqs[i].gpu + 1, order[i])
  }

  predicate Asks(asked: map<nat, seq<nat>>, gpu: nat, vAddr: nat) {
    gpu in asked && vAddr in asked[gpu]
  }

  lemma {:induction false} ReplayMore(before: map<nat, Entry>, order: seq<nat>, reqs: seq<PageReq>, v: nat,
                                      r: PageReq, n: nat)
    requires n <= |order| && n <= |reqs|
    ensures Replay(before, order + [v], reqs + [r], n) == Replay(before, order, reqs, n)
  {
    if n > 0 {
      ReplayMore(before, order, reqs, v, r, n - 1);
    }
  }

  lemma ReplayStep(before: map<nat, Entry>, order: seq<nat>, reqs: seq<PageReq>, v: nat, r: PageReq)
    requires |order| == |reqs| && ReadsCurrent(before, order, reqs)
    requires v in Replay(before, order, reqs, |order|) && Replay(before, order, reqs, |order|)[v].PAddr == r.toRead
    ensures ReadsCurrent(before, order + [v], reqs + [r])
    ensures Replay(before, order + [v], reqs + [r], |order| + 1)
            == Replay(before, order, reqs, |order|)[v := Entry(r.toWrite, r.gpu + 1, true)]
  {
    hide Replay;
    forall i | 0 <= i <= |order| ensures Replay(before, order + [v], reqs + [r], i) == Replay(before, order, reqs, i) {
      ReplayMore(before, order, reqs, v, r, i);
    }
    ReplayOne(before, order + [v], reqs + [r], |order|);
  }

  lemma ReplayOne(before: map<nat, Entry>, order: seq<nat>, reqs: seq<PageReq>, n: nat)
    requires n < |order| && n < |reqs|
    ensures Replay(before, order, reqs, n + 1)
            == Replay(before, order, reqs, n)[order[n] := Entry(reqs[n].toWrite, reqs[n].gpu + 1, true)]
  {}

  /** What a migration does to the page table, entry by entry. */
  lemma {:induction false} MovedEntries(before: map<nat, Entry>, order: seq<nat>, reqs: seq<PageReq>, n: nat, v: nat)
    requires n <= |order| == |reqs| && v in before
    ensures v in Replay(before, order, reqs, n)
    ensures v !in order[..n] ==> Replay(before, order, reqs, n)[v] == before[v]
    ensures v in order[..n] ==>
              exists i :: 0 <= i < n && order[i] == v
                          && Replay(before, order, reqs, n)[v] == Entry(reqs[i].toWrite, reqs[i].gpu + 1, true)
  {
    if n > 0 {
      MovedEntries(before, order, reqs, n - 1, v);
      assert order[..n] == order[..n - 1] + [order[n - 1]];
    }
  }

  /** The bytes in physical memory once the first `n` requests are carried out, in the order they are queued. */
  ghost function Carried(content: map<nat, int>, reqs: seq<PageReq>, n: nat): map<nat, int>
    requires n <= |reqs|
  {
    if n == 0 then content
    else
      var c := Carried(content, reqs, n - 1);
      if reqs[n - 1].toRead in c then c[reqs[n - 1].toWrite := c[reqs[n - 1].toRead]] else c
  }

  /** New addresses are in use by no page and by no earlier request. */
  ghost predicate FreshAddresses(before: map<nat, Entry>, reqs: seq<PageReq>) {
    && (forall i, v | 0 <= i < |reqs| && v in before :: before[v].PAddr != reqs[i].toWrite)
    && (forall i, j | 0 <= i < j < |reqs| :: reqs[i].toWrite != reqs[j].toWrite)
  }

  lemma {:induction false} AddressOrigin(before: map<nat, Entry>, order: seq<nat>, reqs: seq<PageReq>, n: nat, v: nat)
    requires n < |order| == |reqs| && FreshAddresses(before, reqs) && ReadsCurrent(before, order, reqs) && v in before
    ensures v in Replay(before, order, reqs, n) && Replay(before, order, reqs, n)[v].PAddr != reqs[n].toWrite
  {
    MovedEntries(before, order, reqs, n, v);
  }

  /** After the migration every page, moved or not, holds under its new address what it held under its old one. */
  lemma {:induction false} ContentsFollow(before: map<nat, Entry>, order: seq<nat>, reqs: seq<PageReq>,
                                          content: map<nat, int>,
                                          n: nat, v: nat)
    requires n <= |order| == |reqs| && FreshAddresses(before, reqs) && ReadsCurrent(before, order, reqs)
    requires v in before && forall w | w in before :: before[w].PAddr in content
    requires forall w | w in order :: w in before
    ensures v in Replay(before, order, reqs, n)
    ensures var a := Replay(before, order, reqs, n)[v].PAddr;
            a in Carried(content, reqs, n) && Carried(content, reqs, n)[a] == content[before[v].PAddr]
  {
    hide Replay, Carried, FreshAddresses;
    if n == 0 {
      NothingCarried(before, order, reqs, content);
    } else {
      ContentsFollow(before, order, reqs, content, n - 1, v);
      AddressOrigin(before, order, reqs, n - 1, v);
      assert order[n - 1] in order;
      ContentsFollow(before, order, reqs, content, n - 1, order[n - 1]);
      ReplayOne(before, order, reqs, n - 1);
      CarriedOne(content, reqs, n - 1);
    }
  }

  lemma NothingCarried(before: map<nat, Entry>, order: seq<nat>, reqs: seq<PageReq>, content: map<nat, int>)
    ensures Replay(before, order, reqs, 0) == before && Carried(content, reqs, 0) == content
  {}

  lemma CarriedOne(content: map<nat, int>, reqs: seq<PageReq>, n: nat)
    requires n < |reqs|
    ensures var c := Carried(content, reqs, n);
            Carried(content, reqs, n + 1) == if reqs[n].toRead in c then c[reqs[n].toWrite := c[reqs[n].toRead]] else c
  {}

  /** The requests that a change of phase queues. */
  function NewRequests(p: Phase, q: Phase, req: Option<MigrationReq>, gpus: nat): seq<Request> {
    if req.None? then []
    else if p.Draining? && q.ShootingDown? then
      ToAccessing(Shootdown, req.value.currAccessingGPUs, PagesUpTo(req.value.gpuReqToVAddrMap, gpus))
    else if p.Migrating? && q.RestartingGPUs? then ToAccessing(GPURestart, req.value.currAccessingGPUs, [])
    else if p.RestartingGPUs? && q.RestartingRDMAs? then ToAll(RDMARestart, gpus)
    else []
  }

  function SizesOf(req: MigrationReq, gpus: nat): Sizes {
    Sizes(gpus, |req.currAccessingGPUs|, |PagesUpTo(req.gpuReqToVAddrMap, gpus)|)
  }

  /** The answers to the MMU: made so far, taken by the MMU's port, and overwritten before that. */
  datatype Ledger = Ledger(prepared: multiset<seq<nat>>, delivered: multiset<seq<nat>>, lost: multiset<seq<nat>>)

  function One(answer: Option<seq<nat>>): multiset<seq<nat>> {
    if answer.Some? then multiset{answer.value} else multiset{}
  }

  class Driver {
    const GPUs: nat
    var requestsToSend: seq<Request>
    var currentPageMigrationReq: Option<MigrationReq>
    var toSendToMMU: Option<seq<nat>> // the pages of a response
    var migrationReqToSendToCP: seq<PageReq>
    var isCurrentlyHandlingMigrationReq: bool
    var numRDMADrainACK: nat
    var numRDMARestartACK: nat
    var numShootDownACK: nat
    var numRestartACK: nat
    var numPagesMigratingACK: nat
    var isCurrentlyMigratingOnePage: bool
    var pageTable: map<nat, Entry>
    var answers: seq<Kind> // arrived at gpuPort
    ghost var atGPUs: multiset<Kind> // sent and not answered
    ghost var phase: Phase
    ghost var order: seq<nat> // the pages of the current migration, as they were prepared
    ghost var responses: nat // received since the current migration began
    ghost var ledger: Ledger // of the answers to the MMU

    /** All messages of a kind between the moment the driver makes the request and the moment it takes the response. */
    ghost function Open(kind: Kind): nat
      reads `requestsToSend, `atGPUs, `answers
    {
      Count(requestsToSend, kind) + atGPUs[kind] + CountKind(answers, kind)
    }

    ghost function Counter(kind: Kind): nat
      reads `numRDMADrainACK, `numShootDownACK, `isCurrentlyMigratingOnePage, `numRestartACK, `numRDMARestartACK
    {
      match kind
      case RDMADrain => numRDMADrainACK
      case Shootdown => numShootDownACK
      case PageMigration => if isCurrentlyMigratingOnePage then 1 else 0
      case GPURestart => numRestartACK
      case RDMARestart => numRDMARestartACK
      case Command => 0
    }

    /** The counters say which phase the driver is in. */
    ghost predicate Counting()
      reads `numRDMADrainACK, `numShootDownACK, `numPagesMigratingACK, `numRestartACK, `numRDMARestartACK
      reads `migrationReqToSendToCP, `isCurrentlyMigratingOnePage, `isCurrentlyHandlingMigrationReq
      reads `currentPageMigrationReq, `pageTable, `phase, `responses
    {
      && numRDMADrainACK == (if phase.Draining? then phase.left else 0)
      && numShootDownACK == (if phase.ShootingDown? then phase.left else 0)
      && numPagesMigratingACK == (if phase.Migrating? then phase.left else 0)
      && numRestartACK == (if phase.RestartingGPUs? then phase.left else 0)
      && numRDMARestartACK == (if phase.RestartingRDMAs? then phase.left else 0)
      && numPagesMigratingACK == |migrationReqToSendToCP| + (if isCurrentlyMigratingOnePage then 1 else 0)
      && isCurrentlyHandlingMigrationReq == !phase.Idle? == currentPageMigrationReq.Some?
      && (currentPageMigrationReq.Some? ==>
            var z := SizesOf(currentPageMigrationReq.value, GPUs);
            && Askable(currentPageMigrationReq.value, GPUs, pageTable)
            && responses + Remaining(phase, z) == 2 * z.gpus + 2 * z.accessing + z.pages)
    }

    /** As many messages of a kind are open as the counters say, but for a response in hand. */
    ghost predicate Matching(hand: Option<Kind>)
      reads `requestsToSend, `atGPUs, `answers
      reads `numRDMADrainACK, `numShootDownACK, `isCurrentlyMigratingOnePage, `numRestartACK, `numRDMARestartACK
    {
      forall kind: Kind | kind != Command :: Open(kind) + (if hand == Some(kind) then 1 else 0) == Counter(kind)
    }

    /** Every answer to the MMU is delivered, lost, or waiting to be sent. */
    ghost predicate Answering()
      reads `toSendToMMU, `ledger
    {
      ledger.prepared == ledger.delivered + ledger.lost + One(toSendToMMU)
    }

    ghost predicate Valid()
      reads this
    {
      Counting() && Matching(None) && Answering()
    }

    constructor (gpus: nat, pageTable: map<nat, Entry>)
      ensures Valid() && GPUs == gpus && phase == Idle && this.pageTable == pageTable && requestsToSend == []
              && answers == [] && ledger == Ledger(multiset{}, multiset{}, multiset{}) && atGPUs == multiset{}
      ensures toSendToMMU == None
    {
      GPUs := gpus;
      ledger := Ledger(multiset{}, multiset{}, multiset{});
      requestsToSend, migrationReqToSendToCP, answers, atGPUs := [], [], [], multiset{};
      currentPageMigrationReq, toSendToMMU := None, None;
      isCurrentlyHandlingMigrationReq, isCurrentlyMigratingOnePage := false, false;
      numRDMADrainACK, numRDMARestartACK, numShootDownACK, numRestartACK, numPagesMigratingACK := 0, 0, 0, 0, 0;
      this.pageTable := pageTable;
      phase, responses, order := Idle, 0, [];
    }

    /** At most one counter is not zero. */
    lemma OneCounter()
      requires Valid()
      ensures var c := [numRDMADrainACK, numShootDownACK, numPagesMigratingACK, numRestartACK, numRDMARestartACK];
              forall i, j | 0 <= i < j < 5 :: c[i] == 0 || c[j] == 0
    {}

    lemma NoRequestWhenIdle()
      requires Valid()
      ensures phase.Idle? ==> currentPageMigrationReq == None
    {}

    /** A response that arrives is one the phase waits for. */
    lemma ExpectedResponse()
      requires Valid() && answers != [] && answers[0] != Command
      ensures !phase.Idle? && phase.left > 0 && answers[0] == Awaits(phase)
    {
      assert Open(answers[0]) == Counter(answers[0]);
    }

    /** sendToGPUs, with a port that accepts: the head of the queue leaves. */
    method SendToGPUs(accepts: bool) returns (madeProgress: bool)
      requires Valid()
      modifies `requestsToSend, `atGPUs
      ensures Valid() && madeProgress == (accepts && old(requestsToSend) != [])
      ensures requestsToSend == if madeProgress then old(requestsToSend)[1..] else old(requestsToSend)
      ensures atGPUs == if madeProgress then old(atGPUs) + multiset{old(requestsToSend)[0].kind} else old(atGPUs)
    {
      hide Driver.Answering, Driver.Counting, CountKind;
      if requestsToSend == [] || !accepts {
        return false;
      }
      ghost var kind := requestsToSend[0].kind;
      assert forall k :: Open(k) == Count(requestsToSend, k) + atGPUs[k] + CountKind(answers, k);
      atGPUs := atGPUs + multiset{kind};
      requestsToSend := requestsToSend[1..];
      return true;
    }

    /** A GPU answers any command it has. */
    method Answer(kind: Kind)
      requires Valid() && kind in atGPUs
      modifies `answers, `atGPUs
      ensures Valid() && answers == old(answers) + [kind] && atGPUs == old(atGPUs) - multiset{kind}
    {
      hide Driver.Answering, Driver.Counting, CountKind, Count;
      forall k ensures CountKind(answers + [kind], k) == CountKind(answers, k) + if kind == k then 1 else 0 {
        CountKindEnd(answers, kind, k);
      }
      answers := answers + [kind];
      atGPUs := atGPUs - multiset{kind};
    }

    /** Other parts of the driver queue their own requests at any time. */
    method QueueCommand(gpu: nat)
      requires Valid()
      modifies `requestsToSend
      ensures Valid() && requestsToSend == old(requestsToSend) + [Request(Command, gpu, [])]
    {
      Queue([Request(Command, gpu, [])], Command);
      requestsToSend := requestsToSend + [Request(Command, gpu, [])];
    }

    /** Other threads map new pages of the process at any time. */
    method MapElsewhere(vAddr: nat, entry: Entry)
      requires Valid() && vAddr !in pageTable
      modifies `pageTable
      ensures Valid() && pageTable == old(pageTable)[vAddr := entry]
    {
      hide Driver.Matching, Driver.Answering, PagesUpTo;
      pageTable := pageTable[vAddr := entry];
    }

    /** What appending requests of one kind does to the counts. */
    lemma Queue(more: seq<Request>, kind: Kind)
      requires forall r | r in more :: r.kind == kind
      ensures forall k :: Count(requestsToSend + more, k) == Count(requestsToSend, k) + if k == kind then |more| else 0
    {
      forall k ensures Count(requestsToSend + more, k) == Count(requestsToSend, k) + if k == kind then |more| else 0 {
        CountConcat(requestsToSend, more, k);
        CountAll(more, kind, k);
      }
    }

    /** parseFromMMU: the next migration is accepted only when no other is under way. */
    method ParseFromMMU(req: Option<MigrationReq>) returns (madeProgress: bool)
      requires Valid() && (req.Some? ==> Askable(req.value, GPUs, pageTable))
      modifies this
      ensures Valid() && madeProgress == (old(phase).Idle? && req.Some?)
      ensures phase == if madeProgress then Draining(GPUs) else old(phase)
      ensures requestsToSend == old(requestsToSend) + if madeProgress then ToAll(RDMADrain, GPUs) else []
      ensures currentPageMigrationReq == if madeProgress then req else old(currentPageMigrationReq)
      ensures pageTable == old(pageTable) && toSendToMMU == old(toSendToMMU) && answers == old(answers)
      ensures migrationReqToSendToCP == old(migrationReqToSendToCP) && atGPUs == old(atGPUs)
      ensures ledger == old(ledger)
    {
      hide Askable, PagesUpTo, Driver.Answering, Driver.Answered;
      if isCurrentlyHandlingMigrationReq || req.None? {
        assert requestsToSend == requestsToSend + [];
        return false;
      }
      currentPageMigrationReq := req;
      isCurrentlyHandlingMigrationReq := true;
      InitiateRDMADrain();
      phase, responses := Draining(GPUs), 0;
      return true;
    }

    method InitiateRDMADrain()
      requires Matching(None) && numRDMADrainACK == 0
      modifies `requestsToSend, `numRDMADrainACK
      ensures Matching(None) && numRDMADrainACK == GPUs
              && requestsToSend == old(requestsToSend) + ToAll(RDMADrain, GPUs)
    {
      Queue(ToAll(RDMADrain, GPUs), RDMADrain);
      ghost var was := requestsToSend;
      for i := 0 to GPUs
        invariant numRDMADrainACK == i && requestsToSend == was + ToAll(RDMADrain, GPUs)[..i]
      {
        requestsToSend := requestsToSend + [Request(RDMADrain, i, [])];
        numRDMADrainACK := numRDMADrainACK + 1;
      }
      assert ToAll(RDMADrain, GPUs)[..GPUs] == ToAll(RDMADrain, GPUs);
    }

    /**
     processReturnReq: take the next response and react to it. Only the last shootdown response changes the page
     table.
     */
    method ProcessReturnReq() returns (madeProgress: bool)
      requires Valid()
      modifies this
      ensures Valid() && answers == if old(answers) != [] then old(answers)[1..] else []
      ensures madeProgress <==> old(answers) != [] && (old(answers)[0] == Shootdown ==> phase.Migrating?)
      ensures old(answers) == [] || old(answers)[0] == Command ==> phase == old(phase)
      ensures old(answers) != [] && old(answers)[0] != Command ==>
                && Left(old(phase)) > 0 && old(answers)[0] == Awaits(old(phase))
                && phase == Next(old(phase), SizesOf(old(currentPageMigrationReq).value, GPUs))
      ensures requestsToSend == old(requestsToSend) + NewRequests(old(phase), phase, old(currentPageMigrationReq), GPUs)
      ensures if old(phase).ShootingDown? && phase.Migrating?
              then Moved(old(pageTable), pageTable, order, migrationReqToSendToCP,
                old(currentPageMigrationReq).value.gpuReqToVAddrMap, GPUs)
              else pageTable == old(pageTable) && migrationReqToSendToCP == old(migrationReqToSendToCP)
      ensures if old(phase).Migrating? && phase.RestartingGPUs?
              then Answered(old(toSendToMMU), old(ledger), old(currentPageMigrationReq).value)
              else toSendToMMU == old(toSendToMMU) && ledger == old(ledger)
      ensures atGPUs == old(atGPUs)
      ensures currentPageMigrationReq == if phase.Idle? then None else old(currentPageMigrationReq)
    {
      hide Askable, PagesUpTo, Moved, Driver.Counting, Next, Count, SizesOf, Driver.Answering, Driver.Answered;
      NoRequestWhenIdle();
      if answers == [] {
        return false;
      }
      var rsp := answers[0];
      if rsp == Command {
        answers := answers[1..];
        return true;
      }
      ExpectedResponse();
      answers := answers[1..];
      madeProgress := React(rsp);
    }

    /** The switch of processReturnReq, with the response retrieved. */
    method React(rsp: Kind) returns (madeProgress: bool)
      requires Counting() && Matching(Some(rsp)) && Answering() && Left(phase) > 0 && rsp == Awaits(phase)
      modifies this
      ensures madeProgress == (rsp == Shootdown ==> phase.Migrating?)
      ensures Valid() && currentPageMigrationReq == (if phase.Idle? then None else old(currentPageMigrationReq))
      ensures answers == old(answers) && phase == Next(old(phase), SizesOf(old(currentPageMigrationReq).value, GPUs))
      ensures requestsToSend == old(requestsToSend) + NewRequests(old(phase), phase, old(currentPageMigrationReq), GPUs)
      ensures if old(phase).ShootingDown? && phase.Migrating?
              then Moved(old(pageTable), pageTable, order, migrationReqToSendToCP,
                old(currentPageMigrationReq).value.gpuReqToVAddrMap, GPUs)
              else pageTable == old(pageTable) && migrationReqToSendToCP == old(migrationReqToSendToCP)
      ensures if old(phase).Migrating? && phase.RestartingGPUs?
              then Answered(old(toSendToMMU), old(ledger), old(currentPageMigrationReq).value)
              else toSendToMMU == old(toSendToMMU) && ledger == old(ledger)
      ensures atGPUs == old(atGPUs)
    {
      hide Askable, PagesUpTo, Moved, Driver.Matching, Count, CountKind, SizesOf, Remaining, ToAccessing, ToAll,
           Driver.Answering, Driver.Answered;
      madeProgress := true;
      match rsp {
        case RDMADrain => ProcessRDMADrainRsp();
        case Shootdown => madeProgress := ProcessShootdownCompleteRsp();
        case PageMigration => ProcessPageMigrationRspFromCP();
        case RDMARestart => ProcessRDMARestartRsp();
        case GPURestart => HandleGPURestartRsp();
      }
    }

    method ProcessRDMADrainRsp()
      requires Counting() && Matching(Some(RDMADrain)) && Answering() && phase.Draining? && phase.left > 0
      modifies `numRDMADrainACK, `numShootDownACK, `requestsToSend, `phase, `responses
      ensures Valid() && phase == Next(old(phase), SizesOf(currentPageMigrationReq.value, GPUs))
      ensures requestsToSend == old(requestsToSend) + NewRequests(old(phase), phase, currentPageMigrationReq, GPUs)
    {
      hide PagesUpTo, Askable, ToAccessing, ToAll, Count, CountKind, Driver.Answering, Driver.Answered, Driver.Open;
      numRDMADrainACK := numRDMADrainACK - 1;
      phase, responses := Next(phase, SizesOf(currentPageMigrationReq.value, GPUs)), responses + 1;
      if numRDMADrainACK == 0 {
        SendShootDownReqs();
      }
    }

    method SendShootDownReqs()
      requires currentPageMigrationReq.Some? && Askable(currentPageMigrationReq.value, GPUs, pageTable)
      requires Matching(None) && numShootDownACK == 0
      modifies `numShootDownACK, `requestsToSend
      ensures var req := currentPageMigrationReq.value;
              && Matching(None) && numShootDownACK == |req.currAccessingGPUs|
              && requestsToSend == old(requestsToSend)
                 + ToAccessing(Shootdown, req.currAccessingGPUs, PagesUpTo(req.gpuReqToVAddrMap, GPUs))
    {
      hide PagesUpTo;
      var vAddr := PagesToShootDown(currentPageMigrationReq.value.gpuReqToVAddrMap);
      var accessingGPUs := currentPageMigrationReq.value.currAccessingGPUs;
      ghost var all := ToAccessing(Shootdown, accessingGPUs, vAddr);
      Queue(all, Shootdown);
      numShootDownACK := |accessingGPUs|;
      ghost var was := requestsToSend;
      for i := 0 to |accessingGPUs|
        invariant requestsToSend == was + all[..i] && numShootDownACK == |accessingGPUs|
      {
        assert accessingGPUs[i] in accessingGPUs;
        var toShootdownGPU := accessingGPUs[i] - 1;
        requestsToSend := requestsToSend + [Request(Shootdown, toShootdownGPU, vAddr)];
      }
      assert all[..|accessingGPUs|] == all;
    }

    method PagesToShootDown(migrationInfo: map<nat, seq<nat>>) returns (vAddr: seq<nat>)
      ensures vAddr == PagesUpTo(migrationInfo, GPUs)
    {
      vAddr := [];
      for i := 1 to GPUs + 1
        invariant vAddr == PagesUpTo(migrationInfo, i - 1)
      {
        if i in migrationInfo {
          var pages := migrationInfo[i];
          for j := 0 to |pages|
            invariant vAddr == PagesUpTo(migrationInfo, i - 1) + pages[..j]
          {
            vAddr := vAddr + [pages[j]];
          }
          assert pages[..|pages|] == pages;
        }
      }
    }

    method ProcessShootdownCompleteRsp() returns (madeProgress: bool)
      requires Counting() && Matching(Some(Shootdown)) && Answering() && phase.ShootingDown? && phase.left > 0
      modifies `numShootDownACK, `numPagesMigratingACK, `migrationReqToSendToCP, `pageTable, `phase, `responses, `order
      ensures Valid() && phase == Next(old(phase), SizesOf(currentPageMigrationReq.value, GPUs))
      ensures madeProgress == phase.Migrating?
      ensures if phase.Migrating?
              then Moved(old(pageTable), pageTable, order, migrationReqToSendToCP,
                currentPageMigrationReq.value.gpuReqToVAddrMap, GPUs)
              else pageTable == old(pageTable) && migrationReqToSendToCP == old(migrationReqToSendToCP)
    {
      hide PagesUpTo, Moved, Askable, Driver.Answering, Driver.Answered, Driver.Open;
      numShootDownACK := numShootDownACK - 1;
      phase, responses := Next(phase, SizesOf(currentPageMigrationReq.value, GPUs)), responses + 1;
      if numShootDownACK == 0 {
        PreparePages();
        return true;
      }
      return false;
    }

    /**
     The loops of processShootdownCompleteRsp: each page asked for gets a new physical page on
     the asking GPU and one request that moves its bytes there. The GPUs come in map order,
     that is in any order; the new physical addresses are the allocator's choice.
     */
    method PreparePages()
      requires currentPageMigrationReq.Some? && Askable(currentPageMigrationReq.value, GPUs, pageTable)
      requires migrationReqToSendToCP == [] && numPagesMigratingACK == 0
      modifies `numPagesMigratingACK, `migrationReqToSendToCP, `pageTable, `order
      ensures var asked := currentPageMigrationReq.value.gpuReqToVAddrMap;
              && numPagesMigratingACK == |migrationReqToSendToCP| == |PagesUpTo(asked, GPUs)|
              && Moved(old(pageTable), pageTable, order, migrationReqToSendToCP, asked, GPUs)
      ensures Askable(currentPageMigrationReq.value, GPUs, pageTable)
    {
      hide PagesUpTo, ReadsCurrent, Replay, Asks, Served, Serving, PagesOf;
      var asked := currentPageMigrationReq.value.gpuReqToVAddrMap;
      ghost var before := pageTable;
      var pageVaddrs: map<nat, seq<nat>> := map g: nat | g in asked && 1 <= g <= GPUs :: asked[g];
      OnlyRequesting(asked, pageVaddrs, GPUs);
      order := [];
      Start(before);
      NoneServed(asked, GPUs, pageVaddrs.Keys);
      PrepareEach(pageVaddrs, asked, before);
      SameLength(order, PagesUpTo(asked, GPUs));
    }

    /** The loop over the requesting GPUs. */
    method PrepareEach(requesting: map<nat, seq<nat>>, ghost asked: map<nat, seq<nat>>, ghost before: map<nat, Entry>)
      requires forall g | g in requesting :: 1 <= g <= GPUs && g in asked && requesting[g] == asked[g]
      requires forall g, v | 1 <= g <= GPUs && Asks(asked, g, v) :: v in before
      requires Prepared(before, asked) && order == []
      requires Served(order, migrationReqToSendToCP, asked, GPUs, requesting.Keys)
      modifies `numPagesMigratingACK, `migrationReqToSendToCP, `pageTable, `order
      ensures Prepared(before, asked) && Served(order, migrationReqToSendToCP, asked, GPUs, {})
      ensures multiset(order) == multiset(PagesUpTo(requesting, GPUs))
    {
      hide PagesUpTo, ReadsCurrent, Replay, Asks, Served, Serving, PagesOf;
      var pageVaddrs := requesting;
      while pageVaddrs.Keys != {}
        invariant forall g | g in pageVaddrs :: 1 <= g <= GPUs && g in asked && pageVaddrs[g] == asked[g]
        invariant multiset(order) + multiset(PagesUpTo(pageVaddrs, GPUs)) == multiset(PagesUpTo(requesting, GPUs))
        invariant Prepared(before, asked) && Served(order, migrationReqToSendToCP, asked, GPUs, pageVaddrs.Keys)
        decreases |pageVaddrs|
      {
        var g :| g in pageVaddrs.Keys;
        PreparePagesOf(g, pageVaddrs[g], asked, before, pageVaddrs.Keys);
        PagesWithout(pageVaddrs, g, GPUs);
        assert (pageVaddrs - {g}).Keys == pageVaddrs.Keys - {g};
        pageVaddrs := pageVaddrs - {g};
      }
      assert pageVaddrs == map[];
      NoPages(GPUs);
    }

    lemma SameLength(a: seq<nat>, b: seq<nat>)
      requires multiset(a) == multiset(b)
      ensures |a| == |b|
    {
      assert |multiset(a)| == |multiset(b)|;
    }

    /** The page requests so far account for the page table so far. */
    ghost predicate Prepared(before: map<nat, Entry>, asked: map<nat, seq<nat>>)
      reads `numPagesMigratingACK, `migrationReqToSendToCP, `pageTable, `order
    {
      && |order| == |migrationReqToSendToCP| == numPagesMigratingACK
      && pageTable == Replay(before, order, migrationReqToSendToCP, |order|)
      && ReadsCurrent(before, order, migrationReqToSendToCP) && pageTable.Keys == before.Keys
      && forall i | 0 <= i < |order| ::
           migrationReqToSendToCP[i].gpu + 1 <= GPUs && Asks(asked, migrationReqToSendToCP[i].gpu + 1, order[i])
    }

    method PreparePagesOf(g: nat, vAddrs: seq<nat>, ghost asked: map<nat, seq<nat>>, ghost before: map<nat, Entry>,
                          ghost todo: set<nat>)
      requires 1 <= g <= GPUs && g in asked && asked[g] == vAddrs && Prepared(before, asked)
      requires g in todo && Served(order, migrationReqToSendToCP, asked, GPUs, todo)
      requires forall v | Asks(asked, g, v) :: v in pageTable
      modifies `numPagesMigratingACK, `migrationReqToSendToCP, `pageTable, `order
      ensures Prepared(before, asked) && order == old(order) + vAddrs
      ensures Served(order, migrationReqToSendToCP, asked, GPUs, todo - {g})
    {
      hide ReadsCurrent, Replay, Served, Serving;
      ServingStarts(order, migrationReqToSendToCP, asked, GPUs, todo, g);
      for i := 0 to |vAddrs|
        invariant Prepared(before, asked) && order == old(order) + vAddrs[..i]
        invariant Serving(order, migrationReqToSendToCP, asked, GPUs, todo, g, i)
      {
        var vAddr := vAddrs[i];
        assert Asks(asked, g, vAddr);
        var page := pageTable[vAddr];
        var newPAddr: nat := *;
        var req := PageReq(g - 1, page.PAddr, newPAddr);
        ReplayStep(before, order, migrationReqToSendToCP, vAddr, req);
        ServingStep(order, migrationReqToSendToCP, asked, GPUs, todo, g, i, vAddr, req);
        pageTable := pageTable[vAddr := Entry(newPAddr, g, true)];
        migrationReqToSendToCP := migrationReqToSendToCP + [req];
        numPagesMigratingACK := numPagesMigratingACK + 1;
        order := order + [vAddr];
      }
      assert vAddrs[..|vAddrs|] == vAddrs;
      ServingEnds(order, migrationReqToSendToCP, asked, GPUs, todo, g);
    }

    lemma Start(before: map<nat, Entry>)
      ensures ReadsCurrent(before, [], []) && Replay(before, [], [], 0) == before
    {}

    /** sendMigrationReqToCP: one page at a time. */
    method SendMigrationReqToCP(accepts: bool) returns (madeProgress: bool)
      requires Valid()
      modifies `migrationReqToSendToCP, `isCurrentlyMigratingOnePage, `atGPUs
      ensures Valid()
      ensures madeProgress == (accepts && old(migrationReqToSendToCP) != [] && !old(isCurrentlyMigratingOnePage))
      ensures migrationReqToSendToCP == if madeProgress then old(migrationReqToSendToCP)[1..]
                                        else old(migrationReqToSendToCP)
      ensures atGPUs == if madeProgress then old(atGPUs) + multiset{PageMigration} else old(atGPUs)
    {
      hide Askable, PagesUpTo, Driver.Answering, Driver.Answered;
      if migrationReqToSendToCP == [] || isCurrentlyMigratingOnePage || !accepts {
        return false;
      }
      migrationReqToSendToCP := migrationReqToSendToCP[1..];
      isCurrentlyMigratingOnePage := true;
      atGPUs := atGPUs + multiset{PageMigration};
      return true;
    }

    method ProcessPageMigrationRspFromCP()
      requires Counting() && Matching(Some(PageMigration)) && Answering() && phase.Migrating? && phase.left > 0
      modifies `numPagesMigratingACK, `isCurrentlyMigratingOnePage, `numRestartACK, `requestsToSend, `phase, `responses
      modifies `toSendToMMU, `ledger
      ensures Valid() && phase == Next(old(phase), SizesOf(currentPageMigrationReq.value, GPUs))
      ensures requestsToSend == old(requestsToSend) + NewRequests(old(phase), phase, currentPageMigrationReq, GPUs)
      ensures if phase.RestartingGPUs?
              then Answered(old(toSendToMMU), old(ledger), currentPageMigrationReq.value)
              else toSendToMMU == old(toSendToMMU) && ledger == old(ledger)
    {
      hide PagesUpTo, Askable, ToAccessing, ToAll, Count, CountKind, Driver.Answering, Driver.Answered, Driver.Open;
      numPagesMigratingACK := numPagesMigratingACK - 1;
      isCurrentlyMigratingOnePage := false;
      phase, responses := Next(phase, SizesOf(currentPageMigrationReq.value, GPUs)), responses + 1;
      if numPagesMigratingACK == 0 {
        PagesMigrated();
      }
    }

    method PagesMigrated()
      requires currentPageMigrationReq.Some? && Askable(currentPageMigrationReq.value, GPUs, pageTable)
      requires Matching(None) && Answering() && numRestartACK == 0
      modifies `numRestartACK, `requestsToSend, `toSendToMMU, `ledger
      ensures var req := currentPageMigrationReq.value;
              && Matching(None) && numRestartACK == |req.currAccessingGPUs|
              && requestsToSend == old(requestsToSend) + ToAccessing(GPURestart, req.currAccessingGPUs, [])
              && Answering() && Answered(old(toSendToMMU), old(ledger), req)
    {
      hide PagesUpTo, Askable, ToAccessing, Driver.Matching, Driver.Answering, Driver.Answered;
      PrepareGPURestartReqs();
      PreparePageMigrationRspToMMU();
    }

    method PrepareGPURestartReqs()
      requires currentPageMigrationReq.Some? && Askable(currentPageMigrationReq.value, GPUs, pageTable)
      requires Matching(None) && numRestartACK == 0
      modifies `numRestartACK, `requestsToSend
      ensures var req := currentPageMigrationReq.value;
              && Matching(None) && numRestartACK == |req.currAccessingGPUs|
              && requestsToSend == old(requestsToSend) + ToAccessing(GPURestart, req.currAccessingGPUs, [])
    {
      var accessingGPUs := currentPageMigrationReq.value.currAccessingGPUs;
      ghost var all := ToAccessing(GPURestart, accessingGPUs, []);
      Queue(all, GPURestart);
      ghost var was := requestsToSend;
      for i := 0 to |accessingGPUs|
        invariant numRestartACK == i && requestsToSend == was + all[..i]
      {
        assert accessingGPUs[i] in accessingGPUs;
        var restartGPUID := accessingGPUs[i] - 1;
        requestsToSend := requestsToSend + [Request(GPURestart, restartGPUID, [])];
        numRestartACK := numRestartACK + 1;
      }
      assert all[..|accessingGPUs|] == all;
    }

    /**
     The answer names all pages of the migration. An earlier one that the MMU's port has not
     accepted yet is lost, and nothing else is.
     */
    ghost predicate Answered(pending: Option<seq<nat>>, was: Ledger, req: MigrationReq)
      reads `toSendToMMU, `ledger
    {
      && toSendToMMU.Some? && multiset(toSendToMMU.value) == multiset(PagesUpTo(req.gpuReqToVAddrMap, GPUs))
      && ledger == Ledger(was.prepared + multiset{toSendToMMU.value}, was.delivered, was.lost + One(pending))
    }

    method PreparePageMigrationRspToMMU()
      requires currentPageMigrationReq.Some? && Answering()
      modifies `toSendToMMU, `ledger
      ensures Answering() && Answered(old(toSendToMMU), old(ledger), currentPageMigrationReq.value)
    {
      hide PagesUpTo, Driver.Answering;
      var vAddr := PagesAsked();
      SetAnswer(vAddr);
    }

    /** The pages of all GPUs that ask, in map order, that is in any order of the GPUs. */
    method PagesAsked() returns (vAddr: seq<nat>)
      requires currentPageMigrationReq.Some?
      ensures multiset(vAddr) == multiset(PagesUpTo(currentPageMigrationReq.value.gpuReqToVAddrMap, GPUs))
    {
      hide PagesUpTo;
      var asked := currentPageMigrationReq.value.gpuReqToVAddrMap;
      var pageVaddrs: map<nat, seq<nat>> := map g: nat | g in asked && 1 <= g <= GPUs :: asked[g];
      OnlyRequesting(asked, pageVaddrs, GPUs);
      vAddr := [];
      while pageVaddrs.Keys != {}
        invariant forall g | g in pageVaddrs :: 1 <= g <= GPUs
        invariant multiset(vAddr) + multiset(PagesUpTo(pageVaddrs, GPUs)) == multiset(PagesUpTo(asked, GPUs))
        decreases |pageVaddrs|
      {
        var g :| g in pageVaddrs.Keys;
        var vAddrs := pageVaddrs[g];
        ghost var had := vAddr;
        for j := 0 to |vAddrs|
          invariant vAddr == had + vAddrs[..j]
        {
          vAddr := vAddr + [vAddrs[j]];
        }
        assert vAddrs[..|vAddrs|] == vAddrs;
        PagesWithout(pageVaddrs, g, GPUs);
        pageVaddrs := pageVaddrs - {g};
      }
      assert pageVaddrs == map[];
      NoPages(GPUs);
    }

    /** toSendToMMU = req */
    method SetAnswer(vAddr: seq<nat>)
      requires Answering()
      modifies `toSendToMMU, `ledger
      ensures Answering() && toSendToMMU == Some(vAddr)
      ensures ledger == Ledger(old(ledger).prepared + multiset{vAddr}, old(ledger).delivered,
                               old(ledger).lost + One(old(toSendToMMU)))
    {
      ledger := Ledger(ledger.prepared + multiset{vAddr}, ledger.delivered, ledger.lost + One(toSendToMMU));
      toSendToMMU := Some(vAddr);
    }

    method HandleGPURestartRsp()
      requires Counting() && Matching(Some(GPURestart)) && Answering() && phase.RestartingGPUs? && phase.left > 0
      modifies `numRestartACK, `numRDMARestartACK, `requestsToSend, `phase, `responses
      ensures Valid() && phase == Next(old(phase), SizesOf(currentPageMigrationReq.value, GPUs))
      ensures requestsToSend == old(requestsToSend) + NewRequests(old(phase), phase, currentPageMigrationReq, GPUs)
    {
      hide PagesUpTo, Askable, ToAccessing, ToAll, Count, CountKind, Driver.Answering, Driver.Answered, Driver.Open;
      numRestartACK := numRestartACK - 1;
      phase, responses := Next(phase, SizesOf(currentPageMigrationReq.value, GPUs)), responses + 1;
      if numRestartACK == 0 {
        PrepareRDMARestartReqs();
      }
    }

    method PrepareRDMARestartReqs()
      requires Matching(None) && numRDMARestartACK == 0
      modifies `requestsToSend, `numRDMARestartACK
      ensures Matching(None) && numRDMARestartACK == GPUs
              && requestsToSend == old(requestsToSend) + ToAll(RDMARestart, GPUs)
    {
      Queue(ToAll(RDMARestart, GPUs), RDMARestart);
      ghost var was := requestsToSend;
      for i := 0 to GPUs
        invariant numRDMARestartACK == i && requestsToSend == was + ToAll(RDMARestart, GPUs)[..i]
      {
        requestsToSend := requestsToSend + [Request(RDMARestart, i, [])];
        numRDMARestartACK := numRDMARestartACK + 1;
      }
      assert ToAll(RDMARestart, GPUs)[..GPUs] == ToAll(RDMARestart, GPUs);
    }

    method ProcessRDMARestartRsp()
      requires Counting() && Matching(Some(RDMARestart)) && Answering() && phase.RestartingRDMAs? && phase.left > 0
      modifies `numRDMARestartACK, `currentPageMigrationReq, `isCurrentlyHandlingMigrationReq, `phase, `responses
      ensures Valid() && phase == Next(old(phase), SizesOf(old(currentPageMigrationReq).value, GPUs))
      ensures currentPageMigrationReq == if phase.Idle? then None else old(currentPageMigrationReq)
    {
      hide PagesUpTo, Askable, ToAccessing, ToAll, Count, CountKind, Driver.Answering, Driver.Answered, Driver.Open;
      numRDMARestartACK := numRDMARestartACK - 1;
      phase, responses := Next(phase, SizesOf(currentPageMigrationReq.value, GPUs)), responses + 1;
      if numRDMARestartACK == 0 {
        currentPageMigrationReq := None;
        isCurrentlyHandlingMigrationReq := false;
      }
    }

    /** sendToMMU */
    method SendToMMU(accepts: bool) returns (madeProgress: bool)
      requires Valid()
      modifies `toSendToMMU, `ledger
      ensures Valid() && madeProgress == (accepts && old(toSendToMMU).Some?)
      ensures toSendToMMU == if madeProgress then None else old(toSendToMMU)
      ensures ledger == if madeProgress
                        then old(ledger).(delivered := old(ledger).delivered + multiset{old(toSendToMMU).value})
                        else old(ledger)
    {
      if toSendToMMU.None? || !accepts {
        return false;
      }
      ledger := ledger.(delivered := ledger.delivered + multiset{toSendToMMU.value});
      toSendToMMU := None;
      return true;
    }
  }

  // ---------------------------------------------------------------------------------------
  // A lost answer
  // ---------------------------------------------------------------------------------------

  /** A migration moves entries of the page table and makes no new ones. */
  lemma {:induction false} SameKeys(before: map<nat, Entry>, order: seq<nat>, reqs: seq<PageReq>, n: nat)
    requires n <= |order| == |reqs| && ReadsCurrent(before, order, reqs)
    ensures Replay(before, order, reqs, n).Keys == before.Keys
  {
    hide Replay;
    if n == 0 {
      assert Replay(before, order, reqs, 0) == before by { NothingReplayed(before, order, reqs); }
    } else {
      SameKeys(before, order, reqs, n - 1);
      ReplayOne(before, order, reqs, n - 1);
      assert order[n - 1] in Replay(before, order, reqs, n - 1);
    }
  }

  lemma NothingReplayed(before: map<nat, Entry>, order: seq<nat>, reqs: seq<PageReq>)
    ensures Replay(before, order, reqs, 0) == before
  {}

  /** A driver with nothing on its way but what its queues hold. */
  ghost predicate Quiet(d: Driver)
    reads d
  {
    d.Valid() && d.answers == [] && d.atGPUs == multiset{}
  }

  /** One request on its way to a GPU and back. */
  method Exchange(d: Driver)
    requires Quiet(d) && |d.requestsToSend| == 1 && d.requestsToSend[0].kind != Command
    modifies d
    ensures Quiet(d) && Left(old(d.phase)) > 0
    ensures d.phase == Next(old(d.phase), SizesOf(old(d.currentPageMigrationReq).value, d.GPUs))
    ensures d.requestsToSend == NewRequests(old(d.phase), d.phase, old(d.currentPageMigrationReq), d.GPUs)
    ensures d.currentPageMigrationReq == if d.phase.Idle? then None else old(d.currentPageMigrationReq)
    ensures d.pageTable.Keys == old(d.pageTable).Keys
    ensures !old(d.phase).Migrating? ==> d.toSendToMMU == old(d.toSendToMMU) && d.ledger == old(d.ledger)
  {
    hide Driver.Valid, Driver.Answered, SizesOf, PagesUpTo, NewRequests, Next, Replay, ReadsCurrent;
    var kind := d.requestsToSend[0].kind;
    var sent := d.SendToGPUs(true);
    d.Answer(kind);
    ghost var before := d.pageTable;
    var taken := d.ProcessReturnReq();
    if old(d.phase).ShootingDown? && d.phase.Migrating? {
      SameKeys(before, d.order, d.migrationReqToSendToCP, |d.order|);
    }
  }

  /** The page request, likewise: the answer to the MMU is ready afterwards. */
  method ExchangePage(d: Driver, v: nat)
    requires Quiet(d) && d.GPUs == 1 && d.requestsToSend == [] && d.phase == Migrating(1)
    requires d.currentPageMigrationReq == Some(OnePage(v))
    modifies d
    ensures Quiet(d) && d.phase == RestartingGPUs(1) && d.currentPageMigrationReq == old(d.currentPageMigrationReq)
    ensures d.requestsToSend == ToAccessing(GPURestart, [1], []) && d.pageTable == old(d.pageTable)
    ensures d.toSendToMMU == Some([v])
    ensures d.ledger == Ledger(old(d.ledger).prepared + multiset{[v]}, old(d.ledger).delivered,
                               old(d.ledger).lost + One(old(d.toSendToMMU)))
  {
    hide Driver.Answering, PagesUpTo, ToAccessing, ToAll, Moved, Driver.Counting, Driver.Matching, Askable, SizesOf;
    AnswerPage(d);
    OnePageSizes(v);
    var taken := d.ProcessReturnReq();
    OneOf(d.toSendToMMU.value, v);
  }

  method AnswerPage(d: Driver)
    requires Quiet(d) && d.requestsToSend == [] && d.phase == Migrating(1)
    modifies d`migrationReqToSendToCP, d`isCurrentlyMigratingOnePage, d`atGPUs, d`answers
    ensures d.Valid() && d.answers == [PageMigration] && d.atGPUs == multiset{}
  {
    hide Driver.Answering, Driver.Counting, Driver.Matching;
    PageIsQueued(d);
    var sent := d.SendMigrationReqToCP(true);
    d.Answer(PageMigration);
  }

  lemma PageIsQueued(d: Driver)
    requires Quiet(d) && d.requestsToSend == [] && d.phase == Migrating(1)
    ensures d.migrationReqToSendToCP != [] && !d.isCurrentlyMigratingOnePage
  {
    assert d.Open(PageMigration) == d.Counter(PageMigration);
  }

  lemma OneOf(s: seq<nat>, v: nat)
    requires multiset(s) == multiset([v])
    ensures s == [v]
  {
    assert |multiset(s)| == 1 && s[0] in multiset(s);
  }

  /** The MMU asks to move page `v`, which the only GPU accesses and asks for. */
  function OnePage(v: nat): MigrationReq {
    MigrationReq([1], map[1 := [v]])
  }

  lemma OnePageSizes(v: nat)
    ensures SizesOf(OnePage(v), 1) == Sizes(1, 1, 1) && PagesUpTo(OnePage(v).gpuReqToVAddrMap, 1) == [v]
  {
    assert PagesUpTo(OnePage(v).gpuReqToVAddrMap, 0) == [];
  }

  /** A whole migration during which the MMU's port takes nothing. */
  method MigrateOnePage(d: Driver, v: nat)
    requires Quiet(d) && d.GPUs == 1 && d.requestsToSend == [] && d.phase.Idle? && v in d.pageTable
    modifies d
    ensures Quiet(d) && d.requestsToSend == [] && d.phase.Idle? && d.pageTable.Keys == old(d.pageTable).Keys
    ensures d.toSendToMMU == Some([v])
    ensures d.ledger == Ledger(old(d.ledger).prepared + multiset{[v]}, old(d.ledger).delivered,
                               old(d.ledger).lost + One(old(d.toSendToMMU)))
  {
    hide Quiet, SizesOf, PagesUpTo;
    OnePageSizes(v);
    Begin(d, v);
    Exchange(d);
    Exchange(d);
    ExchangePage(d, v);
    Exchange(d);
    Exchange(d);
  }

  method Begin(d: Driver, v: nat)
    requires Quiet(d) && d.requestsToSend == [] && d.phase.Idle? && d.GPUs == 1 && v in d.pageTable
    modifies d
    ensures Quiet(d) && d.phase == Draining(1) && d.currentPageMigrationReq == Some(OnePage(v))
    ensures d.requestsToSend == ToAll(RDMADrain, 1) && d.pageTable == old(d.pageTable)
    ensures d.toSendToMMU == old(d.toSendToMMU) && d.ledger == old(d.ledger)
  {
    hide Driver.Valid, PagesUpTo, ToAll;
    var begun := d.ParseFromMMU(Some(OnePage(v)));
  }

  /** Two migrations while the MMU's port takes nothing: the first one's answer is lost. */
  method TwoMigrationsLoseAnAnswer(v: nat, w: nat, pageTable: map<nat, Entry>) returns (d: Driver)
    requires v in pageTable && w in pageTable
    ensures d.Valid() && d.phase.Idle? && d.toSendToMMU == Some([w])
    ensures d.ledger == Ledger(multiset{[v], [w]}, multiset{}, multiset{[v]})
  {
    hide Driver.Counting, Driver.Matching, Driver.Answering;
    d := new Driver(1, pageTable);
    MigrateOnePage(d, v);
    MigrateOnePage(d, w);
  }
}
