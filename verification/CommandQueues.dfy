/**
 The driver's command queues: driver/driver.go:241-303, 344-373, 465-540, driver/memorycopy.go,
 driver/commandqueue.go and driver/command.go.

 GPUs answer requests in any order. The queues of all contexts are in one list; what a command
 asks for (how many copies, launches and flushes) is the caller's choice.
 */
module CommandQueues {
  import opened Collections

  datatype ReqKind = FlushReq | MemCopyH2DReq | MemCopyD2HReq | LaunchKernelReq

  datatype Request = Request(ID: nat, kind: ReqKind)

  datatype CommandKind = MemCopyH2D | MemCopyD2H | LaunchKernel | Noop

  /** A command and the requests it still waits for. */
  datatype Command = Command(kind: CommandKind, Reqs: seq<Request>)

  /** The requests that a kind of command makes. */
  predicate Suits(kind: CommandKind, req: ReqKind) {
    match kind
    case MemCopyH2D => req.FlushReq? || req.MemCopyH2DReq?
    case MemCopyD2H => req.FlushReq? || req.MemCopyD2HReq?
    case LaunchKernel => req.LaunchKernelReq?
    case Noop => false
  }

  /** What happens to the first command of a queue. */
  datatype Progress = Waiting(reqs: seq<Request>) | Complete

  function Without(reqs: seq<Request>, req: Request): seq<Request> {
    if reqs == [] then []
    else if reqs[0] == req then reqs[1..]
    else [reqs[0]] + Without(reqs[1..], req)
  }

  lemma {:induction false} WithoutFacts(reqs: seq<Request>, req: Request)
    requires req in reqs
    ensures multiset(Without(reqs, req)) + multiset{req} == multiset(reqs) && |Without(reqs, req)| == |reqs| - 1
    ensures Distinct(reqs) ==>
              Distinct(Without(reqs, req)) && forall r :: r in Without(reqs, req) <==> r in reqs && r != req
  {
    assert reqs == [reqs[0]] + reqs[1..];
    if reqs[0] != req {
      WithoutFacts(reqs[1..], req);
      assert Distinct(reqs) ==> Distinct(reqs[1..]);
      if Distinct(reqs) {
        assert reqs[0] !in reqs[1..];
        assert reqs[0] !in Without(reqs[1..], req);
      }
    }
  }

  lemma WithoutPrefix(reqs: seq<Request>, req: Request, i: nat)
    requires i < |reqs| && reqs[i] == req && forall j | 0 <= j < i :: reqs[j] != req
    ensures Without(reqs, req) == reqs[..i] + reqs[i + 1..]
  {
    if i > 0 {
      WithoutPrefix(reqs[1..], req, i - 1);
    }
  }

  /** removeMsgFromMsgList; a request that is not in the list is a panic. */
  method RemoveMsgFromMsgList(msg: Request, msgs: seq<Request>) returns (rest: seq<Request>)
    requires msg in msgs
    ensures rest == Without(msgs, msg)
  {
    var i := 0;
    while msgs[i] != msg
      invariant 0 <= i < |msgs| && forall j | 0 <= j < i :: msgs[j] != msg
      invariant msg in msgs[i..]
      decreases |msgs| - i
    {
      assert msgs[i..] == [msgs[i]] + msgs[i + 1..];
      i := i + 1;
    }
    WithoutPrefix(msgs, msg, i);
    rest := msgs[..i] + msgs[i + 1..];
  }

  lemma OnlyThere(reqs: seq<Request>, at: nat)
    requires Distinct(reqs) && at < |reqs|
    ensures forall j | 0 <= j < |reqs| :: reqs[j] == reqs[at] <==> j == at
  {}

  /** The loop of processMemCopyH2DReturn: a new list of the other requests. */
  method OtherReqs(req: Request, reqs: seq<Request>) returns (newReqs: seq<Request>)
    requires req in reqs && Distinct(reqs)
    ensures newReqs == Without(reqs, req)
  {
    hide Without, Distinct;
    newReqs := [];
    ghost var at: nat :| at < |reqs| && reqs[at] == req;
    OnlyThere(reqs, at);
    WithoutPrefix(reqs, req, at);
    for i := 0 to |reqs|
      invariant newReqs == if i <= at then reqs[..i] else reqs[..at] + reqs[at + 1..i]
    {
      assert reqs[..i + 1] == reqs[..i] + [reqs[i]];
      assert i > at ==> reqs[at + 1..i + 1] == reqs[at + 1..i] + [reqs[i]];
      if reqs[i] != req {
        newReqs := newReqs + [reqs[i]];
      }
    }
    assert reqs[..|reqs|] == reqs;
  }

  /** A response for a request of the first command. A flush response never completes a command. */
  function Answered(reqs: seq<Request>, req: Request): Progress {
    var left := Without(reqs, req);
    if left == [] && req.kind != FlushReq then Complete else Waiting(left)
  }

  /** All responses, in the order they come. */
  function AllAnswered(p: Progress, order: seq<Request>): Progress
    decreases |order|
  {
    if order == [] || p.Complete? then p else AllAnswered(Answered(p.reqs, order[0]), order[1..])
  }

  /**
   A command whose requests are answered once each, in any order, completes if and only if the
   last response is not that of a flush. One without requests never completes.
   */
  lemma {:induction false} CompletesIff(reqs: seq<Request>, order: seq<Request>)
    requires multiset(reqs) == multiset(order)
    ensures AllAnswered(Waiting(reqs), order) == Complete
            <==> order != [] && order[|order| - 1].kind != FlushReq
    decreases |order|
  {
    if order == [] {
    } else {
      assert order == [order[0]] + order[1..];
      assert order[0] in multiset(order);
      assert order[0] in reqs;
      WithoutFacts(reqs, order[0]);
      CancelOne(multiset(Without(reqs, order[0])), multiset(order[1..]), order[0]);
      assert |multiset(reqs)| == |multiset(order)|;
      if |order| == 1 {
        assert Without(reqs, order[0]) == [];
      } else {
        CompletesIff(Without(reqs, order[0]), order[1..]);
      }
    }
  }

  /** An order in which the responses for `reqs` can come. */
  ghost predicate OrderOf(reqs: seq<Request>, order: seq<Request>) {
    multiset(reqs) == multiset(order)
  }

  /**
   A command completes in whatever order the responses come if and only if it has requests and
   none of them is a flush; and in some order if and only if some request is not a flush.
   */
  lemma CompletesAlwaysIff(reqs: seq<Request>)
    ensures (forall order: seq<Request> | OrderOf(reqs, order) :: AllAnswered(Waiting(reqs), order) == Complete)
            <==> reqs != [] && forall r: Request | r in reqs :: r.kind != FlushReq
    ensures (exists order: seq<Request> :: OrderOf(reqs, order) && AllAnswered(Waiting(reqs), order) == Complete)
            <==> exists r: Request :: r in reqs && r.kind != FlushReq
  {
    hide AllAnswered, OrderOf;
    forall order: seq<Request> | OrderOf(reqs, order)
      ensures AllAnswered(Waiting(reqs), order) == Complete <==> order != [] && order[|order| - 1].kind != FlushReq
      ensures reqs == [] <==> order == []
      ensures order != [] ==> order[|order| - 1] in reqs
    {
      LastDecides(reqs, order);
    }
    if reqs == [] {
      SomeOrder(reqs);
      assert AllAnswered(Waiting(reqs), reqs) != Complete;
    }
    if r: Request :| r in reqs && r.kind == FlushReq {
      LastOrder(reqs, r);
      assert AllAnswered(Waiting(reqs), LastOf(reqs, r)) != Complete;
    }
    if r: Request :| r in reqs && r.kind != FlushReq {
      LastOrder(reqs, r);
      assert AllAnswered(Waiting(reqs), LastOf(reqs, r)) == Complete;
    }
  }

  lemma LastDecides(reqs: seq<Request>, order: seq<Request>)
    requires OrderOf(reqs, order)
    ensures AllAnswered(Waiting(reqs), order) == Complete <==> order != [] && order[|order| - 1].kind != FlushReq
    ensures reqs == [] <==> order == []
    ensures order != [] ==> order[|order| - 1] in reqs
  {
    hide AllAnswered;
    CompletesIff(reqs, order);
    assert |multiset(reqs)| == |multiset(order)|;
    if order != [] { assert order[|order| - 1] in multiset(order); }
  }

  lemma SomeOrder(reqs: seq<Request>)
    ensures OrderOf(reqs, reqs)
  {}

  /** The requests in an order that ends with `r`. */
  function LastOf(reqs: seq<Request>, r: Request): (order: seq<Request>)
    ensures order != [] && order[|order| - 1] == r
  {
    Without(reqs, r) + [r]
  }

  lemma LastOrder(reqs: seq<Request>, r: Request)
    requires r in reqs
    ensures OrderOf(reqs, LastOf(reqs, r))
  {
    WithoutFacts(reqs, r);
  }

  /** A queue's commands when its first one has `more` requests. */
  function WithReqs(commands: seq<Command>, more: seq<Request>): seq<Command> {
    if commands == [] then [] else commands[0 := commands[0].(Reqs := commands[0].Reqs + more)]
  }

  lemma TwiceWithReqs(commands: seq<Command>, some: seq<Request>, more: seq<Request>)
    ensures WithReqs(WithReqs(commands, some), more) == WithReqs(commands, some + more)
    ensures commands != [] ==> WithReqs(commands, some) != [] && WithReqs(commands, some)[0].kind == commands[0].kind
  {
    if commands != [] {
      assert commands[0].Reqs + some + more == commands[0].Reqs + (some + more);
    }
  }

  lemma NoneMore(commands: seq<Command>)
    ensures WithReqs(commands, []) == commands
  {
    if commands != [] {
      assert commands[0].Reqs + [] == commands[0].Reqs;
    }
  }

  /** The first request of a command that had none. */
  lemma FirstReqs(commands: seq<Command>, reqs: seq<Request>)
    requires commands != [] && commands[0].Reqs == []
    ensures WithReqs(commands, reqs) == [Command(commands[0].kind, reqs)] + commands[1..]
  {
    assert [] + reqs == reqs;
  }

  lemma NoReqs(first: nat, kind: ReqKind)
    ensures NewReqs(first, kind, 0) == []
  {}

  lemma MoreReqs(first: nat, kind: ReqKind, n: nat)
    ensures NewReqs(first, kind, n + 1) == NewReqs(first, kind, n) + [Request(first + n, kind)]
  {}

  class CommandQueue {
    var IsRunning: bool
    var commands: seq<Command>

    /** Only the first command has requests, of the kinds it makes. */
    ghost predicate HeadOnly()
      reads `commands
    {
      && (forall i | 0 < i < |commands| :: commands[i].Reqs == [])
      && (forall r | r in HeadReqs() :: commands != [] && Suits(commands[0].kind, r.kind))
    }

    /** Besides, it has some only while the queue runs. */
    ghost predicate InOrder()
      reads this
    {
      HeadOnly() && (IsRunning ==> commands != []) && (!IsRunning ==> HeadReqs() == [])
    }

    function HeadReqs(): seq<Request>
      reads `commands
    {
      if commands == [] then [] else commands[0].Reqs
    }

    constructor ()
      ensures InOrder() && commands == [] && !IsRunning
    {
      IsRunning, commands := false, [];
    }

    method Enqueue(c: Command)
      requires InOrder() && c.Reqs == []
      modifies `commands
      ensures InOrder() && commands == old(commands) + [c] && HeadReqs() == old(HeadReqs())
    {
      hide Suits;
      commands := commands + [c];
    }

    /** What completing the first command does to the queue. */
    method Finish() returns (cmd: Command)
      requires HeadOnly() && commands != []
      modifies this
      ensures InOrder() && !IsRunning && cmd == old(commands)[0] && commands == old(commands)[1..]
    {
      IsRunning := false;
      cmd := Dequeue();
    }

    method Dequeue() returns (cmd: Command)
      requires commands != []
      modifies `commands
      ensures cmd == old(commands)[0] && commands == old(commands)[1..]
    {
      cmd := commands[0];
      commands := commands[1..];
    }

    /** cmd.Reqs = reqs, for the command that Peek returns. */
    method SetHeadReqs(reqs: seq<Request>)
      requires HeadOnly() && commands != [] && forall r | r in reqs :: Suits(commands[0].kind, r.kind)
      modifies `commands
      ensures HeadOnly() && commands == old(commands)[0 := old(commands)[0].(Reqs := reqs)] && HeadReqs() == reqs
    {
      commands := commands[0 := commands[0].(Reqs := reqs)];
    }
  }

  /** Every open request belongs to the first command of the queue that owns it, and vice versa. */
  ghost predicate Owned(heads: seq<seq<Request>>, owner: map<Request, nat>) {
    && (forall i | 0 <= i < |heads| :: Distinct(heads[i]))
    && (forall r | r in owner :: owner[r] < |heads| && r in heads[owner[r]])
    && (forall i: nat, r | i < |heads| && r in heads[i] :: r in owner && owner[r] == i)
  }

  /** Request ids are used once. */
  ghost predicate FreshIds(owner: map<Request, nat>, nextID: nat) {
    && (forall r | r in owner :: r.ID < nextID)
    && (forall r, s | r in owner && s in owner && r.ID == s.ID :: r == s)
  }

  /** The open requests are those queued for sending, and those sent. */
  ghost predicate Open(owner: map<Request, nat>, requestsToSend: seq<Request>, sent: set<Request>) {
    && Distinct(requestsToSend) && (forall r | r in requestsToSend :: r !in sent)
    && (forall r :: r in owner <==> r in requestsToSend || r in sent)
  }

  lemma OwnOneMore(heads: seq<seq<Request>>, owner: map<Request, nat>, i: nat, req: Request)
    requires Owned(heads, owner) && i < |heads| && req !in owner
    ensures Owned(heads[i := heads[i] + [req]], owner[req := i])
  {
    assert req !in heads[i];
    var after := heads[i := heads[i] + [req]];
    var owners := owner[req := i];
    forall r | r in owners ensures owners[r] < |after| && r in after[owners[r]] {
      if r == req { assert after[i][|heads[i]|] == req; }
    }
  }

  lemma OwnOneLess(heads: seq<seq<Request>>, owner: map<Request, nat>, i: nat, req: Request)
    requires Owned(heads, owner) && i < |heads| && req in heads[i]
    ensures Owned(heads[i := Without(heads[i], req)], owner - {req})
  {
    hide Without, Distinct;
    WithoutFacts(heads[i], req);
    var after, owners := heads[i := Without(heads[i], req)], owner - {req};
    OwnedAt(heads, owner, i, req);
    forall j: nat, r | j < |after| && r in after[j] ensures r in owners && owners[r] == j {
      assert r in heads[j];
      OwnedAt(heads, owner, j, r);
    }
    forall r | r in owners ensures owners[r] < |after| && r in after[owners[r]] {
      assert r in heads[owner[r]];
    }
  }

  lemma OpenOneLess(owner: map<Request, nat>, requestsToSend: seq<Request>, sent: set<Request>, nextID: nat,
                    req: Request)
    requires Open(owner, requestsToSend, sent) && FreshIds(owner, nextID) && req in sent
    ensures Open(owner - {req}, requestsToSend, sent - {req}) && FreshIds(owner - {req}, nextID)
  {}

  lemma OwnedAt(heads: seq<seq<Request>>, owner: map<Request, nat>, i: nat, req: Request)
    requires Owned(heads, owner) && i < |heads| && req in heads[i]
    ensures req in owner && owner[req] == i && Distinct(heads[i])
  {}

  lemma SameId(owner: map<Request, nat>, requestsToSend: seq<Request>, sent: set<Request>, nextID: nat, r: Request,
               s: Request)
    requires Open(owner, requestsToSend, sent) && FreshIds(owner, nextID) && r in owner && s in sent && r.ID == s.ID
    ensures r == s
  {
    assert s in owner;
  }

  class Driver {
    const queues: seq<CommandQueue>
    const GPUs: nat
    var requestsToSend: seq<Request>
    var nextID: nat
    ghost var sent: set<Request> // to a GPU, and no response processed yet
    ghost var owner: map<Request, nat> // the queues of the open requests

    ghost predicate Apart()
    {
      forall i, j | 0 <= i < j < |queues| :: queues[i] != queues[j]
    }

    ghost function Heads(): (h: seq<seq<Request>>)
      reads queues
      ensures |h| == |queues| && forall i | 0 <= i < |queues| :: h[i] == queues[i].HeadReqs()
    {
      seq(|queues|, i requires 0 <= i < |queues| reads queues => queues[i].HeadReqs())
    }

    /** The invariant, while requests are added to the first command of queue `busy`. */
    ghost predicate ValidBut(busy: int)
      reads this, queues
    {
      && Apart() && (forall i | 0 <= i < |queues| :: queues[i].HeadOnly() && (i != busy ==> queues[i].InOrder()))
      && Owned(Heads(), owner) && FreshIds(owner, nextID) && Open(owner, requestsToSend, sent)
    }

    ghost predicate Valid()
      reads this, queues
    {
      ValidBut(-1)
    }

    constructor (queues: seq<CommandQueue>, gpus: nat)
      requires forall i, j | 0 <= i < j < |queues| :: queues[i] != queues[j]
      requires forall q | q in queues :: q.InOrder() && !q.IsRunning
      ensures Valid() && this.queues == queues && GPUs == gpus && owner == map[] && requestsToSend == []
    {
      this.queues, GPUs := queues, gpus;
      requestsToSend, nextID, sent, owner := [], 0, {}, map[];
      new;
      forall i | 0 <= i < |queues| ensures Heads()[i] == [] && queues[i].InOrder() {
        assert queues[i] in queues;
      }
    }

    /** Enqueue: a new command goes to the end of its queue. */
    method Enqueue(i: nat, kind: CommandKind)
      requires Valid() && i < |queues|
      modifies queues[i]
      ensures Valid() && queues[i].commands == old(queues[i].commands) + [Command(kind, [])]
      ensures queues[i].IsRunning == old(queues[i].IsRunning)
    {
      hide Owned, FreshIds, Open, Suits;
      ghost var heads := Heads();
      queues[i].Enqueue(Command(kind, []));
      assert Heads() == heads;
    }

    /** Every open request belongs to the first command of exactly one queue, which is running. */
    lemma OneOwner(req: Request) returns (i: nat)
      requires Valid() && (req in requestsToSend || req in sent)
      ensures i < |queues| && queues[i].IsRunning && queues[i].commands != [] && req in queues[i].commands[0].Reqs
      ensures forall j: nat | j < |queues| && req in queues[j].HeadReqs() :: j == i
      ensures forall j, k | 0 <= j < |queues| && 0 < k < |queues[j].commands| :: req !in queues[j].commands[k].Reqs
    {
      i := owner[req];
      assert req in Heads()[i];
      forall j: nat | j < |queues| && req in queues[j].HeadReqs() ensures j == i {
        assert req in Heads()[j];
      }
    }

    /** A running queue whose first command has no request left gets no response any more. */
    lemma Stuck(i: nat)
      requires Valid() && i < |queues| && queues[i].IsRunning && queues[i].HeadReqs() == []
      ensures forall r | r in requestsToSend || r in sent :: r in owner && owner[r] != i
    {
      assert Heads()[i] == [];
    }

    /** findCommandByReqID (and findCommandByReq): the panic at the end is never reached. */
    method FindCommandByReqID(reqID: nat) returns (req: Request, i: nat)
      requires Valid() && exists r :: r in sent && r.ID == reqID
      ensures req in sent && req.ID == reqID && i < |queues| && req in queues[i].HeadReqs() && owner[req] == i
    {
      hide Owned, FreshIds, Open, Driver.Heads;
      ghost var open :| open in sent && open.ID == reqID;
      ghost var o := OneOwner(open);
      i := 0;
      while true
        invariant i <= o
        decreases |queues| - i
      {
        var j := FindInReqs(reqID, queues[i].HeadReqs());
        if j >= 0 {
          req := queues[i].HeadReqs()[j];
          FoundOwned(i, req, open);
          return;
        }
        assert i != o;
        i := i + 1;
      }
    }

    static method FindInReqs(reqID: nat, reqs: seq<Request>) returns (j: int)
      ensures j < 0 ==> forall k | 0 <= k < |reqs| :: reqs[k].ID != reqID
      ensures j >= 0 ==> j < |reqs| && reqs[j].ID == reqID
    {
      for k := 0 to |reqs|
        invariant forall i | 0 <= i < k :: reqs[i].ID != reqID
      {
        if reqs[k].ID == reqID {
          return k;
        }
      }
      return -1;
    }

    lemma FoundOwned(i: nat, req: Request, open: Request)
      requires Valid() && i < |queues| && req in queues[i].HeadReqs() && open in sent && open.ID == req.ID
      ensures req == open && req in owner && owner[req] == i
    {
      hide Driver.Heads;
      OwnedAt(Heads(), owner, i, req);
      SameId(owner, requestsToSend, sent, nextID, req, open);
    }

    /** A request for the first command of queue `i`: its id is new, and it is queued for sending. */
    method AddReq(i: nat, kind: ReqKind)
      requires i < |queues| && ValidBut(i) && queues[i].commands != [] && Suits(queues[i].commands[0].kind, kind)
      modifies this, queues[i]
      ensures ValidBut(i) && nextID == old(nextID) + 1 && sent == old(sent)
      ensures requestsToSend == old(requestsToSend) + [Request(old(nextID), kind)]
      ensures queues[i].commands == WithReqs(old(queues[i].commands), [Request(old(nextID), kind)])
      ensures queues[i].IsRunning == old(queues[i].IsRunning)
    {
      hide Suits, Distinct, Owned, FreshIds, Open;
      var req := Request(nextID, kind);
      ghost var heads := Heads();
      NewReq(owner, requestsToSend, sent, nextID, req, i);
      OwnOneMore(heads, owner, i, req);
      nextID := nextID + 1;
      queues[i].SetHeadReqs(queues[i].HeadReqs() + [req]);
      requestsToSend := requestsToSend + [req];
      owner := owner[req := i];
      assert Heads() == heads[i := heads[i] + [req]];
    }

    lemma NewReq(owner: map<Request, nat>, requestsToSend: seq<Request>, sent: set<Request>, nextID: nat,
                 req: Request, i: nat)
      requires Open(owner, requestsToSend, sent) && FreshIds(owner, nextID) && req.ID == nextID
      ensures req !in owner
      ensures Open(owner[req := i], requestsToSend + [req], sent) && FreshIds(owner[req := i], nextID + 1)
    {
      assert req !in owner;
    }

    /** `n` requests of a kind. */
    method AddReqs(i: nat, kind: ReqKind, n: nat)
      requires i < |queues| && ValidBut(i) && queues[i].commands != [] && Suits(queues[i].commands[0].kind, kind)
      modifies this, queues[i]
      ensures ValidBut(i) && sent == old(sent) && nextID == old(nextID) + n
      ensures requestsToSend == old(requestsToSend) + NewReqs(old(nextID), kind, n)
      ensures queues[i].commands == WithReqs(old(queues[i].commands), NewReqs(old(nextID), kind, n))
      ensures queues[i].IsRunning == old(queues[i].IsRunning)
    {
      hide Suits, Driver.ValidBut, NewReqs, WithReqs;
      NoReqs(nextID, kind);
      NoneMore(queues[i].commands);
      for k := 0 to n
        invariant ValidBut(i) && sent == old(sent) && nextID == old(nextID) + k
        invariant requestsToSend == old(requestsToSend) + NewReqs(old(nextID), kind, k)
        invariant queues[i].commands == WithReqs(old(queues[i].commands), NewReqs(old(nextID), kind, k))
        invariant queues[i].IsRunning == old(queues[i].IsRunning)
      {
        MoreReqs(old(nextID), kind, k);
        TwiceWithReqs(old(queues[i].commands), NewReqs(old(nextID), kind, k), [Request(nextID, kind)]);
        AddReq(i, kind);
      }
    }

    /** A queue is asked for its next command; `flushes`, `copies` and `launches` are what the command needs. */
    method ProcessNewCommandFromCmdQueue(i: nat, needFlushing: bool, copies: nat, launches: nat)
      returns (madeProgress: bool)
      requires Valid() && i < |queues|
      modifies this, queues[i]
      ensures Valid() && sent == old(sent)
      ensures madeProgress == (!old(queues[i].IsRunning) && old(queues[i].commands) != [])
      ensures !madeProgress ==>
                && queues[i].IsRunning == old(queues[i].IsRunning) && queues[i].commands == old(queues[i].commands)
                && requestsToSend == old(requestsToSend)
      ensures madeProgress ==>
                var kind := old(queues[i].commands)[0].kind;
                var reqs := Requests(kind, old(nextID), if needFlushing then GPUs else 0, copies, launches);
                && requestsToSend == old(requestsToSend) + reqs
                && queues[i].commands
                   == (if kind.Noop? then [] else [Command(kind, reqs)]) + old(queues[i].commands)[1..]
                && queues[i].IsRunning == (kind.MemCopyH2D? || kind.MemCopyD2H? || (kind.LaunchKernel? && launches > 0))
    {
      hide Driver.ValidBut, NewReqs;
      if |queues[i].commands| == 0 {
        return false;
      }
      if queues[i].IsRunning {
        return false;
      }
      match queues[i].commands[0].kind {
        case LaunchKernel => ProcessLaunchKernelCommand(i, launches);
        case Noop => ProcessNoopCommand(i);
        case MemCopyH2D => ProcessMemCopyCommand(i, needFlushing, copies, MemCopyH2DReq);
        case MemCopyD2H => ProcessMemCopyCommand(i, needFlushing, copies, MemCopyD2HReq);
      }
      return true;
    }

    /** processLaunchKernelCommand, and its variant for unified GPUs, which may find nothing to launch. */
    method ProcessLaunchKernelCommand(i: nat, launches: nat)
      requires Valid() && i < |queues| && !queues[i].IsRunning && queues[i].commands != []
               && queues[i].commands[0].kind.LaunchKernel?
      modifies this, queues[i]
      ensures Valid() && sent == old(sent)
      ensures requestsToSend == old(requestsToSend) + NewReqs(old(nextID), LaunchKernelReq, launches)
      ensures queues[i].commands
              == [Command(LaunchKernel, NewReqs(old(nextID), LaunchKernelReq, launches))] + old(queues[i].commands)[1..]
      ensures queues[i].IsRunning == (launches > 0)
    {
      hide Driver.ValidBut, NewReqs, WithReqs;
      NotRunning(i);
      AddReqs(i, LaunchKernelReq, launches);
      TwiceWithReqs(old(queues[i].commands), NewReqs(old(nextID), LaunchKernelReq, launches), []);
      if launches > 0 {
        StartRunning(i);
      } else {
        NoReqs(old(nextID), LaunchKernelReq);
        StillIdle(i);
      }
    }

    lemma NotRunning(i: nat)
      requires Valid() && i < |queues| && !queues[i].IsRunning && queues[i].commands != []
      ensures ValidBut(i) && queues[i].commands[0].Reqs == []
      ensures var c := queues[i].commands; forall reqs :: WithReqs(c, reqs) == [Command(c[0].kind, reqs)] + c[1..]
    {
      hide Owned, FreshIds, Open, WithReqs;
      assert queues[i].InOrder();
      forall reqs
        ensures var c := queues[i].commands; WithReqs(c, reqs) == [Command(c[0].kind, reqs)] + c[1..]
      {
        FirstReqs(queues[i].commands, reqs);
      }
    }

    lemma StillIdle(i: nat)
      requires ValidBut(i) && i < |queues| && !queues[i].IsRunning && queues[i].HeadReqs() == []
      ensures Valid()
    {
      hide Owned, FreshIds, Open;
    }

    method ProcessNoopCommand(i: nat)
      requires Valid() && i < |queues| && !queues[i].IsRunning && queues[i].commands != []
      modifies queues[i]
      ensures Valid() && !queues[i].IsRunning && queues[i].commands == old(queues[i].commands)[1..]
    {
      hide Owned, FreshIds, Open;
      ghost var heads := Heads();
      var _ := queues[i].Dequeue();
      assert Heads() == heads;
    }

    /** processMemCopyH2DCommand and processMemCopyD2HCommand */
    method ProcessMemCopyCommand(i: nat, needFlushing: bool, copies: nat, kind: ReqKind)
      requires Valid() && i < |queues| && !queues[i].IsRunning && queues[i].commands != []
      requires !kind.FlushReq? && !kind.LaunchKernelReq? && Suits(queues[i].commands[0].kind, kind)
      modifies this, queues[i]
      ensures Valid() && sent == old(sent) && queues[i].IsRunning
      ensures var flushes := if needFlushing then GPUs else 0;
              var reqs := NewReqs(old(nextID), FlushReq, flushes) + NewReqs(old(nextID) + flushes, kind, copies);
              && requestsToSend == old(requestsToSend) + reqs
              && queues[i].commands == [Command(old(queues[i].commands)[0].kind, reqs)] + old(queues[i].commands)[1..]
    {
      hide Driver.ValidBut, NewReqs, WithReqs;
      NotRunning(i);
      ghost var flushes := NewReqs(nextID, FlushReq, if needFlushing then GPUs else 0);
      TwiceWithReqs(queues[i].commands, flushes, NewReqs(nextID + |flushes|, kind, copies));
      TwiceWithReqs(queues[i].commands, flushes + NewReqs(nextID + |flushes|, kind, copies), []);
      SendFlushRequest(i, needFlushing);
      AddReqs(i, kind, copies);
      StartRunning(i);
    }

    /** sendFlushRequest, if the copied buffer needs it: one request for each GPU. */
    method SendFlushRequest(i: nat, needFlushing: bool)
      requires i < |queues| && ValidBut(i) && queues[i].commands != [] && Suits(queues[i].commands[0].kind, FlushReq)
      modifies this, queues[i]
      ensures var flushes := NewReqs(old(nextID), FlushReq, if needFlushing then GPUs else 0);
              && ValidBut(i) && sent == old(sent) && nextID == old(nextID) + |flushes|
              && requestsToSend == old(requestsToSend) + flushes
              && queues[i].commands == WithReqs(old(queues[i].commands), flushes)
              && queues[i].IsRunning == old(queues[i].IsRunning)
    {
      hide Driver.ValidBut, NewReqs, WithReqs, Suits;
      if needFlushing {
        AddReqs(i, FlushReq, GPUs);
      } else {
        NoReqs(nextID, FlushReq);
        NoneMore(queues[i].commands);
      }
    }

    /** queue.IsRunning = true */
    method StartRunning(i: nat)
      requires i < |queues| && ValidBut(i) && queues[i].commands != []
      modifies queues[i]
      ensures Valid() && queues[i].IsRunning && queues[i].commands == old(queues[i].commands)
    {
      hide Owned, FreshIds, Open, Suits;
      ghost var heads := Heads();
      queues[i].IsRunning := true;
      assert Heads() == heads;
    }

    /** The next request leaves for its GPU, if the port accepts it. */
    method SendToGPUs(accepts: bool) returns (madeProgress: bool)
      requires Valid()
      modifies `requestsToSend, `sent
      ensures Valid() && madeProgress == (accepts && old(requestsToSend) != [])
      ensures requestsToSend == if madeProgress then old(requestsToSend)[1..] else old(requestsToSend)
      ensures sent == if madeProgress then old(sent) + {old(requestsToSend)[0]} else old(sent)
    {
      hide Owned, FreshIds;
      if requestsToSend == [] || !accepts {
        return false;
      }
      assert requestsToSend == [requestsToSend[0]] + requestsToSend[1..];
      sent := sent + {requestsToSend[0]};
      requestsToSend := requestsToSend[1..];
      return true;
    }

    /** A GPU's response to any request it has; each kind of request has its own handler. */
    method ProcessReturn(req: Request) returns (i: nat)
      requires Valid() && req in sent
      modifies this, queues
      ensures Valid() && i < |queues| && old(owner)[req] == i && owner == old(owner) - {req}
              && sent == old(sent) - {req}
      ensures requestsToSend == old(requestsToSend) && old(queues[i].commands) != []
      ensures match Answered(old(queues[i].HeadReqs()), req)
              case Complete => !queues[i].IsRunning && queues[i].commands == old(queues[i].commands)[1..]
              case Waiting(left) =>
                && queues[i].IsRunning
                && queues[i].commands == old(queues[i].commands)[0 := old(queues[i].commands)[0].(Reqs := left)]
      ensures forall j | 0 <= j < |queues| && j != i ::
                queues[j].commands == old(queues[j].commands) && queues[j].IsRunning == old(queues[j].IsRunning)
    {
      hide Driver.ValidBut, Without, Distinct;
      var found;
      DifferentQueues();
      found, i := FindCommandByReqID(req.ID);
      SameRequest(found, req);
      RemoveReq(i, req);
      if |queues[i].commands[0].Reqs| == 0 && !req.kind.FlushReq? {
        CompleteCommand(i);
      }
    }

    /** RemoveReq of the first command; the H2D handler has a loop of its own for it. */
    method RemoveReq(i: nat, req: Request)
      requires Valid() && req in sent && i < |queues| && req in queues[i].HeadReqs()
      modifies this, queues[i]
      ensures Valid() && owner == old(owner) - {req} && sent == old(sent) - {req}
              && requestsToSend == old(requestsToSend)
      ensures queues[i].IsRunning && old(queues[i].commands) != []
      ensures var head := old(queues[i].commands)[0];
              queues[i].commands == old(queues[i].commands)[0 := head.(Reqs := Without(head.Reqs, req))]
    {
      hide Owned, FreshIds, Open, Without, Suits, Distinct, Driver.Heads;
      ghost var heads := Heads();
      HeadFacts(i, req);
      OwnOneLess(heads, owner, i, req);
      OpenOneLess(owner, requestsToSend, sent, nextID, req);
      sent := sent - {req};
      owner := owner - {req};
      var reqs := RestOfHead(req, queues[i].HeadReqs());
      queues[i].SetHeadReqs(reqs);
      assert forall j | 0 <= j < |queues| && j != i :: queues[j].HeadReqs() == heads[j];
      assert Heads() == heads[i := reqs];
    }

    static method RestOfHead(req: Request, reqs: seq<Request>) returns (rest: seq<Request>)
      requires req in reqs && Distinct(reqs)
      ensures rest == Without(reqs, req)
    {
      if req.kind.MemCopyH2DReq? {
        rest := OtherReqs(req, reqs);
      } else {
        rest := RemoveMsgFromMsgList(req, reqs);
      }
    }

    /** IsRunning = false and Dequeue, when no request of the first command is left. */
    method CompleteCommand(i: nat)
      requires Valid() && i < |queues| && queues[i].commands != [] && queues[i].HeadReqs() == []
      modifies queues[i]
      ensures Valid() && !queues[i].IsRunning && queues[i].commands == old(queues[i].commands)[1..]
    {
      hide Owned, FreshIds, Open, Suits;
      ghost var heads := Heads();
      var _ := queues[i].Finish();
      assert Heads() == heads;
    }

    lemma DifferentQueues()
      requires Valid()
      ensures forall i, j | 0 <= i < |queues| && 0 <= j < |queues| && i != j :: queues[i] != queues[j]
    {}

    lemma SameRequest(r: Request, s: Request)
      requires Valid() && r in sent && s in sent && r.ID == s.ID
      ensures r == s
    {}

    lemma HeadFacts(i: nat, req: Request)
      requires Valid() && i < |queues| && req in queues[i].HeadReqs()
      ensures Distinct(queues[i].HeadReqs()) && queues[i].IsRunning && queues[i].commands != []
      ensures forall r | r in Without(queues[i].HeadReqs(), req) :: Suits(queues[i].commands[0].kind, r.kind)
    {
      assert Distinct(Heads()[i]);
      WithoutFacts(queues[i].HeadReqs(), req);
    }
  }

  /** Consecutive ids, one kind. */
  function NewReqs(first: nat, kind: ReqKind, n: nat): (r: seq<Request>)
    ensures |r| == n
  {
    if n == 0 then [] else NewReqs(first, kind, n - 1) + [Request(first + n - 1, kind)]
  }

  /** The requests of a command, in the order they are made: a copy flushes first. */
  function Requests(kind: CommandKind, first: nat, flushes: nat, copies: nat, launches: nat): seq<Request> {
    match kind
    case MemCopyH2D => NewReqs(first, FlushReq, flushes) + NewReqs(first + flushes, MemCopyH2DReq, copies)
    case MemCopyD2H => NewReqs(first, FlushReq, flushes) + NewReqs(first + flushes, MemCopyD2HReq, copies)
    case LaunchKernel => NewReqs(first, LaunchKernelReq, launches)
    case Noop => []
  }
}
