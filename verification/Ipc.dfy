/** Rendezvous messaging: the endpoint table and pending messages of `IpcManager`,
    and the machine of tasks that go through the send, receive, call and reply
    system calls in any interleaving. */
module Ipc {
  import opened Options
  import opened WaitQueues

  const MAX_ENDPOINTS: nat := 256

  datatype Message = Message(tag: nat, data: seq<nat>)

  /** An endpoint; its queue is what a `WaitQueue` holds. */
  datatype Endpoint = Endpoint(id: nat, queue: Slots, closed: bool)

  datatype IpcError = InvalidEndpoint | NotReadyError | EndpointClosed

  datatype IpcResult = WakeReceiver(receiver: nat) | BlockCurrent | NotReady | Error(error: IpcError)

  datatype Manager = Manager(endpoints: seq<Option<Endpoint>>, pending: map<nat, Message>)

  predicate Holds(slot: Option<Endpoint>, id: nat) {
    slot.Some? && slot.value.id == id
  }

  /** The first slot whose endpoint has the id, or the table length. */
  function IndexOf(eps: seq<Option<Endpoint>>, id: nat): (k: nat)
    ensures k <= |eps| && (k < |eps| ==> Holds(eps[k], id))
    ensures forall i :: 0 <= i < k ==> !Holds(eps[i], id)
  {
    if eps == [] || Holds(eps[0], id) then 0
    else
      var k := IndexOf(eps[1..], id);
      assert forall i :: 0 < i < k + 1 ==> eps[i] == eps[1..][i - 1];
      k + 1
  }

  function FirstFree(eps: seq<Option<Endpoint>>): (k: nat)
    ensures k <= |eps| && (k < |eps| ==> eps[k].None?)
    ensures forall i :: 0 <= i < k ==> eps[i].Some?
  {
    if eps == [] || eps[0].None? then 0
    else
      var k := FirstFree(eps[1..]);
      assert forall i :: 0 < i < k + 1 ==> eps[i] == eps[1..][i - 1];
      k + 1
  }

  /** `handle_send`. */
  function Send(m: Manager, ep: nat, msg: Message): (Manager, IpcResult) {
    var k := IndexOf(m.endpoints, ep);
    if k == |m.endpoints| then (m, Error(InvalidEndpoint))
    else
      var e := m.endpoints[k].value;
      if e.closed then (m, Error(EndpointClosed))
      else
        var m' := m.(endpoints := m.endpoints[k := Some(e.(queue := AfterDequeue(e.queue)))]);
        if Live(e.queue) == [] then (m', NotReady)
        else (m'.(pending := m.pending[Live(e.queue)[0] := msg]), WakeReceiver(Live(e.queue)[0]))
  }

  /** `handle_recv`. */
  function Recv(m: Manager, receiver: nat, ep: nat): (Manager, IpcResult) {
    var k := IndexOf(m.endpoints, ep);
    if k == |m.endpoints| then (m, Error(InvalidEndpoint))
    else
      var e := m.endpoints[k].value;
      if e.closed then (m, Error(EndpointClosed))
      else
        var queued := AfterEnqueue(e.queue, receiver);
        if queued.Some? then (m.(endpoints := m.endpoints[k := Some(e.(queue := queued.value))]), BlockCurrent)
        else (m, Error(NotReadyError))
  }

  function Create(m: Manager, task: nat): Manager {
    var k := FirstFree(m.endpoints);
    if k == |m.endpoints| then m else m.(endpoints := m.endpoints[k := Some(Endpoint(task, [], false))])
  }

  function Destroy(m: Manager, ep: nat): Manager {
    var k := IndexOf(m.endpoints, ep);
    if k == |m.endpoints| then m else m.(endpoints := m.endpoints[k := None])
  }

  // What the operations promise.

  /** Slot k holds the first endpoint with the id. */
  ghost predicate FirstWith(eps: seq<Option<Endpoint>>, id: nat, k: nat) {
    && k < |eps| && eps[k].Some? && eps[k].value.id == id
    && forall i :: 0 <= i < k && eps[i].Some? ==> eps[i].value.id != id
  }

  /** Slot k is the first empty one. */
  ghost predicate FirstEmpty(eps: seq<Option<Endpoint>>, k: nat) {
    k < |eps| && eps[k].None? && forall i :: 0 <= i < k ==> eps[i].Some?
  }

  /** The first endpoint with the id is open and holds fewer than 16 entries and tombstones. */
  ghost predicate Admits(eps: seq<Option<Endpoint>>, id: nat) {
    exists k: nat :: FirstWith(eps, id, k) && !eps[k].value.closed && |eps[k].value.queue| < 16
  }

  /** The first endpoint with the id is open and somebody waits there. */
  ghost predicate Serves(eps: seq<Option<Endpoint>>, id: nat) {
    exists k: nat :: FirstWith(eps, id, k) && !eps[k].value.closed && Live(eps[k].value.queue) != []
  }

  ghost predicate NoneWith(eps: seq<Option<Endpoint>>, id: nat) {
    forall i :: 0 <= i < |eps| && eps[i].Some? ==> eps[i].value.id != id
  }

  /** Nothing but the queue of the endpoint in slot k changes; these ids wait there now. */
  ghost predicate OnlyQueue(eps: seq<Option<Endpoint>>, eps': seq<Option<Endpoint>>, k: nat, waiting: seq<nat>) {
    && |eps'| == |eps| && k < |eps| && eps[k].Some? && eps'[k].Some?
    && eps'[k].value.id == eps[k].value.id && eps'[k].value.closed == eps[k].value.closed
    && Live(eps'[k].value.queue) == waiting
    && forall i :: 0 <= i < |eps| && i != k ==> eps'[i] == eps[i]
  }

  /** A receive at the endpoint in slot k: refused by a closed endpoint or a full queue;
      otherwise the receiver waits behind all others. */
  ghost predicate ReceivedAt(m: Manager, m': Manager, receiver: nat, k: nat, r: IpcResult)
    requires k < |m.endpoints| && m.endpoints[k].Some?
  {
    var e := m.endpoints[k].value;
    if e.closed then r == Error(EndpointClosed) && m' == m
    else if |e.queue| >= 16 then r == Error(NotReadyError) && m' == m
    else
      && r == BlockCurrent && m'.pending == m.pending
      && OnlyQueue(m.endpoints, m'.endpoints, k, Live(e.queue) + [receiver])
      && |m'.endpoints[k].value.queue| == |e.queue| + 1
  }

  ghost predicate Received(m: Manager, m': Manager, receiver: nat, ep: nat, r: IpcResult) {
    && (NoneWith(m.endpoints, ep) ==> r == Error(InvalidEndpoint) && m' == m)
    && forall k: nat :: FirstWith(m.endpoints, ep, k) ==> ReceivedAt(m, m', receiver, k, r)
  }

  /** A send to the endpoint in slot k: refused by a closed endpoint, without effect when
      nobody waits; otherwise the one who has waited longest gets the message and waits
      no longer. */
  ghost predicate SentAt(m: Manager, m': Manager, msg: Message, k: nat, r: IpcResult)
    requires k < |m.endpoints| && m.endpoints[k].Some?
  {
    var e := m.endpoints[k].value;
    var waiting := Live(e.queue);
    if e.closed then r == Error(EndpointClosed) && m' == m
    else if waiting == [] then
      r == NotReady && m'.pending == m.pending && OnlyQueue(m.endpoints, m'.endpoints, k, [])
    else
      && r == WakeReceiver(waiting[0]) && m'.pending == m.pending[waiting[0] := msg]
      && OnlyQueue(m.endpoints, m'.endpoints, k, waiting[1..])
  }

  ghost predicate Sent(m: Manager, m': Manager, ep: nat, msg: Message, r: IpcResult) {
    && (NoneWith(m.endpoints, ep) ==> r == Error(InvalidEndpoint) && m' == m)
    && forall k: nat :: FirstWith(m.endpoints, ep, k) ==> SentAt(m, m', msg, k, r)
  }

  lemma FoundIsFirst(eps: seq<Option<Endpoint>>, id: nat)
    ensures var k := IndexOf(eps, id);
            && (k == |eps| <==> NoneWith(eps, id)) && (k < |eps| ==> FirstWith(eps, id, k))
            && forall j: nat :: FirstWith(eps, id, j) ==> j == k < |eps|
  {
  }

  lemma RecvPromise(m: Manager, receiver: nat, ep: nat)
    ensures Received(m, Recv(m, receiver, ep).0, receiver, ep, Recv(m, receiver, ep).1)
  {
    FoundIsFirst(m.endpoints, ep);
    var k := IndexOf(m.endpoints, ep);
    if k < |m.endpoints| {
      EnqueueIsFifo(m.endpoints[k].value.queue, receiver);
    }
    hide IndexOf, Live, AfterEnqueue, FirstWith, NoneWith;
  }

  lemma SendPromise(m: Manager, ep: nat, msg: Message)
    ensures Sent(m, Send(m, ep, msg).0, ep, msg, Send(m, ep, msg).1)
  {
    FoundIsFirst(m.endpoints, ep);
    var k := IndexOf(m.endpoints, ep);
    if k < |m.endpoints| {
      DequeueIsFifo(m.endpoints[k].value.queue);
    }
    hide IndexOf, Live, AfterDequeue, FirstWith, NoneWith;
  }

  // The machine of tasks.

  /** Where a task is: free to make a system call; a sender that has stored its message
      and still has to awaken the receiver, after which a call goes on to its reply
      endpoint; between the two halves of a call; or in a receive, queued or chosen,
      which it leaves once it has both gone to sleep and been awakened. */
  datatype Phase =
    | Running
    | Waking(receiver: nat, after: Option<nat>)
    | Calling(replyEp: nat)
    | Receiving(asleep: bool, woken: bool)

  datatype Delivery = Delivery(task: nat, msg: Message)

  /** `sent` and `taken` log every message handed to a receiver and every message a
      task picked up. `seats` is the slot at which each queued task waits, `wakers`
      the sender that still has to awaken each chosen task, and `stranded` the tasks
      whose endpoint was destroyed while they waited. */
  datatype System = System(
    m: Manager, phases: map<nat, Phase>, sent: seq<Delivery>, taken: seq<Delivery>,
    seats: map<nat, nat>, wakers: map<nat, nat>, stranded: set<nat>)

  /** Every turn of the manager's lock is one action, and so is each step a task takes
      between two turns. */
  datatype Action =
    | DoSend(task: nat, ep: nat, msg: Message)
    | CallSend(task: nat, ep: nat, msg: Message, replyEp: nat)
    | Wake(task: nat)
    | DoRecv(task: nat, ep: nat)
    | CallRecv(task: nat)
    | Block(task: nat)
    | Take(task: nat)
    | DoCreate(task: nat)
    | DoDestroy(task: nat, ep: nat)

  function Init(): System {
    System(Manager(seq(MAX_ENDPOINTS, _ => None), map[]), map[], [], [], map[], map[], {})
  }

  function PhaseOf(s: System, t: nat): Phase {
    if t in s.phases then s.phases[t] else Running
  }

  /** A send; when it finds a receiver, the awakening is still to come. */
  function SendStep(s: System, t: nat, ep: nat, msg: Message, after: Option<nat>): System {
    var (m', r) := Send(s.m, ep, msg);
    if r.WakeReceiver?
    then s.(m := m', phases := s.phases[t := Waking(r.receiver, after)],
            sent := s.sent + [Delivery(r.receiver, msg)],
            seats := s.seats - {r.receiver}, wakers := s.wakers[r.receiver := t])
    else s.(m := m')
  }

  /** The sender awakens the receiver it chose. */
  function WakeStep(s: System, t: nat, r: nat, after: Option<nat>): System {
    var woken := match PhaseOf(s, r) case Receiving(asleep, _) => Receiving(asleep, true) case p => p;
    s.(phases := s.phases[r := woken][t := if after.Some? then Calling(after.value) else Running],
       wakers := s.wakers - {r})
  }

  /** A receive up to the end of its turn of the lock: the task is queued, not asleep yet. */
  function RecvStep(s: System, t: nat, ep: nat): System {
    var (m', r) := Recv(s.m, t, ep);
    if r.BlockCurrent?
    then s.(m := m', phases := s.phases[t := Receiving(false, false)],
            seats := s.seats[t := IndexOf(s.m.endpoints, ep)])
    else s.(m := m', phases := s.phases[t := Running])
  }

  /** The rest of a receive, after the task was awakened. */
  function TakeStep(s: System, t: nat): System {
    if t in s.m.pending
    then s.(m := s.m.(pending := s.m.pending - {t}), phases := s.phases[t := Running],
            taken := s.taken + [Delivery(t, s.m.pending[t])])
    else s.(phases := s.phases[t := Running])
  }

  /** The tasks queued at the endpoint that the id finds. */
  function WaitingAt(m: Manager, ep: nat): seq<nat> {
    var k := IndexOf(m.endpoints, ep);
    if k == |m.endpoints| then [] else Live(m.endpoints[k].value.queue)
  }

  function DestroyStep(s: System, ep: nat): System {
    var gone := set t | t in WaitingAt(s.m, ep);
    s.(m := Destroy(s.m, ep), seats := s.seats - gone, stranded := s.stranded + gone)
  }

  function Step(s: System, a: Action): System {
    var p := PhaseOf(s, a.task);
    match a
    case DoSend(t, ep, msg) => if p.Running? then SendStep(s, t, ep, msg, None) else s
    case CallSend(t, ep, msg, replyEp) => if p.Running? then SendStep(s, t, ep, msg, Some(replyEp)) else s
    case Wake(t) => if p.Waking? then WakeStep(s, t, p.receiver, p.after) else s
    case DoRecv(t, ep) => if p.Running? then RecvStep(s, t, ep) else s
    case CallRecv(t) => if p.Calling? then RecvStep(s, t, p.replyEp) else s
    case Block(t) => if p.Receiving? then s.(phases := s.phases[t := Receiving(true, p.woken)]) else s
    case Take(t) => if p.Receiving? && p.asleep && p.woken then TakeStep(s, t) else s
    case DoCreate(t) => if p.Running? then s.(m := Create(s.m, t)) else s
    case DoDestroy(t, ep) => if p.Running? then DestroyStep(s, ep) else s
  }

  function Run(schedule: seq<Action>): System {
    if schedule == [] then Init()
    else Step(Run(schedule[..|schedule| - 1]), schedule[|schedule| - 1])
  }

  // The invariant.

  ghost predicate NoDup(s: seq<nat>) {
    forall i, j :: 0 <= i < j < |s| ==> s[i] != s[j]
  }

  /** t is queued, uncancelled, at slot i. */
  ghost predicate Waiting(eps: seq<Option<Endpoint>>, i: nat, t: nat) {
    i < |eps| && eps[i].Some? && t in Live(eps[i].value.queue)
  }

  /** No task is queued twice, and the seats are where tasks are queued. */
  ghost predicate QueuesOk(eps: seq<Option<Endpoint>>, seats: map<nat, nat>) {
    && (forall i :: 0 <= i < |eps| && eps[i].Some? ==> NoDup(Live(eps[i].value.queue)))
    && (forall i: nat, t: nat :: Waiting(eps, i, t) <==> t in seats && seats[t] == i)
  }

  /** A task in a receive is queued, stranded, chosen by one sender, or awakened; it has
      a message exactly in the last two cases. */
  ghost predicate TaskOk(s: System, t: nat) {
    && (if !PhaseOf(s, t).Receiving? then t !in s.seats && t !in s.stranded && t !in s.wakers && t !in s.m.pending
        else if PhaseOf(s, t).woken then t !in s.seats && t !in s.stranded && t !in s.wakers && t in s.m.pending
        else if t in s.wakers then t !in s.seats && t !in s.stranded && t in s.m.pending
        else (t in s.seats <==> t !in s.stranded) && t !in s.m.pending)
    && (t in s.wakers ==> PhaseOf(s, s.wakers[t]).Waking? && PhaseOf(s, s.wakers[t]).receiver == t)
    && (PhaseOf(s, t).Waking? ==> PhaseOf(s, t).receiver in s.wakers && s.wakers[PhaseOf(s, t).receiver] == t)
  }

  ghost predicate Inv(s: System) {
    QueuesOk(s.m.endpoints, s.seats) && forall t: nat :: TaskOk(s, t)
  }

  lemma NoDupSnoc(s: seq<nat>, x: nat)
    requires NoDup(s) && x !in s
    ensures NoDup(s + [x])
  {
  }

  lemma NoDupTail(s: seq<nat>)
    requires NoDup(s) && s != []
    ensures NoDup(s[1..]) && forall x :: x in s[1..] <==> x in s && x != s[0]
  {
    assert forall x :: x in s ==> x == s[0] || x in s[1..];
  }

  /** Appending an id that waits nowhere. */
  lemma EnqueueOk(eps: seq<Option<Endpoint>>, seats: map<nat, nat>, k: nat, t: nat)
    requires QueuesOk(eps, seats) && k < |eps| && eps[k].Some? && t !in seats
    ensures QueuesOk(eps[k := Some(eps[k].value.(queue := eps[k].value.queue + [Some(t)]))], seats[t := k])
  {
    var q := eps[k].value.queue;
    var eps' := eps[k := Some(eps[k].value.(queue := q + [Some(t)]))];
    LiveConcat(q, [Some(t)]);
    assert Live([Some(t)]) == [t] by { LiveStep([Some(t)]); }
    assert !Waiting(eps, k, t);
    NoDupSnoc(Live(q), t);
    forall i: nat, u: nat ensures Waiting(eps', i, u) <==> Waiting(eps, i, u) || (i == k && u == t) {
    }
  }

  /** Taking the oldest id off a queue. */
  lemma DequeueOk(eps: seq<Option<Endpoint>>, seats: map<nat, nat>, k: nat)
    requires QueuesOk(eps, seats) && k < |eps| && eps[k].Some?
    ensures var q := eps[k].value.queue;
            var eps' := eps[k := Some(eps[k].value.(queue := AfterDequeue(q)))];
            && (Live(q) == [] ==> QueuesOk(eps', seats))
            && (Live(q) != [] ==> Live(q)[0] in seats && seats[Live(q)[0]] == k && QueuesOk(eps', seats - {Live(q)[0]}))
  {
    hide Live, AfterDequeue;
    var q := eps[k].value.queue;
    var eps' := eps[k := Some(eps[k].value.(queue := AfterDequeue(q)))];
    DequeueIsFifo(q);
    if Live(q) != [] {
      NoDupTail(Live(q));
      assert Waiting(eps, k, Live(q)[0]);
      assert forall i: nat, u: nat :: Waiting(eps', i, u) <==> Waiting(eps, i, u) && !(i == k && u == Live(q)[0]);
    } else {
      assert forall i: nat, u: nat :: Waiting(eps', i, u) <==> Waiting(eps, i, u);
    }
  }

  /** Clearing a slot strands the tasks queued there. */
  lemma ClearOk(eps: seq<Option<Endpoint>>, seats: map<nat, nat>, k: nat, gone: set<nat>)
    requires QueuesOk(eps, seats) && k < |eps| && eps[k].Some?
    requires forall t :: t in gone <==> t in Live(eps[k].value.queue)
    ensures QueuesOk(eps[k := None], seats - gone) && forall t :: t in gone ==> t in seats
  {
    var eps' := eps[k := None];
    forall t | t in gone ensures t in seats && seats[t] == k {
      assert Waiting(eps, k, t);
    }
    forall i: nat, u: nat ensures Waiting(eps', i, u) <==> Waiting(eps, i, u) && i != k {
    }
    forall t: nat | t in seats && seats[t] == k ensures t in gone {
      assert Waiting(eps, k, t);
    }
  }

  /** A new endpoint has nobody waiting. */
  lemma CreateOk(eps: seq<Option<Endpoint>>, seats: map<nat, nat>, k: nat, id: nat)
    requires QueuesOk(eps, seats) && k < |eps| && eps[k].None?
    ensures QueuesOk(eps[k := Some(Endpoint(id, [], false))], seats)
  {
    var eps' := eps[k := Some(Endpoint(id, [], false))];
    assert Live([]) == [];
    forall i: nat, u: nat ensures Waiting(eps', i, u) <==> Waiting(eps, i, u) {
    }
  }

  lemma SendInv(s: System, t: nat, ep: nat, msg: Message, after: Option<nat>)
    requires Inv(s) && PhaseOf(s, t).Running?
    ensures Inv(SendStep(s, t, ep, msg, after))
    ensures var r := Send(s.m, ep, msg).1;
            r.WakeReceiver? ==> r.receiver in s.seats && r.receiver !in s.m.pending
  {
    hide QueuesOk, Live, AfterDequeue;
    var k := IndexOf(s.m.endpoints, ep);
    if k < |s.m.endpoints| && !s.m.endpoints[k].value.closed {
      DequeueOk(s.m.endpoints, s.seats, k);
      var r := Send(s.m, ep, msg).1;
      if r.WakeReceiver? {
        assert TaskOk(s, r.receiver) && TaskOk(s, t);
        forall u: nat ensures TaskOk(SendStep(s, t, ep, msg, after), u) {
          assert TaskOk(s, u);
        }
      } else {
        SameTasks(s, s.(m := SendStep(s, t, ep, msg, after).m));
      }
    }
  }

  /** The tasks do not look at the endpoint table. */
  lemma SameTasks(s: System, s': System)
    requires Inv(s) && s' == s.(m := s'.m) && s'.m.pending == s.m.pending
    ensures forall t: nat :: TaskOk(s', t)
  {
    hide QueuesOk;
    forall t: nat ensures TaskOk(s', t) {
      assert TaskOk(s, t);
    }
  }

  lemma WakeInv(s: System, t: nat)
    requires Inv(s) && PhaseOf(s, t).Waking?
    ensures Inv(WakeStep(s, t, PhaseOf(s, t).receiver, PhaseOf(s, t).after))
  {
    hide QueuesOk;
    var r := PhaseOf(s, t).receiver;
    assert TaskOk(s, t) && TaskOk(s, r);
    forall u: nat ensures TaskOk(WakeStep(s, t, r, PhaseOf(s, t).after), u) {
      assert TaskOk(s, u);
    }
  }

  lemma RecvInv(s: System, t: nat, ep: nat)
    requires Inv(s) && (PhaseOf(s, t).Running? || PhaseOf(s, t).Calling?)
    ensures Inv(RecvStep(s, t, ep))
  {
    hide QueuesOk, Live;
    assert TaskOk(s, t);
    var k := IndexOf(s.m.endpoints, ep);
    if k < |s.m.endpoints| {
      EnqueueOk(s.m.endpoints, s.seats, k, t);
    }
    forall u: nat ensures TaskOk(RecvStep(s, t, ep), u) {
      assert TaskOk(s, u);
    }
  }

  lemma BlockInv(s: System, t: nat)
    requires Inv(s) && PhaseOf(s, t).Receiving?
    ensures Inv(s.(phases := s.phases[t := Receiving(true, PhaseOf(s, t).woken)]))
  {
    hide QueuesOk;
    assert TaskOk(s, t);
    var s' := s.(phases := s.phases[t := Receiving(true, PhaseOf(s, t).woken)]);
    forall u: nat ensures TaskOk(s', u) {
      assert TaskOk(s, u);
    }
  }

  lemma TakeInv(s: System, t: nat)
    requires Inv(s) && PhaseOf(s, t).Receiving? && PhaseOf(s, t).woken
    ensures Inv(TakeStep(s, t)) && t in s.m.pending
  {
    hide QueuesOk;
    assert TaskOk(s, t);
    forall u: nat ensures TaskOk(TakeStep(s, t), u) {
      assert TaskOk(s, u);
    }
  }

  lemma CreateInv(s: System, t: nat)
    requires Inv(s)
    ensures Inv(s.(m := Create(s.m, t)))
  {
    hide QueuesOk;
    var k := FirstFree(s.m.endpoints);
    if k < |s.m.endpoints| {
      CreateOk(s.m.endpoints, s.seats, k, t);
    }
    SameTasks(s, s.(m := Create(s.m, t)));
  }

  lemma DestroyInv(s: System, ep: nat)
    requires Inv(s)
    ensures Inv(DestroyStep(s, ep))
  {
    hide QueuesOk, Live;
    var k := IndexOf(s.m.endpoints, ep);
    var gone := set t | t in WaitingAt(s.m, ep);
    if k < |s.m.endpoints| {
      ClearOk(s.m.endpoints, s.seats, k, gone);
    } else {
      assert gone == {} && s.seats - gone == s.seats;
    }
    forall u: nat ensures TaskOk(DestroyStep(s, ep), u) {
      assert TaskOk(s, u);
    }
  }

  lemma StepInv(s: System, a: Action)
    requires Inv(s)
    ensures Inv(Step(s, a))
  {
    hide Inv, SendStep, RecvStep, WakeStep, TakeStep, DestroyStep, Create;
    var p := PhaseOf(s, a.task);
    match a {
      case DoSend(t, ep, msg) => if p.Running? { SendInv(s, t, ep, msg, None); }
      case CallSend(t, ep, msg, replyEp) => if p.Running? { SendInv(s, t, ep, msg, Some(replyEp)); }
      case Wake(t) => if p.Waking? { WakeInv(s, t); }
      case DoRecv(t, ep) => if p.Running? { RecvInv(s, t, ep); }
      case CallRecv(t) => if p.Calling? { RecvInv(s, t, p.replyEp); }
      case Block(t) => if p.Receiving? { BlockInv(s, t); }
      case Take(t) => if p.Receiving? && p.asleep && p.woken { TakeInv(s, t); }
      case DoCreate(t) => if p.Running? { CreateInv(s, t); }
      case DoDestroy(t, ep) => if p.Running? { DestroyInv(s, ep); }
    }
  }

  lemma InitInv()
    ensures Inv(Init())
  {
  }

  lemma {:induction false} RunInv(schedule: seq<Action>)
    ensures Inv(Run(schedule))
  {
    if schedule == [] {
      InitInv();
    } else {
      RunInv(schedule[..|schedule| - 1]);
      StepInv(Run(schedule[..|schedule| - 1]), schedule[|schedule| - 1]);
    }
  }

  // What the invariant gives.

  /** t is in a receive and no sender has chosen it yet. */
  predicate Unserved(s: System, t: nat) {
    PhaseOf(s, t).Receiving? && t !in s.m.pending
  }

  /** In every schedule, a task in a receive that no sender has chosen is queued at exactly
      one endpoint, precisely unless its endpoint was destroyed; nobody else is queued. */
  lemma QueuedOrStranded(schedule: seq<Action>, t: nat)
    ensures var s := Run(schedule);
            && (Unserved(s, t) <==> t in s.stranded || exists i: nat :: Waiting(s.m.endpoints, i, t))
            && (t in s.stranded ==> forall i: nat :: !Waiting(s.m.endpoints, i, t))
            && (forall i: nat, j: nat :: Waiting(s.m.endpoints, i, t) && Waiting(s.m.endpoints, j, t) ==> i == j)
            && (forall i: nat :: Waiting(s.m.endpoints, i, t) ==> NoDup(Live(s.m.endpoints[i].value.queue)))
  {
    RunInv(schedule);
    var s := Run(schedule);
    assert TaskOk(s, t);
    if t in s.seats {
      assert Waiting(s.m.endpoints, s.seats[t], t);
    }
  }

  /** A task is stranded exactly by the destruction of the endpoint it is queued at, and
      then for good: it stays in its receive without a message. */
  lemma StrandedExactly(schedule: seq<Action>, a: Action, t: nat)
    ensures var s, s' := Run(schedule), Run(schedule + [a]);
            && (t in s'.stranded && t !in s.stranded <==>
                  a.DoDestroy? && PhaseOf(s, a.task).Running? && t in WaitingAt(s.m, a.ep))
            && (t in s.stranded ==> t in s'.stranded)
            && (t in s'.stranded ==> Unserved(s', t))
  {
    var s := Run(schedule);
    RunSnoc(schedule, a);
    RunInv(schedule);
    RunInv(schedule + [a]);
    assert TaskOk(s, t) && TaskOk(Run(schedule + [a]), t);
    if a.DoDestroy? && t in WaitingAt(s.m, a.ep) {
      assert Waiting(s.m.endpoints, IndexOf(s.m.endpoints, a.ep), t);
    }
  }

  lemma RunSnoc(schedule: seq<Action>, a: Action)
    ensures Run(schedule + [a]) == Step(Run(schedule), a)
  {
    assert (schedule + [a])[..|schedule|] == schedule;
  }

  /** Task 1 creates an endpoint, task 2 receives there, task 1 destroys it. */
  lemma DestroyStrands()
    ensures 2 in Run([DoCreate(1)] + [DoRecv(2, 1)] + [DoDestroy(1, 1)]).stranded
  {
    ReceiverQueued();
    RunSnoc([DoCreate(1)] + [DoRecv(2, 1)], DoDestroy(1, 1));
    hide Run;
    LiveStep([Some(2)]);
  }

  /** Task 1 creates an endpoint and task 2 is queued there. */
  lemma ReceiverQueued()
    ensures var s := Run([DoCreate(1)] + [DoRecv(2, 1)]);
            && IndexOf(s.m.endpoints, 1) == 0 < |s.m.endpoints|
            && s.m.endpoints[0] == Some(Endpoint(1, [Some(2)], false))
            && PhaseOf(s, 1).Running? && PhaseOf(s, 2) == Receiving(false, false)
  {
    RunSnoc([], DoCreate(1));
    assert [] + [DoCreate(1)] == [DoCreate(1)] && Run([]) == Init();
    RunSnoc([DoCreate(1)], DoRecv(2, 1));
    hide Run;
    var s1, s2 := Run([DoCreate(1)]), Run([DoCreate(1)] + [DoRecv(2, 1)]);
    assert FirstFree(Init().m.endpoints) == 0;
    assert s1.m.endpoints[0] == Some(Endpoint(1, [], false)) && s1.phases == map[];
    assert IndexOf(s1.m.endpoints, 1) == 0;
    assert [] + [Some(2)] == [Some(2)];
    assert s2.m.endpoints[0] == Some(Endpoint(1, [Some(2)], false));
    assert IndexOf(s2.m.endpoints, 1) == 0;
  }

  /** w is a sender about to awaken t. */
  predicate WakerOf(s: System, w: nat, t: nat) {
    PhaseOf(s, w).Waking? && PhaseOf(s, w).receiver == t
  }

  /** In every schedule, a receiver with a message not awakened yet has exactly one sender
      about to awaken it: no wake-up is lost and none is given twice. */
  lemma OneWaker(schedule: seq<Action>, t: nat, u: nat, v: nat)
    ensures var s := Run(schedule);
            && (PhaseOf(s, t).Receiving? && !PhaseOf(s, t).woken && t in s.m.pending <==>
                  exists w: nat :: WakerOf(s, w, t))
            && (WakerOf(s, u, t) && WakerOf(s, v, t) ==> u == v)
  {
    RunInv(schedule);
    var s := Run(schedule);
    assert TaskOk(s, t) && TaskOk(s, u) && TaskOk(s, v);
    if t in s.wakers {
      assert WakerOf(s, s.wakers[t], t);
    }
    forall w: nat | WakerOf(s, w, t) ensures t in s.wakers {
      assert TaskOk(s, w);
    }
  }

  /** A sender can be about to awaken a receiver that is queued but not asleep yet. */
  lemma WakeBeforeSleep(msg: Message)
    ensures var s := Run([DoCreate(1)] + [DoRecv(2, 1)] + [DoSend(1, 1, msg)]);
            WakerOf(s, 1, 2) && PhaseOf(s, 2) == Receiving(false, false)
  {
    ReceiverQueued();
    RunSnoc([DoCreate(1)] + [DoRecv(2, 1)], DoSend(1, 1, msg));
    hide Run;
    LiveStep([Some(2)]);
  }

  /** In every schedule, the send of a task does what a send promises; when it finds a
      receiver, the task goes on to awaken it and then is done. */
  lemma SendActs(schedule: seq<Action>, t: nat, ep: nat, msg: Message)
    requires PhaseOf(Run(schedule), t).Running?
    ensures var s, s' := Run(schedule), Run(schedule + [DoSend(t, ep, msg)]);
            var r := Send(s.m, ep, msg).1;
            && Sent(s.m, s'.m, ep, msg, r)
            && (r.WakeReceiver? ==> PhaseOf(s', t) == Waking(r.receiver, None))
            && (!r.WakeReceiver? ==> s'.phases == s.phases)
            && (r.WakeReceiver? ==> PhaseOf(Run(schedule + [DoSend(t, ep, msg)] + [Wake(t)]), t).Running?)
  {
    RunSnoc(schedule, DoSend(t, ep, msg));
    RunSnoc(schedule + [DoSend(t, ep, msg)], Wake(t));
    SendPromise(Run(schedule).m, ep, msg);
    hide Run, Sent, Send;
  }

  /** In every schedule, the receive of a task does what a receive promises, and the task
      waits exactly when it was admitted. */
  lemma RecvActs(schedule: seq<Action>, t: nat, ep: nat)
    requires PhaseOf(Run(schedule), t).Running?
    ensures var s, s' := Run(schedule), Run(schedule + [DoRecv(t, ep)]);
            var r := Recv(s.m, t, ep).1;
            && Received(s.m, s'.m, t, ep, r)
            && (r == BlockCurrent ==> PhaseOf(s', t) == Receiving(false, false))
            && (r != BlockCurrent ==> PhaseOf(s', t).Running?)
            && forall u: nat :: u != t ==> PhaseOf(s', u) == PhaseOf(s, u)
  {
    RunSnoc(schedule, DoRecv(t, ep));
    RecvPromise(Run(schedule).m, t, ep);
    hide Run, Received, Recv;
  }

  /** In every schedule, creating fills the first empty slot with an endpoint nobody waits
      at, and destroying clears the first slot with the id. */
  lemma TableActs(schedule: seq<Action>, t: nat, ep: nat, k: nat)
    requires PhaseOf(Run(schedule), t).Running?
    ensures var s := Run(schedule);
            var created, destroyed := Run(schedule + [DoCreate(t)]).m, Run(schedule + [DoDestroy(t, ep)]).m;
            && (FirstEmpty(s.m.endpoints, k) ==>
                  created == s.m.(endpoints := s.m.endpoints[k := Some(Endpoint(t, [], false))]))
            && (FirstWith(s.m.endpoints, ep, k) ==>
                  destroyed == s.m.(endpoints := s.m.endpoints[k := None]))
            && (NoneWith(s.m.endpoints, ep) ==> destroyed == s.m)
  {
    RunSnoc(schedule, DoCreate(t));
    RunSnoc(schedule, DoDestroy(t, ep));
    FoundIsFirst(Run(schedule).m.endpoints, ep);
    hide Run, IndexOf, FirstWith, NoneWith;
  }

  /** In every schedule, a call whose send finds a receiver awakens it and then waits, last
      in line, at the reply endpoint, when that is open and has room. */
  lemma CallGoesOn(schedule: seq<Action>, t: nat, ep: nat, msg: Message, replyEp: nat, j: nat, k: nat)
    requires PhaseOf(Run(schedule), t).Running?
    requires FirstWith(Run(schedule).m.endpoints, ep, j) && FirstWith(Run(schedule).m.endpoints, replyEp, k)
    requires !Run(schedule).m.endpoints[j].value.closed && !Run(schedule).m.endpoints[k].value.closed
    requires Live(Run(schedule).m.endpoints[j].value.queue) != [] && |Run(schedule).m.endpoints[k].value.queue| < 16
    ensures var s := Run(schedule);
            var s' := Run(schedule + [CallSend(t, ep, msg, replyEp)] + [Wake(t)] + [CallRecv(t)]);
            var first := Live(s.m.endpoints[j].value.queue)[0];
            && PhaseOf(s', first).Receiving? && PhaseOf(s', first).woken && IsPending(s'.m, Delivery(first, msg))
            && PhaseOf(s', t) == Receiving(false, false)
            && k < |s'.m.endpoints| && s'.m.endpoints[k].Some?
            && var waiting := Live(s'.m.endpoints[k].value.queue); waiting != [] && waiting[|waiting| - 1] == t
  {
    var s := Run(schedule);
    var a1 := schedule + [CallSend(t, ep, msg, replyEp)];
    RunSnoc(schedule, CallSend(t, ep, msg, replyEp));
    RunSnoc(a1, Wake(t));
    RunSnoc(a1 + [Wake(t)], CallRecv(t));
    RunInv(schedule);
    hide Run;
    CallSteps(s, t, ep, msg, replyEp, j, k);
  }

  lemma CallSteps(s: System, t: nat, ep: nat, msg: Message, replyEp: nat, j: nat, k: nat)
    requires Inv(s) && PhaseOf(s, t).Running?
    requires FirstWith(s.m.endpoints, ep, j) && FirstWith(s.m.endpoints, replyEp, k)
    requires !s.m.endpoints[j].value.closed && !s.m.endpoints[k].value.closed
    requires Live(s.m.endpoints[j].value.queue) != [] && |s.m.endpoints[k].value.queue| < 16
    ensures var s1 := Step(s, CallSend(t, ep, msg, replyEp));
            var s' := Step(Step(s1, Wake(t)), CallRecv(t));
            var first := Live(s.m.endpoints[j].value.queue)[0];
            && PhaseOf(s', first).Receiving? && PhaseOf(s', first).woken && IsPending(s'.m, Delivery(first, msg))
            && PhaseOf(s', t) == Receiving(false, false)
            && k < |s'.m.endpoints| && s'.m.endpoints[k].Some?
            && var waiting := Live(s'.m.endpoints[k].value.queue); waiting != [] && waiting[|waiting| - 1] == t
  {
    var first := Live(s.m.endpoints[j].value.queue)[0];
    CallSends(s, t, ep, msg, replyEp, j);
    DequeueIsFifo(s.m.endpoints[j].value.queue);
    var s2 := Step(Step(s, CallSend(t, ep, msg, replyEp)), Wake(t));
    StillFirst(s.m.endpoints, s2.m.endpoints, j, replyEp, k);
    CallReceives(s2, t, replyEp, k);
    hide Inv, Step, IndexOf, Live, AfterDequeue, FirstWith;
  }

  /** The first half of a call: the one who has waited longest is awakened with the message. */
  lemma CallSends(s: System, t: nat, ep: nat, msg: Message, replyEp: nat, j: nat)
    requires Inv(s) && PhaseOf(s, t).Running? && FirstWith(s.m.endpoints, ep, j)
    requires !s.m.endpoints[j].value.closed && Live(s.m.endpoints[j].value.queue) != []
    ensures var s' := Step(Step(s, CallSend(t, ep, msg, replyEp)), Wake(t));
            var first := Live(s.m.endpoints[j].value.queue)[0];
            && first != t && PhaseOf(s', first).Receiving? && PhaseOf(s', first).woken
            && IsPending(s'.m, Delivery(first, msg)) && PhaseOf(s', t) == Calling(replyEp)
            && s'.m.endpoints ==
               s.m.endpoints[j := Some(s.m.endpoints[j].value.(queue := AfterDequeue(s.m.endpoints[j].value.queue)))]
            && OnlyQueue(s.m.endpoints, s'.m.endpoints, j, Live(s.m.endpoints[j].value.queue)[1..])
  {
    FoundIsFirst(s.m.endpoints, ep);
    DequeueIsFifo(s.m.endpoints[j].value.queue);
    SendInv(s, t, ep, msg, Some(replyEp));
    var first := Live(s.m.endpoints[j].value.queue)[0];
    assert TaskOk(s, first) && TaskOk(s, t);
    hide Inv, TaskOk, IndexOf, Live, AfterDequeue, FirstWith;
  }

  /** The second half of a call: the caller waits at the reply endpoint. */
  lemma CallReceives(s: System, t: nat, ep: nat, k: nat)
    requires PhaseOf(s, t) == Calling(ep) && FirstWith(s.m.endpoints, ep, k)
    requires !s.m.endpoints[k].value.closed && |s.m.endpoints[k].value.queue| < 16
    ensures var s' := Step(s, CallRecv(t));
            && PhaseOf(s', t) == Receiving(false, false) && s'.m.pending == s.m.pending
            && (forall u :: u != t ==> PhaseOf(s', u) == PhaseOf(s, u))
            && k < |s'.m.endpoints| && s'.m.endpoints[k].Some?
            && Live(s'.m.endpoints[k].value.queue) == Live(s.m.endpoints[k].value.queue) + [t]
  {
    FoundIsFirst(s.m.endpoints, ep);
    EnqueueIsFifo(s.m.endpoints[k].value.queue, t);
    hide IndexOf, Live, FirstWith, AfterEnqueue;
  }

  lemma StillFirst(eps: seq<Option<Endpoint>>, eps': seq<Option<Endpoint>>, j: nat, id: nat, k: nat)
    requires FirstWith(eps, id, k) && exists waiting :: OnlyQueue(eps, eps', j, waiting)
    ensures FirstWith(eps', id, k)
  {
    hide Live;
  }

  /** In every schedule, an awakened receiver that goes on ends its receive with its message. */
  lemma ReceiveEnds(schedule: seq<Action>, t: nat)
    requires PhaseOf(Run(schedule), t).Receiving? && PhaseOf(Run(schedule), t).woken
    ensures var s, s' := Run(schedule), Run(schedule + [Block(t)] + [Take(t)]);
            && PhaseOf(s', t).Running? && t in s.m.pending && s'.m.pending == s.m.pending - {t}
            && s'.taken == s.taken + [Delivery(t, s.m.pending[t])]
  {
    RunSnoc(schedule, Block(t));
    RunSnoc(schedule + [Block(t)], Take(t));
    RunInv(schedule);
    assert TaskOk(Run(schedule), t);
    hide Run, Inv, TaskOk;
  }

  /** How often d occurs in a log. */
  ghost function Count(log: seq<Delivery>, d: Delivery): nat {
    if log == [] then 0 else Count(log[..|log| - 1], d) + if log[|log| - 1] == d then 1 else 0
  }

  lemma CountSnoc(log: seq<Delivery>, e: Delivery, d: Delivery)
    ensures Count(log + [e], d) == Count(log, d) + if e == d then 1 else 0
  {
    assert (log + [e])[..|log|] == log;
  }

  ghost predicate IsPending(m: Manager, d: Delivery) {
    d.task in m.pending && m.pending[d.task] == d.msg
  }

  ghost predicate Conserved(s: System, d: Delivery) {
    Count(s.sent, d) == Count(s.taken, d) + if IsPending(s.m, d) then 1 else 0
  }

  lemma SendConserves(s: System, t: nat, ep: nat, msg: Message, after: Option<nat>, d: Delivery)
    requires Inv(s) && Conserved(s, d) && PhaseOf(s, t).Running?
    ensures Conserved(SendStep(s, t, ep, msg, after), d)
  {
    hide Inv, Count, Live, AfterDequeue, IndexOf;
    SendInv(s, t, ep, msg, after);
    var r := Send(s.m, ep, msg).1;
    if r.WakeReceiver? {
      CountSnoc(s.sent, Delivery(r.receiver, msg), d);
    }
  }

  lemma StepConserves(s: System, a: Action, d: Delivery)
    requires Inv(s) && Conserved(s, d)
    ensures Conserved(Step(s, a), d)
  {
    hide Inv, Count, Send, IndexOf, SendStep;
    var p := PhaseOf(s, a.task);
    match a {
      case DoSend(t, ep, msg) => if p.Running? { SendConserves(s, t, ep, msg, None, d); }
      case CallSend(t, ep, msg, replyEp) => if p.Running? { SendConserves(s, t, ep, msg, Some(replyEp), d); }
      case Take(t) => if t in s.m.pending { CountSnoc(s.taken, Delivery(t, s.m.pending[t]), d); }
      case _ =>
    }
  }

  /** In every schedule, every message handed to a receiver is picked up exactly
      once by that receiver or is still waiting for it. */
  lemma {:induction false} DeliveredOnce(schedule: seq<Action>, d: Delivery)
    ensures var s := Run(schedule);
            Count(s.sent, d) == Count(s.taken, d) + if IsPending(s.m, d) then 1 else 0
  {
    if schedule != [] {
      var before := schedule[..|schedule| - 1];
      DeliveredOnce(before, d);
      RunInv(before);
      StepConserves(Run(before), schedule[|schedule| - 1], d);
    }
  }

  /** In every schedule, a send that finds a receiver overwrites no pending message,
      and the receiver is the one that has waited longest at that endpoint. */
  lemma SendNeverOverwrites(schedule: seq<Action>, t: nat, ep: nat, msg: Message)
    requires PhaseOf(Run(schedule), t).Running?
    ensures var m := Run(schedule).m;
            var (m', r) := Send(m, ep, msg);
            r.WakeReceiver? ==>
              && r.receiver !in m.pending
              && m'.pending == m.pending[r.receiver := msg]
              && WaitingAt(m, ep) != [] && r.receiver == WaitingAt(m, ep)[0]
  {
    RunInv(schedule);
    SendInv(Run(schedule), t, ep, msg, None);
    hide Inv;
  }

  /** In every schedule, a receiver that slept and was awakened finds its message. */
  lemma WokenFindsMessage(schedule: seq<Action>, t: nat)
    ensures var s := Run(schedule);
            PhaseOf(s, t).Receiving? && PhaseOf(s, t).asleep && PhaseOf(s, t).woken ==>
              t in s.m.pending && Step(s, Take(t)).taken == s.taken + [Delivery(t, s.m.pending[t])]
  {
    RunInv(schedule);
    assert TaskOk(Run(schedule), t);
  }

  // The manager itself.

  class IpcManager {
    var endpoints: seq<Option<Endpoint>>
    var pending: map<nat, Message>

    ghost function View(): Manager
      reads this
    {
      Manager(endpoints, pending)
    }

    constructor ()
      ensures View() == Init().m
    {
      endpoints := seq(MAX_ENDPOINTS, _ => None);
      pending := map[];
    }

    /** The table position of the first endpoint with the id, or the table length. */
    method GetEndpoint(id: nat) returns (k: nat)
      ensures k == IndexOf(endpoints, id)
    {
      k := 0;
      assert endpoints[0..] == endpoints;
      while k < |endpoints|
        invariant k <= |endpoints|
        invariant IndexOf(endpoints, id) == k + IndexOf(endpoints[k..], id)
      {
        assert endpoints[k..][0] == endpoints[k] && endpoints[k..][1..] == endpoints[k + 1..];
        if endpoints[k].Some? && endpoints[k].value.id == id {
          return;
        }
        k := k + 1;
      }
    }

    /** Puts a new endpoint with the task's id into the first free slot, if any. */
    method CreateEndpoint(task: nat) returns (id: Option<nat>)
      modifies this`endpoints
      ensures View() == Create(old(View()), task)
      ensures id == None <==> forall i :: 0 <= i < |old(endpoints)| ==> old(endpoints)[i].Some?
      ensures id == None ==> endpoints == old(endpoints)
      ensures id.Some? ==> id.value == task
      ensures forall k: nat :: FirstEmpty(old(endpoints), k) ==>
                endpoints == old(endpoints)[k := Some(Endpoint(task, [], false))]
    {
      var k := 0;
      assert endpoints[0..] == endpoints;
      while k < |endpoints|
        invariant k <= |endpoints| && endpoints == old(endpoints)
        invariant FirstFree(endpoints) == k + FirstFree(endpoints[k..])
      {
        assert endpoints[k..][0] == endpoints[k] && endpoints[k..][1..] == endpoints[k + 1..];
        if endpoints[k].None? {
          endpoints := endpoints[k := Some(Endpoint(task, [], false))];
          return Some(task);
        }
        k := k + 1;
      }
      return None;
    }

    /** Clears the slot of the first endpoint with the id, if any. */
    method DestroyEndpoint(ep: nat)
      modifies this`endpoints
      ensures View() == Destroy(old(View()), ep)
      ensures NoneWith(old(endpoints), ep) ==> endpoints == old(endpoints)
      ensures forall k: nat :: FirstWith(old(endpoints), ep, k) ==> endpoints == old(endpoints)[k := None]
    {
      FoundIsFirst(endpoints, ep);
      hide IndexOf, FirstWith, NoneWith;
      var k := GetEndpoint(ep);
      if k < |endpoints| {
        endpoints := endpoints[k := None];
      }
    }

    method HandleSend(ep: nat, msg: Message) returns (r: IpcResult)
      modifies this
      ensures (View(), r) == Send(old(View()), ep, msg)
      ensures Sent(old(View()), View(), ep, msg, r)
      ensures r.WakeReceiver? <==> Serves(old(endpoints), ep)
    {
      SendPromise(View(), ep, msg);
      FoundIsFirst(endpoints, ep);
      hide IndexOf, Sent, FirstWith, NoneWith, Live, AfterDequeue;
      var k := GetEndpoint(ep);
      if k == |endpoints| {
        return Error(InvalidEndpoint);
      }
      var e := endpoints[k].value;
      if e.closed {
        return Error(EndpointClosed);
      }
      var live := Live(e.queue);
      endpoints := endpoints[k := Some(e.(queue := AfterDequeue(e.queue)))];
      if live == [] {
        return NotReady;
      }
      StorePendingMessage(live[0], msg);
      return WakeReceiver(live[0]);
    }

    method StorePendingMessage(task: nat, msg: Message)
      modifies this`pending
      ensures pending == old(pending)[task := msg]
    {
      pending := pending[task := msg];
    }

    method HandleRecv(receiver: nat, ep: nat) returns (r: IpcResult)
      modifies this
      ensures (View(), r) == Recv(old(View()), receiver, ep)
      ensures Received(old(View()), View(), receiver, ep, r)
      ensures r == BlockCurrent <==> Admits(old(endpoints), ep)
    {
      RecvPromise(View(), receiver, ep);
      FoundIsFirst(endpoints, ep);
      hide IndexOf, Received, FirstWith, NoneWith, Live;
      var k := GetEndpoint(ep);
      if k == |endpoints| {
        return Error(InvalidEndpoint);
      }
      var e := endpoints[k].value;
      if e.closed {
        return Error(EndpointClosed);
      }
      var queued := AfterEnqueue(e.queue, receiver);
      if queued.Some? {
        endpoints := endpoints[k := Some(e.(queue := queued.value))];
        return BlockCurrent;
      }
      return Error(NotReadyError);
    }

    /** Hands a task its pending message, once. */
    method TakePendingMessage(task: nat) returns (msg: Option<Message>)
      modifies this`pending
      ensures msg == if task in old(pending) then Some(old(pending)[task]) else None
      ensures pending == old(pending) - {task}
    {
      if task in pending {
        msg := Some(pending[task]);
        pending := pending - {task};
      } else {
        msg := None;
        assert pending == pending - {task};
      }
    }
  }
}
