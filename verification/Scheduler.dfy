/** Where every task is: current on one CPU, in one local queue, in the global
    queue, asleep until a tick, or blocked on a message. Each scheduler entry
    point is one atomic step. */
module Scheduler {
  import opened Options

  const RQ_CAP: nat := 1024
  const STEAL_BATCH: nat := 4
  const NS_PER_TICK: nat := 1_000_000

  datatype TaskState = Running | Ready | Sleep

  /** wakeAt is 0 for a task that is not waiting for a tick. */
  datatype Tcb = Tcb(state: TaskState, wakeAt: nat)

  /** A CPU's current task and its run queue, oldest first. */
  datatype Cpu = Cpu(curr: Option<nat>, queue: seq<nat>)

  /** `limit` bounds the task ids, `lost` holds the tasks a steal dropped, which stay
      in the task table but in no queue until they are awakened, and `halted` says
      that a full run queue made the kernel panic. */
  datatype State = State(
    cpus: seq<Cpu>, global: seq<nat>, tasks: map<nat, Tcb>, limit: nat, tick: nat, lost: set<nat>, halted: bool)

  datatype Action =
    | AddTask(id: nat)
    | Tick(cpu: nat)
    | Idle(cpu: nat)
    | SleepFor(cpu: nat, ns: nat)
    | BlockOnIpc(cpu: nat)
    | Awaken(id: nat)

  function Init(n: nat): State {
    State(seq(n, _ => Cpu(None, [])), [], map[], 0, 0, {}, false)
  }

  /** `awaken_task`: ready again, at the back of the global queue. */
  function AwakenTask(s: State, t: nat): State
    requires t in s.tasks
  {
    s.(tasks := s.tasks[t := s.tasks[t].(state := Ready)], global := s.global + [t])
  }

  predicate Due(s: State, t: nat) {
    t in s.tasks && s.tasks[t].state == Sleep && s.tasks[t].wakeAt != 0 && s.tick >= s.tasks[t].wakeAt
  }

  /** Wakes the due sleepers with ids below n, in order of id. */
  function WakeBelow(s: State, n: nat): State {
    if n == 0 then s
    else
      var s' := WakeBelow(s, n - 1);
      if Due(s', n - 1)
      then AwakenTask(s'.(tasks := s'.tasks[n - 1 := s'.tasks[n - 1].(wakeAt := 0)]), n - 1)
      else s'
  }

  /** `process_tick` on one CPU: the newest queued task takes over from the current
      one, which goes back to the queue. */
  function ProcessTick(s: State, c: nat): State
    requires c < |s.cpus|
  {
    var cpu := s.cpus[c];
    if cpu.queue == [] then s
    else
      var next, rest := cpu.queue[|cpu.queue| - 1], cpu.queue[..|cpu.queue| - 1];
      var queue := if cpu.curr.Some? then rest + [cpu.curr.value] else rest;
      s.(cpus := s.cpus[c := Cpu(Some(next), queue)],
         tasks := SetState(if cpu.curr.Some? then SetState(s.tasks, cpu.curr.value, Ready) else s.tasks, next, Running))
  }

  function SetState(tasks: map<nat, Tcb>, t: nat, state: TaskState): map<nat, Tcb> {
    if t in tasks then tasks[t := tasks[t].(state := state)] else tasks
  }

  datatype Stolen = Stolen(cpus: seq<Cpu>, buf: seq<nat>, dropped: Option<nat>)

  predicate Eligible(cpus: seq<Cpu>, me: nat, idx: nat)
    requires idx < |cpus|
  {
    idx != me && |cpus[idx].queue| >= STEAL_BATCH
  }

  /** `try_to_steal_into`: one task from every other CPU with at least four queued; a
      task stolen when the buffer is full is dropped. */
  function StealLoop(cpus: seq<Cpu>, me: nat, idx: nat, buf: seq<nat>): Stolen
    requires idx <= |cpus|
    decreases |cpus| - idx
  {
    if idx == |cpus| then Stolen(cpus, buf, None)
    else if !Eligible(cpus, me, idx) then StealLoop(cpus, me, idx + 1, buf)
    else
      var cpu := cpus[idx];
      var cpus' := cpus[idx := cpu.(queue := cpu.queue[1..])];
      if |buf| >= STEAL_BATCH then Stolen(cpus', buf, Some(cpu.queue[0]))
      else StealLoop(cpus', me, idx + 1, buf + [cpu.queue[0]])
  }

  /** The first n elements at most. */
  function Front(q: seq<nat>, n: nat): seq<nat> {
    if |q| <= n then q else q[..n]
  }

  /** One round of the idle task: steal from other CPUs, or else take from the
      global queue, and put the loot into the own queue. */
  function IdleRound(s: State, me: nat): State
    requires me < |s.cpus|
  {
    var st := StealLoop(s.cpus, me, 0, []);
    var loot := if st.buf != [] then st.buf else Front(s.global, STEAL_BATCH);
    if |st.cpus| <= me || |st.cpus[me].queue| + |loot| > RQ_CAP then s.(halted := true)
    else
      s.(cpus := st.cpus[me := st.cpus[me].(queue := st.cpus[me].queue + loot)],
         global := if st.buf != [] then s.global else s.global[|loot|..],
         lost := if st.dropped.Some? then s.lost + {st.dropped.value} else s.lost)
  }

  /** Puts the current task to sleep and leaves the CPU idle. */
  function PutToSleep(s: State, c: nat): State
    requires c < |s.cpus| && s.cpus[c].curr.Some?
  {
    s.(cpus := s.cpus[c := s.cpus[c].(curr := None)], tasks := SetState(s.tasks, s.cpus[c].curr.value, Sleep))
  }

  function SetWake(tasks: map<nat, Tcb>, t: nat, wakeAt: nat): map<nat, Tcb> {
    if t in tasks then tasks[t := tasks[t].(wakeAt := wakeAt)] else tasks
  }

  /** The task is blocked on a message: asleep, but not until a tick. */
  predicate IpcBlocked(s: State, t: nat) {
    t in s.tasks && s.tasks[t] == Tcb(Sleep, 0)
  }

  /** The task can be awakened: it is blocked on a message, or a steal dropped it. */
  predicate Awakenable(s: State, t: nat) {
    IpcBlocked(s, t) || (t in s.tasks && t in s.lost)
  }

  /** Every entry point is one step. An awakening finds its task in a state for it; what
      happens when it does not is said of `FreeStep`. */
  function Step(s: State, a: Action): State {
    if s.halted then s else
    match a
    case AddTask(t) =>
      if t in s.tasks then s
      else s.(tasks := s.tasks[t := Tcb(Ready, 0)], global := s.global + [t],
              limit := if t >= s.limit then t + 1 else s.limit)
    case Tick(c) =>
      var s1 := s.(tick := s.tick + 1);
      var s2 := if c == 0 then WakeBelow(s1, s1.limit) else s1;
      if c < |s2.cpus| then ProcessTick(s2, c) else s2
    case Idle(c) => if c < |s.cpus| && s.cpus[c].curr.None? then IdleRound(s, c) else s
    case SleepFor(c, ns) =>
      var ticks := (ns + (NS_PER_TICK - 1)) / NS_PER_TICK;
      if c < |s.cpus| && s.cpus[c].curr.Some? && ticks > 0
      then PutToSleep(s.(tasks := SetWake(s.tasks, s.cpus[c].curr.value, s.tick + ticks)), c)
      else s
    case BlockOnIpc(c) => if c < |s.cpus| && s.cpus[c].curr.Some? then PutToSleep(s, c) else s
    case Awaken(t) => if Awakenable(s, t) then AwakenTask(s.(lost := s.lost - {t}), t) else s
  }

  function Run(n: nat, schedule: seq<Action>): State {
    if schedule == [] then Init(n)
    else Step(Run(n, schedule[..|schedule| - 1]), schedule[|schedule| - 1])
  }

  // Counting the places a task is in.

  ghost function Count(q: seq<nat>, t: nat): nat {
    if q == [] then 0 else Count(q[..|q| - 1], t) + if q[|q| - 1] == t then 1 else 0
  }

  ghost function Queued(cpus: seq<Cpu>, t: nat): nat {
    if cpus == [] then 0 else Queued(cpus[..|cpus| - 1], t) + Count(cpus[|cpus| - 1].queue, t)
  }

  ghost function Current(cpus: seq<Cpu>, t: nat): nat {
    if cpus == [] then 0 else Current(cpus[..|cpus| - 1], t) + if cpus[|cpus| - 1].curr == Some(t) then 1 else 0
  }

  /** How often t is in a local queue or the global one. */
  ghost function InQueues(s: State, t: nat): nat {
    Queued(s.cpus, t) + Count(s.global, t)
  }

  /** The task's state field says where it is, and it is there exactly once; only a
      task a steal dropped is ready and nowhere. */
  ghost predicate Placed(s: State, t: nat) {
    if t !in s.tasks then Current(s.cpus, t) == 0 && InQueues(s, t) == 0 && t !in s.lost
    else
      && t < s.limit
      && (s.tasks[t].wakeAt != 0 ==> s.tasks[t].state == Sleep)
      && (t in s.lost ==> s.tasks[t].state == Ready)
      && match s.tasks[t].state
         case Running => Current(s.cpus, t) == 1 && InQueues(s, t) == 0
         case Ready => Current(s.cpus, t) == 0 && InQueues(s, t) == if t in s.lost then 0 else 1
         case Sleep => Current(s.cpus, t) == 0 && InQueues(s, t) == 0
  }

  lemma {:induction false} CountConcat(a: seq<nat>, b: seq<nat>, t: nat)
    ensures Count(a + b, t) == Count(a, t) + Count(b, t)
  {
    if b == [] {
      assert a + b == a;
    } else {
      CountConcat(a, b[..|b| - 1], t);
      assert (a + b)[..|a + b| - 1] == a + b[..|b| - 1];
    }
  }

  lemma CountFirst(q: seq<nat>, t: nat)
    requires q != []
    ensures Count(q, t) == (if q[0] == t then 1 else 0) + Count(q[1..], t)
  {
    assert q == [q[0]] + q[1..];
    CountConcat([q[0]], q[1..], t);
    assert [q[0]][..0] == [];
  }

  lemma CountSnoc(q: seq<nat>, x: nat, t: nat)
    ensures Count(q + [x], t) == Count(q, t) + if x == t then 1 else 0
  {
    assert (q + [x])[..|q|] == q;
  }

  lemma {:induction false} QueuedUpdate(cpus: seq<Cpu>, i: nat, c: Cpu, t: nat)
    requires i < |cpus|
    ensures Queued(cpus[i := c], t) == Queued(cpus, t) - Count(cpus[i].queue, t) + Count(c.queue, t)
    ensures Queued(cpus, t) >= Count(cpus[i].queue, t)
    decreases |cpus|
  {
    var k := |cpus| - 1;
    if i < k {
      QueuedUpdate(cpus[..k], i, c, t);
      assert cpus[i := c][..k] == cpus[..k][i := c];
    } else {
      assert cpus[i := c][..k] == cpus[..k];
    }
  }

  lemma {:induction false} CurrentUpdate(cpus: seq<Cpu>, i: nat, c: Cpu, t: nat)
    requires i < |cpus|
    ensures Current(cpus[i := c], t) ==
            Current(cpus, t) - (if cpus[i].curr == Some(t) then 1 else 0) + (if c.curr == Some(t) then 1 else 0)
    ensures cpus[i].curr == Some(t) ==> Current(cpus, t) >= 1
    decreases |cpus|
  {
    var k := |cpus| - 1;
    if i < k {
      CurrentUpdate(cpus[..k], i, c, t);
      assert cpus[i := c][..k] == cpus[..k][i := c];
    } else {
      assert cpus[i := c][..k] == cpus[..k];
    }
  }

  lemma ProcessTickPlaced(s: State, c: nat, t: nat)
    requires c < |s.cpus| && Placed(s, t)
    ensures Placed(ProcessTick(s, c), t)
  {
    hide Count, Queued, Current;
    var cpu := s.cpus[c];
    if cpu.queue != [] {
      var cpu' := ProcessTick(s, c).cpus[c];
      QueuedUpdate(s.cpus, c, cpu', t);
      CurrentUpdate(s.cpus, c, cpu', t);
      RotateCount(cpu, t);
    }
  }

  /** What a tick does to one CPU's counts. */
  lemma RotateCount(cpu: Cpu, t: nat)
    requires cpu.queue != []
    ensures var next, rest := cpu.queue[|cpu.queue| - 1], cpu.queue[..|cpu.queue| - 1];
            && Count(cpu.queue, t) == Count(rest, t) + (if next == t then 1 else 0)
            && (cpu.curr.Some? ==>
                  Count(rest + [cpu.curr.value], t) == Count(rest, t) + if cpu.curr.value == t then 1 else 0)
  {
    if cpu.curr.Some? {
      CountSnoc(cpu.queue[..|cpu.queue| - 1], cpu.curr.value, t);
    }
  }

  lemma AwakenPlaced(s: State, x: nat, t: nat)
    requires Placed(s, t) && x in s.tasks && s.tasks[x] == Tcb(Sleep, 0)
    ensures Placed(AwakenTask(s, x), t)
  {
    hide Queued, Current, Count;
    CountSnoc(s.global, x, t);
  }

  lemma AwakenedPlaced(s: State, x: nat, t: nat)
    requires Placed(s, t) && Awakenable(s, x)
    ensures Placed(AwakenTask(s.(lost := s.lost - {x}), x), t)
  {
    hide Queued, Current, Count;
    CountSnoc(s.global, x, t);
  }

  lemma ClearWake(s: State, x: nat, t: nat)
    requires Placed(s, t) && x in s.tasks
    ensures Placed(s.(tasks := s.tasks[x := s.tasks[x].(wakeAt := 0)]), t)
  {
  }

  lemma {:induction false} WakePlaced(s: State, n: nat, t: nat)
    requires Placed(s, t)
    ensures Placed(WakeBelow(s, n), t)
    ensures WakeBelow(s, n).cpus == s.cpus && WakeBelow(s, n).tasks.Keys == s.tasks.Keys
    ensures WakeBelow(s, n).tick == s.tick && WakeBelow(s, n).lost == s.lost && !WakeBelow(s, n).halted == !s.halted
    decreases n
  {
    if n > 0 {
      hide Placed;
      WakePlaced(s, n - 1, t);
      var s' := WakeBelow(s, n - 1);
      if Due(s', n - 1) {
        ClearWake(s', n - 1, t);
        AwakenPlaced(s'.(tasks := s'.tasks[n - 1 := s'.tasks[n - 1].(wakeAt := 0)]), n - 1, t);
      }
    }
  }

  /** Stealing moves tasks and drops at most one. */
  lemma {:induction false} StealCount(cpus: seq<Cpu>, me: nat, idx: nat, buf: seq<nat>, t: nat)
    requires idx <= |cpus| && |buf| <= STEAL_BATCH && me < |cpus|
    ensures var r := StealLoop(cpus, me, idx, buf);
            && Queued(r.cpus, t) + Count(r.buf, t) + (if r.dropped == Some(t) then 1 else 0) ==
               Queued(cpus, t) + Count(buf, t)
            && Current(r.cpus, t) == Current(cpus, t)
            && |r.cpus| == |cpus| && r.cpus[me] == cpus[me] && |r.buf| <= STEAL_BATCH
            && (r.dropped.Some? ==> r.buf != [])
    decreases |cpus| - idx
  {
    hide Queued, Current, Count;
    if idx < |cpus| {
      if !Eligible(cpus, me, idx) {
        StealCount(cpus, me, idx + 1, buf, t);
      } else {
        var cpu := cpus[idx];
        var cpu' := cpu.(queue := cpu.queue[1..]);
        CountFirst(cpu.queue, t);
        QueuedUpdate(cpus, idx, cpu', t);
        CurrentUpdate(cpus, idx, cpu', t);
        if |buf| < STEAL_BATCH {
          CountSnoc(buf, cpu.queue[0], t);
          StealCount(cpus[idx := cpu'], me, idx + 1, buf + [cpu.queue[0]], t);
        }
      }
    }
  }

  lemma FrontCount(q: seq<nat>, n: nat, t: nat)
    ensures |Front(q, n)| <= |q| && Count(q, t) == Count(Front(q, n), t) + Count(q[|Front(q, n)|..], t)
  {
    var k := |Front(q, n)|;
    assert q == q[..k] + q[k..] && Front(q, n) == q[..k];
    CountConcat(q[..k], q[k..], t);
  }

  lemma IdlePlaced(s: State, me: nat, t: nat)
    requires me < |s.cpus| && Placed(s, t)
    ensures Placed(IdleRound(s, me), t)
  {
    hide Queued, Current, Count, StealLoop, Front;
    var st := StealLoop(s.cpus, me, 0, []);
    StealCount(s.cpus, me, 0, [], t);
    EmptyCount(t);
    var loot := if st.buf != [] then st.buf else Front(s.global, STEAL_BATCH);
    FrontCount(s.global, STEAL_BATCH, t);
    var cpu' := st.cpus[me].(queue := st.cpus[me].queue + loot);
    QueuedUpdate(st.cpus, me, cpu', t);
    CurrentUpdate(st.cpus, me, cpu', t);
    CountConcat(st.cpus[me].queue, loot, t);
  }

  lemma EmptyCount(t: nat)
    ensures Count([], t) == 0
  {
  }

  lemma SleepPlaced(s: State, c: nat, tasks: map<nat, Tcb>, t: nat)
    requires c < |s.cpus| && s.cpus[c].curr.Some? && Placed(s, t)
    requires tasks == s.tasks || exists w: nat :: tasks == SetWake(s.tasks, s.cpus[c].curr.value, w)
    ensures Placed(PutToSleep(s.(tasks := tasks), c), t)
  {
    hide Queued, Current, Count;
    var cpu' := s.cpus[c].(curr := None);
    QueuedUpdate(s.cpus, c, cpu', t);
    CurrentUpdate(s.cpus, c, cpu', t);
  }

  lemma StepPlaced(s: State, a: Action, t: nat)
    requires Placed(s, t)
    ensures Placed(Step(s, a), t)
  {
    hide Queued, Current, Count;
    if !s.halted {
      match a {
        case AddTask(x) => CountSnoc(s.global, x, t);
        case Tick(c) => TickPlaced(s, c, t);
        case Idle(c) => if c < |s.cpus| { IdlePlaced(s, c, t); }
        case SleepFor(c, ns) =>
          if c < |s.cpus| && s.cpus[c].curr.Some? {
            var wakeAt := s.tick + (ns + (NS_PER_TICK - 1)) / NS_PER_TICK;
            SleepPlaced(s, c, SetWake(s.tasks, s.cpus[c].curr.value, wakeAt), t);
          }
        case BlockOnIpc(c) => if c < |s.cpus| && s.cpus[c].curr.Some? { SleepPlaced(s, c, s.tasks, t); }
        case Awaken(x) => if Awakenable(s, x) { AwakenedPlaced(s, x, t); }
      }
    }
  }

  lemma TickPlaced(s: State, c: nat, t: nat)
    requires Placed(s, t) && !s.halted
    ensures Placed(Step(s, Tick(c)), t)
  {
    hide Queued, Current, Count, WakeBelow, ProcessTick;
    var s1 := s.(tick := s.tick + 1);
    assert Placed(s1, t);
    WakePlaced(s1, s1.limit, t);
    var s2 := if c == 0 then WakeBelow(s1, s1.limit) else s1;
    if c < |s2.cpus| {
      ProcessTickPlaced(s2, c, t);
    }
  }

  lemma {:induction false} InitEmpty(n: nat, t: nat)
    ensures Queued(seq(n, _ => Cpu(None, [])), t) == 0 && Current(seq(n, _ => Cpu(None, [])), t) == 0
    decreases n
  {
    if n > 0 {
      InitEmpty(n - 1, t);
      assert seq(n, _ => Cpu(None, []))[..n - 1] == seq(n - 1, _ => Cpu(None, []));
    }
  }

  /** In every schedule on any number of CPUs, every task is in exactly the one place
      its state field names: current on one CPU, queued once, or asleep. */
  lemma {:induction false} EveryTaskPlaced(n: nat, schedule: seq<Action>, t: nat)
    ensures Placed(Run(n, schedule), t)
  {
    if schedule == [] {
      InitEmpty(n, t);
    } else {
      EveryTaskPlaced(n, schedule[..|schedule| - 1], t);
      StepPlaced(Run(n, schedule[..|schedule| - 1]), schedule[|schedule| - 1], t);
    }
  }

  // When a steal drops a task.

  /** How many CPUs from idx on a steal for `me` takes a task from. */
  ghost function Victims(cpus: seq<Cpu>, me: nat, idx: nat): nat
    requires idx <= |cpus|
    decreases |cpus| - idx
  {
    if idx == |cpus| then 0 else (if Eligible(cpus, me, idx) then 1 else 0) + Victims(cpus, me, idx + 1)
  }

  lemma {:induction false} VictimsAfter(cpus: seq<Cpu>, me: nat, idx: nat, j: nat, c: Cpu)
    requires j < idx <= |cpus|
    ensures Victims(cpus[j := c], me, idx) == Victims(cpus, me, idx)
    decreases |cpus| - idx
  {
    if idx < |cpus| {
      VictimsAfter(cpus, me, idx + 1, j, c);
    }
  }

  lemma {:induction false} StealDrops(cpus: seq<Cpu>, me: nat, idx: nat, buf: seq<nat>)
    requires idx <= |cpus| && |buf| <= STEAL_BATCH
    ensures StealLoop(cpus, me, idx, buf).dropped.Some? <==> |buf| + Victims(cpus, me, idx) > STEAL_BATCH
    ensures StealLoop(cpus, me, idx, buf).dropped.Some? ==> |StealLoop(cpus, me, idx, buf).buf| == STEAL_BATCH
    decreases |cpus| - idx
  {
    if idx < |cpus| {
      if !Eligible(cpus, me, idx) {
        StealDrops(cpus, me, idx + 1, buf);
      } else if |buf| < STEAL_BATCH {
        var cpu := cpus[idx];
        var cpu' := cpu.(queue := cpu.queue[1..]);
        VictimsAfter(cpus, me, idx + 1, idx, cpu');
        StealDrops(cpus[idx := cpu'], me, idx + 1, buf + [cpu.queue[0]]);
      }
    }
  }

  /** Over every schedule, a step loses a task exactly when it is an idle round that
      finds more than four other CPUs with four queued tasks, and the own queue
      has room for the four it keeps. */
  lemma LossExactly(n: nat, schedule: seq<Action>, a: Action)
    ensures var s := Run(n, schedule);
            !(Step(s, a).lost <= s.lost) <==>
              && a.Idle? && !s.halted && a.cpu < |s.cpus| && s.cpus[a.cpu].curr.None?
              && Victims(s.cpus, a.cpu, 0) > STEAL_BATCH && |s.cpus[a.cpu].queue| + STEAL_BATCH <= RQ_CAP
  {
    var s := Run(n, schedule);
    if a.Idle? && !s.halted && a.cpu < |s.cpus| && s.cpus[a.cpu].curr.None? {
      StealDrops(s.cpus, a.cpu, 0, []);
      StealCount(s.cpus, a.cpu, 0, [], 0);
      var st := StealLoop(s.cpus, a.cpu, 0, []);
      if st.dropped.Some? {
        var x := st.dropped.value;
        EveryTaskPlaced(n, schedule, x);
        StealCount(s.cpus, a.cpu, 0, [], x);
        EmptyCount(x);
      }
    } else if a.Tick? && !s.halted {
      var s1 := s.(tick := s.tick + 1);
      WakeKeepsLost(s1, s1.limit);
    }
  }

  // A run on six CPUs that loses a task, told by the lengths of the run queues.

  /** Stealing that drops nothing takes one task from every eligible CPU. */
  lemma {:induction false} StealLengths(cpus: seq<Cpu>, me: nat, idx: nat, buf: seq<nat>)
    requires idx <= |cpus| && |buf| + Victims(cpus, me, idx) <= STEAL_BATCH
    ensures var st := StealLoop(cpus, me, idx, buf);
            && |st.buf| == |buf| + Victims(cpus, me, idx) && |st.cpus| == |cpus|
            && (forall c :: 0 <= c < |cpus| ==> st.cpus[c].curr == cpus[c].curr)
            && (forall c :: 0 <= c < idx ==> st.cpus[c] == cpus[c])
            && (forall c :: idx <= c < |cpus| ==>
                  |st.cpus[c].queue| == |cpus[c].queue| - if Eligible(cpus, me, c) then 1 else 0)
    decreases |cpus| - idx
  {
    if idx < |cpus| {
      if !Eligible(cpus, me, idx) {
        StealLengths(cpus, me, idx + 1, buf);
      } else {
        var cpu := cpus[idx];
        var cpus' := cpus[idx := cpu.(queue := cpu.queue[1..])];
        VictimsAfter(cpus, me, idx + 1, idx, cpus'[idx]);
        StealLengths(cpus', me, idx + 1, buf + [cpu.queue[0]]);
        assert forall c :: idx < c < |cpus| ==> cpus'[c] == cpus[c];
      }
    }
  }

  /** Every CPU is idle, and the kernel runs. */
  ghost predicate AllIdle(s: State) {
    !s.halted && forall c :: 0 <= c < |s.cpus| ==> s.cpus[c].curr.None?
  }

  /** Without loot an idle round takes four tasks from the global queue. */
  function FromGlobal(loot: nat): nat {
    if loot == 0 then STEAL_BATCH else 0
  }

  /** An idle round that drops nothing takes one task from each of its victims, or else
      four tasks from the global queue. */
  lemma IdleLengths(s: State, me: nat)
    requires AllIdle(s) && me < |s.cpus| && Victims(s.cpus, me, 0) <= STEAL_BATCH
    requires |s.global| >= FromGlobal(Victims(s.cpus, me, 0))
    requires |s.cpus[me].queue| + Victims(s.cpus, me, 0) + FromGlobal(Victims(s.cpus, me, 0)) <= RQ_CAP
    ensures var s', loot := Step(s, Idle(me)), Victims(s.cpus, me, 0);
            && AllIdle(s') && |s'.cpus| == |s.cpus| && |s'.global| == |s.global| - FromGlobal(loot)
            && |s'.cpus[me].queue| == |s.cpus[me].queue| + loot + FromGlobal(loot)
            && forall c :: 0 <= c < |s.cpus| && c != me ==>
                 |s'.cpus[c].queue| == |s.cpus[c].queue| - if |s.cpus[c].queue| >= STEAL_BATCH then 1 else 0
  {
    StealLengths(s.cpus, me, 0, []);
    hide StealLoop, Victims;
  }

  lemma {:induction false} SameVictims(cpus: seq<Cpu>, cpus': seq<Cpu>, me: nat, idx: nat)
    requires idx <= |cpus| == |cpus'|
    requires forall c :: idx <= c < |cpus| ==> (Eligible(cpus, me, c) <==> Eligible(cpus', me, c))
    ensures Victims(cpus, me, idx) == Victims(cpus', me, idx)
    decreases |cpus| - idx
  {
    if idx < |cpus| {
      SameVictims(cpus, cpus', me, idx + 1);
    }
  }

  /** Every other CPU has nothing to steal, or enough for k more steals. */
  ghost predicate OthersLast(cpus: seq<Cpu>, me: nat, k: nat) {
    forall c :: 0 <= c < |cpus| && c != me ==> |cpus[c].queue| < STEAL_BATCH || |cpus[c].queue| >= STEAL_BATCH + k
  }

  /** Every other CPU had k tasks stolen if it had enough of them. */
  ghost predicate OthersLost(cpus: seq<Cpu>, cpus': seq<Cpu>, me: nat, k: nat) {
    && |cpus| == |cpus'|
    && forall c :: 0 <= c < |cpus| && c != me ==>
         |cpus'[c].queue| == |cpus[c].queue| - if |cpus[c].queue| >= STEAL_BATCH then k else 0
  }

  function Times(k: nat, gain: nat): nat {
    if k == 0 then 0 else gain + Times(k - 1, gain)
  }

  /** k + 1 idle rounds of the same CPU, each with the same loot. */
  lemma {:induction false} IdleRounds(n: nat, schedule: seq<Action>, me: nat, k: nat, loot: nat)
    returns (schedule': seq<Action>)
    requires var s := Run(n, schedule);
             && AllIdle(s) && me < |s.cpus| && loot == Victims(s.cpus, me, 0) <= STEAL_BATCH
             && OthersLast(s.cpus, me, k)
             && |s.global| >= Times(k + 1, FromGlobal(loot))
             && |s.cpus[me].queue| + Times(k + 1, loot + FromGlobal(loot)) <= RQ_CAP
    ensures var s, s' := Run(n, schedule), Run(n, schedule');
            && AllIdle(s') && me < |s'.cpus|
            && |s'.cpus[me].queue| == |s.cpus[me].queue| + Times(k + 1, loot + FromGlobal(loot))
            && OthersLost(s.cpus, s'.cpus, me, k + 1)
    decreases k
  {
    var s := Run(n, schedule);
    schedule' := schedule + [Idle(me)];
    assert schedule'[..|schedule|] == schedule;
    var s1 := Run(n, schedule');
    IdleLengths(s, me);
    assert OthersLost(s.cpus, s1.cpus, me, 1);
    hide Run, Step, AllIdle;
    if k > 0 {
      StillLast(s.cpus, s1.cpus, me, k);
      hide OthersLast;
      schedule' := IdleRounds(n, schedule', me, k - 1, loot);
    }
  }

  lemma StillLast(cpus: seq<Cpu>, cpus': seq<Cpu>, me: nat, k: nat)
    requires OthersLast(cpus, me, k) && OthersLost(cpus, cpus', me, 1) && k > 0
    ensures OthersLast(cpus', me, k - 1) && Victims(cpus', me, 0) == Victims(cpus, me, 0)
  {
    SameVictims(cpus, cpus', me, 0);
  }

  /** Adding the tasks 0 up to n. */
  function Adds(n: nat): seq<Action> {
    if n == 0 then [] else Adds(n - 1) + [AddTask(n - 1)]
  }

  lemma {:induction false} AddsGlobal(n: nat, k: nat)
    ensures var s := Run(n, Adds(k));
            !s.halted && s.cpus == seq(n, _ => Cpu(None, [])) && |s.global| == k && forall t :: t in s.tasks ==> t < k
  {
    if k > 0 {
      AddsGlobal(n, k - 1);
      assert Adds(k)[..|Adds(k)| - 1] == Adds(k - 1);
    }
  }

  /** All CPUs idle, the first m with at least low tasks queued and the others with none. */
  ghost predicate Filled(s: State, m: nat, low: nat) {
    && AllIdle(s) && m < |s.cpus|
    && (forall c :: 0 <= c < m ==> |s.cpus[c].queue| >= low)
    && (forall c :: m <= c < |s.cpus| ==> |s.cpus[c].queue| == 0)
  }

  lemma {:induction false} FilledVictims(s: State, m: nat, low: nat, idx: nat)
    requires Filled(s, m, low) && low >= STEAL_BATCH && idx <= |s.cpus|
    ensures Victims(s.cpus, m, idx) == if idx < m then m - idx else 0
    decreases |s.cpus| - idx
  {
    if idx < |s.cpus| {
      FilledVictims(s, m, low, idx + 1);
    }
  }

  /** k + 1 idle rounds of CPU m make it one of the filled ones. */
  lemma FillNext(n: nat, schedule: seq<Action>, m: nat, k: nat, low: nat) returns (schedule': seq<Action>)
    requires Filled(Run(n, schedule), m, low + k + 1) && m <= STEAL_BATCH && m + 1 < n && low >= STEAL_BATCH
    requires low <= Times(k + 1, m + FromGlobal(m)) <= RQ_CAP
    requires |Run(n, schedule).global| >= Times(k + 1, FromGlobal(m))
    ensures Filled(Run(n, schedule'), m + 1, low)
  {
    RunCpus(n, schedule);
    hide Run, Victims;
    FilledVictims(Run(n, schedule), m, low + k + 1, 0);
    schedule' := IdleRounds(n, schedule, m, k, m);
  }

  lemma {:induction false} TimesIs(k: nat, gain: nat)
    ensures Times(k, gain) == k * gain
    decreases k
  {
    if k > 0 {
      TimesIs(k - 1, gain);
      assert k * gain == (k - 1) * gain + gain;
    }
  }

  /** Six CPUs or more, and 24 tasks: rounds of the first five CPUs leave four tasks or
      more in each of their queues, and the round of the sixth loses one. */
  lemma StealCanDrop(n: nat)
    requires n > STEAL_BATCH + 1
    ensures exists schedule :: Run(n, schedule).lost != {}
  {
    Batch();
    hide *;
    var schedule := FillFirst(n);
    schedule := FillNext(n, schedule, 1, 10, 11) by { TimesIs(11, 1); TimesIs(11, 0); Batch(); }
    schedule := FillNext(n, schedule, 2, 3, 7) by { TimesIs(4, 2); TimesIs(4, 0); Batch(); }
    schedule := FillNext(n, schedule, 3, 1, 5) by { TimesIs(2, 3); TimesIs(2, 0); Batch(); }
    schedule := FillNext(n, schedule, 4, 0, 4) by { TimesIs(1, 4); TimesIs(1, 0); Batch(); }
    LostByFive(n, schedule);
  }

  lemma Batch()
    ensures STEAL_BATCH == 4 && RQ_CAP == 1024 && FromGlobal(0) == 4 && forall m: nat :: m > 0 ==> FromGlobal(m) == 0
  {
  }

  lemma FillFirst(n: nat) returns (schedule: seq<Action>)
    requires n > 1
    ensures Filled(Run(n, schedule), 1, 22)
  {
    AddsGlobal(n, 24);
    assert Filled(Run(n, Adds(24)), 0, 28);
    hide Run, Adds, Filled;
    TimesIs(6, 4);
    schedule := FillNext(n, Adds(24), 0, 5, 22);
  }

  lemma LostByFive(n: nat, schedule: seq<Action>)
    requires Filled(Run(n, schedule), 5, STEAL_BATCH)
    ensures Run(n, schedule + [Idle(5)]).lost != {}
  {
    FilledVictims(Run(n, schedule), 5, STEAL_BATCH, 0);
    LossExactly(n, schedule, Idle(5));
    StealDrops(Run(n, schedule).cpus, 5, 0, []);
    assert (schedule + [Idle(5)])[..|schedule|] == schedule;
  }

  lemma {:induction false} WakeKeepsLost(s: State, n: nat)
    ensures WakeBelow(s, n).lost == s.lost && WakeBelow(s, n).cpus == s.cpus && WakeBelow(s, n).tick == s.tick
    decreases n
  {
    if n > 0 {
      WakeKeepsLost(s, n - 1);
    }
  }

  lemma {:induction false} VictimsBound(cpus: seq<Cpu>, me: nat, idx: nat)
    requires idx <= |cpus| && me < |cpus|
    ensures Victims(cpus, me, idx) <= (|cpus| - idx) - (if idx <= me then 1 else 0)
    decreases |cpus| - idx
  {
    if idx < |cpus| {
      VictimsBound(cpus, me, idx + 1);
    }
  }

  lemma {:induction false} RunCpus(n: nat, schedule: seq<Action>)
    ensures |Run(n, schedule).cpus| == n
  {
    if schedule != [] {
      var s, a := Run(n, schedule[..|schedule| - 1]), schedule[|schedule| - 1];
      RunCpus(n, schedule[..|schedule| - 1]);
      if a.Tick? {
        WakeKeepsLost(s.(tick := s.tick + 1), s.limit);
      } else if a.Idle? && a.cpu < |s.cpus| {
        StealCount(s.cpus, a.cpu, 0, [], 0);
      }
    }
  }

  /** With at most five CPUs no schedule loses a task. */
  lemma {:induction false} FewCpusLoseNothing(n: nat, schedule: seq<Action>)
    requires n <= STEAL_BATCH + 1
    ensures Run(n, schedule).lost == {}
  {
    if schedule != [] {
      var before, a := schedule[..|schedule| - 1], schedule[|schedule| - 1];
      FewCpusLoseNothing(n, before);
      LossExactly(n, before, a);
      RunCpus(n, before);
      var s := Run(n, before);
      if a.Idle? && a.cpu < |s.cpus| {
        VictimsBound(s.cpus, a.cpu, 0);
      }
    }
  }

  /** Some schedule loses a task exactly when there are more than five CPUs. */
  lemma LossNeedsSixCpus(n: nat)
    ensures (exists schedule :: Run(n, schedule).lost != {}) <==> n > STEAL_BATCH + 1
  {
    if n > STEAL_BATCH + 1 {
      StealCanDrop(n);
    } else {
      forall schedule ensures Run(n, schedule).lost == {} {
        FewCpusLoseNothing(n, schedule);
      }
    }
  }

  /** t sleeps until the tick w. */
  ghost predicate SleepsUntil(s: State, t: nat, w: nat) {
    t in s.tasks && s.tasks[t] == Tcb(Sleep, w) && w != 0
  }

  lemma {:induction false} WakeOnlyDue(s: State, n: nat, t: nat, w: nat)
    requires SleepsUntil(s, t, w) && s.tick < w
    ensures SleepsUntil(WakeBelow(s, n), t, w)
    decreases n
  {
    if n > 0 {
      WakeOnlyDue(s, n - 1, t, w);
      WakeKeepsLost(s, n - 1);
    }
  }

  /** In every schedule, a sleeper stays asleep, out of every queue, until the tick
      counter reaches its wake tick. */
  lemma SleeperNotEarly(n: nat, schedule: seq<Action>, a: Action, t: nat, w: nat)
    requires SleepsUntil(Run(n, schedule), t, w)
    ensures var s := Run(n, schedule);
            && InQueues(s, t) == 0 && Current(s.cpus, t) == 0
            && (SleepsUntil(Step(s, a), t, w) || Step(s, a).tick >= w)
  {
    hide Queued, Current, Count;
    var s := Run(n, schedule);
    EveryTaskPlaced(n, schedule, t);
    match a {
      case Tick(c) => TickSleeper(s, c, t, w);
      case SleepFor(c, _) => if c < |s.cpus| { NotCurrent(s, c, t); }
      case BlockOnIpc(c) => if c < |s.cpus| { NotCurrent(s, c, t); }
      case Idle(c) =>
      case AddTask(_) =>
      case Awaken(_) =>
    }
  }

  lemma NotCurrent(s: State, c: nat, t: nat)
    requires c < |s.cpus| && Current(s.cpus, t) == 0
    ensures s.cpus[c].curr != Some(t)
  {
    CurrentUpdate(s.cpus, c, s.cpus[c], t);
  }

  lemma NotNext(s: State, c: nat, t: nat)
    requires c < |s.cpus| && Queued(s.cpus, t) == 0 && s.cpus[c].queue != []
    ensures s.cpus[c].queue[|s.cpus[c].queue| - 1] != t
  {
    QueuedUpdate(s.cpus, c, s.cpus[c], t);
  }

  lemma TickSleeper(s: State, c: nat, t: nat, w: nat)
    requires Placed(s, t) && SleepsUntil(s, t, w)
    ensures SleepsUntil(Step(s, Tick(c)), t, w) || Step(s, Tick(c)).tick >= w
  {
    hide Queued, Current, Count, WakeBelow;
    var s1 := s.(tick := s.tick + 1);
    WakeKeepsLost(s1, s1.limit);
    if s1.tick < w {
      WakeOnlyDue(s1, s1.limit, t, w);
      var s2 := if c == 0 then WakeBelow(s1, s1.limit) else s1;
      if c < |s2.cpus| && s2.cpus[c].queue != [] {
        NotNext(s2, c, t);
        NotCurrent(s2, c, t);
      }
    }
  }

  // How long a sleep lasts.

  lemma RunSnoc(n: nat, schedule: seq<Action>, a: Action)
    ensures Run(n, schedule + [a]) == Step(Run(n, schedule), a)
  {
    assert (schedule + [a])[..|schedule|] == schedule;
  }

  /** The task that is current on CPU c, which a system call is made by. */
  ghost predicate Calls(s: State, c: nat, t: nat) {
    !s.halted && c < |s.cpus| && s.cpus[c].curr == Some(t)
  }

  lemma CurrentIsRunning(n: nat, schedule: seq<Action>, c: nat, t: nat)
    requires Calls(Run(n, schedule), c, t)
    ensures t in Run(n, schedule).tasks && Run(n, schedule).tasks[t] == Tcb(Running, 0)
  {
    EveryTaskPlaced(n, schedule, t);
    CurrentUpdate(Run(n, schedule).cpus, c, Run(n, schedule).cpus[c], t);
  }

  /** In every schedule, the task that asks to sleep for ns nanoseconds leaves its CPU and
      sleeps until the first tick that is ns nanoseconds away, a tick being a millisecond. */
  lemma SleepLength(n: nat, schedule: seq<Action>, c: nat, ns: nat, t: nat)
    requires Calls(Run(n, schedule), c, t) && ns > 0
    ensures var s, s' := Run(n, schedule), Run(n, schedule + [SleepFor(c, ns)]);
            && t in s'.tasks && s'.tasks[t].state == Sleep
            && s'.cpus == s.cpus[c := Cpu(None, s.cpus[c].queue)] && s'.global == s.global && s'.tick == s.tick
            && (s'.tasks[t].wakeAt - s.tick - 1) * 1_000_000 < ns <= (s'.tasks[t].wakeAt - s.tick) * 1_000_000
  {
    RunSnoc(n, schedule, SleepFor(c, ns));
    CurrentIsRunning(n, schedule, c, t);
  }

  lemma TickGrows(s: State, a: Action)
    ensures s.tick <= Step(s, a).tick <= s.tick + 1
    ensures !s.halted && a.Tick? ==> Step(s, a).tick == s.tick + 1
  {
    if a.Tick? {
      WakeKeepsLost(s.(tick := s.tick + 1), s.limit);
    }
  }

  /** A sleeper stays where it is along every continuation until its tick. */
  lemma {:induction false} SleepLasts(n: nat, schedule: seq<Action>, rest: seq<Action>, t: nat, w: nat)
    requires SleepsUntil(Run(n, schedule), t, w)
    ensures var s := Run(n, schedule + rest);
            && Run(n, schedule).tick <= s.tick
            && (s.tick < w ==> SleepsUntil(s, t, w) && InQueues(s, t) == 0 && Current(s.cpus, t) == 0)
  {
    if rest == [] {
      assert schedule + rest == schedule;
      SleeperNotEarly(n, schedule, Idle(0), t, w);
    } else {
      var before, a := rest[..|rest| - 1], rest[|rest| - 1];
      SleepLasts(n, schedule, before, t, w);
      assert schedule + rest == schedule + before + [a];
      RunSnoc(n, schedule + before, a);
      TickGrows(Run(n, schedule + before), a);
      if Run(n, schedule + rest).tick < w {
        SleeperNotEarly(n, schedule + before, a, t, w);
        SleeperNotEarly(n, schedule + rest, Idle(0), t, w);
      }
    }
  }

  /** In every schedule and along every continuation, a task that asked to sleep for ns
      nanoseconds is in no queue and on no CPU before the ticks add up to them. */
  lemma SleepsAsAsked(n: nat, schedule: seq<Action>, c: nat, ns: nat, t: nat, rest: seq<Action>)
    requires Calls(Run(n, schedule), c, t) && ns > 0
    ensures var s, s' := Run(n, schedule), Run(n, schedule + [SleepFor(c, ns)] + rest);
            && s.tick <= s'.tick
            && ((s'.tick - s.tick) * 1_000_000 < ns ==>
                  t in s'.tasks && s'.tasks[t].state == Sleep && InQueues(s', t) == 0 && Current(s'.cpus, t) == 0)
  {
    SleepLength(n, schedule, c, ns, t);
    var s1 := Run(n, schedule + [SleepFor(c, ns)]);
    SleepLasts(n, schedule + [SleepFor(c, ns)], rest, t, s1.tasks[t].wakeAt);
  }

  /** In every schedule, a tick on CPU 0 that reaches a sleeper's tick makes it ready and
      puts it into the global queue, behind the tasks there. */
  lemma DueIsQueued(n: nat, schedule: seq<Action>, t: nat, w: nat)
    requires SleepsUntil(Run(n, schedule), t, w) && !Run(n, schedule).halted && w <= Run(n, schedule).tick + 1
    ensures var s, s' := Run(n, schedule), Run(n, schedule + [Tick(0)]);
            && t in s'.tasks && s'.tasks[t] == Tcb(Ready, 0)
            && s.global <= s'.global && Count(s'.global, t) == 1
  {
    hide Count, Queued, Current;
    var s := Run(n, schedule);
    RunSnoc(n, schedule, Tick(0));
    EveryTaskPlaced(n, schedule, t);
    EveryTaskPlaced(n, schedule + [Tick(0)], t);
    var s1 := s.(tick := s.tick + 1);
    WakesDue(s1, s1.limit, t, w);
    WakeKeepsLost(s1, s1.limit);
    var s2 := WakeBelow(s1, s1.limit);
    hide WakeBelow, Run, Placed;
    if 0 < |s2.cpus| {
      ProcessKeeps(s2, 0, t);
    }
  }

  /** A switch leaves the global queue alone, and every task but those that come and go. */
  lemma ProcessKeeps(s: State, c: nat, t: nat)
    requires c < |s.cpus| && t in s.tasks && Queued(s.cpus, t) == 0 && Current(s.cpus, t) == 0
    ensures var s' := ProcessTick(s, c);
            s'.global == s.global && t in s'.tasks && s'.tasks[t] == s.tasks[t]
  {
    if s.cpus[c].queue != [] {
      NotNext(s, c, t);
      NotCurrent(s, c, t);
    }
    hide Queued, Current;
  }

  lemma {:induction false} WakesDue(s: State, n: nat, t: nat, w: nat)
    requires SleepsUntil(s, t, w) && w <= s.tick && Count(s.global, t) == 0
    ensures var s' := WakeBelow(s, n);
            && t in s'.tasks && s.global <= s'.global
            && (t < n ==> s'.tasks[t] == Tcb(Ready, 0) && Count(s'.global, t) == 1)
            && (t >= n ==> s'.tasks[t] == s.tasks[t] && Count(s'.global, t) == 0)
    decreases n
  {
    hide Count;
    if n > 0 {
      WakesDue(s, n - 1, t, w);
      WakeKeepsLost(s, n - 1);
      var s' := WakeBelow(s, n - 1);
      CountSnoc(s'.global, n - 1, t);
    }
  }

  // What the other entry points do.

  /** In every schedule, a tick on a CPU gives it to its newest queued task, if there is
      one; the task that was current becomes the newest queued one. No other CPU changes. */
  lemma TickGivesNewest(n: nat, schedule: seq<Action>, c: nat)
    requires c < n && !Run(n, schedule).halted
    ensures var s, s' := Run(n, schedule), Run(n, schedule + [Tick(c)]);
            && |s.cpus| == |s'.cpus| == n && s'.tick == s.tick + 1
            && (forall d :: 0 <= d < n && d != c ==> s'.cpus[d] == s.cpus[d])
            && (s.cpus[c].queue == [] ==> s'.cpus[c] == s.cpus[c])
            && (s.cpus[c].queue != [] ==>
                  var newest := s.cpus[c].queue[|s.cpus[c].queue| - 1];
                  && s'.cpus[c].curr == Some(newest)
                  && newest in s'.tasks && s'.tasks[newest].state == Running
                  && s'.cpus[c].queue == s.cpus[c].queue[..|s.cpus[c].queue| - 1] +
                                         (if s.cpus[c].curr.Some? then [s.cpus[c].curr.value] else []))
  {
    var s := Run(n, schedule);
    RunSnoc(n, schedule, Tick(c));
    RunCpus(n, schedule);
    hide Run, Placed, WakeBelow;
    TickCpus(s, c);
    if s.cpus[c].queue != [] {
      var newest := s.cpus[c].queue[|s.cpus[c].queue| - 1];
      EveryTaskPlaced(n, schedule + [Tick(c)], newest);
      hide Step;
      NowCurrent(Run(n, schedule + [Tick(c)]), c, newest);
    }
  }

  lemma TickCpus(s: State, c: nat)
    requires !s.halted && c < |s.cpus|
    ensures var s', cpu := Step(s, Tick(c)), s.cpus[c];
            && s'.tick == s.tick + 1
            && s'.cpus == s.cpus[c := if cpu.queue == [] then cpu else
                 Cpu(Some(cpu.queue[|cpu.queue| - 1]),
                     cpu.queue[..|cpu.queue| - 1] + (if cpu.curr.Some? then [cpu.curr.value] else []))]
  {
    hide WakeBelow;
    WakeKeepsLost(s.(tick := s.tick + 1), s.limit);
    assert s.cpus[c := s.cpus[c]] == s.cpus;
    var q := s.cpus[c].queue;
    assert q != [] ==> q[..|q| - 1] + [] == q[..|q| - 1];
  }

  lemma NowCurrent(s: State, c: nat, t: nat)
    requires Placed(s, t) && c < |s.cpus| && s.cpus[c].curr == Some(t)
    ensures t in s.tasks && s.tasks[t].state == Running
  {
    CurrentUpdate(s.cpus, c, s.cpus[c], t);
  }

  /** In every schedule, the task that blocks on a message leaves its CPU and is asleep,
      waiting for no tick. Nothing else changes. */
  lemma BlockSleeps(n: nat, schedule: seq<Action>, c: nat, t: nat)
    requires Calls(Run(n, schedule), c, t)
    ensures var s, s' := Run(n, schedule), Run(n, schedule + [BlockOnIpc(c)]);
            && t in s.tasks
            && s' == s.(cpus := s.cpus[c := Cpu(None, s.cpus[c].queue)], tasks := s.tasks[t := Tcb(Sleep, 0)])
  {
    RunSnoc(n, schedule, BlockOnIpc(c));
    CurrentIsRunning(n, schedule, c, t);
  }

  /** A new task, or one awakened from a message, is ready and last in the global queue. */
  lemma ReadyGoesLast(n: nat, schedule: seq<Action>, t: nat)
    requires var s := Run(n, schedule); !s.halted && (t !in s.tasks || IpcBlocked(s, t))
    ensures var s := Run(n, schedule);
            var s' := Run(n, schedule + [if t in s.tasks then Awaken(t) else AddTask(t)]);
            && s'.global == s.global + [t] && s'.cpus == s.cpus && s'.tick == s.tick
            && s'.tasks == s.tasks[t := Tcb(Ready, 0)]
  {
    RunSnoc(n, schedule, if t in Run(n, schedule).tasks then Awaken(t) else AddTask(t));
    hide Run, StealLoop, WakeBelow;
  }

  /** The oldest tasks of the CPUs that a steal takes from, in the order of the CPUs. */
  ghost function Oldest(cpus: seq<Cpu>, me: nat, idx: nat): seq<nat>
    requires idx <= |cpus|
    decreases |cpus| - idx
  {
    if idx == |cpus| then []
    else if idx != me && |cpus[idx].queue| >= 4 then [cpus[idx].queue[0]] + Oldest(cpus, me, idx + 1)
    else Oldest(cpus, me, idx + 1)
  }

  lemma {:induction false} OldestAfter(cpus: seq<Cpu>, me: nat, idx: nat, j: nat, c: Cpu)
    requires j < idx <= |cpus|
    ensures Oldest(cpus[j := c], me, idx) == Oldest(cpus, me, idx)
    decreases |cpus| - idx
  {
    if idx < |cpus| {
      OldestAfter(cpus, me, idx + 1, j, c);
    }
  }

  /** A steal takes the oldest task of every other CPU with four queued, and keeps the first
      four of them. */
  lemma {:induction false} StealTakesOldest(cpus: seq<Cpu>, me: nat, idx: nat, buf: seq<nat>)
    requires idx <= |cpus| && |buf| <= 4
    ensures var st, loot := StealLoop(cpus, me, idx, buf), buf + Oldest(cpus, me, idx);
            && st.buf == (if |loot| <= 4 then loot else loot[..4])
            && st.dropped == (if |loot| <= 4 then None else Some(loot[4]))
    decreases |cpus| - idx
  {
    if idx == |cpus| {
      assert buf + [] == buf;
    } else if !Eligible(cpus, me, idx) {
      StealTakesOldest(cpus, me, idx + 1, buf);
    } else {
      var first := cpus[idx].queue[0];
      var cpus' := cpus[idx := cpus[idx].(queue := cpus[idx].queue[1..])];
      OldestAfter(cpus, me, idx + 1, idx, cpus'[idx]);
      var rest := Oldest(cpus, me, idx + 1);
      assert Oldest(cpus, me, idx) == [first] + rest;
      assert StealLoop(cpus, me, idx, buf) ==
             if |buf| >= 4 then Stolen(cpus', buf, Some(first)) else StealLoop(cpus', me, idx + 1, buf + [first]);
      if |buf| < 4 {
        StealTakesOldest(cpus', me, idx + 1, buf + [first]);
      }
      hide StealLoop, Oldest;
      assert buf + ([first] + rest) == (buf + [first]) + rest;
    }
  }

  /** Every queue is as before the steal, or without its oldest task. */
  lemma {:induction false} StealLeaves(cpus: seq<Cpu>, me: nat, idx: nat, buf: seq<nat>, c: nat)
    requires idx <= |cpus| && c < |cpus|
    ensures var r := StealLoop(cpus, me, idx, buf).cpus;
            && |r| == |cpus|
            && (r[c] == cpus[c] ||
                (idx <= c && c != me && |cpus[c].queue| >= 4 && r[c] == Cpu(cpus[c].curr, cpus[c].queue[1..])))
    decreases |cpus| - idx
  {
    if idx < |cpus| {
      if !Eligible(cpus, me, idx) {
        StealLeaves(cpus, me, idx + 1, buf, c);
      } else if |buf| < STEAL_BATCH {
        var cpu := cpus[idx];
        StealLeaves(cpus[idx := cpu.(queue := cpu.queue[1..])], me, idx + 1, buf + [cpu.queue[0]], c);
      }
    }
  }

  /** In every schedule, an idle round with room puts the oldest tasks of up to four other
      CPUs behind its own queue, or, when no other CPU has four queued, the first four tasks
      of the global queue. Of the other CPUs it takes at most the oldest task. */
  lemma IdleFetches(n: nat, schedule: seq<Action>, me: nat)
    requires var s := Run(n, schedule);
             !s.halted && me < |s.cpus| && s.cpus[me].curr.None? && |s.cpus[me].queue| + 4 <= RQ_CAP
    ensures var s, s' := Run(n, schedule), Run(n, schedule + [Idle(me)]);
            var stolen := Oldest(s.cpus, me, 0);
            && !s'.halted && |s'.cpus| == |s.cpus| && s'.cpus[me].curr == None
            && (stolen != [] ==>
                  && s'.cpus[me].queue == s.cpus[me].queue + FirstFour(stolen)
                  && s'.global == s.global)
            && (stolen == [] ==>
                  && s'.cpus[me].queue == s.cpus[me].queue + FirstFour(s.global)
                  && FirstFour(s.global) + s'.global == s.global)
            && OthersGave(s.cpus, s'.cpus, me)
  {
    RunSnoc(n, schedule, Idle(me));
    hide *;
    IdleFetch(Run(n, schedule), me);
  }

  function FirstFour(q: seq<nat>): seq<nat> {
    if |q| <= 4 then q else q[..4]
  }

  ghost predicate WithoutOldest(cpu: Cpu, cpu': Cpu) {
    |cpu.queue| >= 4 && cpu' == Cpu(cpu.curr, cpu.queue[1..])
  }

  /** Every other CPU is as it was, or without its oldest task. */
  ghost predicate OthersGave(cpus: seq<Cpu>, cpus': seq<Cpu>, me: nat) {
    && |cpus'| == |cpus|
    && forall c :: 0 <= c < |cpus| && c != me ==> cpus'[c] == cpus[c] || WithoutOldest(cpus[c], cpus'[c])
  }

  lemma IdleFetch(s: State, me: nat)
    requires !s.halted && me < |s.cpus| && s.cpus[me].curr.None? && |s.cpus[me].queue| + 4 <= RQ_CAP
    ensures var s', stolen := Step(s, Idle(me)), Oldest(s.cpus, me, 0);
            && !s'.halted && |s'.cpus| == |s.cpus| && s'.cpus[me].curr == None
            && (stolen != [] ==> s'.cpus[me].queue == s.cpus[me].queue + FirstFour(stolen) && s'.global == s.global)
            && (stolen == [] ==>
                  && s'.cpus[me].queue == s.cpus[me].queue + FirstFour(s.global)
                  && FirstFour(s.global) + s'.global == s.global)
            && OthersGave(s.cpus, s'.cpus, me)
  {
    var st := StealLoop(s.cpus, me, 0, []);
    StealTakesOldest(s.cpus, me, 0, []);
    assert [] + Oldest(s.cpus, me, 0) == Oldest(s.cpus, me, 0);
    assert Step(s, Idle(me)) == IdleRound(s, me);
    StealLeaves(s.cpus, me, 0, [], me);
    OthersLeft(s.cpus, me);
    hide StealLoop, Oldest, Step, WithoutOldest;
  }

  lemma OthersLeft(cpus: seq<Cpu>, me: nat)
    ensures OthersGave(cpus, StealLoop(cpus, me, 0, []).cpus, me)
  {
    StealLength(cpus, me);
    forall c: nat | c < |cpus| && c != me
      ensures var r := StealLoop(cpus, me, 0, []).cpus; r[c] == cpus[c] || WithoutOldest(cpus[c], r[c])
    {
      StealLeaves(cpus, me, 0, [], c);
    }
  }

  lemma StealLength(cpus: seq<Cpu>, me: nat)
    ensures |StealLoop(cpus, me, 0, []).cpus| == |cpus|
  {
    if cpus != [] {
      StealLeaves(cpus, me, 0, [], 0);
    }
  }

  /** What an idle round of `me` would fetch. */
  ghost function Loot(s: State, me: nat): seq<nat> {
    if Oldest(s.cpus, me, 0) != [] then FirstFour(Oldest(s.cpus, me, 0)) else FirstFour(s.global)
  }

  /** In every schedule, the kernel panics exactly in an idle round that fetches more than the
      own queue has room for. */
  lemma HaltsExactly(n: nat, schedule: seq<Action>, a: Action)
    requires !Run(n, schedule).halted
    ensures var s := Run(n, schedule);
            Run(n, schedule + [a]).halted <==>
              && a.Idle? && a.cpu < |s.cpus| && s.cpus[a.cpu].curr.None?
              && |s.cpus[a.cpu].queue| + |Loot(s, a.cpu)| > 1024
  {
    var s := Run(n, schedule);
    RunSnoc(n, schedule, a);
    hide Run;
    if a.Idle? && a.cpu < |s.cpus| && s.cpus[a.cpu].curr.None? {
      StealTakesOldest(s.cpus, a.cpu, 0, []);
      StealLeaves(s.cpus, a.cpu, 0, [], a.cpu);
      assert [] + Oldest(s.cpus, a.cpu, 0) == Oldest(s.cpus, a.cpu, 0);
      hide StealLoop, Oldest;
    } else if a.Tick? {
      WakePlacedHalted(s.(tick := s.tick + 1), s.limit);
    }
  }

  lemma {:induction false} WakePlacedHalted(s: State, n: nat)
    ensures WakeBelow(s, n).halted == s.halted
    decreases n
  {
    if n > 0 {
      WakePlacedHalted(s, n - 1);
    }
  }

  ghost predicate Bounded(cpus: seq<Cpu>) {
    forall c :: 0 <= c < |cpus| ==> |cpus[c].queue| <= 1024
  }

  /** In every schedule no run queue ever holds more than 1024 tasks. */
  lemma {:induction false} QueuesBounded(n: nat, schedule: seq<Action>)
    ensures Bounded(Run(n, schedule).cpus)
  {
    if schedule != [] {
      QueuesBounded(n, schedule[..|schedule| - 1]);
      StepBounded(Run(n, schedule[..|schedule| - 1]), schedule[|schedule| - 1]);
    }
  }

  lemma StepBounded(s: State, a: Action)
    requires Bounded(s.cpus)
    ensures Bounded(Step(s, a).cpus)
  {
    if a.Tick? {
      WakeKeepsLost(s.(tick := s.tick + 1), s.limit);
    } else if a.Idle? && a.cpu < |s.cpus| {
      var r := StealLoop(s.cpus, a.cpu, 0, []).cpus;
      forall c: nat | c < |s.cpus| ensures |r| == |s.cpus| && |r[c].queue| <= 1024 {
        StealLeaves(s.cpus, a.cpu, 0, [], c);
      }
      hide StealLoop;
    }
  }

  /** A sleep of no length changes nothing. */
  lemma NoSleep(n: nat, schedule: seq<Action>, c: nat)
    ensures Run(n, schedule + [SleepFor(c, 0)]) == Run(n, schedule)
  {
    RunSnoc(n, schedule, SleepFor(c, 0));
  }

  // Awakenings that come too early.

  /** As the entry points are: an awakening does not look whether its task is asleep. */
  function FreeStep(s: State, a: Action): State {
    if a.Awaken? && !s.halted && a.id in s.tasks then AwakenTask(s.(lost := s.lost - {a.id}), a.id) else Step(s, a)
  }

  function FreeRun(n: nat, schedule: seq<Action>): State {
    if schedule == [] then Init(n)
    else FreeStep(FreeRun(n, schedule[..|schedule| - 1]), schedule[|schedule| - 1])
  }

  /** The action awakens no task, or one that can be awakened. */
  predicate Timely(s: State, a: Action) {
    a.Awaken? && !s.halted && a.id in s.tasks ==> Awakenable(s, a.id)
  }

  /** Every awakening of the run is timely. */
  ghost predicate Orderly(n: nat, schedule: seq<Action>) {
    schedule == [] ||
    (Orderly(n, schedule[..|schedule| - 1]) &&
     Timely(FreeRun(n, schedule[..|schedule| - 1]), schedule[|schedule| - 1]))
  }

  ghost predicate AllPlaced(s: State) {
    forall t: nat :: Placed(s, t)
  }

  /** Every task is in its one place at every moment of the run. */
  ghost predicate AlwaysPlaced(n: nat, schedule: seq<Action>) {
    AllPlaced(FreeRun(n, schedule)) && (schedule == [] || AlwaysPlaced(n, schedule[..|schedule| - 1]))
  }

  lemma TimelyStep(s: State, a: Action)
    requires Timely(s, a)
    ensures FreeStep(s, a) == Step(s, a)
  {
  }

  /** An awakening that is not timely leaves its task in two places, or ready with a wake
      tick. */
  lemma UntimelyBreaks(s: State, a: Action)
    requires a.Awaken? && Placed(s, a.id) && !Timely(s, a)
    ensures !Placed(FreeStep(s, a), a.id)
  {
    hide Queued, Current, Count;
    CountSnoc(s.global, a.id, a.id);
  }

  /** Orderly runs are the runs of the machine above. */
  lemma {:induction false} OrderlyRun(n: nat, schedule: seq<Action>)
    requires Orderly(n, schedule)
    ensures FreeRun(n, schedule) == Run(n, schedule)
  {
    if schedule != [] {
      OrderlyRun(n, schedule[..|schedule| - 1]);
      TimelyStep(FreeRun(n, schedule[..|schedule| - 1]), schedule[|schedule| - 1]);
    }
  }

  /** Every task is in its one place all along a run exactly when every awakening of the run
      finds its task blocked on a message, or dropped by a steal. */
  lemma {:induction false} PlacedExactly(n: nat, schedule: seq<Action>)
    ensures AlwaysPlaced(n, schedule) <==> Orderly(n, schedule)
  {
    hide Placed;
    if schedule == [] {
      forall t: nat ensures Placed(FreeRun(n, []), t) {
        EveryTaskPlaced(n, [], t);
      }
    } else {
      var before, a := schedule[..|schedule| - 1], schedule[|schedule| - 1];
      PlacedExactly(n, before);
      if Orderly(n, schedule) {
        OrderlyRun(n, schedule);
        forall t: nat ensures Placed(FreeRun(n, schedule), t) {
          EveryTaskPlaced(n, schedule, t);
        }
      } else if AlwaysPlaced(n, before) {
        assert !Timely(FreeRun(n, before), a);
        assert Placed(FreeRun(n, before), a.id);
        UntimelyBreaks(FreeRun(n, before), a);
      }
    }
  }

  lemma FreeSnoc(n: nat, schedule: seq<Action>, a: Action)
    ensures FreeRun(n, schedule + [a]) == FreeStep(FreeRun(n, schedule), a)
  {
    assert (schedule + [a])[..|schedule|] == schedule;
  }

  /** A task becomes current on CPU 0 and is awakened before it sleeps: now it is also in
      the global queue, from where CPU 1 takes it and runs it too. */
  lemma EarlyAwakeningRunsTwice()
    ensures var early := [AddTask(0)] + [Idle(0)] + [Tick(0)] + [Awaken(0)];
            var s, s' := FreeRun(2, early), FreeRun(2, early + [Idle(1)] + [Tick(1)]);
            && |s.cpus| == |s'.cpus| == 2
            && s.cpus[0].curr == Some(0) && 0 in s.global
            && s'.cpus[0].curr == Some(0) && s'.cpus[1].curr == Some(0)
  {
    var early := [AddTask(0)] + [Idle(0)] + [Tick(0)] + [Awaken(0)];
    assert [] + [AddTask(0)] == [AddTask(0)] && FreeRun(2, []) == Init(2);
    FreeSnoc(2, [], AddTask(0));
    FreeSnoc(2, [AddTask(0)], Idle(0));
    FreeSnoc(2, [AddTask(0)] + [Idle(0)], Tick(0));
    FreeSnoc(2, [AddTask(0)] + [Idle(0)] + [Tick(0)], Awaken(0));
    FreeSnoc(2, early, Idle(1));
    FreeSnoc(2, early + [Idle(1)], Tick(1));
    hide *;
    Fetched();
    Started(FreeRun(2, [AddTask(0)] + [Idle(0)]));
    Doubled(FreeRun(2, [AddTask(0)] + [Idle(0)] + [Tick(0)]));
    RunTwice(FreeRun(2, early));
  }

  /** One task on two CPUs: these queues and current tasks, in this state. */
  ghost predicate OneTask(s: State, first: Cpu, second: Cpu, global: seq<nat>, state: TaskState) {
    s.cpus == [first, second] && s.global == global && s.tasks == map[0 := Tcb(state, 0)] && s.limit == 1 && !s.halted
  }

  lemma Fetched()
    ensures OneTask(FreeStep(FreeStep(Init(2), AddTask(0)), Idle(0)), Cpu(None, [0]), Cpu(None, []), [], Ready)
  {
    var s := FreeStep(Init(2), AddTask(0));
    assert s.cpus == [Cpu(None, []), Cpu(None, [])] && s.tasks == map[0 := Tcb(Ready, 0)] && s.global == [0];
    TakesGlobal(s, 0);
    assert s.cpus[0 := Cpu(None, [0])] == [Cpu(None, [0]), Cpu(None, [])];
    hide IdleRound;
  }

  lemma Started(s: State)
    requires OneTask(s, Cpu(None, [0]), Cpu(None, []), [], Ready)
    ensures OneTask(FreeStep(s, Tick(0)), Cpu(Some(0), []), Cpu(None, []), [], Running)
  {
    var s1 := s.(tick := s.tick + 1);
    assert WakeBelow(s1, 1) == s1;
  }

  lemma Doubled(s: State)
    requires OneTask(s, Cpu(Some(0), []), Cpu(None, []), [], Running)
    ensures OneTask(FreeStep(s, Awaken(0)), Cpu(Some(0), []), Cpu(None, []), [0], Ready)
    ensures |FreeStep(s, Awaken(0)).cpus| == 2 && 0 in FreeStep(s, Awaken(0)).global
    ensures FreeStep(s, Awaken(0)).cpus[0].curr == Some(0)
  {
  }

  lemma RunTwice(s: State)
    requires OneTask(s, Cpu(Some(0), []), Cpu(None, []), [0], Ready)
    ensures var s' := FreeStep(FreeStep(s, Idle(1)), Tick(1));
            |s'.cpus| == 2 && s'.cpus[0].curr == Some(0) && s'.cpus[1].curr == Some(0)
  {
    TakesGlobal(s, 1);
    assert s.cpus[1 := Cpu(None, [0])] == [Cpu(Some(0), []), Cpu(None, [0])];
    hide IdleRound;
  }

  lemma TakesGlobal(s: State, me: nat)
    requires |s.cpus| == 2 && me < 2 && s.cpus[me] == Cpu(None, []) && s.cpus[1 - me].queue == [] && s.global == [0]
    ensures IdleRound(s, me) == s.(cpus := s.cpus[me := Cpu(None, [0])], global := [])
  {
    NothingToSteal(s, me);
    hide StealLoop;
    assert [] + [0] == [0];
  }

  lemma NothingToSteal(s: State, me: nat)
    requires |s.cpus| == 2 && me < 2 && |s.cpus[0].queue| < STEAL_BATCH && |s.cpus[1].queue| < STEAL_BATCH
    ensures StealLoop(s.cpus, me, 0, []) == Stolen(s.cpus, [], None)
  {
    assert StealLoop(s.cpus, me, 2, []) == Stolen(s.cpus, [], None);
    assert StealLoop(s.cpus, me, 1, []) == Stolen(s.cpus, [], None);
  }
}
