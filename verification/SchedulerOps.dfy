/** The scheduler entry points as they run, each updating the CPU descriptors, the
    task table and the global queue in place; they do what the steps of the
    scheduler model say. */
module SchedulerOperations {
  import opened Options
  import opened Scheduler

  class CpuDescriptors {
    var cpus: seq<Cpu>
    var global: seq<nat>
    var tasks: map<nat, Tcb>
    var tick: nat
    /** A bound of the task ids. */
    var limit: nat
    ghost var lost: set<nat>
    ghost var halted: bool

    ghost function View(): State
      reads this
    {
      State(cpus, global, tasks, limit, tick, lost, halted)
    }

    constructor (n: nat)
      ensures View() == Init(n)
    {
      cpus := seq(n, _ => Cpu(None, []));
      global, tasks, tick, limit, lost, halted := [], map[], 0, 0, {}, false;
    }

    /** `add_task_to_execute` for a new task. */
    method AddTaskToExecute(t: nat)
      requires t !in tasks && !halted
      modifies this
      ensures View() == Step(old(View()), AddTask(t))
    {
      tasks := tasks[t := Tcb(Ready, 0)];
      global := global + [t];
      if t >= limit {
        limit := t + 1;
      }
    }

    /** `awaken_task`. */
    method Awaken(t: nat)
      requires t in tasks
      modifies this
      ensures View() == AwakenTask(old(View()), t)
    {
      tasks := tasks[t := tasks[t].(state := Ready)];
      global := global + [t];
    }

    /** A sender's call of `awaken_task`, which does not look at the receiver's state. */
    method AwakenReceiver(t: nat)
      requires !halted
      modifies this
      ensures View() == FreeStep(old(View()), Scheduler.Awaken(t))
    {
      if t in tasks {
        lost := lost - {t};
        Awaken(t);
      }
    }

    /** `wake_sleeping_tasks`: first collects the due sleepers, then wakes them. */
    method WakeSleepingTasks(me: nat)
      modifies this
      ensures View() == if me == 0 then WakeBelow(old(View()), old(limit)) else old(View())
      ensures cpus == old(cpus) && halted == old(halted)
    {
      if me != 0 {
        return;
      }
      ghost var s := View();
      var toWake: seq<nat> := [];
      for id := 0 to limit
        invariant View() == s && toWake == DueBelow(s, id)
      {
        if id in tasks && tasks[id].state == Sleep && tasks[id].wakeAt != 0 && tick >= tasks[id].wakeAt {
          toWake := toWake + [id];
        }
      }
      for i := 0 to |toWake|
        invariant View() == WakeList(s, toWake[..i]) && cpus == s.cpus && halted == s.halted
      {
        ghost var before := View();
        assert toWake[..i + 1][..i] == toWake[..i];
        var t := toWake[i];
        if t in tasks {
          tasks := tasks[t := tasks[t].(wakeAt := 0)];
          Awaken(t);
        }
      }
      assert toWake[..|toWake|] == toWake;
      WakeListIsWakeBelow(s, s.limit);
    }

    /** `try_to_steal_into`: the buffer it fills, and the task dropped when it is full. */
    method TryToStealInto(me: nat) returns (buf: seq<nat>)
      modifies this
      ensures var st := StealLoop(old(cpus), me, 0, []);
              && buf == st.buf
              && View() == old(View()).(cpus := st.cpus,
                                        lost := if st.dropped.Some? then old(lost) + {st.dropped.value} else old(lost))
    {
      buf := [];
      var idx := 0;
      while idx < |cpus|
        invariant idx <= |cpus|
        invariant View() == old(View()).(cpus := cpus)
        invariant StealLoop(old(cpus), me, 0, []) == StealLoop(cpus, me, idx, buf)
      {
        if idx != me && |cpus[idx].queue| >= STEAL_BATCH {
          var task := cpus[idx].queue[0];
          cpus := cpus[idx := cpus[idx].(queue := cpus[idx].queue[1..])];
          if |buf| >= STEAL_BATCH {
            lost := lost + {task};
            return;
          }
          buf := buf + [task];
        }
        idx := idx + 1;
      }
    }

    /** `steal_from_global`. */
    method StealFromGlobal() returns (buf: seq<nat>)
      modifies this`global
      ensures buf == Front(old(global), STEAL_BATCH) && global == old(global)[|buf|..]
    {
      buf := [];
      while |buf| < STEAL_BATCH && global != []
        invariant |buf| <= STEAL_BATCH && |buf| <= |old(global)|
        invariant buf == old(global)[..|buf|] && global == old(global)[|buf|..]
        decreases |global|
      {
        buf := buf + [global[0]];
        global := global[1..];
      }
    }

    /** Pushes the loot; a full run queue makes the kernel panic. */
    method PushLoot(me: nat, loot: seq<nat>)
      requires me < |cpus| && !halted && |cpus[me].queue| <= RQ_CAP
      modifies this`cpus, this`halted
      ensures halted <==> |old(cpus)[me].queue| + |loot| > RQ_CAP
      ensures !halted ==> cpus == old(cpus)[me := old(cpus)[me].(queue := old(cpus)[me].queue + loot)]
    {
      ghost var own := cpus[me].queue;
      assert own + loot[..0] == own;
      for i := 0 to |loot|
        invariant !halted && |old(cpus)[me].queue| + i <= RQ_CAP
        invariant cpus == old(cpus)[me := old(cpus)[me].(queue := old(cpus)[me].queue + loot[..i])]
      {
        if |cpus[me].queue| >= RQ_CAP {
          halted := true;
          return;
        }
        assert own + loot[..i + 1] == own + loot[..i] + [loot[i]];
        cpus := cpus[me := cpus[me].(queue := cpus[me].queue + [loot[i]])];
      }
      assert loot[..|loot|] == loot;
    }

    /** One round of `idle_task`. */
    method IdleTask(me: nat)
      requires me < |cpus| && cpus[me].curr.None? && |cpus[me].queue| <= RQ_CAP && !halted
      modifies this
      ensures halted <==> Step(old(View()), Idle(me)).halted
      ensures !halted ==> View() == Step(old(View()), Idle(me))
    {
      StealLeaves(cpus, me, 0, [], me);
      hide StealLoop;
      var loot := TryToStealInto(me);
      if |loot| == 0 {
        loot := StealFromGlobal();
      }
      PushLoot(me, loot);
    }

    /** `process_tick`. */
    method ProcessTick(me: nat)
      requires me < |cpus|
      modifies this
      ensures View() == Scheduler.ProcessTick(old(View()), me)
    {
      var curr, queue := cpus[me].curr, cpus[me].queue;
      if queue == [] {
        return;
      }
      var next := queue[|queue| - 1];
      queue := queue[..|queue| - 1];
      if curr.Some? {
        tasks := SetState(tasks, curr.value, Ready);
        queue := queue + [curr.value];
      }
      tasks := SetState(tasks, next, Running);
      cpus := cpus[me := Cpu(Some(next), queue)];
    }

    /** The timer interrupt on one CPU. */
    method TimerTick(me: nat)
      requires me < |cpus| && !halted
      modifies this
      ensures View() == Step(old(View()), Tick(me))
    {
      tick := tick + 1;
      WakeSleepingTasks(me);
      ProcessTick(me);
    }

    /** `sleep` of the task that is current on the CPU. */
    method SleepCurrent(me: nat, ns: nat)
      requires me < |cpus| && cpus[me].curr.Some? && !halted
      modifies this
      ensures View() == Step(old(View()), SleepFor(me, ns))
    {
      var ticks := (ns + 999_999) / 1_000_000;
      if ticks == 0 {
        return;
      }
      var t := cpus[me].curr.value;
      tasks := SetWake(tasks, t, tick + ticks);
      tasks := SetState(tasks, t, Sleep);
      cpus := cpus[me := cpus[me].(curr := None)];
    }

    /** `block_current_on_ipc`. */
    method BlockCurrentOnIpc(me: nat)
      requires me < |cpus| && cpus[me].curr.Some? && !halted
      modifies this
      ensures View() == Step(old(View()), BlockOnIpc(me))
    {
      tasks := SetState(tasks, cpus[me].curr.value, Sleep);
      cpus := cpus[me := cpus[me].(curr := None)];
    }
  }

  /** The due sleepers below n, in order of id. */
  function DueBelow(s: State, n: nat): seq<nat> {
    if n == 0 then [] else DueBelow(s, n - 1) + if Due(s, n - 1) then [n - 1] else []
  }

  /** Wakes the listed tasks. */
  function WakeList(s: State, q: seq<nat>): State {
    if q == [] then s
    else
      var s', t := WakeList(s, q[..|q| - 1]), q[|q| - 1];
      if t in s'.tasks then AwakenTask(s'.(tasks := s'.tasks[t := s'.tasks[t].(wakeAt := 0)]), t) else s'
  }

  /** Waking tasks below n leaves the others alone. */
  lemma {:induction false} WakeBelowOthers(s: State, n: nat, t: nat)
    requires t >= n
    ensures WakeBelow(s, n).tick == s.tick && (t in WakeBelow(s, n).tasks <==> t in s.tasks)
    ensures t in s.tasks ==> WakeBelow(s, n).tasks[t] == s.tasks[t]
  {
    if n > 0 {
      WakeBelowOthers(s, n - 1, t);
    }
  }

  /** Collecting first and waking then is the same as waking on the way. */
  lemma {:induction false} WakeListIsWakeBelow(s: State, n: nat)
    ensures WakeList(s, DueBelow(s, n)) == WakeBelow(s, n)
  {
    if n > 0 {
      WakeListIsWakeBelow(s, n - 1);
      WakeBelowOthers(s, n - 1, n - 1);
      if Due(s, n - 1) {
        assert (DueBelow(s, n - 1) + [n - 1])[..|DueBelow(s, n - 1)|] == DueBelow(s, n - 1);
      } else {
        assert DueBelow(s, n - 1) + [] == DueBelow(s, n - 1);
      }
    }
  }
}
