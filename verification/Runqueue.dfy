/** The bounded work-stealing deque of one CPU (`Runqueue`), as an interleaving
    machine: one owner runs push and pop, any number of thieves run steal, any
    number of readers run len, and every load, store and compare-exchange is a
    step of its own. Memory is sequentially consistent and the 64-bit indices are
    taken not to wrap. */
module Runqueue {

  const RQ_CAP: nat := 1024
  const WORD: nat := 0x1_0000_0000_0000_0000

  /** One owned reference to a task, as produced by `Arc::into_raw`. */
  datatype TaskRef = Ref(id: nat)

  datatype Slot = Null | Ptr(task: TaskRef)

  /** How far a push has got, with the locals it holds there. */
  datatype PushAt = Called | Loaded(b: nat) | Room(b: nat) | Stored(b: nat) | Panicked

  /** How far a pop has got, with the locals it holds there. */
  datatype PopAt =
    | Entered
    | Bottom(b0: nat)
    | NonEmpty(b0: nat)
    | Lowered(b: nat)
    | Take(b: nat)
    | Race(b: nat)
    | RaceRead(b: nat, ptr: Slot)
    | Won(b: nat, ptr: Slot)
    | Restore(b: nat)

  datatype Owner = Idle | Pushing(x: TaskRef, push: PushAt) | Popping(pop: PopAt)

  /** Where one thief is inside steal. */
  datatype Thief =
    | Ready
    | TopRead(t: nat)
    | BottomRead(t: nat)
    | SlotRead(t: nat, ptr: Slot)

  /** Where one reader is inside len, and what it last answered. */
  datatype Reader = Away | BottomSeen(b: nat) | Answered(len: int)

  /** `pushed` and `returned` log every reference handed to push and every
      reference handed back by pop or steal. */
  datatype State = State(
    top: nat,
    bottom: nat,
    buf: seq<Slot>,
    owner: Owner,
    thieves: map<nat, Thief>,
    readers: map<nat, Reader>,
    pushed: seq<TaskRef>,
    returned: seq<TaskRef>)

  datatype Action = CallPush(x: TaskRef) | CallPop | OwnerStep | ThiefStep(id: nat) | ReaderStep(id: nat)

  function Init(): State {
    State(0, 0, seq(RQ_CAP, _ => Null), Idle, map[], map[], [], [])
  }

  /** 64-bit `wrapping_sub`. */
  function WrappingSub(a: nat, b: nat): int {
    if a >= b then a - b else a + WORD - b
  }

  function ThiefAt(s: State, id: nat): Thief {
    if id in s.thieves then s.thieves[id] else Ready
  }

  function ReaderAt(s: State, id: nat): Reader {
    if id in s.readers then s.readers[id] else Away
  }

  function Step(s: State, a: Action): State
    requires |s.buf| == RQ_CAP
  {
    match a
    case CallPush(x) =>
      if s.owner.Idle? then s.(owner := Pushing(x, Called), pushed := s.pushed + [x]) else s
    case CallPop =>
      if s.owner.Idle? then s.(owner := Popping(Entered)) else s
    case OwnerStep =>
      (match s.owner
       case Idle => s
       case Pushing(x, at) => StepPush(s, x, at)
       case Popping(at) => StepPop(s, at))
    case ThiefStep(id) => StepThief(s, id)
    case ReaderStep(id) => StepReader(s, id)
  }

  function StepPush(s: State, x: TaskRef, at: PushAt): State
    requires |s.buf| == RQ_CAP
  {
    match at
    case Called => s.(owner := Pushing(x, Loaded(s.bottom)))
    case Loaded(b) =>
      s.(owner := Pushing(x, if WrappingSub(b, s.top) >= RQ_CAP then Panicked else Room(b)))
    case Room(b) => s.(buf := s.buf[b % RQ_CAP := Ptr(x)], owner := Pushing(x, Stored(b)))
    case Stored(b) => s.(bottom := b + 1, owner := Idle)
    case Panicked => s
  }

  function StepPop(s: State, at: PopAt): State
    requires |s.buf| == RQ_CAP
  {
    match at
    case Entered => s.(owner := Popping(Bottom(s.bottom)))
    case Bottom(b0) => s.(owner := if b0 == s.top then Idle else Popping(NonEmpty(b0)))
    case NonEmpty(b0) =>
      var b := WrappingSub(b0, 1);
      s.(bottom := b, owner := Popping(Lowered(b)))
    case Lowered(b) =>
      s.(owner := Popping(if s.top < b then Take(b) else if s.top == b then Race(b) else Restore(b)))
    case Take(b) => Return(s, s.buf[b % RQ_CAP]).(owner := Idle)
    case Race(b) => s.(owner := Popping(RaceRead(b, s.buf[b % RQ_CAP])))
    case RaceRead(b, ptr) =>
      if s.top == b then s.(top := b + 1, owner := Popping(Won(b, ptr)))
      else s.(owner := Popping(Restore(b)))
    case Won(b, ptr) => Return(s, ptr).(bottom := b + 1, owner := Idle)
    case Restore(b) => s.(bottom := b + 1, owner := Idle)
  }

  function StepThief(s: State, id: nat): State
    requires |s.buf| == RQ_CAP
  {
    match ThiefAt(s, id)
    case Ready => s.(thieves := s.thieves[id := TopRead(s.top)])
    case TopRead(t) =>
      s.(thieves := s.thieves[id := if t >= s.bottom then Ready else BottomRead(t)])
    case BottomRead(t) => s.(thieves := s.thieves[id := SlotRead(t, s.buf[t % RQ_CAP])])
    case SlotRead(t, ptr) =>
      if s.top == t
      then Return(s, ptr).(top := t + 1, thieves := s.thieves[id := Ready])
      else s.(thieves := s.thieves[id := Ready])
  }

  /** `len`: load bottom, then load top and answer with the wrapped difference. */
  function StepReader(s: State, id: nat): State {
    match ReaderAt(s, id)
    case BottomSeen(b) => s.(readers := s.readers[id := Answered(WrappingSub(b, s.top))])
    case _ => s.(readers := s.readers[id := BottomSeen(s.bottom)])
  }

  /** Handing a loaded pointer back to the caller; a null pointer hands back nothing. */
  function Return(s: State, ptr: Slot): State {
    match ptr
    case Null => s
    case Ptr(x) => s.(returned := s.returned + [x])
  }

  /** The state after a whole schedule of actions, in any interleaving. */
  function Run(schedule: seq<Action>): (s: State)
    ensures |s.buf| == RQ_CAP
  {
    if schedule == [] then Init()
    else
      var before := Run(schedule[..|schedule| - 1]);
      StepKeepsCapacity(before, schedule[|schedule| - 1]);
      Step(before, schedule[|schedule| - 1])
  }

  lemma StepKeepsCapacity(s: State, a: Action)
    requires |s.buf| == RQ_CAP
    ensures |Step(s, a).buf| == RQ_CAP
  {
  }

  // The abstract deque.

  /** While the owner contests or gives back the last element, `bottom` is one
      below the true end of the queue. */
  ghost predicate Contesting(o: Owner) {
    o.Popping? && (o.pop.Lowered? || o.pop.Race? || o.pop.RaceRead? || o.pop.Won? || o.pop.Restore?)
  }

  /** One past the last queued index. */
  ghost function Limit(s: State): nat {
    if Contesting(s.owner) then s.bottom + 1 else s.bottom
  }

  ghost function Value(p: Slot): TaskRef {
    match p case Null => Ref(0) case Ptr(x) => x
  }

  /** The references in the slots of indices lo up to hi. */
  ghost function Window(buf: seq<Slot>, lo: nat, hi: nat): (w: seq<TaskRef>)
    requires |buf| == RQ_CAP
    ensures |w| == if lo <= hi then hi - lo else 0
    decreases hi - lo
  {
    if lo >= hi then [] else [Value(buf[lo % RQ_CAP])] + Window(buf, lo + 1, hi)
  }

  /** The queued references, oldest first. */
  ghost function Contents(s: State): seq<TaskRef>
    requires |s.buf| == RQ_CAP
  {
    Window(s.buf, s.top, Limit(s))
  }

  /** The reference the owner holds between the queue and its caller. */
  ghost function Hand(s: State): seq<TaskRef>
    requires |s.buf| == RQ_CAP
  {
    if s.owner.Pushing? then [s.owner.x]
    else if s.owner.Popping? && s.owner.pop.Take? then [Value(s.buf[s.owner.pop.b % RQ_CAP])]
    else if s.owner.Popping? && s.owner.pop.Won? then [Value(s.owner.pop.ptr)]
    else []
  }

  ghost predicate PushInv(s: State, x: TaskRef, at: PushAt)
    requires |s.buf| == RQ_CAP
  {
    match at
    case Loaded(b) => b == s.bottom
    case Room(b) => b == s.bottom && b < s.top + RQ_CAP
    case Stored(b) => b == s.bottom && b < s.top + RQ_CAP && s.buf[b % RQ_CAP] == Ptr(x)
    case _ => true
  }

  ghost predicate PopInv(s: State, at: PopAt)
    requires |s.buf| == RQ_CAP
  {
    match at
    case Entered => true
    case Bottom(b0) => b0 == s.bottom
    case NonEmpty(b0) => b0 == s.bottom && b0 > 0
    case Lowered(b) => b == s.bottom
    case Take(b) => b == s.bottom && b < s.top + RQ_CAP && s.buf[b % RQ_CAP].Ptr?
    case Race(b) => b == s.bottom && b <= s.top
    case RaceRead(b, ptr) => b == s.bottom && b <= s.top && (s.top == b ==> ptr == s.buf[b % RQ_CAP])
    case Won(b, ptr) => b == s.bottom && s.top == b + 1 && ptr.Ptr?
    case Restore(b) => b == s.bottom && s.top == b + 1
  }

  /** A thief whose compare-exchange would still succeed has seen a queued
      index and, once it has read the slot, holds exactly that slot's reference. */
  ghost predicate ThiefInv(s: State, h: Thief)
    requires |s.buf| == RQ_CAP
  {
    match h
    case Ready => true
    case TopRead(t) => t <= s.top
    case BottomRead(t) => t <= s.top && (t == s.top ==> t < Limit(s))
    case SlotRead(t, ptr) => t <= s.top && (t == s.top ==> t < Limit(s) && ptr == s.buf[t % RQ_CAP])
  }

  ghost predicate Shape(s: State) {
    && |s.buf| == RQ_CAP
    && s.top <= Limit(s) <= s.top + RQ_CAP
    && (forall i {:trigger s.buf[i % RQ_CAP]} :: s.top <= i < Limit(s) ==> s.buf[i % RQ_CAP].Ptr?)
    && (s.owner.Pushing? ==> PushInv(s, s.owner.x, s.owner.push))
    && (s.owner.Popping? ==> PopInv(s, s.owner.pop))
    && ThievesInv(s)
  }

  ghost predicate ThievesInv(s: State)
    requires |s.buf| == RQ_CAP
  {
    forall id :: id in s.thieves ==> ThiefInv(s, s.thieves[id])
  }

  /** How often x occurs in a log. */
  ghost function Count(log: seq<TaskRef>, x: TaskRef): nat {
    if log == [] then 0 else Count(log[..|log| - 1], x) + if log[|log| - 1] == x then 1 else 0
  }

  lemma {:induction false} CountConcat(a: seq<TaskRef>, b: seq<TaskRef>, x: TaskRef)
    ensures Count(a + b, x) == Count(a, x) + Count(b, x)
  {
    if b == [] {
      assert a + b == a;
    } else {
      CountConcat(a, b[..|b| - 1], x);
      assert (a + b)[..|a + b| - 1] == a + b[..|b| - 1];
    }
  }

  lemma CountNone(x: TaskRef)
    ensures Count([], x) == 0
  {
  }

  ghost predicate Conserved(s: State, x: TaskRef)
    requires |s.buf| == RQ_CAP
  {
    Count(s.pushed, x) == Count(s.returned, x) + Count(Contents(s), x) + Count(Hand(s), x)
  }

  /** Two indices less than one capacity apart never share a slot. */
  lemma SlotsDistinct(i: nat, j: nat)
    requires i < j < i + RQ_CAP
    ensures i % RQ_CAP != j % RQ_CAP
  {
    assert j == RQ_CAP * (j / RQ_CAP) + j % RQ_CAP;
    assert i == RQ_CAP * (i / RQ_CAP) + i % RQ_CAP;
  }

  lemma {:induction false} WindowBack(buf: seq<Slot>, lo: nat, hi: nat)
    requires |buf| == RQ_CAP && lo <= hi
    ensures Window(buf, lo, hi + 1) == Window(buf, lo, hi) + [Value(buf[hi % RQ_CAP])]
    decreases hi - lo
  {
    if lo < hi {
      WindowBack(buf, lo + 1, hi);
    }
  }

  /** Storing at index hi leaves the slots of lo up to hi alone. */
  lemma {:induction false} WindowFrame(buf: seq<Slot>, lo: nat, hi: nat, p: Slot)
    requires |buf| == RQ_CAP && hi < lo + RQ_CAP
    ensures Window(buf[hi % RQ_CAP := p], lo, hi) == Window(buf, lo, hi)
    decreases hi - lo
  {
    if lo < hi {
      SlotsDistinct(lo, hi);
      WindowFrame(buf, lo + 1, hi, p);
    }
  }

  // Every step keeps the shape.

  lemma PushShape(s: State)
    requires Shape(s) && s.owner.Pushing?
    ensures Shape(StepPush(s, s.owner.x, s.owner.push))
  {
    if s.owner.push.Room? {
      var b := s.owner.push.b;
      forall i: nat | s.top <= i < b
        ensures s.buf[b % RQ_CAP := Ptr(s.owner.x)][i % RQ_CAP] == s.buf[i % RQ_CAP]
      {
        SlotsDistinct(i, b);
      }
    }
  }

  lemma PopShape(s: State)
    requires Shape(s) && s.owner.Popping?
    ensures Shape(StepPop(s, s.owner.pop))
  {
    PopThieves(s);
    hide ThievesInv, Window;
  }

  lemma PopThieves(s: State)
    requires Shape(s) && s.owner.Popping?
    ensures ThievesInv(StepPop(s, s.owner.pop))
  {
    hide Window;
    var s' := StepPop(s, s.owner.pop);
    assert s'.thieves == s.thieves && s'.buf == s.buf && s.top <= s'.top;
    assert s'.top == s.top ==> Limit(s') == Limit(s) || s.owner.pop.Lowered?;
  }

  lemma ThiefShape(s: State, id: nat)
    requires Shape(s)
    ensures Shape(StepThief(s, id))
  {
  }

  // What every step does to the abstract deque, and that it loses nothing.

  /** A push adds its reference at the back when it publishes the new bottom. */
  lemma PushRefines(s: State)
    requires Shape(s) && s.owner.Pushing?
    ensures Contents(StepPush(s, s.owner.x, s.owner.push)) ==
            Contents(s) + if s.owner.push.Stored? then [s.owner.x] else []
  {
    match s.owner.push {
      case Room(b) => WindowFrame(s.buf, s.top, b, Ptr(s.owner.x));
      case Stored(b) => WindowBack(s.buf, s.top, b);
      case _ =>
    }
  }

  /** The reference a pop step takes off the back of the deque, if it takes one:
      on reading a top below its index, or on winning the race for the last one. */
  ghost function PopClaims(s: State): seq<TaskRef>
    requires |s.buf| == RQ_CAP && s.owner.Popping?
  {
    match s.owner.pop
    case Lowered(b) => if s.top < b then [Value(s.buf[b % RQ_CAP])] else []
    case RaceRead(b, ptr) => if s.top == b then [Value(ptr)] else []
    case _ => []
  }

  lemma PopRefines(s: State)
    requires Shape(s) && s.owner.Popping?
    ensures Contents(s) == Contents(StepPop(s, s.owner.pop)) + PopClaims(s)
  {
    match s.owner.pop {
      case Lowered(b) => if s.top < b { WindowBack(s.buf, s.top, b); }
      case _ =>
    }
  }

  /** The reference a thief's step takes off the front of the deque, if any. */
  ghost function StealClaims(s: State, id: nat): seq<TaskRef> {
    match ThiefAt(s, id)
    case SlotRead(t, ptr) => if s.top == t then [Value(ptr)] else []
    case _ => []
  }

  lemma ThiefRefines(s: State, id: nat)
    requires Shape(s)
    ensures Contents(s) == StealClaims(s, id) + Contents(StepThief(s, id))
  {
  }

  lemma PushConserves(s: State, x: TaskRef)
    requires Shape(s) && s.owner.Pushing? && Conserved(s, x)
    ensures Conserved(StepPush(s, s.owner.x, s.owner.push), x)
  {
    CountNone(x);
    hide Count, Window, ThievesInv;
    PushRefines(s);
    CountConcat(Contents(s), if s.owner.push.Stored? then [s.owner.x] else [], x);
  }

  /** A pop step keeps its reference, moves it into the hand, or hands it back. */
  lemma PopBooks(s: State)
    requires |s.buf| == RQ_CAP && s.owner.Popping? && PopInv(s, s.owner.pop)
    ensures var s' := StepPop(s, s.owner.pop);
            && s'.pushed == s.pushed
            && s'.returned + Hand(s') == s.returned + Hand(s) + PopClaims(s)
  {
  }

  lemma PopConserves(s: State, x: TaskRef)
    requires Shape(s) && s.owner.Popping? && Conserved(s, x)
    ensures Conserved(StepPop(s, s.owner.pop), x)
  {
    var s' := StepPop(s, s.owner.pop);
    PopRefines(s);
    PopBooks(s);
    CountConcat(Contents(s'), PopClaims(s), x);
    CountConcat(s'.returned, Hand(s'), x);
    CountConcat(s.returned + Hand(s), PopClaims(s), x);
    CountConcat(s.returned, Hand(s), x);
  }

  lemma ThiefConserves(s: State, id: nat, x: TaskRef)
    requires Shape(s) && Conserved(s, x)
    ensures Conserved(StepThief(s, id), x)
  {
    hide Count, Window;
    ThiefRefines(s, id);
    CountConcat(StealClaims(s, id), Contents(StepThief(s, id)), x);
    CountConcat(s.returned, StealClaims(s, id), x);
  }

  lemma StepShape(s: State, a: Action)
    requires Shape(s)
    ensures Shape(Step(s, a))
  {
    match a {
      case CallPush(_) =>
      case CallPop =>
      case OwnerStep =>
        if s.owner.Pushing? { PushShape(s); } else if s.owner.Popping? { PopShape(s); }
      case ThiefStep(id) => ThiefShape(s, id);
      case ReaderStep(_) =>
    }
  }

  lemma StepConserves(s: State, a: Action, x: TaskRef)
    requires Shape(s) && Conserved(s, x)
    ensures Conserved(Step(s, a), x)
  {
    hide Window, ThievesInv, StepPush, StepPop, StepThief, StepReader;
    match a {
      case CallPush(y) => CountConcat(s.pushed, [y], x);
      case CallPop =>
      case OwnerStep =>
        if s.owner.Pushing? { PushConserves(s, x); } else if s.owner.Popping? { PopConserves(s, x); }
      case ThiefStep(id) => ThiefConserves(s, id, x);
      case ReaderStep(id) => ReaderOnly(s, id);
    }
  }

  lemma ReaderOnly(s: State, id: nat)
    ensures StepReader(s, id) == s.(readers := StepReader(s, id).readers)
  {
  }

  /** Every schedule keeps the shape. */
  lemma {:induction false} RunShape(schedule: seq<Action>)
    ensures Shape(Run(schedule))
  {
    if schedule != [] {
      RunShape(schedule[..|schedule| - 1]);
      StepShape(Run(schedule[..|schedule| - 1]), schedule[|schedule| - 1]);
    }
  }

  /** In every schedule, each reference given to push has been handed back once,
      or is queued once, or is still in the owner's hand: never lost, never twice. */
  lemma {:induction false} ExactlyOnce(schedule: seq<Action>, x: TaskRef)
    ensures var s := Run(schedule);
            Count(s.pushed, x) == Count(s.returned, x) + Count(Contents(s), x) + Count(Hand(s), x)
  {
    if schedule == [] {
      assert Contents(Init()) == [];
    } else {
      var s := Run(schedule[..|schedule| - 1]);
      RunShape(schedule[..|schedule| - 1]);
      ExactlyOnce(schedule[..|schedule| - 1], x);
      StepConserves(s, schedule[|schedule| - 1], x);
    }
  }

  /** In every schedule, the reference a thief's successful compare-exchange hands
      back is the oldest queued one, never a value from an overwritten slot. */
  lemma StealTakesOldest(schedule: seq<Action>, id: nat)
    ensures var s := Run(schedule);
            var h := ThiefAt(s, id);
            h.SlotRead? && h.t == s.top ==>
              Contents(s) != [] && h.ptr == Ptr(Contents(s)[0]) && Contents(StepThief(s, id)) == Contents(s)[1..]
  {
    RunShape(schedule);
    ThiefRefines(Run(schedule), id);
  }

  /** In every schedule, a pop that claims a reference claims the newest one. */
  lemma PopTakesNewest(schedule: seq<Action>)
    ensures var s := Run(schedule);
            s.owner.Popping? && PopClaims(s) != [] ==>
              && Contents(s) != []
              && PopClaims(s) == [Contents(s)[|Contents(s)| - 1]]
              && Contents(Step(s, OwnerStep)) == Contents(s)[..|Contents(s)| - 1]
  {
    RunShape(schedule);
    var s := Run(schedule);
    if s.owner.Popping? {
      PopRefines(s);
    }
  }

  /** The two places where pop gives up: the first emptiness test and the
      restoring store that follows a lost race. */
  ghost predicate PopGivesUp(s: State) {
    s.owner.Popping? && (s.owner.pop.Restore? || (s.owner.pop.Bottom? && s.owner.pop.b0 == s.top))
  }

  ghost predicate StealGivesUp(s: State, id: nat) {
    ThiefAt(s, id).TopRead? && ThiefAt(s, id).t >= s.bottom
  }

  /** In every schedule, a pop that ends without handing a task back ends on an empty
      deque, and the two places where pop gives up do end it so. */
  lemma PopEmptyIsTrue(schedule: seq<Action>)
    ensures var s, s' := Run(schedule), Step(Run(schedule), OwnerStep);
            && (s.owner.Popping? && s'.owner.Idle? && s'.returned == s.returned ==> Contents(s) == [])
            && (PopGivesUp(s) ==> s'.owner.Idle? && s'.returned == s.returned)
  {
    RunShape(schedule);
    hide Window, ThievesInv;
  }

  /** In every schedule, a steal that ends without a task after looking at bottom ends on an
      empty deque, or on one whose last element the owner is popping; one that goes back to
      its start after its compare-exchange does so because top has moved. */
  lemma StealEmptyIsTrue(schedule: seq<Action>, id: nat)
    ensures var s, s' := Run(schedule), Step(Run(schedule), ThiefStep(id));
            var h := ThiefAt(s, id);
            && (h.TopRead? && ThiefAt(s', id).Ready? ==>
                  Contents(s) == [] || (|Contents(s)| == 1 && Contesting(s.owner)))
            && (StealGivesUp(s, id) ==> ThiefAt(s', id).Ready? && s'.returned == s.returned)
            && (h.SlotRead? && s'.returned == s.returned ==> ThiefAt(s', id).Ready? && h.t < s.top)
  {
    RunShape(schedule);
    ThiefRefines(Run(schedule), id);
  }

  /** push panics exactly on a full deque. */
  lemma PanicExactlyWhenFull(schedule: seq<Action>)
    ensures var s := Run(schedule);
            s.owner.Pushing? && s.owner.push.Loaded? ==>
              (Step(s, OwnerStep).owner.push.Panicked? <==> |Contents(s)| == RQ_CAP)
  {
    RunShape(schedule);
  }

  // What len answers.

  lemma RunSnoc(schedule: seq<Action>, a: Action)
    ensures Run(schedule + [a]) == Step(Run(schedule), a)
  {
    assert (schedule + [a])[..|schedule|] == schedule;
  }

  /** No action of the list is a step of the reader. */
  predicate Undisturbed(mid: seq<Action>, id: nat) {
    forall k :: 0 <= k < |mid| ==> mid[k] != ReaderStep(id)
  }

  /** Other steps leave a reader where it is, and top never falls. */
  lemma {:induction false} BetweenLoads(schedule: seq<Action>, mid: seq<Action>, id: nat)
    requires Undisturbed(mid, id)
    ensures ReaderAt(Run(schedule + mid), id) == ReaderAt(Run(schedule), id)
    ensures Run(schedule).top <= Run(schedule + mid).top
  {
    if mid == [] {
      assert schedule + mid == schedule;
    } else {
      var before, a := mid[..|mid| - 1], mid[|mid| - 1];
      assert schedule + mid == (schedule + before) + [a];
      BetweenLoads(schedule, before, id);
      RunSnoc(schedule + before, a);
      RunShape(schedule + before);
      OneStepBetween(Run(schedule + before), a, id);
    }
  }

  lemma OneStepBetween(s: State, a: Action, id: nat)
    requires Shape(s) && a != ReaderStep(id)
    ensures ReaderAt(Step(s, a), id) == ReaderAt(s, id) && s.top <= Step(s, a).top
  {
  }

  /** The schedule in which the reader loads bottom after `first` and, after any
      steps of everyone else, loads top. */
  function LenCall(first: seq<Action>, mid: seq<Action>, id: nat): seq<Action> {
    first + [ReaderStep(id)] + mid + [ReaderStep(id)]
  }

  /** In every schedule, with any steps of everyone else between its two loads, `len`
      answers the length of the queue at its first load, less one if the owner was
      then contesting the last element, less what left the front in between; it
      wraps exactly when top has overtaken the bottom it read. */
  lemma LenAnswers(first: seq<Action>, mid: seq<Action>, id: nat)
    requires !ReaderAt(Run(first), id).BottomSeen? && Undisturbed(mid, id)
    ensures var s0, s1 := Run(first), Run(first + [ReaderStep(id)] + mid);
            var r := ReaderAt(Run(LenCall(first, mid, id)), id);
            var left := |Contents(s0)| - (if Contesting(s0.owner) then 1 else 0) - (s1.top - s0.top);
            && s0.top <= s1.top && left == s0.bottom - s1.top
            && r == Answered(if s1.top <= s0.bottom then left else left + WORD)
            && (s1.top <= s0.bottom ==> 0 <= r.len <= |Contents(s0)| <= RQ_CAP)
            && (s1.top < WORD ==> (s0.bottom < s1.top <==> r.len > s0.bottom))
  {
    RunShape(first);
    RunSnoc(first, ReaderStep(id));
    BetweenLoads(first + [ReaderStep(id)], mid, id);
    RunSnoc(first + [ReaderStep(id)] + mid, ReaderStep(id));
  }

  /** In every schedule, those with readers included, a step of a thief leaves the queue
      and its loot alone, or takes exactly the oldest queued task. So no steal depends
      on what a `len` answered, wrapped or not. */
  lemma StealAfterAnyLen(schedule: seq<Action>, id: nat)
    ensures var s, s' := Run(schedule), Run(schedule + [ThiefStep(id)]);
            || (s'.returned == s.returned && Contents(s') == Contents(s))
            || (Contents(s) != [] && s'.returned == s.returned + [Contents(s)[0]] && Contents(s') == Contents(s)[1..])
  {
    RunSnoc(schedule, ThiefStep(id));
    RunShape(schedule);
    ThiefRefines(Run(schedule), id);
  }

  /** The steps of one push that nobody disturbs. */
  function WholePush(x: TaskRef): seq<Action> {
    [CallPush(x), OwnerStep, OwnerStep, OwnerStep, OwnerStep]
  }

  /** The steps of one steal that nobody disturbs. */
  function WholeSteal(id: nat): seq<Action> {
    [ThiefStep(id), ThiefStep(id), ThiefStep(id), ThiefStep(id)]
  }

  lemma PushAlone(schedule: seq<Action>, x: TaskRef)
    requires Run(schedule).owner.Idle? && |Contents(Run(schedule))| < RQ_CAP
    ensures var s := Run(schedule);
            Run(schedule + WholePush(x)) ==
            s.(bottom := s.bottom + 1, buf := s.buf[s.bottom % RQ_CAP := Ptr(x)], pushed := s.pushed + [x])
  {
    RunShape(schedule);
    var c := schedule + [CallPush(x)];
    RunSnoc(schedule, CallPush(x));
    RunSnoc(c, OwnerStep);
    RunSnoc(c + [OwnerStep], OwnerStep);
    RunSnoc(c + [OwnerStep] + [OwnerStep], OwnerStep);
    RunSnoc(c + [OwnerStep] + [OwnerStep] + [OwnerStep], OwnerStep);
    assert schedule + WholePush(x) == c + [OwnerStep] + [OwnerStep] + [OwnerStep] + [OwnerStep];
  }

  /** The steps of one pop that nobody disturbs: two end it on an empty deque, five with
      the last task, eight with the only one. */
  function WholePop(n: nat): seq<Action> {
    [CallPop, OwnerStep, OwnerStep] +
    (if n == 0 then [] else if n == 1 then [OwnerStep, OwnerStep, OwnerStep, OwnerStep, OwnerStep]
     else [OwnerStep, OwnerStep, OwnerStep])
  }

  /** An undisturbed pop hands back the newest queued task, or nothing exactly when there is
      none. */
  lemma PopAlone(schedule: seq<Action>)
    requires Run(schedule).owner.Idle?
    ensures var s := Run(schedule);
            var s' := Run(schedule + WholePop(|Contents(s)|));
            && s'.owner.Idle? && s'.pushed == s.pushed
            && (Contents(s) == [] ==> s' == s)
            && (Contents(s) != [] ==>
                  s'.returned == s.returned + [Contents(s)[|Contents(s)| - 1]] &&
                  Contents(s') == Contents(s)[..|Contents(s)| - 1])
  {
    var s := Run(schedule);
    RunShape(schedule);
    PopStarts(schedule);
    var c := schedule + [CallPop] + [OwnerStep] + [OwnerStep];
    hide Run, Step, Window, ThievesInv;
    if Contents(s) == [] {
      assert schedule + WholePop(0) == c;
    } else if |Contents(s)| == 1 {
      assert schedule + WholePop(1) == c + [OwnerStep] + [OwnerStep] + [OwnerStep] + [OwnerStep] + [OwnerStep];
      PopLastOne(schedule, c);
    } else {
      assert schedule + WholePop(|Contents(s)|) == c + [OwnerStep] + [OwnerStep] + [OwnerStep];
      PopOneOfMany(schedule, c);
    }
  }

  lemma PopStarts(schedule: seq<Action>)
    requires Run(schedule).owner.Idle?
    ensures var s := Run(schedule);
            Run(schedule + [CallPop] + [OwnerStep] + [OwnerStep]) ==
            s.(owner := if s.bottom == s.top then Idle else Popping(NonEmpty(s.bottom)))
  {
    RunSnoc(schedule, CallPop);
    RunSnoc(schedule + [CallPop], OwnerStep);
    RunSnoc(schedule + [CallPop] + [OwnerStep], OwnerStep);
  }

  lemma PopOneOfMany(schedule: seq<Action>, c: seq<Action>)
    requires var s := Run(schedule);
             s.owner.Idle? && s.top + 1 < s.bottom && Run(c) == s.(owner := Popping(NonEmpty(s.bottom)))
    ensures var s, s' := Run(schedule), Run(c + [OwnerStep] + [OwnerStep] + [OwnerStep]);
            && s'.owner.Idle? && s'.pushed == s.pushed && Contents(s) != []
            && s'.returned == s.returned + [Contents(s)[|Contents(s)| - 1]]
            && Contents(s') == Contents(s)[..|Contents(s)| - 1]
  {
    var s := Run(schedule);
    RunShape(schedule);
    RunSnoc(c, OwnerStep);
    RunSnoc(c + [OwnerStep], OwnerStep);
    RunSnoc(c + [OwnerStep] + [OwnerStep], OwnerStep);
    WindowBack(s.buf, s.top, s.bottom - 1);
    assert s.buf[(s.bottom - 1) % RQ_CAP].Ptr?;
    hide Run, Window, ThievesInv, Shape, Step;
    TakeLast(Run(c));
  }

  lemma TakeLast(s: State)
    requires |s.buf| == RQ_CAP && s.owner == Popping(NonEmpty(s.bottom)) && s.top + 1 < s.bottom
    requires s.buf[(s.bottom - 1) % RQ_CAP].Ptr?
    ensures |Step(s, OwnerStep).buf| == RQ_CAP && |Step(Step(s, OwnerStep), OwnerStep).buf| == RQ_CAP
    ensures Step(Step(Step(s, OwnerStep), OwnerStep), OwnerStep) ==
            s.(bottom := s.bottom - 1, owner := Idle,
               returned := s.returned + [Value(s.buf[(s.bottom - 1) % RQ_CAP])])
  {
  }

  lemma PopLastOne(schedule: seq<Action>, c: seq<Action>)
    requires var s := Run(schedule);
             s.owner.Idle? && s.bottom == s.top + 1 && Run(c) == s.(owner := Popping(NonEmpty(s.bottom)))
    ensures var s, s' := Run(schedule), Run(c + [OwnerStep] + [OwnerStep] + [OwnerStep] + [OwnerStep] + [OwnerStep]);
            && s'.owner.Idle? && s'.pushed == s.pushed && Contents(s) != []
            && s'.returned == s.returned + [Contents(s)[|Contents(s)| - 1]]
            && Contents(s') == Contents(s)[..|Contents(s)| - 1]
  {
    var s := Run(schedule);
    RunShape(schedule);
    RunSnoc(c, OwnerStep);
    RunSnoc(c + [OwnerStep], OwnerStep);
    RunSnoc(c + [OwnerStep] + [OwnerStep], OwnerStep);
    RunSnoc(c + [OwnerStep] + [OwnerStep] + [OwnerStep], OwnerStep);
    RunSnoc(c + [OwnerStep] + [OwnerStep] + [OwnerStep] + [OwnerStep], OwnerStep);
    WindowBack(s.buf, s.top, s.bottom - 1);
    hide Run, Window, ThievesInv;
  }

  lemma StealAlone(schedule: seq<Action>, id: nat)
    requires ThiefAt(Run(schedule), id).Ready? && Run(schedule).owner.Idle? && Contents(Run(schedule)) != []
    ensures var s, s' := Run(schedule), Run(schedule + WholeSteal(id));
            s' == s.(top := s.top + 1, returned := s.returned + [Contents(s)[0]], thieves := s.thieves[id := Ready])
  {
    RunShape(schedule);
    var t := ThiefStep(id);
    RunSnoc(schedule, t);
    RunSnoc(schedule + [t], t);
    RunSnoc(schedule + [t] + [t], t);
    RunSnoc(schedule + [t] + [t] + [t], t);
    assert schedule + WholeSteal(id) == schedule + [t] + [t] + [t] + [t];
    var s := Run(schedule);
    assert s.thieves[id := TopRead(s.top)][id := BottomRead(s.top)] == s.thieves[id := BottomRead(s.top)];
    assert s.thieves[id := BottomRead(s.top)][id := SlotRead(s.top, s.buf[s.top % RQ_CAP])] ==
           s.thieves[id := SlotRead(s.top, s.buf[s.top % RQ_CAP])];
    assert s.thieves[id := SlotRead(s.top, s.buf[s.top % RQ_CAP])][id := Ready] == s.thieves[id := Ready];
  }

  /** With one task queued, it is stolen, and another is pushed and stolen too. */
  lemma TwoSteals(schedule: seq<Action>, y: TaskRef)
    requires var s := Run(schedule);
             s.owner.Idle? && s.bottom == s.top + 1 && ThiefAt(s, 0).Ready?
    ensures var s' := Run(schedule + (WholeSteal(0) + WholePush(y) + WholeSteal(0)));
            s'.owner.Idle? && s'.top == Run(schedule).top + 2
  {
    hide Run, Step, Window, WholePush, WholeSteal;
    StealAlone(schedule, 0);
    PushAlone(schedule + WholeSteal(0), y);
    StealAlone(schedule + WholeSteal(0) + WholePush(y), 0);
    assert schedule + (WholeSteal(0) + WholePush(y) + WholeSteal(0)) ==
           schedule + WholeSteal(0) + WholePush(y) + WholeSteal(0);
  }

  /** One task pushed, and a reader that has loaded bottom. */
  lemma PushedAndSeen(x: TaskRef)
    ensures var s, s' := Run(WholePush(x)), Run(WholePush(x) + [ReaderStep(0)]);
            && s.owner.Idle? && s.top == 0 && s.bottom == 1 && s.readers == map[]
            && s'.owner.Idle? && s'.top == 0 && s'.bottom == 1 && s'.thieves == map[]
  {
    PushAlone([], x);
    assert [] + WholePush(x) == WholePush(x);
    RunSnoc(WholePush(x), ReaderStep(0));
  }

  /** The wrap needs no pop: with one task queued, a reader loads bottom; that task is
      stolen, another is pushed and stolen too; then the reader loads top. */
  lemma LenWrapsWithoutPop(x: TaskRef, y: TaskRef)
    ensures var first, mid := WholePush(x), WholeSteal(0) + WholePush(y) + WholeSteal(0);
            && Run(first).owner.Idle? && Run(first + [ReaderStep(0)] + mid).owner.Idle?
            && ReaderAt(Run(LenCall(first, mid, 0)), 0) == Answered(WORD - 1)
  {
    var first, mid := WholePush(x), WholeSteal(0) + WholePush(y) + WholeSteal(0);
    assert Undisturbed(mid, 0);
    hide Run, Step, Window, WholePush, WholeSteal, Undisturbed, LenCall, Contents, Shape;
    PushedAndSeen(x);
    TwoSteals(first + [ReaderStep(0)], y);
    LenAnswers(first, mid, 0);
  }
}
