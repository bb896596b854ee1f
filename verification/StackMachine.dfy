/** push, pop and set_wait of shared_stack/stack.c as a transition system: any number of
    processes, each with a program counter, share the slot array and four semaphores.
    Every semop, every semaphore read and every slot access is one atomic step. */
module StackMachine {
  import opened StackSpec

  /** Where a process stands: the constructor names the next action it performs.
      Arguments are the process's own data: the value carried and a slot index already read. */
  datatype Pc =
    | Idle
    | Done(r: Response)
      // push, default path
    | PushLock(v: Val)
    | PushCheck(v: Val)
    | PushFail
    | PushIndex(v: Val)
    | PushStore(v: Val, i: nat)
    | PushCount(v: Val)
    | PushTake
    | PushUnlock
      // push, wait_val == 0 and the stack was full
    | PushWaitUnlock(v: Val)
    | PushWaitTake(v: Val)
    | PushWaitLock(v: Val)
    | PushWaitIndex(v: Val)
    | PushWaitStore(v: Val, i: nat)
    | PushWaitCount
      // push, wait_val == 1 and the stack was full
    | PushTimedUnlock(v: Val)
    | PushTimedLock(v: Val)
    | PushTimedCheck(v: Val)
    | PushTimedRelock(v: Val)
    | PushTimedIndex(v: Val)
    | PushTimedStore(v: Val, i: nat)
    | PushTimedTake
    | PushTimedCount
      // pop, default path; from PopFree on all three paths run the same code
    | PopLock
    | PopCheck
    | PopFail
    | PopTake
    | PopFree
    | PopReadIndex
    | PopRead(i: nat)
    | PopPoisonIndex(v: Val)
    | PopPoison(v: Val, i: nat)
    | PopUnlock(v: Val)
      // pop, wait_val == 0 and the stack was empty
    | PopWaitUnlock
    | PopWaitTake
    | PopWaitLock
      // pop, wait_val == 1 and the stack was empty
    | PopTimedUnlock
    | PopTimedLock
    | PopTimedCheck
    | PopTimedRelock
    | PopTimedTake
      // set_wait with a valid mode
    | SetWaitLock(mode: WaitMode)
    | SetWaitWrite(mode: WaitMode)
    | SetWaitUnlock

  predicate InPush(pc: Pc) {
    || pc.PushLock? || pc.PushCheck? || pc.PushFail? || pc.PushIndex? || pc.PushStore? || pc.PushCount?
    || pc.PushTake? || pc.PushUnlock?
    || pc.PushWaitUnlock? || pc.PushWaitTake? || pc.PushWaitLock? || pc.PushWaitIndex? || pc.PushWaitStore?
    || pc.PushWaitCount?
    || pc.PushTimedUnlock? || pc.PushTimedLock? || pc.PushTimedCheck? || pc.PushTimedRelock? || pc.PushTimedIndex?
    || pc.PushTimedStore? || pc.PushTimedTake? || pc.PushTimedCount?
  }

  /** stack_t is private to its process, so wait_val is too. */
  datatype Proc = Proc(wait: WaitMode, pc: Pc)

  datatype World = World(lock: nat, count: nat, empty: nat, size: nat, slots: seq<Val>, procs: seq<Proc>)

  /** A fresh stack: sem 0 is 1, sem 1 is 0, sem 2 and sem 3 hold the size, every slot is poisoned. */
  function Init(size: nat): World {
    World(1, 0, size, size, seq(size, _ => POISON), [])
  }

  datatype Outcome = Stepped(w: World) | Blocked | Fault

  function Goto(w: World, p: nat, pc: Pc): World
    requires p < |w.procs|
  {
    w.(procs := w.procs[p := w.procs[p].(pc := pc)])
  }

  /** semop(-1) on sem 0: blocks at zero. */
  function Acquire(w: World, p: nat, pc: Pc): Outcome
    requires p < |w.procs|
  {
    if w.lock == 0 then Blocked else Stepped(Goto(w, p, pc).(lock := w.lock - 1))
  }

  function Release(w: World, p: nat, pc: Pc): Outcome
    requires p < |w.procs|
  {
    Stepped(Goto(w, p, pc).(lock := w.lock + 1))
  }

  function TakeCount(w: World, p: nat, pc: Pc): Outcome
    requires p < |w.procs|
  {
    if w.count == 0 then Blocked else Stepped(Goto(w, p, pc).(count := w.count - 1))
  }

  function AddCount(w: World, p: nat, pc: Pc): Outcome
    requires p < |w.procs|
  {
    Stepped(Goto(w, p, pc).(count := w.count + 1))
  }

  function TakeEmpty(w: World, p: nat, pc: Pc): Outcome
    requires p < |w.procs|
  {
    if w.empty == 0 then Blocked else Stepped(Goto(w, p, pc).(empty := w.empty - 1))
  }

  function AddEmpty(w: World, p: nat, pc: Pc): Outcome
    requires p < |w.procs|
  {
    Stepped(Goto(w, p, pc).(empty := w.empty + 1))
  }

  /** A store outside the shared segment is a fault. */
  function Store(w: World, p: nat, i: nat, v: Val, pc: Pc): Outcome
    requires p < |w.procs|
  {
    if i < |w.slots| then Stepped(Goto(w, p, pc).(slots := w.slots[i := v])) else Fault
  }

  function PushFull(w: World, p: nat, v: Val): Pc
    requires p < |w.procs|
  {
    match w.procs[p].wait
    case NoWait => PushFail
    case Forever => PushWaitUnlock(v)
    case Timed => PushTimedUnlock(v)
  }

  function PopEmpty(w: World, p: nat): Pc
    requires p < |w.procs|
  {
    match w.procs[p].wait
    case NoWait => PopFail
    case Forever => PopWaitUnlock
    case Timed => PopTimedUnlock
  }

  /** The next action of a process inside push. */
  function PushStep(w: World, p: nat): Outcome
    requires p < |w.procs|
  {
    match w.procs[p].pc
    case PushLock(v) => Acquire(w, p, PushCheck(v))
    case PushCheck(v) => Stepped(Goto(w, p, if w.empty == 0 then PushFull(w, p, v) else PushIndex(v)))
    case PushFail => Release(w, p, Done(Failed))
    case PushIndex(v) => Stepped(Goto(w, p, PushStore(v, w.count)))
    case PushStore(v, i) => Store(w, p, i, v, PushCount(v))
    case PushCount(_) => AddCount(w, p, PushTake)
    case PushTake => TakeEmpty(w, p, PushUnlock)
    case PushUnlock => Release(w, p, Done(Pushed))
      // the stack was full: wait for a free slot (:206-229) or for the timeout (:232-267)
    case PushWaitUnlock(v) => Release(w, p, PushWaitTake(v))
    case PushWaitTake(v) => TakeEmpty(w, p, PushWaitLock(v))
    case PushWaitLock(v) => Acquire(w, p, PushWaitIndex(v))
    case PushWaitIndex(v) => Stepped(Goto(w, p, PushWaitStore(v, w.count)))
    case PushWaitStore(v, i) => Store(w, p, i, v, PushWaitCount)
    case PushWaitCount => AddCount(w, p, PushUnlock)
    case PushTimedUnlock(v) => Release(w, p, PushTimedLock(v))
    case PushTimedLock(v) => Acquire(w, p, PushTimedCheck(v))
    case PushTimedCheck(v) => Stepped(Goto(w, p, if w.empty == 0 then PushFail else PushTimedRelock(v)))
    case PushTimedRelock(v) => Acquire(w, p, PushTimedIndex(v))
    case PushTimedIndex(v) => Stepped(Goto(w, p, PushTimedStore(v, w.count)))
    case PushTimedStore(v, i) => Store(w, p, i, v, PushTimedTake)
    case PushTimedTake => TakeEmpty(w, p, PushTimedCount)
    case PushTimedCount => AddCount(w, p, PushUnlock)
    case _ => Blocked
  }

  /** The next action of a process inside pop. */
  function PopStep(w: World, p: nat): Outcome
    requires p < |w.procs|
  {
    match w.procs[p].pc
    case PopLock => Acquire(w, p, PopCheck)
    case PopCheck => Stepped(Goto(w, p, if w.count == 0 then PopEmpty(w, p) else PopTake))
    case PopFail => Release(w, p, Done(Failed))
    case PopTake => TakeCount(w, p, PopFree)
    case PopFree => AddEmpty(w, p, PopReadIndex)
    case PopReadIndex => Stepped(Goto(w, p, PopRead(w.count)))
    case PopRead(i) => if i < |w.slots| then Stepped(Goto(w, p, PopPoisonIndex(w.slots[i]))) else Fault
    case PopPoisonIndex(v) => Stepped(Goto(w, p, PopPoison(v, w.count)))
    case PopPoison(v, i) => Store(w, p, i, POISON, PopUnlock(v))
    case PopUnlock(v) => Release(w, p, Done(Popped(v)))
      // the stack was empty: wait for a value (:313-337) or for the timeout (:340-376)
    case PopWaitUnlock => Release(w, p, PopWaitTake)
    case PopWaitTake => TakeCount(w, p, PopWaitLock)
    case PopWaitLock => Acquire(w, p, PopFree)
    case PopTimedUnlock => Release(w, p, PopTimedLock)
    case PopTimedLock => Acquire(w, p, PopTimedCheck)
    case PopTimedCheck => Stepped(Goto(w, p, if w.count == 0 then PopFail else PopTimedRelock))
    case PopTimedRelock => Acquire(w, p, PopTimedTake)
    case PopTimedTake => TakeCount(w, p, PopFree)
    case _ => Blocked
  }

  /** The next action of process p; there is none between operations. */
  function Step(w: World, p: nat): Outcome
    requires p < |w.procs|
  {
    match w.procs[p].pc
    case Idle => Blocked
    case Done(_) => Blocked
    case SetWaitLock(m) => Acquire(w, p, SetWaitWrite(m))
    case SetWaitWrite(m) => Stepped(w.(procs := w.procs[p := Proc(m, SetWaitUnlock)]))
    case SetWaitUnlock => Release(w, p, Done(WaitSet))
    case _ => if InPush(w.procs[p].pc) then PushStep(w, p) else PopStep(w, p)
  }

  function Entry(op: Op): Pc {
    match op
    case Push(v) => PushLock(v)
    case Pop => PopLock
    case SetWait(m) => SetWaitLock(m)
  }

  /** Call and Return are what the callers of push, pop and set_wait see. */
  datatype Label = Attach | Call(p: nat, op: Op) | Internal(p: nat) | Return(p: nat, r: Response)

  ghost predicate Next(w: World, l: Label, w': World) {
    match l
    case Attach => w' == w.(procs := w.procs + [Proc(NoWait, Idle)])
    case Call(p, op) => p < |w.procs| && w.procs[p].pc == Idle && w' == Goto(w, p, Entry(op))
    case Internal(p) => p < |w.procs| && Step(w, p) == Stepped(w')
    case Return(p, r) => p < |w.procs| && w.procs[p].pc == Done(r) && w' == Goto(w, p, Idle)
  }

  ghost predicate StepAt(ws: seq<World>, ls: seq<Label>, k: nat)
    requires k < |ls| && |ws| == |ls| + 1
  {
    Next(ws[k], ls[k], ws[k + 1])
  }

  /** A run: worlds ws[0], ws[1], ... joined by the labelled steps ls, from a fresh stack. */
  ghost predicate IsRun(size: nat, ws: seq<World>, ls: seq<Label>) {
    && |ws| == |ls| + 1
    && ws[0] == Init(size)
    && forall k :: 0 <= k < |ls| ==> StepAt(ws, ls, k)
  }
}
