/** When nobody sets wait_val to 0, the interleaved semaphore steps of any number of processes, in
    the default and the timed mode, refine an atomic bounded LIFO stack: each operation takes effect at
    one instant between its call and its return, with the response a sequential stack would give. */
module StackLinearizability {
  import opened Options
  import opened StackSpec
  import opened StackMachine
  import opened StackSafety

  // --- The atomic stack ---

  /** A client of the atomic stack: idle, called and not yet served, or served and not yet back. */
  datatype Client = Resting | Pending(op: Op) | Served(r: Response)

  datatype Atomic = Atomic(stack: seq<Val>, clients: seq<Client>)

  function Serve(size: nat, a: Atomic, p: nat): Atomic
    requires p < |a.clients| && a.clients[p].Pending?
  {
    var (s, r) := Apply(size, a.stack, a.clients[p].op);
    Atomic(s, a.clients[p := Served(r)])
  }

  ghost predicate AtomicNext(size: nat, a: Atomic, l: Label, a': Atomic) {
    match l
    case Attach => a' == a.(clients := a.clients + [Resting])
    case Call(p, op) => p < |a.clients| && a.clients[p] == Resting && a' == a.(clients := a.clients[p := Pending(op)])
    case Internal(p) => a' == a || (p < |a.clients| && a.clients[p].Pending? && a' == Serve(size, a, p))
    case Return(p, r) => p < |a.clients| && a.clients[p] == Served(r) && a' == a.(clients := a.clients[p := Resting])
  }

  // --- What the shared state stands for ---

  function SlotAt(w: World, i: nat): Val {
    if i < |w.slots| then w.slots[i] else POISON
  }

  /** A push takes effect when sem 1 is raised, a pop when sem 1 is lowered, a failure at the last check. */
  function ClientAt(w: World, pc: Pc): Client {
    match pc
    case Idle => Resting
    case Done(r) => Served(r)
    case PushLock(v) => Pending(Push(v))
    case PushCheck(v) => Pending(Push(v))
    case PushIndex(v) => Pending(Push(v))
    case PushStore(v, _) => Pending(Push(v))
    case PushCount(v) => Pending(Push(v))
    case PushTake => Served(Pushed)
    case PushUnlock => Served(Pushed)
    case PushFail => Served(Failed)
    case PopLock => Pending(Pop)
    case PopCheck => Pending(Pop)
    case PopTake => Pending(Pop)
    case PopFree => Served(Popped(SlotAt(w, w.count)))
    case PopReadIndex => Served(Popped(SlotAt(w, w.count)))
    case PopRead(i) => Served(Popped(SlotAt(w, i)))
    case PopPoisonIndex(v) => Served(Popped(v))
    case PopPoison(v, _) => Served(Popped(v))
    case PopUnlock(v) => Served(Popped(v))
    case PopFail => Served(Failed)
    case SetWaitLock(m) => Pending(SetWait(m))
    case SetWaitWrite(m) => Pending(SetWait(m))
    case SetWaitUnlock => Served(WaitSet)
    case PushTimedUnlock(v) => Pending(Push(v))
    case PushTimedLock(v) => Pending(Push(v))
    case PushTimedCheck(v) => Pending(Push(v))
    case PushTimedRelock(v) => Pending(Push(v))
    case PopTimedUnlock => Pending(Pop)
    case PopTimedLock => Pending(Pop)
    case PopTimedCheck => Pending(Pop)
    case PopTimedRelock => Pending(Pop)
    case _ => Resting   // the paths for wait_val == 0, and those behind a second acquisition
  }

  function Content(w: World): seq<Val> {
    if w.count <= |w.slots| then w.slots[..w.count] else w.slots
  }

  function Abstract(w: World): Atomic {
    Atomic(Content(w), seq(|w.procs|, p requires 0 <= p < |w.procs| => ClientAt(w, w.procs[p].pc)))
  }

  // --- The invariant while no wait_val is 0 ---

  predicate OrderedPc(pc: Pc) {
    match pc
    case SetWaitLock(m) => m != Forever
    case SetWaitWrite(m) => m != Forever
    case PushWaitUnlock(_) | PushWaitTake(_) | PushWaitLock(_) => false
    case PushWaitIndex(_) | PushWaitStore(_, _) | PushWaitCount => false
    case PushTimedIndex(_) | PushTimedStore(_, _) | PushTimedTake | PushTimedCount => false
    case PopWaitUnlock | PopWaitTake | PopWaitLock => false
    case PopTimedTake => false
    case _ => true
  }

  ghost predicate PoisonedFrom(w: World, n: nat) {
    forall i :: n <= i < |w.slots| ==> w.slots[i] == POISON
  }

  /** Used and free slots add up, and every unused slot is poisoned. */
  ghost predicate AtRest(w: World) {
    w.count + w.empty == w.size == |w.slots| && PoisonedFrom(w, w.count)
  }

  /** What the lock holder finds at each point of its critical section. */
  ghost predicate HolderOk(w: World, pc: Pc) {
    && |w.slots| == w.size
    && match pc
       case PushIndex(_) => AtRest(w) && w.empty > 0
       case PushStore(_, i) => AtRest(w) && w.empty > 0 && i == w.count
       case PushCount(v) =>
         w.count + w.empty == w.size && w.empty > 0 && w.slots[w.count] == v && PoisonedFrom(w, w.count + 1)
       case PushTake => w.count + w.empty == w.size + 1 && w.empty > 0 && PoisonedFrom(w, w.count)
       case PopTake => AtRest(w) && w.count > 0
       case PopFree => w.count + w.empty + 1 == w.size && PoisonedFrom(w, w.count + 1)
       case PopReadIndex => w.count + w.empty == w.size && w.empty > 0 && PoisonedFrom(w, w.count + 1)
       case PopRead(i) => w.count + w.empty == w.size && w.empty > 0 && PoisonedFrom(w, w.count + 1) && i == w.count
       case PopPoisonIndex(_) => w.count + w.empty == w.size && w.empty > 0 && PoisonedFrom(w, w.count + 1)
       case PopPoison(_, i) =>
         w.count + w.empty == w.size && w.empty > 0 && PoisonedFrom(w, w.count + 1) && i == w.count
       case _ => AtRest(w)
  }

  ghost predicate OrderedInv(w: World) {
    && Inv(w)
    && (forall q :: 0 <= q < |w.procs| ==> w.procs[q].wait != Forever && OrderedPc(w.procs[q].pc))
    && (forall q :: 0 <= q < |w.procs| && Holds(w.procs[q]) == 1 ==> HolderOk(w, w.procs[q].pc))
    && (w.lock == 1 ==> AtRest(w))
  }

  /** Nobody asks to wait without a limit. */
  predicate OrderedLabel(l: Label) {
    !(l.Call? && l.op == SetWait(Forever))
  }

  /** At the second acquisition of sem 0, where its holder is stuck. */
  predicate AtRelock(pc: Pc) {
    pc.PushTimedRelock? || pc.PopTimedRelock?
  }

  lemma LockFreeMeansNoHolder(w: World)
    requires Inv(w)
    ensures w.lock <= 1
    ensures w.lock == 1 ==> forall q :: 0 <= q < |w.procs| ==> Holds(w.procs[q]) == 0
  {
    SumNonNegative(w.procs, Holds);
  }

  lemma HolderExcludes(w: World, p: nat)
    requires Inv(w) && p < |w.procs| && Holds(w.procs[p]) == 1
    ensures w.lock == 0
    ensures forall q :: 0 <= q < |w.procs| && q != p ==> Holds(w.procs[q]) == 0
  {
    SumNonNegative(w.procs, Holds);
    HolderIsAlone(w.procs, p);
  }

  /** Outside the critical section a process neither sees nor touches the shared state. */
  lemma OutsideSteps(w: World, p: nat)
    requires OrderedInv(w) && p < |w.procs| && Holds(w.procs[p]) == 0 && Step(w, p).Stepped?
    ensures w.lock == 1
    ensures var w' := Step(w, p).w;
            && w' == Goto(w, p, w'.procs[p].pc).(lock := 0)
            && Holds(w'.procs[p]) == 1 && OrderedPc(w'.procs[p].pc) && HolderOk(w', w'.procs[p].pc)
            && ClientAt(w', w'.procs[p].pc) == ClientAt(w, w.procs[p].pc)
  {
    LockFreeMeansNoHolder(w);
    assert OrderedPc(w.procs[p].pc);
  }

  /** A step inside the critical section: it leaves what the next point
      relies on, and it either changes nothing abstractly or serves the client. */
  ghost predicate InsideOk(w: World, p: nat, w': World)
    requires p < |w.procs| && p < |w'.procs|
  {
    var c := ClientAt(w, w.procs[p].pc);
    var c' := ClientAt(w', w'.procs[p].pc);
    && OrderedPc(w'.procs[p].pc) && w'.procs[p].wait != Forever
    && (if Holds(w'.procs[p]) == 1 then HolderOk(w', w'.procs[p].pc) else AtRest(w'))
    && ((c == c' && Content(w) == Content(w'))
        || (c.Pending? && var (s, r) := Apply(w.size, Content(w), c.op); Content(w') == s && c' == Served(r)))
  }

  lemma PushStoresInside(w: World, p: nat)
    requires p < |w.procs| && w.procs[p].wait != Forever && HolderOk(w, w.procs[p].pc)
    requires w.procs[p].pc.PushIndex? || w.procs[p].pc.PushStore?
    ensures PushStep(w, p).Stepped? && |PushStep(w, p).w.procs| == |w.procs|
    ensures InsideOk(w, p, PushStep(w, p).w)
  {
    if w.procs[p].pc.PushStore? {
      assert Content(PushStep(w, p).w) == Content(w);
    }
  }

  lemma PushCountInside(w: World, p: nat)
    requires p < |w.procs| && w.procs[p].wait != Forever && HolderOk(w, w.procs[p].pc)
    requires w.procs[p].pc.PushCount?
    ensures PushStep(w, p).Stepped? && |PushStep(w, p).w.procs| == |w.procs|
    ensures InsideOk(w, p, PushStep(w, p).w)
  {
    assert Content(PushStep(w, p).w) == Content(w) + [w.procs[p].pc.v];
  }

  lemma PushUnlocksInside(w: World, p: nat)
    requires p < |w.procs| && w.procs[p].wait != Forever && HolderOk(w, w.procs[p].pc)
    requires w.procs[p].pc.PushTake? || w.procs[p].pc.PushUnlock? || w.procs[p].pc.PushFail?
    ensures PushStep(w, p).Stepped? && |PushStep(w, p).w.procs| == |w.procs|
    ensures InsideOk(w, p, PushStep(w, p).w)
  {
  }

  lemma PushChecksInside(w: World, p: nat)
    requires p < |w.procs| && w.procs[p].wait != Forever && HolderOk(w, w.procs[p].pc)
    requires w.procs[p].pc.PushCheck? || w.procs[p].pc.PushTimedCheck?
    ensures PushStep(w, p).Stepped? && |PushStep(w, p).w.procs| == |w.procs|
    ensures InsideOk(w, p, PushStep(w, p).w)
  {
  }

  lemma PushTimedInside(w: World, p: nat)
    requires p < |w.procs| && w.procs[p].wait != Forever && HolderOk(w, w.procs[p].pc)
    requires w.procs[p].pc.PushTimedUnlock?
    ensures PushStep(w, p).Stepped? && |PushStep(w, p).w.procs| == |w.procs|
    ensures InsideOk(w, p, PushStep(w, p).w)
  {
  }

  lemma PopTakeInside(w: World, p: nat)
    requires p < |w.procs| && w.procs[p].wait != Forever && HolderOk(w, w.procs[p].pc)
    requires w.procs[p].pc.PopTake?
    ensures PopStep(w, p).Stepped? && |PopStep(w, p).w.procs| == |w.procs|
    ensures InsideOk(w, p, PopStep(w, p).w)
  {
    assert Content(PopStep(w, p).w) == Content(w)[..|Content(w)| - 1];
  }

  lemma PopFreeInside(w: World, p: nat)
    requires p < |w.procs| && w.procs[p].wait != Forever && HolderOk(w, w.procs[p].pc)
    requires w.procs[p].pc.PopFree?
    ensures PopStep(w, p).Stepped? && |PopStep(w, p).w.procs| == |w.procs|
    ensures InsideOk(w, p, PopStep(w, p).w)
  {
  }

  lemma PopReadsInside(w: World, p: nat)
    requires p < |w.procs| && w.procs[p].wait != Forever && HolderOk(w, w.procs[p].pc)
    requires w.procs[p].pc.PopReadIndex? || w.procs[p].pc.PopRead?
    ensures PopStep(w, p).Stepped? && |PopStep(w, p).w.procs| == |w.procs|
    ensures InsideOk(w, p, PopStep(w, p).w)
  {
  }

  lemma PopPoisonsInside(w: World, p: nat)
    requires p < |w.procs| && w.procs[p].wait != Forever && HolderOk(w, w.procs[p].pc)
    requires w.procs[p].pc.PopPoisonIndex? || w.procs[p].pc.PopPoison?
    ensures PopStep(w, p).Stepped? && |PopStep(w, p).w.procs| == |w.procs|
    ensures InsideOk(w, p, PopStep(w, p).w)
  {
    if w.procs[p].pc.PopPoison? {
      assert Content(PopStep(w, p).w) == Content(w);
    }
  }

  lemma PopUnlocksInside(w: World, p: nat)
    requires p < |w.procs| && w.procs[p].wait != Forever && HolderOk(w, w.procs[p].pc)
    requires w.procs[p].pc.PopUnlock? || w.procs[p].pc.PopFail?
    ensures PopStep(w, p).Stepped? && |PopStep(w, p).w.procs| == |w.procs|
    ensures InsideOk(w, p, PopStep(w, p).w)
  {
  }

  lemma PopChecksInside(w: World, p: nat)
    requires p < |w.procs| && w.procs[p].wait != Forever && HolderOk(w, w.procs[p].pc)
    requires w.procs[p].pc.PopCheck? || w.procs[p].pc.PopTimedCheck?
    ensures PopStep(w, p).Stepped? && |PopStep(w, p).w.procs| == |w.procs|
    ensures InsideOk(w, p, PopStep(w, p).w)
  {
  }

  lemma PopTimedInside(w: World, p: nat)
    requires p < |w.procs| && w.procs[p].wait != Forever && HolderOk(w, w.procs[p].pc)
    requires w.procs[p].pc.PopTimedUnlock?
    ensures PopStep(w, p).Stepped? && |PopStep(w, p).w.procs| == |w.procs|
    ensures InsideOk(w, p, PopStep(w, p).w)
  {
  }

  lemma PushInside(w: World, p: nat)
    requires p < |w.procs| && w.procs[p].wait != Forever && HolderOk(w, w.procs[p].pc)
    requires InPush(w.procs[p].pc) && Holds(w.procs[p]) == 1
    requires OrderedPc(w.procs[p].pc) && !AtRelock(w.procs[p].pc)
    ensures PushStep(w, p).Stepped? && |PushStep(w, p).w.procs| == |w.procs|
    ensures InsideOk(w, p, PushStep(w, p).w)
  {
    hide PushStep;
    hide InsideOk;
    hide HolderOk;
    match w.procs[p].pc
    case PushIndex(_) | PushStore(_, _) => PushStoresInside(w, p);
    case PushCount(_) => PushCountInside(w, p);
    case PushTake | PushUnlock | PushFail => PushUnlocksInside(w, p);
    case PushCheck(_) | PushTimedCheck(_) => PushChecksInside(w, p);
    case PushTimedUnlock(_) => PushTimedInside(w, p);
  }

  lemma PopInside(w: World, p: nat)
    requires p < |w.procs| && w.procs[p].wait != Forever && HolderOk(w, w.procs[p].pc)
    requires !InPush(w.procs[p].pc) && !w.procs[p].pc.SetWaitWrite? && !w.procs[p].pc.SetWaitUnlock?
    requires Holds(w.procs[p]) == 1 && OrderedPc(w.procs[p].pc) && !AtRelock(w.procs[p].pc)
    ensures PopStep(w, p).Stepped? && |PopStep(w, p).w.procs| == |w.procs|
    ensures InsideOk(w, p, PopStep(w, p).w)
  {
    hide PopStep;
    hide InsideOk;
    hide HolderOk;
    match w.procs[p].pc
    case PopTake => PopTakeInside(w, p);
    case PopFree => PopFreeInside(w, p);
    case PopReadIndex | PopRead(_) => PopReadsInside(w, p);
    case PopPoisonIndex(_) | PopPoison(_, _) => PopPoisonsInside(w, p);
    case PopUnlock(_) | PopFail => PopUnlocksInside(w, p);
    case PopCheck | PopTimedCheck => PopChecksInside(w, p);
    case PopTimedUnlock => PopTimedInside(w, p);
  }

  lemma Inside(w: World, p: nat)
    requires OrderedInv(w) && p < |w.procs| && Holds(w.procs[p]) == 1 && !AtRelock(w.procs[p].pc)
    ensures Step(w, p).Stepped? && |Step(w, p).w.procs| == |w.procs|
    ensures InsideOk(w, p, Step(w, p).w)
  {
    hide PushStep;
    hide PopStep;
    hide InsideOk;
    hide HolderOk;
    hide Inv;
    assert OrderedPc(w.procs[p].pc) && HolderOk(w, w.procs[p].pc);
    if InPush(w.procs[p].pc) {
      PushInside(w, p);
    } else if w.procs[p].pc.SetWaitWrite? || w.procs[p].pc.SetWaitUnlock? {
      SetWaitInside(w, p);
    } else {
      PopInside(w, p);
    }
  }

  lemma SetWaitInside(w: World, p: nat)
    requires p < |w.procs| && w.procs[p].wait != Forever && HolderOk(w, w.procs[p].pc) && OrderedPc(w.procs[p].pc)
    requires w.procs[p].pc.SetWaitWrite? || w.procs[p].pc.SetWaitUnlock?
    ensures Step(w, p).Stepped? && |Step(w, p).w.procs| == |w.procs|
    ensures InsideOk(w, p, Step(w, p).w)
  {
  }

  /** One step of the program is one step, or none, of the atomic stack, under the same label. */
  lemma StepRefines(w: World, l: Label, w': World)
    requires OrderedInv(w) && Next(w, l, w') && OrderedLabel(l)
    ensures OrderedInv(w')
    ensures AtomicNext(w.size, Abstract(w), l, Abstract(w'))
  {
    hide Step;
    NextKeepsInv(w, l, w');
    if l.Internal? {
      InternalRefines(w, l.p);
    } else if l.Attach? {
      AttachRefines(w);
    } else {
      var pc := if l.Call? then Entry(l.op) else Idle;
      GotoOutside(w, l.p, pc);
    }
  }

  lemma AttachRefines(w: World)
    requires OrderedInv(w)
    requires Inv(w.(procs := w.procs + [Proc(NoWait, Idle)]))
    ensures var w' := w.(procs := w.procs + [Proc(NoWait, Idle)]);
            OrderedInv(w') && Abstract(w') == Abstract(w).(clients := Abstract(w).clients + [Resting])
  {
    var w' := w.(procs := w.procs + [Proc(NoWait, Idle)]);
    hide Inv;
    assert Abstract(w').clients == Abstract(w).clients + [Resting];
  }

  /** Entering and leaving an operation happens outside the critical section. */
  lemma GotoOutside(w: World, p: nat, pc: Pc)
    requires OrderedInv(w) && p < |w.procs| && Holds(w.procs[p]) == 0
    requires OrderedPc(pc) && Holds(Proc(NoWait, pc)) == 0 && Inv(Goto(w, p, pc))
    ensures OrderedInv(Goto(w, p, pc))
    ensures Abstract(Goto(w, p, pc)) == Abstract(w).(clients := Abstract(w).clients[p := ClientAt(w, pc)])
  {
    var w' := Goto(w, p, pc);
    forall q | 0 <= q < |w.procs|
      ensures ClientAt(w', w.procs[q].pc) == ClientAt(w, w.procs[q].pc)
      ensures ClientAt(w', pc) == ClientAt(w, pc)
    {
    }
    assert Abstract(w').clients == Abstract(w).clients[p := ClientAt(w, pc)];
    forall q | 0 <= q < |w.procs| && Holds(w'.procs[q]) == 1
      ensures HolderOk(w', w'.procs[q].pc)
    {
      assert q != p && HolderOk(w, w.procs[q].pc);
    }
  }

  lemma StuckAtRelock(w: World, p: nat)
    requires p < |w.procs| && w.lock == 0 && AtRelock(w.procs[p].pc)
    ensures Step(w, p) == Blocked
  {
  }

  lemma InternalRefines(w: World, p: nat)
    requires OrderedInv(w) && p < |w.procs| && Step(w, p).Stepped? && Inv(Step(w, p).w)
    ensures OrderedInv(Step(w, p).w)
    ensures AtomicNext(w.size, Abstract(w), Internal(p), Abstract(Step(w, p).w))
  {
    hide PushStep;
    hide PopStep;
    var w' := Step(w, p).w;
    if Holds(w.procs[p]) == 1 {
      HolderExcludes(w, p);
      if AtRelock(w.procs[p].pc) {
        StuckAtRelock(w, p);
      }
      Inside(w, p);
    } else {
      OutsideSteps(w, p);
      LockFreeMeansNoHolder(w);
    }
    StepMoves(w, p);
    assert forall q :: 0 <= q < |w.procs| && q != p ==> w'.procs[q] == w.procs[q];
    forall q | 0 <= q < |w.procs| && q != p
      ensures ClientAt(w', w'.procs[q].pc) == ClientAt(w, w.procs[q].pc)
    {
      assert Holds(w.procs[q]) == 0;
    }
    var c' := ClientAt(w', w'.procs[p].pc);
    assert Abstract(w').clients == Abstract(w).clients[p := c'];
    if c' == ClientAt(w, w.procs[p].pc) {
      assert Abstract(w').clients == Abstract(w).clients;
    }
  }

  // --- Whole runs ---

  ghost predicate IsOrderedRun(size: nat, ws: seq<World>, ls: seq<Label>) {
    IsRun(size, ws, ls) && forall k :: 0 <= k < |ls| ==> OrderedLabel(ls[k])
  }

  lemma {:induction false} RunKeepsOrderedInv(size: nat, ws: seq<World>, ls: seq<Label>, k: nat)
    requires IsOrderedRun(size, ws, ls) && k < |ws|
    ensures OrderedInv(ws[k]) && ws[k].size == size
  {
    hide Next;
    RunKeepsInv(size, ws, ls, k);
    if k > 0 {
      RunKeepsOrderedInv(size, ws, ls, k - 1);
      assert StepAt(ws, ls, k - 1);
      StepRefines(ws[k - 1], ls[k - 1], ws[k]);
    }
  }

  /** Every such run, seen abstractly, is a run of the atomic stack with the same labels. */
  lemma RunRefinesAtomic(size: nat, ws: seq<World>, ls: seq<Label>)
    requires IsOrderedRun(size, ws, ls)
    ensures Abstract(ws[0]) == Atomic([], [])
    ensures forall k :: 0 <= k < |ls| ==> AtomicNext(size, Abstract(ws[k]), ls[k], Abstract(ws[k + 1]))
  {
    hide Next;
    forall k | 0 <= k < |ls|
      ensures AtomicNext(size, Abstract(ws[k]), ls[k], Abstract(ws[k + 1]))
    {
      RunKeepsOrderedInv(size, ws, ls, k);
      assert StepAt(ws, ls, k);
      StepRefines(ws[k], ls[k], ws[k + 1]);
    }
  }

  /** Whenever sem 0 is free the slots below sem 1 are the stack, the others are poisoned, and
      the two counters add up to the size. */
  lemma FreeLockShowsStack(size: nat, ws: seq<World>, ls: seq<Label>, k: nat)
    requires IsOrderedRun(size, ws, ls) && k < |ws| && ws[k].lock == 1
    ensures ws[k].count + ws[k].empty == size == |ws[k].slots|
    ensures Abstract(ws[k]).stack == ws[k].slots[..ws[k].count]
    ensures forall i :: ws[k].count <= i < size ==> ws[k].slots[i] == POISON
  {
    hide Next;
    RunKeepsOrderedInv(size, ws, ls, k);
  }

  function ClientOf(a: Atomic, p: nat): Client {
    if p < |a.clients| then a.clients[p] else Resting
  }

  /** The operation that takes effect in the step from w to w', if one does. */
  function Effect(w: World, l: Label, w': World): seq<Event> {
    if l.Internal? && ClientOf(Abstract(w), l.p).Pending? && ClientOf(Abstract(w'), l.p).Served? then
      [Event(l.p, ClientOf(Abstract(w), l.p).op, ClientOf(Abstract(w'), l.p).r)]
    else
      []
  }

  /** The operations that took effect in the first k steps, in that order. */
  function History(ws: seq<World>, ls: seq<Label>, k: nat): seq<Event>
    requires |ws| == |ls| + 1 && k < |ws|
  {
    if k == 0 then [] else History(ws, ls, k - 1) + Effect(ws[k - 1], ls[k - 1], ws[k])
  }

  function Calls(ls: seq<Label>, k: nat, p: nat): seq<Op>
    requires k <= |ls|
  {
    if k == 0 then []
    else Calls(ls, k - 1, p) + if ls[k - 1].Call? && ls[k - 1].p == p then [ls[k - 1].op] else []
  }

  function Returns(ls: seq<Label>, k: nat, p: nat): seq<Response>
    requires k <= |ls|
  {
    if k == 0 then []
    else Returns(ls, k - 1, p) + if ls[k - 1].Return? && ls[k - 1].p == p then [ls[k - 1].r] else []
  }

  function OpsOf(h: seq<Event>, p: nat): seq<Op> {
    if |h| == 0 then []
    else OpsOf(h[..|h| - 1], p) + if h[|h| - 1].pid == p then [h[|h| - 1].op] else []
  }

  function ResponsesOf(h: seq<Event>, p: nat): seq<Response> {
    if |h| == 0 then []
    else ResponsesOf(h[..|h| - 1], p) + if h[|h| - 1].pid == p then [h[|h| - 1].response] else []
  }

  /** The step's effect is exactly what the atomic stack did in it. */
  lemma EffectIsServe(w: World, l: Label, w': World)
    requires OrderedInv(w) && Next(w, l, w') && OrderedLabel(l)
    ensures var a, a', e := Abstract(w), Abstract(w'), Effect(w, l, w');
            if e == [] then
              a'.stack == a.stack && (l.Internal? ==> a' == a)
            else
              && l.Internal? && e == [Event(l.p, a.clients[l.p].op, Apply(w.size, a.stack, a.clients[l.p].op).1)]
              && a' == Serve(w.size, a, l.p)
  {
    hide Next;
    StepRefines(w, l, w');
  }

  lemma EffectReplays(w: World, l: Label, w': World, h: seq<Event>)
    requires OrderedInv(w) && Next(w, l, w') && OrderedLabel(l)
    requires Replay(w.size, [], h) == Some(Content(w))
    ensures Replay(w.size, [], h + Effect(w, l, w')) == Some(Content(w'))
  {
    hide OrderedInv;
    hide Next;
    var e := Effect(w, l, w');
    EffectIsServe(w, l, w');
    if e == [] {
      assert h + e == h;
      assert Content(w') == Abstract(w').stack == Abstract(w).stack == Content(w);
    } else {
      ReplayExtends(w.size, [], h, e[0]);
    }
  }

  lemma {:induction false} HistoryReplays(size: nat, ws: seq<World>, ls: seq<Label>, k: nat)
    requires IsOrderedRun(size, ws, ls) && k < |ws|
    ensures Replay(size, [], History(ws, ls, k)) == Some(Content(ws[k]))
  {
    hide Next;
    if k > 0 {
      HistoryReplays(size, ws, ls, k - 1);
      RunKeepsOrderedInv(size, ws, ls, k - 1);
      assert StepAt(ws, ls, k - 1);
      EffectReplays(ws[k - 1], ls[k - 1], ws[k], History(ws, ls, k - 1));
    }
  }

  lemma OpsOfExtends(h: seq<Event>, e: seq<Event>, p: nat)
    requires |e| <= 1
    ensures OpsOf(h + e, p) == OpsOf(h, p) + if |e| == 1 && e[0].pid == p then [e[0].op] else []
    ensures ResponsesOf(h + e, p) == ResponsesOf(h, p) + if |e| == 1 && e[0].pid == p then [e[0].response] else []
  {
    if |e| == 0 {
      assert h + e == h;
    } else {
      assert (h + e)[..|h + e| - 1] == h;
    }
  }

  function PendingOps(c: Client): seq<Op> {
    if c.Pending? then [c.op] else []
  }

  function ServedResponses(c: Client): seq<Response> {
    if c.Served? then [c.r] else []
  }

  /** How one step moves process p between the two ends of the history. */
  lemma ClientMoves(w: World, l: Label, w': World, p: nat)
    requires OrderedInv(w) && Next(w, l, w') && OrderedLabel(l)
    ensures var c, c', e := ClientOf(Abstract(w), p), ClientOf(Abstract(w'), p), Effect(w, l, w');
            if l.Call? && l.p == p then c == Resting && c' == Pending(l.op) && e == []
            else if l.Return? && l.p == p then c == Served(l.r) && c' == Resting && e == []
            else if |e| == 1 && e[0].pid == p then c == Pending(e[0].op) && c' == Served(e[0].response)
            else c' == c
    ensures |Effect(w, l, w')| <= 1
  {
    hide Next;
    StepRefines(w, l, w');
    EffectIsServe(w, l, w');
  }

  /** The bookkeeping of one step, for one process. */
  lemma ClientBalances(w: World, l: Label, w': World, p: nat, h: seq<Event>, calls: seq<Op>, answers: seq<Response>)
    requires OrderedInv(w) && Next(w, l, w') && OrderedLabel(l)
    requires calls == OpsOf(h, p) + PendingOps(ClientOf(Abstract(w), p))
    requires ResponsesOf(h, p) == answers + ServedResponses(ClientOf(Abstract(w), p))
    ensures var h' := h + Effect(w, l, w');
            && calls + (if l.Call? && l.p == p then [l.op] else [])
               == OpsOf(h', p) + PendingOps(ClientOf(Abstract(w'), p))
            && ResponsesOf(h', p)
               == answers + (if l.Return? && l.p == p then [l.r] else []) + ServedResponses(ClientOf(Abstract(w'), p))
  {
    hide OrderedInv;
    hide Next;
    hide Abstract;
    hide Effect;
    hide ClientOf;
    hide OpsOf;
    hide ResponsesOf;
    ClientMoves(w, l, w', p);
    OpsOfExtends(h, Effect(w, l, w'), p);
  }

  lemma {:induction false} CallsTakeEffectOnce(size: nat, ws: seq<World>, ls: seq<Label>, k: nat, p: nat)
    requires IsOrderedRun(size, ws, ls) && k < |ws|
    ensures Calls(ls, k, p) == OpsOf(History(ws, ls, k), p) + PendingOps(ClientOf(Abstract(ws[k]), p))
    ensures ResponsesOf(History(ws, ls, k), p) == Returns(ls, k, p) + ServedResponses(ClientOf(Abstract(ws[k]), p))
  {
    hide Next;
    hide OrderedInv;
    hide Effect;
    if k > 0 {
      hide Abstract;
      hide ClientOf;
      hide OpsOf;
      hide ResponsesOf;
      CallsTakeEffectOnce(size, ws, ls, k - 1, p);
      RunKeepsOrderedInv(size, ws, ls, k - 1);
      assert StepAt(ws, ls, k - 1);
      ClientBalances(ws[k - 1], ls[k - 1], ws[k], p,
                     History(ws, ls, k - 1), Calls(ls, k - 1, p), Returns(ls, k - 1, p));
    }
  }

  /** Linearizability. At every point of every run without a wait_val of 0 the operations that took
      effect so far, in order, form a legal history of one sequential bounded stack, and that stack is the
      one in the slots. Process by process, the operations called are exactly those that took
      effect, each once and in order, plus the one still pending; the responses returned are
      exactly theirs, but for the last one when it is still on its way. */
  lemma Linearizable(size: nat, ws: seq<World>, ls: seq<Label>, k: nat, p: nat)
    requires IsOrderedRun(size, ws, ls) && k < |ws|
    ensures Replay(size, [], History(ws, ls, k)) == Some(Content(ws[k]))
    ensures Calls(ls, k, p) == OpsOf(History(ws, ls, k), p) + PendingOps(ClientOf(Abstract(ws[k]), p))
    ensures ResponsesOf(History(ws, ls, k), p) == Returns(ls, k, p) + ServedResponses(ClientOf(Abstract(ws[k]), p))
  {
    hide Next;
    HistoryReplays(size, ws, ls, k);
    CallsTakeEffectOnce(size, ws, ls, k, p);
  }

  /** Nothing is lost or made up: what successful pushes put in is what the stack holds plus
      what successful pops took out. */
  lemma ValuesConserved(size: nat, ws: seq<World>, ls: seq<Label>, k: nat)
    requires IsOrderedRun(size, ws, ls) && k < |ws|
    ensures PushedBy(History(ws, ls, k)) == multiset(Content(ws[k])) + PoppedBy(History(ws, ls, k))
  {
    hide Next;
    Linearizable(size, ws, ls, k, 0);
    ReplayConserves(size, [], History(ws, ls, k));
  }
}
