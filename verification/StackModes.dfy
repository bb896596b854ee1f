/** wait_val over whole runs, and what push and pop do when they wait for as long as it takes
    (shared_stack/stack.c:186-402, 496-516). */
module StackModes {
  import opened StackSpec
  import opened StackMachine
  import opened StackSafety
  import opened StackLinearizability
  import opened StackProgress

  // --- The mode in force ---

  /** The mode that the last set_wait asked for; a stack is attached in the default mode. */
  function LastSet(ops: seq<Op>): WaitMode {
    if |ops| == 0 then NoWait
    else if ops[|ops| - 1].SetWait? then ops[|ops| - 1].mode
    else LastSet(ops[..|ops| - 1])
  }

  predicate Setting(pc: Pc) {
    pc.SetWaitLock? || pc.SetWaitWrite?
  }

  predicate OnTimedPath(pc: Pc) {
    || InTimedWait(pc) || pc.PushTimedIndex? || pc.PushTimedStore? || pc.PushTimedTake? || pc.PushTimedCount?
    || pc.PopTimedTake?
  }

  predicate OnForeverPath(pc: Pc) {
    || pc.PushWaitUnlock? || pc.PushWaitTake? || pc.PushWaitLock? || pc.PushWaitIndex? || pc.PushWaitStore?
    || pc.PushWaitCount? || pc.PopWaitUnlock? || pc.PopWaitTake? || pc.PopWaitLock?
  }

  predicate Failing(pc: Pc) {
    pc.PushFail? || pc.PopFail? || pc == Done(Failed)
  }

  /** wait_val is what the last set_wait that has got so far asked for; only the timed mode waits for a
      while, only the endless one for ever, and the endless one never fails. */
  ghost predicate ModeOk(pr: Proc, calls: seq<Op>) {
    && (if Setting(pr.pc) then
          |calls| > 0 && calls[|calls| - 1] == SetWait(pr.pc.mode) && pr.wait == LastSet(calls[..|calls| - 1])
        else pr.wait == LastSet(calls))
    && PathOk(pr.pc, pr.wait)
  }

  predicate PathOk(pc: Pc, wait: WaitMode) {
    && (OnTimedPath(pc) ==> wait == Timed) && (OnForeverPath(pc) ==> wait == Forever)
    && (Failing(pc) ==> wait != Forever)
  }

  lemma PushKeepsPath(w: World, p: nat)
    requires p < |w.procs| && PathOk(w.procs[p].pc, w.procs[p].wait)
    requires PushStep(w, p).Stepped? && p < |PushStep(w, p).w.procs|
    ensures var pr := PushStep(w, p).w.procs[p];
            pr.wait == w.procs[p].wait && !Setting(pr.pc) && PathOk(pr.pc, pr.wait)
  {
    if Rank(w.procs[p]) <= 5 {
      LatePushKeepsPath(w, p);
    }
  }

  lemma LatePushKeepsPath(w: World, p: nat)
    requires p < |w.procs| && PathOk(w.procs[p].pc, w.procs[p].wait) && Rank(w.procs[p]) <= 5
    requires PushStep(w, p).Stepped? && p < |PushStep(w, p).w.procs|
    ensures var pr := PushStep(w, p).w.procs[p];
            pr.wait == w.procs[p].wait && !Setting(pr.pc) && PathOk(pr.pc, pr.wait)
  {
  }

  lemma PopKeepsPath(w: World, p: nat)
    requires p < |w.procs| && PathOk(w.procs[p].pc, w.procs[p].wait)
    requires PopStep(w, p).Stepped? && p < |PopStep(w, p).w.procs|
    ensures var pr := PopStep(w, p).w.procs[p];
            pr.wait == w.procs[p].wait && !Setting(pr.pc) && PathOk(pr.pc, pr.wait)
  {
  }

  lemma StepKeepsMode(w: World, p: nat, calls: seq<Op>)
    requires p < |w.procs| && ModeOk(w.procs[p], calls) && Step(w, p).Stepped? && p < |Step(w, p).w.procs|
    ensures ModeOk(Step(w, p).w.procs[p], calls)
  {
    hide LastSet, PushStep, PopStep;
    SetIsLast(w.procs[p].pc, calls);
    if InPush(w.procs[p].pc) {
      PushKeepsPath(w, p);
    } else if PopStep(w, p).Stepped? && p < |PopStep(w, p).w.procs| {
      PopKeepsPath(w, p);
    }
  }

  lemma SetIsLast(pc: Pc, calls: seq<Op>)
    ensures Setting(pc) && |calls| > 0 && calls[|calls| - 1] == SetWait(pc.mode) ==> LastSet(calls) == pc.mode
  {
  }

  lemma CallKeepsMode(pr: Proc, calls: seq<Op>, op: Op)
    requires ModeOk(pr, calls) && pr.pc == Idle
    ensures ModeOk(pr.(pc := Entry(op)), calls + [op])
  {
    assert (calls + [op])[..|calls|] == calls;
  }

  lemma NextKeepsMode(w: World, l: Label, w': World, p: nat, calls: seq<Op>)
    requires Inv(w) && Next(w, l, w') && p < |w.procs| && ModeOk(w.procs[p], calls)
    ensures p < |w'.procs|
    ensures ModeOk(w'.procs[p], if l.Call? && l.p == p then calls + [l.op] else calls)
  {
    hide PushStep, PopStep, Step, ModeOk;
    if l.Internal? {
      if Holds(w.procs[l.p]) == 1 {
        HolderExcludes(w, l.p);
      }
      StepMoves(w, l.p);
      if l.p == p {
        StepKeepsMode(w, p, calls);
      }
    } else if l.Call? && l.p == p {
      CallKeepsMode(w.procs[p], calls, l.op);
    } else if l.Return? && l.p == p {
      ReturnKeepsMode(w.procs[p], calls);
    }
  }

  lemma ReturnKeepsMode(pr: Proc, calls: seq<Op>)
    requires ModeOk(pr, calls) && pr.pc.Done?
    ensures ModeOk(pr.(pc := Idle), calls)
  {
  }

  /** In every run the mode of a process is the one its last set_wait asked for, as soon as that has
      written it, and the paths of push and pop are those of the mode. */
  lemma {:induction false} ModesFollowCalls(size: nat, ws: seq<World>, ls: seq<Label>, k: nat, p: nat)
    requires IsRun(size, ws, ls) && k < |ws|
    ensures if p < |ws[k].procs| then ModeOk(ws[k].procs[p], Calls(ls, k, p)) else Calls(ls, k, p) == []
  {
    if k > 0 {
      hide Step, ModeOk, Inv;
      ModesFollowCalls(size, ws, ls, k - 1, p);
      RunKeepsInv(size, ws, ls, k - 1);
      assert StepAt(ws, ls, k - 1);
      ProcsGrow(ws[k - 1], ls[k - 1], ws[k]);
      assert Calls(ls, k - 1, p) + [] == Calls(ls, k - 1, p);
      if p < |ws[k - 1].procs| {
        NextKeepsMode(ws[k - 1], ls[k - 1], ws[k], p, Calls(ls, k - 1, p));
      } else {
        NewcomerMode();
      }
    }
  }

  lemma NewcomerMode()
    ensures ModeOk(Proc(NoWait, Idle), [])
  {
  }

  lemma ProcsGrow(w: World, l: Label, w': World)
    requires Inv(w) && Next(w, l, w')
    ensures l.Attach? ==> w'.procs == w.procs + [Proc(NoWait, Idle)]
    ensures !l.Attach? ==> |w'.procs| == |w.procs| && l.p < |w.procs|
  {
    hide PushStep, PopStep;
    if l.Internal? {
      if Holds(w.procs[l.p]) == 1 {
        HolderExcludes(w, l.p);
      }
      StepMoves(w, l.p);
    }
  }

  /** What a process may find itself doing, given the mode that it set last. */
  lemma PathsFollowMode(size: nat, ws: seq<World>, ls: seq<Label>, k: nat, p: nat)
    requires IsRun(size, ws, ls) && k < |ws| && p < |ws[k].procs| && !Setting(ws[k].procs[p].pc)
    ensures var pc, mode := ws[k].procs[p].pc, LastSet(Calls(ls, k, p));
            && (mode == NoWait ==> !OnTimedPath(pc) && !OnForeverPath(pc))
            && (mode == Timed ==> !OnForeverPath(pc))
            && (mode == Forever ==> !OnTimedPath(pc) && !Failing(pc))
  {
    hide Next;
    ModesFollowCalls(size, ws, ls, k, p);
  }

  /** Only the default mode fails at the first check: the others go on to wait. */
  lemma FailsAtOnceByDefault(size: nat, ws: seq<World>, ls: seq<Label>, k: nat, p: nat)
    requires IsRun(size, ws, ls) && k < |ls| && ls[k] == Internal(p) && p < |ws[k].procs| && p < |ws[k + 1].procs|
    requires ws[k].procs[p].pc.PushCheck? || ws[k].procs[p].pc.PopCheck?
    ensures Failing(ws[k + 1].procs[p].pc) ==> LastSet(Calls(ls, k, p)) == NoWait
    ensures LastSet(Calls(ls, k, p)) == NoWait ==>
              !OnTimedPath(ws[k + 1].procs[p].pc) && !OnForeverPath(ws[k + 1].procs[p].pc)
  {
    ModesFollowCalls(size, ws, ls, k, p);
    assert StepAt(ws, ls, k);
  }

  // --- Alone, in any mix of modes ---

  lemma AloneStep(w: World, p: nat, n: nat, w': World)
    requires p < |w.procs| && n > 0 && Step(w, p) == Stepped(w') && p < |w'.procs|
    ensures Alone(w, p, n) == Alone(w', p, n - 1)
  {
  }

  lemma AloneStops(w: World, p: nat, n: nat)
    requires p < |w.procs| && !Step(w, p).Stepped?
    ensures Alone(w, p, n) == w
  {
  }

  /** The world w with process p at pc and these semaphores. */
  function With(w: World, p: nat, pc: Pc, lock: nat, count: nat, empty: nat, slots: seq<Val>): World
    requires p < |w.procs|
  {
    w.(procs := w.procs[p := w.procs[p].(pc := pc)], lock := lock, count := count, empty := empty, slots := slots)
  }

  lemma WithAgain(w: World, p: nat, pc: Pc, lock: nat, count: nat, empty: nat, slots: seq<Val>)
    requires p < |w.procs|
    ensures forall pc', lock', count', empty', slots' ::
              With(With(w, p, pc, lock, count, empty, slots), p, pc', lock', count', empty', slots') ==
              With(w, p, pc', lock', count', empty', slots')
  {
    forall pc', lock', count', empty', slots'
      ensures With(With(w, p, pc, lock, count, empty, slots), p, pc', lock', count', empty', slots') ==
              With(w, p, pc', lock', count', empty', slots')
    {
      var once := w.procs[p := w.procs[p].(pc := pc)];
      assert once[p := w.procs[p].(pc := pc')] == w.procs[p := w.procs[p].(pc := pc')];
    }
  }

  /** What an operation that has done its work leaves: what the sequential one does, and a free lock. */
  ghost predicate Meets(w: World, p: nat, size: nat, s: seq<Val>, op: Op) {
    && p < |w.procs| && w.lock == 1 && w.procs[p].pc == Done(Apply(size, s, op).1) && Content(w) == Apply(size, s, op).0
  }

  // One step each, alone.

  lemma Locks(w: World, p: nat, n: nat)
    requires p < |w.procs| && n > 0 && w.lock == 1
    ensures w.procs[p].pc.PushWaitLock? ==>
              Alone(w, p, n) ==
              Alone(With(w, p, PushWaitIndex(w.procs[p].pc.v), 0, w.count, w.empty, w.slots), p, n - 1)
    ensures w.procs[p].pc.PopWaitLock? ==>
              Alone(w, p, n) == Alone(With(w, p, PopFree, 0, w.count, w.empty, w.slots), p, n - 1)
  {
  }

  lemma Unlocks(w: World, p: nat, n: nat)
    requires p < |w.procs| && n > 0
    ensures w.procs[p].pc.PushUnlock? ==>
              Alone(w, p, n) == With(w, p, Done(Pushed), w.lock + 1, w.count, w.empty, w.slots)
    ensures w.procs[p].pc.PopUnlock? ==>
              Alone(w, p, n) ==
              With(w, p, Done(Popped(w.procs[p].pc.v)), w.lock + 1, w.count, w.empty, w.slots)
  {
  }

  lemma Stores(w: World, p: nat, n: nat)
    requires p < |w.procs| && n > 0
    ensures w.procs[p].pc.PushWaitIndex? ==>
              Alone(w, p, n) ==
              Alone(With(w, p, PushWaitStore(w.procs[p].pc.v, w.count), w.lock, w.count, w.empty, w.slots), p, n - 1)
    ensures w.procs[p].pc.PushWaitStore? && w.procs[p].pc.i < |w.slots| ==>
              Alone(w, p, n) ==
              Alone(With(w, p, PushWaitCount, w.lock, w.count, w.empty,
                         w.slots[w.procs[p].pc.i := w.procs[p].pc.v]), p, n - 1)
    ensures w.procs[p].pc.PushWaitCount? ==>
              Alone(w, p, n) == Alone(With(w, p, PushUnlock, w.lock, w.count + 1, w.empty, w.slots), p, n - 1)
  {
  }

  lemma Reads(w: World, p: nat, n: nat)
    requires p < |w.procs| && n > 0
    ensures w.procs[p].pc.PopFree? ==>
              Alone(w, p, n) == Alone(With(w, p, PopReadIndex, w.lock, w.count, w.empty + 1, w.slots), p, n - 1)
    ensures w.procs[p].pc.PopReadIndex? ==>
              Alone(w, p, n) == Alone(With(w, p, PopRead(w.count), w.lock, w.count, w.empty, w.slots), p, n - 1)
    ensures w.procs[p].pc.PopRead? && w.procs[p].pc.i < |w.slots| ==>
              Alone(w, p, n) ==
              Alone(With(w, p, PopPoisonIndex(w.slots[w.procs[p].pc.i]), w.lock, w.count, w.empty, w.slots), p, n - 1)
  {
  }

  lemma Poisons(w: World, p: nat, n: nat)
    requires p < |w.procs| && n > 0
    ensures w.procs[p].pc.PopPoisonIndex? ==>
              Alone(w, p, n) ==
              Alone(With(w, p, PopPoison(w.procs[p].pc.v, w.count), w.lock, w.count, w.empty, w.slots), p, n - 1)
    ensures w.procs[p].pc.PopPoison? && w.procs[p].pc.i < |w.slots| ==>
              Alone(w, p, n) ==
              Alone(With(w, p, PopUnlock(w.procs[p].pc.v), w.lock, w.count, w.empty,
                         w.slots[w.procs[p].pc.i := POISON]), p, n - 1)
  {
  }

  /** A push with its token, the only one in flight. */
  lemma PushWithToken(w: World, p: nat, v: Val, n: nat)
    requires p < |w.procs| && w.procs[p].pc == PushWaitLock(v) && w.lock == 1 && n >= 5
    requires |w.slots| == w.size && w.count + w.empty + 1 == w.size
    ensures Meets(Alone(w, p, n), p, w.size, Content(w), Push(v))
  {
    hide Alone, Step;
    var c, e, s := w.count, w.empty, w.slots[w.count := v];
    var w1 := With(w, p, PushWaitIndex(v), 0, c, e, w.slots);
    var w2 := With(w, p, PushWaitStore(v, c), 0, c, e, w.slots);
    var w3 := With(w, p, PushWaitCount, 0, c, e, s);
    var w4 := With(w, p, PushUnlock, 0, c + 1, e, s);
    WithAgain(w, p, PushWaitIndex(v), 0, c, e, w.slots);
    WithAgain(w, p, PushWaitStore(v, c), 0, c, e, w.slots);
    WithAgain(w, p, PushWaitCount, 0, c, e, s);
    WithAgain(w, p, PushUnlock, 0, c + 1, e, s);
    Locks(w, p, n);
    Stores(w1, p, n - 1);
    Stores(w2, p, n - 2);
    Stores(w3, p, n - 3);
    Unlocks(w4, p, n - 4);
    assert s[..c + 1] == w.slots[..c] + [v];
  }

  /** A pop with its token: the value it has taken is still above the stack. */
  lemma PopWithToken(w: World, p: nat, n: nat)
    requires p < |w.procs| && w.procs[p].pc == PopWaitLock && w.lock == 1 && n >= 7
    requires |w.slots| == w.size && w.count + w.empty + 1 == w.size
    ensures Meets(Alone(w, p, n), p, w.size, Content(w) + [w.slots[w.count]], Pop)
  {
    hide Alone, Step;
    var c, e, v, s := w.count, w.empty + 1, w.slots[w.count], w.slots[w.count := POISON];
    var w1 := With(w, p, PopFree, 0, c, w.empty, w.slots);
    var w2 := With(w, p, PopReadIndex, 0, c, e, w.slots);
    var w3 := With(w, p, PopRead(c), 0, c, e, w.slots);
    var w4 := With(w, p, PopPoisonIndex(v), 0, c, e, w.slots);
    var w5 := With(w, p, PopPoison(v, c), 0, c, e, w.slots);
    var w6 := With(w, p, PopUnlock(v), 0, c, e, s);
    WithAgain(w, p, PopFree, 0, c, w.empty, w.slots);
    WithAgain(w, p, PopReadIndex, 0, c, e, w.slots);
    WithAgain(w, p, PopRead(c), 0, c, e, w.slots);
    WithAgain(w, p, PopPoisonIndex(v), 0, c, e, w.slots);
    WithAgain(w, p, PopPoison(v, c), 0, c, e, w.slots);
    WithAgain(w, p, PopUnlock(v), 0, c, e, s);
    Locks(w, p, n);
    Reads(w1, p, n - 1);
    Reads(w2, p, n - 2);
    Reads(w3, p, n - 3);
    Poisons(w4, p, n - 4);
    Poisons(w5, p, n - 5);
    Unlocks(w6, p, n - 6);
    assert s[..c] == w.slots[..c];
    assert (w.slots[..c] + [v])[..c] == w.slots[..c];
  }

  /** In every run, in any mix of modes: a push or pop with wait_val 0 that waits for its token, when there is one
      and no other is in flight, or that has it as the only one, does when left alone what the sequential
      stack does, and the lock is free again. */
  lemma WaiterMeetsSpec(size: nat, ws: seq<World>, ls: seq<Label>, k: nat, p: nat)
    requires IsRun(size, ws, ls) && k < |ws| && p < |ws[k].procs| && ws[k].lock == 1
    ensures var w := ws[k];
            var pc, now := w.procs[p].pc, Alone(w, p, MAX_STEPS);
            && (pc.PushWaitTake? && w.empty > 0 && Sum(w.procs, Token) == 0 ==>
                  Meets(now, p, size, Content(w), Push(pc.v)))
            && (pc.PushWaitLock? && Sum(w.procs, Token) == 1 ==> Meets(now, p, size, Content(w), Push(pc.v)))
            && (pc.PopWaitTake? && w.count > 0 && Sum(w.procs, Token) == 0 ==> Meets(now, p, size, Content(w), Pop))
            && (pc.PopWaitLock? && Sum(w.procs, Token) == 1 ==>
                  w.count < |w.slots| && Meets(now, p, size, Content(w) + [w.slots[w.count]], Pop))
  {
    hide Next;
    RunKeepsInv(size, ws, ls, k);
    AnyWaiterMeetsSpec(ws[k], p);
  }

  lemma AnyWaiterMeetsSpec(w: World, p: nat)
    requires Inv(w) && p < |w.procs| && w.lock == 1
    ensures var pc, now := w.procs[p].pc, Alone(w, p, MAX_STEPS);
            && (pc.PushWaitTake? && w.empty > 0 && Sum(w.procs, Token) == 0 ==>
                  Meets(now, p, w.size, Content(w), Push(pc.v)))
            && (pc.PushWaitLock? && Sum(w.procs, Token) == 1 ==> Meets(now, p, w.size, Content(w), Push(pc.v)))
            && (pc.PopWaitTake? && w.count > 0 && Sum(w.procs, Token) == 0 ==> Meets(now, p, w.size, Content(w), Pop))
            && (pc.PopWaitLock? && Sum(w.procs, Token) == 1 ==>
                  w.count < |w.slots| && Meets(now, p, w.size, Content(w) + [w.slots[w.count]], Pop))
  {
    hide Meets, Alone;
    match w.procs[p].pc
    case PushWaitTake(v) =>
      if w.empty > 0 && Sum(w.procs, Token) == 0 {
        var w1 := With(w, p, PushWaitLock(v), 1, w.count, w.empty - 1, w.slots);
        AloneStep(w, p, MAX_STEPS, w1);
        PushWithToken(w1, p, v, MAX_STEPS - 1);
      }
    case PushWaitLock(v) =>
      if Sum(w.procs, Token) == 1 {
        PushWithToken(w, p, v, MAX_STEPS);
      }
    case PopWaitTake =>
      if w.count > 0 && Sum(w.procs, Token) == 0 {
        var w1 := With(w, p, PopWaitLock, 1, w.count - 1, w.empty, w.slots);
        AloneStep(w, p, MAX_STEPS, w1);
        PopWithToken(w1, p, MAX_STEPS - 1);
        assert w.slots[..w.count] == w.slots[..w.count - 1] + [w.slots[w.count - 1]];
      }
    case PopWaitLock =>
      if Sum(w.procs, Token) == 1 {
        PopWithToken(w, p, MAX_STEPS);
      }
    case _ =>
  }
}
