/** Two runs. In one a timed wait finds what it waited for, and hangs: the theorems about the timed mode
    speak of something that happens. In the other wait_val is 0 and a value is lost: the theorems about
    the atomic stack leave that mode out for a reason. */
module StackWitness {
  import opened StackSpec
  import opened StackMachine
  import opened StackLinearizability

  ghost predicate Ends(size: nat, ws: seq<World>, ls: seq<Label>, w: World) {
    IsRun(size, ws, ls) && ws[|ls|] == w
  }

  ghost predicate Reachable(size: nat, w: World) {
    exists ws, ls :: Ends(size, ws, ls, w)
  }

  lemma Reach(size: nat, w: World, l: Label, w': World)
    requires Reachable(size, w) && Next(w, l, w')
    ensures Reachable(size, w')
  {
    hide Next;
    var ws, ls :| Ends(size, ws, ls, w);
    var ws', ls' := ws + [w'], ls + [l];
    forall k | 0 <= k < |ls'| ensures StepAt(ws', ls', k) {
      assert k < |ls| ==> StepAt(ws, ls, k);
    }
    assert Ends(size, ws', ls', w');
  }

  /** Two processes on a stack of one slot; the first has set the timed mode. */
  function At(lock: nat, count: nat, slot: Val, pc0: Pc, pc1: Pc): World
    requires count <= 1
  {
    World(lock, count, 1 - count, 1, [slot], [Proc(Timed, pc0), Proc(NoWait, pc1)])
  }

  lemma Start(size: nat)
    ensures Reachable(size, Init(size))
  {
    assert Ends(size, [Init(size)], [], Init(size));
  }

  function Before(lock: nat, mode: WaitMode, pc: Pc): World {
    World(lock, 0, 1, 1, [POISON], [Proc(mode, pc), Proc(NoWait, Idle)])
  }

  lemma BothAttached()
    ensures Reachable(1, Before(1, NoWait, Idle))
  {
    hide Step;
    Start(1);
    assert Init(1).slots == [POISON];
    Reach(1, Init(1), Attach, World(1, 0, 1, 1, [POISON], [Proc(NoWait, Idle)]));
    Reach(1, World(1, 0, 1, 1, [POISON], [Proc(NoWait, Idle)]), Attach, Before(1, NoWait, Idle));
  }

  lemma TimedModeSet()
    ensures Reachable(1, At(1, 0, POISON, Idle, Idle))
  {
    hide PushStep, PopStep, Reachable;
    BothAttached();
    Reach(1, Before(1, NoWait, Idle), Call(0, SetWait(Timed)), Before(1, NoWait, SetWaitLock(Timed)));
    Reach(1, Before(1, NoWait, SetWaitLock(Timed)), Internal(0), Before(0, NoWait, SetWaitWrite(Timed)));
    Reach(1, Before(0, NoWait, SetWaitWrite(Timed)), Internal(0), Before(0, Timed, SetWaitUnlock));
    Reach(1, Before(0, Timed, SetWaitUnlock), Internal(0), Before(1, Timed, Done(WaitSet)));
    Reach(1, Before(1, Timed, Done(WaitSet)), Return(0, WaitSet), At(1, 0, POISON, Idle, Idle));
  }

  lemma PopWaits()
    ensures Reachable(1, At(1, 0, POISON, PopTimedLock, Idle))
  {
    hide PushStep, Reachable;
    TimedModeSet();
    Reach(1, At(1, 0, POISON, Idle, Idle), Call(0, Pop), At(1, 0, POISON, PopLock, Idle));
    Reach(1, At(1, 0, POISON, PopLock, Idle), Internal(0), At(0, 0, POISON, PopCheck, Idle));
    Reach(1, At(0, 0, POISON, PopCheck, Idle), Internal(0), At(0, 0, POISON, PopTimedUnlock, Idle));
    Reach(1, At(0, 0, POISON, PopTimedUnlock, Idle), Internal(0), At(1, 0, POISON, PopTimedLock, Idle));
  }

  lemma ValueArrives(v: Val)
    ensures Reachable(1, At(1, 1, v, PopTimedLock, Done(Pushed)))
  {
    hide PopStep, Reachable;
    var pop := PopTimedLock;
    PopWaits();
    Reach(1, At(1, 0, POISON, pop, Idle), Call(1, Push(v)), At(1, 0, POISON, pop, PushLock(v)));
    Reach(1, At(1, 0, POISON, pop, PushLock(v)), Internal(1), At(0, 0, POISON, pop, PushCheck(v)));
    Reach(1, At(0, 0, POISON, pop, PushCheck(v)), Internal(1), At(0, 0, POISON, pop, PushIndex(v)));
    Reach(1, At(0, 0, POISON, pop, PushIndex(v)), Internal(1), At(0, 0, POISON, pop, PushStore(v, 0)));
    Reach(1, At(0, 0, POISON, pop, PushStore(v, 0)), Internal(1), At(0, 0, v, pop, PushCount(v)));
    Reach(1, At(0, 0, v, pop, PushCount(v)), Internal(1), At(0, 1, v, pop, PushTake).(empty := 1));
    Reach(1, At(0, 1, v, pop, PushTake).(empty := 1), Internal(1), At(0, 1, v, pop, PushUnlock));
    Reach(1, At(0, 1, v, pop, PushUnlock), Internal(1), At(1, 1, v, pop, Done(Pushed)));
  }

  /** A pop with a timeout on an empty stack, and a push while it sleeps: the pop comes to its second
      acquisition of sem 0, holding sem 0 and with the value in the stack. */
  lemma TimedRelockHappens(v: Val)
    ensures exists w :: Reachable(1, w) && |w.procs| == 2 && w.procs[0].pc == PopTimedRelock &&
                        w.procs[1].pc == Done(Pushed) && w.lock == 0 && Content(w) == [v]
  {
    hide PushStep, Reachable;
    ValueArrives(v);
    Reach(1, At(1, 1, v, PopTimedLock, Done(Pushed)), Internal(0), At(0, 1, v, PopTimedCheck, Done(Pushed)));
    Reach(1, At(0, 1, v, PopTimedCheck, Done(Pushed)), Internal(0), At(0, 1, v, PopTimedRelock, Done(Pushed)));
    assert Content(At(0, 1, v, PopTimedRelock, Done(Pushed))) == [v];
  }

  // --- wait_val == 0 ---

  /** Two processes on a stack of two slots; the first has asked to wait without a limit. */
  function Late(lock: nat, count: nat, empty: nat, slots: seq<Val>, pc0: Pc, pc1: Pc): World {
    World(lock, count, empty, 2, slots, [Proc(Forever, pc0), Proc(NoWait, pc1)])
  }

  function Early(lock: nat, mode: WaitMode, pc: Pc): World {
    World(lock, 0, 2, 2, [POISON, POISON], [Proc(mode, pc), Proc(NoWait, Idle)])
  }

  lemma TwoAttached()
    ensures Reachable(2, Early(1, NoWait, Idle))
  {
    hide Step;
    Start(2);
    assert Init(2).slots == [POISON, POISON];
    var one := World(1, 0, 2, 2, [POISON, POISON], [Proc(NoWait, Idle)]);
    Reach(2, Init(2), Attach, one);
    Reach(2, one, Attach, Early(1, NoWait, Idle));
  }

  lemma ForeverSet()
    ensures Reachable(2, Late(1, 0, 2, [POISON, POISON], Idle, Idle))
  {
    hide PushStep, PopStep, Reachable;
    TwoAttached();
    Reach(2, Early(1, NoWait, Idle), Call(0, SetWait(Forever)), Early(1, NoWait, SetWaitLock(Forever)));
    Reach(2, Early(1, NoWait, SetWaitLock(Forever)), Internal(0), Early(0, NoWait, SetWaitWrite(Forever)));
    Reach(2, Early(0, NoWait, SetWaitWrite(Forever)), Internal(0), Early(0, Forever, SetWaitUnlock));
    Reach(2, Early(0, Forever, SetWaitUnlock), Internal(0), Early(1, Forever, Done(WaitSet)));
    Reach(2, Early(1, Forever, Done(WaitSet)), Return(0, WaitSet), Early(1, Forever, Idle));
  }

  lemma PopWaitsForever()
    ensures Reachable(2, Late(1, 0, 2, [POISON, POISON], PopWaitTake, Idle))
  {
    hide PushStep, Reachable;
    var free := [POISON, POISON];
    ForeverSet();
    Reach(2, Late(1, 0, 2, free, Idle, Idle), Call(0, Pop), Late(1, 0, 2, free, PopLock, Idle));
    Reach(2, Late(1, 0, 2, free, PopLock, Idle), Internal(0), Late(0, 0, 2, free, PopCheck, Idle));
    Reach(2, Late(0, 0, 2, free, PopCheck, Idle), Internal(0), Late(0, 0, 2, free, PopWaitUnlock, Idle));
    Reach(2, Late(0, 0, 2, free, PopWaitUnlock, Idle), Internal(0), Late(1, 0, 2, free, PopWaitTake, Idle));
  }

  /** A push of v by the second process, while the first stays where it is and sem 1 is 0. */
  lemma Pushes(pc0: Pc, empty: nat, slots: seq<Val>, v: Val)
    requires empty > 0 && |slots| == 2 && Reachable(2, Late(1, 0, empty, slots, pc0, Idle))
    ensures Reachable(2, Late(1, 1, empty - 1, slots[0 := v], pc0, Idle))
  {
    hide PopStep, Reachable;
    var stored, less: nat := slots[0 := v], empty - 1;
    Reach(2, Late(1, 0, empty, slots, pc0, Idle), Call(1, Push(v)), Late(1, 0, empty, slots, pc0, PushLock(v)));
    Reach(2, Late(1, 0, empty, slots, pc0, PushLock(v)), Internal(1), Late(0, 0, empty, slots, pc0, PushCheck(v)));
    Reach(2, Late(0, 0, empty, slots, pc0, PushCheck(v)), Internal(1), Late(0, 0, empty, slots, pc0, PushIndex(v)));
    Reach(2, Late(0, 0, empty, slots, pc0, PushIndex(v)), Internal(1),
          Late(0, 0, empty, slots, pc0, PushStore(v, 0)));
    Reach(2, Late(0, 0, empty, slots, pc0, PushStore(v, 0)), Internal(1),
          Late(0, 0, empty, stored, pc0, PushCount(v)));
    Reach(2, Late(0, 0, empty, stored, pc0, PushCount(v)), Internal(1), Late(0, 1, empty, stored, pc0, PushTake));
    Reach(2, Late(0, 1, empty, stored, pc0, PushTake), Internal(1), Late(0, 1, less, stored, pc0, PushUnlock));
    Reach(2, Late(0, 1, less, stored, pc0, PushUnlock), Internal(1), Late(1, 1, less, stored, pc0, Done(Pushed)));
    Reach(2, Late(1, 1, less, stored, pc0, Done(Pushed)), Return(1, Pushed), Late(1, 1, less, stored, pc0, Idle));
  }

  /** The waiting pop takes its token without the lock, before the second push writes the slot again. */
  lemma TokenTakenEarly(v: Val, u: Val)
    ensures Reachable(2, Late(1, 1, 0, [u, POISON], PopWaitLock, Idle))
  {
    hide PushStep, Reachable;
    PopWaitsForever();
    Pushes(PopWaitTake, 2, [POISON, POISON], v);
    assert [POISON, POISON][0 := v] == [v, POISON] && [v, POISON][0 := u] == [u, POISON];
    Reach(2, Late(1, 1, 1, [v, POISON], PopWaitTake, Idle), Internal(0), Late(1, 0, 1, [v, POISON], PopWaitLock, Idle));
    Pushes(PopWaitLock, 1, [v, POISON], u);
  }

  /** Both pushes have returned 0. The pop that waited returns the poison of an unused slot; the value u is
      still there, and v is gone. */
  lemma WaitingPopLosesValue(v: Val, u: Val)
    ensures exists w :: Reachable(2, w) && |w.procs| == 2 && w.procs[0].pc == Done(Popped(POISON)) &&
                        w.procs[1].pc == Idle && w.lock == 1 && Content(w) == [u]
  {
    hide PushStep, Reachable;
    var s := [u, POISON];
    TokenTakenEarly(v, u);
    Reach(2, Late(1, 1, 0, s, PopWaitLock, Idle), Internal(0), Late(0, 1, 0, s, PopFree, Idle));
    Reach(2, Late(0, 1, 0, s, PopFree, Idle), Internal(0), Late(0, 1, 1, s, PopReadIndex, Idle));
    Reach(2, Late(0, 1, 1, s, PopReadIndex, Idle), Internal(0), Late(0, 1, 1, s, PopRead(1), Idle));
    Reach(2, Late(0, 1, 1, s, PopRead(1), Idle), Internal(0), Late(0, 1, 1, s, PopPoisonIndex(POISON), Idle));
    Reach(2, Late(0, 1, 1, s, PopPoisonIndex(POISON), Idle), Internal(0),
          Late(0, 1, 1, s, PopPoison(POISON, 1), Idle));
    assert s[1 := POISON] == s;
    Reach(2, Late(0, 1, 1, s, PopPoison(POISON, 1), Idle), Internal(0), Late(0, 1, 1, s, PopUnlock(POISON), Idle));
    var w := Late(1, 1, 1, s, Done(Popped(POISON)), Idle);
    Reach(2, Late(0, 1, 1, s, PopUnlock(POISON), Idle), Internal(0), w);
    assert Content(w) == [u];
  }
}
