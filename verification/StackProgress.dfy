/** Which operations on the shared stack finish. In the default mode no reachable state is
    stuck and an undisturbed operation meets the sequential specification. In the timed mode
    an operation that had to wait never succeeds. */
module StackProgress {
  import opened StackSpec
  import opened StackMachine
  import opened StackSafety
  import opened StackLinearizability

  /** A bound on the steps a process still has to take before its operation is done. */
  function Rank(p: Proc): int {
    match p.pc
    case Idle | Done(_) => 0
    case PushUnlock | PushFail => 1
    case PushTake => 2
    case PushCount(_) => 3
    case PushStore(_, _) => 4
    case PushIndex(_) => 5
    case PushWaitCount => 2
    case PushWaitStore(_, _) => 3
    case PushWaitIndex(_) => 4
    case PushWaitLock(_) => 5
    case PushWaitTake(_) => 6
    case PushWaitUnlock(_) => 7
    case PushTimedCount => 2
    case PushTimedTake => 3
    case PushTimedStore(_, _) => 4
    case PushTimedIndex(_) => 5
    case PushTimedRelock(_) => 6
    case PushTimedCheck(_) => 7
    case PushTimedLock(_) => 8
    case PushTimedUnlock(_) => 9
    case PushCheck(_) => 10
    case PushLock(_) => 11
    case PopUnlock(_) | PopFail => 1
    case PopPoison(_, _) => 2
    case PopPoisonIndex(_) => 3
    case PopRead(_) => 4
    case PopReadIndex => 5
    case PopFree => 6
    case PopTake | PopWaitLock | PopTimedTake => 7
    case PopWaitTake | PopTimedRelock => 8
    case PopWaitUnlock | PopTimedCheck => 9
    case PopTimedLock => 10
    case PopTimedUnlock => 11
    case PopCheck => 12
    case PopLock => 13
    case SetWaitUnlock => 1
    case SetWaitWrite(_) => 2
    case SetWaitLock(_) => 3
  }

  const MAX_STEPS := 13

  lemma PushRankFalls(w: World, p: nat)
    requires p < |w.procs| && PushStep(w, p).Stepped?
    ensures |PushStep(w, p).w.procs| == |w.procs|
    ensures 0 <= Rank(PushStep(w, p).w.procs[p]) < Rank(w.procs[p])
  {
    if Rank(w.procs[p]) <= 5 {
      PushTailRankFalls(w, p);
    } else {
      PushHeadRankFalls(w, p);
    }
  }

  lemma PushTailRankFalls(w: World, p: nat)
    requires p < |w.procs| && PushStep(w, p).Stepped? && Rank(w.procs[p]) <= 5
    ensures |PushStep(w, p).w.procs| == |w.procs|
    ensures 0 <= Rank(PushStep(w, p).w.procs[p]) < Rank(w.procs[p])
  {
  }

  lemma PushHeadRankFalls(w: World, p: nat)
    requires p < |w.procs| && PushStep(w, p).Stepped? && Rank(w.procs[p]) > 5
    ensures |PushStep(w, p).w.procs| == |w.procs|
    ensures 0 <= Rank(PushStep(w, p).w.procs[p]) < Rank(w.procs[p])
  {
  }

  lemma PopRankFalls(w: World, p: nat)
    requires p < |w.procs| && PopStep(w, p).Stepped?
    ensures |PopStep(w, p).w.procs| == |w.procs|
    ensures 0 <= Rank(PopStep(w, p).w.procs[p]) < Rank(w.procs[p])
  {
    if Rank(w.procs[p]) <= 6 {
      PopTailRankFalls(w, p);
    } else {
      PopHeadRankFalls(w, p);
    }
  }

  lemma PopTailRankFalls(w: World, p: nat)
    requires p < |w.procs| && PopStep(w, p).Stepped? && Rank(w.procs[p]) <= 6
    ensures |PopStep(w, p).w.procs| == |w.procs|
    ensures 0 <= Rank(PopStep(w, p).w.procs[p]) < Rank(w.procs[p])
  {
  }

  lemma PopHeadRankFalls(w: World, p: nat)
    requires p < |w.procs| && PopStep(w, p).Stepped? && Rank(w.procs[p]) > 6
    ensures |PopStep(w, p).w.procs| == |w.procs|
    ensures 0 <= Rank(PopStep(w, p).w.procs[p]) < Rank(w.procs[p])
  {
  }

  /** In every wait mode a step brings its process nearer to the end of its operation. */
  lemma RankFalls(w: World, p: nat)
    requires p < |w.procs| && Step(w, p).Stepped?
    ensures |Step(w, p).w.procs| == |w.procs|
    ensures 0 <= Rank(Step(w, p).w.procs[p]) < Rank(w.procs[p])
  {
    hide PushStep;
    hide PopStep;
    if InPush(w.procs[p].pc) {
      PushRankFalls(w, p);
    } else if PopStep(w, p).Stepped? {
      PopRankFalls(w, p);
    }
  }

  function CallCount(ls: seq<Label>, k: nat): nat
    requires k <= |ls|
  {
    if k == 0 then 0 else CallCount(ls, k - 1) + if ls[k - 1].Call? then 1 else 0
  }

  function InternalCount(ls: seq<Label>, k: nat): nat
    requires k <= |ls|
  {
    if k == 0 then 0 else InternalCount(ls, k - 1) + if ls[k - 1].Internal? then 1 else 0
  }

  /** The work a step uses up, or the call adds. */
  lemma WorkBalance(w: World, l: Label, w': World)
    requires Inv(w) && Next(w, l, w')
    ensures Sum(w'.procs, Rank) <=
            Sum(w.procs, Rank) + (if l.Call? then MAX_STEPS else 0) - (if l.Internal? then 1 else 0)
  {
    hide PushStep;
    hide PopStep;
    if l.Attach? {
      assert w'.procs[..|w.procs|] == w.procs;
    } else if l.Internal? {
      SumNonNegative(w.procs, Holds);
      if Holds(w.procs[l.p]) == 1 {
        HolderIsAlone(w.procs, l.p);
      }
      StepMoves(w, l.p);
      RankFalls(w, l.p);
      SumUpdate(w.procs, Rank, l.p, w'.procs[l.p]);
    } else {
      SumUpdate(w.procs, Rank, l.p, w'.procs[l.p]);
      assert w'.procs == w.procs[l.p := w'.procs[l.p]];
    }
  }

  lemma {:induction false} RunWorkBalance(size: nat, ws: seq<World>, ls: seq<Label>, k: nat)
    requires IsRun(size, ws, ls) && k < |ws|
    ensures InternalCount(ls, k) + Sum(ws[k].procs, Rank) <= MAX_STEPS * CallCount(ls, k)
  {
    hide Next;
    if k > 0 {
      RunWorkBalance(size, ws, ls, k - 1);
      RunKeepsInv(size, ws, ls, k - 1);
      assert StepAt(ws, ls, k - 1);
      WorkBalance(ws[k - 1], ls[k - 1], ws[k]);
    }
  }

  /** No run spins: in every mix of wait modes the steps inside operations are at most
      MAX_STEPS for each call made. */
  lemma WorkIsBounded(size: nat, ws: seq<World>, ls: seq<Label>, k: nat)
    requires IsRun(size, ws, ls) && k < |ws|
    ensures InternalCount(ls, k) <= MAX_STEPS * CallCount(ls, k)
  {
    hide Next;
    RunWorkBalance(size, ws, ls, k);
    SumNonNegative(ws[k].procs, Rank);
  }

  // --- The default mode ---

  /** Waiting for the timeout, or past it. */
  predicate InTimedWait(pc: Pc) {
    || pc.PushTimedUnlock? || pc.PushTimedLock? || pc.PushTimedCheck? || pc.PushTimedRelock?
    || pc.PopTimedUnlock? || pc.PopTimedLock? || pc.PopTimedCheck? || pc.PopTimedRelock?
  }

  /** A process that never asked for another mode. */
  predicate DefaultProc(p: Proc) {
    && p.wait == NoWait && !InTimedWait(p.pc) && OrderedPc(p.pc)
    && (p.pc.SetWaitLock? || p.pc.SetWaitWrite? ==> p.pc.mode == NoWait)
  }

  ghost predicate DefaultOnly(w: World) {
    forall q :: 0 <= q < |w.procs| ==> DefaultProc(w.procs[q])
  }

  predicate DefaultLabel(l: Label) {
    !(l.Call? && l.op.SetWait? && l.op.mode != NoWait)
  }

  ghost predicate IsDefaultRun(size: nat, ws: seq<World>, ls: seq<Label>) {
    IsRun(size, ws, ls) && forall k :: 0 <= k < |ls| ==> DefaultLabel(ls[k])
  }

  lemma DefaultProcStays(w: World, p: nat)
    requires p < |w.procs| && DefaultProc(w.procs[p]) && Step(w, p).Stepped? && p < |Step(w, p).w.procs|
    ensures DefaultProc(Step(w, p).w.procs[p])
  {
  }

  lemma DefaultStays(w: World, l: Label, w': World)
    requires Inv(w) && DefaultOnly(w) && Next(w, l, w') && DefaultLabel(l)
    ensures DefaultOnly(w')
  {
    hide PushStep;
    hide PopStep;
    hide Step;
    if l.Internal? {
      if Holds(w.procs[l.p]) == 1 {
        HolderExcludes(w, l.p);
      }
      StepMoves(w, l.p);
      DefaultProcStays(w, l.p);
      assert forall q :: 0 <= q < |w.procs| && q != l.p ==> w'.procs[q] == w.procs[q];
    }
  }

  lemma {:induction false} RunStaysDefault(size: nat, ws: seq<World>, ls: seq<Label>, k: nat)
    requires IsDefaultRun(size, ws, ls) && k < |ws|
    ensures OrderedInv(ws[k]) && DefaultOnly(ws[k]) && ws[k].size == size
  {
    hide Next;
    assert IsOrderedRun(size, ws, ls);
    RunKeepsOrderedInv(size, ws, ls, k);
    if k > 0 {
      RunStaysDefault(size, ws, ls, k - 1);
      assert StepAt(ws, ls, k - 1);
      DefaultStays(ws[k - 1], ls[k - 1], ws[k]);
    }
  }

  /** The lock holder is never blocked: what its check saw stays true under the lock. */
  lemma HolderNeverBlocked(size: nat, ws: seq<World>, ls: seq<Label>, k: nat, p: nat)
    requires IsDefaultRun(size, ws, ls) && k < |ws| && p < |ws[k].procs|
    requires Holds(ws[k].procs[p]) == 1
    ensures Step(ws[k], p).Stepped?
  {
    hide Next;
    RunStaysDefault(size, ws, ls, k);
    Inside(ws[k], p);
  }

  /** While any operation is unfinished some process can move, unless one is stuck at a second
      acquisition of sem 0, where TimedRelockHangs leaves it. */
  lemma StuckOnlyAtRelock(size: nat, ws: seq<World>, ls: seq<Label>, k: nat, p: nat)
    requires IsOrderedRun(size, ws, ls) && k < |ws| && p < |ws[k].procs| && ws[k].procs[p].pc != Idle
    ensures (exists q :: 0 <= q < |ws[k].procs| && (ws[k].procs[q].pc.Done? || Step(ws[k], q).Stepped?)) ||
            (exists q :: 0 <= q < |ws[k].procs| && AtRelock(ws[k].procs[q].pc))
  {
    hide Next;
    var w := ws[k];
    RunKeepsOrderedInv(size, ws, ls, k);
    assert OrderedPc(w.procs[p].pc);
    if q :| 0 <= q < |w.procs| && Holds(w.procs[q]) == 1 {
      if !AtRelock(w.procs[q].pc) {
        Inside(w, q);
      }
    } else {
      NoHolderMeansLockFree(w.procs);
      assert w.procs[p].pc.Done? || Step(w, p).Stepped?;
    }
  }

  /** In the default mode, while any operation is unfinished, some process can move. */
  lemma NeverStuck(size: nat, ws: seq<World>, ls: seq<Label>, k: nat, p: nat)
    requires IsDefaultRun(size, ws, ls) && k < |ws| && p < |ws[k].procs| && ws[k].procs[p].pc != Idle
    ensures exists q :: 0 <= q < |ws[k].procs| && (ws[k].procs[q].pc.Done? || Step(ws[k], q).Stepped?)
  {
    hide Next;
    hide Step;
    RunStaysDefault(size, ws, ls, k);
    StuckOnlyAtRelock(size, ws, ls, k, p);
    assert forall q :: 0 <= q < |ws[k].procs| ==> DefaultProc(ws[k].procs[q]);
  }

  lemma {:induction false} NoHolderMeansLockFree(procs: seq<Proc>)
    requires forall q :: 0 <= q < |procs| ==> Holds(procs[q]) != 1
    ensures Sum(procs, Holds) == 0
  {
    if |procs| > 0 {
      NoHolderMeansLockFree(procs[..|procs| - 1]);
      assert procs[|procs| - 1] == procs[|procs| - 1];
    }
  }

  /** Up to n steps of process p, with nobody else moving. */
  function Alone(w: World, p: nat, n: nat): World
    requires p < |w.procs|
    decreases n
  {
    if n == 0 || !Step(w, p).Stepped? || p >= |Step(w, p).w.procs| then w else Alone(Step(w, p).w, p, n - 1)
  }

  /** Process p, holding the lock or finding it free, finishes within its rank; the operation
      has then done to the stack what the sequential one does, and the lock is free. */
  lemma {:induction false} AloneFinishes(w: World, p: nat, n: nat, s: seq<Val>, op: Op)
    requires OrderedInv(w) && p < |w.procs| && Rank(w.procs[p]) <= n
    requires DefaultProc(w.procs[p]) && (Holds(w.procs[p]) == 1 || w.lock == 1)
    requires var c := ClientAt(w, w.procs[p].pc);
             if c.Pending? then c.op == op && Content(w) == s
             else c.Served? && (Content(w), c.r) == Apply(w.size, s, op)
    ensures var w' := Alone(w, p, n);
            && |w'.procs| == |w.procs| && OrderedInv(w') && w'.lock == 1
            && w'.procs[p].pc == Done(Apply(w.size, s, op).1)
            && Content(w') == Apply(w.size, s, op).0
    decreases n
  {
    hide PushStep;
    hide PopStep;
    hide Step;
    hide Inv;
    hide HolderOk;
    assert OrderedPc(w.procs[p].pc);
    if w.procs[p].pc.Done? {
      DoneStays(w, p, n);
    } else {
      if Holds(w.procs[p]) == 1 {
        HolderExcludes(w, p);
        Inside(w, p);
      } else {
        CanAcquire(w, p);
        OutsideSteps(w, p);
      }
      StepKeepsInv(w, p);
      DefaultProcStays(w, p);
      InternalRefines(w, p);
      RankFalls(w, p);
      var w' := Step(w, p).w;
      StepMoves(w, p);
      AbstractAt(w, p);
      AbstractAt(w', p);
      if Holds(w'.procs[p]) == 0 {
        NoHolderLeft(w, p, w');
      }
      AloneFinishes(w', p, n - 1, s, op);
    }
  }

  lemma DoneStays(w: World, p: nat, n: nat)
    requires p < |w.procs| && w.procs[p].pc.Done?
    ensures Alone(w, p, n) == w && Holds(w.procs[p]) == 0
  {
  }

  lemma CanAcquire(w: World, p: nat)
    requires OrderedInv(w) && p < |w.procs| && w.lock == 1 && ClientAt(w, w.procs[p].pc) != Resting
    ensures !w.procs[p].pc.Done? ==> Holds(w.procs[p]) == 0 && Step(w, p).Stepped?
  {
    LockFreeMeansNoHolder(w);
    assert OrderedPc(w.procs[p].pc);
  }

  lemma AbstractAt(w: World, p: nat)
    requires p < |w.procs|
    ensures Abstract(w).stack == Content(w) && Abstract(w).clients[p] == ClientAt(w, w.procs[p].pc)
  {
  }

  lemma NoHolderLeft(w: World, p: nat, w': World)
    requires p < |w.procs| == |w'.procs| && Inv(w') && w'.procs == w.procs[p := w'.procs[p]]
    requires Inv(w) && Holds(w'.procs[p]) == 0 && Holds(w.procs[p]) == 1
    ensures w'.lock == 1
  {
    HolderExcludes(w, p);
    SumUpdate(w.procs, Holds, p, w'.procs[p]);
    NoHolderMeansLockFree(w'.procs);
  }

  /** An operation called while the lock is free and left alone returns what the sequential
      stack returns, and leaves the sequential stack in the slots. */
  lemma UncontendedMeetsSpec(size: nat, ws: seq<World>, ls: seq<Label>, k: nat, p: nat, op: Op)
    requires IsDefaultRun(size, ws, ls) && k < |ws| && p < |ws[k].procs|
    requires ws[k].lock == 1 && ws[k].procs[p].pc == Entry(op)
    ensures var w' := Alone(ws[k], p, MAX_STEPS);
            && |w'.procs| == |ws[k].procs| && w'.lock == 1
            && (Content(w'), w'.procs[p].pc) ==
               (Apply(size, Abstract(ws[k]).stack, op).0, Done(Apply(size, Abstract(ws[k]).stack, op).1))
  {
    hide Next;
    RunStaysDefault(size, ws, ls, k);
    AloneFinishes(ws[k], p, MAX_STEPS, Content(ws[k]), op);
  }

  // --- The timed mode never succeeds after waiting ---

  lemma TimedOwnStep(w: World, p: nat)
    requires p < |w.procs| && Step(w, p).Stepped? && (Holds(w.procs[p]) == 1 ==> w.lock == 0)
    requires InTimedWait(w.procs[p].pc) || w.procs[p].pc in {PushFail, PopFail}
    ensures |Step(w, p).w.procs| == |w.procs|
    ensures var pc' := Step(w, p).w.procs[p].pc; InTimedWait(pc') || pc' in {PushFail, PopFail, Done(Failed)}
    ensures !w.procs[p].pc.PushTimedRelock? && !w.procs[p].pc.PopTimedRelock?
  {
  }

  lemma TimedStep(w: World, l: Label, w': World, p: nat)
    requires Inv(w) && Next(w, l, w') && p < |w.procs| && !(l.Return? && l.p == p)
    requires InTimedWait(w.procs[p].pc) || w.procs[p].pc in {PushFail, PopFail, Done(Failed)}
    ensures p < |w'.procs|
    ensures InTimedWait(w'.procs[p].pc) || w'.procs[p].pc in {PushFail, PopFail, Done(Failed)}
    ensures w.procs[p].pc.PushTimedRelock? || w.procs[p].pc.PopTimedRelock? ==>
              w.lock == 0 && w'.procs[p].pc == w.procs[p].pc
  {
    hide PushStep;
    hide PopStep;
    if Holds(w.procs[p]) == 1 {
      HolderExcludes(w, p);
    }
    if l.Internal? {
      if Holds(w.procs[l.p]) == 1 {
        HolderExcludes(w, l.p);
      }
      StepMoves(w, l.p);
      if l.p == p {
        TimedOwnStep(w, p);
      }
    }
  }

  /** A push or pop with wait_val 1 that found the stack full, or empty, can only fail: as long as
      it has not returned it is waiting or on its way to return -1. */
  lemma {:induction false} TimedWaitCanOnlyFail(size: nat, ws: seq<World>, ls: seq<Label>, k: nat, m: nat, p: nat)
    requires IsRun(size, ws, ls) && k <= m < |ws| && p < |ws[k].procs| && InTimedWait(ws[k].procs[p].pc)
    requires forall j :: k <= j < m ==> !(ls[j].Return? && ls[j].p == p)
    ensures p < |ws[m].procs|
    ensures InTimedWait(ws[m].procs[p].pc) || ws[m].procs[p].pc in {PushFail, PopFail, Done(Failed)}
    decreases m
  {
    hide Next;
    if m > k {
      TimedWaitCanOnlyFail(size, ws, ls, k, m - 1, p);
      RunKeepsInv(size, ws, ls, m - 1);
      assert StepAt(ws, ls, m - 1);
      TimedStep(ws[m - 1], ls[m - 1], ws[m], p);
    }
  }

  /** Worse, one that finds room after the timeout takes sem 0 a second time while holding it:
      it stays there, with the lock, for the rest of the run. */
  lemma {:induction false} TimedRelockHangs(size: nat, ws: seq<World>, ls: seq<Label>, k: nat, m: nat, p: nat)
    requires IsRun(size, ws, ls) && k <= m < |ws| && p < |ws[k].procs|
    requires AtRelock(ws[k].procs[p].pc)
    ensures p < |ws[m].procs| && ws[m].procs[p].pc == ws[k].procs[p].pc && ws[m].lock == 0
    decreases m
  {
    hide Next;
    RunKeepsInv(size, ws, ls, m);
    if m > k {
      TimedRelockHangs(size, ws, ls, k, m - 1, p);
      RunKeepsInv(size, ws, ls, m - 1);
      assert StepAt(ws, ls, m - 1);
      StaysAtRelock(ws[m - 1], ls[m - 1], ws[m], p);
    } else {
      HolderExcludes(ws[m], p);
    }
  }

  lemma StaysAtRelock(w: World, l: Label, w': World, p: nat)
    requires Inv(w) && Inv(w') && Next(w, l, w') && p < |w.procs|
    requires AtRelock(w.procs[p].pc)
    ensures p < |w'.procs| && w'.procs[p].pc == w.procs[p].pc && w'.lock == 0
  {
    TimedStep(w, l, w', p);
    HolderExcludes(w', p);
  }
}
