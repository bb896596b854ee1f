/** What every run of the shared stack keeps, whatever mix of wait modes the processes use:
    mutual exclusion, conservation of tokens, and slot indices inside the shared segment. */
module StackSafety {
  import opened StackSpec
  import opened StackMachine

  /** 1 from the acquisition of sem 0 to its release. */
  function Holds(p: Proc): int {
    match p.pc
    case PushCheck(_) | PushFail | PushIndex(_) | PushStore(_, _) | PushCount(_) | PushTake | PushUnlock => 1
    case PushWaitUnlock(_) | PushWaitIndex(_) | PushWaitStore(_, _) | PushWaitCount => 1
    case PushTimedUnlock(_) | PushTimedCheck(_) | PushTimedRelock(_) => 1
    case PushTimedIndex(_) | PushTimedStore(_, _) | PushTimedTake | PushTimedCount => 1
    case PopCheck | PopFail | PopTake | PopFree | PopReadIndex | PopRead(_) => 1
    case PopPoisonIndex(_) | PopPoison(_, _) | PopUnlock(_) => 1
    case PopWaitUnlock | PopTimedUnlock | PopTimedCheck | PopTimedRelock | PopTimedTake => 1
    case SetWaitWrite(_) | SetWaitUnlock => 1
    case _ => 0
  }

  /** Slots that a process has taken from one semaphore and not yet given to the other;
      a fast pusher raises sem 1 before it lowers sem 2, so in between it is one in debt. */
  function Token(p: Proc): int {
    match p.pc
    case PushTake => -1
    case PushWaitLock(_) | PushWaitIndex(_) | PushWaitStore(_, _) | PushWaitCount | PushTimedCount => 1
    case PopFree | PopWaitLock => 1
    case _ => 0
  }

  function Sum(procs: seq<Proc>, f: Proc -> int): int {
    if |procs| == 0 then 0 else Sum(procs[..|procs| - 1], f) + f(procs[|procs| - 1])
  }

  lemma {:induction false} SumUpdate(procs: seq<Proc>, f: Proc -> int, p: nat, q: Proc)
    requires p < |procs|
    ensures Sum(procs[p := q], f) == Sum(procs, f) - f(procs[p]) + f(q)
  {
    var n := |procs| - 1;
    if p == n {
      assert procs[p := q][..n] == procs[..n];
    } else {
      assert procs[p := q][..n] == procs[..n][p := q];
      SumUpdate(procs[..n], f, p, q);
    }
  }

  lemma {:induction false} SumNonNegative(procs: seq<Proc>, f: Proc -> int)
    requires forall k :: 0 <= k < |procs| ==> f(procs[k]) >= 0
    ensures Sum(procs, f) >= 0
    ensures Sum(procs, f) == 0 ==> forall k :: 0 <= k < |procs| ==> f(procs[k]) == 0
  {
    if |procs| > 0 {
      SumNonNegative(procs[..|procs| - 1], f);
      assert forall k :: 0 <= k < |procs| - 1 ==> procs[..|procs| - 1][k] == procs[k];
    }
  }

  /** A lock holder excludes every other one, and the debt of at most one fast pusher is its own. */
  lemma HolderIsAlone(procs: seq<Proc>, p: nat)
    requires p < |procs| && Holds(procs[p]) == 1 && Sum(procs, Holds) <= 1
    ensures forall q :: 0 <= q < |procs| && q != p ==> Holds(procs[q]) == 0
    ensures Sum(procs, Token) >= Token(procs[p])
  {
    var away := Proc(NoWait, Idle);
    var others := procs[p := away];
    SumUpdate(procs, Holds, p, away);
    SumUpdate(procs, Token, p, away);
    SumNonNegative(others, Holds);
    assert forall q :: 0 <= q < |procs| && q != p ==> others[q] == procs[q];
    SumNonNegative(others, Token);
  }

  /** What a process may rely on where it stands. The steps behind a second acquisition of
      sem 0 by its holder are never reached. */
  predicate PcOk(w: World, pc: Pc) {
    match pc
    case PushIndex(_) | PushCount(_) | PushWaitIndex(_) | PushWaitCount | PopReadIndex | PopPoisonIndex(_) =>
      w.count < w.size
    case PushStore(_, i) => i < w.size && w.count < w.size
    case PushWaitStore(_, i) => i < w.size && w.count < w.size
    case PopRead(i) => i < w.size && w.count < w.size
    case PopPoison(_, i) => i < w.size && w.count < w.size
    case PushTake => w.count <= w.size && w.empty <= w.size
    case PushTimedIndex(_) | PushTimedStore(_, _) | PushTimedTake | PushTimedCount | PopTimedTake => false
    case _ => true
  }

  ghost predicate Inv(w: World) {
    && |w.slots| == w.size
    && w.lock + Sum(w.procs, Holds) == 1
    && w.count + w.empty + Sum(w.procs, Token) == w.size
    && forall q :: 0 <= q < |w.procs| ==> PcOk(w, w.procs[q].pc)
  }

  lemma InitInv(size: nat)
    ensures Inv(Init(size))
  {
  }

  /** A change of one process's program counter moves the two sums by that process alone. */
  lemma GotoSums(w: World, p: nat, q: Proc)
    requires p < |w.procs|
    ensures Sum(w.procs[p := q], Holds) == Sum(w.procs, Holds) - Holds(w.procs[p]) + Holds(q)
    ensures Sum(w.procs[p := q], Token) == Sum(w.procs, Token) - Token(w.procs[p]) + Token(q)
  {
    SumUpdate(w.procs, Holds, p, q);
    SumUpdate(w.procs, Token, p, q);
  }

  /** What one step of p does to the semaphores: sem 0 moves against p's hold, sem 1 plus sem 2
      against p's token, and only the lock holder ever raises sem 1 or sem 2 or writes a slot. */
  ghost predicate Moves(w: World, p: nat, w': World)
    requires p < |w.procs|
  {
    && |w'.procs| == |w.procs| && w'.procs == w.procs[p := w'.procs[p]]
    && |w'.slots| == |w.slots| && w'.size == w.size
    && w'.lock + Holds(w'.procs[p]) == w.lock + Holds(w.procs[p])
    && w'.count + w'.empty + Token(w'.procs[p]) == w.count + w.empty + Token(w.procs[p])
    && (Holds(w.procs[p]) == 0 ==> w'.count <= w.count && w'.empty <= w.empty && w'.slots == w.slots)
  }

  lemma PushMoves(w: World, p: nat)
    requires p < |w.procs| && PushStep(w, p).Stepped?
    requires Holds(w.procs[p]) == 1 ==> w.lock == 0
    ensures Moves(w, p, PushStep(w, p).w)
  {
  }

  lemma PopMoves(w: World, p: nat)
    requires p < |w.procs| && PopStep(w, p).Stepped?
    requires Holds(w.procs[p]) == 1 ==> w.lock == 0
    ensures Moves(w, p, PopStep(w, p).w)
  {
  }

  lemma StepMoves(w: World, p: nat)
    requires p < |w.procs| && Step(w, p).Stepped?
    requires Holds(w.procs[p]) == 1 ==> w.lock == 0
    ensures Moves(w, p, Step(w, p).w)
  {
    hide PushStep;
    hide PopStep;
    if InPush(w.procs[p].pc) {
      PushMoves(w, p);
    } else if PopStep(w, p).Stepped? {
      PopMoves(w, p);
    }
  }

  /** p arrives where it may rely on PcOk. The sums of tokens before and after are t and t'. */
  lemma StepArrives(w: World, p: nat, t: int, t': int)
    requires p < |w.procs| && Step(w, p).Stepped? && PcOk(w, w.procs[p].pc)
    requires w.count + w.empty + t == w.size && t' - t == Token(Step(w, p).w.procs[p]) - Token(w.procs[p])
    requires Holds(w.procs[p]) == 1 ==> w.lock == 0 && t >= Token(w.procs[p])
    requires Holds(Step(w, p).w.procs[p]) == 1 ==> t' >= Token(Step(w, p).w.procs[p])
    ensures PcOk(Step(w, p).w, Step(w, p).w.procs[p].pc)
  {
  }

  lemma NoFault(w: World, p: nat)
    requires p < |w.procs| && |w.slots| == w.size && PcOk(w, w.procs[p].pc)
    ensures Step(w, p) != Fault
  {
  }

  /** A step of p never faults, and it keeps the invariant. */
  lemma StepKeepsInv(w: World, p: nat)
    requires Inv(w) && p < |w.procs|
    ensures Step(w, p) != Fault
    ensures Step(w, p).Stepped? ==> Inv(Step(w, p).w) && Step(w, p).w.size == w.size
  {
    hide PushStep;
    hide PopStep;
    assert PcOk(w, w.procs[p].pc);
    NoFault(w, p);
    if Step(w, p).Stepped? {
      var w' := Step(w, p).w;
      SumNonNegative(w.procs, Holds);
      if Holds(w.procs[p]) == 1 {
        HolderIsAlone(w.procs, p);
      }
      StepMoves(w, p);
      GotoSums(w, p, w'.procs[p]);
      SumNonNegative(w'.procs, Holds);
      if Holds(w'.procs[p]) == 1 {
        HolderIsAlone(w'.procs, p);
      }
      StepArrives(w, p, Sum(w.procs, Token), Sum(w'.procs, Token));
      OthersKeepPcOk(w, p);
    }
  }

  lemma OthersKeepPcOk(w: World, p: nat)
    requires Inv(w) && p < |w.procs| && Step(w, p).Stepped?
    ensures forall q :: 0 <= q < |w.procs| && q != p ==> PcOk(Step(w, p).w, w.procs[q].pc)
  {
    hide PushStep;
    hide PopStep;
    var w' := Step(w, p).w;
    if Holds(w.procs[p]) == 1 {
      SumNonNegative(w.procs, Holds);
      HolderIsAlone(w.procs, p);
    }
    StepMoves(w, p);
    forall q | 0 <= q < |w.procs| && q != p
      ensures PcOk(w', w.procs[q].pc)
    {
      assert PcOk(w, w.procs[q].pc);
    }
  }

  lemma AttachKeepsInv(w: World, w': World)
    requires Inv(w) && w' == w.(procs := w.procs + [Proc(NoWait, Idle)])
    ensures Inv(w')
  {
    assert w'.procs[..|w.procs|] == w.procs;
  }

  lemma OutsideKeepsInv(w: World, p: nat, pc: Pc)
    requires Inv(w) && p < |w.procs| && PcOk(w, pc)
    requires forall wait :: Holds(Proc(wait, pc)) == 0 && Token(Proc(wait, pc)) == 0
    requires Holds(w.procs[p]) == 0 && Token(w.procs[p]) == 0
    ensures Inv(Goto(w, p, pc))
  {
    GotoSums(w, p, w.procs[p].(pc := pc));
  }

  lemma NextKeepsInv(w: World, l: Label, w': World)
    requires Inv(w) && Next(w, l, w')
    ensures Inv(w') && w'.size == w.size
  {
    hide Step, Inv;
    match l
    case Attach => AttachKeepsInv(w, w');
    case Call(p, op) => OutsideKeepsInv(w, p, Entry(op));
    case Internal(p) => StepKeepsInv(w, p);
    case Return(p, r) => OutsideKeepsInv(w, p, Idle);
  }

  lemma {:induction false} RunKeepsInv(size: nat, ws: seq<World>, ls: seq<Label>, k: nat)
    requires IsRun(size, ws, ls) && k < |ws|
    ensures Inv(ws[k]) && ws[k].size == size
  {
    hide Next;
    if k == 0 {
      InitInv(size);
    } else {
      RunKeepsInv(size, ws, ls, k - 1);
      assert StepAt(ws, ls, k - 1);
      NextKeepsInv(ws[k - 1], ls[k - 1], ws[k]);
    }
  }

  // --- The theorems ---

  /** Mutual exclusion, in every world of every run and in every mix of wait modes. */
  lemma MutualExclusion(size: nat, ws: seq<World>, ls: seq<Label>, k: nat, p: nat, q: nat)
    requires IsRun(size, ws, ls) && k < |ws| && p < |ws[k].procs| && q < |ws[k].procs|
    ensures ws[k].lock + Sum(ws[k].procs, Holds) == 1
    ensures Holds(ws[k].procs[p]) == 1 && Holds(ws[k].procs[q]) == 1 ==> p == q
    ensures Holds(ws[k].procs[p]) == 1 ==> ws[k].lock == 0
  {
    hide Next;
    RunKeepsInv(size, ws, ls, k);
    SumNonNegative(ws[k].procs, Holds);
    if Holds(ws[k].procs[p]) == 1 {
      HolderIsAlone(ws[k].procs, p);
    }
  }

  /** Used, free and in-flight slots always add up to the size. No slot access of any process
      leaves the segment, and no semaphore passes the size (so semop never meets its upper limit). */
  lemma TokensConserved(size: nat, ws: seq<World>, ls: seq<Label>, k: nat)
    requires IsRun(size, ws, ls) && k < |ws|
    ensures ws[k].count + ws[k].empty + Sum(ws[k].procs, Token) == size
    ensures ws[k].count <= size && ws[k].empty <= size && ws[k].lock <= 1
    ensures forall p :: 0 <= p < |ws[k].procs| ==> Step(ws[k], p) != Fault
  {
    hide Next;
    var w := ws[k];
    RunKeepsInv(size, ws, ls, k);
    SumNonNegative(w.procs, Holds);
    forall p | 0 <= p < |w.procs| ensures Step(w, p) != Fault {
      StepKeepsInv(w, p);
    }
    if exists p :: 0 <= p < |w.procs| && w.procs[p].pc == PushTake {
      var p :| 0 <= p < |w.procs| && w.procs[p].pc == PushTake;
      assert PcOk(w, w.procs[p].pc);
    } else {
      SumNonNegative(w.procs, Token);
    }
  }
}
