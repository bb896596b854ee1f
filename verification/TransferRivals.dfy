/** What becomes of a rival whose size comes in while a transfer is running: the receiver turns it away
    (signals/receiver.c:111-112, signals/sender.c:143-147, 250-261). */
module TransferRivals {
  import opened Options
  import opened TransferSpec
  import opened TransferMachine
  import opened TransferProof
  import opened TransferTheorems

  /** A size that waits at the receiver comes from a sender that waits, has not been turned away and is
      not about to be. */
  ghost predicate MailInOrder(w: World) {
    var r := w.rcv;
    && (forall q :: q in w.senders && q != Accepted(w) && w.senders[q].mail.term.Some? ==>
          w.senders[q].mail.term == Some(Ack(r)) && w.senders[q].pc != Start)
    && (r.mail.usr1.Some? ==>
          var q := r.mail.usr1.value.pid;
          Waits(w, q) && q != Accepted(w) && r.phase != Reject(q))
    && (r.phase.Reject? ==> Waits(w, r.phase.rival))
  }

  predicate Waits(w: World, q: Pid) {
    q in w.senders && w.senders[q].pc == AwaitSizeAck && w.senders[q].mail.term.None?
  }

  lemma ReceiverKeepsOrder(w: World, l: Label, w': World)
    requires Inv(w) && MailInOrder(w) && Step(w, l) == Some(w') && (l.RcvAct? || l.RcvTake?)
    ensures MailInOrder(w')
  {
    if w.rcv.phase != Handshake {
      AcceptedStays(w, l, w');
    }
    hide RecordsOk, AfterUsr2, InStep;
    if l.RcvAct? {
      ActKeepsOrder(w, w');
    }
  }

  lemma ActKeepsOrder(w: World, w': World)
    requires Inv(w) && MailInOrder(w) && RcvActs(w) == Some(w')
    ensures MailInOrder(w')
  {
    hide RecordsOk, InStep;
  }

  lemma SizeKeepsOrder(w: World, p: Pid, refused: bool, w': World)
    requires Inv(w) && MailInOrder(w) && SndSizes(w, p, refused) == Some(w')
    ensures MailInOrder(w')
  {
    assert p != Accepted(w) by {
      hide RecordsOk;
    }
    hide RecordsOk, InStep;
  }

  lemma TakeKeepsOrder(w: World, p: Pid, sig: Sig, w': World)
    requires Inv(w) && MailInOrder(w) && SndTakes(w, p, sig) == Some(w')
    ensures MailInOrder(w')
  {
    hide RecordsOk, InStep;
  }

  lemma DataKeepsOrder(w: World, p: Pid, refused: bool, w': World)
    requires Inv(w) && MailInOrder(w) && SndDatas(w, p, refused) == Some(w')
    ensures MailInOrder(w')
  {
    hide RecordsOk, InStep, Chunk;
  }

  lemma CloseKeepsOrder(w: World, p: Pid, refused: bool, w': World)
    requires Inv(w) && MailInOrder(w) && SndCloses(w, p, refused) == Some(w')
    ensures MailInOrder(w')
  {
    hide RecordsOk, InStep;
  }

  lemma SenderKeepsOrder(w: World, l: Label, w': World)
    requires Inv(w) && MailInOrder(w) && Step(w, l) == Some(w') && !l.RcvAct? && !l.RcvTake?
    ensures MailInOrder(w')
  {
    hide Inv, MailInOrder, SndSizes, SndTakes, SndDatas, SndCloses;
    match l
    case SndSize(p, refused) => SizeKeepsOrder(w, p, refused, w');
    case SndTake(p, sig) => TakeKeepsOrder(w, p, sig, w');
    case SndData(p, refused) => DataKeepsOrder(w, p, refused, w');
    case SndClose(p, refused) => CloseKeepsOrder(w, p, refused, w');
  }

  lemma {:induction false} RunKeepsOrder(ws: seq<World>, ls: seq<Label>, k: nat)
    requires IsRun(ws, ls) && k < |ws|
    ensures MailInOrder(ws[k])
  {
    if k > 0 {
      hide Step, Inv, MailInOrder;
      RunKeepsOrder(ws, ls, k - 1);
      RunKeepsInv(ws, ls, k - 1);
      assert StepAt(ws, ls, k - 1);
      if ls[k - 1].RcvAct? || ls[k - 1].RcvTake? {
        ReceiverKeepsOrder(ws[k - 1], ls[k - 1], ws[k]);
      } else {
        SenderKeepsOrder(ws[k - 1], ls[k - 1], ws[k]);
      }
    }
  }

  // --- A rival ---

  /** The receiver is about to turn q away, or the SIGTERM is on its way, or q has ended by it. */
  predicate TurnedAway(w: World, q: Pid) {
    && w.rcv.phase != Handshake && q in w.senders && q != Accepted(w)
    && (|| w.senders[q].pc == Killed
        || (w.senders[q].pc == AwaitSizeAck &&
            (w.rcv.phase == Reject(q) || w.senders[q].mail.term == Some(Ack(w.rcv)))))
  }

  /** Once the receiver has acted. */
  predicate Told(w: World, q: Pid) {
    && q in w.senders
    && (w.senders[q].pc == Killed ||
        (w.senders[q].pc == AwaitSizeAck && w.senders[q].mail.term == Some(Ack(w.rcv))))
  }

  lemma ReceiverTurnsAway(w: World, l: Label, w': World, q: Pid)
    requires Inv(w) && MailInOrder(w) && Step(w, l) == Some(w') && (l.RcvAct? || l.RcvTake?)
    requires TurnedAway(w, q)
    ensures TurnedAway(w', q) && (l == RcvAct && w.rcv.phase == Reject(q) ==> Told(w', q))
    ensures Told(w, q) ==> Told(w', q)
  {
    AcceptedStays(w, l, w');
    hide RecordsOk, AfterUsr2, InStep;
  }

  lemma SenderTurnsAway(w: World, l: Label, w': World, q: Pid)
    requires Inv(w) && MailInOrder(w) && Step(w, l) == Some(w') && !l.RcvAct? && !l.RcvTake?
    requires TurnedAway(w, q)
    ensures TurnedAway(w', q) && (Told(w, q) ==> Told(w', q))
  {
    hide RecordsOk, InStep;
  }

  lemma SizeComesIn(w: World, w': World)
    requires Inv(w) && MailInOrder(w) && w.rcv.phase == Transfer && Step(w, RcvTake(Usr1)) == Some(w')
    ensures w.rcv.mail.usr1.Some? && TurnedAway(w', w.rcv.mail.usr1.value.pid)
  {
    hide RecordsOk, InStep;
  }

  lemma {:induction false} StaysTurnedAway(ws: seq<World>, ls: seq<Label>, j: nat, k: nat, q: Pid)
    requires IsRun(ws, ls) && j <= k < |ws| && TurnedAway(ws[j], q)
    ensures TurnedAway(ws[k], q) && (Told(ws[j], q) ==> Told(ws[k], q))
    decreases k
  {
    hide Step, Inv, MailInOrder, TurnedAway, Told;
    if k > j {
      StaysTurnedAway(ws, ls, j, k - 1, q);
      RunKeepsInv(ws, ls, k - 1);
      RunKeepsOrder(ws, ls, k - 1);
      assert StepAt(ws, ls, k - 1);
      if ls[k - 1].RcvAct? || ls[k - 1].RcvTake? {
        ReceiverTurnsAway(ws[k - 1], ls[k - 1], ws[k], q);
      } else {
        SenderTurnsAway(ws[k - 1], ls[k - 1], ws[k], q);
      }
    }
  }

  lemma EndOfRival(w: World, q: Pid)
    requires TurnedAway(w, q)
    ensures w.senders[q].pc == Killed || exists l :: Step(w, l).Some?
  {
    if w.senders[q].pc != Killed {
      if w.rcv.phase == Reject(q) {
        assert Step(w, RcvAct).Some?;
      } else {
        assert Step(w, SndTake(q, Term)).Some?;
      }
    }
  }

  /** When the second loop takes a size, its sender q is turned away: it has ended wherever the run can go
      no further, and from the next act of the receiver on it has ended or has the SIGTERM pending. */
  lemma RivalTurnedAway(ws: seq<World>, ls: seq<Label>, j: nat, i: nat, k: nat, q: Pid)
    requires IsRun(ws, ls) && j < i <= k < |ws| && i <= |ls|
    requires ls[j] == RcvTake(Usr1) && ws[j].rcv.phase == Transfer
    requires ws[j].rcv.mail.usr1.Some? && ws[j].rcv.mail.usr1.value.pid == q
    ensures q in ws[k].senders && q != Accepted(ws[k])
    ensures (forall l :: Step(ws[k], l).None?) ==> ws[k].senders[q].pc == Killed
    ensures ls[i - 1] == RcvAct && ws[i - 1].rcv.phase == Reject(q) ==> Told(ws[k], q)
    ensures ws[j + 1].rcv.phase == Reject(q)
  {
    hide Inv, MailInOrder;
    RunKeepsInv(ws, ls, j);
    RunKeepsOrder(ws, ls, j);
    assert StepAt(ws, ls, j);
    SizeComesIn(ws[j], ws[j + 1]);
    StaysTurnedAway(ws, ls, j + 1, k, q);
    EndOfRival(ws[k], q);
    if i - 1 > j && ls[i - 1] == RcvAct && ws[i - 1].rcv.phase == Reject(q) {
      hide Step;
      StaysTurnedAway(ws, ls, j + 1, i - 1, q);
      RunKeepsInv(ws, ls, i - 1);
      RunKeepsOrder(ws, ls, i - 1);
      assert StepAt(ws, ls, i - 1);
      ReceiverTurnsAway(ws[i - 1], ls[i - 1], ws[i], q);
      StaysTurnedAway(ws, ls, i, k, q);
    }
  }
}
