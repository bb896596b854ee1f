/** The promises of the file transfer, for every run. */
module TransferTheorems {
  import opened Options
  import opened TransferSpec
  import opened TransferMachine
  import opened TransferProof

  lemma {:induction false} RunKeepsInv(ws: seq<World>, ls: seq<Label>, k: nat)
    requires IsRun(ws, ls) && k < |ws|
    ensures Inv(ws[k])
  {
    hide Step;
    hide Inv;
    if k == 0 {
      InitInv(ws[0]);
    } else {
      RunKeepsInv(ws, ls, k - 1);
      assert StepAt(ws, ls, k - 1);
      StepKeepsInv(ws[k - 1], ls[k - 1], ws[k]);
    }
  }

  /** Exact transfer: at every moment the destination agrees with the accepted sender's file below
      the receiver's index, and when the receive loop has ended it is that file, tail included. */
  lemma ExactTransfer(ws: seq<World>, ls: seq<Label>, k: nat)
    requires IsRun(ws, ls) && k < |ws| && ws[k].rcv.phase != Handshake
    ensures var f := ws[k].rcv.file;
            && f.senderPid in ws[k].senders
            && var src := ws[k].senders[f.senderPid].src;
               && f.size == |src| == |f.buffer| && f.index <= f.size
               && f.buffer[..f.index] == src[..f.index]
               && (ws[k].rcv.phase == Finished ==> f.buffer == src)
  {
    RunKeepsInv(ws, ls, k);
  }

  /** Signals between the accepted pair that have been sent and not yet taken. */
  function Outstanding(w: World): nat {
    (if w.rcv.mail.usr2.Some? then 1 else 0)
    + (if Accepted(w) in w.senders && w.senders[Accepted(w)].mail.usr1.Some? then 1 else 0)
    + (if Accepted(w) in w.senders && w.senders[Accepted(w)].mail.usr2.Some? then 1 else 0)
  }

  /** No data signal and no acknowledgement ever finds its slot taken, and at most one is on its way. */
  lemma NothingDropped(ws: seq<World>, ls: seq<Label>, k: nat)
    requires IsRun(ws, ls) && k < |ls|
    ensures Outstanding(ws[k]) <= 1
    ensures ls[k].SndData? && !ls[k].refused ==>
              ws[k].rcv.mail.usr2.None? && ws[k + 1].rcv.mail.usr2.Some?
    ensures ls[k].RcvAct? && ws[k].rcv.phase.AckSize? ==>
              Accepted(ws[k]) in ws[k].senders && Accepted(ws[k]) in ws[k + 1].senders &&
              ws[k].senders[Accepted(ws[k])].mail.usr1.None? && ws[k + 1].senders[Accepted(ws[k])].mail.usr1.Some?
    ensures ls[k].RcvAct? && ws[k].rcv.phase == AckData ==>
              Accepted(ws[k]) in ws[k].senders && Accepted(ws[k]) in ws[k + 1].senders &&
              ws[k].senders[Accepted(ws[k])].mail.usr2.None? && ws[k + 1].senders[Accepted(ws[k])].mail.usr2.Some?
  {
    hide RecordsOk;
    RunKeepsInv(ws, ls, k);
    assert StepAt(ws, ls, k);
    if ls[k].SndData? {
      SndDatasKeepsInv(ws[k], ls[k].p, ls[k].refused);
    }
  }

  lemma AcceptedStays(w: World, l: Label, w': World)
    requires Inv(w) && Step(w, l) == Some(w') && w.rcv.phase != Handshake
    ensures Accepted(w') == Accepted(w) && w'.rcv.phase != Handshake
    ensures w'.rcv.file.size == w.rcv.file.size
  {
    hide RecordsOk;
    hide InStep;
  }

  lemma {:induction false} SessionStays(ws: seq<World>, ls: seq<Label>, j: nat, k: nat)
    requires IsRun(ws, ls) && j <= k < |ws| && ws[j].rcv.phase != Handshake
    ensures Accepted(ws[k]) == Accepted(ws[j]) && ws[k].rcv.phase != Handshake
    ensures ws[k].rcv.file.size == ws[j].rcv.file.size
    decreases k
  {
    hide Step;
    hide Inv;
    if k > j {
      SessionStays(ws, ls, j, k - 1);
      RunKeepsInv(ws, ls, k - 1);
      assert StepAt(ws, ls, k - 1);
      AcceptedStays(ws[k - 1], ls[k - 1], ws[k]);
    }
  }

  /** One session: once a sender is accepted it stays the accepted one. Only it ever has the
      acknowledgement of its size, sends data, or gets past the handshake; the receiver's SIGTERM
      never reaches it; and the first receive loop never consumes a data signal. */
  lemma SingleSession(ws: seq<World>, ls: seq<Label>, j: nat, k: nat, q: Pid)
    requires IsRun(ws, ls) && j <= k < |ws| && q in ws[k].senders
    ensures ws[j].rcv.phase != Handshake ==> Accepted(ws[k]) == Accepted(ws[j])
    ensures q != Accepted(ws[k]) ==>
              && ws[k].senders[q].mail.usr1.None? && ws[k].senders[q].sent == 0
              && ws[k].senders[q].pc in {Start, AwaitSizeAck, Killed, Failed}
    ensures q == Accepted(ws[k]) ==> ws[k].senders[q].mail.term.None? && ws[k].senders[q].pc != Killed
    ensures k < |ls| && ls[k] == RcvTake(Usr2) ==> ws[k].rcv.phase == Transfer
    ensures k < |ls| && ls[k].SndData? ==> ls[k].p == Accepted(ws[k])
  {
    hide RecordsOk;
    hide RcvActs;
    hide SndSizes;
    hide SndTakes;
    hide SndCloses;
    if ws[j].rcv.phase != Handshake {
      SessionStays(ws, ls, j, k);
    }
    RunKeepsInv(ws, ls, k);
    if k < |ls| {
      assert StepAt(ws, ls, k);
    }
  }

  /** Message counts: at most size/8 + 1 data signals are sent and exactly ceil(size/8) consumed. When
      the size is not a multiple of 8 a sender that is done has sent as many as were consumed; when
      it is one, the receiver had everything before the sender's last, empty, signal. */
  lemma MessageCounts(ws: seq<World>, ls: seq<Label>, k: nat)
    requires IsRun(ws, ls) && k < |ws| && ws[k].rcv.phase != Handshake
    ensures Accepted(ws[k]) in ws[k].senders
    ensures var r, s := ws[k].rcv, ws[k].senders[Accepted(ws[k])];
            && s.sent <= |s.src| / 8 + 1
            && r.got == WordsIn(r.file.index) <= WordsIn(|s.src|)
            && (r.phase == Finished ==> r.got == WordsIn(|s.src|))
            && (s.pc == Closed ==> |s.src| % 8 != 0)
            && (s.pc == Closed || (s.pc == Failed && |s.src| % 8 != 0) ==> s.sent == r.got == WordsIn(|s.src|))
            && (|s.src| % 8 == 0 && s.sent == |s.src| / 8 + 1 ==> r.file.index == r.file.size)
  {
    RunKeepsInv(ws, ls, k);
  }

  // --- Termination ---

  /** How many steps the accepted pair still takes. */
  function Measure(w: World): int {
    if Accepted(w) !in w.senders then 0
    else
      var s := w.senders[Accepted(w)];
      var ahead := 4 * ((|s.src| - s.index) / 8) + 6;
      (if w.rcv.phase == Finished then 0 else 1) +
      match s.pc
      case AwaitSizeAck => ahead + (if w.rcv.phase.AckSize? then 2 else 1)
      case Sending => ahead
      case AwaitAck(last) =>
        (if last then 2 else ahead) + (if w.rcv.phase == AckData then 2 else if s.mail.usr2.Some? then 1 else 3)
      case Closing => 1
      case _ => 0
  }

  /** Steps of the accepted pair on its own business; the others serve rivals. */
  predicate InSession(w: World, l: Label) {
    match l
    case RcvTake(sig) => sig == Usr2
    case RcvAct => !w.rcv.phase.Reject?
    case SndSize(p, _) => p == Accepted(w)
    case SndData(p, _) => p == Accepted(w)
    case SndTake(p, _) => p == Accepted(w)
    case SndClose(p, _) => p == Accepted(w)
  }

  lemma MeasureBounds(w: World)
    requires Inv(w) && w.rcv.phase != Handshake
    ensures 0 <= Measure(w) <= 4 * (w.rcv.file.size / 8) + 9
  {
  }

  lemma MeasureFalls(w: World, l: Label, w': World)
    requires Inv(w) && Step(w, l) == Some(w') && w.rcv.phase != Handshake
    ensures 0 <= Measure(w) <= 4 * (w.rcv.file.size / 8) + 9
    ensures if InSession(w, l) then Measure(w') < Measure(w) else Measure(w') == Measure(w)
  {
    if l.RcvAct? || l.RcvTake? {
      ReceiverMeasure(w, l, w');
    } else {
      SenderMeasure(w, l, w');
    }
  }

  lemma ReceiverMeasure(w: World, l: Label, w': World)
    requires Inv(w) && Step(w, l) == Some(w') && w.rcv.phase != Handshake && (l.RcvAct? || l.RcvTake?)
    ensures 0 <= Measure(w) <= 4 * (w.rcv.file.size / 8) + 9
    ensures if InSession(w, l) then Measure(w') < Measure(w) else Measure(w') == Measure(w)
  {
    hide Measure;
    MeasureBounds(w);
    if l.RcvAct? {
      ActMeasure(w, w');
    } else {
      RcvTakeMeasure(w, l.sig, w');
    }
  }

  lemma ActMeasure(w: World, w': World)
    requires Inv(w) && RcvActs(w) == Some(w') && w.rcv.phase != Handshake
    ensures if !w.rcv.phase.Reject? then Measure(w') < Measure(w) else Measure(w') == Measure(w)
  {
  }

  lemma RcvTakeMeasure(w: World, sig: Sig, w': World)
    requires Inv(w) && RcvTakes(w, sig) == Some(w') && w.rcv.phase != Handshake
    ensures if sig == Usr2 then Measure(w') < Measure(w) else Measure(w') == Measure(w)
  {
  }

  lemma SenderMeasure(w: World, l: Label, w': World)
    requires Inv(w) && Step(w, l) == Some(w') && w.rcv.phase != Handshake && !l.RcvAct? && !l.RcvTake?
    ensures 0 <= Measure(w) <= 4 * (w.rcv.file.size / 8) + 9
    ensures if InSession(w, l) then Measure(w') < Measure(w) else Measure(w') == Measure(w)
  {
    hide Measure;
    MeasureBounds(w);
    if l.p != Accepted(w) {
      RivalMeasure(w, l, w');
    } else if l.SndTake? {
      TakeMeasure(w, l.p, l.sig);
    } else {
      SendMeasure(w, l, w');
    }
  }

  lemma RivalMeasure(w: World, l: Label, w': World)
    requires Inv(w) && Step(w, l) == Some(w') && w.rcv.phase != Handshake && !l.RcvAct? && !l.RcvTake?
    requires l.p != Accepted(w)
    ensures Measure(w') == Measure(w)
  {
    hide RecordsOk;
    hide InStep;
  }

  lemma TakeMeasure(w: World, p: Pid, sig: Sig)
    requires Inv(w) && SndTakes(w, p, sig).Some? && w.rcv.phase != Handshake && p == Accepted(w)
    ensures Measure(SndTakes(w, p, sig).value) < Measure(w)
  {
  }

  lemma SendMeasure(w: World, l: Label, w': World)
    requires Inv(w) && Step(w, l) == Some(w') && w.rcv.phase != Handshake
    requires l.SndSize? || l.SndData? || l.SndClose?
    requires l.p == Accepted(w)
    ensures Measure(w') < Measure(w)
  {
  }

  function SessionSteps(ws: seq<World>, ls: seq<Label>, j: nat, k: nat): nat
    requires |ws| == |ls| + 1 && j <= k < |ws|
  {
    if k == j then 0 else SessionSteps(ws, ls, j, k - 1) + if InSession(ws[k - 1], ls[k - 1]) then 1 else 0
  }

  lemma {:induction false} SessionStepsUseMeasure(ws: seq<World>, ls: seq<Label>, j: nat, k: nat)
    requires IsRun(ws, ls) && j <= k < |ws| && ws[j].rcv.phase != Handshake
    ensures SessionSteps(ws, ls, j, k) + Measure(ws[k]) <= Measure(ws[j])
    decreases k
  {
    hide Step;
    hide Inv;
    hide Measure;
    if k > j {
      SessionStepsUseMeasure(ws, ls, j, k - 1);
      SessionStays(ws, ls, j, k - 1);
      RunKeepsInv(ws, ls, k - 1);
      assert StepAt(ws, ls, k - 1);
      MeasureFalls(ws[k - 1], ls[k - 1], ws[k]);
    }
  }

  /** After the handshake the accepted pair takes at most 4 (size/8) + 9 steps, in any schedule. */
  lemma SessionTerminates(ws: seq<World>, ls: seq<Label>, j: nat, k: nat)
    requires IsRun(ws, ls) && j <= k < |ws| && ws[j].rcv.phase != Handshake
    ensures SessionSteps(ws, ls, j, k) <= 4 * (ws[j].rcv.file.size / 8) + 9
  {
    hide Step;
    hide Inv;
    hide Measure;
    SessionStepsUseMeasure(ws, ls, j, k);
    SessionStays(ws, ls, j, k);
    RunKeepsInv(ws, ls, j);
    RunKeepsInv(ws, ls, k);
    MeasureBounds(ws[j]);
    MeasureBounds(ws[k]);
  }

  /** The receiver is never stuck with an unfinished file: it, or its sender, can go on. */
  lemma SessionNeverStuck(ws: seq<World>, ls: seq<Label>, k: nat)
    requires IsRun(ws, ls) && k < |ws| && ws[k].rcv.phase != Handshake
    requires ws[k].rcv.phase != Finished
    ensures exists l :: Step(ws[k], l).Some? && (InSession(ws[k], l) || (l == RcvAct && ws[k].rcv.phase.Reject?))
  {
    hide Step;
    RunKeepsInv(ws, ls, k);
    CanGoOn(ws[k]);
  }

  lemma RecordsHere(w: World)
    requires Inv(w) && w.rcv.phase != Handshake
    ensures w.rcv.file.index <= w.rcv.file.size == |w.rcv.file.buffer|
    ensures w.senders[Accepted(w)].index <= |w.senders[Accepted(w)].src|
  {
  }

  lemma CanGoOn(w: World)
    requires Inv(w) && w.rcv.phase != Handshake && w.rcv.phase != Finished
    ensures exists l :: Step(w, l).Some? && (InSession(w, l) || (l == RcvAct && w.rcv.phase.Reject?))
  {
    RecordsHere(w);
    var p := Accepted(w);
    var s := w.senders[p];
    if w.rcv.phase != Transfer || w.rcv.file.index == w.rcv.file.size {
      assert Step(w, RcvAct).Some?;
    } else if s.pc == Sending {
      assert Step(w, SndData(p, false)).Some?;
    } else if s.pc == AwaitSizeAck {
      assert Step(w, SndTake(p, Usr1)).Some?;
    } else if s.mail.usr2.Some? {
      assert Step(w, SndTake(p, Usr2)).Some?;
    } else {
      assert Step(w, RcvTake(Usr2)).Some?;
    }
  }

  /** Where a run that accepted a sender can end: the receiver is done and holds the whole file. When
      the size is not a multiple of 8 the sender has sent it all, and is done unless the receiver was gone
      before the final SIGTERM, which makes it exit with a failure; when it is, the sender is refused or
      waits for an acknowledgement of its empty tail. */
  lemma RunsEndComplete(ws: seq<World>, ls: seq<Label>, k: nat)
    requires IsRun(ws, ls) && k < |ws| && ws[k].rcv.phase != Handshake
    requires forall l :: Step(ws[k], l).None?
    ensures ws[k].rcv.phase == Finished && Accepted(ws[k]) in ws[k].senders
    ensures var s := ws[k].senders[Accepted(ws[k])];
            && ws[k].rcv.file.buffer == s.src
            && (if |s.src| % 8 != 0 then s.pc == Closed || (s.pc == Failed && s.sent == WordsIn(|s.src|))
                else s.pc == Failed || s.pc == AwaitAck(true))
  {
    hide Step;
    var w := ws[k];
    RunKeepsInv(ws, ls, k);
    if w.rcv.phase != Finished {
      CanGoOn(w);
    } else {
      SenderEnds(w);
    }
  }

  lemma SenderEnds(w: World)
    requires Inv(w) && w.rcv.phase == Finished && (forall l :: Step(w, l).None?)
    ensures var s := w.senders[Accepted(w)];
            if |s.src| % 8 != 0 then s.pc == Closed || (s.pc == Failed && s.sent == WordsIn(|s.src|))
            else s.pc == Failed || s.pc == AwaitAck(true)
  {
    var p := Accepted(w);
    assert Step(w, SndData(p, false)).None? && Step(w, SndTake(p, Usr2)).None? && Step(w, SndClose(p, false)).None?;
    RecordsHere(w);
  }
}
