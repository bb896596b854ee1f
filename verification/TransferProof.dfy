/** What every run of the file transfer keeps, whatever the number of rival senders and however
    the processes are scheduled. */
module TransferProof {
  import opened Options
  import opened TransferSpec
  import opened TransferMachine

  /** The accepted sender, or 0. */
  function Accepted(w: World): Pid {
    w.rcv.file.senderPid
  }

  function SizeInfo(p: Pid, s: Sender): Info {
    Info(Queued, p, s.uid, SivalInt(ToInt(|s.src|)))
  }

  function Ack(r: Receiver): Info {
    Info(User, r.pid, r.uid, SivalInt(0))
  }

  /** In the second loop, possibly turning a rival away. */
  predicate Working(phase: Phase) {
    phase == Transfer || phase.Reject?
  }

  predicate WorkingOrFinished(phase: Phase) {
    Working(phase) || phase == Finished
  }

  function WordsIn(n: nat): nat {
    (n + 7) / 8
  }

  /** A sender that has not been accepted never gets past the handshake. */
  predicate RivalOk(r: Receiver, s: Sender) {
    && (s.pc == Start || s.pc == AwaitSizeAck || s.pc == Killed || s.pc == Failed)
    && s.mail.usr1.None? && s.mail.usr2.None?
    && s.index == 0 && s.sent == 0
  }

  /** The two records of the accepted pair. */
  predicate RecordsOk(f: RcvFile, p: Pid, uid: Uid, src: seq<byte>, index: nat, got: nat) {
    && f.senderPid == p && f.senderUid == uid
    && f.size == |src| == |f.buffer| && f.index <= f.size
    && f.buffer[..f.index] == src[..f.index]
    && (f.index % 8 == 0 || f.index == f.size)
    && got == WordsIn(f.index)
    && index <= |src| && index % 8 == 0
  }

  predicate NoData(r: Receiver, s: Sender) {
    r.mail.usr2.None? && s.mail.usr1.None? && s.mail.usr2.None?
  }

  /** After the tail has been queued: no chunk is left for the sender to send. */
  predicate AtTail(s: Sender) {
    s.index + 7 >= |s.src|
  }

  /** Where receiver and accepted sender stand relative to each other. */
  predicate InStep(r: Receiver, p: Pid, s: Sender) {
    var f := r.file;
    match s.pc
    case AwaitSizeAck =>
      && f.index == 0 == s.index && r.mail.usr2.None? && s.mail.usr2.None? && s.sent == 0
      && (if r.phase.AckSize? then s.mail.usr1.None? && r.phase.info.pid == p
          else Working(r.phase) && s.mail.usr1 == Some(Ack(r)))
    case Sending =>
      NoData(r, s) && WorkingOrFinished(r.phase) && s.index == f.index && s.sent == s.index / 8
    case AwaitAck(last) =>
      && s.mail.usr1.None? && (last <==> AtTail(s) && s.sent == s.index / 8 + 1)
      && (!last ==> s.index >= 8 && s.sent == s.index / 8)
      && (if r.phase == AckData then
            NoData(r, s) && f.index == (if last then f.size else s.index) && (last ==> f.size % 8 != 0)
          else if s.mail.usr2.Some? then
            && s.mail.usr2 == Some(Ack(r)) && r.mail.usr2.None? && WorkingOrFinished(r.phase)
            && f.index == (if last then f.size else s.index) && (last ==> f.size % 8 != 0)
          else if f.index < f.size == |s.src| then
            && Working(r.phase)
            && r.mail.usr2 == Some(Info(Queued, p, s.uid, SivalPtr(Chunk(s.src, f.index))))
            && s.index == (if last then f.index else f.index + 8)
          else
            // the receiver already had everything when the sender queued its empty tail
            last && r.mail.usr2.Some? && s.index == f.index && f.size % 8 == 0 && WorkingOrFinished(r.phase))
    case Closing =>
      && NoData(r, s) && WorkingOrFinished(r.phase) && f.index == f.size
      && s.sent == s.index / 8 + 1 && AtTail(s) && f.size % 8 != 0
    case Closed =>
      && NoData(r, s) && WorkingOrFinished(r.phase) && f.index == f.size
      && s.sent == s.index / 8 + 1 && AtTail(s) && f.size % 8 != 0
    case Failed =>
      && NoData(r, s) && r.phase == Finished
      && if f.size % 8 == 0 then s.index == f.index && s.sent == s.index / 8
         else f.index == f.size && s.sent == s.index / 8 + 1 && AtTail(s)
    case _ => false
  }

  /** No rival is in the receiver's way: what waits there as SIGUSR1 or SIGTERM is harmless. */
  ghost predicate MailOk(w: World) {
    var r := w.rcv;
    && (r.mail.usr1.Some? ==>
          var q := r.mail.usr1.value.pid;
          && q in w.senders && q != Accepted(w)
          && r.mail.usr1.value == SizeInfo(q, w.senders[q]) && w.senders[q].pc != Start)
    && (r.mail.term.Some? ==> r.mail.term.value.code == User)
    && (r.phase.Reject? ==> r.phase.rival in w.senders && r.phase.rival != Accepted(w))
    && r.phase != Dead
  }

  ghost predicate Inv(w: World) {
    var r, acc := w.rcv, Accepted(w);
    && r.pid != 0 && 0 !in w.senders && r.pid !in w.senders
    && (forall q :: q in w.senders ==> 0 < |w.senders[q].src| < TWO31)
    && (forall q :: q in w.senders && q != acc ==> RivalOk(r, w.senders[q]))
    && MailOk(w)
    && (if r.phase == Handshake then
          r.file == RcvFile(0, 0, 0, 0, r.file.buffer) && r.mail.usr2.None? && r.got == 0
          && forall q :: q in w.senders ==>
               (w.senders[q].pc == Start || w.senders[q].pc == AwaitSizeAck) && w.senders[q].mail == EMPTY_MAILBOX
        else
          && acc in w.senders && w.senders[acc].mail.term.None?
          && RecordsOk(r.file, acc, w.senders[acc].uid, w.senders[acc].src, w.senders[acc].index, r.got)
          && InStep(r, acc, w.senders[acc])
          && (r.phase == Finished ==> r.file.index == r.file.size))
  }

  lemma InitInv(w: World)
    requires Init(w)
    ensures Inv(w)
  {
  }

  lemma RcvTakesUsr1KeepsInv(w: World)
    requires Inv(w) && RcvTakes(w, Usr1).Some?
    ensures Inv(RcvTakes(w, Usr1).value)
  {
    var r := w.rcv;
    var info := r.mail.usr1.value;
    SizeSurvives(|w.senders[info.pid].src|);
    if r.phase == Handshake {
      assert AfterUsr1(r.file, info).size == |w.senders[info.pid].src|;
    }
  }

  lemma RecordsAdvance(f: RcvFile, p: Pid, uid: Uid, src: seq<byte>, index: nat, got: nat)
    requires RecordsOk(f, p, uid, src, index, got) && f.index < f.size
    ensures var f' := AfterUsr2(f, Info(Queued, p, uid, SivalPtr(Chunk(src, f.index))));
            && RecordsOk(f', p, uid, src, index, got + 1)
            && f'.index == (if f.index + 7 < f.size then f.index + 8 else f.size)
            && f'.size == f.size && f'.senderPid == p
  {
    RoundExtendsPrefix(f, Info(Queued, p, uid, SivalPtr(Chunk(src, f.index))), src);
  }

  lemma RcvTakesUsr2KeepsInv(w: World)
    requires Inv(w) && RcvTakes(w, Usr2).Some?
    ensures Inv(RcvTakes(w, Usr2).value)
  {
    hide AfterUsr2;
    var p, s := Accepted(w), w.senders[Accepted(w)];
    RecordsAdvance(w.rcv.file, p, s.uid, s.src, s.index, w.rcv.got);
  }

  lemma RcvTakesTermKeepsInv(w: World)
    requires Inv(w) && RcvTakes(w, Term).Some?
    ensures Inv(RcvTakes(w, Term).value)
  {
  }

  lemma AckSizeKeepsInv(w: World)
    requires Inv(w) && w.rcv.phase.AckSize?
    ensures Inv(RcvActs(w).value)
  {
    hide RecordsOk;
  }

  lemma AckDataKeepsInv(w: World)
    requires Inv(w) && w.rcv.phase.AckData?
    ensures Inv(RcvActs(w).value)
  {
    hide RecordsOk;
  }

  lemma RejectKeepsInv(w: World)
    requires Inv(w) && w.rcv.phase.Reject?
    ensures Inv(RcvActs(w).value)
  {
    hide RecordsOk;
  }

  lemma FinishKeepsInv(w: World)
    requires Inv(w) && w.rcv.phase == Transfer && RcvActs(w).Some?
    ensures Inv(RcvActs(w).value)
  {
  }

  lemma RcvActsKeepsInv(w: World)
    requires Inv(w) && RcvActs(w).Some?
    ensures Inv(RcvActs(w).value)
  {
    hide Inv;
    match w.rcv.phase
    case AckSize(_) => AckSizeKeepsInv(w);
    case AckData => AckDataKeepsInv(w);
    case Reject(_) => RejectKeepsInv(w);
    case Transfer => FinishKeepsInv(w);
  }

  lemma SndSizesKeepsInv(w: World, p: Pid, refused: bool)
    requires Inv(w) && SndSizes(w, p, refused).Some?
    ensures Inv(SndSizes(w, p, refused).value)
  {
    hide RecordsOk;
  }

  lemma SndDatasKeepsInv(w: World, p: Pid, refused: bool)
    requires Inv(w) && SndDatas(w, p, refused).Some?
    ensures Inv(SndDatas(w, p, refused).value)
    ensures p == Accepted(w)
  {
  }

  lemma RivalTakesKeepsInv(w: World, p: Pid, sig: Sig)
    requires Inv(w) && SndTakes(w, p, sig).Some? && p != Accepted(w)
    ensures Inv(SndTakes(w, p, sig).value)
  {
    hide RecordsOk;
    assert sig == Term;
  }

  lemma AcceptedTakesKeepsInv(w: World, p: Pid, sig: Sig)
    requires Inv(w) && SndTakes(w, p, sig).Some? && p == Accepted(w)
    ensures Inv(SndTakes(w, p, sig).value)
  {
    hide RecordsOk;
    assert sig != Term;
  }

  lemma SndTakesKeepsInv(w: World, p: Pid, sig: Sig)
    requires Inv(w) && SndTakes(w, p, sig).Some?
    ensures Inv(SndTakes(w, p, sig).value)
  {
    hide Inv;
    hide SndTakes;
    if p == Accepted(w) {
      AcceptedTakesKeepsInv(w, p, sig);
    } else {
      RivalTakesKeepsInv(w, p, sig);
    }
  }

  lemma SndClosesKeepsInv(w: World, p: Pid, refused: bool)
    requires Inv(w) && SndCloses(w, p, refused).Some?
    ensures Inv(SndCloses(w, p, refused).value)
  {
    hide RecordsOk;
  }

  lemma StepKeepsInv(w: World, l: Label, w': World)
    requires Inv(w) && Step(w, l) == Some(w')
    ensures Inv(w')
  {
    hide Inv;
    hide RcvTakes;
    hide RcvActs;
    hide SndSizes;
    hide SndDatas;
    hide SndTakes;
    hide SndCloses;
    match l
    case RcvTake(Usr1) => RcvTakesUsr1KeepsInv(w);
    case RcvTake(Usr2) => RcvTakesUsr2KeepsInv(w);
    case RcvTake(Term) => RcvTakesTermKeepsInv(w);
    case RcvAct => RcvActsKeepsInv(w);
    case SndSize(p, refused) => SndSizesKeepsInv(w, p, refused);
    case SndData(p, refused) => SndDatasKeepsInv(w, p, refused);
    case SndTake(p, sig) => SndTakesKeepsInv(w, p, sig);
    case SndClose(p, refused) => SndClosesKeepsInv(w, p, refused);
  }
}
