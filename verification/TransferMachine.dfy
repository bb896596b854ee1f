/** The receiver and any number of senders as a transition system. Standard signals are not
    queued (section 2.4.1 of POSIX.1-2017 System Interfaces): each process has one pending slot
    for each signal number, and a second instance of a pending signal is dropped. */
module TransferMachine {
  import opened Options
  import opened TransferSpec

  datatype Sig = Usr1 | Usr2 | Term

  datatype Mailbox = Mailbox(usr1: Option<Info>, usr2: Option<Info>, term: Option<Info>)

  const EMPTY_MAILBOX := Mailbox(None, None, None)

  function Pending(m: Mailbox, sig: Sig): Option<Info> {
    match sig
    case Usr1 => m.usr1
    case Usr2 => m.usr2
    case Term => m.term
  }

  function SetSlot(m: Mailbox, sig: Sig, slot: Option<Info>): Mailbox {
    match sig
    case Usr1 => m.(usr1 := slot)
    case Usr2 => m.(usr2 := slot)
    case Term => m.(term := slot)
  }

  /** Sending a signal that is already pending changes nothing. */
  function Post(m: Mailbox, sig: Sig, info: Info): Mailbox {
    if Pending(m, sig).None? then SetSlot(m, sig, Some(info)) else m
  }

  /** Where the receiver stands: in the first loop; about to acknowledge or to leave that loop;
      in the second loop; about to acknowledge data; about to turn a rival away; at an end. */
  datatype Phase = Handshake | AckSize(info: Info) | Transfer | AckData | Reject(rival: Pid) | Finished | Dead

  datatype Receiver = Receiver(pid: Pid, uid: Uid, phase: Phase, file: RcvFile, mail: Mailbox, got: nat)

  /** Where a sender stands: before send_size, in its wait, at the top of send_data's loop, in the
      wait after a chunk or after the tail, before the final kill; done, killed, or ended by a signal
      that the kernel refused. */
  datatype SenderPc = Start | AwaitSizeAck | Sending | AwaitAck(last: bool) | Closing | Closed | Killed | Failed

  datatype Sender = Sender(uid: Uid, src: seq<byte>, pc: SenderPc, index: nat, mail: Mailbox, sent: nat)

  datatype World = World(rcv: Receiver, senders: map<Pid, Sender>)

  predicate Gone(r: Receiver) {
    r.phase == Finished || r.phase == Dead
  }

  function ToReceiver(w: World, sig: Sig, info: Info): World {
    w.(rcv := w.rcv.(mail := Post(w.rcv.mail, sig, info)))
  }

  /** kill from the receiver. */
  function KillSender(w: World, p: Pid, sig: Sig): World {
    if p in w.senders then
      var s := w.senders[p];
      w.(senders := w.senders[p := s.(mail := Post(s.mail, sig, Info(User, w.rcv.pid, w.rcv.uid, SivalInt(0))))])
    else w
  }

  function SetSender(w: World, p: Pid, s: Sender): World {
    w.(senders := w.senders[p := s])
  }

  function SetPhase(w: World, phase: Phase): World {
    w.(rcv := w.rcv.(phase := phase))
  }

  /** Steps. Take is sigwaitinfo together with the handler; refused says that the kernel no longer
      found the receiver. */
  datatype Label =
    | RcvTake(sig: Sig)
    | RcvAct
    | SndSize(p: Pid, refused: bool)
    | SndData(p: Pid, refused: bool)
    | SndTake(p: Pid, sig: Sig)
    | SndClose(p: Pid, refused: bool)

  /** handler_TERM of the receiver ends it only for a queued signal of the accepted sender. */
  function AfterRcvTerm(w: World, info: Info): World {
    if FromSender(w.rcv.file, info) then SetPhase(w, Dead) else w
  }

  /** One turn of the receiver's loops up to the switch (:83, :103) and its handler. */
  function RcvTakes(w: World, sig: Sig): Option<World> {
    var r := w.rcv;
    if Pending(r.mail, sig).None? then None
    else if !(r.phase == Handshake || (r.phase == Transfer && r.file.size != r.file.index)) then None
    else
      var info := Pending(r.mail, sig).value;
      var w1 := w.(rcv := r.(mail := SetSlot(r.mail, sig, None)));
      match sig
      case Term => Some(AfterRcvTerm(w1, info))
      case Usr1 =>
        if r.phase == Transfer then Some(SetPhase(w1, Reject(info.pid)))
        else
          var f := AfterUsr1(r.file, info);
          if Accepts(r.file, info) && !CanResize(f.size) then
            Some(KillSender(SetPhase(w1, Dead), info.pid, Term))
          else
            Some(w1.(rcv := w1.rcv.(file := f, phase := AckSize(info))))
      case Usr2 =>
        if r.phase == Handshake then Some(w1)
        else if !(r.file.index <= r.file.size == |r.file.buffer|) then None
        else
          Some(w1.(rcv := w1.rcv.(file := AfterUsr2(r.file, info), phase := AckData, got := r.got + 1)))
  }

  /** The kill after a handler, and the test at the head of the second loop. */
  function RcvActs(w: World): Option<World> {
    match w.rcv.phase
    case AckSize(info) =>
      var w1 := SetPhase(w, Transfer);
      Some(if w.rcv.file.senderPid == info.pid then KillSender(w1, info.pid, Usr1) else w1)
    case AckData => Some(KillSender(SetPhase(w, Transfer), w.rcv.file.senderPid, Usr2))
    case Reject(rival) => Some(KillSender(SetPhase(w, Transfer), rival, Term))
    case Transfer => if w.rcv.file.size == w.rcv.file.index then Some(SetPhase(w, Finished)) else None
    case _ => None
  }

  /** send_size queues the size. */
  function SndSizes(w: World, p: Pid, refused: bool): Option<World> {
    if p !in w.senders || w.senders[p].pc != Start || (refused && !Gone(w.rcv)) then None
    else
      var s := w.senders[p];
      if refused then Some(SetSender(w, p, s.(pc := Failed)))
      else
        Some(ToReceiver(SetSender(w, p, s.(pc := AwaitSizeAck)), Usr1,
                        Info(Queued, p, s.uid, SivalInt(ToInt(|s.src|)))))
  }

  /** send_data queues the next word, or leaves the loop and queues the tail. */
  function SndDatas(w: World, p: Pid, refused: bool): Option<World> {
    if p !in w.senders || w.senders[p].pc != Sending || (refused && !Gone(w.rcv)) then None
    else
      var s := w.senders[p];
      if s.index > |s.src| then None
      else if refused then Some(SetSender(w, p, s.(pc := Failed)))
      else
        var info := Info(Queued, p, s.uid, SivalPtr(Chunk(s.src, s.index)));
        var s' := if s.index + 7 < |s.src| then s.(pc := AwaitAck(false), index := s.index + WORD, sent := s.sent + 1)
                  else s.(pc := AwaitAck(true), sent := s.sent + 1);
        Some(ToReceiver(SetSender(w, p, s'), Usr2, info))
  }

  /** One sigwaitinfo of a sender: handler_TERM, then the condition of the waiting loop. */
  function SndTakes(w: World, p: Pid, sig: Sig): Option<World> {
    if p !in w.senders then None
    else
      var s := w.senders[p];
      if Pending(s.mail, sig).None? || !(s.pc.AwaitSizeAck? || s.pc.AwaitAck?) then None
      else
        var info := Pending(s.mail, sig).value;
        var s1 := s.(mail := SetSlot(s.mail, sig, None));
        var s2 :=
          if sig == Term && info.pid == w.rcv.pid && info.code == User then s1.(pc := Killed)
          else if s.pc.AwaitSizeAck? && sig == Usr1 && info.pid == w.rcv.pid then s1.(pc := Sending)
          else if s.pc.AwaitAck? && sig == Usr2 && info.pid == w.rcv.pid then
            s1.(pc := if s.pc.last then Closing else Sending)
          else s1;
        Some(SetSender(w, p, s2))
  }

  /** The SIGTERM that main sends when send_data is done. When the receiver is gone, main calls its
      own handler_TERM on the last acknowledgement, which the receiver sent with kill: it exits. */
  function SndCloses(w: World, p: Pid, refused: bool): Option<World> {
    if p !in w.senders || w.senders[p].pc != Closing || (refused && !Gone(w.rcv)) then None
    else
      var s := w.senders[p];
      if refused then Some(SetSender(w, p, s.(pc := Failed)))
      else Some(ToReceiver(SetSender(w, p, s.(pc := Closed)), Term, Info(User, p, s.uid, SivalInt(0))))
  }

  function Step(w: World, l: Label): Option<World> {
    match l
    case RcvTake(sig) => RcvTakes(w, sig)
    case RcvAct => RcvActs(w)
    case SndSize(p, refused) => SndSizes(w, p, refused)
    case SndData(p, refused) => SndDatas(w, p, refused)
    case SndTake(p, sig) => SndTakes(w, p, sig)
    case SndClose(p, refused) => SndCloses(w, p, refused)
  }

  /** The start: a receiver with an arbitrary destination file, and senders whose files are not
      empty (an empty file cannot be mapped, signals/sender.c:216) and shorter than 2^31 bytes. */
  ghost predicate Init(w: World) {
    && w.rcv.phase == Handshake && w.rcv.mail == EMPTY_MAILBOX && w.rcv.got == 0
    && w.rcv.file == RcvFile(0, 0, 0, 0, w.rcv.file.buffer)
    && w.rcv.pid != 0 && 0 !in w.senders && w.rcv.pid !in w.senders
    && forall p :: p in w.senders ==>
         var s := w.senders[p];
         s.pc == Start && s.mail == EMPTY_MAILBOX && s.index == 0 && s.sent == 0 && 0 < |s.src| < TWO31
  }

  ghost predicate StepAt(ws: seq<World>, ls: seq<Label>, k: nat)
    requires k < |ls| && |ws| == |ls| + 1
  {
    Step(ws[k], ls[k]) == Some(ws[k + 1])
  }

  ghost predicate IsRun(ws: seq<World>, ls: seq<Label>) {
    && |ws| == |ls| + 1
    && Init(ws[0])
    && forall k :: 0 <= k < |ls| ==> StepAt(ws, ls, k)
  }
}
