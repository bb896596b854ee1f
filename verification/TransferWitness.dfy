/** A whole transfer, step by step: of a file of eight bytes, after which the sender waits for an
    acknowledgement that nobody is left to send. */
module TransferWitness {
  import opened Options
  import opened TransferSpec
  import opened TransferMachine

  ghost predicate Ends(ws: seq<World>, ls: seq<Label>, w: World) {
    IsRun(ws, ls) && ws[|ls|] == w
  }

  ghost predicate Reachable(w: World) {
    exists ws, ls :: Ends(ws, ls, w)
  }

  lemma Begin(w: World)
    requires Init(w)
    ensures Reachable(w)
  {
    assert Ends([w], [], w);
  }

  lemma Reach(w: World, l: Label, w': World)
    requires Reachable(w) && Step(w, l) == Some(w')
    ensures Reachable(w')
  {
    hide Step;
    var ws, ls :| Ends(ws, ls, w);
    var ws', ls' := ws + [w'], ls + [l];
    forall k | 0 <= k < |ls'| ensures StepAt(ws', ls', k) {
      assert k < |ls| ==> StepAt(ws, ls, k);
    }
    assert Ends(ws', ls', w');
  }

  // --- One receiver and one sender ---

  const RECEIVER: Pid := 5
  const SENDER: Pid := 7

  function At(phase: Phase, file: RcvFile, mail: Mailbox, got: nat, s: Sender): World {
    World(Receiver(RECEIVER, 0, phase, file, mail, got), map[SENDER := s])
  }

  function OnlyUsr1(info: Info): Mailbox {
    Mailbox(Some(info), None, None)
  }

  function OnlyUsr2(info: Info): Mailbox {
    Mailbox(None, Some(info), None)
  }

  const ACK := Info(User, RECEIVER, 0, SivalInt(0))
  const NO_FILE := RcvFile(0, 0, 0, 0, [])

  function SizeOf(src: seq<byte>): Info {
    Info(Queued, SENDER, 0, SivalInt(ToInt(|src|)))
  }

  function Data(src: seq<byte>, index: nat): Info
    requires index <= |src|
  {
    Info(Queued, SENDER, 0, SivalPtr(Chunk(src, index)))
  }

  function File(index: nat, buffer: seq<byte>): RcvFile {
    RcvFile(SENDER, 0, 8, index, buffer)
  }

  function From(src: seq<byte>, pc: SenderPc, index: nat, mail: Mailbox, sent: nat): Sender {
    Sender(0, src, pc, index, mail, sent)
  }

  lemma OneSender()
    ensures forall a: Sender, b: Sender :: map[SENDER := a][SENDER := b] == map[SENDER := b]
  {
  }

  lemma SizeReceived(src: seq<byte>)
    requires |src| == 8
    ensures AfterUsr1(NO_FILE, SizeOf(src)) == File(0, Resize([], 8)) && CanResize(8)
  {
    SizeSurvives(8);
  }

  lemma Begun(src: seq<byte>)
    requires |src| == 8
    ensures Reachable(At(Handshake, NO_FILE, EMPTY_MAILBOX, 0, From(src, Start, 0, EMPTY_MAILBOX, 0)))
  {
    Begin(At(Handshake, NO_FILE, EMPTY_MAILBOX, 0, From(src, Start, 0, EMPTY_MAILBOX, 0)));
  }

  /** Sending and receiving the size. */
  lemma Accepted(src: seq<byte>)
    requires |src| == 8
    ensures Reachable(At(Transfer, File(0, Resize([], 8)), EMPTY_MAILBOX, 0, From(src, Sending, 0, EMPTY_MAILBOX, 0)))
  {
    hide Reachable, AfterUsr1, Resize, ToInt;
    OneSender();
    SizeReceived(src);
    Begun(src);
    var none := EMPTY_MAILBOX;
    var waiting := From(src, AwaitSizeAck, 0, none, 0);
    var info, file := SizeOf(src), File(0, Resize([], 8));
    var w0 := At(Handshake, NO_FILE, none, 0, From(src, Start, 0, none, 0));
    var w1 := At(Handshake, NO_FILE, OnlyUsr1(info), 0, waiting);
    var w2 := At(AckSize(info), file, none, 0, waiting);
    var w3 := At(Transfer, file, none, 0, From(src, AwaitSizeAck, 0, OnlyUsr1(ACK), 0));
    Reach(w0, SndSize(SENDER, false), w1);
    Reach(w1, RcvTake(Usr1), w2);
    Reach(w2, RcvAct, w3);
    Reach(w3, SndTake(SENDER, Usr1), At(Transfer, file, none, 0, From(src, Sending, 0, none, 0)));
  }

  lemma WholeFile(src: seq<byte>)
    requires |src| == 8
    ensures Chunk(src, 0) == src
    ensures AfterUsr2(File(0, Resize([], 8)), Data(src, 0)) == File(8, src)
  {
  }

  /** The one word of the file, and its acknowledgement; the receiver is done. */
  lemma Received(src: seq<byte>)
    requires |src| == 8
    ensures Reachable(At(Finished, File(8, src), EMPTY_MAILBOX, 1, From(src, AwaitAck(false), 8, OnlyUsr2(ACK), 1)))
  {
    hide AfterUsr2, Chunk, Resize, Reachable;
    OneSender();
    WholeFile(src);
    var none, empty := EMPTY_MAILBOX, File(0, Resize([], 8));
    var waiting := From(src, AwaitAck(false), 8, none, 1);
    var told := From(src, AwaitAck(false), 8, OnlyUsr2(ACK), 1);
    var w4 := At(Transfer, empty, none, 0, From(src, Sending, 0, none, 0));
    var w5 := At(Transfer, empty, OnlyUsr2(Data(src, 0)), 0, waiting);
    var w6 := At(AckData, File(8, src), none, 1, waiting);
    var w7 := At(Transfer, File(8, src), none, 1, told);
    Accepted(src);
    Reach(w4, SndData(SENDER, false), w5);
    Reach(w5, RcvTake(Usr2), w6);
    Reach(w6, RcvAct, w7);
    Reach(w7, RcvAct, At(Finished, File(8, src), none, 1, told));
  }

  /** The sender queues its empty tail before it can know that the receiver is done. Then nothing moves: the
      receiver has ended with the whole file, and the sender waits. */
  lemma SenderNeedNotEnd(src: seq<byte>)
    requires |src| == 8
    ensures exists w :: Reachable(w) && w.rcv.phase == Finished && w.rcv.file.buffer == src &&
                        SENDER in w.senders && w.senders[SENDER].pc == AwaitAck(true) &&
                        forall l :: Step(w, l).None?
  {
    hide AfterUsr2, Chunk, Reachable;
    OneSender();
    var none, file := EMPTY_MAILBOX, File(8, src);
    var w8 := At(Finished, file, none, 1, From(src, AwaitAck(false), 8, OnlyUsr2(ACK), 1));
    var w9 := At(Finished, file, none, 1, From(src, Sending, 8, none, 1));
    var w10 := At(Finished, file, OnlyUsr2(Data(src, 8)), 1, From(src, AwaitAck(true), 8, none, 2));
    Received(src);
    Reach(w8, SndTake(SENDER, Usr2), w9);
    Reach(w9, SndData(SENDER, false), w10);
    NothingMoves(w10, src);
  }

  lemma NothingMoves(w: World, src: seq<byte>)
    requires |src| == 8
    requires w == At(Finished, File(8, src), OnlyUsr2(Data(src, 8)), 1, From(src, AwaitAck(true), 8, EMPTY_MAILBOX, 2))
    ensures forall l :: Step(w, l).None?
  {
  }

  // --- A rival ---

  const RIVAL: Pid := 9

  function Both(phase: Phase, file: RcvFile, mail: Mailbox, s: Sender, r: Sender): World {
    World(Receiver(RECEIVER, 0, phase, file, mail, 0), map[SENDER := s, RIVAL := r])
  }

  lemma TwoSenders(a: Sender, b: Sender, c: Sender)
    ensures map[SENDER := a, RIVAL := b][SENDER := c] == map[SENDER := c, RIVAL := b]
    ensures map[SENDER := a, RIVAL := b][RIVAL := c] == map[SENDER := a, RIVAL := c]
  {
  }

  lemma BothBegun(src: seq<byte>)
    requires |src| == 8
    ensures var s := From(src, Start, 0, EMPTY_MAILBOX, 0);
            Reachable(Both(Handshake, NO_FILE, EMPTY_MAILBOX, s, s))
  {
    var s := From(src, Start, 0, EMPTY_MAILBOX, 0);
    Begin(Both(Handshake, NO_FILE, EMPTY_MAILBOX, s, s));
  }

  lemma RivalComesIn(src: seq<byte>)
    requires |src| == 8
    ensures Reachable(Both(Reject(RIVAL), File(0, Resize([], 8)), EMPTY_MAILBOX,
                           From(src, AwaitSizeAck, 0, OnlyUsr1(ACK), 0),
                           From(src, AwaitSizeAck, 0, EMPTY_MAILBOX, 0)))
  {
    hide Reachable, AfterUsr1, Resize, ToInt;
    SizeReceived(src);
    BothBegun(src);
    var none, file := EMPTY_MAILBOX, File(0, Resize([], 8));
    var begun, waiting := From(src, Start, 0, none, 0), From(src, AwaitSizeAck, 0, none, 0);
    var acked := From(src, AwaitSizeAck, 0, OnlyUsr1(ACK), 0);
    var size, late := SizeOf(src), Info(Queued, RIVAL, 0, SivalInt(ToInt(|src|)));
    var w1 := Both(Handshake, NO_FILE, OnlyUsr1(size), waiting, begun);
    var w2 := Both(AckSize(size), file, none, waiting, begun);
    var w3 := Both(Transfer, file, none, acked, begun);
    var w4 := Both(Transfer, file, OnlyUsr1(late), acked, waiting);
    TwoSenders(begun, begun, waiting);
    Reach(Both(Handshake, NO_FILE, none, begun, begun), SndSize(SENDER, false), w1);
    Reach(w1, RcvTake(Usr1), w2);
    TwoSenders(waiting, begun, acked);
    Reach(w2, RcvAct, w3);
    TwoSenders(acked, begun, waiting);
    Reach(w3, SndSize(RIVAL, false), w4);
    Reach(w4, RcvTake(Usr1), Both(Reject(RIVAL), file, none, acked, waiting));
  }

  /** The second of two senders comes too late: its size is taken by the second loop, and it is killed. */
  lemma RivalIsKilled(src: seq<byte>)
    requires |src| == 8
    ensures exists w :: Reachable(w) && w.rcv.phase == Transfer && w.rcv.file.senderPid == SENDER &&
                        RIVAL in w.senders && w.senders[RIVAL].pc == Killed
  {
    hide Reachable, Resize;
    RivalComesIn(src);
    var none, file := EMPTY_MAILBOX, File(0, Resize([], 8));
    var acked, waiting := From(src, AwaitSizeAck, 0, OnlyUsr1(ACK), 0), From(src, AwaitSizeAck, 0, none, 0);
    var told := From(src, AwaitSizeAck, 0, Mailbox(None, None, Some(ACK)), 0);
    var killed := From(src, Killed, 0, none, 0);
    var w6 := Both(Transfer, file, none, acked, told);
    TwoSenders(acked, waiting, told);
    Reach(Both(Reject(RIVAL), file, none, acked, waiting), RcvAct, w6);
    TwoSenders(acked, told, killed);
    Reach(w6, SndTake(RIVAL, Term), Both(Transfer, file, none, acked, killed));
  }
}
