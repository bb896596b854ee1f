/** What the receiver's handlers make of any signals at all, from whomever and by whatever call they are
    sent (signals/receiver.c:217-264). */
module TransferSignals {
  import opened TransferSpec

  function AllUsr1(f: RcvFile, infos: seq<Info>): RcvFile
    decreases infos
  {
    if |infos| == 0 then f else AllUsr1(AfterUsr1(f, infos[0]), infos[1..])
  }

  /** The first signal with a size that sigqueue sent, or |infos|. */
  function FirstQueued(infos: seq<Info>): (i: nat)
    ensures i <= |infos|
  {
    if |infos| == 0 || infos[0].code == Queued then 0 else 1 + FirstQueued(infos[1..])
  }

  lemma {:induction false} NoSecondSession(f: RcvFile, infos: seq<Info>)
    requires f.senderPid != 0
    ensures AllUsr1(f, infos) == f
    decreases infos
  {
    if |infos| > 0 {
      NoSecondSession(f, infos[1..]);
    }
  }

  /** Of all sizes that come in the first that was queued is accepted, with its sender; kill accepts nothing. */
  lemma {:induction false} FirstQueuedAccepted(f: RcvFile, infos: seq<Info>)
    requires f.senderPid == 0 && f.senderUid == 0 && forall i :: 0 <= i < |infos| ==> infos[i].pid != 0
    ensures var i, g := FirstQueued(infos), AllUsr1(f, infos);
            if i == |infos| then g == f
            else (g.senderPid, g.senderUid, g.size) ==
                 (infos[i].pid, infos[i].uid, ToSizeT(IntOf(infos[i].value))) && g.index == f.index
    decreases infos
  {
    if |infos| > 0 {
      if infos[0].code == Queued {
        NoSecondSession(AfterUsr1(f, infos[0]), infos[1..]);
      } else {
        FirstQueuedAccepted(f, infos[1..]);
      }
    }
  }

  function AllUsr2(f: RcvFile, infos: seq<Info>): RcvFile
    requires f.index <= f.size == |f.buffer|
    decreases infos
  {
    if |infos| == 0 then f else AllUsr2(AfterUsr2(f, infos[0]), infos[1..])
  }

  /** The bytes that the accepted sender queued, one word after the other. */
  function Queue(f: RcvFile, infos: seq<Info>): seq<byte> {
    if |infos| == 0 then []
    else (if FromSender(f, infos[0]) then BytesOf(infos[0].value) else []) + Queue(f, infos[1..])
  }

  lemma {:induction false} SameSender(f: RcvFile, g: RcvFile, infos: seq<Info>)
    requires f.senderPid == g.senderPid && f.senderUid == g.senderUid
    ensures Queue(f, infos) == Queue(g, infos)
    decreases infos
  {
    if |infos| > 0 {
      SameSender(f, g, infos[1..]);
    }
  }

  function Least(a: nat, b: nat): nat {
    if a < b then a else b
  }

  lemma OneWord(f: RcvFile, info: Info)
    requires f.index <= f.size == |f.buffer|
    ensures var g, w := AfterUsr2(f, info), if FromSender(f, info) then BytesOf(info.value) else [];
            && g.senderPid == f.senderPid && g.senderUid == f.senderUid && g.size == f.size == |g.buffer|
            && g.index == Least(f.size, f.index + |w|)
            && g.buffer[..g.index] == (f.buffer[..f.index] + w)[..g.index]
  {
    var g := AfterUsr2(f, info);
    if FromSender(f, info) {
      assert g.buffer[..g.index] == f.buffer[..f.index] + BytesOf(info.value)[..g.index - f.index];
    }
  }

  /** Whatever else comes in, the file is filled with the words of the accepted sender, in order and cut
      off at its size. */
  lemma {:induction false} FilledInOrder(f: RcvFile, infos: seq<Info>)
    requires f.index <= f.size == |f.buffer|
    ensures var g := AllUsr2(f, infos);
            && g.size == f.size == |g.buffer| && g.index == Least(f.size, f.index + |Queue(f, infos)|)
            && g.buffer[..g.index] == (f.buffer[..f.index] + Queue(f, infos))[..g.index]
    decreases infos
  {
    if |infos| > 0 {
      hide AfterUsr2, BytesOf, FromSender;
      var one, rest := AfterUsr2(f, infos[0]), Queue(f, infos[1..]);
      var w := if FromSender(f, infos[0]) then BytesOf(infos[0].value) else [];
      assert Queue(f, infos) == w + rest;
      OneWord(f, infos[0]);
      SameSender(f, one, infos[1..]);
      hide Queue;
      FilledInOrder(one, infos[1..]);
      CutTwice(f.buffer[..f.index], w, rest, f.size);
    }
  }

  lemma CutTwice(a: seq<byte>, b: seq<byte>, c: seq<byte>, n: nat)
    requires |a| <= n
    ensures var ab := (a + b)[..Least(n, |a + b|)];
            (ab + c)[..Least(n, |ab + c|)] == (a + (b + c))[..Least(n, |a + (b + c)|)]
  {
  }
}
