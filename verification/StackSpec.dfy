/** The sequential meaning of the shared stack: a LIFO stack of bounded size whose
    operations never wait (shared_stack/stack.h:36-67). */
module StackSpec {
  import opened Options

  type Val = int

  /** The value that marks an unused slot (shared_stack/stack.h:16). */
  const POISON: Val := 1000 - 7

  /** wait_val: -1, 0 and 1 (shared_stack/stack.h:62-66). */
  datatype WaitMode = NoWait | Forever | Timed

  datatype Op = Push(v: Val) | Pop | SetWait(mode: WaitMode)

  datatype Response = Failed | Pushed | Popped(v: Val) | WaitSet

  function Apply(size: nat, s: seq<Val>, op: Op): (seq<Val>, Response) {
    match op
    case Push(v) =>
      if |s| >= size then (s, Failed) else (s + [v], Pushed)
    case Pop =>
      if |s| == 0 then (s, Failed) else (s[..|s| - 1], Popped(s[|s| - 1]))
    case SetWait(_) =>
      (s, WaitSet)
  }

  /** One operation as it took effect. */
  datatype Event = Event(pid: nat, op: Op, response: Response)

  /** The stack left by a sequential history, or None when some response in it is
      not the one a sequential stack would have given. */
  function Replay(size: nat, s: seq<Val>, history: seq<Event>): Option<seq<Val>>
    decreases history
  {
    if |history| == 0 then Some(s)
    else
      var (s', r) := Apply(size, s, history[0].op);
      if r == history[0].response then Replay(size, s', history[1..]) else None
  }

  lemma {:induction false} ReplayExtends(size: nat, s: seq<Val>, history: seq<Event>, e: Event)
    ensures Replay(size, s, history + [e]) ==
            match Replay(size, s, history)
            case None => None
            case Some(t) =>
              if Apply(size, t, e.op).1 == e.response then Some(Apply(size, t, e.op).0) else None
    decreases history
  {
    if |history| == 0 {
      assert history + [e] == [e];
    } else {
      assert (history + [e])[1..] == history[1..] + [e];
      var (s', r) := Apply(size, s, history[0].op);
      if r == history[0].response {
        ReplayExtends(size, s', history[1..], e);
      }
    }
  }

  /** What the successful pushes of a history put in, and what its successful pops took out. */
  function PushedBy(history: seq<Event>): multiset<Val> {
    if |history| == 0 then multiset{}
    else
      (if history[0].op.Push? && history[0].response == Pushed then multiset{history[0].op.v} else multiset{})
      + PushedBy(history[1..])
  }

  function PoppedBy(history: seq<Event>): multiset<Val> {
    if |history| == 0 then multiset{}
    else
      (if history[0].response.Popped? then multiset{history[0].response.v} else multiset{})
      + PoppedBy(history[1..])
  }

  lemma ApplyConserves(size: nat, s: seq<Val>, op: Op)
    requires |s| <= size
    ensures var (s', r) := Apply(size, s, op);
            && |s'| <= size
            && multiset(s) + (if op.Push? && r == Pushed then multiset{op.v} else multiset{})
               == multiset(s') + (if r.Popped? then multiset{r.v} else multiset{})
  {
    var (s', r) := Apply(size, s, op);
    if r.Popped? {
      assert s == s' + [r.v];
    }
  }

  /** Every legal history keeps the stack within its bound and neither loses nor invents a value. */
  lemma {:induction false} ReplayConserves(size: nat, s: seq<Val>, history: seq<Event>)
    requires |s| <= size
    requires Replay(size, s, history).Some?
    ensures |Replay(size, s, history).value| <= size
    ensures multiset(s) + PushedBy(history) ==
            multiset(Replay(size, s, history).value) + PoppedBy(history)
    decreases history
  {
    if |history| > 0 {
      var op := history[0].op;
      var (s', r) := Apply(size, s, op);
      var rest := history[1..];
      ApplyConserves(size, s, op);
      FirstEvent(size, s, history);
      hide Apply, Replay, PushedBy, PoppedBy;
      ReplayConserves(size, s', rest);
      Balance(multiset(s), multiset(s'), multiset(Replay(size, s', rest).value),
              if op.Push? && r == Pushed then multiset{op.v} else multiset{},
              if r.Popped? then multiset{r.v} else multiset{}, PushedBy(rest), PoppedBy(rest));
    }
  }

  lemma FirstEvent(size: nat, s: seq<Val>, history: seq<Event>)
    requires |history| > 0 && Replay(size, s, history).Some?
    ensures var op, rest, (s', r) := history[0].op, history[1..], Apply(size, s, history[0].op);
            && Replay(size, s, history) == Replay(size, s', rest)
            && PushedBy(history) ==
               (if op.Push? && r == Pushed then multiset{op.v} else multiset{}) + PushedBy(rest)
            && PoppedBy(history) == (if r.Popped? then multiset{r.v} else multiset{}) + PoppedBy(rest)
  {
    hide Apply;
  }

  /** One step and the rest of a balance. */
  lemma Balance(a: multiset<Val>, b: multiset<Val>, t: multiset<Val>, pushed: multiset<Val>, popped: multiset<Val>,
                pushedNext: multiset<Val>, poppedNext: multiset<Val>)
    requires a + pushed == b + popped && b + pushedNext == t + poppedNext
    ensures a + (pushed + pushedNext) == t + (popped + poppedNext)
  {
    assert a + (pushed + pushedNext) == (a + pushed) + pushedNext;
    assert (b + popped) + pushedNext == (b + pushedNext) + popped;
  }
}
