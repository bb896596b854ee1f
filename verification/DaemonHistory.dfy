/** What the daemon has done after any events, from the signals it has taken alone: which backups it
    called for and of which directories, which alarm it set, and whether it has shut down
    (daemon/src/daemon/main.c:44-280). */
module DaemonHistory {
  import opened Paths
  import opened DaemonLoop

  /** The check of the two directories passes, said of their texts. */
  ghost predicate Passes(src: string, dst: string) {
    !Under(src, dst) && !Under(dst, src) && !InnerHit(dst, src) && !InnerHit(src, dst)
  }

  // --- What one signal amounts to, after a history h ---

  /** SIGALRM calls for a classic backup when the directories then set pass the check; SIGHUP with another
      value switches the mode; in inotify mode every signal but the two that end the daemon ends with a
      backup, a full one after a switch or a new directory that is equal to the other. */
  ghost function ActsOf(h: seq<Taken>, t: Taken, src: string, dst: string): seq<Act> {
    var was, now := ModeBy(h), ModeBy(h + [t]);
    var s, d := DirectoryBy(h + [t], true, src), DirectoryBy(h + [t], false, dst);
    (if t.s == ALRM && Passes(s, d) then [Classic] else []) +
    (if t.s == HUP && t.value != was then [if now == INOTIFY then ToInotify else ToClassic] else []) +
    (if now == INOTIFY && t.s != TERM && t.s != QUIT
     then [Inotify(was != now || (t.s == USR2 && t.world.text != [] && t.world.usable && s == d))] else [])
  }

  ghost function CopiesOf(h: seq<Taken>, t: Taken, src: string, dst: string): seq<Copy> {
    var s, d := DirectoryBy(h + [t], true, src), DirectoryBy(h + [t], false, dst);
    (if t.s == ALRM && Passes(s, d) then [Copy(s, d)] else []) +
    (if ModeBy(h + [t]) == INOTIFY && t.s != TERM && t.s != QUIT then [Copy(s, d)] else [])
  }

  /** SIGTERM and SIGQUIT end the daemon, and so does a backup that runs into shutdown. */
  ghost predicate Ends(h: seq<Taken>, t: Taken, src: string, dst: string) {
    || t.s == TERM || t.s == QUIT
    || (t.world.fatal && Passes(DirectoryBy(h + [t], true, src), DirectoryBy(h + [t], false, dst)) &&
        (t.s == ALRM || ModeBy(h + [t]) == INOTIFY))
  }

  ghost function ActsBy(h: seq<Taken>, src: string, dst: string): seq<Act> {
    if h == [] then [] else ActsBy(h[..|h| - 1], src, dst) + ActsOf(h[..|h| - 1], h[|h| - 1], src, dst)
  }

  ghost function CopiesBy(h: seq<Taken>, src: string, dst: string): seq<Copy> {
    if h == [] then [] else CopiesBy(h[..|h| - 1], src, dst) + CopiesOf(h[..|h| - 1], h[|h| - 1], src, dst)
  }

  ghost predicate EndedBy(h: seq<Taken>, src: string, dst: string) {
    h != [] && Ends(h[..|h| - 1], h[|h| - 1], src, dst)
  }

  /** The alarm is set at the start and at every SIGALRM, for the interval set by then. */
  function AlarmBy(h: seq<Taken>): int {
    if h == [] then 10 else if h[|h| - 1].s == ALRM then DelayBy(h) else AlarmBy(h[..|h| - 1])
  }

  // --- One turn ---

  /** The same of one turn, from the state instead of the history. */
  lemma DispatchDoes(st: State, s: Sig, value: int, world: World)
    requires !st.exited && (st.mode == CLASSIC || st.mode == INOTIFY)
    ensures var now, passes := Dispatch(st, s, value, world), CheckIncludeDirectory(st.src, st.dst) == 0;
            && now.acts == st.acts + (if s == ALRM && passes then [Classic] else []) +
                           (if s == HUP && value != st.mode then [if value == INOTIFY then ToInotify else ToClassic]
                            else [])
            && now.copies == st.copies + (if s == ALRM && passes then [Copy(st.src, st.dst)] else [])
            && (now.exited <==> s == TERM || s == QUIT || (s == ALRM && passes && world.fatal))
            && now.alarm == (if s == ALRM then st.delay else st.alarm)
  {
    hide CheckIncludeDirectory;
    assert st.acts + [] == st.acts && st.acts + [] + [] == st.acts && st.copies + [] == st.copies;
    match s
    case HUP => ModeDoes(st, value);
    case INT => assert OnPower(st).acts == st.acts && OnPower(st).copies == st.copies;
    case _ =>
  }

  lemma ModeDoes(st: State, value: int)
    requires st.mode == CLASSIC || st.mode == INOTIFY
    ensures var now := OnMode(st, value);
            && now.acts == st.acts + (if value != st.mode then [if value == INOTIFY then ToInotify else ToClassic]
                                      else [])
            && now.copies == st.copies && now.exited == st.exited && now.alarm == st.alarm
  {
  }

  lemma FlagAfter(st: State, s: Sig, value: int, world: World)
    requires (st.mode == CLASSIC || st.mode == INOTIFY) && (st.mode == INOTIFY ==> !st.config)
    ensures var now := Dispatch(st, s, value, world);
            now.mode == INOTIFY ==>
              (now.config <==> st.mode != now.mode ||
                               (s == USR2 && world.text != [] && world.usable && now.src == now.dst))
  {
    hide CheckIncludeDirectory;
    match s
    case INT => assert OnPower(st).config == st.config;
    case _ =>
  }

  lemma FinishDoes(st: State, world: World)
    ensures var now, passes := Finish(st, world), CheckIncludeDirectory(st.src, st.dst) == 0;
            && now.acts == st.acts + (if !st.exited && st.mode == INOTIFY then [Inotify(st.config)] else [])
            && now.copies == st.copies + (if !st.exited && st.mode == INOTIFY then [Copy(st.src, st.dst)] else [])
            && (now.exited <==> st.exited || (st.mode == INOTIFY && world.fatal && passes))
            && now.alarm == st.alarm
  {
    hide CheckIncludeDirectory;
  }

  ghost predicate AsDone(st: State, src: string, dst: string) {
    && st.acts == ActsBy(st.taken, src, dst) && st.copies == CopiesBy(st.taken, src, dst)
    && (st.exited <==> EndedBy(st.taken, src, dst))
    && (st.alarm == 0 || st.alarm == AlarmBy(st.taken))
  }

  lemma PassesExactly(src: string, dst: string)
    ensures CheckIncludeDirectory(src, dst) == 0 <==> Passes(src, dst)
  {
    CheckPassesExactly(src, dst);
  }

  /** The three kinds of acts, in the order in which one turn adds them. */
  function Deeds(due: bool, switched: bool, now: int, goesOn: bool, full: bool): seq<Act> {
    (if due then [Classic] else []) +
    (if switched then [if now == INOTIFY then ToInotify else ToClassic] else []) +
    (if now == INOTIFY && goesOn then [Inotify(full)] else [])
  }

  function Copied(due: bool, now: int, goesOn: bool, s: string, d: string): seq<Copy> {
    (if due then [Copy(s, d)] else []) + (if now == INOTIFY && goesOn then [Copy(s, d)] else [])
  }

  lemma TurnDoes(st: State, s: Sig, world: World)
    requires Safe(st) && Ready(st, s) && !st.exited
    ensures var now, value, ends := Turn(st, s, world), st.pending[s], s == TERM || s == QUIT;
            var passes := CheckIncludeDirectory(now.src, now.dst) == 0;
            var full := st.mode != now.mode ||
                        (s == USR2 && world.text != [] && world.usable && now.src == now.dst);
            && now.acts == st.acts + Deeds(s == ALRM && passes, s == HUP && value != st.mode, now.mode, !ends, full)
            && now.copies == st.copies + Copied(s == ALRM && passes, now.mode, !ends, now.src, now.dst)
            && (now.exited <==> ends || (world.fatal && passes && (s == ALRM || now.mode == INOTIFY)))
            && now.alarm == (if s == ALRM then now.delay else st.alarm)
            && now.taken == st.taken + [Taken(s, value, world)]
  {
    var value, received := st.pending[s], Receive(st, s, world);
    var mid := Dispatch(received, s, value, world);
    DispatchDoes(received, s, value, world);
    FlagAfter(received, s, value, world);
    OneSettingEach(received, s, value, world);
    FinishDoes(mid, world);
    FinishLeavesSettings(mid, world);
    hide Dispatch, Finish, CheckIncludeDirectory;
    assert s == ALRM ==> st.mode == CLASSIC;
  }

  lemma TurnAsDone(st: State, s: Sig, world: World, src: string, dst: string)
    requires Safe(st) && AsSet(st, src, dst) && AsDone(st, src, dst) && Ready(st, s) && !st.exited
    ensures AsDone(Turn(st, s, world), src, dst)
  {
    var t, now := Taken(s, st.pending[s], world), Turn(st, s, world);
    TurnDoes(st, s, world);
    TurnAsSet(st, s, world, src, dst);
    PassesExactly(now.src, now.dst);
    hide Turn, CheckIncludeDirectory, Passes, DirectoryBy, ModeBy, RunBy, DelayBy, Safe;
    var h := now.taken;
    assert h[..|h| - 1] == st.taken && h[|h| - 1] == t;
    assert ActsBy(h, src, dst) == ActsBy(st.taken, src, dst) + ActsOf(st.taken, t, src, dst);
    assert CopiesBy(h, src, dst) == CopiesBy(st.taken, src, dst) + CopiesOf(st.taken, t, src, dst);
  }

  /** After any events: the backups called for, and the directories they were for, are those that the signals
      taken call for; the daemon has ended exactly when the last of them ends it; and an alarm that is
      set is set for the interval that was in force at the last SIGALRM. */
  lemma {:induction false} DeedsFollowSignals(src: string, dst: string, events: seq<Event>)
    ensures AsDone(After(Initial(src, dst), events), src, dst)
    decreases |events|
  {
    if events != [] {
      var was, e := After(Initial(src, dst), events[..|events| - 1]), events[|events| - 1];
      DeedsFollowSignals(src, dst, events[..|events| - 1]);
      EveryRunIsSafe(src, dst, events[..|events| - 1]);
      SettingsFollowSignals(src, dst, events[..|events| - 1]);
      hide AsDone, AsSet, Safe, Turn;
      if !was.exited && e.Take? && Ready(was, e.s) {
        TurnAsDone(was, e.s, e.world, src, dst);
      } else {
        QuietStep(was, e, src, dst);
      }
    }
  }

  lemma QuietStep(st: State, e: Event, src: string, dst: string)
    requires AsDone(st, src, dst) && !(!st.exited && e.Take? && Ready(st, e.s))
    ensures AsDone(Step(st, e), src, dst)
  {
  }

  // --- Classic backups ---

  function Classics(acts: seq<Act>): nat {
    if acts == [] then 0 else Classics(acts[..|acts| - 1]) + if acts[|acts| - 1] == Classic then 1 else 0
  }

  /** The SIGALRMs taken while the directories set passed the check. */
  ghost function Due(h: seq<Taken>, src: string, dst: string): nat {
    if h == [] then 0
    else
      Due(h[..|h| - 1], src, dst) +
      if h[|h| - 1].s == ALRM && Passes(DirectoryBy(h, true, src), DirectoryBy(h, false, dst)) then 1 else 0
  }

  lemma {:induction false} ClassicsOfSum(a: seq<Act>, b: seq<Act>)
    ensures Classics(a + b) == Classics(a) + Classics(b)
    decreases |b|
  {
    if b == [] {
      assert a + b == a;
    } else {
      assert (a + b)[..|a + b| - 1] == a + b[..|b| - 1];
      ClassicsOfSum(a, b[..|b| - 1]);
    }
  }

  lemma OneClassic(due: bool, switched: bool, now: int, goesOn: bool, full: bool)
    ensures Classics(Deeds(due, switched, now, goesOn, full)) == if due then 1 else 0
  {
    var a := if due then [Classic] else [];
    var b := if switched then [if now == INOTIFY then ToInotify else ToClassic] else [];
    var c := if now == INOTIFY && goesOn then [Inotify(full)] else [];
    ClassicsOfSum(a + b, c);
    ClassicsOfSum(a, b);
    assert Classics([]) == 0;
    assert forall x :: Classics([x]) == if x == Classic then 1 else 0 by {
      forall x ensures Classics([x]) == if x == Classic then 1 else 0 {
        assert [x][..0] == [];
      }
    }
  }

  lemma {:induction false} ClassicsBy(h: seq<Taken>, src: string, dst: string)
    ensures Classics(ActsBy(h, src, dst)) == Due(h, src, dst)
    decreases |h|
  {
    if h != [] {
      var before, t := h[..|h| - 1], h[|h| - 1];
      assert before + [t] == h;
      ClassicsBy(before, src, dst);
      ClassicsOfSum(ActsBy(before, src, dst), ActsOf(before, t, src, dst));
      var s, d := DirectoryBy(h, true, src), DirectoryBy(h, false, dst);
      OneClassic(t.s == ALRM && Passes(s, d), t.s == HUP && t.value != ModeBy(before), ModeBy(h),
                 t.s != TERM && t.s != QUIT,
                 ModeBy(before) != ModeBy(h) ||
                 (t.s == USR2 && t.world.text != [] && t.world.usable && s == d));
    }
  }

  /** After any events there have been as many classic backups as SIGALRMs were taken while the
      directories set passed the check. */
  lemma ClassicBackupsCounted(src: string, dst: string, events: seq<Event>)
    ensures var st := After(Initial(src, dst), events); Classics(st.acts) == Due(st.taken, src, dst)
  {
    DeedsFollowSignals(src, dst, events);
    ClassicsBy(After(Initial(src, dst), events).taken, src, dst);
  }

  /** In running classic mode, with directories that pass the check, the alarm going off makes one backup of
      them, and the alarm is set again. */
  lemma AlarmMakesBackup(st: State, world: World)
    requires Safe(st) && st.run && st.mode == CLASSIC && !st.exited && Passes(st.src, st.dst)
    ensures var now := Step(Step(st, Fire), Take(ALRM, world));
            && now.acts == st.acts + [Classic] && now.copies == st.copies + [Copy(st.src, st.dst)]
            && now.alarm == st.delay > 0 && (now.exited <==> world.fatal)
  {
    PassesExactly(st.src, st.dst);
    var rung := Step(st, Fire);
    hide Passes;
    assert Ready(rung, ALRM);
  }
}
