/** The main loop of the backup daemon (daemon/src/daemon/main.c:34-280): one signal after another
    is taken with sigwaitinfo, and two modes of backup are driven by SIGALRM and by a SIGCHLD the
    daemon sends to itself. */
module DaemonLoop {
  import opened Paths

  const CLASSIC := 0
  const INOTIFY := 1

  datatype Sig = ALRM | USR1 | USR2 | TERM | QUIT | CHLD | HUP | INT

  const ALL_SIGNALS: set<Sig> := {ALRM, USR1, USR2, TERM, QUIT, CHLD, HUP, INT}

  /** What the loop does that can be seen from outside. Inotify stands for a call of backup_inotify. */
  datatype Act = ToClassic | ToInotify | Classic | Inotify(full: bool)

  /** What the loop meets while it handles one signal: the text read from the FIFO, if any, whether
      it names a directory that can be opened or made, and whether a backup runs into shutdown. */
  datatype World = World(text: seq<string>, usable: bool, fatal: bool)

  /** The alarm fires, a signal arrives with a value, or the loop takes a signal. */
  datatype Event = Fire | Arrive(s: Sig, value: int) | Take(s: Sig, world: World)

  /** A signal that the loop has taken, with its value and what it met. */
  datatype Taken = Taken(s: Sig, value: int, world: World)

  /** The directories a backup was called for. */
  datatype Copy = Copy(src: string, dst: string)

  /** alarm is the time that the alarm was set for, 0 when it is not set. */
  datatype State = State(
    mode: int, run: bool, delay: int, config: bool, sig: set<Sig>, src: string, dst: string,
    alarm: int, pending: map<Sig, int>, exited: bool, acts: seq<Act>, copies: seq<Copy>, taken: seq<Taken>)

  function Initial(src: string, dst: string): State {
    State(CLASSIC, true, 10, false, ALL_SIGNALS - {CHLD}, src, dst, 10, map[], false, [], [], [])
  }

  // --- The loop as a function on states ---

  function OnAlarm(st: State, world: World): State {
    var st := st.(alarm := st.delay);
    if CheckIncludeDirectory(st.src, st.dst) != 0 then st
    else st.(acts := st.acts + [Classic], copies := st.copies + [Copy(st.src, st.dst)], exited := world.fatal)
  }

  function OnInterval(st: State, value: int): State {
    if value > 0 then st.(delay := value) else st
  }

  /** The flag is set when the two directories are the same (strcmp is 0), whatever the log says. */
  function OnDirectory(st: State, value: int, world: World): State {
    var text := if world.text == [] then "" else world.text[0];
    var st := if value == 0 then st.(src := text) else st.(dst := text);
    st.(config := st.config || (world.text != [] && world.usable && st.src == st.dst))
  }

  function OnMode(st: State, value: int): State {
    if value == st.mode then st
    else if value == INOTIFY then
      st.(mode := INOTIFY, config := true, acts := st.acts + [ToInotify],
          sig := st.sig - {ALRM} + (if st.run then {CHLD} else {}))
    else
      st.(mode := CLASSIC, config := false, acts := st.acts + [ToClassic],
          sig := st.sig - {CHLD} + (if st.run then {ALRM} else {}))
  }

  function OnPower(st: State): State {
    if st.run then st.(run := false, sig := st.sig - {ALRM, CHLD})
    else st.(run := true, sig := st.sig + (if st.mode == CLASSIC then {ALRM} else {}) +
                                 (if st.mode == INOTIFY then {CHLD} else {}))
  }

  function Dispatch(st: State, s: Sig, value: int, world: World): State {
    match s
    case ALRM => OnAlarm(st, world)
    case USR1 => OnInterval(st, value)
    case USR2 => OnDirectory(st, value, world)
    case HUP => OnMode(st, value)
    case INT => OnPower(st)
    case CHLD => st
    case QUIT => st.(exited := true)
    case TERM => st.(exited := true)
  }

  function Send(pending: map<Sig, int>, s: Sig, value: int): map<Sig, int> {
    if s in pending then pending else pending[s := value]
  }

  /** The end of every turn. */
  function Finish(st: State, world: World): State {
    if st.exited || st.mode != INOTIFY then st
    else
      var st' := st.(acts := st.acts + [Inotify(st.config)], copies := st.copies + [Copy(st.src, st.dst)]);
      if world.fatal && CheckIncludeDirectory(st.src, st.dst) == 0 then st'.(exited := true)
      else st'.(pending := Send(st.pending, CHLD, 0), config := false)
  }

  function Receive(st: State, s: Sig, world: World): State
    requires s in st.pending
  {
    st.(pending := st.pending - {s}, taken := st.taken + [Taken(s, st.pending[s], world)])
  }

  function Turn(st: State, s: Sig, world: World): State
    requires s in st.pending
  {
    Finish(Dispatch(Receive(st, s, world), s, st.pending[s], world), world)
  }

  /** sigwaitinfo can return s. */
  predicate Ready(st: State, s: Sig) {
    s in st.sig && s in st.pending
  }

  function Step(st: State, e: Event): State {
    if st.exited then st
    else match e
      case Fire => if st.alarm > 0 then st.(alarm := 0, pending := Send(st.pending, ALRM, 0)) else st
      case Arrive(s, value) => st.(pending := Send(st.pending, s, value))
      case Take(s, world) => if Ready(st, s) then Turn(st, s, world) else st
  }

  /** The state after any events at all; one that cannot happen does not. */
  function After(st: State, events: seq<Event>): State {
    if events == [] then st else Step(After(st, events[..|events| - 1]), events[|events| - 1])
  }

  // --- What every run keeps ---

  /** What holds even in the middle of a turn. */
  ghost predicate SafeWithin(st: State) {
    && (st.mode == CLASSIC || st.mode == INOTIFY)
    && (ALRM in st.sig <==> st.run && st.mode == CLASSIC)
    && (CHLD in st.sig <==> st.run && st.mode == INOTIFY)
    && (forall s :: s in ALL_SIGNALS && s != ALRM && s != CHLD ==> s in st.sig)
    && st.delay > 0
    && (st.alarm > 0 || ALRM in st.pending)
  }

  ghost predicate Safe(st: State) {
    && SafeWithin(st)
    && (st.mode == INOTIFY ==> CHLD in st.pending && !st.config)
  }

  lemma ModeKeeps(st: State, value: int)
    requires SafeWithin(st)
    ensures SafeWithin(OnMode(st, value))
  {
  }

  lemma PowerKeeps(st: State)
    requires SafeWithin(st)
    ensures SafeWithin(OnPower(st))
  {
  }

  lemma DispatchKeeps(st: State, s: Sig, world: World)
    requires Safe(st) && !st.exited && s in st.pending
    ensures SafeWithin(Dispatch(Receive(st, s, world), s, st.pending[s], world))
  {
    hide CheckIncludeDirectory;
    var now, value := Receive(st, s, world), st.pending[s];
    match s
    case HUP =>
      ModeKeeps(now, value);
    case INT =>
      PowerKeeps(now);
    case _ =>
  }

  lemma StepKeepsSafe(st: State, e: Event)
    requires !st.exited ==> Safe(st)
    ensures var now := Step(st, e); !now.exited ==> Safe(now)
  {
    if !st.exited && e.Take? && Ready(st, e.s) {
      DispatchKeeps(st, e.s, e.world);
    }
  }

  /** Until it shuts down, whatever signals come in whatever order: the wait set follows mode and
      power, the interval is positive, the alarm is set or has gone off, and the daemon's own
      SIGCHLD is there when the inotify mode waits for it. */
  lemma {:induction false} EveryRunIsSafe(src: string, dst: string, events: seq<Event>)
    ensures var st := After(Initial(src, dst), events); !st.exited ==> Safe(st)
    decreases |events|
  {
    if events != [] {
      EveryRunIsSafe(src, dst, events[..|events| - 1]);
      StepKeepsSafe(After(Initial(src, dst), events[..|events| - 1]), events[|events| - 1]);
    }
  }

  /** A running daemon always has its next backup before it: in inotify mode sigwaitinfo can return
      at once, in classic mode once the alarm has gone off; a stopped one takes neither signal. */
  lemma BackupsGoOn(src: string, dst: string, events: seq<Event>)
    ensures var st := After(Initial(src, dst), events);
            !st.exited ==>
              (st.run && st.mode == INOTIFY ==> Ready(st, CHLD)) &&
              (st.run && st.mode == CLASSIC ==> Ready(st, ALRM) || (st.alarm > 0 && Ready(Step(st, Fire), ALRM))) &&
              (!st.run ==> !Ready(st, CHLD) && !Ready(st, ALRM))
  {
    EveryRunIsSafe(src, dst, events);
  }

  // --- What the controller has set ---

  /** The settings that a history of signals amounts to, each control by itself. */
  function ModeBy(h: seq<Taken>): int {
    if h == [] then CLASSIC
    else
      var last := h[|h| - 1];
      if last.s == HUP then (if last.value == INOTIFY then INOTIFY else CLASSIC) else ModeBy(h[..|h| - 1])
  }

  function RunBy(h: seq<Taken>): bool {
    if h == [] then true else RunBy(h[..|h| - 1]) != (h[|h| - 1].s == INT)
  }

  function DelayBy(h: seq<Taken>): int {
    if h == [] then 10
    else if h[|h| - 1].s == USR1 && h[|h| - 1].value > 0 then h[|h| - 1].value
    else DelayBy(h[..|h| - 1])
  }

  /** The text last read for the source (value 0) or the destination (any other). */
  function DirectoryBy(h: seq<Taken>, source: bool, first: string): string {
    if h == [] then first
    else
      var last := h[|h| - 1];
      if last.s == USR2 && (last.value == 0) == source then (if last.world.text == [] then "" else last.world.text[0])
      else DirectoryBy(h[..|h| - 1], source, first)
  }

  ghost predicate AsSet(st: State, src: string, dst: string) {
    && st.mode == ModeBy(st.taken) && st.run == RunBy(st.taken) && st.delay == DelayBy(st.taken)
    && st.src == DirectoryBy(st.taken, true, src) && st.dst == DirectoryBy(st.taken, false, dst)
  }

  lemma FinishLeavesSettings(st: State, world: World)
    ensures var now := Finish(st, world);
            && now.mode == st.mode && now.run == st.run && now.delay == st.delay
            && now.src == st.src && now.dst == st.dst && now.taken == st.taken
  {
    hide CheckIncludeDirectory;
  }

  /** Each signal changes its own setting and no other. */
  lemma OneSettingEach(st: State, s: Sig, value: int, world: World)
    requires st.mode == CLASSIC || st.mode == INOTIFY
    ensures var now, text := Dispatch(st, s, value, world), if world.text == [] then "" else world.text[0];
            && now.mode == (if s == HUP then if value == INOTIFY then INOTIFY else CLASSIC else st.mode)
            && now.run == (st.run != (s == INT))
            && now.delay == (if s == USR1 && value > 0 then value else st.delay)
            && now.src == (if s == USR2 && value == 0 then text else st.src)
            && now.dst == (if s == USR2 && value != 0 then text else st.dst)
            && now.taken == st.taken
  {
    hide CheckIncludeDirectory;
    match s
    case HUP => assert OnMode(st, value).mode == if value == INOTIFY then INOTIFY else CLASSIC;
    case INT => assert OnPower(st).run == !st.run;
    case _ =>
  }

  lemma TurnAsSet(st: State, s: Sig, world: World, src: string, dst: string)
    requires AsSet(st, src, dst) && s in st.pending && !st.exited && (st.mode == CLASSIC || st.mode == INOTIFY)
    ensures AsSet(Turn(st, s, world), src, dst)
  {
    var received := Receive(st, s, world);
    OneSettingEach(received, s, st.pending[s], world);
    FinishLeavesSettings(Dispatch(received, s, st.pending[s], world), world);
    hide Dispatch, Finish;
    assert received.taken[..|received.taken| - 1] == st.taken;
  }

  /** After any events the mode is what the last SIGHUP asked for, the power is what the number of SIGINTs
      makes it, the interval is the last positive one, and the directories are the last ones read. */
  lemma {:induction false} SettingsFollowSignals(src: string, dst: string, events: seq<Event>)
    ensures AsSet(After(Initial(src, dst), events), src, dst)
    decreases |events|
  {
    if events != [] {
      var was, e := After(Initial(src, dst), events[..|events| - 1]), events[|events| - 1];
      SettingsFollowSignals(src, dst, events[..|events| - 1]);
      EveryRunIsSafe(src, dst, events[..|events| - 1]);
      if !was.exited && e.Take? && Ready(was, e.s) {
        TurnAsSet(was, e.s, e.world, src, dst);
      }
    }
  }

  // --- Full before incremental ---

  /** Since the switch into the inotify mode there has been a full backup. */
  ghost predicate Covered(acts: seq<Act>, at: nat) {
    at <= |acts| && exists i :: 0 <= i < at && acts[i] == Inotify(true) &&
                                forall k :: i < k < at ==> acts[k] != ToClassic && acts[k] != ToInotify
  }

  /** A switch into the inotify mode is followed by a full backup at once, and before every
      incremental backup there was one since the switch. */
  ghost predicate FullFirst(acts: seq<Act>) {
    && (forall i :: 0 <= i < |acts| && acts[i] == ToInotify ==> i + 1 < |acts| && acts[i + 1] == Inotify(true))
    && (forall j :: 0 <= j < |acts| && acts[j] == Inotify(false) ==> Covered(acts, j))
  }

  ghost predicate InOrder(st: State) {
    FullFirst(st.acts) && (st.mode == INOTIFY && !st.exited ==> Covered(st.acts, |st.acts|))
  }

  lemma CoveredStays(acts: seq<Act>, more: seq<Act>, at: nat)
    requires Covered(acts, at)
    ensures Covered(acts + more, at)
  {
    var i :| 0 <= i < at && acts[i] == Inotify(true) &&
             forall k :: i < k < at ==> acts[k] != ToClassic && acts[k] != ToInotify;
    assert (acts + more)[i] == Inotify(true);
  }

  /** Nothing new, a classic backup or a switch to classic mode, an incremental backup when one is
      due, or a full one, perhaps after a switch: these are what one turn can add. */
  lemma FullFirstGrows(acts: seq<Act>, more: seq<Act>)
    requires FullFirst(acts)
    requires more in {[], [Classic], [ToClassic], [Inotify(true)], [ToInotify, Inotify(true)]} ||
             (more == [Inotify(false)] && Covered(acts, |acts|))
    ensures FullFirst(acts + more)
    ensures more != [] && more[|more| - 1] == Inotify(true) ==> Covered(acts + more, |acts + more|)
    ensures more in {[], [Inotify(false)]} && Covered(acts, |acts|) ==> Covered(acts + more, |acts + more|)
  {
    var all := acts + more;
    forall j | 0 <= j < |all| && all[j] == Inotify(false) ensures Covered(all, j) {
      if j < |acts| {
        assert acts[j] == Inotify(false);
      }
      CoveredStays(acts, more, j);
    }
    forall i | 0 <= i < |all| && all[i] == ToInotify ensures i + 1 < |all| && all[i + 1] == Inotify(true) {
      if i < |acts| {
        assert acts[i] == ToInotify;
      }
    }
    if more != [] && more[|more| - 1] == Inotify(true) {
      assert all[|all| - 1] == Inotify(true);
    }
    if more in {[], [Inotify(false)]} && Covered(acts, |acts|) {
      var i :| 0 <= i < |acts| && acts[i] == Inotify(true) &&
               forall k :: i < k < |acts| ==> acts[k] != ToClassic && acts[k] != ToInotify;
      assert all[i] == Inotify(true);
    }
  }

  lemma ModeActs(st: State, value: int)
    requires st.mode == CLASSIC || st.mode == INOTIFY
    ensures var mid := OnMode(st, value);
            && mid.exited == st.exited
            && (|| (mid.acts == st.acts && mid.mode == st.mode)
                || (mid.acts == st.acts + [ToClassic] && mid.mode == CLASSIC)
                || (mid.acts == st.acts + [ToInotify] && mid.mode == INOTIFY && mid.config))
  {
  }

  lemma PowerActs(st: State)
    ensures var mid := OnPower(st); mid.acts == st.acts && mid.mode == st.mode && mid.exited == st.exited
  {
  }

  lemma DispatchActs(st: State, s: Sig, value: int, world: World)
    requires !st.exited && (st.mode == CLASSIC || st.mode == INOTIFY)
    ensures var mid := Dispatch(st, s, value, world);
            || (mid.acts == st.acts && mid.mode == st.mode)
            || (mid.acts == st.acts + [Classic] && mid.mode == st.mode && s == ALRM)
            || (mid.acts == st.acts + [ToClassic] && mid.mode == CLASSIC)
            || (mid.acts == st.acts + [ToInotify] && mid.mode == INOTIFY && mid.config && !mid.exited)
    ensures Dispatch(st, s, value, world).exited ==> s in {ALRM, TERM, QUIT}
    ensures s in {TERM, QUIT} ==> Dispatch(st, s, value, world).exited
  {
    hide CheckIncludeDirectory, OnMode, OnPower;
    match s
    case HUP => ModeActs(st, value);
    case INT => PowerActs(st);
    case ALRM =>
    case _ =>
  }

  lemma FinishActs(mid: State, world: World)
    ensures var now := Finish(mid, world);
            now.mode == mid.mode &&
            now.acts == mid.acts + if mid.exited || mid.mode != INOTIFY then [] else [Inotify(mid.config)]
  {
    hide CheckIncludeDirectory;
  }

  lemma TurnKeepsOrder(st: State, s: Sig, world: World)
    requires Safe(st) && InOrder(st) && !st.exited && Ready(st, s)
    ensures InOrder(Turn(st, s, world))
  {
    var received := Receive(st, s, world);
    var mid := Dispatch(received, s, st.pending[s], world);
    DispatchActs(received, s, st.pending[s], world);
    FinishActs(mid, world);
    ghost var now := Turn(st, s, world);
    hide Dispatch, Finish, Turn, FullFirst, Covered, CheckIncludeDirectory;
    assert s == ALRM ==> st.mode == CLASSIC;
    var first := mid.acts[|st.acts|..];
    var last := if mid.exited || mid.mode != INOTIFY then [] else [Inotify(mid.config)];
    assert first in {[], [Classic], [ToClassic], [ToInotify]};
    assert first == [ToInotify] ==> first + last == [ToInotify, Inotify(true)];
    assert first == [] ==> first + last == last;
    assert first != [] && first != [ToInotify] ==> first + last == first;
    assert now.acts == st.acts + (first + last);
    FullFirstGrows(st.acts, first + last);
  }

  lemma {:induction false} EveryRunIsInOrder(src: string, dst: string, events: seq<Event>)
    ensures InOrder(After(Initial(src, dst), events))
    decreases |events|
  {
    if events != [] {
      var was, e := After(Initial(src, dst), events[..|events| - 1]), events[|events| - 1];
      EveryRunIsInOrder(src, dst, events[..|events| - 1]);
      EveryRunIsSafe(src, dst, events[..|events| - 1]);
      if !was.exited && e.Take? && Ready(was, e.s) {
        TurnKeepsOrder(was, e.s, e.world);
      }
    }
  }

  // --- What signals undo and what they miss ---

  /** Stopping and starting again, and going to the inotify mode and back with any other value,
      known or not, leave the wait set as it was. */
  lemma SwitchesUndone(st: State, value: int)
    requires SafeWithin(st)
    ensures OnPower(OnPower(st)) == st
    ensures st.mode == CLASSIC && value != INOTIFY ==>
              OnMode(OnMode(st, INOTIFY), value).sig == st.sig && OnMode(OnMode(st, INOTIFY), value).mode == CLASSIC
  {
    assert OnPower(OnPower(st)).sig == st.sig;
    if st.mode == CLASSIC && value != INOTIFY {
      assert OnMode(OnMode(st, INOTIFY), value).sig == st.sig;
    }
  }

  /** The mode may be switched while the daemon is stopped. */
  lemma ModeSetWhileStopped(st: State, value: int)
    requires SafeWithin(st) && st.run
    ensures OnPower(OnMode(OnPower(st), value)) == OnMode(st, value)
  {
    var a, b := OnPower(OnMode(OnPower(st), value)), OnMode(st, value);
    assert a.sig == b.sig;
  }

  /** A controller that sends a new directory in inotify mode gets a full backup in the same turn
      exactly when the two directories are then the same, that is when there is nothing to back up;
      for directories that differ the next backup is incremental, on the old watches. */
  lemma NewDirectoryIsIndexed(st: State, world: World)
    requires Safe(st) && st.mode == INOTIFY && !st.exited && Ready(st, USR2)
    ensures var now := Turn(st, USR2, world);
            now.acts == st.acts + [Inotify(world.text != [] && world.usable && now.src == now.dst)]
  {
    hide CheckIncludeDirectory;
  }

  /** In inotify mode every turn ends with a backup, even while the daemon is stopped; in classic
      mode none does. */
  lemma StoppedStillCopies(st: State, s: Sig, world: World)
    requires Safe(st) && !st.exited && Ready(st, s)
    ensures var now := Turn(st, s, world);
            if now.mode == INOTIFY && s !in {TERM, QUIT}
            then |now.acts| > |st.acts| && now.acts[|now.acts| - 1].Inotify?
            else now.acts == st.acts || exists a :: now.acts == st.acts + [a] && !a.Inotify?
  {
    var received := Receive(st, s, world);
    var mid := Dispatch(received, s, st.pending[s], world);
    DispatchActs(received, s, st.pending[s], world);
    FinishActs(mid, world);
    hide CheckIncludeDirectory, Dispatch, Finish;
    assert s == ALRM ==> st.mode == CLASSIC;
    assert (!mid.exited && mid.mode == INOTIFY) || Turn(st, s, world).acts == mid.acts;
  }

  // --- Two runs ---

  lemma AfterMore(st: State, events: seq<Event>, e: Event)
    ensures After(st, events + [e]) == Step(After(st, events), e)
  {
    assert (events + [e])[..|events|] == events;
  }

  const QUIET := World([], false, false)

  /** The controller asks for the inotify mode, as the first thing that happens. */
  const INTO_INOTIFY: seq<Event> := [Arrive(HUP, INOTIFY), Take(HUP, QUIET)]

  lemma InotifyMode(src: string, dst: string)
    ensures After(Initial(src, dst), INTO_INOTIFY) ==
            Initial(src, dst).(mode := INOTIFY, sig := ALL_SIGNALS - {ALRM}, pending := map[CHLD := 0],
                               acts := [ToInotify, Inotify(true)], copies := [Copy(src, dst)],
                               taken := [Taken(HUP, INOTIFY, QUIET)])
  {
    var st := Initial(src, dst);
    var asked := Step(st, Arrive(HUP, INOTIFY));
    assert INTO_INOTIFY == [] + [Arrive(HUP, INOTIFY)] + [Take(HUP, QUIET)];
    AfterMore(st, [], Arrive(HUP, INOTIFY));
    AfterMore(st, [] + [Arrive(HUP, INOTIFY)], Take(HUP, QUIET));
    hide CheckIncludeDirectory;
    assert asked.pending == map[HUP := INOTIFY];
    var now := Step(asked, Take(HUP, QUIET));
    assert now.pending == map[CHLD := 0];
    assert now.sig == ALL_SIGNALS - {ALRM};
    assert now.acts == [ToInotify, Inotify(true)];
    assert now.taken == [Taken(HUP, INOTIFY, QUIET)] && now.copies == [Copy(src, dst)];
  }

  /** The daemon is watching src and is told to watch another directory, which exists and is not dst:
      the next backup into dst is an incremental one, and no full one of the new directory was made. */
  lemma NewSourceIsNotIndexed(src: string, dst: string, other: string)
    requires other != dst
    ensures var news := World([other], true, false);
            var st := After(Initial(src, dst), INTO_INOTIFY + [Arrive(USR2, 0)] + [Take(USR2, news)]);
            st.src == other && st.dst == dst && st.mode == INOTIFY && st.run && !st.exited &&
            st.acts == [ToInotify, Inotify(true), Inotify(false)]
  {
    hide CheckIncludeDirectory;
    var first, news := Initial(src, dst), World([other], true, false);
    InotifyMode(src, dst);
    var st := After(first, INTO_INOTIFY);
    AfterMore(first, INTO_INOTIFY, Arrive(USR2, 0));
    AfterMore(first, INTO_INOTIFY + [Arrive(USR2, 0)], Take(USR2, news));
    hide After;
    var told := Step(st, Arrive(USR2, 0));
    assert Ready(told, USR2);
    var now := Step(told, Take(USR2, news));
    assert now.acts == st.acts + [Inotify(false)];
  }

  /** The daemon is stopped in inotify mode and then asked whether it is there: it makes a backup for
      each of the two signals. */
  lemma StoppedDaemonCopies(src: string, dst: string)
    ensures var st := After(Initial(src, dst), INTO_INOTIFY + [Arrive(INT, 0)] + [Take(INT, QUIET)]
                                               + [Arrive(USR1, -1)] + [Take(USR1, QUIET)]);
            !st.run && st.mode == INOTIFY && !st.exited &&
            st.acts == [ToInotify, Inotify(true), Inotify(false), Inotify(false)]
  {
    hide CheckIncludeDirectory;
    var first := Initial(src, dst);
    InotifyMode(src, dst);
    var es := INTO_INOTIFY + [Arrive(INT, 0)] + [Take(INT, QUIET)];
    AfterMore(first, INTO_INOTIFY, Arrive(INT, 0));
    AfterMore(first, INTO_INOTIFY + [Arrive(INT, 0)], Take(INT, QUIET));
    AfterMore(first, es, Arrive(USR1, -1));
    AfterMore(first, es + [Arrive(USR1, -1)], Take(USR1, QUIET));
    var st := After(first, INTO_INOTIFY);
    hide After;
    var stopped := Step(Step(st, Arrive(INT, 0)), Take(INT, QUIET));
    assert !stopped.run && stopped.mode == INOTIFY && !stopped.exited && USR1 in stopped.sig && !stopped.config;
    assert stopped.acts == [ToInotify, Inotify(true), Inotify(false)] && stopped.pending == map[CHLD := 0];
    var now := Step(Step(stopped, Arrive(USR1, -1)), Take(USR1, QUIET));
    assert now.acts == stopped.acts + [Inotify(false)];
  }

  // --- The loop itself ---

  class Daemon {
    var mode: int
    var run: bool
    var delay: int
    var config: bool
    var sig: set<Sig>
    var src: string
    var dst: string
    var alarm: int
    var pending: map<Sig, int>
    var exited: bool
    var acts: seq<Act>
    var copies: seq<Copy>
    ghost var taken: seq<Taken>

    ghost function Now(): State
      reads this
    {
      State(mode, run, delay, config, sig, src, dst, alarm, pending, exited, acts, copies, taken)
    }

    /** What stands before the loop: sigmask_configuration, the first alarm. */
    constructor (src: string, dst: string)
      ensures Now() == Initial(src, dst)
    {
      mode, run, delay, config := CLASSIC, true, 10, false;
      sig := ALL_SIGNALS - {CHLD};
      this.src, this.dst := src, dst;
      alarm := 10;
      pending := map[];
      exited := false;
      acts := [];
      copies := [];
      taken := [];
    }

    method BackUpOnAlarm(world: World)
      modifies this
      ensures Now() == OnAlarm(old(Now()), world)
    {
      hide CheckIncludeDirectory;
      alarm := delay;
      if CheckIncludeDirectory(src, dst) == 0 {
        acts := acts + [Classic];
        copies := copies + [Copy(src, dst)];
        exited := world.fatal;
      }
    }

    /** -1 is how the controller asks whether the daemon is there. */
    method SetInterval(value: int)
      modifies this
      ensures Now() == OnInterval(old(Now()), value)
    {
      if value == -1 {
        return;
      }
      delay := if value > 0 then value else delay;
    }

    method SetDirectory(value: int, world: World)
      modifies this
      ensures Now() == OnDirectory(old(Now()), value, world)
    {
      var text := if world.text == [] then "" else world.text[0];
      if value == 0 {
        src := text;
      } else {
        dst := text;
      }
      if world.text == [] || !world.usable {
        return;
      }
      if src == dst {
        config := true;
      }
    }

    method SetMode(value: int)
      modifies this
      ensures Now() == OnMode(old(Now()), value)
    {
      if mode != value {
        if value == INOTIFY {
          mode := INOTIFY;
          config := true;
          sig := sig - {ALRM};
          if run {
            sig := sig + {CHLD};
          }
          acts := acts + [ToInotify];
        } else {
          mode := CLASSIC;
          config := false;
          sig := sig - {CHLD};
          if run {
            sig := sig + {ALRM};
          }
          acts := acts + [ToClassic];
        }
      }
    }

    method TogglePower()
      modifies this
      ensures Now() == OnPower(old(Now()))
    {
      if run {
        sig := sig - {ALRM};
        sig := sig - {CHLD};
      } else {
        if mode == CLASSIC {
          sig := sig + {ALRM};
        }
        if mode == INOTIFY {
          sig := sig + {CHLD};
        }
      }
      run := !run;
    }

    /** The switch, on the signal s with the value info.si_int. */
    method TakeSignal(s: Sig, value: int, world: World)
      modifies this
      ensures Now() == Dispatch(old(Now()), s, value, world)
    {
      hide OnAlarm, OnInterval, OnDirectory, OnMode, OnPower;
      match s
      case ALRM => BackUpOnAlarm(world);
      case USR1 => SetInterval(value);
      case USR2 => SetDirectory(value, world);
      case HUP => SetMode(value);
      case QUIT => exited := true;
      case TERM => exited := true;
      case INT => TogglePower();
      case CHLD =>
    }

    /** One turn of the loop, from sigwaitinfo to the inotify backup at its end. */
    method HandleSignal(s: Sig, world: World)
      requires Ready(Now(), s)
      modifies this
      ensures Now() == Turn(old(Now()), s, world)
    {
      hide Dispatch, CheckIncludeDirectory;
      var value := pending[s];
      pending := pending - {s};
      taken := taken + [Taken(s, value, world)];
      TakeSignal(s, value, world);
      BackUpInotify(world);
    }

    /** The end of a turn: backup_inotify, and the SIGCHLD the daemon sends to itself. */
    method BackUpInotify(world: World)
      modifies this
      ensures Now() == Finish(old(Now()), world)
    {
      hide CheckIncludeDirectory;
      if exited || mode != INOTIFY {
        return;
      }
      acts := acts + [Inotify(config)];
      copies := copies + [Copy(src, dst)];
      if world.fatal && CheckIncludeDirectory(src, dst) == 0 {
        exited := true;
        return;
      }
      Raise(CHLD, 0);
      config := false;
    }

    /** A standard signal that is pending already is not queued again. */
    method Raise(s: Sig, value: int)
      modifies this`pending
      ensures pending == Send(old(pending), s, value)
    {
      if s !in pending {
        pending := pending[s := value];
      }
    }

    /** The loop over all that happens until it shuts down. */
    method Serve(events: seq<Event>)
      requires !exited
      modifies this
      ensures Now() == After(old(Now()), events)
    {
      var i := 0;
      while i < |events|
        invariant i <= |events|
        invariant Now() == After(old(Now()), events[..i])
      {
        assert events[..i + 1][..i] == events[..i];
        if !exited {
          match events[i]
          case Fire =>
            if alarm > 0 {
              alarm := 0;
              Raise(ALRM, 0);
            }
          case Arrive(s, value) =>
            Raise(s, value);
          case Take(s, world) =>
            if s in sig && s in pending {
              HandleSignal(s, world);
            }
        }
        i := i + 1;
      }
      assert events[..|events|] == events;
    }
  }
}
