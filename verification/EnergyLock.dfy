/** The energy lock (frontend/src/App.tsx): `useEnergyState`, whose polling closures keep the flags they
    were made with, and the choice of screen in `Shell`. */
module EnergyLock {
  /** What the polling closure captured when its effect last ran. */
  datatype Captured = Captured(locked: bool, screensaver: bool)

  /** A status request on its way, with the closure that sent it. */
  datatype Poll = Poll(captured: Captured, done: bool)

  datatype Screen = LockScreen | Screensaver | Popout | TvHome | Desktop

  /** The parts of the shell's situation that are decided elsewhere. */
  datatype Surroundings = Surroundings(popout: bool, tv: bool)

  /** `committed` are the flags of the last render that reached the page, and `shown` its screen; the
      effect that owns the interval follows a commit in its own time. */
  datatype State = State(locked: bool, screensaver: bool, around: Surroundings,
                         committed: Captured, shown: Screen, closure: Captured, polls: seq<Poll>)

  datatype Status = Failed | NotARecord | Record(screenOn: bool, screenDimmed: bool)

  datatype Action =
    | Tick
    | Answer(i: nat, status: Status)
    | LockKey
    | Unlock
    | Dismiss
    | Surround(around: Surroundings)
    | Commit
    | Flush

  /** Which screen the flags call for. */
  function Render(s: State): Screen {
    if s.locked then LockScreen
    else if s.screensaver then Screensaver
    else if s.around.popout then Popout
    else if s.around.tv then TvHome
    else Desktop
  }

  predicate ScreenOff(st: Status) {
    st.NotARecord? || (st.Record? && !st.screenOn)
  }

  predicate Dimmed(st: Status) {
    st.Record? && st.screenDimmed
  }

  predicate Pending(s: State, i: nat) {
    i < |s.polls| && !s.polls[i].done
  }

  function OnAnswer(s: State, i: nat, status: Status): State {
    if !Pending(s, i) then s
    else
      var c := s.polls[i].captured;
      var s' := s.(polls := s.polls[i := s.polls[i].(done := true)]);
      if status.Failed? then s'
      else if ScreenOff(status) && !c.locked then s'.(locked := true)
      else if Dimmed(status) && !c.screensaver && !c.locked then s'.(screensaver := true)
      else s'
  }

  function Next(s: State, a: Action): State {
    match a
    case Tick => s.(polls := s.polls + [Poll(s.closure, false)])
    case Answer(i, status) => OnAnswer(s, i, status)
    case LockKey => s.(locked := true, screensaver := false)
    case Unlock => s.(locked := false, screensaver := false)
    case Dismiss => s.(screensaver := false)
    case Surround(around) => s.(around := around)
    case Commit => s.(committed := Captured(s.locked, s.screensaver), shown := Render(s))
    case Flush => s.(closure := s.committed)
  }

  function Exec(s: State, actions: seq<Action>): State
    decreases |actions|
  {
    if actions == [] then s else Exec(Next(s, actions[0]), actions[1..])
  }

  // ---- What each event and each screen mean ----

  /** A status answer, on the fields of the record: one that the poll's closure judges without a known lock
      locks if and only if it is no record or has the screen off; it starts the screensaver if and only if the
      screen is on and dimmed and the closure knew of neither flag; a failed one changes nothing. */
  lemma AnswerMeans(s: State, i: nat, status: Status)
    requires Pending(s, i)
    ensures var s', known := Next(s, Answer(i, status)), s.polls[i].captured;
            && (s'.locked <==> s.locked || (!known.locked && (status == NotARecord || (status.Record? && !status.screenOn))))
            && (s'.screensaver <==>
                  || s.screensaver
                  || (!known.locked && !known.screensaver && status.Record? && status.screenOn && status.screenDimmed))
            && (status == Failed ==> s'.locked == s.locked && s'.screensaver == s.screensaver)
            && s'.around == s.around && s'.committed == s.committed && s'.shown == s.shown && s'.closure == s.closure
            && s'.polls == s.polls[i := Poll(known, true)]
  {
  }

  /** The lock key locks and ends the screensaver, an unlock ends both, a dismissal ends the screensaver alone,
      and nothing else but a status answer changes a flag. */
  lemma EventsMean(s: State, a: Action)
    ensures var s' := Next(s, a);
            && (a == LockKey ==> s'.locked && !s'.screensaver)
            && (a == Unlock ==> !s'.locked && !s'.screensaver)
            && (a == Dismiss ==> s'.locked == s.locked && !s'.screensaver)
            && (a.Tick? || a.Surround? || a.Commit? || a.Flush? ==> s'.locked == s.locked && s'.screensaver == s.screensaver)
            && (a.Answer? && !Pending(s, a.i) ==> s' == s)
  {
  }

  predicate Without(actions: seq<Action>, a: Action) {
    forall i :: 0 <= i < |actions| ==> actions[i] != a
  }

  lemma {:induction false} CommittedStays(s: State, actions: seq<Action>)
    requires Without(actions, Commit)
    ensures Exec(s, actions).committed == s.committed
    decreases |actions|
  {
    if actions != [] {
      assert actions[0] != Commit;
      assert forall j :: 0 <= j < |actions[1..]| ==> actions[1..][j] == actions[j + 1];
      CommittedStays(Next(s, actions[0]), actions[1..]);
    }
  }

  lemma {:induction false} ClosureStays(s: State, actions: seq<Action>)
    requires Without(actions, Flush)
    ensures Exec(s, actions).closure == s.closure
    decreases |actions|
  {
    if actions != [] {
      assert actions[0] != Flush;
      assert forall j :: 0 <= j < |actions[1..]| ==> actions[1..][j] == actions[j + 1];
      ClosureStays(Next(s, actions[0]), actions[1..]);
    }
  }

  /** A poll is sent with the flags of the last commit before the last run of the effect, whatever has happened
      in between and since. */
  lemma PollCaptures(s: State, between: seq<Action>, since: seq<Action>)
    requires Without(between, Commit) && Without(since, Flush)
    ensures var flushed := Next(Exec(Next(s, Commit), between), Flush);
            var sent := Next(Exec(flushed, since), Tick);
            && |sent.polls| == |Exec(flushed, since).polls| + 1
            && sent.polls[|sent.polls| - 1] == Poll(Captured(s.locked, s.screensaver), false)
            && sent == Exec(flushed, since).(polls := sent.polls)
  {
    CommittedStays(Next(s, Commit), between);
    ClosureStays(Next(Exec(Next(s, Commit), between), Flush), since);
  }

  /** What a commit shows: the lock screen exactly when locked, otherwise the screensaver exactly when it is on,
      then the popout, the television home on a television, and the desktop. */
  lemma ScreenExactly(s: State)
    ensures var shown := Next(s, Commit).shown;
            && (shown == LockScreen <==> s.locked)
            && (shown == Screensaver <==> !s.locked && s.screensaver)
            && (shown == Popout <==> !s.locked && !s.screensaver && s.around.popout)
            && (shown == TvHome <==> !s.locked && !s.screensaver && !s.around.popout && s.around.tv)
            && (shown == Desktop <==> !s.locked && !s.screensaver && !s.around.popout && !s.around.tv)
  {
  }

  // ---- When a flag is on ----

  datatype Flag = Lock | Saver

  predicate IsOn(flag: Flag, s: State) {
    match flag
    case Lock => s.locked
    case Saver => s.screensaver
  }

  /** The step asks for the lock: the key, or a pending poll that found the screen off and whose closure
      saw no lock. */
  predicate Locks(s: State, a: Action) {
    || a.LockKey?
    || (a.Answer? && Pending(s, a.i) && !s.polls[a.i].captured.locked && ScreenOff(a.status))
  }

  /** The step asks for the screensaver: a pending poll that found the screen on but dimmed, and whose
      closure saw neither flag. */
  predicate Saves(s: State, a: Action) {
    && a.Answer? && Pending(s, a.i) && !s.polls[a.i].captured.locked && !s.polls[a.i].captured.screensaver
    && Dimmed(a.status) && !ScreenOff(a.status)
  }

  /** Both in terms of the fields. */
  lemma TurnsExactly(s: State, a: Action)
    ensures TurnsOn(Lock, s, a) <==>
              || a == LockKey
              || (a.Answer? && Pending(s, a.i) && !s.polls[a.i].captured.locked
                  && (a.status == NotARecord || (a.status.Record? && !a.status.screenOn)))
    ensures TurnsOn(Saver, s, a) <==>
              && a.Answer? && Pending(s, a.i) && s.polls[a.i].captured == Captured(false, false)
              && a.status.Record? && a.status.screenOn && a.status.screenDimmed
    ensures TurnsOff(Lock, a) <==> a == Unlock
    ensures TurnsOff(Saver, a) <==> a == Unlock || a == Dismiss || a == LockKey
  {
  }

  predicate TurnsOn(flag: Flag, s: State, a: Action) {
    match flag
    case Lock => Locks(s, a)
    case Saver => Saves(s, a)
  }

  predicate TurnsOff(flag: Flag, a: Action) {
    match flag
    case Lock => a.Unlock?
    case Saver => a.Unlock? || a.Dismiss? || a.LockKey?
  }

  predicate NeverOff(flag: Flag, actions: seq<Action>) {
    forall j :: 0 <= j < |actions| ==> !TurnsOff(flag, actions[j])
  }

  /** Step `i` of the run turns the flag on and no later step turns it off. */
  ghost predicate OnSince(flag: Flag, s: State, actions: seq<Action>, i: int) {
    0 <= i < |actions| && TurnsOn(flag, Exec(s, actions[..i]), actions[i]) && NeverOff(flag, actions[i + 1..])
  }

  predicate NoUnlock(actions: seq<Action>) {
    NeverOff(Lock, actions)
  }

  lemma {:induction false} ExecSnoc(s: State, actions: seq<Action>, a: Action)
    ensures Exec(s, actions + [a]) == Next(Exec(s, actions), a)
    decreases |actions|
  {
    hide Next;
    if actions != [] {
      assert (actions + [a])[1..] == actions[1..] + [a];
      ExecSnoc(Next(s, actions[0]), actions[1..], a);
    } else {
      assert (actions + [a])[1..] == [];
      assert Exec(Next(s, a), []) == Next(s, a);
    }
  }

  lemma NeverOffSnoc(flag: Flag, actions: seq<Action>, a: Action)
    ensures NeverOff(flag, actions + [a]) <==> NeverOff(flag, actions) && !TurnsOff(flag, a)
  {
    hide TurnsOff;
    var all := actions + [a];
    assert all[|actions|] == a;
    assert forall j :: 0 <= j < |actions| ==> all[j] == actions[j];
  }

  lemma NeverOffTail(flag: Flag, actions: seq<Action>)
    requires actions != [] && NeverOff(flag, actions)
    ensures NeverOff(flag, actions[1..]) && !TurnsOff(flag, actions[0])
  {
    hide TurnsOff;
  }

  lemma OnSinceSnoc(flag: Flag, s: State, actions: seq<Action>, a: Action, i: int)
    requires 0 <= i <= |actions|
    ensures OnSince(flag, s, actions + [a], i) <==>
            if i == |actions| then TurnsOn(flag, Exec(s, actions), a) else OnSince(flag, s, actions, i) && !TurnsOff(flag, a)
  {
    hide Exec, TurnsOn, TurnsOff;
    var all := actions + [a];
    assert all[..i] == actions[..i] && actions[..|actions|] == actions;
    if i < |actions| {
      assert all[i + 1..] == actions[i + 1..] + [a];
      NeverOffSnoc(flag, actions[i + 1..], a);
    }
  }

  lemma SinceSnoc(flag: Flag, s: State, actions: seq<Action>, a: Action)
    ensures (exists i :: OnSince(flag, s, actions + [a], i)) <==>
            TurnsOn(flag, Exec(s, actions), a) || (!TurnsOff(flag, a) && exists i :: OnSince(flag, s, actions, i))
  {
    var all := actions + [a];
    OnSinceSnoc(flag, s, actions, a, |actions|);
    if i :| OnSince(flag, s, all, i) {
      OnSinceSnoc(flag, s, actions, a, i);
    }
    if i :| OnSince(flag, s, actions, i) {
      OnSinceSnoc(flag, s, actions, a, i);
    }
  }

  lemma FlagStep(flag: Flag, s: State, a: Action)
    ensures IsOn(flag, Next(s, a)) <==> TurnsOn(flag, s, a) || (IsOn(flag, s) && !TurnsOff(flag, a))
  {
  }

  /** Lock and screensaver are on exactly when some step turned them on and none has turned them off since,
      whatever else happened in between: stale polls, dismissals, commits and effects in any order. */
  lemma {:induction false} FlagExactly(flag: Flag, s: State, actions: seq<Action>)
    ensures IsOn(flag, Exec(s, actions)) <==>
            (exists i :: OnSince(flag, s, actions, i)) || (IsOn(flag, s) && NeverOff(flag, actions))
    decreases |actions|
  {
    if actions != [] {
      var n := |actions| - 1;
      var front, a := actions[..n], actions[n];
      assert actions == front + [a];
      FlagExactly(flag, s, front);
      hide Exec, OnSince, NeverOff, TurnsOn, TurnsOff, IsOn, Next;
      ExecSnoc(s, front, a);
      SinceSnoc(flag, s, front, a);
      NeverOffSnoc(flag, front, a);
      FlagStep(flag, Exec(s, front), a);
    }
  }

  /** Once locked, and until an unlock, every render is the lock screen: no desktop, popout, television
      home or screensaver reaches the page, even when a late poll has set the screensaver as well. */
  lemma LockPersists(s: State, actions: seq<Action>)
    requires s.locked && NoUnlock(actions)
    ensures Exec(s, actions).locked
    ensures Render(Exec(s, actions)) == LockScreen
    ensures Exec(s, actions + [Commit]).shown == LockScreen
  {
    FlagExactly(Lock, s, actions);
    hide Exec;
    ExecSnoc(s, actions, Commit);
  }

  /** The same of what is on the page: once the lock screen is shown it stays until an unlock. */
  lemma {:induction false} LockScreenStays(s: State, actions: seq<Action>)
    requires s.locked && s.shown == LockScreen && NoUnlock(actions)
    ensures Exec(s, actions).shown == LockScreen
    decreases |actions|
  {
    if actions != [] {
      NeverOffTail(Lock, actions);
      LockScreenStays(Next(s, actions[0]), actions[1..]);
    }
  }

  // ---- Polls ----

  /** One answer clears no flag, locks only as `Locks` says, and does nothing at all if the poll was sent while
      its closure knew of the lock. */
  lemma LatePollOnlyAdds(s: State, i: nat, status: Status)
    ensures var s' := Next(s, Answer(i, status));
            && (s.locked ==> s'.locked) && (s.screensaver ==> s'.screensaver)
            && (s'.locked && s'.screensaver && !s.locked ==> s.screensaver)
            && s' == s.(locked := s'.locked, screensaver := s'.screensaver, polls := s'.polls)
            && (Pending(s, i) && s.polls[i].captured.locked ==> s'.locked == s.locked && s'.screensaver == s.screensaver)
            && (s'.locked != s.locked <==> !s.locked && Locks(s, Answer(i, status)))
  {
  }

  /** Every poll from number `from` on was sent by a closure that knew of the lock. */
  predicate KnowOfLock(s: State, from: nat) {
    forall i :: from <= i < |s.polls| ==> s.polls[i].captured.locked
  }

  /** A poll never learns anything new. */
  lemma {:induction false} PollKeepsView(s: State, actions: seq<Action>, i: nat)
    requires i < |s.polls|
    ensures i < |Exec(s, actions).polls| && Exec(s, actions).polls[i].captured == s.polls[i].captured
    decreases |actions|
  {
    if actions != [] {
      PollKeepsView(Next(s, actions[0]), actions[1..], i);
    }
  }

  lemma {:induction false} PollsUnderLockKnow(s: State, actions: seq<Action>, from: nat)
    requires s.locked && s.committed.locked && s.closure.locked && from <= |s.polls| && KnowOfLock(s, from) && NoUnlock(actions)
    ensures var e := Exec(s, actions); |e.polls| >= |s.polls| && KnowOfLock(e, from)
    decreases |actions|
  {
    if actions != [] {
      NeverOffTail(Lock, actions);
      PollsUnderLockKnow(Next(s, actions[0]), actions[1..], from);
    }
  }

  /** From the moment the effect has caught up with the lock, every poll sent until the next unlock is
      inert: whenever its answer comes, after any further events, that unlock among them, it changes
      neither flag. */
  lemma PollsUnderLockAreInert(s: State, actions: seq<Action>, later: seq<Action>, i: nat, status: Status)
    requires s.locked && s.committed.locked && s.closure.locked && NoUnlock(actions)
    requires |s.polls| <= i < |Exec(s, actions).polls|
    ensures var e := Exec(Exec(s, actions), later);
            var e' := Next(e, Answer(i, status));
            e'.locked == e.locked && e'.screensaver == e.screensaver
  {
    PollsUnderLockKnow(s, actions, |s.polls|);
    PollKeepsView(Exec(s, actions), later, i);
    LatePollOnlyAdds(Exec(Exec(s, actions), later), i, status);
  }

  predicate NotAnswered(actions: seq<Action>, i: nat) {
    forall j :: 0 <= j < |actions| ==> !(actions[j].Answer? && actions[j].i == i)
  }

  lemma {:induction false} PollStaysPending(s: State, actions: seq<Action>, i: nat)
    requires Pending(s, i) && NotAnswered(actions, i)
    ensures Pending(Exec(s, actions), i)
    decreases |actions|
  {
    if actions != [] {
      assert !(actions[0].Answer? && actions[0].i == i);
      assert forall j :: 0 <= j < |actions[1..]| ==> actions[1..][j] == actions[j + 1];
      PollStaysPending(Next(s, actions[0]), actions[1..], i);
    }
  }

  /** A poll sent by a closure that knew of no lock keeps its stale view: whatever happens before its answer,
      locks and unlocks among it, the answer locks the shell if it found the screen off, and not otherwise. So
      right after an unlock it locks again exactly then. */
  lemma StalePollCanRelock(s: State, actions: seq<Action>, i: nat, status: Status)
    requires Pending(s, i) && !s.polls[i].captured.locked && NotAnswered(actions, i)
    ensures var e := Exec(s, actions);
            && (Next(e, Answer(i, status)).locked <==> e.locked || status == NotARecord || (status.Record? && !status.screenOn))
            && (actions != [] && actions[|actions| - 1].Unlock? ==>
                  (Next(e, Answer(i, status)).locked <==> status == NotARecord || (status.Record? && !status.screenOn)))
  {
    PollStaysPending(s, actions, i);
    PollKeepsView(s, actions, i);
    AnswerMeans(Exec(s, actions), i, status);
    if actions != [] && actions[|actions| - 1].Unlock? {
      hide Exec;
      var front := actions[..|actions| - 1];
      ExecSnoc(s, front, Action.Unlock);
      assert actions == front + [Action.Unlock];
    }
  }

  // ---- The hook as code ----

  class EnergyState {
    var locked: bool
    var screensaver: bool
    var around: Surroundings
    var committed: Captured
    var shown: Screen
    var closure: Captured
    var polls: seq<Poll>

    ghost function View(): State
      reads this
    {
      State(locked, screensaver, around, committed, shown, closure, polls)
    }

    /** Mounted, first render committed and effects run. */
    constructor (around: Surroundings)
      ensures View() == (var s := State(false, false, around, Captured(false, false), Desktop, Captured(false, false), []);
                         s.(shown := Render(s)))
    {
      locked, screensaver := false, false;
      this.around := around;
      committed, closure := Captured(false, false), Captured(false, false);
      shown := if around.popout then Popout else if around.tv then TvHome else Desktop;
      polls := [];
    }

    method OnInterval()
      modifies this`polls
      ensures View() == Next(old(View()), Tick)
    {
      polls := polls + [Poll(closure, false)];
    }

    method OnStatus(i: nat, status: Status)
      modifies this
      ensures View() == Next(old(View()), Answer(i, status))
    {
      if i < |polls| && !polls[i].done {
        var captured := polls[i].captured;
        polls := polls[i := polls[i].(done := true)];
        if !status.Failed? {
          var screenOn := status.Record? && status.screenOn;
          var screenDimmed := status.Record? && status.screenDimmed;
          if !screenOn && !captured.locked {
            locked := true;
          } else if screenDimmed && !captured.screensaver && !captured.locked {
            screensaver := true;
          }
        }
      }
    }

    method OnLockKey()
      modifies this`locked, this`screensaver
      ensures View() == Next(old(View()), Action.LockKey)
    {
      locked := true;
      screensaver := false;
    }

    method UnlockNow()
      modifies this`locked, this`screensaver
      ensures View() == Next(old(View()), Action.Unlock)
    {
      locked := false;
      screensaver := false;
    }

    method DismissScreensaver()
      modifies this`screensaver
      ensures View() == Next(old(View()), Action.Dismiss)
    {
      screensaver := false;
    }

    method CommitRender()
      modifies this`committed, this`shown
      ensures View() == Next(old(View()), Action.Commit)
    {
      committed := Captured(locked, screensaver);
      if locked {
        shown := LockScreen;
      } else if screensaver {
        shown := Screensaver;
      } else if around.popout {
        shown := Popout;
      } else if around.tv {
        shown := TvHome;
      } else {
        shown := Desktop;
      }
    }

    /** The old interval is cleared and a new one captures the committed flags. */
    method RunEffect()
      modifies this`closure
      ensures View() == Next(old(View()), Flush)
    {
      closure := committed;
    }

    method OnSurroundings(around: Surroundings)
      modifies this`around
      ensures View() == Next(old(View()), Surround(around))
    {
      this.around := around;
    }

    /** Whatever happens next. */
    method Handle(a: Action)
      modifies this
      ensures View() == Next(old(View()), a)
    {
      match a
      case Tick => OnInterval();
      case Answer(i, status) => OnStatus(i, status);
      case LockKey => OnLockKey();
      case Unlock => UnlockNow();
      case Dismiss => DismissScreensaver();
      case Surround(around) => OnSurroundings(around);
      case Commit => CommitRender();
      case Flush => RunEffect();
    }

    /** Any events in any order. Each flag is then on exactly if an event turned it on and none turned it off
        since; a lock screen that was up still is unless there was an unlock; and if the effect had caught up
        with the lock, every poll sent meanwhile knows of it. */
    method Play(actions: seq<Action>)
      modifies this
      ensures View() == Exec(old(View()), actions)
      ensures locked <==> (exists i :: OnSince(Lock, old(View()), actions, i)) || (old(locked) && NeverOff(Lock, actions))
      ensures screensaver <==> (exists i :: OnSince(Saver, old(View()), actions, i)) || (old(screensaver) && NeverOff(Saver, actions))
      ensures old(locked && shown == LockScreen) && NoUnlock(actions) ==> locked && shown == LockScreen
      ensures old(locked && committed.locked && closure.locked) && NoUnlock(actions) ==> KnowOfLock(View(), old(|polls|))
    {
      hide Next, OnSince, NeverOff, KnowOfLock;
      ghost var start := View();
      FlagExactly(Lock, start, actions);
      FlagExactly(Saver, start, actions);
      if start.locked && NoUnlock(actions) {
        if start.shown == LockScreen {
          LockScreenStays(start, actions);
        }
        if start.committed.locked && start.closure.locked {
          NothingSentYet(start);
          PollsUnderLockKnow(start, actions, |start.polls|);
        }
      }
      var i := 0;
      while i < |actions|
        invariant 0 <= i <= |actions|
        invariant Exec(start, actions) == Exec(View(), actions[i..])
      {
        assert actions[i..][0] == actions[i] && actions[i..][1..] == actions[i + 1..];
        Handle(actions[i]);
        i := i + 1;
      }
    }

    lemma NothingSentYet(s: State)
      ensures KnowOfLock(s, |s.polls|)
    {
    }
  }
}
