/** The boot gate (frontend/src/App.tsx): `AuthGate` decides between setup, sign-in, offline unlock and
    the shell from probes and timers that complete in any order, over effects that may be cleaned up and
    run again. */
module AuthGate {
  import opened Wrappers

  datatype Answer = Yes | No | Unknown

  /** One run of an effect: its `alive` flag, and how far what it started has come. */
  datatype Run<T> = Run(alive: bool, stage: T)

  datatype Asked = Awaited | Completed

  /** A run of the setup effect. */
  type Probe = Run<Asked>

  /** What the offline effect's race came to; `None` is the timeout or a probe that threw. */
  datatype Enrolment = Enrolment(enrolled: bool, identity: Option<string>)

  datatype Finish = Racing | Won(result: Option<Enrolment>) | Delivered(result: Option<Enrolment>)

  /** A run of the offline effect. */
  type Race = Run<Finish>

  datatype Screen = Blank | SetupUnknown | Loading | Setup | OfflineLock | Login | Shell

  /** What the session provider says. */
  datatype Session = Session(user: bool, loading: bool, offline: bool)

  /** `effectsOn` tells whether the effects are running; `committed` is the probe attempt of the render on
      the page and `probed` the one the setup effect last ran for; `shown` is the screen on the page. */
  datatype State = State(setupDone: Option<bool>, probeFailed: bool, attempt: nat,
                         enrolled: Option<bool>, identity: Option<string>, session: Session,
                         effectsOn: bool, committed: nat, probed: nat, shown: Screen,
                         probes: seq<Probe>, races: seq<Race>)

  datatype Action =
    | RunEffects
    | CleanUp
    | Commit
    | Flush
    | Probed(i: nat, answer: Answer)
    | ChooseSetup
    | ChooseSignIn
    | AskAgain
    | WizardDone
    | EnrolmentRead(i: nat, result: Option<Enrolment>)
    | TimedOut(i: nat)
    | RaceDelivered(i: nat)
    | Wipe
    | SessionChanged(session: Session)

  /** The screen the state calls for. */
  function Render(s: State): Screen {
    if s.probeFailed then SetupUnknown
    else if s.session.loading || s.setupDone.None? || s.enrolled.None? then Loading
    else if !s.setupDone.value then Setup
    else if !s.session.user then
      if s.session.offline && s.enrolled.value then OfflineLock else Login
    else Shell
  }

  // ---- The setup effect ----

  /** Every run's clean-up sets its flag to false. */
  function Kill<T>(runs: seq<Run<T>>): (r: seq<Run<T>>)
    ensures |r| == |runs| && forall i :: 0 <= i < |r| ==> r[i] == runs[i].(alive := false)
  {
    if runs == [] then [] else Kill(runs[..|runs| - 1]) + [runs[|runs| - 1].(alive := false)]
  }

  /** Both effects run, for the render that is on the page. */
  function OnRunEffects(s: State): State {
    if s.effectsOn then s
    else s.(effectsOn := true, probed := s.committed,
            probes := s.probes + [Run(true, Awaited)], races := s.races + [Run(true, Racing)])
  }

  function OnCleanUp(s: State): State {
    if !s.effectsOn then s
    else s.(effectsOn := false, probes := Kill(s.probes), races := Kill(s.races))
  }

  /** After a commit with a new attempt the setup effect is cleaned up and run again. */
  function OnFlush(s: State): State {
    if !s.effectsOn || s.probed == s.committed then s
    else s.(probed := s.committed, probes := Kill(s.probes) + [Run(true, Awaited)])
  }

  function OnProbed(s: State, i: nat, answer: Answer): State {
    if i >= |s.probes| || s.probes[i].stage.Completed? then s
    else
      var s' := s.(probes := s.probes[i := s.probes[i].(stage := Completed)]);
      if !s.probes[i].alive then s'
      else match answer
        case Unknown => s'.(probeFailed := true)
        case Yes => s'.(setupDone := Some(true))
        case No => s'.(setupDone := Some(false))
  }

  // ---- The offline effect ----

  function OnWon(s: State, i: nat, result: Option<Enrolment>): State {
    if i >= |s.races| || !s.races[i].stage.Racing? then s
    else s.(races := s.races[i := s.races[i].(stage := Won(result))])
  }

  function EnrolledBy(result: Option<Enrolment>): bool {
    result.Some? && result.value.enrolled
  }

  /** A probe that found no enrolment does not look for an identity. */
  function IdentityBy(result: Option<Enrolment>): Option<string> {
    if EnrolledBy(result) then result.value.identity else None
  }

  function OnRaceDelivered(s: State, i: nat): State {
    if i >= |s.races| || !s.races[i].stage.Won? then s
    else
      var result := s.races[i].stage.result;
      var s' := s.(races := s.races[i := s.races[i].(stage := Delivered(result))]);
      if !s.races[i].alive then s' else s'.(enrolled := Some(EnrolledBy(result)), identity := IdentityBy(result))
  }

  function OnWipe(s: State): State {
    if s.effectsOn then s.(enrolled := Some(false), identity := None) else s
  }

  /** One event. An event that cannot occur in the state does nothing. */
  function Next(s: State, a: Action): State {
    match a
    case RunEffects => OnRunEffects(s)
    case CleanUp => OnCleanUp(s)
    case Commit => s.(shown := Render(s), committed := s.attempt)
    case Flush => OnFlush(s)
    case Probed(i, answer) => OnProbed(s, i, answer)
    case ChooseSetup => if s.shown == SetupUnknown then s.(probeFailed := false, setupDone := Some(false)) else s
    case ChooseSignIn => if s.shown == SetupUnknown then s.(probeFailed := false, setupDone := Some(true)) else s
    case AskAgain => if s.shown == SetupUnknown then s.(probeFailed := false, attempt := s.attempt + 1) else s
    case WizardDone => if s.shown == Setup then s.(setupDone := Some(true)) else s
    case EnrolmentRead(i, result) => OnWon(s, i, result)
    case TimedOut(i) => OnWon(s, i, None)
    case RaceDelivered(i) => OnRaceDelivered(s, i)
    case Wipe => OnWipe(s)
    case SessionChanged(session) => s.(session := session)
  }

  function Exec(s: State, actions: seq<Action>): State
    decreases |actions|
  {
    if actions == [] then s else Exec(Next(s, actions[0]), actions[1..])
  }

  /** A mount: nothing has run yet. */
  function Fresh(session: Session): State {
    State(None, false, 0, None, None, session, false, 0, 0, Blank, [], [])
  }

  // ---- What every step keeps ----

  /** Only the newest run of an effect is alive, and only while the effects are on. */
  predicate OneAlive(s: State) {
    && (forall i :: 0 <= i < |s.probes| && s.probes[i].alive ==> s.effectsOn && i == |s.probes| - 1)
    && (forall i :: 0 <= i < |s.races| && s.races[i].alive ==> s.effectsOn && i == |s.races| - 1)
    && (s.effectsOn ==> |s.probes| > 0 && |s.races| > 0 && s.probes[|s.probes| - 1].alive && s.races[|s.races| - 1].alive)
  }

  /** Also, an identity is held only for an enrolled device, and the attempts are numbered in order. */
  predicate Inv(s: State) {
    && OneAlive(s)
    && (s.enrolled != Some(true) ==> s.identity == None)
    && s.probed <= s.committed <= s.attempt
  }

  lemma InvEffects(s: State)
    requires Inv(s)
    ensures Inv(OnRunEffects(s)) && Inv(OnCleanUp(s)) && Inv(OnFlush(s))
  {
  }

  lemma InvProbed(s: State, i: nat, answer: Answer)
    requires Inv(s)
    ensures Inv(OnProbed(s, i, answer))
  {
  }

  lemma InvWon(s: State, i: nat, result: Option<Enrolment>)
    requires Inv(s)
    ensures Inv(OnWon(s, i, result))
  {
  }

  lemma InvDelivered(s: State, i: nat)
    requires Inv(s)
    ensures Inv(OnRaceDelivered(s, i))
  {
  }

  lemma InvStep(s: State, a: Action)
    requires Inv(s)
    ensures Inv(Next(s, a))
  {
    hide OnRunEffects, OnCleanUp, OnFlush, OnProbed, OnWon, OnRaceDelivered;
    match a
    case RunEffects => InvEffects(s);
    case CleanUp => InvEffects(s);
    case Flush => InvEffects(s);
    case Probed(i, answer) => InvProbed(s, i, answer);
    case EnrolmentRead(i, result) => InvWon(s, i, result);
    case TimedOut(i) => InvWon(s, i, None);
    case RaceDelivered(i) => InvDelivered(s, i);
    case _ =>
  }

  lemma {:induction false} InvRun(s: State, actions: seq<Action>)
    requires Inv(s)
    ensures Inv(Exec(s, actions))
    decreases |actions|
  {
    hide Inv, Next;
    if actions != [] {
      InvStep(s, actions[0]);
      InvRun(Next(s, actions[0]), actions[1..]);
    }
  }

  // ---- What each screen and each event mean ----

  /** The session and both probes are settled, and there is no open question. */
  predicate Settled(s: State) {
    !s.probeFailed && !s.session.loading && s.setupDone.Some? && s.enrolled.Some?
  }

  /** What a commit shows, on the fields: the question exactly when the probe failed; otherwise the loading
      screen until everything is settled; then the wizard exactly when the box is not set up; then the shell
      exactly for somebody signed in; and for nobody the offline lock exactly when the box is unreachable and
      the device enrolled, and the login otherwise. */
  lemma ScreenExactly(s: State)
    ensures var shown := Next(s, Commit).shown;
            && (shown == SetupUnknown <==> s.probeFailed)
            && (shown == Loading <==> !s.probeFailed && !Settled(s))
            && (shown == Setup <==> Settled(s) && s.setupDone == Some(false))
            && (shown == Shell <==> Settled(s) && s.setupDone == Some(true) && s.session.user)
            && (shown == OfflineLock <==>
                  Settled(s) && s.setupDone == Some(true) && !s.session.user && s.session.offline && s.enrolled == Some(true))
            && (shown == Login <==>
                  && Settled(s) && s.setupDone == Some(true) && !s.session.user
                  && !(s.session.offline && s.enrolled == Some(true)))
    ensures Next(s, Commit) == s.(shown := Next(s, Commit).shown, committed := s.attempt)
  {
  }

  /** Step `i` is the last commit of the run. */
  predicate LastCommit(actions: seq<Action>, i: int) {
    0 <= i < |actions| && actions[i] == Commit && forall j :: i < j < |actions| ==> actions[j] != Commit
  }

  lemma {:induction false} ExecPrefix(s: State, actions: seq<Action>, n: nat)
    requires n < |actions|
    ensures Exec(s, actions[..n + 1]) == Next(Exec(s, actions[..n]), actions[n])
  {
    hide Next;
    ExecAppend(s, actions[..n], [actions[n]]);
    ExecOne(Exec(s, actions[..n]), actions[n]);
    assert actions[..n + 1] == actions[..n] + [actions[n]];
  }

  lemma OnlyCommitShows(s: State, a: Action)
    ensures a != Commit ==> Next(s, a).shown == s.shown
  {
  }

  lemma {:induction false} ShownSince(s: State, actions: seq<Action>, n: nat)
    requires n <= |actions|
    ensures (exists i :: LastCommit(actions[..n], i) && Exec(s, actions[..n]).shown == Next(Exec(s, actions[..i]), Commit).shown)
            || (Commit !in actions[..n] && Exec(s, actions[..n]).shown == s.shown)
  {
    hide Next, Exec;
    if n == 0 {
      ExecNothing(s);
      assert actions[..0] == [];
    } else {
      ShownSince(s, actions, n - 1);
      ExecPrefix(s, actions, n - 1);
      OnlyCommitShows(Exec(s, actions[..n - 1]), actions[n - 1]);
      var now, before := actions[..n], actions[..n - 1];
      assert now == before + [actions[n - 1]];
      if actions[n - 1] == Commit {
        assert LastCommit(now, n - 1);
      } else if i :| LastCommit(before, i) && Exec(s, before).shown == Next(Exec(s, actions[..i]), Commit).shown {
        assert LastCommit(now, i);
      }
    }
  }

  lemma ExecNothing(s: State)
    ensures Exec(s, []) == s
  {
  }

  predicate MayEnter(s: State) {
    && !s.probeFailed && s.enrolled.Some? && s.setupDone == Some(true)
    && s.session.user && !s.session.loading
  }

  /** Over every run of a mount: nothing is shown before the first commit, and what is shown is what the last
      commit called for. So the shell is on the page only if the session was signed in and loaded, the box set
      up and no question open when it was committed. */
  lemma ShownAtLastCommit(session: Session, actions: seq<Action>)
    ensures var e := Exec(Fresh(session), actions);
            && (Commit !in actions ==> e.shown == Blank)
            && (Commit in actions ==> exists i :: LastCommit(actions, i) && e.shown == Next(Exec(Fresh(session), actions[..i]), Commit).shown)
            && (e.shown == Shell ==> exists i :: LastCommit(actions, i) && MayEnter(Exec(Fresh(session), actions[..i])))
  {
    hide Next, Exec;
    var s := Fresh(session);
    ShownSince(s, actions, |actions|);
    assert actions[..|actions|] == actions;
    if i :| LastCommit(actions, i) && Exec(s, actions).shown == Next(Exec(s, actions[..i]), Commit).shown {
      ScreenExactly(Exec(s, actions[..i]));
      assert actions[i] in actions;
    }
  }

  /** The events of the setup question, on the fields. Only the awaited probe has a say, and only an answer
      decides; each choice counts only on the question screen, and the wizard only on its own. */
  lemma SetupEventsMean(s: State, i: nat, answer: Answer)
    requires Inv(s)
    ensures var s' := Next(s, Probed(i, answer));
            if s.effectsOn && i == |s.probes| - 1 && s.probes[i].stage.Awaited? then
              && s'.setupDone == (match answer case Yes => Some(true) case No => Some(false) case Unknown => s.setupDone)
              && s'.probeFailed == (s.probeFailed || answer.Unknown?)
              && s'.probes == s.probes[i := s.probes[i].(stage := Completed)]
            else s' == s.(probes := s'.probes)
    ensures s.shown == SetupUnknown ==>
              && Next(s, ChooseSetup) == s.(probeFailed := false, setupDone := Some(false))
              && Next(s, ChooseSignIn) == s.(probeFailed := false, setupDone := Some(true))
              && Next(s, AskAgain) == s.(probeFailed := false, attempt := s.attempt + 1)
    ensures s.shown != SetupUnknown ==> Next(s, ChooseSetup) == Next(s, ChooseSignIn) == Next(s, AskAgain) == s
    ensures Next(s, WizardDone) == if s.shown == Setup then s.(setupDone := Some(true)) else s
  {
  }

  /** The events of the offline race, on the fields. The first of probe and timer sets the result; its delivery
      to the running effect makes the device enrolled, with the identity, exactly if an enrolment was found. */
  lemma RaceEventsMean(s: State, i: nat, result: Option<Enrolment>)
    requires Inv(s) && i < |s.races|
    ensures s.races[i].stage.Racing? ==>
              && Next(s, EnrolmentRead(i, result)) == s.(races := s.races[i := s.races[i].(stage := Won(result))])
              && Next(s, TimedOut(i)) == s.(races := s.races[i := s.races[i].(stage := Won(None))])
    ensures s.races[i].stage == Won(result) ==>
              var s' := Next(s, RaceDelivered(i));
              && s'.races == s.races[i := s.races[i].(stage := Delivered(result))]
              && if s.effectsOn && i == |s.races| - 1 then
                   match result
                   case Some(Enrolment(true, identity)) => s'.enrolled == Some(true) && s'.identity == identity
                   case _ => s'.enrolled == Some(false) && s'.identity == None
                 else s' == s.(races := s'.races)
    ensures s.effectsOn ==> Next(s, Wipe) == s.(enrolled := Some(false), identity := None)
  {
  }

  /** Running the effects, cleaning them up, and running the setup effect again for a new attempt. */
  lemma EffectsMean(s: State)
    requires Inv(s)
    ensures !s.effectsOn ==>
              var s' := Next(s, RunEffects);
              && s'.effectsOn && s'.probed == s.committed
              && s'.probes == s.probes + [Run(true, Awaited)] && s'.races == s.races + [Run(true, Racing)]
    ensures var s' := Next(s, CleanUp);
            && !s'.effectsOn && |s'.probes| == |s.probes| && |s'.races| == |s.races|
            && (forall i :: 0 <= i < |s.probes| ==> !s'.probes[i].alive && s'.probes[i].stage == s.probes[i].stage)
            && (forall i :: 0 <= i < |s.races| ==> !s'.races[i].alive && s'.races[i].stage == s.races[i].stage)
    ensures s.effectsOn && s.shown == SetupUnknown ==>
              var s' := Next(Next(Next(s, AskAgain), Commit), Flush);
              && |s'.probes| == |s.probes| + 1 && s'.probes[|s.probes|] == Run(true, Awaited) && s'.races == s.races
              && forall i :: 0 <= i < |s.probes| ==> !s'.probes[i].alive
  {
  }

  // ---- The setup answer is never guessed ----

  /** The newest run of the setup effect is waiting for its probe. */
  predicate Asking(s: State) {
    s.effectsOn && |s.probes| > 0 && s.probes[|s.probes| - 1].stage.Awaited?
  }

  /** What the step decides about setup, if anything: the answer of the probe being waited for, or what
      the person in front of the box says on the screen that asks. */
  function Decision(s: State, a: Action): Option<bool> {
    match a
    case Probed(i, answer) =>
      if Asking(s) && i == |s.probes| - 1 && answer != Unknown then Some(answer == Yes) else None
    case ChooseSetup => if s.shown == SetupUnknown then Some(false) else None
    case ChooseSignIn => if s.shown == SetupUnknown then Some(true) else None
    case WizardDone => if s.shown == Setup then Some(true) else None
    case _ => None
  }

  /** The last decision of a run, or `before` when there was none. */
  function LastDecision(s: State, actions: seq<Action>, before: Option<bool>): Option<bool>
    decreases |actions|
  {
    if actions == [] then before
    else
      var d := Decision(s, actions[0]);
      LastDecision(Next(s, actions[0]), actions[1..], if d.Some? then d else before)
  }

  lemma DecisionStep(s: State, a: Action)
    requires Inv(s)
    ensures Next(s, a).setupDone == if Decision(s, a).Some? then Decision(s, a) else s.setupDone
  {
  }

  lemma {:induction false} NeverGuessedFrom(s: State, actions: seq<Action>)
    requires Inv(s)
    ensures Exec(s, actions).setupDone == LastDecision(s, actions, s.setupDone)
    decreases |actions|
  {
    hide Inv, Next, Decision;
    if actions != [] {
      InvStep(s, actions[0]);
      DecisionStep(s, actions[0]);
      NeverGuessedFrom(Next(s, actions[0]), actions[1..]);
    }
  }

  /** Over every run of a mount, with effects cleaned up and run again at will: what the gate believes
      about setup is the last decision that the probe being waited for, the person or the wizard made, and
      it believes nothing as long as none has been made. */
  lemma SetupNeverGuessed(session: Session, actions: seq<Action>)
    ensures Exec(Fresh(session), actions).setupDone == LastDecision(Fresh(session), actions, None)
  {
    NeverGuessedFrom(Fresh(session), actions);
  }

  lemma {:induction false} StaysDecided(s: State, actions: seq<Action>)
    requires s.setupDone.Some?
    ensures Exec(s, actions).setupDone.Some?
    decreases |actions|
  {
    if actions != [] {
      StaysDecided(Next(s, actions[0]), actions[1..]);
    }
  }

  /** A probe that has been superseded stays so, and its answer changes nothing but its own record. */
  lemma {:induction false} SupersededIsInert(s: State, actions: seq<Action>, i: nat, answer: Answer)
    requires i < |s.probes| && !s.probes[i].alive
    ensures var e := Exec(s, actions);
            && i < |e.probes| && !e.probes[i].alive
            && Next(e, Probed(i, answer)) == e.(probes := Next(e, Probed(i, answer)).probes)
    decreases |actions|
  {
    if actions != [] {
      SupersededIsInert(Next(s, actions[0]), actions[1..], i, answer);
    }
  }

  // ---- When a decision is final ----

  predicate NoRestart(actions: seq<Action>) {
    forall i :: 0 <= i < |actions| ==> !actions[i].RunEffects?
  }

  /** A step taken by the person in front of the box. */
  predicate ByPerson(a: Action) {
    a.ChooseSetup? || a.ChooseSignIn? || a.AskAgain? || a.WizardDone?
  }

  predicate NobodyActs(actions: seq<Action>) {
    forall i :: 0 <= i < |actions| ==> !ByPerson(actions[i])
  }

  /** No probe is being waited for, and none has been asked for. */
  predicate Quiet(s: State) {
    !Asking(s) && s.attempt == s.probed
  }

  lemma QuietStep(s: State, a: Action)
    requires Inv(s) && Quiet(s) && !a.RunEffects? && !a.AskAgain?
    ensures Quiet(Next(s, a))
    ensures !ByPerson(a) ==> Next(s, a).setupDone == s.setupDone
  {
  }

  lemma {:induction false} QuietRun(s: State, actions: seq<Action>)
    requires Inv(s) && Quiet(s) && NoRestart(actions) && NobodyActs(actions)
    ensures Exec(s, actions).setupDone == s.setupDone
    decreases |actions|
  {
    hide Inv, Next, Quiet;
    if actions != [] {
      var a := actions[0];
      assert !a.RunEffects? && !ByPerson(a);
      assert forall j :: 0 <= j < |actions[1..]| ==> actions[1..][j] == actions[j + 1];
      InvStep(s, a);
      QuietStep(s, a);
      QuietRun(Next(s, a), actions[1..]);
    }
  }

  /** The gate is past the question. */
  predicate PastQuestion(s: State) {
    Quiet(s) && s.setupDone.Some? && !s.probeFailed && s.shown != SetupUnknown
  }

  lemma PastQuestionStep(s: State, a: Action)
    requires Inv(s) && PastQuestion(s) && !a.RunEffects?
    ensures PastQuestion(Next(s, a))
    ensures Next(s, a).setupDone == s.setupDone || (a.WizardDone? && Next(s, a).setupDone == Some(true))
  {
  }

  /** Once the question is answered on the page, with no probe out, nothing but the wizard's completion
      changes the answer, whatever completes late; the question is never put again, and a box that is set
      up stays set up. */
  lemma {:induction false} AnswerIsFinal(s: State, actions: seq<Action>)
    requires Inv(s) && PastQuestion(s) && NoRestart(actions)
    ensures var e := Exec(s, actions);
            && PastQuestion(e)
            && (e.setupDone == s.setupDone || (e.setupDone == Some(true) && WizardDone in actions))
    decreases |actions|
  {
    hide Inv, Next, PastQuestion;
    if actions != [] {
      var a := actions[0];
      assert !a.RunEffects?;
      assert forall j :: 0 <= j < |actions[1..]| ==> actions[1..][j] == actions[j + 1];
      InvStep(s, a);
      PastQuestionStep(s, a);
      AnswerIsFinal(Next(s, a), actions[1..]);
      assert actions == [a] + actions[1..];
    }
  }

  lemma ExecOne(s: State, a: Action)
    ensures Exec(s, [a]) == Next(s, a)
  {
    hide Next;
    assert [a][1..] == [];
    assert Exec(Next(s, a), []) == Next(s, a);
  }

  lemma ExecTwo(s: State, a: Action, b: Action)
    ensures Exec(s, [a, b]) == Next(Next(s, a), b)
  {
    hide Next;
    assert [a, b][1..] == [b];
    ExecOne(Next(s, a), b);
  }

  lemma ExecThree(s: State, a: Action, b: Action, c: Action)
    ensures Exec(s, [a, b, c]) == Next(Next(Next(s, a), b), c)
  {
    hide Next;
    assert [a, b, c][1..] == [b, c];
    ExecTwo(Next(s, a), b, c);
  }

  /** A person's choice on the question screen can be overturned by a probe exactly when a probe is being
      waited for or another attempt has been asked for: asking again and then choosing, before the page
      has caught up, leaves the choice to the probe. */
  lemma ChoiceStandsExactly(s: State, choice: Action)
    requires Inv(s) && s.effectsOn && s.shown == SetupUnknown && (choice.ChooseSetup? || choice.ChooseSignIn?)
    ensures Quiet(s) <==>
            forall actions :: NoRestart(actions) && NobodyActs(actions) ==>
              Exec(Next(s, choice), actions).setupDone == Next(s, choice).setupDone
  {
    var s1 := Next(s, choice);
    InvStep(s, choice);
    if Quiet(s) {
      forall actions | NoRestart(actions) && NobodyActs(actions) ensures Exec(s1, actions).setupDone == s1.setupDone {
        QuietRun(s1, actions);
      }
    } else {
      var other := if choice.ChooseSetup? then Yes else No;
      var n := |s.probes|;
      if Asking(s) {
        var late := Probed(n - 1, other);
        ExecOne(s1, late);
        assert NoRestart([late]) && NobodyActs([late]);
        assert Exec(s1, [late]).setupDone != s1.setupDone;
      } else {
        var late := Probed(n, other);
        ExecThree(s1, Commit, Flush, late);
        assert NoRestart([Commit, Flush, late]) && NobodyActs([Commit, Flush, late]);
        assert Exec(s1, [Commit, Flush, late]).setupDone != s1.setupDone;
      }
    }
  }

  // ---- Clicks that the page catches up with at once ----

  /** Each click of the person is followed at once by its commit and that commit's effects; every other
      event, and every other commit, comes when it likes. */
  function Prompt(actions: seq<Action>): seq<Action> {
    if actions == [] then []
    else (if ByPerson(actions[0]) then [actions[0], Commit, Flush] else [actions[0]]) + Prompt(actions[1..])
  }

  /** Effects run again only before the question has come up, as in a double invocation at mount. */
  predicate RestartsBeforeQuestion(s: State, actions: seq<Action>)
    decreases |actions|
  {
    actions == [] ||
    (&& (actions[0].RunEffects? ==> !s.probeFailed && s.shown != SetupUnknown)
     && RestartsBeforeQuestion(Next(s, actions[0]), actions[1..]))
  }

  /** The effects are those of the newest attempt, and while the question is up no probe is awaited. */
  predicate CaughtUp(s: State) {
    && s.committed == s.attempt
    && (s.effectsOn ==> s.probed == s.attempt)
    && (s.effectsOn && (s.probeFailed || s.shown == SetupUnknown) ==> !Asking(s))
  }

  lemma CaughtUpStep(s: State, a: Action)
    requires Inv(s) && CaughtUp(s) && !ByPerson(a)
    requires a.RunEffects? ==> !s.probeFailed && s.shown != SetupUnknown
    ensures CaughtUp(Next(s, a))
  {
  }

  lemma CaughtUpClick(s: State, a: Action)
    requires Inv(s) && CaughtUp(s) && ByPerson(a)
    ensures CaughtUp(Next(Next(Next(s, a), Commit), Flush))
  {
  }

  lemma {:induction false} ExecAppend(s: State, first: seq<Action>, second: seq<Action>)
    ensures Exec(s, first + second) == Exec(Exec(s, first), second)
    ensures RestartsBeforeQuestion(s, first + second) ==> RestartsBeforeQuestion(Exec(s, first), second)
    decreases |first|
  {
    hide Next;
    if first == [] {
      assert first + second == second;
    } else {
      assert (first + second)[1..] == first[1..] + second;
      ExecAppend(Next(s, first[0]), first[1..], second);
    }
  }

  lemma {:induction false} CaughtUpRun(s: State, actions: seq<Action>)
    requires Inv(s) && CaughtUp(s) && RestartsBeforeQuestion(s, Prompt(actions))
    ensures Inv(Exec(s, Prompt(actions))) && CaughtUp(Exec(s, Prompt(actions)))
    decreases |actions|
  {
    hide Inv, Next, CaughtUp;
    if actions != [] {
      var a := actions[0];
      var block := if ByPerson(a) then [a, Commit, Flush] else [a];
      ExecAppend(s, block, Prompt(actions[1..]));
      InvRun(s, block);
      if ByPerson(a) {
        ExecThree(s, a, Commit, Flush);
        CaughtUpClick(s, a);
      } else {
        ExecOne(s, a);
        CaughtUpStep(s, a);
      }
      CaughtUpRun(Exec(s, block), actions[1..]);
    }
  }

  /** When the page catches up with every click before the next, the failing case of `ChoiceStandsExactly`
      cannot be reached as long as effects restart only before the question: whenever it is up no probe is
      awaited and none has been asked for, so the person's choice stands against whatever completes later. */
  lemma PromptChoiceStands(session: Session, actions: seq<Action>, choice: Action, later: seq<Action>)
    requires RestartsBeforeQuestion(Fresh(session), Prompt(actions))
    requires var s := Exec(Fresh(session), Prompt(actions)); s.effectsOn && s.shown == SetupUnknown
    requires (choice.ChooseSetup? || choice.ChooseSignIn?) && NoRestart(later) && NobodyActs(later)
    ensures var s := Exec(Fresh(session), Prompt(actions));
            && Quiet(s)
            && Exec(Next(s, choice), later).setupDone == Next(s, choice).setupDone == Some(choice.ChooseSignIn?)
  {
    CaughtUpRun(Fresh(session), actions);
    var s := Exec(Fresh(session), Prompt(actions));
    hide Exec, RestartsBeforeQuestion;
    assert Quiet(s);
    ChoiceStandsExactly(s, choice);
  }

  /** Effects that restart under the question send a probe that is awaited while it is up. */
  lemma RestartUnderQuestion(session: Session)
    ensures var s := Exec(Fresh(session), [RunEffects, Probed(0, Unknown), Commit, CleanUp, RunEffects]);
            s.effectsOn && s.shown == SetupUnknown && !Quiet(s)
  {
    var first, second := [RunEffects, Probed(0, Unknown), Commit], [CleanUp, RunEffects];
    var s0 := Fresh(session);
    var s1 := Next(Next(Next(s0, RunEffects), Probed(0, Unknown)), Commit);
    assert s1.shown == SetupUnknown && s1.effectsOn && |s1.probes| == 1;
    var s2 := Next(Next(s1, CleanUp), RunEffects);
    assert s2.shown == SetupUnknown && !Quiet(s2);
    hide Next, Fresh, Quiet;
    ExecAppend(s0, first, second);
    ExecThree(s0, RunEffects, Probed(0, Unknown), Commit);
    ExecTwo(s1, CleanUp, RunEffects);
    assert first + second == [RunEffects, Probed(0, Unknown), Commit, CleanUp, RunEffects];
  }

  // ---- The offline gate ----

  predicate HasWinner(r: Race) {
    !r.stage.Racing?
  }

  lemma WinnerStays(s: State, a: Action, i: nat)
    requires i < |s.races| && HasWinner(s.races[i])
    ensures var e := Next(s, a);
            && i < |e.races| && HasWinner(e.races[i]) && e.races[i].stage.result == s.races[i].stage.result
            && (s.races[i].stage.Delivered? ==> e.races[i].stage.Delivered?)
  {
  }

  /** Probe and timer race once: the first to finish is the result for good, the other changes nothing,
      and the result is delivered at most once. */
  lemma {:induction false} RaceSettlesOnce(s: State, actions: seq<Action>, i: nat, late: Option<Enrolment>)
    requires i < |s.races| && HasWinner(s.races[i])
    ensures var e := Exec(s, actions);
            && i < |e.races| && HasWinner(e.races[i]) && e.races[i].stage.result == s.races[i].stage.result
            && Next(e, EnrolmentRead(i, late)) == e && Next(e, TimedOut(i)) == e
            && (s.races[i].stage.Delivered? ==> e.races[i].stage.Delivered? && Next(e, RaceDelivered(i)) == e)
    decreases |actions|
  {
    if actions != [] {
      hide Next;
      WinnerStays(s, actions[0], i);
      RaceSettlesOnce(Next(s, actions[0]), actions[1..], i, late);
    }
  }

  datatype Verdict = Verdict(enrolled: bool, identity: Option<string>)

  /** What the step decides about enrolment, if anything: the result that the running effect's race delivers,
      or a wipe. */
  function EnrolmentDecision(s: State, a: Action): Option<Verdict> {
    match a
    case RaceDelivered(i) =>
      if s.effectsOn && |s.races| > 0 && i == |s.races| - 1 && s.races[i].stage.Won? then
        Some(Verdict(EnrolledBy(s.races[i].stage.result), IdentityBy(s.races[i].stage.result)))
      else None
    case Wipe => if s.effectsOn then Some(Verdict(false, None)) else None
    case _ => None
  }

  /** The last such decision of a run, or `before` when there was none. */
  function LastVerdict(s: State, actions: seq<Action>, before: Option<Verdict>): Option<Verdict>
    decreases |actions|
  {
    if actions == [] then before
    else
      var d := EnrolmentDecision(s, actions[0]);
      LastVerdict(Next(s, actions[0]), actions[1..], if d.Some? then d else before)
  }

  /** What the gate believes about enrolment. */
  function Belief(s: State): Option<Verdict> {
    if s.enrolled.None? then None else Some(Verdict(s.enrolled.value, s.identity))
  }

  lemma VerdictStep(s: State, a: Action)
    requires Inv(s)
    ensures Belief(Next(s, a)) == if EnrolmentDecision(s, a).Some? then EnrolmentDecision(s, a) else Belief(s)
  {
  }

  lemma {:induction false} EnrolmentFrom(s: State, actions: seq<Action>)
    requires Inv(s)
    ensures Belief(Exec(s, actions)) == LastVerdict(s, actions, Belief(s))
    decreases |actions|
  {
    hide Inv, Next, EnrolmentDecision, Belief;
    if actions != [] {
      InvStep(s, actions[0]);
      VerdictStep(s, actions[0]);
      EnrolmentFrom(Next(s, actions[0]), actions[1..]);
    }
  }

  /** Over every run of a mount, what the gate believes about enrolment, the identity with it, is the last
      verdict that the running effect's race delivered or a wipe gave, and nothing before the first: no
      superseded run, no late probe and no late timer has a say. */
  lemma EnrolmentIsLastVerdict(session: Session, actions: seq<Action>)
    ensures Belief(Exec(Fresh(session), actions)) == LastVerdict(Fresh(session), actions, None)
  {
    EnrolmentFrom(Fresh(session), actions);
  }

  /** The race of the running effect can no longer bring an enrolment back. */
  predicate RaceSpent(s: State) {
    s.effectsOn ==>
      && |s.races| > 0
      && var p := s.races[|s.races| - 1].stage;
         p.Delivered? || (p.Won? && !EnrolledBy(p.result))
  }

  predicate Forgotten(s: State) {
    s.enrolled == Some(false) && s.identity == None && RaceSpent(s)
  }

  lemma ForgottenStep(s: State, a: Action)
    requires Inv(s) && Forgotten(s) && !a.RunEffects?
    ensures Forgotten(Next(s, a))
  {
  }

  lemma {:induction false} ForgottenRun(s: State, actions: seq<Action>)
    requires Inv(s) && Forgotten(s) && NoRestart(actions)
    ensures Inv(Exec(s, actions)) && Forgotten(Exec(s, actions))
    decreases |actions|
  {
    hide Inv, Next, Forgotten;
    if actions != [] {
      assert !actions[0].RunEffects?;
      assert forall j :: 0 <= j < |actions[1..]| ==> actions[1..][j] == actions[j + 1];
      InvStep(s, actions[0]);
      ForgottenStep(s, actions[0]);
      ForgottenRun(Next(s, actions[0]), actions[1..]);
    }
  }

  /** A wipe sticks, whatever completes after it, exactly when the race of the running effect is spent:
      a wipe during the race is undone if the probe had found, or still finds, an enrolment. */
  lemma WipeSticksExactly(s: State)
    requires Inv(s) && s.effectsOn
    ensures RaceSpent(s) <==>
            forall actions :: NoRestart(actions) ==> Exec(Next(s, Wipe), actions).enrolled == Some(false)
  {
    var s1 := Next(s, Wipe);
    InvStep(s, Wipe);
    var i := |s.races| - 1;
    if RaceSpent(s) {
      forall actions | NoRestart(actions) ensures Exec(s1, actions).enrolled == Some(false) {
        ForgottenRun(s1, actions);
      }
    } else if s.races[i].stage.Won? {
      ExecOne(s1, RaceDelivered(i));
      assert NoRestart([RaceDelivered(i)]);
      assert Exec(s1, [RaceDelivered(i)]).enrolled == Some(true);
    } else {
      var found := EnrolmentRead(i, Some(Enrolment(true, None)));
      ExecTwo(s1, found, RaceDelivered(i));
      assert NoRestart([found, RaceDelivered(i)]);
      assert Exec(s1, [found, RaceDelivered(i)]).enrolled == Some(true);
    }
  }

  predicate BehindGate(screen: Screen) {
    screen == Setup || screen == OfflineLock || screen == Login || screen == Shell
  }

  /** Wipes come from screens behind the loading gate, and effects restart only before enrolment is
      settled, as in a double invocation at mount. */
  predicate Orderly(s: State, actions: seq<Action>)
    decreases |actions|
  {
    actions == [] ||
    (&& (actions[0].Wipe? ==> BehindGate(s.shown))
     && (actions[0].RunEffects? ==> s.enrolled.None?)
     && Orderly(Next(s, actions[0]), actions[1..]))
  }

  /** Enrolment is settled by the delivery of the race alone, and no screen behind the gate is shown
      before that. */
  predicate SettledByRace(s: State) {
    && (s.enrolled.Some? && s.effectsOn ==> |s.races| > 0 && s.races[|s.races| - 1].stage.Delivered?)
    && (BehindGate(s.shown) ==> s.enrolled.Some?)
  }

  lemma SettledStep(s: State, a: Action)
    requires Inv(s) && SettledByRace(s) && (a.Wipe? ==> BehindGate(s.shown)) && (a.RunEffects? ==> s.enrolled.None?)
    ensures SettledByRace(Next(s, a))
  {
  }

  lemma {:induction false} SettledRun(s: State, actions: seq<Action>)
    requires Inv(s) && SettledByRace(s) && Orderly(s, actions)
    ensures Inv(Exec(s, actions)) && SettledByRace(Exec(s, actions))
    decreases |actions|
  {
    hide Inv, Next, SettledByRace;
    if actions != [] {
      InvStep(s, actions[0]);
      SettledStep(s, actions[0]);
      SettledRun(Next(s, actions[0]), actions[1..]);
    }
  }

  /** After a wipe raised behind the loading gate, in a mount whose earlier wipes came from there too and
      whose effects restarted only before enrolment was settled, the offline lock is never offered again: no
      render calls for it and no commit shows it. */
  lemma WipeEndsOfflineLock(session: Session, before: seq<Action>, later: seq<Action>)
    requires Orderly(Fresh(session), before) && BehindGate(Exec(Fresh(session), before).shown)
    requires Exec(Fresh(session), before).effectsOn && NoRestart(later)
    ensures var e := Exec(Next(Exec(Fresh(session), before), Wipe), later);
            && e.enrolled == Some(false) && e.identity == None
            && Render(e) != OfflineLock && Next(e, Commit).shown != OfflineLock
  {
    SettledRun(Fresh(session), before);
    var s := Exec(Fresh(session), before);
    hide Exec;
    InvStep(s, Wipe);
    ForgottenRun(Next(s, Wipe), later);
  }

  /** A wipe from the loading screen opens the gate while the race still runs; a second wipe, from the login
      screen, is then undone by the race. */
  lemma EarlyWipeLetsRaceIn(identity: Option<string>)
    ensures var session := Session(false, false, true);
            var before := [RunEffects, Probed(0, Yes), Wipe, Commit];
            var later := [EnrolmentRead(0, Some(Enrolment(true, identity))), RaceDelivered(0)];
            && Exec(Fresh(session), before).shown == Login
            && Render(Exec(Next(Exec(Fresh(session), before), Wipe), later)) == OfflineLock
  {
    var s := Fresh(Session(false, false, true));
    ExecThree(s, RunEffects, Probed(0, Yes), Wipe);
    ExecAppend(s, [RunEffects, Probed(0, Yes), Wipe], [Commit]);
    var s3 := Exec(s, [RunEffects, Probed(0, Yes), Wipe]);
    ExecOne(s3, Commit);
    assert [RunEffects, Probed(0, Yes), Wipe] + [Commit] == [RunEffects, Probed(0, Yes), Wipe, Commit];
    ExecTwo(Next(Next(s3, Commit), Wipe), EnrolmentRead(0, Some(Enrolment(true, identity))), RaceDelivered(0));
  }

  // ---- The gate never hangs ----

  /** While effects run, silence means an answer: a probe that is no longer awaited has left a verdict or
      the question, and a delivered race has settled enrolment. */
  predicate SilenceIsAnswer(s: State) {
    s.effectsOn ==>
      && (Quiet(s) ==> s.setupDone.Some? || s.probeFailed)
      && (|s.races| > 0 && s.races[|s.races| - 1].stage.Delivered? ==> s.enrolled.Some?)
  }

  lemma SilenceStep(s: State, a: Action)
    requires Inv(s) && SilenceIsAnswer(s)
    ensures SilenceIsAnswer(Next(s, a))
  {
  }

  lemma {:induction false} SilenceRun(s: State, actions: seq<Action>)
    requires Inv(s) && SilenceIsAnswer(s)
    ensures Inv(Exec(s, actions)) && SilenceIsAnswer(Exec(s, actions))
    decreases |actions|
  {
    hide Inv, Next, SilenceIsAnswer;
    if actions != [] {
      InvStep(s, actions[0]);
      SilenceStep(s, actions[0]);
      SilenceRun(Next(s, actions[0]), actions[1..]);
    }
  }

  /** In every reachable state the loading screen is called for only while something is still out: the
      session, a setup probe asked for and not answered, or a race not delivered. An unanswering box ends
      in the question, and a blocked enrolment probe in the timer's verdict. */
  lemma GateNeverStuck(session: Session, actions: seq<Action>)
    requires var e := Exec(Fresh(session), actions); e.effectsOn && Render(e) == Loading
    ensures var e := Exec(Fresh(session), actions);
            |e.races| > 0 && (e.session.loading || !Quiet(e) || !e.races[|e.races| - 1].stage.Delivered?)
  {
    SilenceRun(Fresh(session), actions);
  }

  // ---- When a wipe ends the offline lock ----

  const OfflineNobody := Session(false, false, true)

  /** The session ends while the box is unreachable, and the race delivers an enrolment. */
  function EnrolledAgain(s: State): State
    requires |s.races| > 0
  {
    var i := |s.races| - 1;
    Next(Next(Next(s, SessionChanged(OfflineNobody)), EnrolmentRead(i, Some(Enrolment(true, None)))), RaceDelivered(i))
  }

  /** The probe that is awaited once the page has caught up. */
  function NextProbe(s: State): (n: int)
    ensures n >= -1
  {
    if s.attempt == s.probed then |s.probes| - 1 else |s.probes|
  }

  /** Whatever is still open about setup is settled in favour of signing in. */
  function SetupSettled(s: State): State
    requires NextProbe(s) >= 0
  {
    Next(Next(Next(Next(Next(s, Commit), ChooseSignIn), WizardDone), Flush), Probed(NextProbe(s), Yes))
  }

  /** The events of both. */
  function WayBack(s: State): seq<Action>
    requires |s.races| > 0 && NextProbe(s) >= 0
  {
    var i := |s.races| - 1;
    [SessionChanged(OfflineNobody), EnrolmentRead(i, Some(Enrolment(true, None))), RaceDelivered(i)]
    + ([Commit, ChooseSignIn, WizardDone] + [Flush, Probed(NextProbe(s), Yes)])
  }

  lemma WayBackRestartsNothing(s: State)
    requires |s.races| > 0 && NextProbe(s) >= 0
    ensures NoRestart(WayBack(s))
  {
  }

  lemma WayBackSteps(s: State)
    requires |s.races| > 0 && NextProbe(s) >= 0 && NextProbe(EnrolledAgain(s)) == NextProbe(s)
    ensures Exec(s, WayBack(s)) == SetupSettled(EnrolledAgain(s))
  {
    hide Next, NextProbe;
    var i := |s.races| - 1;
    var a := [SessionChanged(OfflineNobody), EnrolmentRead(i, Some(Enrolment(true, None))), RaceDelivered(i)];
    var b, c := [Commit, ChooseSignIn, WizardDone], [Flush, Probed(NextProbe(s), Yes)];
    ExecAppend(s, a, b + c);
    ExecThree(s, a[0], a[1], a[2]);
    ExecAppend(Exec(s, a), b, c);
    ExecThree(Exec(s, a), b[0], b[1], b[2]);
    ExecTwo(Exec(Exec(s, a), b), c[0], c[1]);
  }

  lemma EnrolmentComesBack(s: State)
    requires Inv(s) && SilenceIsAnswer(s) && s.effectsOn && !RaceSpent(s) && s.enrolled.Some?
    ensures |s.races| > 0 && NextProbe(s) >= 0
    ensures var e := EnrolledAgain(s);
            && e == s.(session := OfflineNobody, enrolled := Some(true), identity := e.identity, races := e.races)
            && Inv(e) && SilenceIsAnswer(e)
  {
    var i := |s.races| - 1;
    var s1 := Next(s, SessionChanged(OfflineNobody));
    var s2 := Next(s1, EnrolmentRead(i, Some(Enrolment(true, None))));
    InvStep(s, SessionChanged(OfflineNobody));
    InvStep(s1, EnrolmentRead(i, Some(Enrolment(true, None))));
    InvStep(s2, RaceDelivered(i));
    SilenceStep(s, SessionChanged(OfflineNobody));
    SilenceStep(s1, EnrolmentRead(i, Some(Enrolment(true, None))));
    SilenceStep(s2, RaceDelivered(i));
  }

  lemma LockComesBack(s: State)
    requires Inv(s) && SilenceIsAnswer(s) && s.effectsOn && NextProbe(s) >= 0
    requires s.enrolled == Some(true) && s.session == OfflineNobody
    ensures Render(SetupSettled(s)) == OfflineLock
  {
  }

  lemma WayBackOffersLock(s: State)
    requires Inv(s) && SilenceIsAnswer(s) && s.effectsOn && !RaceSpent(s) && s.enrolled.Some?
    ensures exists later :: NoRestart(later) && Render(Exec(s, later)) == OfflineLock
  {
    hide EnrolledAgain, SetupSettled, Exec, Render, Inv, SilenceIsAnswer, RaceSpent, WayBack, NoRestart;
    EnrolmentComesBack(s);
    WayBackRestartsNothing(s);
    WayBackSteps(s);
    LockComesBack(EnrolledAgain(s));
  }

  lemma WipeKeepsRace(s: State)
    requires s.effectsOn
    ensures RaceSpent(Next(s, Wipe)) == RaceSpent(s) && Next(s, Wipe).effectsOn && Next(s, Wipe).enrolled.Some?
  {
  }

  /** A wipe ends the offline lock for the rest of a mount, whatever else happens, if and only if the race of
      the running effect is spent. In every reachable state that is all it takes: otherwise there are events
      after which the lock is offered again. */
  lemma WipeEndsOfflineLockExactly(session: Session, before: seq<Action>)
    requires Exec(Fresh(session), before).effectsOn
    ensures var s := Exec(Fresh(session), before);
            RaceSpent(s) <==> forall later :: NoRestart(later) ==> Render(Exec(Next(s, Wipe), later)) != OfflineLock
  {
    SilenceRun(Fresh(session), before);
    var s := Exec(Fresh(session), before);
    hide Exec, Inv, SilenceIsAnswer;
    InvStep(s, Wipe);
    SilenceStep(s, Wipe);
    var s1 := Next(s, Wipe);
    if RaceSpent(s) {
      forall later | NoRestart(later) ensures Render(Exec(s1, later)) != OfflineLock {
        ForgottenRun(s1, later);
      }
    } else {
      hide Next, Render, RaceSpent, SilenceIsAnswer;
      WipeKeepsRace(s);
      WayBackOffersLock(s1);
    }
  }
}
