/** `AuthGate` (frontend/src/App.tsx) as code: state setters called from effects, promises and clicks. */
module AuthGateCode {
  import opened Wrappers
  import opened AuthGate

  class Gate {
    var setupDone: Option<bool>
    var probeFailed: bool
    var attempt: nat
    var enrolled: Option<bool>
    var identity: Option<string>
    var session: Session
    var effectsOn: bool
    var committed: nat
    var probed: nat
    var shown: Screen
    var probes: seq<Probe>
    var races: seq<Race>

    ghost function View(): State
      reads this
    {
      State(setupDone, probeFailed, attempt, enrolled, identity, session, effectsOn, committed, probed, shown, probes, races)
    }

    constructor (session: Session)
      ensures View() == AuthGate.Fresh(session) && Inv(View())
    {
      setupDone, probeFailed, attempt := None, false, 0;
      enrolled, identity := None, None;
      this.session := session;
      effectsOn, committed, probed, shown := false, 0, 0, Blank;
      probes, races := [], [];
    }

    /** Every effect run so far sets its `alive` flag to false. */
    method CleanUpRuns<T>(runs: seq<Run<T>>) returns (r: seq<Run<T>>)
      ensures r == Kill(runs)
    {
      r := runs;
      var i := 0;
      while i < |r|
        invariant 0 <= i <= |r| == |runs|
        invariant forall k :: 0 <= k < i ==> r[k] == runs[k].(alive := false)
        invariant forall k :: i <= k < |r| ==> r[k] == runs[k]
      {
        r := r[i := r[i].(alive := false)];
        i := i + 1;
      }
      assert r == Kill(runs);
    }

    method StartEffects()
      modifies this
      ensures View() == Next(old(View()), RunEffects)
    {
      if !effectsOn {
        effectsOn := true;
        probed := committed;
        probes := probes + [Run(true, Awaited)];
        races := races + [Run(true, Racing)];
      }
    }

    method StopEffects()
      modifies this
      ensures View() == Next(old(View()), CleanUp)
    {
      if effectsOn {
        effectsOn := false;
        probes := CleanUpRuns(probes);
        races := CleanUpRuns(races);
      }
    }

    method CommitRender()
      modifies this`shown, this`committed
      ensures View() == Next(old(View()), Commit)
    {
      committed := attempt;
      if probeFailed {
        shown := SetupUnknown;
      } else if session.loading || setupDone.None? || enrolled.None? {
        shown := Loading;
      } else if !setupDone.value {
        shown := Setup;
      } else if !session.user {
        if session.offline && enrolled.value {
          shown := OfflineLock;
        } else {
          shown := Login;
        }
      } else {
        shown := Shell;
      }
    }

    method FlushEffects()
      modifies this
      ensures View() == Next(old(View()), Flush)
    {
      if effectsOn && probed != committed {
        probed := committed;
        probes := CleanUpRuns(probes);
        probes := probes + [Run(true, Awaited)];
      }
    }

    method OnProbe(i: nat, answer: Answer)
      modifies this
      ensures View() == Next(old(View()), Probed(i, answer))
    {
      if i < |probes| && probes[i].stage.Awaited? {
        var alive := probes[i].alive;
        probes := probes[i := probes[i].(stage := Completed)];
        if alive {
          if answer == Unknown {
            probeFailed := true;
          } else {
            setupDone := Some(answer == Yes);
          }
        }
      }
    }

    method OnRunSetup()
      modifies this`probeFailed, this`setupDone
      ensures View() == Next(old(View()), ChooseSetup)
    {
      if shown == SetupUnknown {
        probeFailed := false;
        setupDone := Some(false);
      }
    }

    method OnSignIn()
      modifies this`probeFailed, this`setupDone
      ensures View() == Next(old(View()), ChooseSignIn)
    {
      if shown == SetupUnknown {
        probeFailed := false;
        setupDone := Some(true);
      }
    }

    method OnRetry()
      modifies this`probeFailed, this`attempt
      ensures View() == Next(old(View()), AskAgain)
    {
      if shown == SetupUnknown {
        probeFailed := false;
        attempt := attempt + 1;
      }
    }

    method OnSetupComplete()
      modifies this`setupDone
      ensures View() == Next(old(View()), WizardDone)
    {
      if shown == Setup {
        setupDone := Some(true);
      }
    }

    /** The probe and the timer end the race the same way: the first of them does. */
    method OnRaceEnd(i: nat, result: Option<Enrolment>)
      modifies this`races
      ensures View() == Next(old(View()), EnrolmentRead(i, result))
      ensures result.None? ==> View() == Next(old(View()), TimedOut(i))
    {
      if i < |races| && races[i].stage.Racing? {
        races := races[i := races[i].(stage := Won(result))];
      }
    }

    method OnRaceResult(i: nat)
      modifies this
      ensures View() == Next(old(View()), RaceDelivered(i))
    {
      if i < |races| && races[i].stage.Won? {
        var result := races[i].stage.result;
        var alive := races[i].alive;
        races := races[i := races[i].(stage := Delivered(result))];
        if alive {
          if result.Some? && result.value.enrolled {
            enrolled, identity := Some(true), result.value.identity;
          } else {
            enrolled, identity := Some(false), None;
          }
        }
      }
    }

    method OnOfflineWipe()
      modifies this`enrolled, this`identity
      ensures View() == Next(old(View()), Wipe)
    {
      if effectsOn {
        enrolled, identity := Some(false), None;
      }
    }

    method OnSession(session: Session)
      modifies this`session
      ensures View() == Next(old(View()), SessionChanged(session))
    {
      this.session := session;
    }

    /** Whatever happens next. */
    method Handle(a: Action)
      modifies this
      ensures View() == Next(old(View()), a)
    {
      match a
      case RunEffects => StartEffects();
      case CleanUp => StopEffects();
      case Commit => CommitRender();
      case Flush => FlushEffects();
      case Probed(i, answer) => OnProbe(i, answer);
      case ChooseSetup => OnRunSetup();
      case ChooseSignIn => OnSignIn();
      case AskAgain => OnRetry();
      case WizardDone => OnSetupComplete();
      case EnrolmentRead(i, result) => OnRaceEnd(i, result);
      case TimedOut(i) => OnRaceEnd(i, None);
      case RaceDelivered(i) => OnRaceResult(i);
      case Wipe => OnOfflineWipe();
      case SessionChanged(session) => OnSession(session);
    }

    /** Any events in any order. The setup answer that the gate then holds is the last decision the awaited
        probe, the person or the wizard made, and past the question only the wizard has changed it. What it
        holds of enrolment is the last verdict of the running race or a wipe, and a wipe that found its race
        spent has not been undone. */
    method Play(actions: seq<Action>)
      requires Inv(View())
      modifies this
      ensures View() == Exec(old(View()), actions) && Inv(View())
      ensures setupDone == LastDecision(old(View()), actions, old(setupDone))
      ensures Belief(View()) == LastVerdict(old(View()), actions, old(Belief(View())))
      ensures old(PastQuestion(View())) && NoRestart(actions) ==>
                PastQuestion(View()) && (setupDone == old(setupDone) || (setupDone == Some(true) && WizardDone in actions))
      ensures old(Forgotten(View())) && NoRestart(actions) ==> enrolled == Some(false) && identity == None
    {
      hide Next, Inv, PastQuestion, Forgotten, LastDecision, LastVerdict, Belief;
      ghost var start := View();
      InvRun(start, actions);
      NeverGuessedFrom(start, actions);
      EnrolmentFrom(start, actions);
      if PastQuestion(start) && NoRestart(actions) {
        AnswerIsFinal(start, actions);
      }
      if Forgotten(start) && NoRestart(actions) {
        ForgottenRun(start, actions);
        ForgottenMeans(Exec(start, actions));
      }
      var i := 0;
      while i < |actions|
        invariant 0 <= i <= |actions|
        invariant Exec(start, actions) == Exec(View(), actions[i..])
      {
        assert actions[i..][0] == actions[i] && actions[i..][1..] == actions[i + 1..];
        Handle(actions[i]);
        i := i + 1;
      }
    }

    lemma ForgottenMeans(s: State)
      requires Forgotten(s)
      ensures s.enrolled == Some(false) && s.identity == None
    {
    }
  }
}
