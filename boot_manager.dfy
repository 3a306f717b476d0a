/**
 * BootManagerMonoGame: the state machine that holds the game loop while the content is
 * missing or after a fatal error. Each frame it advances the diagnostics hold timer,
 * validates the content on the first frame, re-validates on a retry request and honours
 * an exit request while the loop is held.
 *
 * The pure functions (Initial, Fatalized, Revalidated, HoldStep, Updated) describe one call
 * each on a Snapshot of the manager's fields; the class's methods are proved to perform
 * exactly those steps, and the lemmas state what the steps guarantee.
 */
module BootManager {
  import opened Wrappers
  import opened Paths
  import opened Disk
  import opened ContentValidator

  datatype BootState = Running | ContentMissing | Fatal

  /** TimeSpan ticks: the frame time is counted in units of 100 ns. */
  const TicksPerSecond: nat := 10_000_000
  /** Holding START/ENTER this long toggles the diagnostics overlay. */
  const HoldThreshold: nat := 2 * TicksPerSecond

  /** The summary before any validation has run. */
  const NotValidated: string := "N/A"
  const DefaultFatalMessage: string := "ERRO FATAL"
  const ValidationFailedMessage: string := "Falha ao validar Content"

  /** What Validate is run against: the platform paths, whether a file system is installed, and the device. */
  datatype Services = Services(paths: Option<PathSet>, fsReady: bool, volume: Volume)

  /** The input of one Update call. */
  datatype Frame = Frame(
    enginePresent: bool, // Engine.Instance != null
    holdKey: bool,       // START/ENTER/SPACE held down
    elapsed: nat,        // ElapsedGameTime, in ticks
    retry: bool,         // START/A/ENTER/SPACE pressed this frame
    exit: bool)          // BACK/B/ESC pressed this frame

  /** The manager's fields at one moment. */
  datatype Snapshot = Snapshot(
    state: BootState,
    problems: seq<string>,
    summary: string,
    holdDiagTimer: nat,
    diagMode: bool,
    fatalMessage: Option<string>,
    fatalError: Option<Fault>)

  /** The problems as the strings the validator returns. */
  function Messages(ps: seq<Problem>): seq<string> {
    seq(|ps|, i requires 0 <= i < |ps| => ps[i].Message())
  }

  /** A freshly constructed manager: it waits in ContentMissing until the first validation. */
  function Initial(): Snapshot {
    Snapshot(ContentMissing, [], NotValidated, 0, false, None, None)
  }

  /** IsBlockingGameLoop */
  predicate Blocking(s: Snapshot) {
    s.state != Running
  }

  /** EnterFatal(message, error) */
  function Fatalized(s: Snapshot, message: Option<string>, error: Option<Fault>): Snapshot {
    s.(state := Fatal, fatalMessage := Some(message.GetOr(DefaultFatalMessage)), fatalError := error)
  }

  /** TryRevalidate, given what Validate did: the new fields and the value returned. */
  function Revalidated(s: Snapshot, outcome: Outcome): (Snapshot, bool) {
    match outcome
    case Threw(f) => (Fatalized(s.(problems := []), Some(ValidationFailedMessage), Some(f)), false)
    case Returned(rep) =>
      var t := s.(problems := Messages(rep.problems), summary := rep.summary);
      if rep.ok then (t.(state := Running), true) else (t.(state := ContentMissing), false)
  }

  /** TryRevalidate against the given services. */
  function Revalidation(s: Snapshot, requireAudio: bool, env: Services): (Snapshot, bool) {
    Revalidated(s, Validation(env.paths, env.fsReady, env.volume, requireAudio))
  }

  /** The diagnostics hold timer and mode after one frame. */
  function HoldStep(timer: nat, diagMode: bool, holdKey: bool, elapsed: nat): (nat, bool) {
    var t := if holdKey then timer + elapsed else 0;
    if t >= HoldThreshold then (0, !diagMode) else (t, diagMode)
  }

  /** The fields after the first-validation step of Update. */
  function FirstValidated(s: Snapshot, requireAudio: bool, env: Services): Snapshot {
    if s.state == ContentMissing && s.summary == NotValidated then Revalidation(s, requireAudio, env).0 else s
  }

  /** Update(time): the new fields and whether the engine was asked to exit. */
  function Updated(s: Snapshot, requireAudio: bool, env: Services, frame: Frame): (Snapshot, bool) {
    if !frame.enginePresent then (s, false)
    else
      var (timer, diag) := HoldStep(s.holdDiagTimer, s.diagMode, frame.holdKey, frame.elapsed);
      var s1 := FirstValidated(s.(holdDiagTimer := timer, diagMode := diag), requireAudio, env);
      if s1.state == ContentMissing then
        var s2 := if frame.retry then Revalidation(s1, requireAudio, env).0 else s1;
        (s2, frame.exit)
      else if s1.state == Fatal then (s1, frame.exit)
      else (s1, false)
  }

  class BootManagerMonoGame {
    var state: BootState
    const requireAudio: bool
    var fatalMessage: Option<string>
    var fatalError: Option<Fault>
    var holdDiagTimer: nat
    var diagMode: bool
    var problems: seq<string>
    var summary: string

    function Snap(): Snapshot
      reads this
    {
      Snapshot(state, problems, summary, holdDiagTimer, diagMode, fatalMessage, fatalError)
    }

    constructor (requireAudio: bool)
      ensures Snap() == Initial() && this.requireAudio == requireAudio
      ensures IsBlockingGameLoop()
    {
      this.requireAudio := requireAudio;
      state := ContentMissing;
      fatalMessage := None;
      fatalError := None;
      holdDiagTimer := 0;
      diagMode := false;
      problems := [];
      summary := NotValidated;
    }

    /** IsBlockingGameLoop: the game loop waits in every state but Running, as Blocking says of the snapshot. */
    predicate IsBlockingGameLoop()
      reads this
      ensures IsBlockingGameLoop() <==> Blocking(Snap())
    {
      state != Running
    }

    method EnterFatal(message: Option<string>, error: Option<Fault>)
      modifies this
      ensures Snap() == Fatalized(old(Snap()), message, error)
    {
      fatalMessage := Some(message.GetOr(DefaultFatalMessage));
      fatalError := error;
      state := Fatal;
    }

    method TryRevalidate(env: Services) returns (ok: bool)
      modifies this
      ensures (Snap(), ok) == Revalidation(old(Snap()), requireAudio, env)
    {
      problems := [];
      var res := Validate(env.paths, env.fsReady, env.volume, requireAudio);
      match res {
        case Threw(f) =>
          EnterFatal(Some(ValidationFailedMessage), Some(f));
          return false;
        case Returned(rep) =>
          summary := rep.summary;
          problems := problems + Messages(rep.problems);
          assert problems == Messages(rep.problems);
          if rep.ok {
            state := Running;
            return true;
          }
          state := ContentMissing;
          return false;
      }
    }

    method Update(env: Services, frame: Frame) returns (exitRequested: bool)
      modifies this
      ensures (Snap(), exitRequested) == Updated(old(Snap()), requireAudio, env, frame)
    {
      exitRequested := false;
      if !frame.enginePresent {
        return;
      }
      ghost var s0 := Snap();

      if frame.holdKey {
        holdDiagTimer := holdDiagTimer + frame.elapsed;
      } else {
        holdDiagTimer := 0;
      }
      if holdDiagTimer >= HoldThreshold {
        holdDiagTimer := 0;
        diagMode := !diagMode;
      }
      ghost var held := HoldStep(s0.holdDiagTimer, s0.diagMode, frame.holdKey, frame.elapsed);
      assert Snap() == s0.(holdDiagTimer := held.0, diagMode := held.1);

      if state == ContentMissing && summary == NotValidated {
        var _ := TryRevalidate(env);
      }
      ghost var s1 := Snap();
      assert s1 == FirstValidated(s0.(holdDiagTimer := held.0, diagMode := held.1), requireAudio, env);

      if state == ContentMissing {
        if frame.retry {
          var _ := TryRevalidate(env);
        }
        if frame.exit {
          exitRequested := true;
        }
      } else if state == Fatal {
        if frame.exit {
          exitRequested := true;
        }
      }
    }
  }

  // ---------------------------------------------------------------------------
  // Properties of the state machine
  // ---------------------------------------------------------------------------

  /** A fresh manager holds the game loop and has not validated yet. */
  lemma InitialBlocks()
    ensures Blocking(Initial()) && Initial().summary == NotValidated && Initial().problems == []
  {
  }

  /** EnterFatal moves to Fatal from any state, records the message (or the default) and the error, and keeps the rest. */
  lemma FatalizedRecords(s: Snapshot, message: Option<string>, error: Option<Fault>)
    ensures var t := Fatalized(s, message, error);
            && t.state == Fatal && Blocking(t)
            && t.fatalMessage == Some(if message.Some? then message.value else DefaultFatalMessage)
            && t.fatalError == error
            && t.problems == s.problems && t.summary == s.summary
            && t.holdDiagTimer == s.holdDiagTimer && t.diagMode == s.diagMode
  {
  }

  /**
   * TryRevalidate returns true exactly when the validator says OK; then the loop runs. When the
   * validator reports problems the manager shows them; when it throws the manager turns fatal
   * with no problems listed and the summary it had.
   */
  lemma RevalidatedOutcome(s: Snapshot, outcome: Outcome)
    ensures var (t, ok) := Revalidated(s, outcome);
            && (ok <==> outcome.Returned? && outcome.report.ok)
            && (ok <==> t.state == Running)
            && (outcome.Returned? ==> t.problems == Messages(outcome.report.problems) && t.summary == outcome.report.summary)
            && (outcome.Returned? && !outcome.report.ok ==> t.state == ContentMissing)
            && (outcome.Threw? ==> t.state == Fatal && t.problems == [] && t.summary == s.summary &&
                                   t.fatalMessage == Some(ValidationFailedMessage) && t.fatalError == Some(outcome.fault))
            && t.holdDiagTimer == s.holdDiagTimer && t.diagMode == s.diagMode
  {
  }

  /** Running after TryRevalidate means no problems are listed. */
  lemma RunningMeansNoProblems(s: Snapshot, requireAudio: bool, env: Services)
    ensures Revalidation(s, requireAudio, env).0.state == Running ==> Revalidation(s, requireAudio, env).0.problems == []
  {
    var r := Validation(env.paths, env.fsReady, env.volume, requireAudio);
    if r.Returned? {
      OkExactlyWhenNoProblems(env.paths, env.fsReady, env.volume, requireAudio);
    }
  }

  /** The validator never answers with the "not yet validated" summary. */
  lemma ValidatorSummaryIsNotPending(paths: Option<PathSet>, fsReady: bool, v: Volume, requireAudio: bool)
    requires Validation(paths, fsReady, v, requireAudio).Returned?
    ensures Validation(paths, fsReady, v, requireAudio).report.summary != NotValidated
  {
    if FullScan(paths, fsReady, v) {
      OkExactlyWhenNoProblems(paths, fsReady, v, requireAudio);
    } else {
      RootDefectStops(paths, fsReady, v, requireAudio);
    }
  }

  /** Update does nothing while there is no engine. */
  lemma NoEngineNoChange(s: Snapshot, requireAudio: bool, env: Services, frame: Frame)
    requires !frame.enginePresent
    ensures Updated(s, requireAudio, env, frame) == (s, false)
  {
  }

  /** The hold timer is always below the threshold after a frame; diagMode flips exactly when the threshold is reached. */
  lemma HoldTimerBounded(s: Snapshot, requireAudio: bool, env: Services, frame: Frame)
    requires frame.enginePresent
    ensures var t := Updated(s, requireAudio, env, frame).0;
            && t.holdDiagTimer < HoldThreshold
            && (t.diagMode != s.diagMode <==> frame.holdKey && s.holdDiagTimer + frame.elapsed >= HoldThreshold)
            && (!frame.holdKey ==> t.holdDiagTimer == 0)
  {
    var held := HoldStep(s.holdDiagTimer, s.diagMode, frame.holdKey, frame.elapsed);
    var s0 := s.(holdDiagTimer := held.0, diagMode := held.1);
    RevalidationKeepsHold(s0, requireAudio, env);
    var s1 := FirstValidated(s0, requireAudio, env);
    RevalidationKeepsHold(s1, requireAudio, env);
  }

  /** Validating touches neither the hold timer nor the diagnostics mode. */
  lemma RevalidationKeepsHold(s: Snapshot, requireAudio: bool, env: Services)
    ensures var t := Revalidation(s, requireAudio, env).0;
            t.holdDiagTimer == s.holdDiagTimer && t.diagMode == s.diagMode
  {
    match Validation(env.paths, env.fsReady, env.volume, requireAudio)
    case Threw(_) =>
    case Returned(_) =>
  }

  /** Fatal is absorbing: Update keeps the manager Fatal with its message and problems; only exit is possible. */
  lemma FatalAbsorbing(s: Snapshot, requireAudio: bool, env: Services, frame: Frame)
    requires s.state == Fatal
    ensures var (t, exit) := Updated(s, requireAudio, env, frame);
            && t.state == Fatal && t.problems == s.problems && t.summary == s.summary
            && t.fatalMessage == s.fatalMessage && t.fatalError == s.fatalError
            && (exit <==> frame.enginePresent && frame.exit)
  {
  }

  /** Once running, Update neither validates nor leaves Running nor asks to exit. */
  lemma RunningStable(s: Snapshot, requireAudio: bool, env: Services, frame: Frame)
    requires s.state == Running
    ensures var (t, exit) := Updated(s, requireAudio, env, frame);
            && t.state == Running && t.problems == s.problems && t.summary == s.summary
            && t.fatalMessage == s.fatalMessage && !exit
  {
  }

  /** The automatic validation happens on the first frame only: afterwards the summary is a verdict or the manager is Fatal. */
  lemma FirstValidationOnce(s: Snapshot, requireAudio: bool, env: Services, frame: Frame)
    requires frame.enginePresent && s.state == ContentMissing
    ensures var t := Updated(s, requireAudio, env, frame).0;
            t.summary != NotValidated || t.state == Fatal
  {
    var r := Validation(env.paths, env.fsReady, env.volume, requireAudio);
    if r.Returned? {
      ValidatorSummaryIsNotPending(env.paths, env.fsReady, env.volume, requireAudio);
    }
  }

  /** Once validated, a frame without a retry request leaves the listed problems and summary alone. */
  lemma NoRetryNoValidation(s: Snapshot, requireAudio: bool, env: Services, frame: Frame)
    requires s.summary != NotValidated && !frame.retry
    ensures var t := Updated(s, requireAudio, env, frame).0;
            t.state == s.state && t.problems == s.problems && t.summary == s.summary
  {
  }

  /** A retry request in ContentMissing re-validates: the result is what TryRevalidate gives. */
  lemma RetryRevalidates(s: Snapshot, requireAudio: bool, env: Services, frame: Frame)
    requires frame.enginePresent && frame.retry && s.state == ContentMissing && s.summary != NotValidated
    ensures var t := Updated(s, requireAudio, env, frame).0;
            var (u, _) := Revalidation(s, requireAudio, env);
            t.state == u.state && t.problems == u.problems && t.summary == u.summary
  {
  }

  /** An exit request is only ever passed on while the loop is held, and always when the manager waits for a retry or is Fatal. */
  lemma ExitHonoured(s: Snapshot, requireAudio: bool, env: Services, frame: Frame)
    ensures var exit := Updated(s, requireAudio, env, frame).1;
            && (exit ==> frame.enginePresent && frame.exit && Blocking(s))
            && (frame.enginePresent && frame.exit && s.state == Fatal ==> exit)
            && (frame.enginePresent && frame.exit && s.state == ContentMissing && s.summary != NotValidated ==> exit)
  {
  }

  // ---------------------------------------------------------------------------
  // The problem list on the content-missing screen
  // ---------------------------------------------------------------------------

  /** A line of text on the error screen and the height it is drawn at. */
  datatype Line = Line(y: int, text: string)

  const ListTop: int := 140
  const LineStep: int := 20
  const MaxListed: nat := 10
  const FooterMinY: int := 360
  const Ellipsis: string := "..."

  /** The problem lines the screen draws: the first ten, each marked, then "..." when more remain. */
  function Listing(problems: seq<string>): seq<Line> {
    var shown := if |problems| < MaxListed then |problems| else MaxListed;
    seq(shown, i requires 0 <= i < shown => Line(ListTop + LineStep * i, "- " + problems[i]))
    + (if |problems| > MaxListed then [Line(ListTop + LineStep * MaxListed, Ellipsis)] else [])
  }

  /** The height of the footer: below the list, and never above FooterMinY. */
  function FooterY(problems: seq<string>): int {
    var shown := if |problems| < MaxListed then |problems| else MaxListed;
    var y := ListTop + LineStep * shown;
    if y + 10 > FooterMinY then y + 10 else FooterMinY
  }

  /** DrawContentMissing's list loop: the lines it draws and where the footer goes. */
  method ListProblems(problems: seq<string>) returns (lines: seq<Line>, footerY: int)
    ensures lines == Listing(problems)
    ensures footerY == FooterY(problems)
  {
    var y := ListTop;
    var shown := 0;
    lines := [];
    while shown < |problems|
      invariant 0 <= shown <= |problems| && shown <= MaxListed
      invariant y == ListTop + LineStep * shown
      invariant lines == seq(shown, i requires 0 <= i < shown => Line(ListTop + LineStep * i, "- " + problems[i]))
    {
      if shown >= MaxListed {
        lines := lines + [Line(y, Ellipsis)];
        break;
      }
      lines := lines + [Line(y, "- " + problems[shown])];
      y := y + LineStep;
      shown := shown + 1;
    }
    footerY := if y + 10 > FooterMinY then y + 10 else FooterMinY;
  }

  /** The list shows min(n, 10) problems in order, each as "- " + problem, plus "..." exactly when n > 10. */
  lemma ListingShape(problems: seq<string>)
    ensures var lines := Listing(problems);
            && |lines| == (if |problems| <= MaxListed then |problems| else MaxListed + 1)
            && (forall i :: 0 <= i < |lines| && i < |problems| && i < MaxListed ==> lines[i].text == "- " + problems[i])
            && ((exists i :: 0 <= i < |lines| && lines[i].text == Ellipsis) <==> |problems| > MaxListed)
  {
    var lines := Listing(problems);
    forall i | 0 <= i < |lines| && i < |problems| && i < MaxListed
      ensures lines[i].text != Ellipsis
    {
      assert lines[i].text[1] == ' ';
    }
    if |problems| > MaxListed {
      assert lines[MaxListed].text == Ellipsis;
    }
  }

  /** Lines go down the screen in steps of 20 and the footer sits below all of them, never above 360. */
  lemma FooterBelowList(problems: seq<string>)
    ensures var lines := Listing(problems);
            && FooterY(problems) >= FooterMinY
            && (forall i :: 0 <= i < |lines| ==> lines[i].y == ListTop + LineStep * i && lines[i].y < FooterY(problems))
  {
  }
}
