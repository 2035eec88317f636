/** The watcher that decides how the dashboard server's start went, and holds its output back until then. */
module LaunchWatch {
  import opened LogFilters

  const HOLD_LIMIT := 2000

  type Code = Option<int>

  datatype Outcome =
    | ReadyByLine
    | ReadyByProbe
    | TimedOut
    | Failed(code: Code, portInUse: bool, cause: Option<string>)

  datatype Kept = Kept(stderr: bool, text: string)

  /** What the outside sees, in order: lines written to the two sinks, and the two callbacks. */
  datatype Effect = Wrote(line: Kept) | Settled(outcome: Outcome) | Exited(code: Code, error: Option<string>)

  /** The grace timer that stands in for a `close` that does not come. */
  datatype Grace = Unset | Running(code: Code) | Done

  datatype Event =
    | Line(stderr: bool, text: string)
    | ProbeDue(throws: bool)
    | ProbeAnswered(up: bool)
    | Deadline
    | Exit(code: Code)
    | GraceDue
    | Closed(code: Code)
    | Errored(message: string)

  /** The state of the two skew filters and of the startup filter. */
  datatype Filters = Filters(outSkew: bool, errSkew: bool, listening: bool)

  /** Outstanding timers and probe attempts. */
  datatype Timers = Timers(probes: nat, attempts: nat, deadline: bool)

  /** History: the lines the filters kept, how many of them at the decision, and its place in the log. */
  datatype Past = Past(kept: seq<Kept>, decidedAt: nat, settledAt: nat)

  datatype State = State(
    starting: bool,
    holding: bool,
    bannerActive: bool,
    finished: bool,
    filters: Filters,
    held: seq<Kept>,
    startupText: seq<string>,
    timers: Timers,
    grace: Grace,
    log: seq<Effect>,
    past: Past)

  const START := State(true, true, true, false, Filters(false, false, false), [], [],
                       Timers(1, 0, true), Unset, [], Past([], 0, 0))

  function Writes(lines: seq<Kept>): (effects: seq<Effect>)
    ensures |effects| == |lines| && forall i :: 0 <= i < |lines| ==> effects[i] == Wrote(lines[i])
  {
    seq(|lines|, i requires 0 <= i < |lines| => Wrote(lines[i]))
  }

  function WithoutStderr(lines: seq<Kept>): seq<Kept>
    decreases |lines|
  {
    if lines == [] then []
    else WithoutStderr(ButLast(lines)) + (if Last(lines).stderr then [] else [Last(lines)])
  }

  function Shown(lines: seq<Kept>, dropStderr: bool): seq<Effect> {
    Writes(if dropStderr then WithoutStderr(lines) else lines)
  }

  function Released(s: State, dropStderr: bool): State {
    s.(holding := false, held := [], log := s.log + Shown(s.held, dropStderr))
  }

  lemma ShowNothing(lines: seq<Kept>, dropStderr: bool)
    ensures Shown(lines[..0], dropStderr) == []
  {
  }

  lemma ShowOneMore(lines: seq<Kept>, i: nat, dropStderr: bool)
    requires i < |lines|
    ensures Shown(lines[..i + 1], dropStderr)
         == Shown(lines[..i], dropStderr) + (if dropStderr && lines[i].stderr then [] else [Wrote(lines[i])])
  {
    assert ButLast(lines[..i + 1]) == lines[..i];
  }

  /** The report comes last for a failure and before the held lines otherwise. */
  function Decided(s: State, outcome: Outcome): (s': State)
    ensures s'.filters == s.filters && s'.finished == s.finished && s'.startupText == s.startupText
    ensures s'.grace == s.grace && s'.timers.attempts == s.timers.attempts && s'.past.kept == s.past.kept
    ensures !s'.starting && (s'.bannerActive ==> s.bannerActive)
  {
    if !s.starting then s
    else
      var shown := Shown(s.held, outcome.Failed? && outcome.portInUse);
      var before := if outcome.Failed? then s.log + shown else s.log;
      s.(starting := false, holding := false, bannerActive := s.bannerActive && outcome != TimedOut,
         held := [], timers := Timers(0, s.timers.attempts, false),
         log := if outcome.Failed? then before + [Settled(outcome)] else before + [Settled(outcome)] + shown,
         past := Past(s.past.kept, |s.past.kept|, |before|))
  }

  lemma AlreadyDecided(s: State, outcome: Outcome)
    requires !s.starting
    ensures Decided(s, outcome) == s
  {
  }

  function Keep(s: State, line: Kept): State {
    var s1 := if s.starting && |s.startupText| < HOLD_LIMIT then s.(startupText := s.startupText + [line.text]) else s;
    var s2 := if s1.holding && |s1.held| >= HOLD_LIMIT then Released(s1, false) else s1;
    var s3 := if s2.holding then s2.(held := s2.held + [line]) else s2.(log := s2.log + [Wrote(line)]);
    s3.(past := s3.past.(kept := s3.past.kept + [line]))
  }

  function OnLine(s: State, stderr: bool, text: string, shapes: Shapes): State {
    var inBlock := SkewNext(if stderr then s.filters.errSkew else s.filters.outSkew, text, shapes);
    var s' := s.(filters := if stderr then s.filters.(errSkew := inBlock) else s.filters.(outSkew := inBlock));
    if inBlock then s'
    else if stderr || !s.bannerActive then Keep(s', Kept(stderr, text))
    else
      var listening := s.filters.listening || IsReady(text, shapes);
      var s'' := s'.(filters := s'.filters.(listening := listening));
      if StartupKeeps(s.filters.listening, text, shapes) then Keep(s'', Kept(stderr, text))
      else if listening && !s.filters.listening then Decided(s'', ReadyByLine)
      else s''
  }

  predicate SaysPortInUse(text: seq<string>, shapes: Shapes) {
    exists line <- text :: shapes.portInUse(line)
  }

  function Failure(s: State, code: Code, error: Option<string>, shapes: Shapes): Outcome {
    var portInUse := error == None && SaysPortInUse(s.startupText, shapes);
    Failed(code, portInUse,
           if error.Some? then error else if portInUse then None else shapes.cause(s.startupText))
  }

  function Finished(s: State, code: Code, error: Option<string>, shapes: Shapes): State {
    if s.finished then s
    else
      var s' := s.(finished := true, grace := if s.grace.Running? then Done else s.grace);
      if !s.starting then s'.(log := s.log + [Exited(code, error)])
      else Decided(s', Failure(s, code, error, shapes))
  }

  function Retry(s: State): State {
    if s.starting then s.(timers := s.timers.(probes := s.timers.probes + 1)) else s
  }

  /** A timer or answer that is not outstanding does nothing. */
  function Step(s: State, event: Event, shapes: Shapes): State {
    match event
    case Line(stderr, text) => OnLine(s, stderr, text, shapes)
    case ProbeDue(throws) =>
      if s.timers.probes == 0 then s
      else
        var s' := s.(timers := s.timers.(probes := s.timers.probes - 1));
        if !s.starting then s' else if throws then Retry(s') else s'.(timers := s'.timers.(attempts := s.timers.attempts + 1))
    case ProbeAnswered(up) =>
      if s.timers.attempts == 0 then s
      else
        var s' := s.(timers := s.timers.(attempts := s.timers.attempts - 1));
        if s.starting && up then Decided(s', ReadyByProbe) else Retry(s')
    case Deadline => if s.timers.deadline then Decided(s.(timers := s.timers.(deadline := false)), TimedOut) else s
    case Exit(code) => if s.grace == Unset then s.(grace := Running(code)) else s
    case GraceDue => if s.grace.Running? then Finished(s.(grace := Done), s.grace.code, None, shapes) else s
    case Closed(code) => Finished(s, code, None, shapes)
    case Errored(message) => Finished(s, None, Some(message), shapes)
  }

  function Run(events: seq<Event>, shapes: Shapes): State
    decreases |events|
  {
    if events == [] then START else Step(Run(ButLast(events), shapes), Last(events), shapes)
  }

  // ---- the watcher ----

  class Watcher {
    const shapes: Shapes
    const outSkew: SkewFilter
    const errSkew: SkewFilter
    const banner: StartupFilter
    var starting: bool
    var holding: bool
    var bannerActive: bool
    var finished: bool
    var held: seq<Kept>
    var startupText: seq<string>
    var probeTimers: nat
    var attempts: nat
    var deadline: bool
    var grace: Grace
    var log: seq<Effect>
    ghost var kept: seq<Kept>
    ghost var decidedAt: nat
    ghost var settledAt: nat

    ghost predicate Valid()
      reads this, outSkew, errSkew, banner
    {
      && outSkew != errSkew
      && outSkew.shapes == errSkew.shapes == banner.shapes == shapes
    }

    ghost function Now(): State
      reads this, outSkew, errSkew, banner
    {
      State(starting, holding, bannerActive, finished,
            Filters(outSkew.inSkewBlock, errSkew.inSkewBlock, banner.listening),
            held, startupText, Timers(probeTimers, attempts, deadline), grace, log, Past(kept, decidedAt, settledAt))
    }

    constructor (shapes: Shapes)
      ensures Valid() && this.shapes == shapes && fresh({outSkew, errSkew, banner})
      ensures Now() == START
    {
      this.shapes := shapes;
      outSkew := new SkewFilter(shapes);
      errSkew := new SkewFilter(shapes);
      banner := new StartupFilter(shapes);
      starting, holding, bannerActive, finished := true, true, true, false;
      held, startupText := [], [];
      probeTimers, attempts, deadline, grace := 1, 0, true, Unset;
      log, kept, decidedAt, settledAt := [], [], 0, 0;
    }

    method Release(dropStderr: bool)
      modifies `holding, `held, `log
      ensures !holding && held == [] && log == old(log) + Shown(old(held), dropStderr)
    {
      hide Shown();
      holding := false;
      var entries := held;
      held := [];
      var i := 0;
      assert Shown(entries[..0], dropStderr) == [] by { ShowNothing(entries, dropStderr); }
      while i < |entries|
        invariant 0 <= i <= |entries| && !holding && held == []
        invariant log == old(log) + Shown(entries[..i], dropStderr)
      {
        ShowOneMore(entries, i, dropStderr);
        if !(dropStderr && entries[i].stderr) {
          log := log + [Wrote(entries[i])];
        }
        i := i + 1;
      }
      assert entries[..i] == entries;
    }

    method Decide(outcome: Outcome)
      requires Valid()
      modifies `starting, `probeTimers, `deadline, `decidedAt, `settledAt, `bannerActive, `holding, `held, `log
      ensures Now() == Decided(old(Now()), outcome)
    {
      hide Decided();
      if starting {
        Conclude(outcome);
      } else {
        AlreadyDecided(Now(), outcome);
      }
    }

    method Conclude(outcome: Outcome)
      requires starting
      modifies `starting, `probeTimers, `deadline, `decidedAt, `settledAt, `bannerActive, `holding, `held, `log
      ensures var s' := Decided(old(Now()), outcome);
        && starting == s'.starting && holding == s'.holding && bannerActive == s'.bannerActive
        && held == s'.held && probeTimers == s'.timers.probes && deadline == s'.timers.deadline
        && log == s'.log && decidedAt == s'.past.decidedAt && settledAt == s'.past.settledAt
    {
      hide Shown();
      starting := false;
      probeTimers, deadline, decidedAt := 0, false, |kept|;
      if outcome.Failed? {
        Release(outcome.portInUse);
        settledAt := |log|;
        log := log + [Settled(outcome)];
        return;
      }
      if outcome == TimedOut {
        bannerActive := false;
      }
      settledAt := |log|;
      log := log + [Settled(outcome)];
      Release(false);
    }

    method Emit(line: Kept)
      modifies `startupText, `holding, `held, `log, `kept
      ensures Now() == Keep(old(Now()), line)
    {
      hide Shown();
      if starting && |startupText| < HOLD_LIMIT {
        startupText := startupText + [line.text];
      }
      if holding && |held| >= HOLD_LIMIT {
        Release(false);
      }
      if holding {
        held := held + [line];
      } else {
        log := log + [Wrote(line)];
      }
      kept := kept + [line];
    }

    method OnLine(stderr: bool, text: string)
      requires Valid()
      modifies this, outSkew, errSkew, banner
      ensures Now() == Step(old(Now()), Line(stderr, text), shapes)
    {
      hide Decided(), Keep();
      var keep: bool;
      if stderr {
        keep := errSkew.Keeps(text);
      } else {
        keep := outSkew.Keeps(text);
      }
      if keep && !stderr && bannerActive {
        var ready: bool;
        keep, ready := banner.Keeps(text);
        if ready {
          Decide(ReadyByLine);
        }
      }
      if keep {
        Emit(Kept(stderr, text));
      }
    }

    method ProbeOnce(throws: bool)
      requires Valid() && probeTimers > 0
      modifies this
      ensures Now() == Step(old(Now()), ProbeDue(throws), shapes)
    {
      probeTimers := probeTimers - 1;
      if !starting {
        return;
      }
      if throws {
        probeTimers := probeTimers + 1;
        return;
      }
      attempts := attempts + 1;
    }

    method OnProbeAnswer(up: bool)
      requires Valid() && attempts > 0
      modifies this
      ensures Now() == Step(old(Now()), ProbeAnswered(up), shapes)
    {
      hide Decided();
      attempts := attempts - 1;
      if !starting {
        return;
      }
      if up {
        Decide(ReadyByProbe);
      } else {
        probeTimers := probeTimers + 1;
      }
    }

    method OnDeadline()
      requires Valid() && deadline
      modifies this
      ensures Now() == Step(old(Now()), Deadline, shapes)
    {
      deadline := false;
      Decide(TimedOut);
    }

    method Finish(code: Code, error: Option<string>)
      requires Valid()
      modifies this
      ensures Now() == Finished(old(Now()), code, error, shapes)
    {
      hide Decided();
      if finished {
        return;
      }
      finished := true;
      if grace.Running? {
        grace := Done;
      }
      if !starting {
        log := log + [Exited(code, error)];
        return;
      }
      var portInUse := error == None && SaysPortInUse(startupText, shapes);
      var cause := if error.Some? then error else if portInUse then None else shapes.cause(startupText);
      Decide(Failed(code, portInUse, cause));
    }

    method OnExit(code: Code)
      requires Valid()
      modifies this
      ensures Now() == Step(old(Now()), Exit(code), shapes)
    {
      if grace == Unset {
        grace := Running(code);
      }
    }

    method OnGrace()
      requires Valid() && grace.Running?
      modifies this
      ensures Now() == Step(old(Now()), GraceDue, shapes)
    {
      hide Finished();
      var code := grace.code;
      grace := Done;
      Finish(code, None);
    }

    method OnClose(code: Code)
      requires Valid()
      modifies this
      ensures Now() == Step(old(Now()), Closed(code), shapes)
    {
      Finish(code, None);
    }

    method OnError(message: string)
      requires Valid()
      modifies this
      ensures Now() == Step(old(Now()), Errored(message), shapes)
    {
      Finish(None, Some(message));
    }
  }

  // ---- what holds after any order of events ----

  function Lines(log: seq<Effect>): seq<Kept>
    decreases |log|
  {
    if log == [] then [] else Lines(ButLast(log)) + (if Last(log).Wrote? then [Last(log).line] else [])
  }

  function Exits(log: seq<Effect>): nat
    decreases |log|
  {
    if log == [] then 0 else Exits(ButLast(log)) + (if Last(log).Exited? then 1 else 0)
  }

  lemma {:induction false} Appended(first: seq<Effect>, second: seq<Effect>)
    ensures Lines(first + second) == Lines(first) + Lines(second)
    ensures Exits(first + second) == Exits(first) + Exits(second)
    decreases |second|
  {
    if second == [] {
      assert first + second == first;
    } else {
      assert ButLast(first + second) == first + ButLast(second);
      Appended(first, ButLast(second));
    }
  }

  lemma {:induction false} WritesAreLines(lines: seq<Kept>)
    ensures Lines(Writes(lines)) == lines && Exits(Writes(lines)) == 0
    decreases |lines|
  {
    if lines != [] {
      WritesAreLines(ButLast(lines));
      assert ButLast(Writes(lines)) == Writes(ButLast(lines));
    }
  }

  /** The lines written before the report, of those kept until the decision. */
  function BeforeReport(outcome: Outcome, kept: seq<Kept>): seq<Kept> {
    if |kept| > HOLD_LIMIT then kept
    else if !outcome.Failed? then []
    else if outcome.portInUse then WithoutStderr(kept)
    else kept
  }

  function AfterReport(outcome: Outcome, kept: seq<Kept>): seq<Kept> {
    if |kept| <= HOLD_LIMIT && !outcome.Failed? then kept else []
  }

  ghost predicate Waiting(s: State) {
    && s.starting && s.bannerActive && |s.held| <= HOLD_LIMIT
    && if s.holding then s.log == [] && s.held == s.past.kept
       else s.held == [] && |s.past.kept| > HOLD_LIMIT && s.log == Writes(s.past.kept)
  }

  ghost predicate Over(s: State) {
    && !s.starting && !s.holding && s.held == []
    && s.past.decidedAt <= |s.past.kept| && s.past.settledAt < |s.log|
    && s.log[s.past.settledAt].Settled?
    && var outcome := s.log[s.past.settledAt].outcome;
       var soFar := s.past.kept[..s.past.decidedAt];
       && (forall i :: 0 <= i < |s.log| && i != s.past.settledAt ==> !s.log[i].Settled?)
       && Lines(s.log[..s.past.settledAt]) == BeforeReport(outcome, soFar)
       && Lines(s.log[s.past.settledAt + 1..]) == AfterReport(outcome, soFar) + s.past.kept[s.past.decidedAt..]
       && Exits(s.log[..s.past.settledAt]) == 0
       && Exits(s.log[s.past.settledAt + 1..]) == (if s.finished && !outcome.Failed? then 1 else 0)
       && (outcome.Failed? ==> s.finished) && s.bannerActive == (outcome != TimedOut)
  }

  ghost predicate Sound(s: State) {
    Over(s) || (Waiting(s) && !s.finished)
  }

  /** What deciding puts before and after the report. */
  lemma AroundTheReport(s: State, outcome: Outcome)
    requires Waiting(s)
    ensures var s' := Decided(s, outcome);
      && s'.past.settledAt < |s'.log| && s'.log[s'.past.settledAt] == Settled(outcome)
      && s'.log[..s'.past.settledAt] == Writes(BeforeReport(outcome, s.past.kept))
      && s'.log[s'.past.settledAt + 1..] == Writes(AfterReport(outcome, s.past.kept))
  {
    hide WithoutStderr(), Writes();
    WritesNothing();
    var shown := Shown(s.held, outcome.Failed? && outcome.portInUse);
    if s.holding {
      assert [] + shown == shown;
    } else {
      NothingHeld(outcome.Failed? && outcome.portInUse);
      assert s.log + [] == s.log;
    }
  }

  lemma WritesNothing()
    ensures Writes([]) == []
  {
  }

  lemma DecisionEndsTheWait(s: State, outcome: Outcome)
    requires Waiting(s) && s.finished == outcome.Failed?
    ensures Over(Decided(s, outcome))
  {
    hide Lines(), Exits(), WithoutStderr(), BeforeReport(), AfterReport(), Writes(), Shown();
    var s' := Decided(s, outcome);
    AroundTheReport(s, outcome);
    WritesAreLines(BeforeReport(outcome, s.past.kept));
    WritesAreLines(AfterReport(outcome, s.past.kept));
    assert s.past.kept[..|s.past.kept|] == s.past.kept;
    WritesSettleNothing(BeforeReport(outcome, s.past.kept), AfterReport(outcome, s.past.kept), s'.log);
  }

  lemma WritesSettleNothing(before: seq<Kept>, after: seq<Kept>, log: seq<Effect>)
    requires |log| > |before| && log[..|before|] == Writes(before) && log[|before| + 1..] == Writes(after)
    ensures forall i :: 0 <= i < |log| && i != |before| ==> !log[i].Settled?
  {
    forall i | 0 <= i < |log| && i != |before|
      ensures !log[i].Settled?
    {
      if i < |before| {
        assert log[i] == log[..|before|][i];
      } else {
        assert log[i] == log[|before| + 1..][i - |before| - 1];
      }
    }
  }

  lemma NothingHeld(dropStderr: bool)
    ensures Shown([], dropStderr) == []
  {
  }

  /** After the decision every further effect goes to the end of the log. */
  lemma OverGrows(s: State, effect: Effect, s': State)
    requires Over(s) && !effect.Settled?
    requires s' == s.(log := s.log + [effect], finished := s'.finished, grace := s'.grace,
                      past := s.past.(kept := s'.past.kept))
    requires if effect.Wrote? then s'.past.kept == s.past.kept + [effect.line] && s'.finished == s.finished
             else s'.past.kept == s.past.kept && !s.finished && s'.finished
    ensures Over(s')
  {
    hide WithoutStderr(), Lines(), Exits(), BeforeReport(), AfterReport();
    var n := s.past.settledAt;
    assert s'.log[..n] == s.log[..n] && s'.log[n + 1..] == s.log[n + 1..] + [effect];
    Appended(s.log[n + 1..], [effect]);
    OneEffect(effect);
    var d := s.past.decidedAt;
    assert s'.past.kept[..d] == s.past.kept[..d];
    if effect.Wrote? {
      assert s'.past.kept[d..] == s.past.kept[d..] + [effect.line];
    }
  }

  lemma OneEffect(effect: Effect)
    ensures Lines([effect]) == if effect.Wrote? then [effect.line] else []
    ensures Exits([effect]) == if effect.Exited? then 1 else 0
  {
    assert ButLast([effect]) == [];
  }

  lemma KeepIsSound(s: State, line: Kept)
    requires Sound(s)
    ensures Sound(Keep(s, line))
  {
    hide Lines(), Exits(), WithoutStderr(), BeforeReport(), AfterReport(), Over(), Shown();
    if Over(s) {
      KeepWhenOver(s, line);
    } else {
      KeepWhileWaiting(s, line);
    }
  }

  lemma KeepWhenOver(s: State, line: Kept)
    requires Over(s)
    ensures Over(Keep(s, line))
  {
    hide Lines(), Exits(), BeforeReport(), AfterReport();
    var s' := Keep(s, line);
    assert s' == s.(log := s.log + [Wrote(line)], past := s.past.(kept := s.past.kept + [line]));
    OverGrows(s, Wrote(line), s');
  }

  lemma KeepWhileWaiting(s: State, line: Kept)
    requires Waiting(s)
    ensures Waiting(Keep(s, line))
    ensures Keep(s, line).finished == s.finished
  {
    hide WithoutStderr(), Writes();
    WritesOneMore(s.past.kept, line);
    assert [] + Writes(s.past.kept) == Writes(s.past.kept);
  }

  lemma WritesOneMore(lines: seq<Kept>, line: Kept)
    ensures Writes(lines + [line]) == Writes(lines) + [Wrote(line)]
  {
  }

  lemma SameOutput(s: State, s': State)
    requires Sound(s)
    requires s' == s.(filters := s'.filters, timers := s'.timers, grace := s'.grace)
    ensures Sound(s')
  {
    hide Lines(), Exits(), BeforeReport(), AfterReport(), Writes();
  }

  lemma DecideIsSound(s: State, outcome: Outcome)
    requires Sound(s) && !outcome.Failed?
    ensures Sound(Decided(s, outcome))
  {
    hide Over(), Decided();
    if s.starting {
      OverHasEnded(s);
      DecisionEndsTheWait(s, outcome);
    } else {
      AlreadyDecided(s, outcome);
    }
  }

  lemma OverHasEnded(s: State)
    ensures Over(s) ==> !s.starting
  {
  }

  lemma LineIsSound(s: State, stderr: bool, text: string, shapes: Shapes)
    requires Sound(s)
    ensures Sound(OnLine(s, stderr, text, shapes))
  {
    hide Sound(), Decided(), Keep(), SkewNext(), StartupKeeps(), IsReady();
    var inBlock := SkewNext(if stderr then s.filters.errSkew else s.filters.outSkew, text, shapes);
    var s' := s.(filters := if stderr then s.filters.(errSkew := inBlock) else s.filters.(outSkew := inBlock));
    var s'' := s'.(filters := s'.filters.(listening := s.filters.listening || IsReady(text, shapes)));
    SameOutput(s, s');
    SameOutput(s, s'');
    KeepIsSound(s', Kept(stderr, text));
    KeepIsSound(s'', Kept(stderr, text));
    DecideIsSound(s'', ReadyByLine);
  }

  lemma FinishIsSound(s: State, code: Code, error: Option<string>, shapes: Shapes)
    requires Sound(s)
    ensures Sound(Finished(s, code, error, shapes))
  {
    hide Lines(), Exits(), BeforeReport(), AfterReport(), Decided(), Failure(), Over();
    if !s.finished {
      var s' := s.(finished := true, grace := if s.grace.Running? then Done else s.grace);
      if s.starting {
        OverHasEnded(s);
        FailureFails(s, code, error, shapes);
        DecisionEndsTheWait(s', Failure(s, code, error, shapes));
      } else {
        OverGrows(s, Exited(code, error), s'.(log := s.log + [Exited(code, error)]));
      }
    }
  }

  lemma FailureFails(s: State, code: Code, error: Option<string>, shapes: Shapes)
    ensures Failure(s, code, error, shapes).Failed?
  {
  }

  lemma StepIsSound(s: State, event: Event, shapes: Shapes)
    requires Sound(s)
    ensures Sound(Step(s, event, shapes))
  {
    hide Sound(), Decided(), OnLine(), Finished();
    match event
    case Line(stderr, text) => LineIsSound(s, stderr, text, shapes);
    case ProbeDue(_) => SameOutput(s, Step(s, event, shapes));
    case ProbeAnswered(up) =>
      if s.timers.attempts > 0 && s.starting && up {
        var s' := s.(timers := s.timers.(attempts := s.timers.attempts - 1));
        SameOutput(s, s');
        DecideIsSound(s', ReadyByProbe);
      } else {
        SameOutput(s, Step(s, event, shapes));
      }
    case Deadline =>
      var s' := s.(timers := s.timers.(deadline := false));
      SameOutput(s, s');
      DecideIsSound(s', TimedOut);
    case Exit(_) => SameOutput(s, Step(s, event, shapes));
    case GraceDue =>
      if s.grace.Running? {
        SameOutput(s, s.(grace := Done));
        FinishIsSound(s.(grace := Done), s.grace.code, None, shapes);
      }
    case Closed(code) => FinishIsSound(s, code, None, shapes);
    case Errored(message) => FinishIsSound(s, None, Some(message), shapes);
  }

  lemma {:induction false} RunIsSound(events: seq<Event>, shapes: Shapes)
    ensures Sound(Run(events, shapes))
    decreases |events|
  {
    hide Over(), Step();
    if events != [] {
      RunIsSound(ButLast(events), shapes);
      StepIsSound(Run(ButLast(events), shapes), Last(events), shapes);
    }
  }

  // ---- the results ----

  /** The server failed on a port in use while its output was still held back. */
  predicate PortFailure(s: State) {
    && !s.starting && s.past.decidedAt <= |s.past.kept| && s.past.decidedAt <= HOLD_LIMIT
    && s.past.settledAt < |s.log| && s.log[s.past.settledAt].Settled?
    && s.log[s.past.settledAt].outcome.Failed? && s.log[s.past.settledAt].outcome.portInUse
  }

  lemma SplitAtReport(s: State)
    requires Over(s)
    ensures Lines(s.log) == Lines(s.log[..s.past.settledAt]) + Lines(s.log[s.past.settledAt + 1..])
    ensures Exits(s.log) == Exits(s.log[..s.past.settledAt]) + Exits(s.log[s.past.settledAt + 1..])
  {
    hide Lines(), Exits(), BeforeReport(), AfterReport();
    var n := s.past.settledAt;
    assert s.log == s.log[..n] + ([s.log[n]] + s.log[n + 1..]);
    Appended(s.log[..n], [s.log[n]] + s.log[n + 1..]);
    Appended([s.log[n]], s.log[n + 1..]);
    OneEffect(s.log[n]);
    assert [] + Lines(s.log[n + 1..]) == Lines(s.log[n + 1..]);
  }

  /**
   * Whatever happens, the lines written and the lines still held are together the lines the filters
   * kept, each once and in arrival order across both streams; the one exception is a port in use,
   * which costs exactly the stderr lines held until then. No more than 2,000 lines are ever held.
   */
  lemma KeptLinesAreWrittenOnce(events: seq<Event>, shapes: Shapes)
    ensures var s := Run(events, shapes);
      && |s.held| <= 2000
      && Lines(s.log) + s.held ==
         if PortFailure(s) then WithoutStderr(s.past.kept[..s.past.decidedAt]) + s.past.kept[s.past.decidedAt..]
         else s.past.kept
  {
    hide Run(), Lines(), Exits(), WithoutStderr();
    RunIsSound(events, shapes);
    var s := Run(events, shapes);
    NothingWritten();
    if Over(s) {
      SplitAtReport(s);
      var soFar := s.past.kept[..s.past.decidedAt];
      assert soFar + s.past.kept[s.past.decidedAt..] == s.past.kept;
      AroundWholly(s.log[s.past.settledAt].outcome, soFar, s.past.kept[s.past.decidedAt..]);
      assert Lines(s.log) + s.held == Lines(s.log);
    } else {
      WritesAreLines(s.past.kept);
    }
  }

  lemma AroundWholly(outcome: Outcome, soFar: seq<Kept>, later: seq<Kept>)
    ensures BeforeReport(outcome, soFar) + (AfterReport(outcome, soFar) + later)
         == if |soFar| <= HOLD_LIMIT && outcome.Failed? && outcome.portInUse then WithoutStderr(soFar) + later
            else soFar + later
  {
    hide WithoutStderr();
    assert [] + later == later;
    assert [] + (soFar + later) == soFar + later;
  }

  lemma NothingWritten()
    ensures Lines([]) == []
  {
  }

  lemma {:induction false} ExitsElsewhere(log: seq<Effect>)
    requires Exits(log) == 0
    ensures forall i :: 0 <= i < |log| ==> !log[i].Exited?
    decreases |log|
  {
    if log != [] {
      ExitsElsewhere(ButLast(log));
    }
  }

  lemma NoExitWithin(log: seq<Effect>, lo: nat, hi: nat)
    requires lo <= hi <= |log| && Exits(log[lo..hi]) == 0
    ensures forall i :: lo <= i < hi ==> !log[i].Exited?
  {
    ExitsElsewhere(log[lo..hi]);
    forall i | lo <= i < hi
      ensures !log[i].Exited?
    {
      assert log[i] == log[lo..hi][i - lo];
    }
  }

  /**
   * The start is reported at most once, and nothing else is said about the process before that; the
   * exit is reported at most once, after the start was reported and only if it had not failed.
   */
  lemma ReportedOnceThenExited(events: seq<Event>, shapes: Shapes)
    ensures var s := Run(events, shapes);
      && (s.starting ==> forall i :: 0 <= i < |s.log| ==> s.log[i].Wrote?)
      && (!s.starting ==>
            && s.past.settledAt < |s.log|
            && (forall i :: 0 <= i < |s.log| ==> (s.log[i].Settled? <==> i == s.past.settledAt))
            && (forall i :: 0 <= i < |s.log| && s.log[i].Exited? ==>
                  i > s.past.settledAt && !s.log[s.past.settledAt].outcome.Failed?))
      && Exits(s.log) <= 1
  {
    hide Run(), Lines(), Exits(), BeforeReport(), AfterReport();
    RunIsSound(events, shapes);
    var s := Run(events, shapes);
    if Over(s) {
      SplitAtReport(s);
      var n := s.past.settledAt;
      assert s.log[0..n] == s.log[..n] && s.log[n + 1..|s.log|] == s.log[n + 1..];
      NoExitWithin(s.log, 0, n);
      if s.log[n].outcome.Failed? {
        NoExitWithin(s.log, n + 1, |s.log|);
      }
    } else {
      WritesAreLines(s.past.kept);
      assert Exits([]) == 0 by { NoExits(); }
    }
  }

  lemma NoExits()
    ensures Exits([]) == 0
  {
  }

  /**
   * A start that came up, or was given up on, before 2,000 lines were kept is reported ahead of all
   * output; past that many, and for a failure, the report comes after everything shown of the
   * output so far, which leaves out stderr when a port in use was found while it was still held.
   */
  lemma ScreenOpensTheOutput(events: seq<Event>, shapes: Shapes)
    ensures var s := Run(events, shapes); !s.starting ==>
      && s.past.settledAt < |s.log| && s.log[s.past.settledAt].Settled? && s.past.decidedAt <= |s.past.kept|
      && var outcome := s.log[s.past.settledAt].outcome;
         && (!outcome.Failed? && s.past.decidedAt <= 2000 ==> s.past.settledAt == 0)
         && (outcome.Failed? || s.past.decidedAt > 2000 ==>
               Lines(s.log[..s.past.settledAt]) ==
               if PortFailure(s) then WithoutStderr(s.past.kept[..s.past.decidedAt])
               else s.past.kept[..s.past.decidedAt])
  {
    hide Run(), Lines(), Exits(), WithoutStderr();
    RunIsSound(events, shapes);
    var s := Run(events, shapes);
    if Over(s) && s.past.settledAt > 0 {
      var before := s.log[..s.past.settledAt];
      ExitsElsewhere(before);
      var last := Last(before);
      assert last == s.log[s.past.settledAt - 1] && last == before[|before| - 1];
      assert last.Wrote?;
      WroteSomething(before);
    }
  }

  lemma WroteSomething(log: seq<Effect>)
    requires log != [] && Last(log).Wrote?
    ensures Lines(log) != []
  {
  }

  // ---- timers ----

  ghost predicate Ticking(s: State) {
    if s.starting then s.timers.deadline && s.timers.probes + s.timers.attempts == 1
    else !s.timers.deadline && s.timers.probes == 0 && s.timers.attempts <= 1
  }

  lemma FinishStopsTimers(s: State, code: Code, error: Option<string>, shapes: Shapes)
    requires Ticking(s)
    ensures Ticking(Finished(s, code, error, shapes))
  {
    hide Failure(), Shown();
  }

  lemma LineKeepsTimers(s: State, stderr: bool, text: string, shapes: Shapes)
    requires Ticking(s)
    ensures Ticking(OnLine(s, stderr, text, shapes))
  {
    hide Keep(), Decided(), SkewNext(), StartupKeeps(), IsReady();
    var inBlock := SkewNext(if stderr then s.filters.errSkew else s.filters.outSkew, text, shapes);
    var s' := s.(filters := if stderr then s.filters.(errSkew := inBlock) else s.filters.(outSkew := inBlock));
    var s'' := s'.(filters := s'.filters.(listening := s.filters.listening || IsReady(text, shapes)));
    TimersAfterKeep(s', Kept(stderr, text));
    TimersAfterKeep(s'', Kept(stderr, text));
    DecidingStopsTimers(s'', ReadyByLine);
  }

  lemma DecidingStopsTimers(s: State, outcome: Outcome)
    requires Ticking(s)
    ensures Ticking(Decided(s, outcome))
  {
    hide Shown();
  }

  lemma TimersAfterKeep(s: State, line: Kept)
    ensures Keep(s, line).timers == s.timers && Keep(s, line).starting == s.starting
  {
    hide Shown();
  }

  /**
   * Until the decision the deadline is armed and the probe chain is exactly one timer or one attempt,
   * so the start is always decided; afterwards no deadline and no probe timer is left.
   */
  lemma {:induction false} TimersNeverLapse(events: seq<Event>, shapes: Shapes)
    ensures Ticking(Run(events, shapes))
    decreases |events|
  {
    hide OnLine(), Finished(), Shown();
    if events != [] {
      var s := Run(ButLast(events), shapes);
      TimersNeverLapse(ButLast(events), shapes);
      match Last(events)
      case Line(stderr, text) => LineKeepsTimers(s, stderr, text, shapes);
      case GraceDue =>
        if s.grace.Running? {
          FinishStopsTimers(s.(grace := Done), s.grace.code, None, shapes);
        }
      case Closed(code) => FinishStopsTimers(s, code, None, shapes);
      case Errored(message) => FinishStopsTimers(s, None, Some(message), shapes);
      case _ =>
    }
  }

  /** Whatever has happened, the deadline decides a start that is still open. */
  lemma DeadlineDecides(events: seq<Event>, shapes: Shapes)
    ensures !Run(events + [Deadline], shapes).starting
  {
    hide Ticking();
    assert ButLast(events + [Deadline]) == events;
    TimersNeverLapse(events, shapes);
    DeadlineArmed(Run(events, shapes));
  }

  lemma DeadlineArmed(s: State)
    requires Ticking(s)
    ensures s.starting ==> s.timers.deadline
  {
  }

  // ---- which lines are kept, and what a failure says ----

  function On(events: seq<Event>, stderr: bool): seq<string>
    decreases |events|
  {
    if events == [] then []
    else
      On(ButLast(events), stderr)
      + (if Last(events).Line? && Last(events).stderr == stderr then [Last(events).text] else [])
  }

  function TextsOn(lines: seq<Kept>, stderr: bool): seq<string>
    decreases |lines|
  {
    if lines == [] then []
    else TextsOn(ButLast(lines), stderr) + (if Last(lines).stderr == stderr then [Last(lines).text] else [])
  }

  /** The filters' state and output, given what each stream has carried so far. */
  ghost predicate Filtering(s: State, out: seq<string>, err: seq<string>, shapes: Shapes) {
    && s.filters.errSkew == InBlock(err, shapes) && s.filters.outSkew == InBlock(out, shapes)
    && TextsOn(s.past.kept, true) == SkewKept(err, shapes)
    && (s.filters.listening ==> !s.starting)
    && (s.bannerActive ==>
          && s.filters.listening == Listening(SkewKept(out, shapes), shapes)
          && TextsOn(s.past.kept, false) == StartupKept(SkewKept(out, shapes), shapes))
  }

  lemma TextsOnOneMore(lines: seq<Kept>, line: Kept, stderr: bool)
    ensures TextsOn(lines + [line], stderr)
         == TextsOn(lines, stderr) + (if line.stderr == stderr then [line.text] else [])
  {
    assert ButLast(lines + [line]) == lines;
  }

  lemma FiltersOneMore(lines: seq<string>, line: string, shapes: Shapes)
    ensures InBlock(lines + [line], shapes) == SkewNext(InBlock(lines, shapes), line, shapes)
    ensures SkewKept(lines + [line], shapes)
         == SkewKept(lines, shapes) + (if InBlock(lines + [line], shapes) then [] else [line])
    ensures Listening(lines + [line], shapes) == (Listening(lines, shapes) || IsReady(line, shapes))
    ensures StartupKept(lines + [line], shapes)
         == StartupKept(lines, shapes)
            + (if StartupKeeps(Listening(lines, shapes), line, shapes) then [line] else [])
  {
    assert ButLast(lines + [line]) == lines;
  }

  lemma AfterKeep(s: State, line: Kept)
    ensures var s' := Keep(s, line);
      && s'.filters == s.filters && s'.starting == s.starting && s'.bannerActive == s.bannerActive
      && s'.past.kept == s.past.kept + [line]
  {
    hide Shown();
  }

  lemma ErrLineFilters(s: State, text: string, out: seq<string>, err: seq<string>, shapes: Shapes)
    requires Filtering(s, out, err, shapes)
    ensures Filtering(OnLine(s, true, text, shapes), out, err + [text], shapes)
  {
    hide Keep(), InBlock(), SkewKept(), Listening(), StartupKept(), TextsOn(), SkewNext();
    FiltersOneMore(err, text, shapes);
    var s' := s.(filters := s.filters.(errSkew := SkewNext(s.filters.errSkew, text, shapes)));
    AfterKeep(s', Kept(true, text));
    TextsOnOneMore(s.past.kept, Kept(true, text), true);
    TextsOnOneMore(s.past.kept, Kept(true, text), false);
    NothingAdded(SkewKept(err, shapes), StartupKept(SkewKept(out, shapes), shapes));
  }

  lemma NothingAdded(a: seq<string>, b: seq<string>)
    ensures a + [] == a && b + [] == b
  {
  }

  lemma OutLineFilters(s: State, text: string, out: seq<string>, err: seq<string>, shapes: Shapes)
    requires Filtering(s, out, err, shapes)
    ensures Filtering(OnLine(s, false, text, shapes), out + [text], err, shapes)
  {
    hide Keep(), Decided(), InBlock(), SkewKept(), Listening(), StartupKept(), TextsOn(), SkewNext();
    hide StartupKeeps(), IsReady();
    var skewed := SkewKept(out, shapes);
    FiltersOneMore(out, text, shapes);
    FiltersOneMore(skewed, text, shapes);
    NothingAdded(skewed, StartupKept(skewed, shapes));
    NothingAdded(TextsOn(s.past.kept, true), []);
    TextsOnOneMore(s.past.kept, Kept(false, text), true);
    TextsOnOneMore(s.past.kept, Kept(false, text), false);
    var s' := s.(filters := s.filters.(outSkew := SkewNext(s.filters.outSkew, text, shapes)));
    var s'' := s'.(filters := s'.filters.(listening := s.filters.listening || IsReady(text, shapes)));
    AfterKeep(s', Kept(false, text));
    AfterKeep(s'', Kept(false, text));
    KeepsOrReady(s.filters.listening, text, shapes);
  }

  lemma KeepsOrReady(listening: bool, text: string, shapes: Shapes)
    ensures StartupKeeps(listening, text, shapes) && IsReady(text, shapes) ==> listening
  {
  }

  lemma OtherEventsFilter(s: State, event: Event, out: seq<string>, err: seq<string>, shapes: Shapes)
    requires Filtering(s, out, err, shapes) && !event.Line?
    ensures Filtering(Step(s, event, shapes), out, err, shapes)
  {
    hide Decided(), InBlock(), SkewKept(), Listening(), StartupKept(), TextsOn(), Failure();
  }

  /**
   * What is kept of stderr is the skew filter's output over everything stderr carried; what is kept of
   * stdout is both filters' output, until a timeout retires the startup filter.
   */
  lemma {:induction false} KeptIsWhatTheFiltersPass(events: seq<Event>, shapes: Shapes)
    ensures Filtering(Run(events, shapes), On(events, false), On(events, true), shapes)
    decreases |events|
  {
    hide Step(), Filtering();
    if events == [] {
      assert Filtering(START, [], [], shapes) by { StartFilters(shapes); }
    } else {
      var before := ButLast(events);
      var s := Run(before, shapes);
      KeptIsWhatTheFiltersPass(before, shapes);
      NothingAdded(On(before, false), On(before, true));
      match Last(events)
      case Line(stderr, text) =>
        assert Step(s, Last(events), shapes) == OnLine(s, stderr, text, shapes) by { StepLine(s, stderr, text, shapes); }
        if stderr {
          ErrLineFilters(s, text, On(before, false), On(before, true), shapes);
        } else {
          OutLineFilters(s, text, On(before, false), On(before, true), shapes);
        }
      case _ => OtherEventsFilter(s, Last(events), On(before, false), On(before, true), shapes);
    }
  }

  predicate GivenUpOn(s: State) {
    !s.starting && s.past.settledAt < |s.log| && s.log[s.past.settledAt] == Settled(TimedOut)
  }

  /** With the startup filter retired, what the skew filter passes is kept. */
  lemma RetiredLine(s: State, text: string, shapes: Shapes)
    requires !s.bannerActive
    ensures var s' := OnLine(s, false, text, shapes);
      && !s'.bannerActive
      && s'.past.kept == s.past.kept + (if SkewNext(s.filters.outSkew, text, shapes) then [] else [Kept(false, text)])
  {
    hide Keep, SkewNext;
    AfterKeep(s.(filters := s.filters.(outSkew := SkewNext(s.filters.outSkew, text, shapes))), Kept(false, text));
  }

  lemma RetiredOther(s: State, event: Event, shapes: Shapes)
    requires !s.bannerActive && !(event.Line? && !event.stderr)
    ensures var s' := Step(s, event, shapes);
      !s'.bannerActive && TextsOn(s'.past.kept, false) == TextsOn(s.past.kept, false)
  {
    hide Keep, Decided, SkewNext, StartupKeeps, IsReady, TextsOn, Failure;
    if event.Line? {
      AfterKeep(s.(filters := s.filters.(errSkew := SkewNext(s.filters.errSkew, event.text, shapes))), Kept(true, event.text));
      TextsOnOneMore(s.past.kept, Kept(true, event.text), false);
      NothingAdded(TextsOn(s.past.kept, false), []);
    }
  }

  /** What stdout kept by the time of event `d`, and then everything the skew filter passed. */
  ghost predicate SkewOnlySince(events: seq<Event>, shapes: Shapes, d: nat) {
    && d < |events| && events[d] == Deadline && Run(events[..d], shapes).bannerActive
    && var before, all := SkewKept(On(events[..d], false), shapes), SkewKept(On(events, false), shapes);
       && |before| <= |all| && all[..|before|] == before
       && TextsOn(Run(events, shapes).past.kept, false) == StartupKept(before, shapes) + all[|before|..]
  }

  lemma {:induction false} RetiredSinceTheDeadline(events: seq<Event>, shapes: Shapes) returns (d: nat)
    requires !Run(events, shapes).bannerActive
    ensures SkewOnlySince(events, shapes, d)
    decreases |events|
  {
    hide Step, SkewKept, StartupKept, TextsOn, InBlock, On;
    d := 0;
    if events != [] {
      var before := ButLast(events);
      if Run(before, shapes).bannerActive {
        d := |before|;
        RetiredNow(events, shapes);
      } else {
        d := RetiredSinceTheDeadline(before, shapes);
        assert events[..d] == before[..d];
        StillRetired(events, shapes, d);
      }
    }
  }

  lemma RetiredNow(events: seq<Event>, shapes: Shapes)
    requires events != [] && !Run(events, shapes).bannerActive && Run(ButLast(events), shapes).bannerActive
    ensures SkewOnlySince(events, shapes, |events| - 1)
  {
    hide SkewKept, StartupKept, TextsOn, InBlock, Step, On, Listening;
    var before := ButLast(events);
    var s := Run(before, shapes);
    assert events[..|events| - 1] == before;
    OnlyTheDeadlineRetires(s, Last(events), shapes);
    KeptIsWhatTheFiltersPass(before, shapes);
    OnAfter(events, false);
    NothingAdded(On(before, false), StartupKept(SkewKept(On(before, false), shapes), shapes));
    var kept := SkewKept(On(before, false), shapes);
    assert kept[..|kept|] == kept && kept[|kept|..] == [];
  }

  lemma OnAfter(events: seq<Event>, stderr: bool)
    requires events != []
    ensures On(events, stderr) == On(ButLast(events), stderr)
      + (if Last(events).Line? && Last(events).stderr == stderr then [Last(events).text] else [])
  {
  }

  lemma OnlyTheDeadlineRetires(s: State, event: Event, shapes: Shapes)
    requires s.bannerActive && !Step(s, event, shapes).bannerActive
    ensures event == Deadline && Step(s, event, shapes).past.kept == s.past.kept
  {
    hide Keep, Decided, SkewNext, StartupKeeps, IsReady, Failure;
    RetiringTakesATimeout(s, event, shapes);
    match event
    case Line(stderr, text) => LineRetiresNothing(s, stderr, text, shapes);
    case _ =>
  }

  lemma RetiringTakesATimeout(s: State, event: Event, shapes: Shapes)
    requires s.bannerActive
    ensures forall s1: State, outcome: Outcome :: s1.bannerActive && outcome != TimedOut ==> Decided(s1, outcome).bannerActive
    ensures forall s1: State, code, error :: Failure(s1, code, error, shapes) != TimedOut
  {
    hide Shown;
  }

  lemma LineRetiresNothing(s: State, stderr: bool, text: string, shapes: Shapes)
    requires s.bannerActive
    ensures OnLine(s, stderr, text, shapes).bannerActive
  {
    hide Keep, Decided, SkewNext, StartupKeeps, IsReady;
    RetiringTakesATimeout(s, Line(stderr, text), shapes);
    var inBlock := SkewNext(if stderr then s.filters.errSkew else s.filters.outSkew, text, shapes);
    var s' := s.(filters := if stderr then s.filters.(errSkew := inBlock) else s.filters.(outSkew := inBlock));
    var s'' := s'.(filters := s'.filters.(listening := s.filters.listening || IsReady(text, shapes)));
    AfterKeep(s', Kept(stderr, text));
    AfterKeep(s'', Kept(stderr, text));
  }

  lemma StillRetired(events: seq<Event>, shapes: Shapes, d: nat)
    requires events != [] && SkewOnlySince(ButLast(events), shapes, d) && !Run(ButLast(events), shapes).bannerActive
    requires events[..d] == ButLast(events)[..d]
    ensures SkewOnlySince(events, shapes, d)
  {
    hide SkewKept, StartupKept, TextsOn, InBlock, Step, On, SkewNext;
    var before, event := ButLast(events), Last(events);
    var s := Run(before, shapes);
    OnAfter(events, false);
    var start, all := SkewKept(On(before[..d], false), shapes), SkewKept(On(before, false), shapes);
    if event.Line? && !event.stderr {
      StepLine(s, false, event.text, shapes);
      RetiredLine(s, event.text, shapes);
      KeptIsWhatTheFiltersPass(before, shapes);
      FiltersOneMore(On(before, false), event.text, shapes);
      TextsOnOneMore(s.past.kept, Kept(false, event.text), false);
      var passed := if SkewNext(s.filters.outSkew, event.text, shapes) then [] else [event.text];
      NothingAdded(all, TextsOn(s.past.kept, false));
      MorePassed(start, all, passed, StartupKept(start, shapes));
      assert s.past.kept + [] == s.past.kept;
    } else {
      RetiredOther(s, event, shapes);
      NothingAdded(On(before, false), []);
    }
  }

  lemma MorePassed(start: seq<string>, all: seq<string>, passed: seq<string>, kept: seq<string>)
    requires |start| <= |all| && all[..|start|] == start
    ensures (all + passed)[..|start|] == start
    ensures (kept + all[|start|..]) + passed == kept + (all + passed)[|start|..]
  {
  }

  /** The lines of each stream that reach the output; once a start has timed out, stdout is no
      longer passed through the startup filter. */
  lemma OutputIsFiltered(events: seq<Event>, shapes: Shapes) returns (d: nat)
    ensures var s := Run(events, shapes);
      && TextsOn(s.past.kept, true) == SkewKept(On(events, true), shapes)
      && (s.starting ==> !Listening(SkewKept(On(events, false), shapes), shapes))
      && (if GivenUpOn(s) then SkewOnlySince(events, shapes, d)
          else TextsOn(s.past.kept, false) == StartupKept(SkewKept(On(events, false), shapes), shapes))
  {
    hide Run(), Lines(), Exits(), BeforeReport(), AfterReport(), TextsOn(), On(), InBlock(), SkewKept(), StartupKept();
    hide Listening(), SkewOnlySince();
    KeptIsWhatTheFiltersPass(events, shapes);
    RunIsSound(events, shapes);
    d := 0;
    if !Run(events, shapes).bannerActive {
      d := RetiredSinceTheDeadline(events, shapes);
    }
  }

  lemma StartFilters(shapes: Shapes)
    ensures Filtering(START, [], [], shapes)
  {
  }

  lemma StepLine(s: State, stderr: bool, text: string, shapes: Shapes)
    ensures Step(s, Line(stderr, text), shapes) == OnLine(s, stderr, text, shapes)
  {
  }

  /** A line that names a port in use, among the first 2,000 the filters kept. */
  ghost predicate EarlyPortInUse(kept: seq<Kept>, shapes: Shapes) {
    exists i :: 0 <= i < |kept| && i < 2000 && shapes.portInUse(kept[i].text)
  }

  ghost predicate Remembering(s: State) {
    s.starting ==>
      && |s.startupText| == (if |s.past.kept| < HOLD_LIMIT then |s.past.kept| else HOLD_LIMIT)
      && forall i :: 0 <= i < |s.startupText| ==> s.startupText[i] == s.past.kept[i].text
  }

  lemma KeepRemembers(s: State, line: Kept)
    requires Remembering(s)
    ensures Remembering(Keep(s, line))
  {
    hide Shown();
  }

  lemma {:induction false} StartupIsRemembered(events: seq<Event>, shapes: Shapes)
    ensures Remembering(Run(events, shapes))
    decreases |events|
  {
    hide Keep(), Decided(), SkewNext(), StartupKeeps(), IsReady(), Failure(), Remembering();
    if events == [] {
      NothingToRemember();
    } else {
      var s := Run(ButLast(events), shapes);
      StartupIsRemembered(ButLast(events), shapes);
      if Last(events).Line? {
        LineRemembers(s, Last(events).stderr, Last(events).text, shapes);
      } else {
        OthersRemember(s, Last(events), shapes);
      }
    }
  }

  lemma NothingToRemember()
    ensures Remembering(START)
  {
  }

  lemma OthersRemember(s: State, event: Event, shapes: Shapes)
    requires Remembering(s) && !event.Line?
    ensures Remembering(Step(s, event, shapes))
  {
    hide Decided(), Failure();
  }

  lemma LineRemembers(s: State, stderr: bool, text: string, shapes: Shapes)
    requires Remembering(s)
    ensures Remembering(Step(s, Line(stderr, text), shapes))
  {
    hide Keep(), Decided(), SkewNext(), StartupKeeps(), IsReady();
    var inBlock := SkewNext(if stderr then s.filters.errSkew else s.filters.outSkew, text, shapes);
    var s' := s.(filters := if stderr then s.filters.(errSkew := inBlock) else s.filters.(outSkew := inBlock));
    var s'' := s'.(filters := s'.filters.(listening := s.filters.listening || IsReady(text, shapes)));
    KeepRemembers(s', Kept(stderr, text));
    KeepRemembers(s'', Kept(stderr, text));
  }

  /** A server that closes before its start is decided is reported as failed, for the reason it gave. */
  lemma CloseReportsTheCause(events: seq<Event>, code: Code, shapes: Shapes)
    requires Run(events, shapes).starting
    ensures var s := Run(events, shapes);
      var s' := Run(events + [Closed(code)], shapes);
      && !s'.starting && s'.past.settledAt < |s'.log|
      && exists cause :: s'.log[s'.past.settledAt]
                      == Settled(Failed(code, EarlyPortInUse(s.past.kept, shapes), cause))
  {
    hide Shown(), Over(), Waiting();
    var s := Run(events, shapes);
    assert ButLast(events + [Closed(code)]) == events;
    StartupIsRemembered(events, shapes);
    RunIsSound(events, shapes);
    OverHasEnded(s);
    StillWaiting(s);
    var outcome := Failure(s, code, None, shapes);
    assert outcome.portInUse <==> EarlyPortInUse(s.past.kept, shapes);
    assert Run(events + [Closed(code)], shapes) == Finished(s, code, None, shapes);
    var s' := s.(finished := true, grace := if s.grace.Running? then Done else s.grace);
    assert Finished(s, code, None, shapes) == Decided(s', outcome);
    assert Settled(Failed(code, outcome.portInUse, outcome.cause)) == Settled(outcome);
  }

  lemma StillWaiting(s: State)
    requires Sound(s) && s.starting
    ensures !s.finished
  {
  }
}
