/** Which event decides a start, and what is reported of it and of the exit. */
module LaunchOutcome {
  import opened LogFilters
  import opened LaunchWatch

  // ---- when the process has ended ----

  /** The code of the first exit event. */
  function FirstExit(events: seq<Event>): Option<Code>
    decreases |events|
  {
    if events == [] then None
    else if FirstExit(ButLast(events)).Some? then FirstExit(ButLast(events))
    else if Last(events).Exit? then Some(Last(events).code)
    else None
  }

  /** The event ends the process for the watcher: a close, an error, or the grace timer after an exit. */
  predicate Ends(before: seq<Event>, event: Event) {
    event.Closed? || event.Errored? || (event.GraceDue? && FirstExit(before).Some?)
  }

  predicate Ended(events: seq<Event>)
    decreases |events|
  {
    events != [] && (Ended(ButLast(events)) || Ends(ButLast(events), Last(events)))
  }

  ghost predicate EndedAs(s: State, events: seq<Event>) {
    && (s.finished <==> Ended(events))
    && (!s.finished ==> s.grace == match FirstExit(events) case None => Unset case Some(code) => Running(code))
  }

  lemma NotALine(s: State, stderr: bool, text: string, shapes: Shapes)
    ensures var s' := OnLine(s, stderr, text, shapes); s'.finished == s.finished && s'.grace == s.grace
  {
    hide Shown;
  }

  lemma OneMore(events: seq<Event>, event: Event)
    ensures ButLast(events + [event]) == events && Last(events + [event]) == event
  {
  }

  lemma {:induction false} EndIsSeen(events: seq<Event>, shapes: Shapes)
    ensures EndedAs(Run(events, shapes), events)
    decreases |events|
  {
    hide OnLine, Shown, Failure;
    if events != [] {
      EndIsSeen(ButLast(events), shapes);
      if Last(events).Line? {
        NotALine(Run(ButLast(events), shapes), Last(events).stderr, Last(events).text, shapes);
      }
    }
  }

  // ---- the decision ----

  /** A line of stdout that is outside every skew block and says the server is ready. */
  ghost predicate SaysReady(events: seq<Event>, event: Event, shapes: Shapes) {
    && event.Line? && !event.stderr
    && !shapes.startupNoise(event.text) && shapes.readyLine(event.text)
    && !exists j: nat :: BlockFrom(On(events, false) + [event.text], j, shapes)
  }

  function FirstTexts(kept: seq<Kept>): (texts: seq<string>)
    ensures |texts| == if |kept| < 2000 then |kept| else 2000
    ensures forall i :: 0 <= i < |texts| ==> texts[i] == kept[i].text
  {
    seq(if |kept| < 2000 then |kept| else 2000, i requires 0 <= i < |kept| => kept[i].text)
  }

  /** A process that ended before its start was decided: a port in use if an early line says so, else the cause those lines give. */
  ghost function FailureOf(code: Code, kept: seq<Kept>, shapes: Shapes): Outcome {
    if EarlyPortInUse(kept, shapes) then Failed(code, true, None) else Failed(code, false, shapes.cause(FirstTexts(kept)))
  }

  /** What the event decides of a start still open; `attempts` says whether a probe is under way. */
  ghost function Decision(events: seq<Event>, event: Event, kept: seq<Kept>, attempts: nat, shapes: Shapes): Option<Outcome> {
    match event
    case Line(_, _) => if SaysReady(events, event, shapes) then Some(ReadyByLine) else None
    case ProbeAnswered(up) => if up && attempts > 0 then Some(ReadyByProbe) else None
    case Deadline => Some(TimedOut)
    case Closed(code) => Some(FailureOf(code, kept, shapes))
    case Errored(message) => Some(Failed(Option<int>.None, false, Some(message)))
    case GraceDue => if FirstExit(events).Some? then Some(FailureOf(FirstExit(events).value, kept, shapes)) else None
    case _ => None
  }

  lemma FailureIs(s: State, code: Code, shapes: Shapes)
    requires s.starting && Remembering(s)
    ensures Failure(s, code, None, shapes) == FailureOf(code, s.past.kept, shapes)
  {
    assert s.startupText == FirstTexts(s.past.kept);
    assert SaysPortInUse(s.startupText, shapes) <==> EarlyPortInUse(s.past.kept, shapes) by {
      if i :| 0 <= i < |s.past.kept| && i < 2000 && shapes.portInUse(s.past.kept[i].text) {
        assert s.startupText[i] in s.startupText;
      }
    }
  }

  /** After a decision the report names it. */
  lemma ReportIs(s: State, outcome: Outcome)
    requires Waiting(s)
    ensures var s' := Decided(s, outcome);
      !s'.starting && s'.past.settledAt < |s'.log| && s'.log[s'.past.settledAt] == Settled(outcome)
  {
    hide Decided;
    AroundTheReport(s, outcome);
  }

  lemma ReadyAsSaid(events: seq<Event>, text: string, shapes: Shapes)
    requires Run(events, shapes).starting
    ensures var s := Run(events, shapes);
      && s.bannerActive && !s.filters.listening
      && SaysReady(events, Line(false, text), shapes) == (!SkewNext(s.filters.outSkew, text, shapes) && IsReady(text, shapes))
  {
    hide Run, Step, InBlock, SkewKept, StartupKept, Listening, TextsOn, Lines, Exits, BeforeReport, AfterReport;
    RunIsSound(events, shapes);
    OverHasEnded(Run(events, shapes));
    KeptIsWhatTheFiltersPass(events, shapes);
    DroppedExactlyInABlock(On(events, false) + [text], shapes);
    FiltersOneMore(On(events, false), text, shapes);
  }

  lemma LineDecides(s: State, stderr: bool, text: string, shapes: Shapes)
    requires Waiting(s) && !s.filters.listening
    ensures var s' := OnLine(s, stderr, text, shapes);
      if !stderr && !SkewNext(s.filters.outSkew, text, shapes) && IsReady(text, shapes) then
        !s'.starting && s'.past.settledAt < |s'.log| && s'.log[s'.past.settledAt] == Settled(ReadyByLine)
      else s'.starting
  {
    hide Decided, Keep, SkewNext;
    var inBlock := SkewNext(if stderr then s.filters.errSkew else s.filters.outSkew, text, shapes);
    var s1 := s.(filters := if stderr then s.filters.(errSkew := inBlock) else s.filters.(outSkew := inBlock));
    var s2 := s1.(filters := s1.filters.(listening := s.filters.listening || IsReady(text, shapes)));
    TimersAfterKeep(s1, Kept(stderr, text));
    TimersAfterKeep(s2, Kept(stderr, text));
    ReportIs(s2, ReadyByLine);
  }

  lemma OtherDecides(s: State, events: seq<Event>, event: Event, shapes: Shapes)
    requires Waiting(s) && !s.finished && Remembering(s) && EndedAs(s, events) && Ticking(s) && !event.Line?
    ensures var s' := Step(s, event, shapes); var decision := Decision(events, event, s.past.kept, s.timers.attempts, shapes);
      if decision.Some? then
        !s'.starting && s'.past.settledAt < |s'.log| && s'.log[s'.past.settledAt] == Settled(decision.value)
      else s'.starting
  {
    hide Decided, Failure, FailureOf, Ended;
    match event
    case ProbeAnswered(up) =>
      if s.timers.attempts > 0 {
        ReportIs(s.(timers := s.timers.(attempts := s.timers.attempts - 1)), ReadyByProbe);
      }
    case Deadline => ReportIs(s.(timers := s.timers.(deadline := false)), TimedOut);
    case Closed(code) => FinishDecides(s, code, None, shapes);
    case Errored(message) => FinishDecides(s, None, Some(message), shapes);
    case GraceDue =>
      if s.grace.Running? {
        FinishDecides(s.(grace := Done), s.grace.code, None, shapes);
      }
    case _ =>
  }

  lemma FinishDecides(s: State, code: Code, error: Option<string>, shapes: Shapes)
    requires Waiting(s) && !s.finished && Remembering(s)
    ensures var s' := Finished(s, code, error, shapes);
      && !s'.starting && s'.past.settledAt < |s'.log|
      && s'.log[s'.past.settledAt] == Settled(if error.Some? then Failed(code, false, error) else FailureOf(code, s.past.kept, shapes))
  {
    hide Decided, FailureOf, Waiting;
    var s1 := s.(finished := true, grace := if s.grace.Running? then Done else s.grace);
    assert Waiting(s1) by { FinishStillWaits(s, s1); }
    ReportIs(s1, Failure(s, code, error, shapes));
    WaitingIsStarting(s);
    if error == None {
      FailureIs(s, code, shapes);
    }
  }

  lemma WaitingIsStarting(s: State)
    requires Waiting(s)
    ensures s.starting
  {
  }

  lemma FinishStillWaits(s: State, s1: State)
    requires Waiting(s) && s1 == s.(finished := s1.finished, grace := s1.grace)
    ensures Waiting(s1)
  {
  }

  /**
   * A start still open is decided by an event exactly when that is a ready line of stdout, a probe under
   * way answered yes, the deadline, or an end of the process; and the report says just that. An end of
   * the process is a failure with its code: the first exit's if only the grace timer showed it, with the
   * error, a port in use, or the cause that the first 2,000 lines kept give.
   */
  lemma DecidedExactly(events: seq<Event>, event: Event, shapes: Shapes)
    requires Run(events, shapes).starting
    ensures var s, s' := Run(events, shapes), Run(events + [event], shapes);
      var decision := Decision(events, event, s.past.kept, s.timers.attempts, shapes);
      if decision.Some? then
        !s'.starting && s'.past.settledAt < |s'.log| && s'.log[s'.past.settledAt] == Settled(decision.value)
      else s'.starting
  {
    hide Run, Step, OnLine, Decision, SaysReady, Remembering, EndedAs, Ticking, Waiting, Lines, Exits, BeforeReport, AfterReport;
    var s := Run(events, shapes);
    RunIsSound(events, shapes);
    OverHasEnded(s);
    StillWaiting(s);
    assert Run(events + [event], shapes) == Step(s, event, shapes) by { OneMoreEvent(events, event, shapes); }
    if event.Line? {
      StepLine(s, event.stderr, event.text, shapes);
      LineDecision(events, event, s, shapes);
      ReadyAsSaid(events, event.text, shapes);
      LineDecides(s, event.stderr, event.text, shapes);
      if event.stderr {
        StderrSaysNothing(events, event, shapes);
      }
    } else {
      StartupIsRemembered(events, shapes);
      EndIsSeen(events, shapes);
      TimersNeverLapse(events, shapes);
      OtherDecides(s, events, event, shapes);
    }
  }

  lemma OneMoreEvent(events: seq<Event>, event: Event, shapes: Shapes)
    ensures Run(events + [event], shapes) == Step(Run(events, shapes), event, shapes)
  {
    OneMore(events, event);
  }

  lemma LineDecision(events: seq<Event>, event: Event, s: State, shapes: Shapes)
    requires event.Line?
    ensures Decision(events, event, s.past.kept, s.timers.attempts, shapes)
         == if SaysReady(events, event, shapes) then Some(ReadyByLine) else None
  {
  }

  lemma StderrSaysNothing(events: seq<Event>, event: Event, shapes: Shapes)
    requires event.Line? && event.stderr
    ensures !SaysReady(events, event, shapes)
  {
  }

  /** While a start is open its probes go on: a due one is attempted, or scheduled again if it throws; one answered no, too. */
  lemma ProbesGoOn(events: seq<Event>, event: Event, shapes: Shapes)
    requires Run(events, shapes).starting && Run(events + [event], shapes).starting
    ensures var before, after := Run(events, shapes).timers, Run(events + [event], shapes).timers;
      match event
      case ProbeDue(throws) => before.probes == 1 ==> after.probes == (if throws then 1 else 0) && after.attempts == (if throws then 0 else 1)
      case ProbeAnswered(_) => before.attempts == 1 ==> after.probes == 1 && after.attempts == 0
      case _ => (after.probes, after.attempts) == (before.probes, before.attempts)
  {
    hide Run, OnLine, Shown, Failure;
    TimersNeverLapse(events, shapes);
    OneMoreEvent(events, event, shapes);
    if event.Line? {
      LineKeepsProbes(Run(events, shapes), event.stderr, event.text, shapes);
    }
  }

  lemma LineKeepsProbes(s: State, stderr: bool, text: string, shapes: Shapes)
    requires s.starting
    ensures var s' := OnLine(s, stderr, text, shapes); s'.starting ==> s'.timers == s.timers
  {
    hide Decided, Keep, SkewNext, StartupKeeps, IsReady;
    var inBlock := SkewNext(if stderr then s.filters.errSkew else s.filters.outSkew, text, shapes);
    var s1 := s.(filters := if stderr then s.filters.(errSkew := inBlock) else s.filters.(outSkew := inBlock));
    var s2 := s1.(filters := s1.filters.(listening := s.filters.listening || IsReady(text, shapes)));
    TimersAfterKeep(s1, Kept(stderr, text));
    TimersAfterKeep(s2, Kept(stderr, text));
  }

  // ---- the exit ----

  /** What an ending event says of the process. */
  function ExitOf(events: seq<Event>, event: Event): Effect
    requires Ends(events, event)
  {
    match event
    case Closed(code) => Exited(code, None)
    case Errored(message) => Exited(Option<int>.None, Some(message))
    case _ => Exited(FirstExit(events).value, None)
  }

  /** After the decision the first event that ends the process is reported, with its code or its error, and no later one. */
  lemma ExitExactly(events: seq<Event>, event: Event, shapes: Shapes)
    requires !Run(events, shapes).starting && !event.Line?
    ensures var s, s' := Run(events, shapes), Run(events + [event], shapes);
      s'.log == if Ends(events, event) && !Ended(events) then s.log + [ExitOf(events, event)] else s.log
  {
    hide Run, Failure, Shown, Ended;
    var s := Run(events, shapes);
    EndIsSeen(events, shapes);
    OneMoreEvent(events, event, shapes);
    AlreadyOver(s);
  }

  lemma AlreadyOver(s: State)
    requires !s.starting
    ensures forall outcome :: Decided(s, outcome) == s
  {
  }

  // ---- what a port in use costs ----

  /** What is left out is stderr, and all of it; stdout stays as it is. */
  lemma {:induction false} OnlyStderrIsLeftOut(lines: seq<Kept>)
    ensures TextsOn(WithoutStderr(lines), true) == []
    ensures TextsOn(WithoutStderr(lines), false) == TextsOn(lines, false)
    decreases |lines|
  {
    if lines != [] {
      OnlyStderrIsLeftOut(ButLast(lines));
      var before := WithoutStderr(ButLast(lines));
      if Last(lines).stderr {
        assert before + [] == before;
      } else {
        TextsOnOneMore(before, Last(lines), true);
        TextsOnOneMore(before, Last(lines), false);
      }
    }
  }
}
