/** Reminders on their way to a tool result: checks and calls on any number of threads, moving
    frames, the handoff table and the delivery record one locked step at a time. */
module Reminders {
  import opened Deliveries
  import opened ReminderFrames
  import H = Handoff

  datatype Option<+T> = None | Some(value: T)

  // ---- calls ----

  /** What the wrapped call came back with: an exception; or a result that says the call was not
      run, that can or cannot carry a reminder, and that is too long for the full wording or not. */
  datatype Outcome = Raised | Returned(unexecuted: bool, carrier: bool, long: bool)

  /** Where the reminders of a closed frame ended; `more` is how many the result only counts. */
  datatype Fate =
    | CallRaised
    | NothingToSay
    | NotExecuted
    | TakenByParent
    | AllSeen
    | Annotated(given: seq<Reminder>, shown: seq<Reminder>, more: nat)
    | NoCarrier(given: seq<Reminder>)

  datatype Phase =
    | Opening                                            // before the first look at the handoff table
    | Joining(taken: seq<Reminder>)                      // holding what it took
    | Running
    | Returning(outcome: Outcome)                        // before the second look
    | JoiningLate(taken: seq<Reminder>, outcome: Outcome)
    | Closing(outcome: Outcome)
    | Closed(outcome: Outcome)
    | Claiming(outcome: Outcome)                         // the parent did not take them
    | Attaching(given: seq<Reminder>, outcome: Outcome)
    | Done(fate: Fate, outcome: Outcome)

  datatype Call = Call(frame: Frame, parent: Option<nat>, session: string, turn: string, key: H.CallKey, phase: Phase)

  // ---- checks ----

  /** How a check's reminder was queued: on its call's own frame, nowhere, or as a put. */
  datatype Route = ByOwn | ByNone | ByTable(put: nat)

  datatype Stage =
    | Asking                                             // is the innermost frame this call's own?
    | AddingOwn
    | Unowned
    | AddingOuter(put: nat)                              // put aside; the outer result is to carry it too
    | Answered(told: bool, route: Route)

  /** A check whose verdict is a reminder; `frame` is the innermost open frame of its thread. */
  datatype Check = Check(frame: Option<nat>, tool: string, callId: string, key: H.CallKey, r: Reminder, stage: Stage)

  /** The size of the delivery record, and whether the host has the middleware. */
  datatype Config = Config(limit: nat, wraps: bool)

  datatype State = State(calls: map<nat, Call>, checks: map<nat, Check>, table: H.Table, record: Record)

  const START := State(map[], map[], H.EMPTY_TABLE, EMPTY)

  /** One locked step of some thread. `i` is a call, `c` a check. */
  datatype Step =
    | Open(i: nat, tool: string, callId: string, parent: Option<nat>, session: string, turn: string, key: H.CallKey)
    | Look(i: nat, now: int)                             // take from the handoff table
    | SkipLook(i: nat)                                   // the table is empty
    | JoinTaken(i: nat)
    | Return(i: nat, outcome: Outcome)
    | Close(i: nat)
    | Hand(i: nat)                                       // first half of the annotation
    | ClaimFor(i: nat)
    | Attach(i: nat)
    | Begin(c: nat, frame: Option<nat>, tool: string, callId: string, key: H.CallKey, r: Reminder)
    | AskOwns(c: nat)
    | AddOwn(c: nat)
    | PutAside(c: nat, now: int)
    | AddOuter(c: nat)
    | DropAside(key: H.CallKey, now: int)                // a check whose verdict is not a reminder

  predicate Looks(phase: Phase) {
    phase.Opening? || phase.Returning?
  }

  predicate Holds(phase: Phase) {
    phase.Joining? || phase.JoiningLate?
  }

  predicate At(s: State, c: nat) {
    c in s.checks && (s.checks[c].frame.Some? ==> s.checks[c].frame.value in s.calls)
  }

  predicate Enabled(s: State, st: Step) {
    match st
    case Open(i, _, _, parent, _, _, _) =>
      i !in s.calls && (parent.Some? ==> parent.value in s.calls && s.calls[parent.value].frame.open)
    case Look(i, _) => i in s.calls && Looks(s.calls[i].phase)
    case SkipLook(i) => i in s.calls && Looks(s.calls[i].phase) && s.table.entries == []
    case JoinTaken(i) => i in s.calls && Holds(s.calls[i].phase)
    case Return(i, _) => i in s.calls && s.calls[i].phase.Running?
    case Close(i) => i in s.calls && s.calls[i].phase.Closing?
    case Hand(i) => i in s.calls && s.calls[i].phase.Closed?
    case ClaimFor(i) => i in s.calls && s.calls[i].phase.Claiming?
    case Attach(i) => i in s.calls && s.calls[i].phase.Attaching?
    case Begin(c, frame, _, _, _, _) => c !in s.checks && (frame.Some? ==> frame.value in s.calls)
    case AskOwns(c) => At(s, c) && s.checks[c].stage.Asking? && s.checks[c].frame.Some?
    case AddOwn(c) => At(s, c) && s.checks[c].stage.AddingOwn? && s.checks[c].frame.Some?
    case PutAside(c, _) => At(s, c) && s.checks[c].stage.Unowned?
    case AddOuter(c) => At(s, c) && s.checks[c].stage.AddingOuter? && s.checks[c].frame.Some?
    case DropAside(_, _) => true
  }

  // ---- what each step does to its call ----

  const COMPACT_MAX := 3

  /** The reminders given a line of their own; the rest are only counted. */
  function Shown(given: seq<Reminder>, compact: bool): (shown: seq<Reminder>)
    ensures shown <= given
    ensures |shown| == |given| || (compact && |shown| == COMPACT_MAX)
  {
    if compact && |given| > COMPACT_MAX then given[..COMPACT_MAX] else given
  }

  predicate WasExecuted(outcome: Outcome) {
    outcome.Returned? && !outcome.unexecuted
  }

  /** After a look: on to holding what was taken. */
  function Took(c: Call, taken: seq<Reminder>): Call {
    c.(phase := if c.phase.Returning? then JoiningLate(taken, c.phase.outcome) else Joining(taken))
  }

  function Joined(c: Call): Call
    requires Holds(c.phase)
  {
    c.(frame := Add(c.frame, c.phase.taken).0,
       phase := if c.phase.JoiningLate? then Closing(c.phase.outcome) else Running)
  }

  function ClosedOff(c: Call): Call
    requires c.phase.Closing?
  {
    c.(frame := c.frame.(open := false), phase := Closed(c.phase.outcome))
  }

  function Added(c: Call, more: seq<Reminder>): Call {
    c.(frame := Add(c.frame, more).0)
  }

  /** The call's reminders go to its parent's frame: a nested call of a script, whose caller is still open. */
  predicate ParentTakes(s: State, c: Call) {
    && c.parent.Some? && c.frame.callId == "" && c.parent.value in s.calls
    && s.calls[c.parent.value].frame.open
  }

  function HandedOn(s: State, c: Call): (c': Call)
    requires c.phase.Closed?
    ensures c'.frame == c.frame
  {
    var outcome := c.phase.outcome;
    c.(phase :=
      if outcome.Raised? then Done(CallRaised, outcome)
      else if c.frame.reminders == [] then Done(NothingToSay, outcome)
      else if outcome.unexecuted then Done(NotExecuted, outcome)
      else if ParentTakes(s, c) then Done(TakenByParent, outcome)
      else Claiming(outcome))
  }

  function ClaimOf(c: Call): Op {
    Claim(c.session, c.turn, c.frame.reminders)
  }

  function ClaimGiven(c: Call, given: seq<Reminder>): (c': Call)
    requires c.phase.Claiming?
    ensures c'.frame == c.frame
  {
    c.(phase := if given == [] then Done(AllSeen, c.phase.outcome) else Attaching(given, c.phase.outcome))
  }

  function Attached(c: Call): (c': Call)
    requires c.phase.Attaching?
    ensures c'.frame == c.frame
  {
    var given, outcome := c.phase.given, c.phase.outcome;
    c.(phase :=
      if outcome.Returned? && outcome.carrier then
        var shown := Shown(given, outcome.long);
        Done(Annotated(given, shown, |given| - |shown|), outcome)
      else Done(NoCarrier(given), outcome))
  }

  function With(s: State, i: nat, c: Call): State {
    s.(calls := s.calls[i := c])
  }

  function Checked(s: State, c: nat, stage: Stage): State
    requires c in s.checks
  {
    s.(checks := s.checks[c := s.checks[c].(stage := stage)])
  }

  function HandStep(s: State, i: nat): State
    requires Enabled(s, Hand(i))
  {
    var c := s.calls[i];
    var c' := HandedOn(s, c);
    if c'.phase.Done? && c'.phase.fate.TakenByParent? then
      With(With(s, c.parent.value, Added(s.calls[c.parent.value], c.frame.reminders)), i, c')
    else With(s, i, c')
  }

  function AskStep(s: State, c: nat): State
    requires Enabled(s, AskOwns(c))
  {
    var check := s.checks[c];
    var i := check.frame.value;
    var (frame, own) := Owns(s.calls[i].frame, check.tool, check.callId);
    Checked(With(s, i, s.calls[i].(frame := frame)), c, if own then AddingOwn else Unowned)
  }

  function PutStep(s: State, c: nat, now: int, wraps: bool): State
    requires Enabled(s, PutAside(c, now))
  {
    if !wraps then Checked(s, c, Answered(false, ByNone))
    else
      var check := s.checks[c];
      var put := |s.table.puts|;
      Checked(s, c, if check.frame.Some? && check.callId == "" then AddingOuter(put) else Answered(true, ByTable(put)))
        .(table := H.Step(s.table, H.PutOp(check.key, check.r, now)))
  }

  function Next(s: State, st: Step, config: Config): State
    requires Enabled(s, st)
  {
    match st
    case Open(i, tool, callId, parent, session, turn, key) =>
      With(s, i, Call(Frame(tool, callId, true, false, []), parent, session, turn, key, Opening))
    case Look(i, now) =>
      var op := H.TakeOp(s.calls[i].key, now, i);
      With(s, i, Took(s.calls[i], H.Given(s.table, op))).(table := H.Step(s.table, op))
    case SkipLook(i) => With(s, i, Took(s.calls[i], []))
    case JoinTaken(i) => With(s, i, Joined(s.calls[i]))
    case Return(i, outcome) => With(s, i, s.calls[i].(phase := Returning(outcome)))
    case Close(i) => With(s, i, ClosedOff(s.calls[i]))
    case Hand(i) => HandStep(s, i)
    case ClaimFor(i) =>
      var op := ClaimOf(s.calls[i]);
      With(s, i, ClaimGiven(s.calls[i], Deliveries.Given(s.record, op))).(record := Apply(s.record, op, config.limit))
    case Attach(i) =>
      var c := s.calls[i];
      var s' := With(s, i, Attached(c));
      if Attached(c).phase.fate.Annotated? then s'
      else s'.(record := Apply(s.record, Release(c.session, c.turn, c.phase.given), config.limit))
    case Begin(c, frame, tool, callId, key, r) =>
      var inside := frame.Some? && s.calls[frame.value].frame.open;
      s.(checks := s.checks[c := Check(if inside then frame else None, tool, callId, key, r,
                                       if inside then Asking else Unowned)])
    case AskOwns(c) => AskStep(s, c)
    case AddOwn(c) =>
      var check := s.checks[c];
      Checked(With(s, check.frame.value, Added(s.calls[check.frame.value], [check.r])), c, Answered(true, ByOwn))
    case PutAside(c, now) => PutStep(s, c, now, config.wraps)
    case AddOuter(c) =>
      var check := s.checks[c];
      Checked(With(s, check.frame.value, Added(s.calls[check.frame.value], [check.r])), c,
              Answered(true, ByTable(check.stage.put)))
    case DropAside(key, now) => s.(table := H.Step(s.table, H.DropOp(key, now)))
  }

  // ---- how one call can move ----

  /** The outcome the call came back with, once it has. */
  function OutcomeOf(phase: Phase): Option<Outcome> {
    if phase.Opening? || phase.Joining? || phase.Running? then None else Some(phase.outcome)
  }

  /** Nothing a frame holds is ever lost, a closed frame never changes, and a call keeps its
      outcome, what it was given and its end. */
  ghost predicate CallGrows(c: Call, c': Call) {
    && c' == c.(frame := c'.frame, phase := c'.phase)
    && c'.frame.tool == c.frame.tool && c'.frame.callId == c.frame.callId
    && (forall r <- c.frame.reminders :: r in c'.frame.reminders)
    && (!c.frame.open ==> c'.frame == c.frame)
    && (c.phase.Done? ==> c'.phase == c.phase)
    && (OutcomeOf(c.phase).Some? ==> OutcomeOf(c'.phase) == OutcomeOf(c.phase))
    && (c.phase.Attaching? ==> c'.phase == c.phase || c'.phase == Attached(c).phase)
  }

  predicate Unfinished(phase: Phase) {
    phase.Opening? || phase.Joining? || phase.Running? || phase.Returning? || phase.JoiningLate? || phase.Closing?
  }

  ghost predicate GivenFits(c: Call, given: seq<Reminder>) {
    given != [] && forall r <- given :: r in c.frame.reminders
  }

  /** Each end fits the outcome that led to it. */
  ghost predicate FateFits(c: Call, fate: Fate, outcome: Outcome) {
    match fate
    case CallRaised => outcome.Raised?
    case NothingToSay => outcome.Returned? && c.frame.reminders == []
    case NotExecuted => outcome.Returned? && outcome.unexecuted
    case TakenByParent => WasExecuted(outcome)
    case AllSeen => WasExecuted(outcome)
    case Annotated(given, shown, more) =>
      && WasExecuted(outcome) && outcome.carrier && GivenFits(c, given)
      && shown == Shown(given, outcome.long) && |shown| + more == |given|
    case NoCarrier(given) => WasExecuted(outcome) && !outcome.carrier && GivenFits(c, given)
  }

  /** A frame is open until its call closes it; its reminders are distinct; past the
      parent, only the reminders of a call that ran are claimed. */
  ghost predicate CallOk(c: Call) {
    && Distinct(c.frame.reminders)
    && (c.frame.open <==> Unfinished(c.phase))
    && match c.phase
       case Claiming(outcome) => WasExecuted(outcome) && c.frame.reminders != []
       case Attaching(given, outcome) => WasExecuted(outcome) && GivenFits(c, given)
       case Done(fate, outcome) => FateFits(c, fate, outcome)
       case _ => true
  }

  ghost predicate Moves(c: Call, c': Call) {
    CallGrows(c, c') && (CallOk(c) ==> CallOk(c'))
  }

  lemma AddedMoves(c: Call, more: seq<Reminder>)
    ensures Moves(c, Added(c, more)) && Added(c, more).phase == c.phase
  {
    hide Add;
    AddGrows(c.frame, more);
  }

  lemma JoinedMoves(c: Call)
    requires Holds(c.phase)
    ensures Moves(c, Joined(c))
  {
    hide Add;
    AddGrows(c.frame, c.phase.taken);
  }

  lemma ClaimGivenMoves(c: Call, rec: Record)
    requires c.phase.Claiming?
    ensures Moves(c, ClaimGiven(c, Deliveries.Given(rec, ClaimOf(c))))
  {
    hide Fresh, Distinct;
  }

  lemma HandedOnMoves(s: State, c: Call)
    requires c.phase.Closed?
    ensures Moves(c, HandedOn(s, c))
  {
    hide Distinct;
  }

  lemma AttachedMoves(c: Call)
    requires c.phase.Attaching?
    ensures Moves(c, Attached(c))
  {
    hide Distinct;
  }

  /** Every call moves so in every step. */
  lemma CallsMove(s: State, st: Step, config: Config, j: nat)
    requires Enabled(s, st) && j in s.calls
    ensures j in Next(s, st, config).calls && Moves(s.calls[j], Next(s, st, config).calls[j])
  {
    hide Add, Apply, Deliveries.Given, H.Step, H.Given, Distinct, Attached, HandedOn, ClaimGiven, Joined, Added, PutStep;
    var c := s.calls[j];
    match st
    case JoinTaken(i) => JoinedMoves(s.calls[i]);
    case Hand(i) =>
      HandedOnMoves(s, s.calls[i]);
      AddedMoves(c, s.calls[i].frame.reminders);
    case ClaimFor(i) => ClaimGivenMoves(s.calls[i], s.record);
    case Attach(i) => AttachedMoves(s.calls[i]);
    case AddOwn(k) => AddedMoves(c, [s.checks[k].r]);
    case AddOuter(k) => AddedMoves(c, [s.checks[k].r]);
    case PutAside(k, now) => PutLeavesCalls(s, k, now, config.wraps);
    case _ =>
  }

  lemma PutLeavesCalls(s: State, c: nat, now: int, wraps: bool)
    requires Enabled(s, PutAside(c, now))
    ensures PutStep(s, c, now, wraps).calls == s.calls && PutStep(s, c, now, wraps).record == s.record
  {
  }

  // ---- how checks can move ----

  ghost predicate CheckGrows(k: Check, k': Check) {
    && k' == k.(stage := k'.stage)
    && (k.stage.Answered? ==> k'.stage == k.stage)
    && (k.stage.AddingOwn? ==> k'.stage in {k.stage, Answered(true, ByOwn)})
    && (k.stage.AddingOuter? ==> k'.stage in {k.stage, Answered(true, ByTable(k.stage.put))})
  }

  /** The put a check made, if it has made one. */
  function PutOf(stage: Stage): Option<nat> {
    match stage
    case AddingOuter(put) => Some(put)
    case Answered(_, ByTable(put)) => Some(put)
    case _ => None
  }

  /** A check's put is its reminder; only a host without the middleware is told that nothing carries it. */
  ghost predicate CheckOk(s: State, k: Check, wraps: bool) {
    && (k.frame.Some? ==> k.frame.value in s.calls)
    && (k.stage.Asking? || k.stage.AddingOwn? || k.stage.AddingOuter? ==> k.frame.Some?)
    && (PutOf(k.stage).Some? ==> PutOf(k.stage).value < |s.table.puts| && s.table.puts[PutOf(k.stage).value] == k.r)
    && (k.stage.Answered? ==> (k.stage.told <==> k.stage.route != ByNone))
    && (k.stage.Answered? && k.stage.route == ByNone ==> !wraps)
    && (PutOf(k.stage).Some? ==> wraps)
    && (k.stage.Answered? && k.stage.route == ByOwn ==> k.frame.Some?)
  }

  lemma PutsGrow(s: State, st: Step, config: Config)
    requires Enabled(s, st)
    ensures s.table.puts <= Next(s, st, config).table.puts
  {
    hide Add, Apply, Deliveries.Given, H.Given, Attached, HandedOn, ClaimGiven, Joined, Added;
  }

  lemma ChecksMove(s: State, st: Step, config: Config, c: nat)
    requires Enabled(s, st) && c in s.checks
    ensures c in Next(s, st, config).checks && CheckGrows(s.checks[c], Next(s, st, config).checks[c])
  {
    hide Add, Apply, Deliveries.Given, H.Step, H.Given, Attached, HandedOn, ClaimGiven, Joined, Added;
  }

  /** The check a step moves comes out in order, and the others stay so. */
  lemma ChecksStayOk(s: State, st: Step, config: Config, c: nat)
    requires Enabled(s, st) && c in Next(s, st, config).checks
    requires c in s.checks ==> CheckOk(s, s.checks[c], config.wraps)
    ensures CheckOk(Next(s, st, config), Next(s, st, config).checks[c], config.wraps)
  {
    hide Add, Apply, Deliveries.Given, H.Given, H.Put, H.Take, Attached, HandedOn, ClaimGiven, Joined, Added, CallGrows, CallOk;
    var s' := Next(s, st, config);
    PutsGrow(s, st, config);
    if c in s.checks && s.checks[c].frame.Some? {
      CallsMove(s, st, config, s.checks[c].frame.value);
    }
  }

  // ---- where a parent's child put its reminders ----

  ghost predicate TakenUp(s: State, c: Call) {
    && c.parent.Some? && c.frame.callId == "" && c.parent.value in s.calls
    && forall r <- c.frame.reminders :: r in s.calls[c.parent.value].frame.reminders
  }

  predicate WentToParent(c: Call) {
    c.phase.Done? && c.phase.fate.TakenByParent?
  }

  lemma StaysTakenUp(s: State, st: Step, config: Config, j: nat)
    requires Enabled(s, st) && j in Next(s, st, config).calls && WentToParent(Next(s, st, config).calls[j])
    requires j in s.calls && CallOk(s.calls[j]) && (WentToParent(s.calls[j]) ==> TakenUp(s, s.calls[j]))
    ensures TakenUp(Next(s, st, config), Next(s, st, config).calls[j])
  {
    hide Add, Apply, Deliveries.Given, H.Step, H.Given, Distinct, Next, FateFits;
    CallsMove(s, st, config, j);
    if WentToParent(s.calls[j]) {
      CallsMove(s, st, config, s.calls[j].parent.value);
    } else {
      GoesToParent(s, st, config, j);
    }
  }

  lemma GoesToParent(s: State, st: Step, config: Config, j: nat)
    requires Enabled(s, st) && j in s.calls && !WentToParent(s.calls[j])
    requires j in Next(s, st, config).calls && WentToParent(Next(s, st, config).calls[j])
    ensures TakenUp(Next(s, st, config), Next(s, st, config).calls[j])
  {
    hide Add, Apply, Deliveries.Given, H.Step, H.Given, Distinct;
    var c := s.calls[j];
    if c.parent.Some? && c.parent.value in s.calls {
      AddGrows(s.calls[c.parent.value].frame, c.frame.reminders);
    }
  }

  // ---- the handoff ----

  /** The call's frame has the reminder, or the call has it in hand on the way there. */
  predicate Has(c: Call, r: Reminder) {
    r in c.frame.reminders || (Holds(c.phase) && r in c.phase.taken)
  }

  /** A put taken by a call is with that call. */
  ghost predicate PutArrives(s: State, n: nat)
    requires n < |s.table.places| == |s.table.puts|
  {
    s.table.places[n].TakenBy? ==>
      s.table.places[n].frame in s.calls && Has(s.calls[s.table.places[n].frame], s.table.puts[n])
  }

  ghost predicate TableArrives(s: State) {
    H.TableOk(s.table) && forall n :: 0 <= n < |s.table.places| ==> PutArrives(s, n)
  }

  lemma TableMoves(t: H.Table, op: H.Op, n: nat)
    requires H.TableOk(t) && n < |H.Step(t, op).places|
    requires H.Step(t, op).places[n].TakenBy?
    ensures n < |t.places| && H.Step(t, op).puts[n] == t.puts[n]
    ensures t.places[n] == H.Step(t, op).places[n]
         || (op.TakeOp? && t.places[n].Waiting? && H.Step(t, op).places[n] == H.TakenBy(op.frame)
             && t.puts[n] in H.Given(t, op))
  {
    if n < |t.places| && t.places[n].Waiting? {
      assert H.WaitsInEntry(t, n);
    }
  }

  /** What the step does to the handoff table, if anything. */
  function TableOp(s: State, st: Step, config: Config): Option<H.Op>
    requires Enabled(s, st)
  {
    match st
    case Look(i, now) => Some(H.TakeOp(s.calls[i].key, now, i))
    case PutAside(c, now) => if config.wraps then Some(H.PutOp(s.checks[c].key, s.checks[c].r, now)) else None
    case DropAside(key, now) => Some(H.DropOp(key, now))
    case _ => None
  }

  lemma TableFollows(s: State, st: Step, config: Config)
    requires Enabled(s, st)
    ensures var op := TableOp(s, st, config);
      Next(s, st, config).table == if op.Some? then H.Step(s.table, op.value) else s.table
  {
    hide Add, Apply, Deliveries.Given, H.Step, H.Given, Attached, HandedOn, ClaimGiven, Joined, Added;
  }

  lemma HasStays(s: State, st: Step, config: Config, i: nat, r: Reminder)
    requires Enabled(s, st) && i in s.calls && CallOk(s.calls[i]) && Has(s.calls[i], r)
    ensures i in Next(s, st, config).calls && Has(Next(s, st, config).calls[i], r)
  {
    hide Add, Apply, Deliveries.Given, H.Step, H.Given, Distinct, Attached, HandedOn, ClaimGiven, CallOk;
    CallsMove(s, st, config, i);
    if r !in s.calls[i].frame.reminders {
      HeldStays(s, st, config, i, r);
    }
  }

  lemma HeldStays(s: State, st: Step, config: Config, i: nat, r: Reminder)
    requires Enabled(s, st) && i in s.calls && CallOk(s.calls[i])
    requires Holds(s.calls[i].phase) && r in s.calls[i].phase.taken
    ensures i in Next(s, st, config).calls && Has(Next(s, st, config).calls[i], r)
  {
    hide Add, Apply, Deliveries.Given, H.Step, H.Given, Distinct, Attached, HandedOn, ClaimGiven;
    AddGrows(s.calls[i].frame, s.calls[i].phase.taken);
  }

  lemma LookHolds(s: State, i: nat, now: int, config: Config, r: Reminder)
    requires Enabled(s, Look(i, now)) && r in H.Given(s.table, H.TakeOp(s.calls[i].key, now, i))
    ensures i in Next(s, Look(i, now), config).calls && Has(Next(s, Look(i, now), config).calls[i], r)
  {
    hide H.Step, H.Given;
  }

  lemma PutArrivesNext(s: State, st: Step, config: Config, n: nat)
    requires Enabled(s, st) && TableArrives(s) && forall j <- s.calls.Keys :: CallOk(s.calls[j])
    requires var t := Next(s, st, config).table; n < |t.places| == |t.puts| && t.places[n].TakenBy?
    ensures PutArrives(Next(s, st, config), n)
  {
    hide H.Step, H.Given, H.TableOk, Next, Has, CallOk;
    TableFollows(s, st, config);
    PlacesMatchPuts(s.table);
    var op := TableOp(s, st, config);
    if op.Some? {
      TableMoves(s.table, op.value, n);
    }
    if n < |s.table.places| && s.table.places[n].TakenBy? {
      assert PutArrives(s, n);
      HasStays(s, st, config, s.table.places[n].frame, s.table.puts[n]);
    } else if st.Look? {
      LookHolds(s, st.i, st.now, config, s.table.puts[n]);
      assert Next(s, st, config).table.places[n] == H.TakenBy(st.i);
    }
  }

  lemma PlacesMatchPuts(t: H.Table)
    requires H.TableOk(t)
    ensures |t.places| == |t.puts| && |t.entries| <= H.LIMIT
  {
  }

  lemma TableKeepsArriving(s: State, st: Step, config: Config)
    requires Enabled(s, st) && TableArrives(s) && forall j <- s.calls.Keys :: CallOk(s.calls[j])
    ensures TableArrives(Next(s, st, config))
  {
    hide H.Step, H.Given, H.TableOk, Next, CallOk;
    var s' := Next(s, st, config);
    TableFollows(s, st, config);
    if TableOp(s, st, config).Some? {
      H.StepOk(s.table, TableOp(s, st, config).value);
    }
    PlacesMatchPuts(s'.table);
    forall n | 0 <= n < |s'.table.places|
      ensures PutArrives(s', n)
    {
      if s'.table.places[n].TakenBy? {
        PutArrivesNext(s, st, config, n);
      }
    }
  }
}
