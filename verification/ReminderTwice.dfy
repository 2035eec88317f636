/** A run in which two results of one turn carry the same reminder, though nothing pushed it off the
    record between their claims: a third call, which had claimed it earlier, gave it back. */
module ReminderTwice {
  import opened Deliveries
  import opened ReminderFrames
  import opened Reminders
  import opened ReminderRuns
  import opened ReminderResults
  import H = Handoff

  /** A call whose own check has one reminder for it. */
  datatype Life = Life(tool: string, callId: string, session: string, turn: string, key: H.CallKey, r: Reminder, outcome: Outcome)

  function LifeStep(x: Life, i: nat, k: nat): (st: Step)
    requires k < 11
    ensures !st.ClaimFor?
  {
    [Open(i, x.tool, x.callId, None, x.session, x.turn, x.key), SkipLook(i), JoinTaken(i),
     Begin(i, Some(i), x.tool, x.callId, x.key, x.r), AskOwns(i), AddOwn(i),
     Return(i, x.outcome), SkipLook(i), JoinTaken(i), Close(i), Hand(i)][k]
  }

  function LifePhase(x: Life, k: nat): Phase {
    if k <= 1 then Opening
    else if k == 2 then Joining([])
    else if k <= 6 then Running
    else if k == 7 then Returning(x.outcome)
    else if k == 8 then JoiningLate([], x.outcome)
    else if k == 9 then Closing(x.outcome)
    else if k == 10 then Closed(x.outcome)
    else Claiming(x.outcome)
  }

  function LifeCall(x: Life, k: nat): Call {
    Call(Frame(x.tool, x.callId, k < 10, k >= 5, if k < 6 then [] else [x.r]), None, x.session, x.turn, x.key, LifePhase(x, k))
  }

  function LifeCheck(x: Life, i: nat, k: nat): Check {
    Check(Some(i), x.tool, x.callId, x.key, x.r,
          if k <= 4 then Asking else if k == 5 then AddingOwn else Answered(true, ByOwn))
  }

  /** `s`, with the call's life under way beside whatever else there is. */
  function LifeState(s: State, x: Life, i: nat, k: nat): State {
    s.(calls := if k == 0 then s.calls else s.calls[i := LifeCall(x, k)],
       checks := if k < 4 then s.checks else s.checks[i := LifeCheck(x, i, k)])
  }

  predicate Free(s: State, i: nat) {
    i !in s.calls && i !in s.checks && s.table.entries == []
  }

  lemma LifeOpens(s: State, x: Life, i: nat, k: nat, config: Config)
    requires Free(s, i) && k < 3
    ensures Enabled(LifeState(s, x, i, k), LifeStep(x, i, k))
    ensures Next(LifeState(s, x, i, k), LifeStep(x, i, k), config) == LifeState(s, x, i, k + 1)
  {
    assert Join([], []) == [];
  }

  lemma LifeChecks(s: State, x: Life, i: nat, k: nat, config: Config)
    requires Free(s, i) && 3 <= k < 6
    ensures Enabled(LifeState(s, x, i, k), LifeStep(x, i, k))
    ensures Next(LifeState(s, x, i, k), LifeStep(x, i, k), config) == LifeState(s, x, i, k + 1)
  {
    assert Join([], [x.r]) == [x.r];
  }

  lemma LifeEnds(s: State, x: Life, i: nat, k: nat, config: Config)
    requires Free(s, i) && 6 <= k < 11 && WasExecuted(x.outcome)
    ensures Enabled(LifeState(s, x, i, k), LifeStep(x, i, k))
    ensures Next(LifeState(s, x, i, k), LifeStep(x, i, k), config) == LifeState(s, x, i, k + 1)
  {
    assert Join([x.r], []) == [x.r];
  }

  // ---- runs, one step after another ----

  lemma OneStepMore(states: seq<State>, steps: seq<Step>, config: Config, st: Step)
    requires Run(states, steps, config) && Enabled(states[|steps|], st)
    ensures Run(states + [Next(states[|steps|], st, config)], steps + [st], config)
  {
    hide Next, Enabled;
  }

  /** The run with the call's life, up to its claim, behind it. */
  lemma {:induction false} LifeRun(states: seq<State>, steps: seq<Step>, config: Config, x: Life, i: nat, k: nat)
    returns (states': seq<State>, steps': seq<Step>)
    requires Run(states, steps, config) && Free(states[|steps|], i) && WasExecuted(x.outcome) && k <= 11
    ensures Run(states', steps', config) && states <= states' && steps <= steps' && |steps'| == |steps| + k
    ensures states'[|steps'|] == LifeState(states[|steps|], x, i, k)
    ensures forall m :: |steps| <= m < |steps'| ==> !steps'[m].ClaimFor?
    decreases k
  {
    hide Next, Enabled, LifeState, LifeStep;
    if k == 0 {
      states', steps' := states, steps;
      assert LifeState(states[|steps|], x, i, 0) == states[|steps|] by { NotBegun(states[|steps|], x, i); }
    } else {
      states', steps' := LifeRun(states, steps, config, x, i, k - 1);
      var s := states[|steps|];
      if k - 1 < 3 {
        LifeOpens(s, x, i, k - 1, config);
      } else if k - 1 < 6 {
        LifeChecks(s, x, i, k - 1, config);
      } else {
        LifeEnds(s, x, i, k - 1, config);
      }
      var st := LifeStep(x, i, k - 1);
      OneStepMore(states', steps', config, st);
      states', steps' := states' + [Next(states'[|steps'|], st, config)], steps' + [st];
    }
  }

  lemma NotBegun(s: State, x: Life, i: nat)
    ensures LifeState(s, x, i, 0) == s
  {
  }

  // ---- a record of one ----

  /** Claiming one new reminder leaves only its key on record. */
  lemma MarkOnly(rec: Record, session: string, turn: string, r: Reminder)
    requires InTurn(session, turn) && |rec.seen| <= 1 && Key(session, turn, r) !in rec.seen
    ensures var op := Claim(session, turn, [r]);
      Deliveries.Given(rec, op) == [r] && Apply(rec, op, 1).seen == [Key(session, turn, r)]
  {
    hide Apply, Touch, Trim;
    var op, k := Claim(session, turn, [r]), Key(session, turn, r);
    ApplyIsTheClass(rec, op, 1);
    assert [r][1..] == [];
    assert Fresh(rec.seen, session, turn, [r]) == [r] + [] == [r];
    assert KeysFor(session, turn, [r]) == [k];
    assert [k][1..] == [] && TouchAll(rec.seen, [k]) == Touch(rec.seen, k);
    NewestIsKept(rec.seen, k);
  }

  lemma NewestIsKept(seen: seq<Key>, k: Key)
    requires |seen| <= 1 && k !in seen
    ensures Trim(Touch(seen, k), 1) == [k]
  {
    WithoutAbsent(seen, k);
  }

  lemma DropOnly(rec: Record, session: string, turn: string, r: Reminder)
    requires InTurn(session, turn) && rec.seen == [Key(session, turn, r)]
    ensures Apply(rec, Release(session, turn, [r]), 1).seen == []
  {
    hide Apply;
    var k := Key(session, turn, r);
    ApplyIsTheClass(rec, Release(session, turn, [r]), 1);
    assert KeysFor(session, turn, [r]) == [k];
    assert [k][1..] == [] && WithoutAll([k], [k]) == Without([k], k) == [];
  }

  // ---- the claims and the attachments ----

  lemma ClaimMoves(s: State, i: nat, config: Config, r: Reminder)
    requires Enabled(s, ClaimFor(i)) && s.calls[i].frame.reminders == [r] && config.limit == 1
    requires InTurn(s.calls[i].session, s.calls[i].turn)
    requires |s.record.seen| <= 1 && KeyOf(s.calls[i], r) !in s.record.seen
    ensures var s' := Next(s, ClaimFor(i), config); var c := s.calls[i];
      && s' == s.(calls := s.calls[i := c.(phase := Attaching([r], c.phase.outcome))], record := s'.record)
      && s'.record.seen == [KeyOf(c, r)]
  {
    hide Apply, Deliveries.Given;
    MarkOnly(s.record, s.calls[i].session, s.calls[i].turn, r);
  }

  lemma CarrierMoves(s: State, i: nat, config: Config, r: Reminder)
    requires Enabled(s, Attach(i)) && s.calls[i].phase == Attaching([r], Returned(false, true, false))
    ensures Next(s, Attach(i), config)
         == s.(calls := s.calls[i := s.calls[i].(phase := Done(Annotated([r], [r], 0), Returned(false, true, false)))])
  {
  }

  lemma GiverMoves(s: State, i: nat, config: Config, r: Reminder)
    requires Enabled(s, Attach(i)) && s.calls[i].phase == Attaching([r], Returned(false, false, false))
    requires InTurn(s.calls[i].session, s.calls[i].turn) && config.limit == 1
    requires s.record.seen == [KeyOf(s.calls[i], r)]
    ensures var s' := Next(s, Attach(i), config); var c := s.calls[i];
      && s' == s.(calls := s.calls[i := c.(phase := Done(NoCarrier([r]), c.phase.outcome))], record := s'.record)
      && s'.record.seen == []
  {
    hide Apply;
    DropOnly(s.record, s.calls[i].session, s.calls[i].turn, r);
  }

  // ---- the run ----

  const CARRIES := Returned(false, true, false)
  const CARRIES_NOTHING := Returned(false, false, false)

  /** A call that has claimed, before its result is seen to. */
  function ClaimedCall(x: Life): Call {
    LifeCall(x, 11).(phase := Attaching([x.r], x.outcome))
  }

  /** One more call lives up to its claim and makes it. */
  lemma LifeAndClaim(states: seq<State>, steps: seq<Step>, config: Config, x: Life, i: nat)
    returns (states': seq<State>, steps': seq<Step>)
    requires Run(states, steps, config) && Free(states[|steps|], i) && WasExecuted(x.outcome) && config.limit == 1
    requires InTurn(x.session, x.turn)
    requires |states[|steps|].record.seen| <= 1 && Key(x.session, x.turn, x.r) !in states[|steps|].record.seen
    ensures Run(states', steps', config) && states <= states' && steps <= steps' && |steps'| == |steps| + 12
    ensures var s, s' := states[|steps|], states'[|steps'|];
      && s'.calls == s.calls[i := ClaimedCall(x)] && s'.checks.Keys == s.checks.Keys + {i} && s'.table == s.table
      && s'.record.seen == [Key(x.session, x.turn, x.r)]
    ensures steps'[|steps| + 11] == ClaimFor(i) && forall m :: |steps| <= m < |steps| + 11 ==> !steps'[m].ClaimFor?
  {
    hide Next, Enabled;
    states', steps' := LifeRun(states, steps, config, x, i, 11);
    var s := states'[|steps'|];
    assert Enabled(s, ClaimFor(i)) by { CanClaim(s, i); }
    ClaimMoves(s, i, config, x.r);
    OneStepMore(states', steps', config, ClaimFor(i));
    states', steps' := states' + [Next(s, ClaimFor(i), config)], steps' + [ClaimFor(i)];
  }

  lemma CanClaim(s: State, i: nat)
    requires i in s.calls && s.calls[i].phase.Claiming?
    ensures Enabled(s, ClaimFor(i))
  {
  }

  lemma CanAttach(s: State, i: nat)
    requires i in s.calls && s.calls[i].phase.Attaching?
    ensures Enabled(s, Attach(i))
  {
  }

  /** In a record of one: a call claims a reminder, another key pushes it out, and a second call claims it. */
  lemma ThreeClaims(x: Life, other: Reminder, config: Config) returns (states: seq<State>, steps: seq<Step>)
    requires InTurn(x.session, x.turn) && other != x.r && config.limit == 1
    ensures Run(states, steps, config) && |steps| == 36 && steps[35] == ClaimFor(2)
    ensures var s := states[36];
      && s.calls == map[0 := ClaimedCall(x.(outcome := CARRIES_NOTHING)),
                        1 := ClaimedCall(x.(r := other, outcome := CARRIES)),
                        2 := ClaimedCall(x.(outcome := CARRIES))]
      && s.checks.Keys == {0, 1, 2} && s.table == H.EMPTY_TABLE && s.record.seen == [Key(x.session, x.turn, x.r)]
  {
    hide Next, Enabled, ClaimedCall;
    states, steps := LifeAndClaim([START], [], config, x.(outcome := CARRIES_NOTHING), 0);
    states, steps := LifeAndClaim(states, steps, config, x.(r := other, outcome := CARRIES), 1);
    states, steps := LifeAndClaim(states, steps, config, x.(outcome := CARRIES), 2);
  }

  /** The second call's result carries it, and then the first, whose result can carry nothing, gives it back. */
  lemma OneGivesBack(x: Life, other: Reminder, config: Config) returns (states: seq<State>, steps: seq<Step>)
    requires InTurn(x.session, x.turn) && other != x.r && config.limit == 1
    ensures Run(states, steps, config) && |steps| == 38
    ensures steps[35] == ClaimFor(2) && steps[36] == Attach(2) && steps[37] == Attach(0)
    ensures states[36].record.seen == [Key(x.session, x.turn, x.r)]
    ensures var s := states[38];
      && s.calls.Keys == {0, 1, 2} && InResult(s, 2, x.r) && Carries(s, 2, Key(x.session, x.turn, x.r))
      && s.checks.Keys == {0, 1, 2} && s.table == H.EMPTY_TABLE && s.record.seen == []
  {
    hide Next, Enabled;
    states, steps := ThreeClaims(x, other, config);
    var s := states[36];
    CanAttach(s, 2);
    CarrierMoves(s, 2, config, x.r);
    OneStepMore(states, steps, config, Attach(2));
    states, steps := states + [Next(s, Attach(2), config)], steps + [Attach(2)];
    s := states[37];
    CanAttach(s, 0);
    GiverMoves(s, 0, config, x.r);
    OneStepMore(states, steps, config, Attach(0));
    states, steps := states + [Next(s, Attach(0), config)], steps + [Attach(0)];
  }

  /**
   * Two results carry one reminder of one turn, and nothing pushed its key out between their claims:
   * what took it off the record is the release by the call that had claimed it first.
   */
  lemma GivenTwiceAfterARelease(x: Life, other: Reminder, config: Config) returns (states: seq<State>, steps: seq<Step>)
    requires InTurn(x.session, x.turn) && other != x.r && config.limit == 1
    ensures Run(states, steps, config) && |steps| == 51
    ensures InResult(states[51], 2, x.r) && InResult(states[51], 3, x.r)
    ensures Carries(states[51], 2, Key(x.session, x.turn, x.r)) && Carries(states[51], 3, Key(x.session, x.turn, x.r))
    ensures steps[35] == ClaimFor(2) && steps[49] == ClaimFor(3)
    ensures forall e: nat :: 35 <= e < 49 ==> !PushedAt(states, steps, e, Key(x.session, x.turn, x.r))
  {
    hide Next, Enabled, HandsOut;
    var first, before := OneGivesBack(x, other, config);
    states, steps := LifeAndClaim(first, before, config, x.(outcome := CARRIES), 3);
    var s := states[50];
    CanAttach(s, 3);
    CarrierMoves(s, 3, config, x.r);
    OneStepMore(states, steps, config, Attach(3));
    states, steps := states + [Next(s, Attach(3), config)], steps + [Attach(3)];
    assert states[36] == first[36] && steps[35] == before[35] && steps[36] == before[36] && steps[37] == before[37];
  }
}
