/** Conservation, delivery and the answers checks get: what the delivery of reminders promises. */
module ReminderResults {
  import opened Deliveries
  import opened ReminderFrames
  import opened Reminders
  import opened ReminderRuns
  import H = Handoff

  // ---- where the reminders of a closed frame end ----

  /** The step at which a call came back. */
  lemma {:induction false} ReturnMoment(states: seq<State>, steps: seq<Step>, config: Config, n: nat, i: nat) returns (q: nat)
    requires Run(states, steps, config) && n < |states| && i in states[n].calls
    requires OutcomeOf(states[n].calls[i].phase).Some?
    ensures q < n && steps[q] == Return(i, OutcomeOf(states[n].calls[i].phase).value)
    decreases n
  {
    hide Next, Enabled, CallGrows, OutcomeOf;
    if n == 0 {
      assert false;
    } else if i in states[n - 1].calls && OutcomeOf(states[n - 1].calls[i].phase).Some? {
      q := ReturnMoment(states, steps, config, n - 1, i);
      OutcomeStays(states[n - 1], steps[n - 1], config, i);
    } else {
      q := n - 1;
      OnlyAReturnReturns(states[q], steps[q], config, i);
    }
  }

  lemma OutcomeStays(s: State, st: Step, config: Config, i: nat)
    requires Enabled(s, st) && i in s.calls && OutcomeOf(s.calls[i].phase).Some?
    ensures i in Next(s, st, config).calls
    ensures OutcomeOf(Next(s, st, config).calls[i].phase) == OutcomeOf(s.calls[i].phase)
  {
    hide Next, Enabled;
    CallsMove(s, st, config, i);
  }

  lemma OnlyAReturnReturns(s: State, st: Step, config: Config, i: nat)
    requires Enabled(s, st) && i in Next(s, st, config).calls
    requires OutcomeOf(Next(s, st, config).calls[i].phase).Some?
    requires i in s.calls ==> OutcomeOf(s.calls[i].phase) == None
    ensures st == Return(i, OutcomeOf(Next(s, st, config).calls[i].phase).value)
  {
    hide Add, Apply, Deliveries.Given, H.Step, H.Given;
  }

  predicate WasReleased(phase: Phase) {
    phase.Done? && phase.fate.NoCarrier?
  }

  /** The step at which a call gave its claim back; its keys are off the record at once. */
  lemma {:induction false} ReleaseMoment(states: seq<State>, steps: seq<Step>, config: Config, n: nat, i: nat) returns (q: nat)
    requires Run(states, steps, config) && n < |states| && i in states[n].calls && WasReleased(states[n].calls[i].phase)
    ensures var c := states[n].calls[i];
      && q < n && steps[q] == Attach(i)
      && forall r <- c.phase.fate.given :: InTurn(c.session, c.turn) ==>
           Key(c.session, c.turn, r) !in states[q + 1].record.seen
    decreases n
  {
    hide Next, Enabled, CallGrows, Inv;
    if n == 0 {
      assert false;
    } else if i in states[n - 1].calls && WasReleased(states[n - 1].calls[i].phase) {
      q := ReleaseMoment(states, steps, config, n - 1, i);
      CallsMove(states[n - 1], steps[n - 1], config, i);
      assert CallGrows(states[n - 1].calls[i], states[n].calls[i]) by { assert states[n] == Next(states[n - 1], steps[n - 1], config); }
      DoneStays(states[n - 1].calls[i], states[n].calls[i]);
    } else {
      q := n - 1;
      OnlyAnAttachReleases(states[q], steps[q], config, i);
    }
  }

  lemma DoneStays(c: Call, c': Call)
    requires CallGrows(c, c') && c.phase.Done?
    ensures c'.phase == c.phase && c'.session == c.session && c'.turn == c.turn
  {
  }

  lemma OnlyAnAttachReleases(s: State, st: Step, config: Config, i: nat)
    requires Enabled(s, st) && i in Next(s, st, config).calls && WasReleased(Next(s, st, config).calls[i].phase)
    requires i in s.calls ==> !WasReleased(s.calls[i].phase)
    ensures st == Attach(i)
    ensures var c := Next(s, st, config).calls[i];
      forall r <- c.phase.fate.given :: InTurn(c.session, c.turn) ==>
        Key(c.session, c.turn, r) !in Next(s, st, config).record.seen
  {
    hide Next, Enabled, Apply, Deliveries.Given, KeysFor;
    OnlyAnAttach(s, st, config, i);
    RecordAfterRelease(s, i, config);
    var c := s.calls[i];
    forall r <- c.phase.given
      ensures InTurn(c.session, c.turn) ==> Key(c.session, c.turn, r) !in Next(s, st, config).record.seen
    {
      KeyIn(c.session, c.turn, c.phase.given, Key(c.session, c.turn, r));
    }
  }

  lemma OnlyAnAttach(s: State, st: Step, config: Config, i: nat)
    requires Enabled(s, st) && i in Next(s, st, config).calls && WasReleased(Next(s, st, config).calls[i].phase)
    requires i in s.calls ==> !WasReleased(s.calls[i].phase)
    ensures st == Attach(i) && i in s.calls && s.calls[i].phase.Attaching? && GivesBack(s, st)
    ensures Next(s, st, config).calls[i] == Attached(s.calls[i]) && WasReleased(Attached(s.calls[i]).phase)
    ensures Attached(s.calls[i]).phase.fate.given == s.calls[i].phase.given
    ensures Attached(s.calls[i]).session == s.calls[i].session && Attached(s.calls[i]).turn == s.calls[i].turn
  {
    hide Add, Apply, Deliveries.Given, H.Step, H.Given;
  }

  function KeyOf(c: Call, r: Reminder): Key {
    Key(c.session, c.turn, r)
  }

  /** When call `i` claimed, another call already carried the reminder in that turn. */
  ghost predicate CarriedByAnother(s: State, i: nat, r: Reminder)
    requires i in s.calls
  {
    && InTurn(s.calls[i].session, s.calls[i].turn) && KeyOf(s.calls[i], r) in s.record.seen
    && exists j :: j != i && Carries(s, j, KeyOf(s.calls[i], r))
  }

  ghost predicate SkippedAt(states: seq<State>, steps: seq<Step>, q: nat, i: nat, r: Reminder) {
    && q < |states| && q < |steps| && steps[q] == ClaimFor(i) && i in states[q].calls
    && CarriedByAnother(states[q], i, r)
  }

  /** A reminder the claim did not hand out was on record, and another call carried it. */
  lemma NotGivenIsCarried(s: State, config: Config, i: nat, r: Reminder)
    requires Enabled(s, ClaimFor(i)) && Inv(s, config) && r in s.calls[i].frame.reminders
    requires r !in Deliveries.Given(s.record, ClaimOf(s.calls[i]))
    ensures CarriedByAnother(s, i, r)
  {
    hide Fresh, Carries;
    var k := KeyOf(s.calls[i], r);
    assert Carried(s, k);
    var j :| Carries(s, j, k);
    ClaimantCarriesNothing(s, i, k);
  }

  lemma ClaimantCarriesNothing(s: State, i: nat, k: Key)
    requires Enabled(s, ClaimFor(i))
    ensures !Carries(s, i, k)
  {
  }

  /**
   * Reminder conservation. In every run, each reminder of the tuple a finished call closed with has
   * exactly the end that the call's outcome allows: the call raised; its result says it was not run;
   * the parent's open frame took it; the call's own result shows or counts it; that result could
   * carry nothing, and the claim on it is off the record again; or another call of the turn carried
   * it when this one claimed.
   */
  lemma ReminderConservation(states: seq<State>, steps: seq<Step>, config: Config, n: nat, i: nat, r: Reminder)
    returns (back: nat, q: nat)
    requires Run(states, steps, config) && n < |states|
    requires i in states[n].calls && states[n].calls[i].phase.Done? && r in states[n].calls[i].frame.reminders
    ensures var s := states[n]; var c := s.calls[i]; var outcome := c.phase.outcome;
      && back < n && steps[back] == Return(i, outcome)
      && match c.phase.fate
         case CallRaised => outcome.Raised?
         case NothingToSay => false
         case NotExecuted => outcome.Returned? && outcome.unexecuted
         case TakenByParent =>
           && WasExecuted(outcome) && c.parent.Some? && c.frame.callId == ""
           && c.parent.value in s.calls && r in s.calls[c.parent.value].frame.reminders
         case AllSeen => WasExecuted(outcome) && SkippedAt(states, steps, q, i, r)
         case Annotated(given, shown, more) =>
           && WasExecuted(outcome) && outcome.carrier
           && if r in given then
                && shown <= given && |shown| == (if outcome.long && |given| > 3 then 3 else |given|) && |shown| + more == |given|
                && (r in shown || r in given[|shown|..])
              else SkippedAt(states, steps, q, i, r)
         case NoCarrier(given) =>
           && WasExecuted(outcome) && !outcome.carrier
           && if r in given then q < n && steps[q] == Attach(i)
                                 && (c.session != "" && c.turn != "" ==> KeyOf(c, r) !in states[q + 1].record.seen)
              else SkippedAt(states, steps, q, i, r)
  {
    hide Next, Enabled, Inv, Carries, SkippedAt, Deliveries.Given;
    var c := states[n].calls[i];
    back := ReturnMoment(states, steps, config, n, i);
    EndFits(states, steps, config, n, i);
    q := 0;
    if WasReleased(c.phase) && r in c.phase.fate.given {
      q := ReleaseMoment(states, steps, config, n, i);
    } else if HasClaimed(c.phase) {
      q := SkipMoment(states, steps, config, n, i, r);
      if c.phase.fate.Annotated? && r in c.phase.fate.given {
        ShownOrCounted(c.phase.fate.given, c.phase.outcome.long, r);
      }
    }
  }

  lemma EndFits(states: seq<State>, steps: seq<Step>, config: Config, n: nat, i: nat)
    requires Run(states, steps, config) && n < |states| && i in states[n].calls && states[n].calls[i].phase.Done?
    ensures FateFits(states[n].calls[i], states[n].calls[i].phase.fate, states[n].calls[i].phase.outcome)
    ensures WentToParent(states[n].calls[i]) ==> TakenUp(states[n], states[n].calls[i])
  {
    hide Next, Enabled;
    RunKeepsInv(states, steps, config, n);
    assert CallOk(states[n].calls[i]);
  }

  lemma ShownOrCounted(given: seq<Reminder>, compact: bool, r: Reminder)
    requires r in given
    ensures r in Shown(given, compact)
      || (r in given[|Shown(given, compact)|..] && compact && |Shown(given, compact)| == COMPACT_MAX)
  {
    var k :| 0 <= k < |given| && given[k] == r;
    var shown := Shown(given, compact);
    if k < |shown| {
      assert shown[k] == r;
    } else {
      assert given[|shown|..][k - |shown|] == r;
    }
  }

  /** The claim of a call, which skipped the reminder unless it was given. */
  lemma SkipMoment(states: seq<State>, steps: seq<Step>, config: Config, n: nat, i: nat, r: Reminder) returns (q: nat)
    requires Run(states, steps, config) && n < |states| && i in states[n].calls
    requires states[n].calls[i].phase.Done? && HasClaimed(states[n].calls[i].phase)
    requires r in states[n].calls[i].frame.reminders
    ensures states[n].calls[i].phase.fate.AllSeen? || r !in states[n].calls[i].phase.fate.given ==>
      SkippedAt(states, steps, q, i, r)
  {
    hide Next, Inv, Carries, Deliveries.Given, CarriedByAnother;
    q := ClaimMoment(states, steps, config, n, i);
    RunKeepsInv(states, steps, config, q);
    var given := Deliveries.Given(states[q].record, ClaimOf(states[q].calls[i]));
    GivenUntilDone(states, steps, config, q + 1, n, i);
    if r !in given {
      NotGivenIsCarried(states[q], config, i, r);
    }
  }

  lemma GivenUntilDone(states: seq<State>, steps: seq<Step>, config: Config, m: nat, n: nat, i: nat)
    requires Run(states, steps, config) && m <= n < |states| && i in states[m].calls && HasClaimed(states[m].calls[i].phase)
    requires i in states[n].calls && states[n].calls[i].phase.Done?
    ensures states[m].calls[i].phase.Attaching? ==>
      HasClaimed(states[n].calls[i].phase) && !states[n].calls[i].phase.fate.AllSeen?
      && states[n].calls[i].phase.fate.given == states[m].calls[i].phase.given
    ensures states[m].calls[i].phase.Done? ==> states[n].calls[i].phase == states[m].calls[i].phase
  {
    hide Next, Enabled;
    CallLater(states, steps, config, m, n, i);
  }

  /** A nested call of a script, while its caller is open, leaves its reminders to the caller; any other call claims them. */
  lemma OpenParentTakes(s: State, config: Config, i: nat)
    requires Enabled(s, Hand(i)) && WasExecuted(s.calls[i].phase.outcome) && s.calls[i].frame.reminders != []
    ensures var c := s.calls[i]; var s' := Next(s, Hand(i), config);
      i in s'.calls &&
      if c.parent.Some? && c.frame.callId == "" && c.parent.value in s.calls && s.calls[c.parent.value].frame.open then
        WentToParent(s'.calls[i]) && TakenUp(s', c)
      else s'.calls[i].phase == Claiming(c.phase.outcome)
  {
    hide Add;
    var c := s.calls[i];
    if ParentTakes(s, c) {
      AddGrows(s.calls[c.parent.value].frame, c.frame.reminders);
    }
  }

  /** The call's own result shows or counts the reminder. */
  predicate InResult(s: State, i: nat, r: Reminder) {
    && i in s.calls && s.calls[i].phase.Done? && s.calls[i].phase.fate.Annotated?
    && r in s.calls[i].phase.fate.given
  }

  /**
   * A reminder skipped because another call carried it is in the hands of that call alone: once that
   * call is done its result has the reminder exactly when it can carry one, and the call that
   * skipped it never does. If the other result can carry nothing, both have lost it.
   */
  lemma SkippedFollowsItsClaimant(states: seq<State>, steps: seq<Step>, config: Config, q: nat, n: nat, i: nat, r: Reminder)
    returns (j: nat)
    requires Run(states, steps, config) && q < n < |states| && steps[q] == ClaimFor(i)
    requires i in states[q].calls && r in states[q].calls[i].frame.reminders
    requires r !in Deliveries.Given(states[q].record, ClaimOf(states[q].calls[i]))
    ensures j != i && Carries(states[q], j, KeyOf(states[q].calls[i], r)) && j in states[n].calls
    ensures states[n].calls[j].phase.Done? ==>
      (InResult(states[n], j, r) <==> states[n].calls[j].phase.outcome.Returned? && states[n].calls[j].phase.outcome.carrier)
    ensures !InResult(states[n], i, r)
  {
    hide Next, Inv, Deliveries.Given, CallGrows, Attached;
    RunKeepsInv(states, steps, config, q);
    NotGivenIsCarried(states[q], config, i, r);
    var k := KeyOf(states[q].calls[i], r);
    j :| j != i && Carries(states[q], j, k);
    CarrierEnds(states, steps, config, q, n, j, k);
    SkipperShowsNothing(states, steps, config, q, n, i, r);
  }

  lemma CarrierEnds(states: seq<State>, steps: seq<Step>, config: Config, q: nat, n: nat, j: nat, k: Key)
    requires Run(states, steps, config) && q <= n < |states| && Carries(states[q], j, k)
    ensures j in states[n].calls
    ensures states[n].calls[j].phase.Done? ==>
      (InResult(states[n], j, k.reminder) <==>
         states[n].calls[j].phase.outcome.Returned? && states[n].calls[j].phase.outcome.carrier)
  {
    hide Next, Enabled;
    CallLater(states, steps, config, q, n, j);
    RunKeepsInv(states, steps, config, n);
    assert CallOk(states[n].calls[j]);
  }

  lemma SkipperShowsNothing(states: seq<State>, steps: seq<Step>, config: Config, q: nat, n: nat, i: nat, r: Reminder)
    requires Run(states, steps, config) && q < n < |states| && steps[q] == ClaimFor(i) && i in states[q].calls
    requires r !in Deliveries.Given(states[q].record, ClaimOf(states[q].calls[i]))
    ensures !InResult(states[n], i, r)
  {
    hide Next, Deliveries.Given;
    var s := states[q];
    AfterTheClaim(s, i, config);
    CallLater(states, steps, config, q + 1, n, i);
  }

  lemma AfterTheClaim(s: State, i: nat, config: Config)
    requires Enabled(s, ClaimFor(i))
    ensures i in Next(s, ClaimFor(i), config).calls
    ensures Next(s, ClaimFor(i), config).calls[i] == ClaimGiven(s.calls[i], Deliveries.Given(s.record, ClaimOf(s.calls[i])))
  {
    hide Deliveries.Given, Apply;
  }

  // ---- at most once per turn ----

  /** The step claims the reminder of `k` and is given it. */
  predicate HandsOut(s: State, st: Step, k: Key) {
    && st.ClaimFor? && Enabled(s, st) && InTurn(k.session, k.turn)
    && (s.calls[st.i].session, s.calls[st.i].turn) == (k.session, k.turn)
    && k.reminder in Deliveries.Given(s.record, ClaimOf(s.calls[st.i]))
  }

  /** The limit pushes the key off the record: a claim that leaves it off though it was there, or was handed out. */
  predicate PushedAt(states: seq<State>, steps: seq<Step>, e: nat, k: Key) {
    && e < |steps| && e + 1 < |states| && steps[e].ClaimFor? && k !in states[e + 1].record.seen
    && (k in states[e].record.seen || HandsOut(states[e], steps[e], k))
  }

  /** Another call than `i`, which carries the reminder too, gives it back. */
  predicate ReleasedByAnother(states: seq<State>, steps: seq<Step>, e: nat, i: nat, k: Key) {
    && e < |steps| && e < |states| && steps[e].Attach? && steps[e].i != i && Enabled(states[e], steps[e])
    && GivesBack(states[e], steps[e]) && Carries(states[e], steps[e].i, k)
  }

  /** The keys handed out in the steps from `lo` up to `hi`. */
  function HandedBetween(states: seq<State>, steps: seq<Step>, lo: int, hi: nat): set<Key>
    requires hi <= |steps| < |states|
  {
    if hi == 0 || hi <= lo then {}
    else HandedBetween(states, steps, lo, hi - 1) + HandedAt(states[hi - 1], steps[hi - 1])
  }

  function HandedAt(s: State, st: Step): set<Key> {
    if st.ClaimFor? && Enabled(s, st) && InTurn(s.calls[st.i].session, s.calls[st.i].turn)
    then set k <- ClaimKeys(s, st.i)
    else {}
  }

  function ClaimKeys(s: State, i: nat): seq<Key>
    requires Enabled(s, ClaimFor(i))
  {
    KeysFor(s.calls[i].session, s.calls[i].turn, Deliveries.Given(s.record, ClaimOf(s.calls[i])))
  }

  lemma HandsOutIsHanded(s: State, st: Step, k: Key)
    ensures HandsOut(s, st, k) <==> k in HandedAt(s, st)
  {
    hide Deliveries.Given, KeysFor;
    if st.ClaimFor? && Enabled(s, st) {
      KeyIn(s.calls[st.i].session, s.calls[st.i].turn, Deliveries.Given(s.record, ClaimOf(s.calls[st.i])), k);
    }
  }

  /** The last of the first `n` steps that handed out the reminder of `k`, -1 if none did. */
  function LastHanded(states: seq<State>, steps: seq<Step>, n: nat, k: Key): (m: int)
    requires n <= |steps| < |states|
    ensures -1 <= m < n
  {
    if n == 0 then -1
    else if k in HandedAt(states[n - 1], steps[n - 1]) then n - 1
    else LastHanded(states, steps, n - 1, k)
  }

  /** The keys the history holds against `k` were handed out since its own last claim. */
  ghost predicate SinceIsHanded(states: seq<State>, steps: seq<Step>, n: nat, k: Key)
    requires n <= |steps| < |states|
  {
    k in states[n].record.since ==>
      && LastHanded(states, steps, n, k) >= 0
      && states[n].record.since[k] <= HandedBetween(states, steps, LastHanded(states, steps, n, k), n) - {k}
  }

  lemma SinceAfterClaim(s: State, i: nat, config: Config, k: Key)
    requires Enabled(s, ClaimFor(i)) && (k in s.record.since ==> k !in s.record.since[k])
    requires k in Next(s, ClaimFor(i), config).record.since
    ensures var after, handed := Next(s, ClaimFor(i), config).record.since[k], HandedAt(s, ClaimFor(i));
      && k !in after
      && if k in handed then after <= handed else k in s.record.since && after <= s.record.since[k] + handed
  {
    hide Deliveries.Given, KeysFor, MarkEach, Trim;
    RecordAfterClaim(s, i, config);
    if InTurn(s.calls[i].session, s.calls[i].turn) {
      MarkEachSince(s.record, ClaimKeys(s, i), k);
    }
  }

  lemma SinceOtherwise(s: State, st: Step, config: Config, k: Key)
    requires Enabled(s, st) && !st.ClaimFor? && k in Next(s, st, config).record.since
    ensures k in s.record.since && Next(s, st, config).record.since[k] == s.record.since[k]
  {
    hide Next, KeysFor, DropEach, Attached;
    if GivesBack(s, st) {
      var c := s.calls[st.i];
      RecordAfterRelease(s, st.i, config);
      if InTurn(c.session, c.turn) {
        DropEachSince(s.record, KeysFor(c.session, c.turn, c.phase.given), k);
      }
    } else {
      RecordUnmoved(s, st, config);
    }
  }

  lemma {:induction false} SinceIsHandedOut(states: seq<State>, steps: seq<Step>, config: Config, n: nat, k: Key)
    requires Run(states, steps, config) && n < |states|
    ensures SinceIsHanded(states, steps, n, k)
  {
    hide Next, Enabled, HandedAt;
    if n > 0 && k in states[n].record.since {
      var s, st := states[n - 1], steps[n - 1];
      SinceIsHandedOut(states, steps, config, n - 1, k);
      if st.ClaimFor? {
        SinceAfterClaim(s, st.i, config, k);
      } else {
        SinceOtherwise(s, st, config, k);
        NothingHanded(s, st);
      }
    }
  }

  lemma NothingHanded(s: State, st: Step)
    requires !st.ClaimFor?
    ensures HandedAt(s, st) == {}
  {
  }

  /** When the limit pushes a key out, at least `limit` others were handed out since its own last claim. */
  lemma PushedByOthers(states: seq<State>, steps: seq<Step>, config: Config, e: nat, k: Key)
    requires Run(states, steps, config) && PushedAt(states, steps, e, k)
    ensures var c := LastHanded(states, steps, e + 1, k); c >= 0 && |HandedBetween(states, steps, c, e + 1) - {k}| >= config.limit
  {
    hide Next, Enabled, Inv, HandsOut, HandedAt, HandedBetween, RecordOk;
    KeyIsOffTheRecord(states, steps, config, e, k);
    SinceIsHandedOut(states, steps, config, e + 1, k);
    var others := HandedBetween(states, steps, LastHanded(states, steps, e + 1, k), e + 1) - {k};
    SubsetIsNoLarger(states[e + 1].record.since[k], others);
  }

  /** And so since any claim that was given its reminder. */
  lemma PushedSince(states: seq<State>, steps: seq<Step>, config: Config, lo: nat, e: nat, k: Key)
    requires Run(states, steps, config) && PushedAt(states, steps, e, k) && lo <= e && HandsOut(states[lo], steps[lo], k)
    ensures |HandedBetween(states, steps, lo, e + 1) - {k}| >= config.limit
  {
    hide Next, Enabled, HandsOut, HandedAt, HandedBetween;
    PushedByOthers(states, steps, config, e, k);
    HandsOutIsHanded(states[lo], steps[lo], k);
    LastIsLater(states, steps, lo, e + 1, k);
    var c := LastHanded(states, steps, e + 1, k);
    MoreHanded(states, steps, lo, c, e + 1);
    SubsetIsNoLarger(HandedBetween(states, steps, c, e + 1) - {k}, HandedBetween(states, steps, lo, e + 1) - {k});
  }

  lemma KeyIsOffTheRecord(states: seq<State>, steps: seq<Step>, config: Config, e: nat, k: Key)
    requires Run(states, steps, config) && PushedAt(states, steps, e, k)
    ensures var rec := states[e + 1].record; k in rec.since && |rec.since[k]| >= config.limit
  {
    hide Next, Enabled, Inv, HandsOut, HandedAt;
    RunKeepsInv(states, steps, config, e);
    RunKeepsInv(states, steps, config, e + 1);
    RecordIsOk(states[e], config);
    RecordIsOk(states[e + 1], config);
    MarksStay(states[e], steps[e].i, config, k);
  }

  lemma RecordIsOk(s: State, config: Config)
    requires Inv(s, config)
    ensures RecordOk(s.record, config.limit)
    ensures forall k <- s.record.seen :: k in s.record.since
    ensures forall k <- s.record.since.Keys :: k in s.record.seen || |s.record.since[k]| >= config.limit
  {
  }

  lemma MarksStay(s: State, i: nat, config: Config, k: Key)
    requires Enabled(s, ClaimFor(i)) && RecordOk(s.record, config.limit)
    requires k in s.record.since || HandsOut(s, ClaimFor(i), k)
    ensures k in Next(s, ClaimFor(i), config).record.since
  {
    hide Deliveries.Given, KeysFor, MarkEach, Trim, RecordOk;
    RecordAfterClaim(s, i, config);
    HandsOutIsHanded(s, ClaimFor(i), k);
    if InTurn(s.calls[i].session, s.calls[i].turn) {
      MarkEachOk(s.record, ClaimKeys(s, i), config.limit);
    }
  }

  lemma {:induction false} LastIsLater(states: seq<State>, steps: seq<Step>, lo: nat, n: nat, k: Key)
    requires lo < n <= |steps| < |states| && k in HandedAt(states[lo], steps[lo])
    ensures LastHanded(states, steps, n, k) >= lo
    decreases n
  {
    hide HandedAt;
    if n - 1 > lo {
      LastIsLater(states, steps, lo, n - 1, k);
    }
  }

  lemma {:induction false} MoreHanded(states: seq<State>, steps: seq<Step>, lo: nat, c: int, hi: nat)
    requires lo <= c && hi <= |steps| < |states|
    ensures HandedBetween(states, steps, c, hi) <= HandedBetween(states, steps, lo, hi)
    decreases hi
  {
    hide HandedAt;
    if hi > 0 {
      MoreHanded(states, steps, lo, c, hi - 1);
    }
  }

  /** The claim that gave a call what it carries, and carries ever since. */
  lemma {:induction false} CarryMoment(states: seq<State>, steps: seq<Step>, config: Config, n: nat, i: nat, k: Key) returns (a: nat)
    requires Run(states, steps, config) && n < |states| && Carries(states[n], i, k) && InTurn(k.session, k.turn)
    ensures a < n && steps[a] == ClaimFor(i) && HandsOut(states[a], steps[a], k)
    ensures forall x :: a < x <= n ==> Carries(states[x], i, k)
    decreases n
  {
    hide Next, Enabled, Carries, HandsOut;
    NothingCarriedYet(i, k);
    if n == 0 {
      assert false;
    } else {
      CarriesBefore(states[n - 1], steps[n - 1], config, i, k);
      if Carries(states[n - 1], i, k) {
        a := CarryMoment(states, steps, config, n - 1, i, k);
      } else {
        a := n - 1;
        GivenAtTheClaim(states[a], i, config, k);
      }
    }
  }

  lemma NothingCarriedYet(i: nat, k: Key)
    ensures !Carries(START, i, k)
  {
  }

  lemma GivenAtTheClaim(s: State, i: nat, config: Config, k: Key)
    requires Enabled(s, ClaimFor(i)) && Carries(Next(s, ClaimFor(i), config), i, k) && InTurn(k.session, k.turn)
    ensures HandsOut(s, ClaimFor(i), k)
  {
    hide Deliveries.Given, KeysFor, Next;
    NotYetCarrying(s, i, config, k);
    KeyIn(s.calls[i].session, s.calls[i].turn, Deliveries.Given(s.record, ClaimOf(s.calls[i])), k);
  }

  /** A key that was handed out to a call and is off the record while the call still carries it
      was pushed out in between, or given back by another call. */
  lemma {:induction false} LossMoment(states: seq<State>, steps: seq<Step>, config: Config, lo: nat, n: nat, i: nat, k: Key)
    returns (e: nat)
    requires Run(states, steps, config) && lo < n < |states| && k !in states[n].record.seen
    requires HandsOut(states[lo], steps[lo], k) && forall x :: lo < x <= n ==> Carries(states[x], i, k)
    ensures lo <= e < n && (PushedAt(states, steps, e, k) || ReleasedByAnother(states, steps, e, i, k))
    decreases n
  {
    hide Next, Enabled, Carries, HandsOut, PushedAt, ReleasedByAnother;
    if n - 1 > lo && k !in states[n - 1].record.seen {
      e := LossMoment(states, steps, config, lo, n - 1, i, k);
    } else {
      e := n - 1;
      LostNow(states, steps, config, e, i, k);
    }
  }

  lemma LostNow(states: seq<State>, steps: seq<Step>, config: Config, e: nat, i: nat, k: Key)
    requires Run(states, steps, config) && e + 1 < |states| && Carries(states[e + 1], i, k) && k !in states[e + 1].record.seen
    requires k in states[e].record.seen || HandsOut(states[e], steps[e], k)
    ensures PushedAt(states, steps, e, k) || ReleasedByAnother(states, steps, e, i, k)
  {
    hide Next, Attached, Deliveries.Given, KeysFor;
    var s, st := states[e], steps[e];
    if !st.ClaimFor? {
      if GivesBack(s, st) {
        var c := s.calls[st.i];
        RecordAfterRelease(s, st.i, config);
        KeyIn(c.session, c.turn, c.phase.given, k);
        CarriesBefore(s, st, config, i, k);
      } else {
        RecordUnmoved(s, st, config);
      }
    }
  }

  /** A key the limit ever pushed out was pushed out at some step. */
  lemma {:induction false} PushMoment(states: seq<State>, steps: seq<Step>, config: Config, n: nat, k: Key) returns (e: nat)
    requires Run(states, steps, config) && n < |states| && k in states[n].record.evicted
    ensures e < n && PushedAt(states, steps, e, k)
    decreases n
  {
    hide Next, Enabled, HandsOut;
    if n == 0 {
      assert false;
    } else if k in states[n - 1].record.evicted {
      e := PushMoment(states, steps, config, n - 1, k);
    } else {
      e := n - 1;
      PushedNow(states[e], steps[e], config, k);
    }
  }

  lemma PushedNow(s: State, st: Step, config: Config, k: Key)
    requires Enabled(s, st) && k !in s.record.evicted && k in Next(s, st, config).record.evicted
    ensures st.ClaimFor? && k !in Next(s, st, config).record.seen && (k in s.record.seen || HandsOut(s, st, k))
  {
    hide Next, Deliveries.Given, KeysFor, Attached, MarkEach, Trim;
    if st.ClaimFor? {
      RecordAfterClaim(s, st.i, config);
      HandsOutIsHanded(s, st, k);
      if InTurn(s.calls[st.i].session, s.calls[st.i].turn) {
        MarkEachSeen(s.record, ClaimKeys(s, st.i));
        TouchAllMembers(s.record.seen, ClaimKeys(s, st.i));
      }
    } else if GivesBack(s, st) {
      RecordAfterRelease(s, st.i, config);
    } else {
      RecordUnmoved(s, st, config);
    }
  }

  /**
   * At most once per turn, end to end. When two results of one session and turn carry the same
   * reminder, then before the second of their claims the limit had pushed its key off the record:
   * between the two claims, with at least `limit` other keys handed out there; or before them, and
   * between them a third call that had claimed the reminder earlier gave it back.
   */
  lemma NoReminderTwice(states: seq<State>, steps: seq<Step>, config: Config, n: nat, i: nat, j: nat, k: Key)
    returns (lo: nat, hi: nat, e: nat, push: nat)
    requires Run(states, steps, config) && n < |states| && k.session != "" && k.turn != ""
    requires Carries(states[n], i, k) && Carries(states[n], j, k) && i != j
    ensures lo < hi < n && {steps[lo], steps[hi]} == {ClaimFor(i), ClaimFor(j)}
    ensures HandsOut(states[lo], steps[lo], k) && HandsOut(states[hi], steps[hi], k)
    ensures push < hi && PushedAt(states, steps, push, k)
    ensures var c := LastHanded(states, steps, push + 1, k);
      c >= 0 && |HandedBetween(states, steps, c, push + 1) - {k}| >= config.limit
    ensures lo <= e < hi
    ensures (PushedAt(states, steps, e, k) && |HandedBetween(states, steps, lo, e + 1) - {k}| >= config.limit)
         || ReleasedByAnother(states, steps, e, steps[lo].i, k)
  {
    hide Next, Enabled, Carries, HandsOut, PushedAt, ReleasedByAnother, Inv, HandedBetween, LastHanded;
    var a := CarryMoment(states, steps, config, n, i, k);
    var b := CarryMoment(states, steps, config, n, j, k);
    lo, hi := if a < b then a else b, if a < b then b else a;
    var first := steps[lo].i;
    NotOnRecord(states[hi], steps[hi], k);
    e := LossMoment(states, steps, config, lo, hi, first, k);
    if PushedAt(states, steps, e, k) {
      PushedSince(states, steps, config, lo, e, k);
    }
    PushedBefore(states, steps, config, hi, first, k);
    push := PushMoment(states, steps, config, hi, k);
    PushedByOthers(states, steps, config, push, k);
  }

  lemma NotOnRecord(s: State, st: Step, k: Key)
    requires HandsOut(s, st, k)
    ensures k !in s.record.seen
  {
  }

  lemma PushedBefore(states: seq<State>, steps: seq<Step>, config: Config, m: nat, i: nat, k: Key)
    requires Run(states, steps, config) && m < |states| && InTurn(k.session, k.turn)
    requires Carries(states[m], i, k) && k !in states[m].record.seen
    ensures k in states[m].record.evicted
  {
    hide Next, Enabled, Carries;
    RunKeepsInv(states, steps, config, m);
    assert OneCarrier(states[m], k);
  }

  // ---- adds and the handoff table ----

  /** The frame a check adds its reminder to, and the reminder. */
  predicate AddsTo(s: State, st: Step, i: nat, r: Reminder) {
    && Enabled(s, st) && (st.AddOwn? || st.AddOuter?)
    && s.checks[st.c].frame == Some(i) && s.checks[st.c].r == r
  }

  /** An add to an open frame is in its tuple from then on; one that comes after the close changes no frame. */
  lemma AddIsKeptOrRefused(states: seq<State>, steps: seq<Step>, config: Config, m: nat, n: nat, i: nat, r: Reminder)
    requires Run(states, steps, config) && m < |steps| && m < n < |states| && AddsTo(states[m], steps[m], i, r)
    ensures if states[m].calls[i].frame.open
            then i in states[n].calls && r in states[n].calls[i].frame.reminders
            else states[m + 1].calls == states[m].calls
                 && i in states[n].calls && states[n].calls[i].frame == states[m].calls[i].frame
  {
    hide Next, Enabled;
    AddAdds(states[m], steps[m], config, i, r);
    CallLater(states, steps, config, m, n, i);
    CallLater(states, steps, config, m + 1, n, i);
  }

  lemma AddAdds(s: State, st: Step, config: Config, i: nat, r: Reminder)
    requires AddsTo(s, st, i, r)
    ensures var s' := Next(s, st, config);
      i in s.calls && i in s'.calls && if s.calls[i].frame.open then r in s'.calls[i].frame.reminders else s'.calls == s.calls
  {
    hide Add;
    AddGrows(s.calls[i].frame, [r]);
  }

  lemma {:induction false} PlaceStays(states: seq<State>, steps: seq<Step>, config: Config, m: nat, n: nat, p: nat)
    requires Run(states, steps, config) && m <= n < |states|
    requires p < |states[m].table.places| && !states[m].table.places[p].Waiting?
    ensures p < |states[n].table.places| && states[n].table.places[p] == states[m].table.places[p]
    decreases n
  {
    hide Next, Enabled, Inv, H.Step;
    if m < n {
      PlaceStays(states, steps, config, m, n - 1, p);
      RunKeepsInv(states, steps, config, n - 1);
      PlaceStands(states[n - 1], steps[n - 1], config, p);
    }
  }

  lemma PlaceStands(s: State, st: Step, config: Config, p: nat)
    requires Enabled(s, st) && Inv(s, config) && p < |s.table.places| && !s.table.places[p].Waiting?
    ensures p < |Next(s, st, config).table.places| && Next(s, st, config).table.places[p] == s.table.places[p]
  {
    hide Next, Enabled, H.Step, CallOk, CheckOk, RecordOk;
    TableFollows(s, st, config);
    if TableOp(s, st, config).Some? {
      H.TakenAtMostOnce(s.table, TableOp(s, st, config).value, p);
    }
  }

  lemma {:induction false} PutStands(states: seq<State>, steps: seq<Step>, config: Config, m: nat, n: nat)
    requires Run(states, steps, config) && m <= n < |states|
    ensures states[m].table.puts <= states[n].table.puts
    decreases n
  {
    hide Next, Enabled;
    if m < n {
      PutStands(states, steps, config, m, n - 1);
      PutsGrow(states[n - 1], steps[n - 1], config);
    }
  }

  /**
   * A reminder put aside and taken by a call is that call's for good: no other call ever has it, and
   * it is in the tuple the call closes with. The table never holds more than its limit.
   */
  lemma HandoffReachesOneCall(states: seq<State>, steps: seq<Step>, config: Config, m: nat, n: nat, p: nat, i: nat)
    requires Run(states, steps, config) && m <= n < |states|
    requires p < |states[m].table.places| && states[m].table.places[p] == H.TakenBy(i)
    ensures p < |states[n].table.places| && states[n].table.places[p] == H.TakenBy(i)
    ensures p < |states[m].table.puts| && |states[n].table.entries| <= 256
    ensures i in states[n].calls
      && (!states[n].calls[i].frame.open ==> states[m].table.puts[p] in states[n].calls[i].frame.reminders)
  {
    hide Next, Enabled, H.TableOk;
    PlaceStays(states, steps, config, m, n, p);
    PutStands(states, steps, config, m, n);
    RunKeepsInv(states, steps, config, m);
    PlacesMatchPuts(states[m].table);
    RunKeepsInv(states, steps, config, n);
    PlacesMatchPuts(states[n].table);
    assert PutArrives(states[n], p);
    assert CallOk(states[n].calls[i]);
  }

  lemma WaitingWasPut(states: seq<State>, steps: seq<Step>, config: Config, m: nat, p: nat)
    requires Run(states, steps, config) && m < |states| && p < |states[m].table.places|
    ensures p < |states[m].table.puts|
  {
    hide H.TableOk;
    RunKeepsInv(states, steps, config, m);
    PlacesMatchPuts(states[m].table);
  }

  /** The call takes what waits under its key, and some of it has not waited too long. */
  predicate LooksInTime(s: State, st: Step, i: nat) {
    && Enabled(s, st) && (st.Look? || st.SkipLook?) && st.i == i
    && (st.Look? ==> forall e <- s.table.entries :: e.key == s.calls[i].key ==> st.now - e.at <= 60_000)
  }

  /**
   * Delivery: a reminder that waits under a call's key, unexpired, at either of the call's looks is
   * in the tuple that call closes with.
   */
  lemma LookDelivers(states: seq<State>, steps: seq<Step>, config: Config, m: nat, n: nat, p: nat, i: nat)
    requires Run(states, steps, config) && m < |steps| && m < n < |states| && LooksInTime(states[m], steps[m], i)
    requires p < |states[m].table.places| && states[m].table.places[p] == H.Waiting(states[m].calls[i].key)
    ensures p < |states[n].table.places| && states[n].table.places[p] == H.TakenBy(i)
    ensures p < |states[m].table.puts| && i in states[n].calls
      && (!states[n].calls[i].frame.open ==> states[m].table.puts[p] in states[n].calls[i].frame.reminders)
  {
    hide Next;
    RunKeepsInv(states, steps, config, m);
    LookTakes(states[m], steps[m], config, i, p);
    HandoffReachesOneCall(states, steps, config, m + 1, n, p, i);
    WaitingWasPut(states, steps, config, m, p);
    PutStands(states, steps, config, m, m + 1);
  }

  lemma LookTakes(s: State, st: Step, config: Config, i: nat, p: nat)
    requires TableArrives(s) && LooksInTime(s, st, i)
    requires p < |s.table.places| && s.table.places[p] == H.Waiting(s.calls[i].key)
    ensures var t := Next(s, st, config).table; p < |t.places| && t.places[p] == H.TakenBy(i)
  {
    hide Next, H.CameFromPut;
    TableFollows(s, st, config);
    assert H.WaitsInEntry(s.table, p);
  }

  // ---- the answers checks get ----

  /** Put `p` lapsed in step `m`: too old, replaced by the call's own verdict, or squeezed out of a full table. */
  ghost predicate LapsedAt(states: seq<State>, steps: seq<Step>, config: Config, m: nat, p: nat) {
    && m + 1 < |states| && m < |steps| && Enabled(states[m], steps[m]) && TableOp(states[m], steps[m], config).Some?
    && p < |states[m].table.places| && states[m].table.places[p].Waiting?
    && var found := H.Find(states[m].table.entries, states[m].table.places[p].key);
       found != [] && LapseCause(states[m].table, TableOp(states[m], steps[m], config).value, found[0])
  }

  predicate LapseCause(t: H.Table, op: H.Op, e: H.Entry) {
    || op.now - e.at > 60_000
    || (op.DropOp? && op.key == e.key)
    || (op.PutOp? && |H.Unexpired(H.WithoutKey(t.entries, op.key), op.now)| >= 256)
  }

  lemma {:induction false} LapseMoment(states: seq<State>, steps: seq<Step>, config: Config, n: nat, p: nat) returns (m: nat)
    requires Run(states, steps, config) && n < |states|
    requires p < |states[n].table.places| && states[n].table.places[p] == H.Lapsed
    ensures m < n && LapsedAt(states, steps, config, m, p)
    decreases n
  {
    hide Next, Enabled, Inv, LapsedAt;
    if n == 0 {
      assert false;
    } else if p < |states[n - 1].table.places| && states[n - 1].table.places[p] == H.Lapsed {
      m := LapseMoment(states, steps, config, n - 1, p);
    } else {
      m := n - 1;
      RunKeepsInv(states, steps, config, m);
      LapsesNow(states, steps, config, m, p);
    }
  }

  lemma LapsesNow(states: seq<State>, steps: seq<Step>, config: Config, m: nat, p: nat)
    requires Run(states, steps, config) && m < |steps| && Inv(states[m], config)
    requires p < |states[m + 1].table.places| && states[m + 1].table.places[p] == H.Lapsed
    requires p < |states[m].table.places| ==> states[m].table.places[p] != H.Lapsed
    ensures LapsedAt(states, steps, config, m, p)
  {
    hide Next, H.TableOk, H.Find, H.Unexpired, H.WithoutKey, CheckOk, CallOk;
    var s, op := states[m], TableOp(states[m], steps[m], config);
    TableFollows(s, steps[m], config);
    PlaceWasWaiting(s.table, op.value, p);
    H.LapseHasACause(s.table, op.value, p);
  }

  lemma PlaceWasWaiting(t: H.Table, op: H.Op, p: nat)
    requires H.TableOk(t) && p < |H.Step(t, op).places| && H.Step(t, op).places[p] == H.Lapsed
    requires p < |t.places| ==> t.places[p] != H.Lapsed
    ensures p < |t.places| && t.places[p].Waiting?
  {
    hide H.Find, H.Unexpired, H.WithoutKey;
  }

  /** The check's question, which was answered that the frame is its own. */
  lemma {:induction false} AskMoment(states: seq<State>, steps: seq<Step>, config: Config, n: nat, c: nat) returns (a: nat)
    requires Run(states, steps, config) && n < |states| && c in states[n].checks && states[n].checks[c].stage.AddingOwn?
    ensures a < n && steps[a] == AskOwns(c) && states[n].checks[c].frame.Some?
    ensures var i := states[n].checks[c].frame.value; i in states[a].calls && states[a].calls[i].frame.open
    decreases n
  {
    hide Next, Enabled, Inv;
    if n == 0 {
      assert false;
    } else if c in states[n - 1].checks && states[n - 1].checks[c].stage.AddingOwn? {
      a := AskMoment(states, steps, config, n - 1, c);
      ChecksMove(states[n - 1], steps[n - 1], config, c);
    } else {
      a := n - 1;
      OnlyAnAskOwns(states[a], steps[a], config, c);
    }
  }

  lemma OnlyAnAskOwns(s: State, st: Step, config: Config, c: nat)
    requires Enabled(s, st) && c in Next(s, st, config).checks && Next(s, st, config).checks[c].stage.AddingOwn?
    requires c in s.checks ==> !s.checks[c].stage.AddingOwn?
    ensures st == AskOwns(c) && Next(s, st, config).checks[c].frame.Some?
    ensures var i := Next(s, st, config).checks[c].frame.value; i in s.calls && s.calls[i].frame.open
  {
    hide Add, Apply, Deliveries.Given, H.Step, H.Given, Attached, HandedOn, ClaimGiven, Joined, Added;
  }

  /** The add that the check was then told is carried. */
  lemma {:induction false} OwnAddMoment(states: seq<State>, steps: seq<Step>, config: Config, n: nat, c: nat) returns (b: nat)
    requires Run(states, steps, config) && n < |states| && c in states[n].checks
    requires states[n].checks[c].stage.Answered? && states[n].checks[c].stage.route == ByOwn
    ensures b < n && steps[b] == AddOwn(c) && c in states[b].checks && states[b].checks[c].stage.AddingOwn?
    ensures states[b].checks[c].frame == states[n].checks[c].frame && states[b].checks[c].r == states[n].checks[c].r
    decreases n
  {
    hide Next, Enabled, Inv;
    if n == 0 {
      assert false;
    } else if c in states[n - 1].checks && states[n - 1].checks[c].stage.Answered? {
      ChecksMove(states[n - 1], steps[n - 1], config, c);
      b := OwnAddMoment(states, steps, config, n - 1, c);
    } else {
      b := n - 1;
      OnlyAnAddAnswers(states[b], steps[b], config, c);
    }
  }

  lemma OnlyAnAddAnswers(s: State, st: Step, config: Config, c: nat)
    requires Enabled(s, st) && c in Next(s, st, config).checks
    requires Next(s, st, config).checks[c].stage.Answered? && Next(s, st, config).checks[c].stage.route == ByOwn
    requires c in s.checks ==> !s.checks[c].stage.Answered?
    ensures st == AddOwn(c) && c in s.checks && s.checks[c].stage.AddingOwn?
    ensures s.checks[c].frame == Next(s, st, config).checks[c].frame && s.checks[c].r == Next(s, st, config).checks[c].r
  {
    hide Add, Apply, Deliveries.Given, H.Step, H.Given, Attached, HandedOn, ClaimGiven, Joined, Added;
  }

  ghost predicate ClosesBetween(steps: seq<Step>, a: nat, b: nat, i: nat) {
    exists m :: a < m < b && m < |steps| && steps[m] == Close(i)
  }

  /** A frame that was open stays so exactly until its call closes it. */
  lemma {:induction false} OpenUntilClose(states: seq<State>, steps: seq<Step>, config: Config, a: nat, b: nat, i: nat)
    requires Run(states, steps, config) && a < b < |states| && steps[a] != Close(i)
    requires i in states[a].calls && states[a].calls[i].frame.open
    ensures i in states[b].calls && (states[b].calls[i].frame.open <==> !ClosesBetween(steps, a, b, i))
    decreases b
  {
    hide Next, Enabled, CallGrows;
    if b > a + 1 {
      OpenUntilClose(states, steps, config, a, b - 1, i);
    }
    OnlyACloseCloses(states[b - 1], steps[b - 1], config, i);
    assert ClosesBetween(steps, a, b, i) <==> ClosesBetween(steps, a, b - 1, i) || (a < b - 1 && steps[b - 1] == Close(i)) by {
      if a < b - 1 && steps[b - 1] == Close(i) {
        assert ClosesBetween(steps, a, b, i);
      }
    }
  }

  lemma OnlyACloseCloses(s: State, st: Step, config: Config, i: nat)
    requires Enabled(s, st) && i in s.calls
    ensures i in Next(s, st, config).calls
    ensures Next(s, st, config).calls[i].frame.open <==> s.calls[i].frame.open && st != Close(i)
  {
    hide Join, Apply, Deliveries.Given, H.Step, H.Given, Attached, HandedOn, ClaimGiven;
  }

  /**
   * What the answer of a check means, at any later moment. Told that nothing carries its reminder, a
   * check ran on a host without the middleware. Told that something does, either it was its call's
   * own check: then the reminder is in the call's frame if and only if the frame did not close
   * between the question and the add (or had the reminder already). Or the reminder was put aside:
   * then it waits in the table, or is with the call that took it, or lapsed for one of three causes.
   */
  lemma RemindAnswers(states: seq<State>, steps: seq<Step>, config: Config, n: nat, c: nat) returns (a: nat, b: nat)
    requires Run(states, steps, config) && n < |states| && c in states[n].checks && states[n].checks[c].stage.Answered?
    ensures var s := states[n]; var k := s.checks[c];
      match k.stage.route
      case ByNone => !k.stage.told && !config.wraps
      case ByOwn =>
        && k.stage.told && a < b < n && steps[a] == AskOwns(c) && steps[b] == AddOwn(c) && k.frame.Some?
        && var i := k.frame.value;
           && i in states[b].calls && i in s.calls
           && (k.r in s.calls[i].frame.reminders <==>
                 !ClosesBetween(steps, a, b, i) || k.r in states[b].calls[i].frame.reminders)
      case ByTable(p) =>
        && k.stage.told && config.wraps && p < |s.table.puts| == |s.table.places| && s.table.puts[p] == k.r
        && match s.table.places[p]
           case Waiting(key) => H.Find(s.table.entries, key) != [] && k.r in H.Find(s.table.entries, key)[0].reminders
           case TakenBy(i) => i in s.calls && Has(s.calls[i], k.r)
                              && (!s.calls[i].frame.open ==> k.r in s.calls[i].frame.reminders)
           case Lapsed => a < n && LapsedAt(states, steps, config, a, p)
  {
    hide Next, Enabled, Inv, LapsedAt, CallGrows;
    var s, k := states[n], states[n].checks[c];
    AnswerFits(states, steps, config, n, c);
    a, b := 0, 0;
    match k.stage.route
    case ByNone =>
    case ByOwn =>
      b := OwnAddMoment(states, steps, config, n, c);
      a := AskMoment(states, steps, config, b, c);
      OwnReminderStays(states, steps, config, a, b, n, c);
    case ByTable(p) =>
      PutIsSomewhere(states, steps, config, n, p);
      if s.table.places[p] == H.Lapsed {
        a := LapseMoment(states, steps, config, n, p);
      }
  }

  lemma AnswerFits(states: seq<State>, steps: seq<Step>, config: Config, n: nat, c: nat)
    requires Run(states, steps, config) && n < |states| && c in states[n].checks
    ensures CheckOk(states[n], states[n].checks[c], config.wraps) && |states[n].table.places| == |states[n].table.puts|
  {
    hide Next, Enabled, H.TableOk, CheckOk, CallOk;
    RunKeepsInv(states, steps, config, n);
    PlacesMatchPuts(states[n].table);
  }

  lemma OwnReminderStays(states: seq<State>, steps: seq<Step>, config: Config, a: nat, b: nat, n: nat, c: nat)
    requires Run(states, steps, config) && a < b < n < |states| && steps[a] == AskOwns(c) && steps[b] == AddOwn(c)
    requires c in states[b].checks && states[b].checks[c].frame.Some? && states[b].checks[c].stage.AddingOwn?
    requires var i := states[b].checks[c].frame.value; i in states[a].calls && states[a].calls[i].frame.open
    ensures var i, r := states[b].checks[c].frame.value, states[b].checks[c].r;
      && i in states[b].calls && i in states[n].calls
      && (r in states[n].calls[i].frame.reminders <==>
            !ClosesBetween(steps, a, b, i) || r in states[b].calls[i].frame.reminders)
  {
    hide Next, CallGrows, ClosesBetween;
    var i, r := states[b].checks[c].frame.value, states[b].checks[c].r;
    OpenUntilClose(states, steps, config, a, b, i);
    AddIsKeptOrRefused(states, steps, config, b, n, i, r);
  }

  lemma PutIsSomewhere(states: seq<State>, steps: seq<Step>, config: Config, n: nat, p: nat)
    requires Run(states, steps, config) && n < |states| && p < |states[n].table.puts| == |states[n].table.places|
    ensures var s := states[n];
      match s.table.places[p]
      case Waiting(key) => H.Find(s.table.entries, key) != [] && s.table.puts[p] in H.Find(s.table.entries, key)[0].reminders
      case TakenBy(i) => i in s.calls && Has(s.calls[i], s.table.puts[p])
                         && (!s.calls[i].frame.open ==> s.table.puts[p] in s.calls[i].frame.reminders)
      case Lapsed => true
  {
    hide Next, Enabled, H.Find;
    RunKeepsInv(states, steps, config, n);
    assert PutArrives(states[n], p);
    assert H.WaitsInEntry(states[n].table, p);
    if states[n].table.places[p].TakenBy? {
      assert CallOk(states[n].calls[states[n].table.places[p].frame]);
    }
  }

  /** The step a call takes next, whatever the others do. */
  function OwnStep(i: nat, phase: Phase, now: int, outcome: Outcome): Step
    requires !phase.Done?
  {
    match phase
    case Opening => Look(i, now)
    case Joining(_) => JoinTaken(i)
    case Running => Return(i, outcome)
    case Returning(_) => Look(i, now)
    case JoiningLate(_, _) => JoinTaken(i)
    case Closing(_) => Close(i)
    case Closed(_) => Hand(i)
    case Claiming(_) => ClaimFor(i)
    case Attaching(_, _) => Attach(i)
  }

  /** The number of steps a call may still take. */
  function StepsLeft(phase: Phase): nat {
    match phase
    case Opening => 9
    case Joining(_) => 8
    case Running => 7
    case Returning(_) => 6
    case JoiningLate(_, _) => 5
    case Closing(_) => 4
    case Closed(_) => 3
    case Claiming(_) => 2
    case Attaching(_, _) => 1
    case Done(_, _) => 0
  }

  /** No call is ever stuck: it can always take its next step, and nine bring it to its end. */
  lemma CallsFinish(s: State, config: Config, i: nat, now: int, outcome: Outcome)
    requires i in s.calls && !s.calls[i].phase.Done?
    ensures var st := OwnStep(i, s.calls[i].phase, now, outcome);
      Enabled(s, st) && i in Next(s, st, config).calls
      && StepsLeft(Next(s, st, config).calls[i].phase) < StepsLeft(s.calls[i].phase)
  {
    hide Add, Apply, Deliveries.Given, H.Step, H.Given;
  }

  // ---- a run in which the answer is wrong ----

  /** One call and its own check: the check asks, the call returns and closes, the check adds. */
  datatype Scene = Scene(tool: string, callId: string, session: string, turn: string, key: H.CallKey, r: Reminder)

  const CAME_BACK := Returned(false, true, false)

  function SceneStep(x: Scene, k: nat): Step
    requires k < 10
  {
    [Open(0, x.tool, x.callId, None, x.session, x.turn, x.key), SkipLook(0), JoinTaken(0),
     Begin(0, Some(0), x.tool, x.callId, x.key, x.r), AskOwns(0),
     Return(0, CAME_BACK), SkipLook(0), JoinTaken(0), Close(0), AddOwn(0)][k]
  }

  function ScenePhase(k: nat): Phase {
    if k <= 1 then Opening
    else if k == 2 then Joining([])
    else if k <= 5 then Running
    else if k == 6 then Returning(CAME_BACK)
    else if k == 7 then JoiningLate([], CAME_BACK)
    else if k == 8 then Closing(CAME_BACK)
    else Closed(CAME_BACK)
  }

  function SceneCall(x: Scene, k: nat): Call {
    Call(Frame(x.tool, x.callId, k < 9, k >= 5, []), None, x.session, x.turn, x.key, ScenePhase(k))
  }

  function SceneCheck(x: Scene, k: nat): Check {
    Check(Some(0), x.tool, x.callId, x.key, x.r,
          if k <= 4 then Asking else if k < 10 then AddingOwn else Answered(true, ByOwn))
  }

  function SceneState(x: Scene, k: nat): State {
    State(if k == 0 then map[] else map[0 := SceneCall(x, k)],
          if k < 4 then map[] else map[0 := SceneCheck(x, k)], H.EMPTY_TABLE, EMPTY)
  }

  lemma SceneMoves(x: Scene, k: nat, config: Config)
    requires k < 10
    ensures Enabled(SceneState(x, k), SceneStep(x, k))
    ensures Next(SceneState(x, k), SceneStep(x, k), config) == SceneState(x, k + 1)
  {
  }

  /**
   * The answer can be wrong: in this run, from the start, a call's own check is told that its
   * reminder is carried, and the reminder is in no frame and was never put aside.
   */
  lemma OwnReminderCanMissItsFrame(x: Scene, config: Config) returns (states: seq<State>, steps: seq<Step>)
    ensures Run(states, steps, config)
    ensures var s := states[|states| - 1];
      && 0 in s.checks && s.checks[0].stage == Answered(true, ByOwn) && s.checks[0].r == x.r
      && (forall i <- s.calls.Keys :: x.r !in s.calls[i].frame.reminders)
      && s.table.puts == []
  {
    hide Next, Enabled;
    states := seq(11, k requires 0 <= k < 11 => SceneState(x, k));
    steps := seq(10, k requires 0 <= k < 10 => SceneStep(x, k));
    forall k | 0 <= k < 10
      ensures Enabled(states[k], steps[k]) && states[k + 1] == Next(states[k], steps[k], config)
    {
      SceneMoves(x, k, config);
    }
  }
}
