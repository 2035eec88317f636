/** What becomes of every reminder, over all runs of the checks and calls. */
module ReminderRuns {
  import opened Deliveries
  import opened ReminderFrames
  import opened Reminders
  import H = Handoff

  // ---- who carries a reminder ----

  /** Call `i` carries, or is about to carry, the reminder of `k`. */
  predicate Carries(s: State, i: nat, k: Key) {
    && i in s.calls && (s.calls[i].session, s.calls[i].turn) == (k.session, k.turn)
    && match s.calls[i].phase
       case Attaching(given, _) => k.reminder in given
       case Done(Annotated(given, _, _), _) => k.reminder in given
       case _ => false
  }

  /** Unless the limit ever pushed the key out, it is on record while a call carries it, and
      only one call does. */
  ghost predicate OneCarrier(s: State, k: Key) {
    InTurn(k.session, k.turn) && k !in s.record.evicted ==>
      && (forall i :: Carries(s, i, k) ==> k in s.record.seen)
      && (forall i, j :: Carries(s, i, k) && Carries(s, j, k) ==> i == j)
  }

  /** A key on record belongs to a turn, and some call carries its reminder. */
  ghost predicate Carried(s: State, k: Key) {
    InTurn(k.session, k.turn) && exists j :: Carries(s, j, k)
  }

  ghost predicate SeenIsCarried(s: State) {
    forall k <- s.record.seen :: Carried(s, k)
  }

  lemma KeyIn(session: string, turn: string, reminders: seq<Reminder>, k: Key)
    ensures k in KeysFor(session, turn, reminders) <==> (k.session, k.turn) == (session, turn) && k.reminder in reminders
  {
    var keys := KeysFor(session, turn, reminders);
    if k.reminder in reminders {
      var p :| 0 <= p < |reminders| && reminders[p] == k.reminder;
      assert keys[p] == Key(session, turn, k.reminder);
    }
  }

  /** The attach of a call whose result can carry nothing. */
  predicate GivesBack(s: State, st: Step)
    requires Enabled(s, st)
  {
    st.Attach? && !Attached(s.calls[st.i]).phase.fate.Annotated?
  }

  lemma CarriesBefore(s: State, st: Step, config: Config, j: nat, k: Key)
    requires Enabled(s, st) && Carries(Next(s, st, config), j, k)
    ensures Carries(s, j, k) || st == ClaimFor(j)
    ensures !(st == Attach(j) && GivesBack(s, st))
  {
    hide Add, Apply, Deliveries.Given, H.Step, H.Given;
  }

  lemma CarriesAfter(s: State, st: Step, config: Config, j: nat, k: Key)
    requires Enabled(s, st) && Carries(s, j, k) && !(st == Attach(j) && GivesBack(s, st))
    ensures Carries(Next(s, st, config), j, k)
  {
    hide Add, Apply, Deliveries.Given, H.Step, H.Given;
  }

  lemma RecordUnmoved(s: State, st: Step, config: Config)
    requires Enabled(s, st) && !st.ClaimFor? && !GivesBack(s, st)
    ensures Next(s, st, config).record == s.record
  {
    hide Add, Apply, Deliveries.Given, H.Step, H.Given;
  }

  lemma RecordAfterClaim(s: State, i: nat, config: Config)
    requires Enabled(s, ClaimFor(i))
    ensures Next(s, ClaimFor(i), config).record == Apply(s.record, ClaimOf(s.calls[i]), config.limit)
  {
    hide Apply, Deliveries.Given;
  }

  lemma RecordAfterRelease(s: State, i: nat, config: Config)
    requires Enabled(s, Attach(i)) && GivesBack(s, Attach(i))
    ensures var c := s.calls[i];
      && Next(s, Attach(i), config).record == Apply(s.record, Release(c.session, c.turn, c.phase.given), config.limit)
      && Next(s, Attach(i), config).record.evicted == s.record.evicted
      && forall k :: k in Next(s, Attach(i), config).record.seen <==>
           k in s.record.seen && !(InTurn(c.session, c.turn) && k in KeysFor(c.session, c.turn, c.phase.given))
  {
    hide KeysFor, DropEach;
    var c := s.calls[i];
    if InTurn(c.session, c.turn) {
      ReleaseMembers(s.record, c.session, c.turn, c.phase.given, config.limit);
    }
  }

  lemma ClaimCarries(s: State, i: nat, config: Config, k: Key)
    requires Enabled(s, ClaimFor(i))
    requires k in KeysFor(s.calls[i].session, s.calls[i].turn, Deliveries.Given(s.record, ClaimOf(s.calls[i])))
    ensures Carries(Next(s, ClaimFor(i), config), i, k)
  {
    hide Apply, Deliveries.Given, KeysFor;
    KeyIn(s.calls[i].session, s.calls[i].turn, Deliveries.Given(s.record, ClaimOf(s.calls[i])), k);
  }

  lemma ClaimLeaves(s: State, i: nat, config: Config)
    requires Enabled(s, ClaimFor(i))
    ensures var c := s.calls[i];
      var keys := KeysFor(c.session, c.turn, Deliveries.Given(s.record, ClaimOf(c)));
      var after := Next(s, ClaimFor(i), config).record;
      && s.record.evicted <= after.evicted
      && (forall k <- after.seen :: k in s.record.seen || (InTurn(c.session, c.turn) && k in keys))
      && (forall k <- s.record.seen :: k in after.seen || k in after.evicted)
      && (InTurn(c.session, c.turn) ==> forall k <- keys :: k !in s.record.seen && (k in after.seen || k in after.evicted))
  {
    hide KeysFor, Fresh, Apply;
    var c := s.calls[i];
    RecordAfterClaim(s, i, config);
    ClaimMembers(s.record, c.session, c.turn, c.frame.reminders, config.limit);
    if InTurn(c.session, c.turn) {
      var given := Deliveries.Given(s.record, ClaimOf(c));
      forall k <- KeysFor(c.session, c.turn, given)
        ensures k !in s.record.seen
      {
        KeyIn(c.session, c.turn, given, k);
      }
    } else {
      OutsideATurn(s.record, ClaimOf(c), config.limit);
    }
  }

  lemma SeenStaysCarried(s: State, st: Step, config: Config)
    requires Enabled(s, st) && SeenIsCarried(s)
    ensures SeenIsCarried(Next(s, st, config))
  {
    hide Next, Enabled, KeysFor, Carries, Attached, Apply, Deliveries.Given;
    var s' := Next(s, st, config);
    forall k | k in s'.record.seen
      ensures Carried(s', k)
    {
      if st.ClaimFor? {
        ClaimLeaves(s, st.i, config);
        CarriedAfterClaim(s, st.i, config, k);
      } else if GivesBack(s, st) {
        CarriedAfterRelease(s, st.i, config, k);
      } else {
        RecordUnmoved(s, st, config);
        assert Carried(s, k);
        var j :| Carries(s, j, k);
        CarriesAfter(s, st, config, j, k);
      }
    }
  }

  lemma CarriedAfterClaim(s: State, i: nat, config: Config, k: Key)
    requires Enabled(s, ClaimFor(i)) && SeenIsCarried(s) && k in Next(s, ClaimFor(i), config).record.seen
    ensures Carried(Next(s, ClaimFor(i), config), k)
  {
    hide Next, KeysFor, Carries, Deliveries.Given, Apply;
    ClaimLeaves(s, i, config);
    if k in s.record.seen {
      assert Carried(s, k);
      var j :| Carries(s, j, k);
      CarriesAfter(s, ClaimFor(i), config, j, k);
    } else {
      ClaimCarries(s, i, config, k);
      KeyIn(s.calls[i].session, s.calls[i].turn, Deliveries.Given(s.record, ClaimOf(s.calls[i])), k);
    }
  }

  lemma CarriedAfterRelease(s: State, i: nat, config: Config, k: Key)
    requires Enabled(s, Attach(i)) && GivesBack(s, Attach(i))
    requires SeenIsCarried(s) && k in Next(s, Attach(i), config).record.seen
    ensures Carried(Next(s, Attach(i), config), k)
  {
    hide Next, KeysFor, Deliveries.Given, Apply;
    RecordAfterRelease(s, i, config);
    assert Carried(s, k);
    var j :| Carries(s, j, k);
    KeyIn(s.calls[i].session, s.calls[i].turn, s.calls[i].phase.given, k);
    CarriesAfter(s, Attach(i), config, j, k);
  }

  lemma OneCarrierStays(s: State, st: Step, config: Config, k: Key)
    requires Enabled(s, st) && OneCarrier(s, k)
    ensures OneCarrier(Next(s, st, config), k)
  {
    hide Next, Enabled, KeysFor, Carries, Attached, Apply, Deliveries.Given;
    var s' := Next(s, st, config);
    forall j | Carries(s', j, k)
      ensures (Carries(s, j, k) || st == ClaimFor(j)) && !(st == Attach(j) && GivesBack(s, st))
    {
      CarriesBefore(s, st, config, j, k);
    }
    if st.ClaimFor? {
      OneCarrierAfterClaim(s, st.i, config, k);
    } else if GivesBack(s, st) {
      OneCarrierAfterRelease(s, st.i, config, k);
    } else {
      RecordUnmoved(s, st, config);
    }
  }

  lemma OneCarrierAfterClaim(s: State, i: nat, config: Config, k: Key)
    requires Enabled(s, ClaimFor(i)) && OneCarrier(s, k)
    ensures OneCarrier(Next(s, ClaimFor(i), config), k)
  {
    hide Next, KeysFor, Deliveries.Given, Apply, Enabled, ClaimOf, Carries;
    var s' := Next(s, ClaimFor(i), config);
    ClaimLeaves(s, i, config);
    forall j | Carries(s', j, k)
      ensures Carries(s, j, k) || j == i
    {
      CarriesBefore(s, ClaimFor(i), config, j, k);
    }
    NotYetCarrying(s, i, config, k);
  }

  lemma NotYetCarrying(s: State, i: nat, config: Config, k: Key)
    requires Enabled(s, ClaimFor(i))
    ensures !Carries(s, i, k)
    ensures Carries(Next(s, ClaimFor(i), config), i, k) ==>
      k in KeysFor(s.calls[i].session, s.calls[i].turn, Deliveries.Given(s.record, ClaimOf(s.calls[i])))
      && (k.session, k.turn) == (s.calls[i].session, s.calls[i].turn)
  {
    hide KeysFor, Deliveries.Given, Apply;
    KeyIn(s.calls[i].session, s.calls[i].turn, Deliveries.Given(s.record, ClaimOf(s.calls[i])), k);
  }

  lemma OneCarrierAfterRelease(s: State, i: nat, config: Config, k: Key)
    requires Enabled(s, Attach(i)) && GivesBack(s, Attach(i)) && OneCarrier(s, k)
    ensures OneCarrier(Next(s, Attach(i), config), k)
  {
    hide Next, KeysFor, Deliveries.Given, Apply, Attached;
    var s', c := Next(s, Attach(i), config), s.calls[i];
    RecordAfterRelease(s, i, config);
    KeyIn(c.session, c.turn, c.phase.given, k);
    forall j | Carries(s', j, k)
      ensures Carries(s, j, k) && j != i
    {
      CarriesBefore(s, Attach(i), config, j, k);
    }
    assert k in KeysFor(c.session, c.turn, c.phase.given) ==> Carries(s, i, k);
  }

  // ---- whole runs ----

  ghost predicate Inv(s: State, config: Config) {
    && (forall j <- s.calls.Keys :: CallOk(s.calls[j]))
    && (forall j <- s.calls.Keys :: WentToParent(s.calls[j]) ==> TakenUp(s, s.calls[j]))
    && (forall c <- s.checks.Keys :: CheckOk(s, s.checks[c], config.wraps))
    && TableArrives(s)
    && RecordOk(s.record, config.limit)
    && SeenIsCarried(s)
    && (forall k :: OneCarrier(s, k))
  }

  lemma CallsStayOk(s: State, st: Step, config: Config)
    requires Enabled(s, st) && forall j <- s.calls.Keys :: CallOk(s.calls[j])
    requires forall j <- s.calls.Keys :: WentToParent(s.calls[j]) ==> TakenUp(s, s.calls[j])
    ensures var s' := Next(s, st, config);
      && (forall j <- s'.calls.Keys :: CallOk(s'.calls[j]))
      && (forall j <- s'.calls.Keys :: WentToParent(s'.calls[j]) ==> TakenUp(s', s'.calls[j]))
  {
    hide Next, Enabled, TakenUp, CallOk, WentToParent;
    var s' := Next(s, st, config);
    forall j <- s'.calls.Keys
      ensures CallOk(s'.calls[j]) && (WentToParent(s'.calls[j]) ==> TakenUp(s', s'.calls[j]))
    {
      if j in s.calls {
        CallsMove(s, st, config, j);
        if WentToParent(s'.calls[j]) {
          StaysTakenUp(s, st, config, j);
        }
      } else {
        NewCallIsOk(s, st, config, j);
      }
    }
  }

  lemma NewCallIsOk(s: State, st: Step, config: Config, j: nat)
    requires Enabled(s, st) && j !in s.calls && j in Next(s, st, config).calls
    ensures CallOk(Next(s, st, config).calls[j]) && !WentToParent(Next(s, st, config).calls[j])
    ensures Next(s, st, config).calls[j].phase == Opening
  {
    hide Add, Apply, Deliveries.Given, H.Step, H.Given, Attached, ClaimGiven, Joined, Added;
  }

  lemma RecordStaysOk(s: State, st: Step, config: Config)
    requires Enabled(s, st) && RecordOk(s.record, config.limit)
    ensures RecordOk(Next(s, st, config).record, config.limit)
  {
    hide Next, Apply, RecordOk, Attached;
    if st.ClaimFor? {
      RecordAfterClaim(s, st.i, config);
      ApplyOk(s.record, ClaimOf(s.calls[st.i]), config.limit);
    } else if GivesBack(s, st) {
      var c := s.calls[st.i];
      RecordAfterRelease(s, st.i, config);
      ApplyOk(s.record, Release(c.session, c.turn, c.phase.given), config.limit);
    } else {
      RecordUnmoved(s, st, config);
    }
  }

  lemma InvStep(s: State, st: Step, config: Config)
    requires Enabled(s, st) && Inv(s, config)
    ensures Inv(Next(s, st, config), config)
  {
    hide CallOk, TakenUp, WentToParent, CheckOk, TableArrives, RecordOk, SeenIsCarried, OneCarrier, Next, Enabled;
    CallsStayOk(s, st, config);
    TableKeepsArriving(s, st, config);
    SeenStaysCarried(s, st, config);
    RecordStaysOk(s, st, config);
    forall c <- Next(s, st, config).checks.Keys
      ensures CheckOk(Next(s, st, config), Next(s, st, config).checks[c], config.wraps)
    {
      ChecksStayOk(s, st, config, c);
    }
    forall k
      ensures OneCarrier(Next(s, st, config), k)
    {
      OneCarrierStays(s, st, config, k);
    }
  }

  lemma InvStart(config: Config)
    ensures Inv(START, config)
  {
  }

  /** Any interleaving of the threads' steps. */
  ghost predicate Run(states: seq<State>, steps: seq<Step>, config: Config) {
    && |states| == |steps| + 1 && states[0] == START
    && forall n :: 0 <= n < |steps| ==> Enabled(states[n], steps[n]) && states[n + 1] == Next(states[n], steps[n], config)
  }

  lemma {:induction false} RunKeepsInv(states: seq<State>, steps: seq<Step>, config: Config, n: nat)
    requires Run(states, steps, config) && n < |states|
    ensures Inv(states[n], config)
  {
    hide Inv, Next, Enabled;
    if n == 0 {
      InvStart(config);
    } else {
      RunKeepsInv(states, steps, config, n - 1);
      InvStep(states[n - 1], steps[n - 1], config);
    }
  }

  /** However the calls interleave, the record never exceeds its limit. */
  lemma {:induction false} RunRecordIsBounded(states: seq<State>, steps: seq<Step>, config: Config, n: nat)
    requires Run(states, steps, config) && n < |states|
    ensures |states[n].record.seen| <= config.limit
  {
    hide Next, Enabled, Apply;
    if n > 0 {
      RunRecordIsBounded(states, steps, config, n - 1);
      RecordStaysBounded(states[n - 1], steps[n - 1], config);
    }
  }

  lemma RecordStaysBounded(s: State, st: Step, config: Config)
    requires Enabled(s, st) && |s.record.seen| <= config.limit
    ensures |Next(s, st, config).record.seen| <= config.limit
  {
    hide Next, Apply, Attached;
    if st.ClaimFor? {
      RecordAfterClaim(s, st.i, config);
      ApplyIsBounded(s.record, ClaimOf(s.calls[st.i]), config.limit);
    } else if GivesBack(s, st) {
      var c := s.calls[st.i];
      RecordAfterRelease(s, st.i, config);
      ApplyIsBounded(s.record, Release(c.session, c.turn, c.phase.given), config.limit);
    } else {
      RecordUnmoved(s, st, config);
    }
  }

  /** A call from one moment of a run to a later one. */
  lemma {:induction false} CallLater(states: seq<State>, steps: seq<Step>, config: Config, m: nat, n: nat, i: nat)
    requires Run(states, steps, config) && m <= n < |states| && i in states[m].calls
    ensures i in states[n].calls && CallGrows(states[m].calls[i], states[n].calls[i])
    decreases n
  {
    hide Next, Enabled, CallGrows;
    if m == n {
      CallStands(states[m].calls[i]);
    } else {
      CallLater(states, steps, config, m, n - 1, i);
      CallsMove(states[n - 1], steps[n - 1], config, i);
      CallGrowsOnward(states[m].calls[i], states[n - 1].calls[i], states[n].calls[i]);
    }
  }

  lemma CallStands(c: Call)
    ensures CallGrows(c, c)
  {
  }

  lemma CallGrowsOnward(a: Call, b: Call, c: Call)
    requires CallGrows(a, b) && CallGrows(b, c)
    ensures CallGrows(a, c)
  {
    hide Shown;
  }

  /** The step at which a call made its claim. */
  lemma {:induction false} ClaimMoment(states: seq<State>, steps: seq<Step>, config: Config, n: nat, i: nat) returns (q: nat)
    requires Run(states, steps, config) && n < |states| && i in states[n].calls && HasClaimed(states[n].calls[i].phase)
    ensures q < n && steps[q] == ClaimFor(i) && i in states[q].calls && i in states[q + 1].calls
    ensures states[q].calls[i].phase.Claiming? && states[q].calls[i].frame == states[n].calls[i].frame
    ensures states[q + 1].calls[i] == ClaimGiven(states[q].calls[i], Deliveries.Given(states[q].record, ClaimOf(states[q].calls[i])))
    ensures states[q].calls[i].session == states[n].calls[i].session && states[q].calls[i].turn == states[n].calls[i].turn
    decreases n
  {
    hide Next, Enabled, CallGrows, ClaimGiven, Inv;
    if n == 0 {
      assert false;
    } else if i in states[n - 1].calls && HasClaimed(states[n - 1].calls[i].phase) {
      q := ClaimMoment(states, steps, config, n - 1, i);
      RunKeepsInv(states, steps, config, n - 1);
      ClosedFrameStays(states[n - 1], steps[n - 1], config, i);
    } else {
      q := n - 1;
      OnlyAClaimClaims(states[q], steps[q], config, i);
    }
  }

  /** Past the claim: its reminders were given to the call, or were all seen. */
  predicate HasClaimed(phase: Phase) {
    phase.Attaching? || (phase.Done? && (phase.fate.AllSeen? || phase.fate.Annotated? || phase.fate.NoCarrier?))
  }

  lemma ClosedFrameStays(s: State, st: Step, config: Config, i: nat)
    requires Enabled(s, st) && Inv(s, config) && i in s.calls && HasClaimed(s.calls[i].phase)
    ensures var c := s.calls[i];
      && i in Next(s, st, config).calls && Next(s, st, config).calls[i].frame == c.frame
      && Next(s, st, config).calls[i].session == c.session && Next(s, st, config).calls[i].turn == c.turn
  {
    hide Next, Enabled;
    CallsMove(s, st, config, i);
    assert CallOk(s.calls[i]);
  }

  lemma OnlyAClaimClaims(s: State, st: Step, config: Config, i: nat)
    requires Enabled(s, st) && i in Next(s, st, config).calls && HasClaimed(Next(s, st, config).calls[i].phase)
    requires i in s.calls ==> !HasClaimed(s.calls[i].phase)
    ensures st == ClaimFor(i) && i in s.calls && s.calls[i].phase.Claiming?
    ensures Next(s, st, config).calls[i] == ClaimGiven(s.calls[i], Deliveries.Given(s.record, ClaimOf(s.calls[i])))
    ensures Next(s, st, config).calls[i].frame == s.calls[i].frame
    ensures Next(s, st, config).calls[i].session == s.calls[i].session
    ensures Next(s, st, config).calls[i].turn == s.calls[i].turn
  {
    hide Add, Apply, Deliveries.Given, H.Step, H.Given;
  }
}
