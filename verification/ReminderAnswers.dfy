/** How a check's reminder is queued, over all runs: on its call's own frame, put aside, or put aside and on the outer frame too. */
module ReminderAnswers {
  import opened Deliveries
  import opened ReminderFrames
  import opened Reminders
  import opened ReminderRuns
  import opened ReminderResults
  import opened HandoffExact
  import H = Handoff

  // ---- how one check can move ----

  /** What the check began with. */
  predicate SameCheck(k: Check, k': Check) {
    k' == k.(stage := k'.stage)
  }

  lemma CheckSteps(s: State, st: Step, config: Config, c: nat)
    requires Enabled(s, st) && c in s.checks
    ensures c in Next(s, st, config).checks && SameCheck(s.checks[c], Next(s, st, config).checks[c])
    ensures var k, k' := s.checks[c], Next(s, st, config).checks[c];
      k'.stage != k.stage ==>
        || (k.stage.Asking? && st == AskOwns(c) && (k'.stage.AddingOwn? || k'.stage.Unowned?))
        || (k.stage.AddingOwn? && st == AddOwn(c) && k'.stage == Answered(true, ByOwn))
        || (k.stage.Unowned? && st.PutAside? && st.c == c && !config.wraps && k'.stage == Answered(false, ByNone))
        || (k.stage.Unowned? && st.PutAside? && st.c == c && config.wraps && Programmatic(k)
            && k'.stage == AddingOuter(|s.table.puts|))
        || (k.stage.Unowned? && st.PutAside? && st.c == c && config.wraps && !Programmatic(k)
            && k'.stage == Answered(true, ByTable(|s.table.puts|)))
        || (k.stage.AddingOuter? && st == AddOuter(c) && k'.stage == Answered(true, ByTable(k.stage.put)))
  {
    hide Add, Apply, Deliveries.Given, H.Step, H.Given, Attached, HandedOn, ClaimGiven, Joined, Added;
  }

  /** A call without an id, made by a script inside a call whose frame is open. */
  predicate Programmatic(k: Check) {
    k.frame.Some? && k.callId == ""
  }

  lemma NewCheckBegins(s: State, st: Step, config: Config, c: nat)
    requires Enabled(s, st) && c !in s.checks && c in Next(s, st, config).checks
    ensures st.Begin? && st.c == c && BeganAs(Next(s, st, config).checks[c], s, st)
    ensures Next(s, st, config).checks[c].stage == if Next(s, st, config).checks[c].frame.Some? then Asking else Unowned
  {
    hide Add, Apply, Deliveries.Given, H.Step, H.Given, Attached, HandedOn, ClaimGiven, Joined, Added;
  }

  /** The check is what its first step names; its frame is the innermost one if that is open. */
  predicate BeganAs(k: Check, s: State, st: Step) {
    && st.Begin? && (k.tool, k.callId, k.key, k.r) == (st.tool, st.callId, st.key, st.r)
    && k.frame == if st.frame.Some? && st.frame.value in s.calls && s.calls[st.frame.value].frame.open then st.frame else None
  }

  lemma {:induction false} BeginMoment(states: seq<State>, steps: seq<Step>, config: Config, n: nat, c: nat) returns (m: nat)
    requires Run(states, steps, config) && n < |states| && c in states[n].checks
    ensures m < n && steps[m].Begin? && steps[m].c == c && BeganAs(states[n].checks[c], states[m], steps[m])
    decreases n
  {
    hide Next, Enabled;
    if n == 0 {
      assert false;
    } else if c in states[n - 1].checks {
      m := BeginMoment(states, steps, config, n - 1, c);
      CheckSteps(states[n - 1], steps[n - 1], config, c);
    } else {
      m := n - 1;
      NewCheckBegins(states[m], steps[m], config, c);
    }
  }

  lemma {:induction false} CheckLater(states: seq<State>, steps: seq<Step>, config: Config, m: nat, n: nat, c: nat)
    requires Run(states, steps, config) && m <= n < |states| && c in states[m].checks
    ensures c in states[n].checks && SameCheck(states[m].checks[c], states[n].checks[c])
    ensures states[m].checks[c].stage.Answered? ==> states[n].checks[c] == states[m].checks[c]
    decreases n
  {
    hide Next, Enabled;
    if m < n {
      CheckLater(states, steps, config, m, n - 1, c);
      CheckSteps(states[n - 1], steps[n - 1], config, c);
    }
  }

  // ---- put aside, and on the outer frame too ----

  /** The put of a check. */
  lemma {:induction false} PutMoment(states: seq<State>, steps: seq<Step>, config: Config, n: nat, c: nat) returns (a: nat)
    requires Run(states, steps, config) && n < |states| && c in states[n].checks && PutOf(states[n].checks[c].stage).Some?
    ensures a < n && steps[a].PutAside? && steps[a].c == c && config.wraps
    ensures c in states[a].checks && states[a].checks[c].stage.Unowned?
    ensures PutOf(states[n].checks[c].stage).value == |states[a].table.puts|
    ensures states[n].checks[c].stage.AddingOuter? ==> Programmatic(states[n].checks[c])
    decreases n
  {
    hide Next, Enabled;
    if n == 0 {
      assert false;
    } else if c in states[n - 1].checks {
      CheckSteps(states[n - 1], steps[n - 1], config, c);
      if PutOf(states[n - 1].checks[c].stage).Some? {
        a := PutMoment(states, steps, config, n - 1, c);
      } else {
        a := n - 1;
      }
    } else {
      NewCheckBegins(states[n - 1], steps[n - 1], config, c);
      assert false;
    }
  }

  /** The outer add of a check that had one to make. */
  lemma {:induction false} OuterMoment(states: seq<State>, steps: seq<Step>, config: Config, n: nat, c: nat) returns (b: nat)
    requires Run(states, steps, config) && n < |states| && c in states[n].checks && Programmatic(states[n].checks[c])
    requires states[n].checks[c].stage.Answered? && states[n].checks[c].stage.route.ByTable?
    ensures b < n && steps[b] == AddOuter(c) && c in states[b].checks && SameCheck(states[b].checks[c], states[n].checks[c])
    ensures states[b].checks[c].stage == AddingOuter(states[n].checks[c].stage.route.put)
    decreases n
  {
    hide Next, Enabled;
    if n == 0 {
      assert false;
    } else if c in states[n - 1].checks {
      CheckSteps(states[n - 1], steps[n - 1], config, c);
      if states[n - 1].checks[c].stage.Answered? {
        b := OuterMoment(states, steps, config, n - 1, c);
      } else {
        b := n - 1;
      }
    } else {
      NewCheckBegins(states[n - 1], steps[n - 1], config, c);
      assert false;
    }
  }

  /** A check that puts its reminder aside and has no outer frame to add to makes no add at all. */
  lemma NoAddBeside(states: seq<State>, steps: seq<Step>, config: Config, n: nat, c: nat, m: nat)
    requires Run(states, steps, config) && m < n < |states| && c in states[n].checks && !Programmatic(states[n].checks[c])
    requires states[n].checks[c].stage.Answered? && states[n].checks[c].stage.route.ByTable?
    ensures steps[m] != AddOuter(c) && steps[m] != AddOwn(c)
  {
    hide Next, Inv;
    if steps[m] == AddOuter(c) || steps[m] == AddOwn(c) {
      assert Enabled(states[m], steps[m]);
      AddAnswers(states[m], steps[m], config, c);
      CheckLater(states, steps, config, m, n, c);
      CheckLater(states, steps, config, m + 1, n, c);
      if steps[m] == AddOuter(c) {
        var _ := PutMoment(states, steps, config, m, c);
      }
      assert false;
    }
  }

  lemma AddAnswers(s: State, st: Step, config: Config, c: nat)
    requires Enabled(s, st) && (st == AddOuter(c) || st == AddOwn(c))
    ensures c in s.checks && c in Next(s, st, config).checks && Next(s, st, config).checks[c].stage.Answered?
    ensures st == AddOwn(c) ==> Next(s, st, config).checks[c].stage.route == ByOwn
    ensures st == AddOuter(c) ==> s.checks[c].stage.AddingOuter?
  {
    hide Add;
  }

  /**
   * A reminder put aside for a call without an id, inside a call whose frame was open, is also added to
   * that outer frame before the check is answered: from then on the outer call has it if and only if
   * its frame was still open then, or had it already. A call with an id, or outside any open frame,
   * is put aside and nothing more.
   */
  lemma OuterCallCarriesItToo(states: seq<State>, steps: seq<Step>, config: Config, n: nat, c: nat) returns (a: nat, b: nat)
    requires Run(states, steps, config) && n < |states| && c in states[n].checks
    requires states[n].checks[c].stage.Answered? && states[n].checks[c].stage.route.ByTable?
    ensures var k := states[n].checks[c];
      && a < n && steps[a].PutAside? && steps[a].c == c && config.wraps && k.stage.route.put == |states[a].table.puts|
      && if k.frame.Some? && k.callId == "" then
           && a < b < n && steps[b] == AddOuter(c)
           && var i := k.frame.value;
              && i in states[b].calls && i in states[n].calls
              && (k.r in states[n].calls[i].frame.reminders <==>
                    states[b].calls[i].frame.open || k.r in states[b].calls[i].frame.reminders)
         else forall m :: 0 <= m < n ==> steps[m] != AddOuter(c) && steps[m] != AddOwn(c)
  {
    hide Next, Enabled, Inv;
    var k := states[n].checks[c];
    b := 0;
    if Programmatic(k) {
      b := OuterMoment(states, steps, config, n, c);
      a := PutMoment(states, steps, config, b, c);
      OuterAddIsAnAdd(states[b], c);
      AddIsKeptOrRefused(states, steps, config, b, n, k.frame.value, k.r);
    } else {
      a := PutMoment(states, steps, config, n, c);
      forall m | 0 <= m < n
        ensures steps[m] != AddOuter(c) && steps[m] != AddOwn(c)
      {
        NoAddBeside(states, steps, config, n, c, m);
      }
    }
  }

  lemma OuterAddIsAnAdd(s: State, c: nat)
    requires Enabled(s, AddOuter(c))
    ensures s.checks[c].frame.Some? && s.checks[c].frame.value in s.calls
    ensures AddsTo(s, AddOuter(c), s.checks[c].frame.value, s.checks[c].r)
  {
  }

  // ---- under whose key ----

  /** Put `p` waits under the key, or lapsed, or was taken by a call of that key. */
  predicate KeyedPlace(s: State, p: nat, key: H.CallKey) {
    && p < |s.table.places|
    && match s.table.places[p]
       case Waiting(k) => k == key
       case TakenBy(i) => i in s.calls && s.calls[i].key == key
       case Lapsed => true
  }

  lemma TakerHasTheKey(s: State, st: Step, config: Config, p: nat, key: H.CallKey)
    requires Enabled(s, st) && KeyedPlace(s, p, key)
    ensures KeyedPlace(Next(s, st, config), p, key)
  {
    hide Next, Enabled, H.Given, H.Put, H.Take;
    TableFollows(s, st, config);
    if s.table.places[p].TakenBy? {
      CallsMove(s, st, config, s.table.places[p].frame);
    } else if st.Look? {
      LookerStays(s, st, config);
    }
  }

  lemma LookerStays(s: State, st: Step, config: Config)
    requires Enabled(s, st) && st.Look?
    ensures st.i in s.calls && st.i in Next(s, st, config).calls && Next(s, st, config).calls[st.i].key == s.calls[st.i].key
  {
    hide H.Step, H.Given;
  }

  lemma {:induction false} KeyedOn(states: seq<State>, steps: seq<Step>, config: Config, m: nat, n: nat, p: nat, key: H.CallKey)
    requires Run(states, steps, config) && m <= n < |states| && KeyedPlace(states[m], p, key)
    ensures KeyedPlace(states[n], p, key)
    decreases n
  {
    hide Next, Enabled, KeyedPlace;
    if m < n {
      KeyedOn(states, steps, config, m, n - 1, p, key);
      TakerHasTheKey(states[n - 1], steps[n - 1], config, p, key);
    }
  }

  lemma PutStartsUnderItsKey(s: State, config: Config, c: nat, now: int)
    requires Enabled(s, PutAside(c, now)) && config.wraps && |s.table.places| == |s.table.puts|
    ensures KeyedPlace(Next(s, PutAside(c, now), config), |s.table.puts|, s.checks[c].key)
  {
    hide H.Put;
  }

  /** A reminder put aside waits under the key of its check's call, and only a call of that key ever takes it. */
  lemma PutAsideForItsCall(states: seq<State>, steps: seq<Step>, config: Config, n: nat, c: nat)
    requires Run(states, steps, config) && n < |states| && c in states[n].checks && PutOf(states[n].checks[c].stage).Some?
    ensures var s, k := states[n], states[n].checks[c]; var p := PutOf(k.stage).value;
      && p < |s.table.places|
      && match s.table.places[p]
         case Waiting(key) => key == k.key
         case TakenBy(i) => i in s.calls && s.calls[i].key == k.key
         case Lapsed => true
  {
    hide Next, Enabled, Inv;
    var a := PutMoment(states, steps, config, n, c);
    AnswerFits(states, steps, config, a, c);
    CheckLater(states, steps, config, a, n, c);
    assert Enabled(states[a], steps[a]) && states[a + 1] == Next(states[a], steps[a], config);
    PutStartsUnderItsKey(states[a], config, c, steps[a].now);
    KeyedOn(states, steps, config, a + 1, n, |states[a].table.puts|, states[n].checks[c].key);
  }

  /** A later verdict on the same call that is no reminder discards what waits under its key, and nothing else. */
  lemma OtherVerdictDiscards(states: seq<State>, steps: seq<Step>, config: Config, m: nat, key: H.CallKey)
    requires Run(states, steps, config) && m < |steps| && steps[m].DropAside? && steps[m].key == key
    ensures var before, after := states[m].table.entries, states[m + 1].table.entries;
      (forall e :: e in after <==> e in before && e.key != key) && ListedAs(after, before)
  {
    hide Next, Inv, ListedAs, H.Take;
    RunKeepsInv(states, steps, config, m);
    TableFollows(states[m], steps[m], config);
    EntriesDiffer(states[m], config);
    TakeExactly(states[m].table.entries, key, steps[m].now);
  }

  lemma EntriesDiffer(s: State, config: Config)
    requires Inv(s, config)
    ensures H.DistinctKeys(s.table.entries)
  {
  }

  // ---- whose own check it is ----

  /** Step `m` asks, for call `i`, on behalf of a check that names its tool and id. */
  predicate AsksByName(s: State, st: Step, i: nat) {
    && st.AskOwns? && Enabled(s, st) && s.checks[st.c].frame == Some(i)
    && (s.checks[st.c].tool, s.checks[st.c].callId) == (s.calls[i].frame.tool, s.calls[i].frame.callId)
  }

  ghost predicate AskedByName(states: seq<State>, steps: seq<Step>, n: nat, i: nat)
    requires n <= |steps| < |states|
  {
    exists m :: 0 <= m < n && AsksByName(states[m], steps[m], i)
  }

  lemma CheckedSteps(s: State, st: Step, config: Config, i: nat)
    requires Enabled(s, st) && i in s.calls && s.calls[i].frame.open
    ensures i in Next(s, st, config).calls
    ensures Next(s, st, config).calls[i].frame.open ==>
      (Next(s, st, config).calls[i].frame.checked <==> s.calls[i].frame.checked || AsksByName(s, st, i))
    ensures var f, f' := s.calls[i].frame, Next(s, st, config).calls[i].frame; (f'.tool, f'.callId) == (f.tool, f.callId)
  {
    hide Join, Apply, Deliveries.Given, H.Step, H.Given, Attached, ClaimGiven;
  }

  lemma NewCallIsUnchecked(s: State, st: Step, config: Config, i: nat)
    requires Enabled(s, st) && i !in s.calls && i in Next(s, st, config).calls
    ensures !Next(s, st, config).calls[i].frame.checked && !AsksByName(s, st, i)
  {
    hide Add, Apply, Deliveries.Given, H.Step, H.Given, Attached, ClaimGiven, Joined, Added;
  }

  lemma ClosedStaysClosed(s: State, st: Step, config: Config, i: nat)
    requires Enabled(s, st) && i in s.calls && !s.calls[i].frame.open && i in Next(s, st, config).calls
    ensures !Next(s, st, config).calls[i].frame.open
  {
    hide Next, Enabled;
    CallsMove(s, st, config, i);
  }

  lemma {:induction false} CheckedIsAsked(states: seq<State>, steps: seq<Step>, config: Config, n: nat, i: nat)
    requires Run(states, steps, config) && n < |states|
    ensures i in states[n].calls && states[n].calls[i].frame.open ==>
      (states[n].calls[i].frame.checked <==> AskedByName(states, steps, n, i))
    ensures i !in states[n].calls ==> !AskedByName(states, steps, n, i)
  {
    hide Next, Enabled, AsksByName;
    if n > 0 {
      var s, st := states[n - 1], steps[n - 1];
      CheckedIsAsked(states, steps, config, n - 1, i);
      assert AskedByName(states, steps, n, i) <==> AskedByName(states, steps, n - 1, i) || AsksByName(s, st, i);
      if i !in s.calls {
        NobodyAsks(s, st, i);
        if i in states[n].calls {
          NewCallIsUnchecked(s, st, config, i);
        }
      } else if s.calls[i].frame.open {
        CheckedSteps(s, st, config, i);
      } else if i in states[n].calls {
        ClosedStaysClosed(s, st, config, i);
      } else {
        CallsStay(s, st, config, i);
      }
    }
  }

  lemma CallsStay(s: State, st: Step, config: Config, i: nat)
    requires Enabled(s, st) && i in s.calls
    ensures i in Next(s, st, config).calls
  {
    hide Next, Enabled;
    CallsMove(s, st, config, i);
  }

  lemma NobodyAsks(s: State, st: Step, i: nat)
    requires i !in s.calls
    ensures !AsksByName(s, st, i)
  {
  }

  /**
   * The question whether a frame is the check's own call's is answered yes if and only if the frame is
   * open, names the check's tool and call id, and no check has asked so by name before.
   */
  lemma OwnIsTheFirstByName(states: seq<State>, steps: seq<Step>, config: Config, q: nat, c: nat)
    requires Run(states, steps, config) && q < |steps| && steps[q] == AskOwns(c)
    ensures c in states[q].checks && c in states[q + 1].checks && states[q].checks[c].frame.Some?
    ensures var i := states[q].checks[c].frame.value;
      && i in states[q].calls
      && (states[q + 1].checks[c].stage == AddingOwn <==>
            states[q].calls[i].frame.open && AsksByName(states[q], steps[q], i) && !AskedByName(states, steps, q, i))
      && (states[q + 1].checks[c].stage == AddingOwn || states[q + 1].checks[c].stage == Unowned)
  {
    hide Next;
    AskAnswers(states[q], config, c);
    CheckedIsAsked(states, steps, config, q, states[q].checks[c].frame.value);
  }

  lemma AskAnswers(s: State, config: Config, c: nat)
    requires Enabled(s, AskOwns(c))
    ensures s.checks[c].frame.Some? && s.checks[c].frame.value in s.calls
    ensures var i := s.checks[c].frame.value; var f := s.calls[i].frame;
      && c in Next(s, AskOwns(c), config).checks
      && Next(s, AskOwns(c), config).checks[c].stage ==
           if f.open && !f.checked && AsksByName(s, AskOwns(c), i) then AddingOwn else Unowned
  {
  }

  // ---- every check is answered ----

  function CheckStepsLeft(k: Check): nat {
    match k.stage
    case Asking => 3
    case AddingOwn => 1
    case Unowned => 2
    case AddingOuter(_) => 1
    case Answered(_, _) => 0
  }

  function OwnCheckStep(k: Check, c: nat, now: int): Step {
    match k.stage
    case Asking => AskOwns(c)
    case AddingOwn => AddOwn(c)
    case Unowned => PutAside(c, now)
    case _ => AddOuter(c)
  }

  /** No check is ever stuck: it can always take its next step, and three answer it. */
  lemma ChecksFinish(states: seq<State>, steps: seq<Step>, config: Config, n: nat, c: nat, now: int)
    requires Run(states, steps, config) && n < |states|
    requires c in states[n].checks && !states[n].checks[c].stage.Answered?
    ensures var s, st := states[n], OwnCheckStep(states[n].checks[c], c, now);
      && Enabled(s, st) && c in Next(s, st, config).checks
      && CheckStepsLeft(Next(s, st, config).checks[c]) < CheckStepsLeft(s.checks[c])
  {
    hide Next, CheckOk;
    AnswerFits(states, steps, config, n, c);
    StepsOnward(states[n], config, c, now);
  }

  lemma StepsOnward(s: State, config: Config, c: nat, now: int)
    requires c in s.checks && !s.checks[c].stage.Answered? && CheckOk(s, s.checks[c], config.wraps)
    ensures var st := OwnCheckStep(s.checks[c], c, now);
      && Enabled(s, st) && c in Next(s, st, config).checks
      && CheckStepsLeft(Next(s, st, config).checks[c]) < CheckStepsLeft(s.checks[c])
  {
    hide Add, H.Step;
  }
}
