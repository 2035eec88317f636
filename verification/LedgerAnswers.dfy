/** What the ledger answers, said of the requests themselves: which deliveries of a turn hold a call, and which call. */
module LedgerAnswers {
  import opened Ledger

  // ---- what is one delivery ----

  function TaskOf(task: string): string {
    if task == "" then "root" else task
  }

  /** Requests are about one delivery exactly when profile, session, task and turn, the policies in any
      order, the reason and the scope agree; a request without a task is about the root task. */
  lemma OneDeliveryExactly(p: Request, q: Request)
    ensures p.Key() == q.Key() <==>
      && p.profile == q.profile && p.session == q.session && TaskOf(p.task) == TaskOf(q.task) && p.turn == q.turn
      && multiset(p.policies) == multiset(q.policies) && p.reason == q.reason && p.scopeKey == q.scopeKey
    ensures p.Scope() == q.Scope() <==>
      p.profile == q.profile && p.session == q.session && TaskOf(p.task) == TaskOf(q.task) && p.turn == q.turn
  {
  }

  // ---- one request ----

  predicate Live(rows: Table, k: DeliveryKey, now: int) {
    k in rows && rows[k].expiresAt > now
  }

  /** The deliveries of the request's turn that are live. */
  function LiveBeside(rows: Table, q: Request): set<DeliveryKey> {
    set d | d in rows && d.turn == q.Key().turn && rows[d].expiresAt > q.now
  }

  /**
   * One request. A new delivery is issued, and holds the call, if and only if its turn has fewer live
   * ones than the cap; a live one holds the call it was issued for, and any other acknowledges it. Of
   * the other deliveries exactly the live ones stay, as they are.
   */
  lemma OneRequestExactly(c: Config, rows: Table, q: Request)
    requires q.session != "" && q.turn != "" && q.apiRequest != ""
    ensures var k := q.Key();
      var (after, action) := Decided(rows, c.ttl, c.maxRounds, q);
      && (forall d :: d != k ==> (d in after <==> Live(rows, d, q.now)) && (d in after ==> after[d] == rows[d]))
      && if Live(rows, k, q.now) then
           && k in after
           && if rows[k].issued && rows[k].blocked == q.apiRequest then
                action == Action(true, SameApiRequest) && after[k] == rows[k]
              else
                && action == Action(false, Acknowledged) && !after[k].issued
                && (after[k].createdAt, after[k].expiresAt, after[k].blocked)
                   == (rows[k].createdAt, rows[k].expiresAt, rows[k].blocked)
                && after[k].acknowledged == (if rows[k].issued then Some(q.apiRequest) else rows[k].acknowledged)
         else if |LiveBeside(rows, q)| < c.maxRounds then
           action == Action(true, Issued) && k in after && after[k] == Row(q.apiRequest, None, true, q.now, q.now + c.ttl)
         else action == Action(false, TurnCap) && k !in after
  {
    assert KeysOf(Purge(rows, q.now), q.Scope()) == LiveBeside(rows, q);
  }

  /** Clearing a session takes exactly its deliveries; clearing none, nothing. */
  lemma ClearExactly(rows: Table, session: string)
    ensures var after := Cleared(rows, session);
      && (forall d :: d in after <==> d in rows && (session == "" || d.turn.session != session))
      && (forall d <- after.Keys :: after[d] == rows[d])
  {
  }

  // ---- the answers of a whole span ----

  /** The deliveries of the turn asked about in the first `n` events, each once, in the order they were first asked about. */
  function AskedFor(events: seq<Event>, t: Turn, n: nat): seq<DeliveryKey>
    requires n <= |events|
  {
    if n == 0 then []
    else
      var before := AskedFor(events, t, n - 1);
      if AsksTurn(events[n - 1], t) && events[n - 1].q.Key() !in before then before + [events[n - 1].q.Key()] else before
  }

  /** As many of them as the cap allows, the first ones. */
  function WithinCap(keys: seq<DeliveryKey>, cap: nat): seq<DeliveryKey> {
    if |keys| <= cap then keys else keys[..cap]
  }

  predicate AsksAs(e: Event, k: DeliveryKey, id: string) {
    e.Ask? && e.q.Correlated() && e.q.Key() == k && e.q.apiRequest == id
  }

  ghost predicate AskedAs(events: seq<Event>, k: DeliveryKey, id: string, n: nat) {
    exists m :: 0 <= m < n && m < |events| && AsksAs(events[m], k, id)
  }

  /** The turn's rows after the first `n` events of a span that ends at `end`. */
  ghost predicate TurnStands(c: Config, now: Table, events: seq<Event>, t: Turn, n: nat, end: int)
    requires n <= |events|
  {
    && (forall k :: k in KeysOf(now, t) <==> k in WithinCap(AskedFor(events, t, n), c.maxRounds))
    && forall k <- KeysOf(now, t) :: RowStands(now[k], events, k, n, end)
  }

  /** The row lasts the span; it names a request that asked about it, and is issued while no other did. */
  ghost predicate RowStands(row: Row, events: seq<Event>, k: DeliveryKey, n: nat, end: int) {
    && row.expiresAt >= end && AskedAs(events, k, row.blocked, n)
    && (row.issued <==> !AskedElsewhere(events, k, row.blocked, n))
  }

  ghost predicate Distinct(keys: seq<DeliveryKey>) {
    forall i, j :: 0 <= i < j < |keys| ==> keys[i] != keys[j]
  }

  lemma OneMoreDistinct(keys: seq<DeliveryKey>, k: DeliveryKey)
    requires Distinct(keys) && k !in keys
    ensures Distinct(keys + [k])
  {
  }

  lemma CapKeepsDistinct(keys: seq<DeliveryKey>, cap: nat)
    requires Distinct(keys)
    ensures Distinct(WithinCap(keys, cap))
  {
  }

  lemma {:induction false} AskedForIsDistinct(events: seq<Event>, t: Turn, n: nat)
    requires n <= |events|
    ensures Distinct(AskedFor(events, t, n)) && forall k <- AskedFor(events, t, n) :: k.turn == t
  {
    hide Distinct;
    if n == 0 {
      assert Distinct([]) by { NoneTwice(); }
    } else {
      var before := AskedFor(events, t, n - 1);
      AskedForIsDistinct(events, t, n - 1);
      if AsksTurn(events[n - 1], t) && events[n - 1].q.Key() !in before {
        OneMoreDistinct(before, events[n - 1].q.Key());
      }
    }
  }

  lemma NoneTwice()
    ensures Distinct([])
  {
  }

  lemma {:induction false} AskedForIsAsked(events: seq<Event>, t: Turn, n: nat, k: DeliveryKey)
    requires n <= |events|
    ensures k in AskedFor(events, t, n) <==> exists m :: 0 <= m < n && AsksTurn(events[m], t) && events[m].q.Key() == k
  {
    if n > 0 {
      AskedForIsAsked(events, t, n - 1, k);
    }
  }

  lemma {:induction false} AskedForGrows(events: seq<Event>, t: Turn, m: nat, n: nat)
    requires m <= n <= |events|
    ensures AskedFor(events, t, m) <= AskedFor(events, t, n)
  {
    if m < n {
      AskedForGrows(events, t, m, n - 1);
    }
  }

  lemma {:induction false} CountDistinct(keys: seq<DeliveryKey>, all: set<DeliveryKey>)
    requires Distinct(keys)
    requires forall k :: k in all <==> k in keys
    ensures |all| == |keys|
    decreases |keys|
  {
    if keys == [] {
      assert all == {};
    } else {
      var last := keys[|keys| - 1];
      var rest := keys[..|keys| - 1];
      assert keys == rest + [last];
      CountDistinct(rest, all - {last});
      assert all == (all - {last}) + {last};
    }
  }

  /** The turn's rows number as many as were asked about, up to the cap. */
  lemma RowsOfTheTurn(c: Config, now: Table, events: seq<Event>, t: Turn, n: nat, end: int)
    requires n <= |events| && TurnStands(c, now, events, t, n, end)
    ensures var asked := AskedFor(events, t, n);
      |KeysOf(now, t)| == if |asked| <= c.maxRounds then |asked| else c.maxRounds
  {
    hide KeysOf, AskedFor, Distinct;
    AskedForIsDistinct(events, t, n);
    CapKeepsDistinct(AskedFor(events, t, n), c.maxRounds);
    CountDistinct(WithinCap(AskedFor(events, t, n), c.maxRounds), KeysOf(now, t));
  }

  lemma AskedAsMore(events: seq<Event>, k: DeliveryKey, id: string, n: nat)
    requires 0 < n <= |events|
    ensures AskedAs(events, k, id, n) <==> AskedAs(events, k, id, n - 1) || AsksAs(events[n - 1], k, id)
  {
  }

  /** Nothing about a row changes with an event that does not ask about it. */
  lemma RowStandsOn(row: Row, events: seq<Event>, k: DeliveryKey, n: nat, end: int)
    requires 0 < n <= |events| && RowStands(row, events, k, n - 1, end)
    requires !(events[n - 1].Ask? && events[n - 1].q.Correlated() && events[n - 1].q.Key() == k)
    ensures RowStands(row, events, k, n, end)
  {
    hide AskedAs, AskedElsewhere;
    AskedAsMore(events, k, row.blocked, n);
    OneMoreAsked(events, k, row.blocked, n);
  }

  /** An event inside the span that does not clear the turn's session. */
  predicate InSpan(c: Config, e: Event, t: Turn, end: int) {
    match e
    case Ask(q) => q.now < end <= q.now + c.ttl
    case Clear(session) => session == "" || session != t.session
  }

  /** An event that asks nothing in the turn leaves its rows alone. */
  lemma TurnUntouched(c: Config, now: Table, e: Event, t: Turn, end: int)
    requires InSpan(c, e, t, end) && !AsksTurn(e, t) && forall k <- KeysOf(now, t) :: now[k].expiresAt >= end
    ensures KeysOf(After(c, now, e), t) == KeysOf(now, t)
    ensures forall k <- KeysOf(now, t) :: After(c, now, e)[k] == now[k]
  {
    hide Decided;
    if e.Ask? {
      if e.q.Correlated() {
        OneRequestExactly(c, now, e.q);
      } else {
        UncorrelatedStep(c, now, e.q);
      }
    }
  }

  lemma OtherEventStands(c: Config, now: Table, events: seq<Event>, t: Turn, n: nat, end: int)
    requires n < |events| && TurnStands(c, now, events, t, n, end) && InSpan(c, events[n], t, end) && !AsksTurn(events[n], t)
    ensures TurnStands(c, After(c, now, events[n]), events, t, n + 1, end)
  {
    hide After, RowStands, InSpan;
    forall k <- KeysOf(now, t)
      ensures now[k].expiresAt >= end
    {
      StandingLasts(now[k], events, k, n, end);
    }
    TurnUntouched(c, now, events[n], t, end);
    forall k <- KeysOf(now, t)
      ensures RowStands(now[k], events, k, n + 1, end)
    {
      RowStandsOn(now[k], events, k, n + 1, end);
    }
  }

  lemma StandingLasts(row: Row, events: seq<Event>, k: DeliveryKey, n: nat, end: int)
    requires RowStands(row, events, k, n, end)
    ensures row.expiresAt >= end
  {
  }

  /** The row after its delivery was asked about once more. */
  lemma AskedRowStands(row: Row, row': Row, events: seq<Event>, k: DeliveryKey, n: nat, end: int)
    requires n < |events| && RowStands(row, events, k, n, end)
    requires events[n].Ask? && events[n].q.Correlated() && events[n].q.Key() == k
    requires (row'.expiresAt, row'.blocked) == (row.expiresAt, row.blocked)
    requires row'.issued <==> row.issued && row.blocked == events[n].q.apiRequest
    ensures RowStands(row', events, k, n + 1, end)
  {
    hide AskedAs, AskedElsewhere;
    AskedAsMore(events, k, row.blocked, n + 1);
    OneMoreAsked(events, k, row.blocked, n + 1);
  }

  /** The row of a delivery asked about for the first time. */
  lemma NewRowStands(c: Config, events: seq<Event>, t: Turn, n: nat, end: int)
    requires n < |events| && AsksTurn(events[n], t) && events[n].q.Key() !in AskedFor(events, t, n)
    requires end <= events[n].q.now + c.ttl
    ensures var q := events[n].q;
      RowStands(Row(q.apiRequest, None, true, q.now, q.now + c.ttl), events, q.Key(), n + 1, end)
  {
    hide AskedFor;
    var q := events[n].q;
    AskedForIsAsked(events, t, n, q.Key());
    assert AsksAs(events[n], q.Key(), q.apiRequest);
  }

  /** Its own turn's request: the rows of the others stay, and its own is as the request leaves it. */
  lemma OwnRows(c: Config, now: Table, q: Request, t: Turn, end: int)
    requires q.Correlated() && q.Scope() == t && q.now < end && forall k <- KeysOf(now, t) :: now[k].expiresAt >= end
    ensures var after := Decided(now, c.ttl, c.maxRounds, q).0; var k := q.Key();
      && (forall d <- KeysOf(now, t) :: d in after && (d != k ==> after[d] == now[d]))
      && (forall d <- KeysOf(after, t) :: d == k || d in KeysOf(now, t))
      && if k in now then
           && (after[k].expiresAt, after[k].blocked) == (now[k].expiresAt, now[k].blocked)
           && (after[k].issued <==> now[k].issued && now[k].blocked == q.apiRequest)
         else if |KeysOf(now, t)| < c.maxRounds then
           k in after && after[k] == Row(q.apiRequest, None, true, q.now, q.now + c.ttl)
         else k !in after
  {
    hide Decided;
    OneRequestExactly(c, now, q);
    assert LiveBeside(now, q) == KeysOf(now, t);
  }

  lemma OwnEventStands(c: Config, now: Table, events: seq<Event>, t: Turn, n: nat, end: int)
    requires n < |events| && TurnStands(c, now, events, t, n, end) && InSpan(c, events[n], t, end) && AsksTurn(events[n], t)
    ensures TurnStands(c, After(c, now, events[n]), events, t, n + 1, end)
  {
    hide Decided, RowStands;
    var q := events[n].q;
    var k, after := q.Key(), Decided(now, c.ttl, c.maxRounds, q).0;
    forall d <- KeysOf(now, t)
      ensures now[d].expiresAt >= end
    {
      StandingLasts(now[d], events, d, n, end);
    }
    OwnRows(c, now, q, t, end);
    RowsOfTheTurn(c, now, events, t, n, end);
    KeysAfterOwn(c, now, after, events, t, n);
    forall d <- KeysOf(after, t)
      ensures RowStands(after[d], events, d, n + 1, end)
    {
      if d != k {
        RowStandsOn(now[d], events, d, n + 1, end);
      } else if k in now {
        AskedRowStands(now[k], after[k], events, k, n, end);
      } else {
        NewRowStands(c, events, t, n, end);
      }
    }
  }

  /** Which deliveries the turn has after its own request. */
  lemma KeysAfterOwn(c: Config, now: Table, after: Table, events: seq<Event>, t: Turn, n: nat)
    requires n < |events| && AsksTurn(events[n], t)
    requires forall d :: d in KeysOf(now, t) <==> d in WithinCap(AskedFor(events, t, n), c.maxRounds)
    requires |KeysOf(now, t)| == var asked := |AskedFor(events, t, n)|; if asked <= c.maxRounds then asked else c.maxRounds
    requires var k := events[n].q.Key();
      && (forall d <- KeysOf(now, t) :: d in after) && (forall d <- KeysOf(after, t) :: d == k || d in KeysOf(now, t))
      && (k !in now ==> (k in after <==> |KeysOf(now, t)| < c.maxRounds))
    ensures forall d :: d in KeysOf(after, t) <==> d in WithinCap(AskedFor(events, t, n + 1), c.maxRounds)
    ensures events[n].q.Key() in after && events[n].q.Key() !in now ==> events[n].q.Key() !in AskedFor(events, t, n)
  {
    var k, asked := events[n].q.Key(), AskedFor(events, t, n);
    CapOfMore(asked, k, c.maxRounds);
    assert k in now ==> k in KeysOf(now, t) && k in asked;
    if k !in now && |asked| < c.maxRounds {
      assert k !in KeysOf(now, t) && k !in asked;
    }
  }

  lemma CapOfMore(keys: seq<DeliveryKey>, k: DeliveryKey, cap: nat)
    ensures |keys| >= cap ==> WithinCap(keys + [k], cap) == WithinCap(keys, cap)
    ensures |keys| < cap ==> WithinCap(keys + [k], cap) == keys + [k] && WithinCap(keys, cap) == keys
  {
  }

  // ---- from a turn with nothing live ----

  lemma {:induction false} SpanStands(c: Config, rows: Table, events: seq<Event>, t: Turn, start: int, n: nat)
    requires n <= |events| && InOneSpan(c, events, start) && NeverCleared(events, t.session) && KeysOf(rows, t) == {}
    ensures TurnStands(c, TableAt(c, rows, events, n), events, t, n, start + c.ttl)
  {
    hide After, TurnStands;
    if n == 0 {
      NothingStands(c, rows, events, t, start + c.ttl);
    } else {
      SpanStands(c, rows, events, t, start, n - 1);
      var e, now := events[n - 1], TableAt(c, rows, events, n - 1);
      assert e in events;
      if AsksTurn(e, t) {
        OwnEventStands(c, now, events, t, n - 1, start + c.ttl);
      } else {
        OtherEventStands(c, now, events, t, n - 1, start + c.ttl);
      }
    }
  }

  lemma NothingStands(c: Config, rows: Table, events: seq<Event>, t: Turn, end: int)
    requires KeysOf(rows, t) == {}
    ensures TurnStands(c, rows, events, t, 0, end)
  {
  }

  lemma {:induction false} PurgedAnswersAlike(c: Config, rows: Table, events: seq<Event>, start: int, i: nat)
    requires InOneSpan(c, events, start) && i < |events| && events[i].Ask?
    ensures AnswerAt(c, rows, events, i) == AnswerAt(c, Purge(rows, start), events, i)
  {
    hide Decided, Purge, BlockedIds;
    assert events[i] in events;
    assert Purge(Purge(rows, start), start) == Purge(rows, start) by { PurgedIsPurged(rows, start); }
    PurgedRunsAlike(c, rows, Purge(rows, start), events, Turn("", "", "", ""), start, i);
    PurgedTwice(c, TableAt(c, rows, events, i), TableAt(c, Purge(rows, start), events, i), events[i], start);
  }

  lemma PurgedIsPurged(rows: Table, start: int)
    ensures Purge(Purge(rows, start), start) == Purge(rows, start)
  {
  }

  /** Some earlier event asked about the delivery. */
  ghost predicate AskedBefore(events: seq<Event>, k: DeliveryKey, i: nat) {
    exists m :: 0 <= m < i && m < |events| && events[m].Ask? && events[m].q.Correlated() && events[m].q.Key() == k
  }

  /**
   * Every answer of a span, from any table with none of the turn's deliveries live and with no clear of
   * its session. The first `maxRounds` distinct deliveries of the turn asked about are issued, each to
   * the first request that asks; they hold that request until any other asks about them, and are
   * acknowledged from then on; all other deliveries of the turn are turned away by the cap.
   */
  lemma SpanAnswersExactly(c: Config, rows: Table, events: seq<Event>, t: Turn, start: int, i: nat)
    requires InOneSpan(c, events, start) && NeverCleared(events, t.session) && KeysOf(Purge(rows, start), t) == {}
    requires i < |events| && AsksTurn(events[i], t)
    ensures var q := events[i].q;
      AnswerAt(c, rows, events, i) ==
        if q.Key() !in WithinCap(AskedFor(events, t, |events|), c.maxRounds) then Action(false, TurnCap)
        else if AskedElsewhere(events, q.Key(), q.apiRequest, i) then Action(false, Acknowledged)
        else Action(true, if AskedBefore(events, q.Key(), i) then SameApiRequest else Issued)
  {
    hide AskedFor, TurnStands, AskedElsewhere, AskedBefore, Decided, WithinCap, Purge, KeysOf;
    var live, q := Purge(rows, start), events[i].q;
    var now := TableAt(c, live, events, i);
    assert events[i] in events;
    PurgedAnswersAlike(c, rows, events, start, i);
    SpanStands(c, live, events, t, start, i);
    RankIsFinal(events, t, i, c.maxRounds);
    AnswerOfStanding(c, now, events, t, i, start + c.ttl);
  }

  /** Whether a delivery is among the first to be asked about is settled when it is asked about. */
  lemma RankIsFinal(events: seq<Event>, t: Turn, i: nat, cap: nat)
    requires i < |events| && AsksTurn(events[i], t)
    ensures var k := events[i].q.Key(); var asked := AskedFor(events, t, i);
      k in WithinCap(AskedFor(events, t, |events|), cap) <==> k in WithinCap(asked, cap) || (k !in asked && |asked| < cap)
  {
    hide Distinct;
    var k, asked, more, all := events[i].q.Key(), AskedFor(events, t, i), AskedFor(events, t, i + 1), AskedFor(events, t, |events|);
    AskedForGrows(events, t, i, i + 1);
    AskedForGrows(events, t, i + 1, |events|);
    AskedForIsDistinct(events, t, |events|);
    RankInPrefix(more, all, k, cap);
    CapOfMore(asked, k, cap);
  }

  lemma RankInPrefix(some: seq<DeliveryKey>, all: seq<DeliveryKey>, k: DeliveryKey, cap: nat)
    requires some <= all && Distinct(all) && k in some
    ensures k in WithinCap(some, cap) <==> k in WithinCap(all, cap)
  {
    var p :| 0 <= p < |some| && some[p] == k;
    assert all[p] == k;
    if p < cap {
      assert WithinCap(some, cap)[p] == k && WithinCap(all, cap)[p] == k;
    }
  }

  lemma AnswerOfStanding(c: Config, now: Table, events: seq<Event>, t: Turn, i: nat, end: int)
    requires i < |events| && AsksTurn(events[i], t) && TurnStands(c, now, events, t, i, end) && InSpan(c, events[i], t, end)
    ensures var q, asked := events[i].q, AskedFor(events, t, i);
      Decided(now, c.ttl, c.maxRounds, q).1 ==
        if !(q.Key() in WithinCap(asked, c.maxRounds) || (q.Key() !in asked && |asked| < c.maxRounds)) then Action(false, TurnCap)
        else if AskedElsewhere(events, q.Key(), q.apiRequest, i) then Action(false, Acknowledged)
        else Action(true, if AskedBefore(events, q.Key(), i) then SameApiRequest else Issued)
  {
    hide Decided, RowStands, AskedFor, AskedElsewhere, AskedBefore;
    var q := events[i].q;
    var k := q.Key();
    forall d <- KeysOf(now, t)
      ensures now[d].expiresAt >= end
    {
      StandingLasts(now[d], events, d, i, end);
    }
    OneRequestExactly(c, now, q);
    assert LiveBeside(now, q) == KeysOf(now, t);
    RowsOfTheTurn(c, now, events, t, i, end);
    if k in now {
      assert k in KeysOf(now, t);
      HolderAsked(now[k], events, k, i, end, q.apiRequest);
    } else {
      FirstToAsk(events, t, i);
    }
  }

  lemma HolderAsked(row: Row, events: seq<Event>, k: DeliveryKey, i: nat, end: int, id: string)
    requires i <= |events| && RowStands(row, events, k, i, end)
    ensures row.issued && row.blocked == id <==> !AskedElsewhere(events, k, id, i)
    ensures AskedBefore(events, k, i)
  {
    var m :| 0 <= m < i && m < |events| && AsksAs(events[m], k, row.blocked);
    assert row.blocked != id ==> AsksElsewhere(events[m], k, id);
  }

  lemma FirstToAsk(events: seq<Event>, t: Turn, i: nat)
    requires i < |events| && AsksTurn(events[i], t)
    ensures var k := events[i].q.Key(); k !in AskedFor(events, t, i) ==>
      !AskedBefore(events, k, i) && !AskedElsewhere(events, k, events[i].q.apiRequest, i)
  {
    AskedForIsAsked(events, t, i, events[i].q.Key());
  }

  /** So the deliveries of the turn that ever hold a call are exactly the first `maxRounds` asked about. */
  lemma FirstDeliveriesHold(c: Config, rows: Table, events: seq<Event>, t: Turn, start: int, k: DeliveryKey)
    requires InOneSpan(c, events, start) && NeverCleared(events, t.session) && KeysOf(Purge(rows, start), t) == {}
    ensures (exists i: nat :: i < |events| && Blocks(c, rows, events, i, t) && events[i].q.Key() == k)
      <==> k in WithinCap(AskedFor(events, t, |events|), c.maxRounds)
  {
    hide AskedFor, AnswerAt, AskedElsewhere, AskedBefore, WithinCap, Purge, KeysOf;
    var first := WithinCap(AskedFor(events, t, |events|), c.maxRounds);
    if k in first {
      var i := FirstAsking(events, t, k, c.maxRounds);
      SpanAnswersExactly(c, rows, events, t, start, i);
      assert Blocks(c, rows, events, i, t);
    }
    forall i: nat | i < |events| && Blocks(c, rows, events, i, t) && events[i].q.Key() == k
      ensures k in first
    {
      SpanAnswersExactly(c, rows, events, t, start, i);
    }
  }

  lemma FirstAsking(events: seq<Event>, t: Turn, k: DeliveryKey, cap: nat) returns (i: nat)
    requires k in WithinCap(AskedFor(events, t, |events|), cap)
    ensures i < |events| && AsksTurn(events[i], t) && events[i].q.Key() == k && !AskedElsewhere(events, k, events[i].q.apiRequest, i)
  {
    AskedForIsAsked(events, t, |events|, k);
    var m: int :| 0 <= m < |events| && AsksTurn(events[m], t) && events[m].q.Key() == k;
    i := EarliestAsking(events, t, k, m);
  }

  lemma {:induction false} EarliestAsking(events: seq<Event>, t: Turn, k: DeliveryKey, m: nat) returns (i: nat)
    requires m < |events| && AsksTurn(events[m], t) && events[m].q.Key() == k
    ensures i < |events| && AsksTurn(events[i], t) && events[i].q.Key() == k && !AskedElsewhere(events, k, events[i].q.apiRequest, i)
    decreases m
  {
    i := m;
    if AskedElsewhere(events, k, events[m].q.apiRequest, m) {
      var j :| 0 <= j < m && AsksElsewhere(events[j], k, events[m].q.apiRequest);
      i := EarliestAsking(events, t, k, j);
    }
  }
}
