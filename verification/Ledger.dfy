/** The persistent ledger that decides whether an instruction holds a call once or lets it through. */
module Ledger {

  datatype Option<+T> = None | Some(value: T)

  /** What the per-turn cap is counted over. */
  datatype Turn = Turn(profile: string, session: string, task: string, turn: string)

  /** The digests of the source are taken as injective: a delivery key is what it digests.
      Policy names are sorted before they are digested, so their order does not matter. */
  datatype DeliveryKey = DeliveryKey(turn: Turn, policies: multiset<string>, reason: string, scopeKey: string)

  datatype Row = Row(blocked: string, acknowledged: Option<string>, issued: bool, createdAt: int, expiresAt: int)

  type Table = map<DeliveryKey, Row>

  datatype Request = Request(profile: string, session: string, task: string, turn: string, apiRequest: string,
                             policies: seq<string>, reason: string, scopeKey: string, now: int)
  {
    function Scope(): Turn {
      Turn(profile, session, if task == "" then "root" else task, turn)
    }

    function Key(): DeliveryKey {
      DeliveryKey(Scope(), multiset(policies), reason, scopeKey)
    }

    /** The ids without which a delivery cannot be correlated. */
    predicate Correlated() {
      session != "" && turn != "" && apiRequest != ""
    }
  }

  datatype Status = MissingCorrelationId | SameApiRequest | Acknowledged | TurnCap | Issued

  datatype Action = Action(block: bool, status: Status)

  datatype Result<+T> = Ok(value: T) | LedgerError

  function Purge(rows: Table, now: int): Table {
    map k | k in rows && rows[k].expiresAt > now :: rows[k]
  }

  function KeysOf(rows: Table, t: Turn): set<DeliveryKey> {
    set k | k in rows && k.turn == t
  }

  /** The table and the answer after one correlated request. */
  function Decided(rows: Table, ttl: int, maxRounds: nat, q: Request): (Table, Action) {
    if !q.Correlated() then (rows, Action(false, MissingCorrelationId))
    else
      var live, k := Purge(rows, q.now), q.Key();
      if k in live then
        if live[k].issued && live[k].blocked == q.apiRequest then (live, Action(true, SameApiRequest))
        else if live[k].issued then
          (live[k := live[k].(issued := false, acknowledged := Some(q.apiRequest))], Action(false, Acknowledged))
        else (live, Action(false, Acknowledged))
      else if |KeysOf(live, q.Scope())| >= maxRounds then (live, Action(false, TurnCap))
      else (live[k := Row(q.apiRequest, None, true, q.now, q.now + ttl)], Action(true, Issued))
  }

  function Cleared(rows: Table, session: string): Table {
    if session == "" then rows else map k | k in rows && k.turn.session != session :: rows[k]
  }

  class InstructionLedger {
    const available: bool
    const ttl: int
    const maxRounds: nat
    var rows: Table

    /** `available` is false when the host gave no usable state directory. */
    constructor (available: bool, ttlSeconds: int, maxRounds: int)
      ensures this.available == available && rows == map[]
      ensures ttl == 1000 * (if ttlSeconds < 60 then 60 else ttlSeconds)
      ensures this.maxRounds == if maxRounds < 0 then 0 else maxRounds
    {
      this.available := available;
      ttl := 1000 * (if ttlSeconds < 60 then 60 else ttlSeconds);
      this.maxRounds := if maxRounds < 0 then 0 else maxRounds;
      rows := map[];
    }

    method Decide(q: Request) returns (action: Result<Action>)
      modifies this
      ensures !q.Correlated() ==> action == Ok(Action(false, MissingCorrelationId)) && rows == old(rows)
      ensures q.Correlated() && !available ==> action == LedgerError && rows == old(rows)
      ensures q.Correlated() && available ==>
        (rows, action) == var d := Decided(old(rows), ttl, maxRounds, q); (d.0, Ok(d.1))
    {
      if q.session == "" || q.turn == "" || q.apiRequest == "" {
        return Ok(Action(false, MissingCorrelationId));
      }
      if !available {
        return LedgerError;
      }
      rows := Purge(rows, q.now);
      var k := q.Key();
      if k in rows {
        var row := rows[k];
        if row.issued && row.blocked == q.apiRequest {
          return Ok(Action(true, SameApiRequest));
        }
        if row.issued {
          rows := rows[k := row.(issued := false, acknowledged := Some(q.apiRequest))];
        }
        return Ok(Action(false, Acknowledged));
      }
      var rounds := |KeysOf(rows, q.Scope())|;
      if rounds >= maxRounds {
        return Ok(Action(false, TurnCap));
      }
      rows := rows[k := Row(q.apiRequest, None, true, q.now, q.now + ttl)];
      return Ok(Action(true, Issued));
    }

    method ClearSession(session: string) returns (done: Result<()>)
      modifies this
      ensures done == (if session != "" && !available then LedgerError else Ok(()))
      ensures rows == if available then Cleared(old(rows), session) else old(rows)
    {
      if session == "" {
        return Ok(());
      }
      if !available {
        return LedgerError;
      }
      rows := map k | k in rows && k.turn.session != session :: rows[k];
      return Ok(());
    }
  }

  // ---- whole runs ----

  datatype Event = Ask(q: Request) | Clear(session: string)

  datatype Config = Config(ttl: int, maxRounds: nat)

  function After(c: Config, rows: Table, e: Event): Table {
    match e
    case Ask(q) => Decided(rows, c.ttl, c.maxRounds, q).0
    case Clear(session) => Cleared(rows, session)
  }

  /** The table after the first `n` events. */
  function TableAt(c: Config, rows: Table, events: seq<Event>, n: nat): Table
    requires n <= |events|
  {
    if n == 0 then rows else After(c, TableAt(c, rows, events, n - 1), events[n - 1])
  }

  /** The answer to event `i`. */
  function AnswerAt(c: Config, rows: Table, events: seq<Event>, i: nat): Action
    requires i < |events| && events[i].Ask?
  {
    Decided(TableAt(c, rows, events, i), c.ttl, c.maxRounds, events[i].q).1
  }

  predicate AsksTurn(e: Event, t: Turn) {
    e.Ask? && e.q.Correlated() && e.q.Scope() == t
  }

  /** Event `i` holds a call of turn `t`. */
  predicate Blocks(c: Config, rows: Table, events: seq<Event>, i: nat, t: Turn)
    requires i < |events|
  {
    AsksTurn(events[i], t) && AnswerAt(c, rows, events, i).block
  }

  /** The request ids of turn `t` held among the first `n` events. */
  function BlockedIds(c: Config, rows: Table, events: seq<Event>, t: Turn, n: nat): set<string>
    requires n <= |events|
  {
    set i | 0 <= i < n && Blocks(c, rows, events, i, t) :: events[i].q.apiRequest
  }

  ghost predicate ClockForward(events: seq<Event>) {
    forall i, j :: 0 <= i < j < |events| && events[i].Ask? && events[j].Ask? ==> events[i].q.now <= events[j].q.now
  }

  /** Every event happens at or after `start` and less than one time-to-live after it. */
  ghost predicate InOneSpan(c: Config, events: seq<Event>, start: int) {
    forall e <- events :: e.Ask? ==> start <= e.q.now < start + c.ttl
  }

  ghost predicate NeverCleared(events: seq<Event>, session: string) {
    forall e <- events :: e.Clear? ==> e.session == "" || e.session != session
  }

  function IdsOf(rows: Table, t: Turn): set<string> {
    set k | k in KeysOf(rows, t) :: rows[k].blocked
  }

  /** A row after a request is a row from before it, acknowledged or not, or the one just issued;
      a held request's row carries its id. */
  lemma RowsAfterRequest(c: Config, rows: Table, q: Request)
    ensures var (after, action) := Decided(rows, c.ttl, c.maxRounds, q);
      && (forall k <- after.Keys :: SameDelivery(rows, after, k) || IssuedNow(c, rows, after, q, k))
      && (forall k <- rows.Keys :: rows[k].expiresAt > q.now ==> k in after && SameDelivery(rows, after, k))
      && (q.Correlated() ==> forall k <- after.Keys :: k == q.Key() || k in Purge(rows, q.now))
      && (action.block ==> q.Key() in after && after[q.Key()].blocked == q.apiRequest)
  {
    hide KeysOf;
  }

  predicate SameDelivery(rows: Table, after: Table, k: DeliveryKey)
    requires k in after
  {
    k in rows && after[k].blocked == rows[k].blocked && after[k].expiresAt == rows[k].expiresAt
  }

  predicate IssuedNow(c: Config, rows: Table, after: Table, q: Request, k: DeliveryKey)
    requires k in after
  {
    && k == q.Key() && after[k].blocked == q.apiRequest && after[k].expiresAt == q.now + c.ttl
    && |KeysOf(Purge(rows, q.now), q.Scope())| < c.maxRounds && after.Keys == Purge(rows, q.now).Keys + {k}
  }

  /** The cap bounds a turn's live deliveries, whatever happens. */
  lemma CapIsKept(c: Config, rows: Table, e: Event, t: Turn)
    requires |KeysOf(rows, t)| <= c.maxRounds
    ensures |KeysOf(After(c, rows, e), t)| <= c.maxRounds
  {
    hide Decided;
    var after := After(c, rows, e);
    if e.Ask? {
      RowsAfterRequest(c, rows, e.q);
      var k := e.q.Key();
      if k.turn == t && k in after && IssuedNow(c, rows, after, e.q, k) {
        Shrinks(KeysOf(after, t), KeysOf(Purge(rows, e.q.now), t) + {k});
        UnionIsNoLarger(KeysOf(Purge(rows, e.q.now), t), {k});
      } else {
        Shrinks(KeysOf(after, t), KeysOf(rows, t));
      }
    } else {
      Shrinks(KeysOf(after, t), KeysOf(rows, t));
    }
  }

  lemma Shrinks<T>(small: set<T>, large: set<T>)
    requires small <= large
    ensures |small| <= |large|
  {
    if small != large {
      var extra := large - small;
      assert large == small + extra;
    }
  }

  // ---- bounded interruption ----

  /** Deliveries of the turn made in a span that ends at `end`, which none of them expires before. */
  ghost predicate MadeInSpan(c: Config, now: Table, made: set<DeliveryKey>, t: Turn, end: int) {
    && made <= KeysOf(now, t) && |made| <= c.maxRounds
    && (forall k <- made :: now[k].expiresAt >= end)
  }

  /** The ids held so far are those of deliveries there at the start, or of the ones made since. */
  ghost predicate HeldIdsAccounted(rows: Table, now: Table, held: set<string>, made: set<DeliveryKey>, c: Config, t: Turn, end: int) {
    && MadeInSpan(c, now, made, t, end)
    && (forall k <- KeysOf(now, t) :: k in made || now[k].blocked in IdsOf(rows, t))
    && (forall id <- held :: id in IdsOf(rows, t) || id in Named(now, made))
  }

  /** The request ids of the deliveries. */
  function Named(now: Table, keys: set<DeliveryKey>): set<string>
    requires forall k <- keys :: k in now
  {
    set k | k in keys :: now[k].blocked
  }

  lemma {:induction false} NamedIsNoLarger(now: Table, keys: set<DeliveryKey>)
    requires forall k <- keys :: k in now
    ensures |Named(now, keys)| <= |keys|
  {
    if keys != {} {
      var k :| k in keys;
      NamedIsNoLarger(now, keys - {k});
      assert Named(now, keys) == Named(now, keys - {k}) + {now[k].blocked};
    }
  }

  /** What was made stays, and every other delivery was there before. */
  ghost predicate OnlyMadeAreNew(now: Table, after: Table, made: set<DeliveryKey>, made': set<DeliveryKey>, t: Turn) {
    && made <= made'
    && (forall k <- made :: k in now && k in after && after[k].blocked == now[k].blocked)
    && (forall k <- KeysOf(after, t) :: k in made' || SameDelivery(now, after, k))
  }

  /** Inside the span at most one delivery more is made, and only within the cap. */
  lemma MadeByRequest(c: Config, now: Table, q: Request, made: set<DeliveryKey>, t: Turn, end: int) returns (made': set<DeliveryKey>)
    requires MadeInSpan(c, now, made, t, end) && q.now < end <= q.now + c.ttl
    ensures var after := After(c, now, Ask(q)); MadeInSpan(c, after, made', t, end) && OnlyMadeAreNew(now, after, made, made', t)
  {
    hide Decided, Purge, OnlyMadeAreNew;
    RowsAfterRequest(c, now, q);
    var k, after := q.Key(), After(c, now, Ask(q));
    MadeAreLive(c, now, q, made, t, end);
    made' := made;
    if k.turn == t && k in after && IssuedNow(c, now, after, q, k) {
      made' := made + {k};
      OneMoreMade(c, now, q, made, t, end);
    }
    OthersWereThere(c, now, q, made, made', t);
  }

  lemma MadeAreLive(c: Config, now: Table, q: Request, made: set<DeliveryKey>, t: Turn, end: int)
    requires MadeInSpan(c, now, made, t, end) && q.now < end
    ensures var after := After(c, now, Ask(q));
      MadeInSpan(c, after, made, t, end) && forall k <- made :: k in now && SameDelivery(now, after, k)
  {
    hide Decided;
    RowsAfterRequest(c, now, q);
  }

  lemma OthersWereThere(c: Config, now: Table, q: Request, made: set<DeliveryKey>, made': set<DeliveryKey>, t: Turn)
    requires made <= made' && forall k <- made :: k in After(c, now, Ask(q)) && SameDelivery(now, After(c, now, Ask(q)), k)
    requires var after := After(c, now, Ask(q));
      q.Key().turn == t && q.Key() in after && IssuedNow(c, now, after, q, q.Key()) ==> q.Key() in made'
    ensures OnlyMadeAreNew(now, After(c, now, Ask(q)), made, made', t)
  {
    hide Decided, Purge;
    RowsAfterRequest(c, now, q);
  }

  lemma OneMoreMade(c: Config, now: Table, q: Request, made: set<DeliveryKey>, t: Turn, end: int)
    requires MadeInSpan(c, now, made, t, end) && q.now < end && q.Scope() == t
    requires |KeysOf(Purge(now, q.now), t)| < c.maxRounds
    ensures |made + {q.Key()}| <= c.maxRounds
  {
    assert made <= KeysOf(Purge(now, q.now), t);
    Shrinks(made, KeysOf(Purge(now, q.now), t));
    UnionIsNoLarger(made, {q.Key()});
  }

  lemma MadeStay(c: Config, now: Table, e: Event, made: set<DeliveryKey>, t: Turn, end: int) returns (made': set<DeliveryKey>)
    requires MadeInSpan(c, now, made, t, end)
    requires match e case Ask(q) => q.now < end <= q.now + c.ttl case Clear(session) => session == "" || session != t.session
    ensures var after := After(c, now, e); MadeInSpan(c, after, made', t, end) && OnlyMadeAreNew(now, after, made, made', t)
  {
    if e.Ask? {
      made' := MadeByRequest(c, now, e.q, made, t, end);
    } else {
      made' := made;
    }
  }

  lemma StepAccounts(c: Config, rows: Table, now: Table, e: Event, held: set<string>, made: set<DeliveryKey>, t: Turn, end: int)
    returns (made': set<DeliveryKey>)
    requires HeldIdsAccounted(rows, now, held, made, c, t, end)
    requires match e case Ask(q) => q.now < end <= q.now + c.ttl case Clear(session) => session == "" || session != t.session
    ensures var blocks := AsksTurn(e, t) && Decided(now, c.ttl, c.maxRounds, e.q).1.block;
      HeldIdsAccounted(rows, After(c, now, e), held + if blocks then {e.q.apiRequest} else {}, made', c, t, end)
  {
    hide After, Decided;
    made' := MadeStay(c, now, e, made, t, end);
    var after := After(c, now, e);
    forall id <- Named(now, made)
      ensures id in Named(after, made')
    {
      var k :| k in made && now[k].blocked == id;
      assert after[k].blocked == id;
    }
    if AsksTurn(e, t) && Decided(now, c.ttl, c.maxRounds, e.q).1.block {
      BlockedIsNamed(c, now, e.q, t);
      assert e.q.Key() in KeysOf(after, t);
      assert e.q.Key() in made' || after[e.q.Key()].blocked in IdsOf(rows, t);
    }
  }

  lemma BlockedIsNamed(c: Config, now: Table, q: Request, t: Turn)
    requires q.Scope() == t && Decided(now, c.ttl, c.maxRounds, q).1.block
    ensures var after := After(c, now, Ask(q)); q.Key() in KeysOf(after, t) && after[q.Key()].blocked == q.apiRequest
  {
    hide Decided;
    RowsAfterRequest(c, now, q);
  }

  lemma {:induction false} RunAccounts(c: Config, rows: Table, events: seq<Event>, t: Turn, start: int, n: nat)
    returns (made: set<DeliveryKey>)
    requires n <= |events| && InOneSpan(c, events, start) && NeverCleared(events, t.session)
    ensures HeldIdsAccounted(rows, TableAt(c, rows, events, n), BlockedIds(c, rows, events, t, n), made, c, t, start + c.ttl)
  {
    if n > 0 {
      hide HeldIdsAccounted, After, Decided, BlockedIds, Purge, KeysOf, IdsOf;
      made := RunAccounts(c, rows, events, t, start, n - 1);
      var e := events[n - 1];
      assert e in events;
      made := StepAccounts(c, rows, TableAt(c, rows, events, n - 1), e, BlockedIds(c, rows, events, t, n - 1), made, t, start + c.ttl);
      BlockedIdsStep(c, rows, events, t, n);
    } else {
      made := {};
      NoneBlocked(c, rows, events, t);
      assert forall k <- KeysOf(rows, t) :: rows[k].blocked in IdsOf(rows, t);
    }
  }

  lemma BlockedIdsStep(c: Config, rows: Table, events: seq<Event>, t: Turn, n: nat)
    requires 0 < n <= |events|
    ensures BlockedIds(c, rows, events, t, n) == BlockedIds(c, rows, events, t, n - 1) +
      if Blocks(c, rows, events, n - 1, t) then {events[n - 1].q.apiRequest} else {}
  {
    hide Blocks;
  }

  lemma {:induction false} CapIsKeptThroughout(c: Config, rows: Table, events: seq<Event>, t: Turn, n: nat)
    requires n <= |events| && |KeysOf(rows, t)| <= c.maxRounds
    ensures |KeysOf(TableAt(c, rows, events, n), t)| <= c.maxRounds
  {
    if n > 0 {
      CapIsKeptThroughout(c, rows, events, t, n - 1);
      CapIsKept(c, TableAt(c, rows, events, n - 1), events[n - 1], t);
    }
  }

  /** Rows that had expired when the span began change nothing in it. */
  lemma PurgedTwice(c: Config, a: Table, b: Table, e: Event, start: int)
    requires Purge(a, start) == Purge(b, start) && (e.Ask? ==> start <= e.q.now)
    ensures Purge(After(c, a, e), start) == Purge(After(c, b, e), start)
    ensures e.Ask? ==> Decided(a, c.ttl, c.maxRounds, e.q).1 == Decided(b, c.ttl, c.maxRounds, e.q).1
  {
    hide KeysOf;
    if e.Ask? {
      PurgesAgree(a, b, start, e.q.now);
    } else {
      ClearsAgree(a, b, e.session, start);
    }
  }

  lemma PurgesAgree(a: Table, b: Table, start: int, now: int)
    requires Purge(a, start) == Purge(b, start) && start <= now
    ensures Purge(a, now) == Purge(b, now)
  {
    assert Purge(a, now) == Purge(Purge(a, start), now) && Purge(b, now) == Purge(Purge(b, start), now);
  }

  lemma ClearsAgree(a: Table, b: Table, session: string, start: int)
    requires Purge(a, start) == Purge(b, start)
    ensures Purge(Cleared(a, session), start) == Purge(Cleared(b, session), start)
  {
    assert Purge(Cleared(a, session), start) == Cleared(Purge(a, start), session);
    assert Purge(Cleared(b, session), start) == Cleared(Purge(b, start), session);
  }

  lemma {:induction false} PurgedRunsAlike(c: Config, a: Table, b: Table, events: seq<Event>, t: Turn, start: int, n: nat)
    requires Purge(a, start) == Purge(b, start) && InOneSpan(c, events, start) && n <= |events|
    ensures Purge(TableAt(c, a, events, n), start) == Purge(TableAt(c, b, events, n), start)
    ensures BlockedIds(c, a, events, t, n) == BlockedIds(c, b, events, t, n)
  {
    hide After, Decided, Purge, BlockedIds;
    if n == 0 {
      NoneBlocked(c, a, events, t);
      NoneBlocked(c, b, events, t);
    } else {
      PurgedRunsAlike(c, a, b, events, t, start, n - 1);
      assert events[n - 1] in events;
      PurgedTwice(c, TableAt(c, a, events, n - 1), TableAt(c, b, events, n - 1), events[n - 1], start);
      BlockedIdsStep(c, a, events, t, n);
      BlockedIdsStep(c, b, events, t, n);
    }
  }

  lemma NoneBlocked(c: Config, rows: Table, events: seq<Event>, t: Turn)
    ensures BlockedIds(c, rows, events, t, 0) == {}
  {
  }

  /** Within one time-to-live and with no clear of its session, a turn with no delivery live at
      the start is interrupted for at most `maxRounds` distinct requests. With deliveries
      already live, at most those and `maxRounds` more. */
  lemma BoundedInterruption(c: Config, rows: Table, events: seq<Event>, t: Turn, start: int)
    requires InOneSpan(c, events, start) && NeverCleared(events, t.session)
    ensures |BlockedIds(c, rows, events, t, |events|)| <= |KeysOf(Purge(rows, start), t)| + c.maxRounds
  {
    hide TableAt, BlockedIds;
    var live := Purge(rows, start);
    assert Purge(live, start) == live;
    PurgedRunsAlike(c, rows, live, events, t, start, |events|);
    var now := TableAt(c, live, events, |events|);
    var held := BlockedIds(c, live, events, t, |events|);
    var made := RunAccounts(c, live, events, t, start, |events|);
    assert held <= IdsOf(live, t) + Named(now, made);
    NamedIsNoLarger(live, KeysOf(live, t));
    NamedIsNoLarger(now, made);
    assert IdsOf(live, t) == Named(live, KeysOf(live, t));
    Shrinks(held, IdsOf(live, t) + Named(now, made));
    UnionIsNoLarger(IdsOf(live, t), Named(now, made));
  }

  lemma UnionIsNoLarger<T>(a: set<T>, b: set<T>)
    ensures |a + b| <= |a| + |b|
  {
    assert a + b == a + (b - a) && |a + (b - a)| == |a| + |b - a|;
    Shrinks(b - a, b);
  }

  // ---- one delivery ----

  /** Nothing in the run ends this delivery: no clear of its session, no event at or past its expiry. */
  ghost predicate Outlives(row: Row, k: DeliveryKey, events: seq<Event>) {
    && NeverCleared(events, k.turn.session)
    && forall e <- events :: e.Ask? ==> e.q.now < row.expiresAt
  }

  /** Event `m` asks about the delivery for another request than the one it holds. */
  predicate AsksElsewhere(e: Event, k: DeliveryKey, held: string) {
    e.Ask? && e.q.Correlated() && e.q.Key() == k && e.q.apiRequest != held
  }

  ghost predicate AskedElsewhere(events: seq<Event>, k: DeliveryKey, held: string, n: nat) {
    exists m :: 0 <= m < n && m < |events| && AsksElsewhere(events[m], k, held)
  }

  lemma {:induction false} RowStays(c: Config, rows: Table, events: seq<Event>, k: DeliveryKey, n: nat)
    requires n <= |events| && k in rows && Outlives(rows[k], k, events)
    ensures var now := TableAt(c, rows, events, n);
      && k in now && now[k].blocked == rows[k].blocked && now[k].expiresAt == rows[k].expiresAt
      && (now[k].issued <==> rows[k].issued && !AskedElsewhere(events, k, rows[k].blocked, n))
  {
    hide AskedElsewhere, NeverCleared;
    if n == 0 {
      NoneAsked(events, k, rows[k].blocked);
    } else {
      RowStays(c, rows, events, k, n - 1);
      assert events[n - 1] in events;
      OneMoreAsked(events, k, rows[k].blocked, n);
      NotCleared(events, k.turn.session, n - 1);
      RowStep(c, TableAt(c, rows, events, n - 1), events[n - 1], k);
    }
  }

  lemma NoneAsked(events: seq<Event>, k: DeliveryKey, held: string)
    ensures !AskedElsewhere(events, k, held, 0)
  {
  }

  lemma OneMoreAsked(events: seq<Event>, k: DeliveryKey, held: string, n: nat)
    requires 0 < n <= |events|
    ensures AskedElsewhere(events, k, held, n)
      <==> AskedElsewhere(events, k, held, n - 1) || AsksElsewhere(events[n - 1], k, held)
  {
  }

  lemma NotCleared(events: seq<Event>, session: string, n: nat)
    requires n < |events| && NeverCleared(events, session)
    ensures events[n].Clear? ==> events[n].session == "" || events[n].session != session
  {
    assert events[n] in events;
  }

  /** One event on a live delivery: only a request from elsewhere changes it, by acknowledging it. */
  lemma RowStep(c: Config, now: Table, e: Event, k: DeliveryKey)
    requires k in now
    requires match e case Ask(q) => q.now < now[k].expiresAt case Clear(session) => session == "" || session != k.turn.session
    ensures var after := After(c, now, e);
      && k in after && after[k].blocked == now[k].blocked && after[k].expiresAt == now[k].expiresAt
      && (after[k].issued <==> now[k].issued && !AsksElsewhere(e, k, now[k].blocked))
  {
    hide KeysOf;
  }

  /** A live delivery holds a request exactly when it was issued for that request and no other
      request has asked about it before; a request it does not hold goes through as acknowledged. */
  lemma OneRequestPerDelivery(c: Config, rows: Table, events: seq<Event>, k: DeliveryKey, i: nat)
    requires k in rows && Outlives(rows[k], k, events)
    requires i < |events| && events[i].Ask? && events[i].q.Correlated() && events[i].q.Key() == k
    ensures var a := AnswerAt(c, rows, events, i);
      && (a.block <==> rows[k].issued && events[i].q.apiRequest == rows[k].blocked
                       && !AskedElsewhere(events, k, rows[k].blocked, i))
      && a.status == (if a.block then SameApiRequest else Acknowledged)
      && (!a.block ==> !TableAt(c, rows, events, i + 1)[k].issued)
  {
    hide AskedElsewhere;
    RowStays(c, rows, events, k, i);
    RowStays(c, rows, events, k, i + 1);
    assert events[i] in events;
    OneMoreAsked(events, k, rows[k].blocked, i + 1);
  }

  /** Once acknowledged, a live delivery never holds a call again. */
  lemma AcknowledgedNeverHolds(c: Config, rows: Table, events: seq<Event>, k: DeliveryKey, i: nat)
    requires k in rows && !rows[k].issued && Outlives(rows[k], k, events)
    requires i < |events| && events[i].Ask? && events[i].q.Correlated() && events[i].q.Key() == k
    ensures !AnswerAt(c, rows, events, i).block
  {
    OneRequestPerDelivery(c, rows, events, k, i);
  }

  // ---- turns do not interfere ----

  /** The answers to turn `t`, in order. */
  function Answers(c: Config, rows: Table, events: seq<Event>, t: Turn): seq<Action>
    decreases |events|
  {
    if events == [] then []
    else
      var e := events[0];
      (if AsksTurn(e, t) then [Decided(rows, c.ttl, c.maxRounds, e.q).1] else [])
      + Answers(c, After(c, rows, e), events[1..], t)
  }

  /** The same run without any other turn's requests. */
  function OnlyTurn(events: seq<Event>, t: Turn): seq<Event> {
    if events == [] then []
    else (if events[0].Ask? && !AsksTurn(events[0], t) then [] else [events[0]]) + OnlyTurn(events[1..], t)
  }

  /** The two tables hold the same deliveries of turn `t`, apart from expired ones. */
  ghost predicate AgreeOn(a: Table, b: Table, t: Turn, now: int) {
    forall k: DeliveryKey | k.turn == t :: SameLive(a, b, k, now)
  }

  predicate SameLive(a: Table, b: Table, k: DeliveryKey, now: int) {
    && ((k in a && a[k].expiresAt > now) <==> (k in b && b[k].expiresAt > now))
    && (k in a && a[k].expiresAt > now ==> a[k] == b[k])
  }

  lemma OwnRequestAgrees(c: Config, a: Table, b: Table, t: Turn, q: Request)
    requires AgreeOn(a, b, t, q.now) && q.Correlated() && q.Scope() == t
    ensures Decided(a, c.ttl, c.maxRounds, q).1 == Decided(b, c.ttl, c.maxRounds, q).1
    ensures AgreeOn(Decided(a, c.ttl, c.maxRounds, q).0, Decided(b, c.ttl, c.maxRounds, q).0, t, q.now)
  {
    assert SameLive(a, b, q.Key(), q.now);
    var la, lb := Purge(a, q.now), Purge(b, q.now);
    forall k ensures k in KeysOf(la, t) <==> k in KeysOf(lb, t) {
      if k.turn == t {
        assert SameLive(a, b, k, q.now);
      }
    }
    assert KeysOf(la, t) == KeysOf(lb, t);
    var a', b' := Decided(a, c.ttl, c.maxRounds, q).0, Decided(b, c.ttl, c.maxRounds, q).0;
    forall k: DeliveryKey | k.turn == t ensures SameLive(a', b', k, q.now) {
      assert SameLive(a, b, k, q.now);
    }
  }

  lemma ClearAgrees(a: Table, b: Table, t: Turn, session: string, now: int)
    requires AgreeOn(a, b, t, now)
    ensures AgreeOn(Cleared(a, session), Cleared(b, session), t, now)
  {
    forall k: DeliveryKey | k.turn == t ensures SameLive(Cleared(a, session), Cleared(b, session), k, now) {
      assert SameLive(a, b, k, now);
    }
  }

  /** The two tables hold the same deliveries of turn `t`, expired or not. */
  ghost predicate SameTurn(a: Table, b: Table, t: Turn) {
    forall k: DeliveryKey | k.turn == t :: (k in a <==> k in b) && (k in a ==> a[k] == b[k])
  }

  /** The same, but for rows that other turns' requests since the turn's own last one may have purged. */
  ghost predicate Close(a: Table, b: Table, t: Turn, read: Option<int>) {
    match read
    case None => SameTurn(a, b, t)
    case Some(at) => AgreeOn(a, b, t, at)
  }

  function Later(read: Option<int>, at: int): int {
    if read.Some? && read.value > at then read.value else at
  }

  predicate AsksOther(e: Event, t: Turn) {
    e.Ask? && e.q.Correlated() && e.q.Scope() != t
  }

  /** No request of turn `t` finds that another turn's, since the one of `t` before it, read a later clock. */
  predicate NeverAhead(events: seq<Event>, t: Turn, read: Option<int>) {
    if events == [] then true
    else if AsksTurn(events[0], t) then
      (read.Some? ==> read.value <= events[0].q.now) && NeverAhead(events[1..], t, None)
    else if AsksOther(events[0], t) then NeverAhead(events[1..], t, Some(Later(read, events[0].q.now)))
    else NeverAhead(events[1..], t, read)
  }

  lemma OwnStep(c: Config, a: Table, b: Table, t: Turn, q: Request, read: Option<int>)
    requires Close(a, b, t, read) && q.Correlated() && q.Scope() == t && (read.Some? ==> read.value <= q.now)
    ensures Decided(a, c.ttl, c.maxRounds, q).1 == Decided(b, c.ttl, c.maxRounds, q).1
    ensures SameTurn(Decided(a, c.ttl, c.maxRounds, q).0, Decided(b, c.ttl, c.maxRounds, q).0, t)
  {
    hide Decided;
    forall k: DeliveryKey | k.turn == t
      ensures SameLive(a, b, k, q.now)
    {
      assert read.Some? ==> SameLive(a, b, k, read.value);
    }
    OwnRequestAgrees(c, a, b, t, q);
    PurgedAgree(c, a, b, t, q);
  }

  /** After its own request a turn has no expired rows, so agreement is complete. */
  lemma PurgedAgree(c: Config, a: Table, b: Table, t: Turn, q: Request)
    requires AgreeOn(a, b, t, q.now) && q.Correlated() && q.Scope() == t
    requires Decided(a, c.ttl, c.maxRounds, q).1 == Decided(b, c.ttl, c.maxRounds, q).1
    ensures SameTurn(Decided(a, c.ttl, c.maxRounds, q).0, Decided(b, c.ttl, c.maxRounds, q).0, t)
  {
    hide KeysOf;
    var a', b' := Decided(a, c.ttl, c.maxRounds, q).0, Decided(b, c.ttl, c.maxRounds, q).0;
    assert SameLive(a, b, q.Key(), q.now);
    forall k: DeliveryKey | k.turn == t
      ensures (k in a' <==> k in b') && (k in a' ==> a'[k] == b'[k])
    {
      assert SameLive(a, b, k, q.now);
    }
  }

  lemma OtherStep(c: Config, a: Table, b: Table, t: Turn, q: Request, read: Option<int>)
    requires Close(a, b, t, read) && q.Correlated() && q.Scope() != t
    ensures Close(Decided(a, c.ttl, c.maxRounds, q).0, b, t, Some(Later(read, q.now)))
  {
    hide KeysOf;
    var a', at := Decided(a, c.ttl, c.maxRounds, q).0, Later(read, q.now);
    forall k: DeliveryKey | k.turn == t
      ensures SameLive(a', b, k, at)
    {
      assert read.Some? ==> SameLive(a, b, k, read.value);
    }
  }

  lemma ClearStep(a: Table, b: Table, t: Turn, session: string, read: Option<int>)
    requires Close(a, b, t, read)
    ensures Close(Cleared(a, session), Cleared(b, session), t, read)
  {
    if read.Some? {
      ClearAgrees(a, b, t, session, read.value);
    }
  }

  lemma {:induction false} CloseRunsAnswerAlike(c: Config, a: Table, b: Table, events: seq<Event>, t: Turn, read: Option<int>)
    requires Close(a, b, t, read) && NeverAhead(events, t, read)
    ensures Answers(c, a, events, t) == Answers(c, b, OnlyTurn(events, t), t)
    decreases |events|
  {
    hide Decided, Close, Later;
    if events != [] {
      var e, rest := events[0], events[1..];
      var onlyRest := OnlyTurn(rest, t);
      assert ([e] + onlyRest)[1..] == onlyRest;
      match e {
        case Clear(session) =>
          ClearStep(a, b, t, session, read);
          CloseRunsAnswerAlike(c, Cleared(a, session), Cleared(b, session), rest, t, read);
          assert OnlyTurn(events, t) == [e] + onlyRest;
        case Ask(q) =>
          if AsksTurn(e, t) {
            OwnStep(c, a, b, t, q, read);
            SameIsClose(After(c, a, e), After(c, b, e), t);
            CloseRunsAnswerAlike(c, After(c, a, e), After(c, b, e), rest, t, None);
            assert OnlyTurn(events, t) == [e] + onlyRest;
          } else if q.Correlated() {
            OtherStep(c, a, b, t, q, read);
            CloseRunsAnswerAlike(c, After(c, a, e), b, rest, t, Some(Later(read, q.now)));
            assert OnlyTurn(events, t) == [] + onlyRest == onlyRest;
          } else {
            UncorrelatedStep(c, a, q);
            CloseRunsAnswerAlike(c, a, b, rest, t, read);
            assert OnlyTurn(events, t) == [] + onlyRest == onlyRest;
          }
      }
    }
  }

  lemma SameIsClose(a: Table, b: Table, t: Turn)
    requires SameTurn(a, b, t)
    ensures Close(a, b, t, None)
  {
  }

  lemma UncorrelatedStep(c: Config, rows: Table, q: Request)
    requires !q.Correlated()
    ensures Decided(rows, c.ttl, c.maxRounds, q).0 == rows
  {
  }

  /** If no other turn's request reads ahead of the turn's next one, the other turns never change an answer in it. */
  lemma TurnsDoNotInterfere(c: Config, rows: Table, events: seq<Event>, t: Turn)
    requires NeverAhead(events, t, None)
    ensures Answers(c, rows, events, t) == Answers(c, rows, OnlyTurn(events, t), t)
  {
    SameIsClose(rows, rows, t);
    CloseRunsAnswerAlike(c, rows, rows, events, t, None);
  }

  /** So it is while the clock never runs backwards. */
  lemma {:induction false} ForwardClockNeverAhead(events: seq<Event>, t: Turn, read: Option<int>)
    requires ClockForward(events) && (read.Some? ==> forall e <- events :: e.Ask? ==> read.value <= e.q.now)
    ensures NeverAhead(events, t, read)
    decreases |events|
  {
    if events != [] {
      var rest := events[1..];
      assert events[0] in events && forall e <- rest :: e in events;
      ForwardRest(events);
      ForwardClockNeverAhead(rest, t, if AsksTurn(events[0], t) then None
                                      else if AsksOther(events[0], t) then Some(Later(read, events[0].q.now)) else read);
    }
  }

  lemma ForwardRest(events: seq<Event>)
    requires ClockForward(events) && events != []
    ensures ClockForward(events[1..])
    ensures events[0].Ask? ==> forall e <- events[1..] :: e.Ask? ==> events[0].q.now <= e.q.now
  {
  }

  /** While the clock never runs backwards, what happens in other turns never changes an answer in this one. */
  lemma ForwardClockSeparatesTurns(c: Config, rows: Table, events: seq<Event>, t: Turn)
    requires ClockForward(events)
    ensures Answers(c, rows, events, t) == Answers(c, rows, OnlyTurn(events, t), t)
  {
    ForwardClockNeverAhead(events, t, None);
    TurnsDoNotInterfere(c, rows, events, t);
  }

  // ---- and the condition is needed ----

  ghost predicate OwnForward(events: seq<Event>, t: Turn) {
    forall i, j :: 0 <= i < j < |events| && AsksTurn(events[i], t) && AsksTurn(events[j], t) ==>
      events[i].q.now <= events[j].q.now
  }

  /** The first request of turn `t` that finds another turn's ahead of it. */
  function FirstBehind(events: seq<Event>, t: Turn, read: Option<int>): (found: Option<Request>)
    ensures found == None <==> NeverAhead(events, t, read)
    ensures found.Some? ==> Ask(found.value) in events && AsksTurn(Ask(found.value), t)
  {
    if events == [] then None
    else if AsksTurn(events[0], t) then
      if read.Some? && read.value > events[0].q.now then Some(events[0].q) else FirstBehind(events[1..], t, None)
    else if AsksOther(events[0], t) then FirstBehind(events[1..], t, Some(Later(read, events[0].q.now)))
    else FirstBehind(events[1..], t, read)
  }

  /** Event `i` is the first request of turn `t`. */
  ghost predicate FirstOwn(events: seq<Event>, t: Turn, i: int) {
    0 <= i < |events| && AsksTurn(events[i], t) && forall j :: 0 <= j < i ==> !AsksTurn(events[j], t)
  }

  /** Another turn's request `m` reads a later clock than the next request `i` of turn `t`. */
  ghost predicate AheadOf(events: seq<Event>, t: Turn, m: int, i: int) {
    && 0 <= m < i < |events| && AsksOther(events[m], t) && AsksTurn(events[i], t)
    && (forall j :: m < j < i ==> !AsksTurn(events[j], t))
    && events[m].q.now > events[i].q.now
  }

  lemma AheadShifts(events: seq<Event>, t: Turn, m: int, i: int)
    requires events != [] && 0 <= m < i
    ensures AheadOf(events, t, m + 1, i + 1) <==> AheadOf(events[1..], t, m, i)
  {
    assert forall j :: 0 <= j < |events| - 1 ==> events[1..][j] == events[j + 1];
    if AheadOf(events, t, m + 1, i + 1) {
      forall j | m < j < i
        ensures !AsksTurn(events[1..][j], t)
      {
        assert events[1..][j] == events[j + 1];
      }
    }
    if AheadOf(events[1..], t, m, i) {
      forall j | m + 1 < j < i + 1
        ensures !AsksTurn(events[j], t)
      {
        assert events[1..][j - 1] == events[j];
      }
    }
  }

  lemma FirstOwnShifts(events: seq<Event>, t: Turn, i: int)
    requires events != [] && !AsksTurn(events[0], t) && 0 <= i
    ensures FirstOwn(events, t, i + 1) <==> FirstOwn(events[1..], t, i)
    ensures i < |events| - 1 && AsksOther(events[0], t) ==>
      (AheadOf(events, t, 0, i + 1) <==> FirstOwn(events[1..], t, i) && events[0].q.now > events[i + 1].q.now)
  {
    assert forall j :: 0 <= j < |events| - 1 ==> events[1..][j] == events[j + 1];
    if FirstOwn(events[1..], t, i) {
      forall j | 0 <= j < i + 1
        ensures !AsksTurn(events[j], t)
      {
        assert j > 0 ==> events[1..][j - 1] == events[j];
      }
    }
  }

  /** In terms of the events: no request of another turn is ahead of the next one of this turn. */
  lemma {:induction false} NeverAheadMeaning(events: seq<Event>, t: Turn, read: Option<int>)
    ensures NeverAhead(events, t, read)
      <==> (forall m, i :: !AheadOf(events, t, m, i))
           && (read.Some? ==> forall i :: FirstOwn(events, t, i) ==> read.value <= events[i].q.now)
    decreases |events|
  {
    hide NeverAhead, AheadOf, FirstOwn;
    if events == [] {
      NothingAhead(t, read);
    } else {
      var rest := events[1..];
      var read' := if AsksTurn(events[0], t) then None
                   else if AsksOther(events[0], t) then Some(Later(read, events[0].q.now)) else read;
      NeverAheadMeaning(rest, t, read');
      AheadSplits(events, t);
      NeverAheadSplits(events, t, read);
    }
  }

  lemma NothingAhead(t: Turn, read: Option<int>)
    ensures NeverAhead([], t, read) && (forall m, i :: !AheadOf([], t, m, i)) && forall i :: !FirstOwn([], t, i)
  {
  }

  lemma NeverAheadSplits(events: seq<Event>, t: Turn, read: Option<int>)
    requires events != []
    ensures var read' := if AsksTurn(events[0], t) then None
                         else if AsksOther(events[0], t) then Some(Later(read, events[0].q.now)) else read;
      NeverAhead(events, t, read) <==>
        NeverAhead(events[1..], t, read') && (AsksTurn(events[0], t) && read.Some? ==> read.value <= events[0].q.now)
  {
  }

  lemma AheadSplits(events: seq<Event>, t: Turn)
    requires events != []
    ensures var rest := events[1..];
      && (forall i :: AsksTurn(events[0], t) ==> (FirstOwn(events, t, i) <==> i == 0))
      && (!AsksTurn(events[0], t) ==>
            (forall i :: FirstOwn(events, t, i) ==> FirstOwn(rest, t, i - 1) && events[i] == rest[i - 1])
            && forall i :: FirstOwn(rest, t, i) ==> FirstOwn(events, t, i + 1) && events[i + 1] == rest[i])
      && ((forall m, i :: !AheadOf(events, t, m, i)) <==>
            (forall m, i :: !AheadOf(rest, t, m, i))
            && (AsksOther(events[0], t) ==> forall i :: FirstOwn(rest, t, i) ==> events[0].q.now <= rest[i].q.now))
  {
    var rest := events[1..];
    if !AsksTurn(events[0], t) {
      forall i | FirstOwn(events, t, i)
        ensures FirstOwn(rest, t, i - 1)
      {
        FirstOwnShifts(events, t, i - 1);
      }
      forall i | FirstOwn(rest, t, i)
        ensures FirstOwn(events, t, i + 1)
      {
        FirstOwnShifts(events, t, i);
      }
    }
    AheadBoth(events, t);
  }

  lemma AheadBoth(events: seq<Event>, t: Turn)
    requires events != []
    ensures var rest := events[1..];
      (forall m, i :: !AheadOf(events, t, m, i)) <==>
        (forall m, i :: !AheadOf(rest, t, m, i))
        && (AsksOther(events[0], t) ==> forall i :: FirstOwn(rest, t, i) ==> events[0].q.now <= rest[i].q.now)
  {
    hide AheadOf;
    var rest := events[1..];
    forall m, i | AheadOf(rest, t, m, i)
      ensures AheadOf(events, t, m + 1, i + 1)
    {
      AheadBounds(rest, t, m, i);
      AheadShifts(events, t, m, i);
    }
    forall m, i | AheadOf(events, t, m, i)
      ensures AheadOf(rest, t, m - 1, i - 1)
           || (AsksOther(events[0], t) && FirstOwn(rest, t, i - 1) && events[0].q.now > rest[i - 1].q.now)
    {
      AheadBounds(events, t, m, i);
      if m > 0 {
        AheadShifts(events, t, m - 1, i - 1);
      } else {
        FirstOwnShifts(events, t, i - 1);
      }
    }
    forall i | AsksOther(events[0], t) && FirstOwn(rest, t, i)
      ensures 0 <= i < |rest| && (AheadOf(events, t, 0, i + 1) <==> events[0].q.now > rest[i].q.now)
    {
      FirstOwnBounds(rest, t, i);
      FirstOwnShifts(events, t, i);
    }
  }

  lemma AheadBounds(events: seq<Event>, t: Turn, m: int, i: int)
    requires AheadOf(events, t, m, i)
    ensures 0 <= m < i < |events| && AsksOther(events[m], t) && AsksTurn(events[i], t)
    ensures m == 0 && i > 0 ==> !AsksTurn(events[0], t)
  {
  }

  lemma FirstOwnBounds(events: seq<Event>, t: Turn, i: int)
    requires FirstOwn(events, t, i)
    ensures 0 <= i < |events| && AsksTurn(events[i], t)
  {
  }

  /** A delivery made one time to live before the instant after the request, and then acknowledged. */
  function Telltale(q: Request, ttl: int): Row {
    Row("first", Some("second"), false, q.now + 1 - ttl, q.now + 1)
  }

  /** Some run of the ledger from an empty table, under some cap, ends with these rows. */
  ghost predicate Written(ttl: int, rows: Table) {
    exists cap: nat, events: seq<Event> :: rows == TableAt(Config(ttl, cap), map[], events, |events|)
  }

  lemma TelltaleIsWritten(ttl: int, q: Request)
    requires ttl > 0 && q.Correlated()
    ensures Written(ttl, map[q.Key() := Telltale(q, ttl)])
  {
    hide Decided, Purge, KeysOf;
    var c := Config(ttl, 1);
    var first := q.(apiRequest := "first", now := q.now + 1 - ttl);
    var second := first.(apiRequest := "second");
    var rows := FreshTable(c, map[], first);
    assert first.Key() == second.Key() == q.Key();
    assert rows.Keys == {q.Key()};
    SecondWrites(c, rows, second);
    AfterTwo(c, Ask(first), Ask(second));
  }

  lemma AfterTwo(c: Config, first: Event, second: Event)
    ensures Written(c.ttl, After(c, After(c, map[], first), second))
  {
    hide After;
    var events := [first, second];
    assert TableAt(c, map[], events, 1) == After(c, TableAt(c, map[], events, 0), events[0]);
    assert TableAt(c, map[], events, |events|) == After(c, TableAt(c, map[], events, 1), events[1]);
    assert c == Config(c.ttl, c.maxRounds);
  }

  lemma SecondWrites(c: Config, rows: Table, q: Request)
    requires q.Correlated() && q.Key() in rows && rows.Keys == {q.Key()}
    requires var row := rows[q.Key()]; row.issued && row.expiresAt > q.now && row.blocked != q.apiRequest
    ensures Decided(rows, c.ttl, c.maxRounds, q).0
         == map[q.Key() := rows[q.Key()].(issued := false, acknowledged := Some(q.apiRequest))]
  {
  }

  predicate Keeps(c: Config, rows: Table, q: Request) {
    q.Key() in rows && rows[q.Key()] == Telltale(q, c.ttl)
  }

  /** The delivery is still there unless some other turn's request read past its expiry. */
  predicate Parted(c: Config, a: Table, b: Table, q: Request, read: Option<int>) {
    Keeps(c, b, q) && if read.Some? && read.value > q.now then q.Key() !in a else Keeps(c, a, q)
  }

  lemma KeepsThroughOwn(c: Config, rows: Table, q: Request, own: Request)
    requires Keeps(c, rows, q) && own.now <= q.now
    ensures Keeps(c, Decided(rows, c.ttl, c.maxRounds, own).0, q)
  {
    hide KeysOf;
  }

  lemma PartedByOther(c: Config, a: Table, b: Table, q: Request, other: Request, read: Option<int>)
    requires Parted(c, a, b, q, read) && other.Correlated() && other.Scope() != q.Scope()
    ensures Parted(c, Decided(a, c.ttl, c.maxRounds, other).0, b, q, Some(Later(read, other.now)))
  {
    hide KeysOf;
  }

  lemma TelltaleTells(c: Config, a: Table, b: Table, q: Request)
    requires q.Correlated() && Keeps(c, b, q) && q.Key() !in a
    ensures Decided(a, c.ttl, c.maxRounds, q).1 != Decided(b, c.ttl, c.maxRounds, q).1
  {
    hide KeysOf;
  }

  lemma AnswersHead(c: Config, rows: Table, e: Event, rest: seq<Event>, t: Turn)
    ensures var later := Answers(c, After(c, rows, e), rest, t);
      Answers(c, rows, [e] + rest, t) == if AsksTurn(e, t) then [Decided(rows, c.ttl, c.maxRounds, e.q).1] + later else later
  {
    hide Decided;
    assert ([e] + rest)[1..] == rest;
  }

  lemma {:induction false} PartedRunsDiffer(c: Config, a: Table, b: Table, events: seq<Event>, t: Turn, read: Option<int>, q: Request)
    requires FirstBehind(events, t, read) == Some(q) && Parted(c, a, b, q, read)
    requires OwnForward(events, t) && NeverCleared(events, t.session)
    ensures Answers(c, a, events, t) != Answers(c, b, OnlyTurn(events, t), t)
    decreases |events|, 1
  {
    hide Decided, Parted, Keeps, Later;
    var e, rest := events[0], events[1..];
    var onlyRest := OnlyTurn(rest, t);
    assert [e] + rest == events;
    AnswersHead(c, a, e, rest, t);
    AnswersHead(c, b, e, onlyRest, t);
    RestOf(events, t);
    if AsksTurn(e, t) {
      assert OnlyTurn(events, t) == [e] + onlyRest;
      OwnTells(c, a, b, events, t, read, q);
    } else if AsksOther(e, t) {
      PartedByOther(c, a, b, q, e.q, read);
      PartedRunsDiffer(c, After(c, a, e), b, rest, t, Some(Later(read, e.q.now)), q);
      assert OnlyTurn(events, t) == [] + onlyRest == onlyRest;
    } else if e.Ask? {
      UncorrelatedStep(c, a, e.q);
      PartedRunsDiffer(c, a, b, rest, t, read, q);
      assert OnlyTurn(events, t) == [] + onlyRest == onlyRest;
    } else {
      PartedByClear(c, a, b, q, read, e.session);
      PartedRunsDiffer(c, After(c, a, e), After(c, b, e), rest, t, read, q);
      assert OnlyTurn(events, t) == [e] + onlyRest;
    }
  }

  lemma PartedByClear(c: Config, a: Table, b: Table, q: Request, read: Option<int>, session: string)
    requires Parted(c, a, b, q, read) && (session == "" || session != q.session)
    ensures Parted(c, Cleared(a, session), Cleared(b, session), q, read)
  {
  }

  lemma RestOf(events: seq<Event>, t: Turn)
    requires events != [] && OwnForward(events, t) && NeverCleared(events, t.session)
    ensures OwnForward(events[1..], t) && NeverCleared(events[1..], t.session)
    ensures AsksTurn(events[0], t) ==> forall e <- events[1..] :: AsksTurn(e, t) ==> events[0].q.now <= e.q.now
    ensures events[0].Clear? ==> events[0].session == "" || events[0].session != t.session
  {
    assert events[0] in events;
  }

  /** At the turn's own request the two runs differ now, or go on as parted as before. */
  lemma OwnTells(c: Config, a: Table, b: Table, events: seq<Event>, t: Turn, read: Option<int>, q: Request)
    requires events != [] && AsksTurn(events[0], t) && FirstBehind(events, t, read) == Some(q) && Parted(c, a, b, q, read)
    requires OwnForward(events, t) && NeverCleared(events, t.session)
    ensures Answers(c, a, events, t) != Answers(c, b, [events[0]] + OnlyTurn(events[1..], t), t)
    decreases |events|, 0
  {
    hide Decided, Answers, OnlyTurn;
    var e, rest := events[0], events[1..];
    var onlyRest := OnlyTurn(rest, t);
    assert [e] + rest == events;
    AnswersHead(c, a, e, rest, t);
    AnswersHead(c, b, e, onlyRest, t);
    RestOf(events, t);
    if read.Some? && read.value > e.q.now {
      TelltaleTells(c, a, b, q);
      assert Answers(c, a, events, t)[0] != Answers(c, b, [e] + onlyRest, t)[0];
    } else {
      KeepsThroughOwn(c, a, q, e.q);
      KeepsThroughOwn(c, b, q, e.q);
      PartedRunsDiffer(c, After(c, a, e), After(c, b, e), rest, t, None, q);
      TailsDiffer(Decided(a, c.ttl, c.maxRounds, e.q).1, Answers(c, After(c, a, e), rest, t),
                  Decided(b, c.ttl, c.maxRounds, e.q).1, Answers(c, After(c, b, e), onlyRest, t));
    }
  }

  lemma TailsDiffer(x: Action, a: seq<Action>, y: Action, b: seq<Action>)
    requires a != b
    ensures [x] + a != [y] + b
  {
    assert ([x] + a)[1..] == a && ([y] + b)[1..] == b;
  }

  /**
   * For a turn whose own requests are in order of time and whose session is not cleared: over all
   * tables the run may start from, its answers are untouched by the other turns if and only if none
   * of their requests reads a clock ahead of the turn's next request. The tables this ledger can
   * have written, under any cap, are enough to tell.
   */
  lemma TurnsAreIndependentExactly(c: Config, events: seq<Event>, t: Turn)
    requires OwnForward(events, t) && NeverCleared(events, t.session)
    ensures (forall rows: Table :: Answers(c, rows, events, t) == Answers(c, rows, OnlyTurn(events, t), t))
      <==> NeverAhead(events, t, None)
    ensures c.ttl > 0 ==>
      ((forall rows: Table | Written(c.ttl, rows) :: Answers(c, rows, events, t) == Answers(c, rows, OnlyTurn(events, t), t))
        <==> NeverAhead(events, t, None))
  {
    hide Answers, NeverAhead, Written;
    if NeverAhead(events, t, None) {
      forall rows: Table
        ensures Answers(c, rows, events, t) == Answers(c, rows, OnlyTurn(events, t), t)
      {
        TurnsDoNotInterfere(c, rows, events, t);
      }
    } else {
      var q := FirstBehind(events, t, None).value;
      var rows: Table := map[q.Key() := Telltale(q, c.ttl)];
      if c.ttl > 0 {
        TelltaleIsWritten(c.ttl, q);
      }
      PartedRunsDiffer(c, rows, rows, events, t, None, q);
      assert Answers(c, rows, events, t) != Answers(c, rows, OnlyTurn(events, t), t);
    }
  }

  /** With a clock that steps back they can: another turn's request expires this turn's
      delivery early, and the same guidance holds a second request. */
  lemma SteppedBackClockInterferes(first: Request, other: Request, again: Request, c: Config)
    requires first.Correlated() && other.Correlated() && again.Correlated()
    requires first.Key() == again.Key() && other.Scope() != first.Scope()
    requires first.apiRequest != again.apiRequest && c.maxRounds > 0 && c.ttl > 0
    requires first.now <= again.now < first.now + c.ttl <= other.now
    ensures var events, t := [Ask(first), Ask(other), Ask(again)], first.Scope();
      && Answers(c, map[], events, t) == [Action(true, Issued), Action(true, Issued)]
      && Answers(c, map[], OnlyTurn(events, t), t) == [Action(true, Issued), Action(false, Acknowledged)]
  {
    hide Decided;
    var t, events := first.Scope(), [Ask(first), Ask(other), Ask(again)];
    var one := FreshTable(c, map[], first);
    var two := Decided(one, c.ttl, c.maxRounds, other).0;
    RowsAfterRequest(c, one, other);
    var _ := FreshTable(c, two, again);
    SecondRequestAcknowledges(c, one, again);
    assert events[1..] == [Ask(other), Ask(again)] && events[1..][1..] == [Ask(again)];
    AnswersOfOne(c, two, again, t);
    AnswersOfOne(c, one, again, t);
    assert OnlyTurn([Ask(again)], t) == [Ask(again)];
    assert OnlyTurn(events[1..], t) == [Ask(again)];
    assert OnlyTurn(events, t) == [Ask(first), Ask(again)];
    assert [Ask(first), Ask(again)][1..] == [Ask(again)];
    assert Answers(c, one, events[1..], t) == Answers(c, two, [Ask(again)], t);
  }

  lemma FreshTable(c: Config, rows: Table, q: Request) returns (after: Table)
    requires q.Correlated() && c.maxRounds > 0
    requires forall k <- rows.Keys :: k.turn == q.Scope() ==> rows[k].expiresAt <= q.now
    ensures Decided(rows, c.ttl, c.maxRounds, q) == (after, Action(true, Issued))
    ensures q.Key() in after && after[q.Key()] == Row(q.apiRequest, None, true, q.now, q.now + c.ttl)
    ensures forall k <- after.Keys :: k == q.Key() || k in rows
  {
    var live := Purge(rows, q.now);
    assert KeysOf(live, q.Scope()) == {};
    after := live[q.Key() := Row(q.apiRequest, None, true, q.now, q.now + c.ttl)];
  }

  lemma SecondRequestAcknowledges(c: Config, rows: Table, q: Request)
    requires q.Correlated() && q.Key() in rows && rows[q.Key()].expiresAt > q.now
    requires rows[q.Key()].blocked != q.apiRequest
    ensures Decided(rows, c.ttl, c.maxRounds, q).1 == Action(false, Acknowledged)
  {
  }

  lemma AnswersOfOne(c: Config, rows: Table, q: Request, t: Turn)
    requires q.Correlated() && q.Scope() == t
    ensures Answers(c, rows, [Ask(q)], t) == [Decided(rows, c.ttl, c.maxRounds, q).1]
  {
    assert [Ask(q)][1..] == [];
    assert Answers(c, After(c, rows, Ask(q)), [], t) == [];
  }
}
