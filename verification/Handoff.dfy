/** Reminders waiting for the frame of a call whose check ran first: bounded, short-lived,
    each taken by at most one frame. */
module Handoff {
  import opened Deliveries

  const TTL := 60_000
  const LIMIT := 256

  /** What identifies a call; `args` stands for the digest of its arguments. */
  datatype CallKey = CallKey(session: string, task: string, toolCall: string, tool: string, args: string)

  /** Times are clock readings in milliseconds. */
  datatype Entry = Entry(key: CallKey, at: int, reminders: seq<Reminder>)

  function WithoutKey(entries: seq<Entry>, key: CallKey): (rest: seq<Entry>)
    ensures forall e :: e in rest <==> e in entries && e.key != key
    ensures |rest| <= |entries|
  {
    if entries == [] then []
    else (if entries[0].key == key then [] else [entries[0]]) + WithoutKey(entries[1..], key)
  }

  function Find(entries: seq<Entry>, key: CallKey): (found: seq<Entry>)
    ensures |found| <= 1 && forall e <- found :: e in entries && e.key == key
    ensures found == [] <==> forall e <- entries :: e.key != key
  {
    if entries == [] then []
    else if entries[0].key == key then [entries[0]]
    else Find(entries[1..], key)
  }

  function Unexpired(entries: seq<Entry>, now: int): (rest: seq<Entry>)
    ensures forall e :: e in rest <==> e in entries && now - e.at <= TTL
    ensures |rest| <= |entries|
  {
    if entries == [] then []
    else (if now - entries[0].at > TTL then [] else [entries[0]]) + Unexpired(entries[1..], now)
  }

  /** Make room for one more: the oldest go first. */
  function MakeRoom(entries: seq<Entry>): (rest: seq<Entry>)
    ensures |rest| < LIMIT
    ensures forall e <- rest :: e in entries
    ensures |entries| < LIMIT ==> rest == entries
  {
    if |entries| >= LIMIT then entries[|entries| - LIMIT + 1..] else entries
  }

  function AddNew(reminders: seq<Reminder>, r: Reminder): (all: seq<Reminder>)
    ensures reminders <= all && r in all
    ensures forall x <- all :: x in reminders || x == r
    ensures Distinct(reminders) ==> Distinct(all)
  {
    if r in reminders then reminders else reminders + [r]
  }

  /** Putting under a key already waiting keeps its reminders and restarts its time. */
  function Put(entries: seq<Entry>, key: CallKey, r: Reminder, now: int): seq<Entry> {
    var found := Find(entries, key);
    var room := MakeRoom(Unexpired(WithoutKey(entries, key), now));
    room + [Entry(key, now, AddNew(if found == [] then [] else found[0].reminders, r))]
  }

  function Take(entries: seq<Entry>, key: CallKey, now: int): (seq<Entry>, seq<Reminder>) {
    var found := Find(entries, key);
    (WithoutKey(entries, key),
     if found == [] || now - found[0].at > TTL then [] else found[0].reminders)
  }

  class ReminderHandoff {
    var entries: seq<Entry>

    constructor ()
      ensures entries == []
    {
      entries := [];
    }

    method Expire(now: int)
      modifies this
      ensures entries == MakeRoom(Unexpired(old(entries), now))
    {
      entries := Unexpired(entries, now);
      ghost var all := entries;
      while |entries| >= LIMIT
        invariant MakeRoom(entries) == MakeRoom(all)
      {
        entries := entries[1..];
      }
    }

    /** `now` was read before the lock was taken. */
    method PutReminder(key: CallKey, r: Reminder, now: int)
      modifies this
      ensures entries == Put(old(entries), key, r, now)
    {
      var found := Find(entries, key);
      entries := WithoutKey(entries, key);
      Expire(now);
      var reminders := if found == [] then [] else found[0].reminders;
      if r !in reminders {
        reminders := reminders + [r];
      }
      entries := entries + [Entry(key, now, reminders)];
    }

    method TakeReminders(key: CallKey, now: int) returns (reminders: seq<Reminder>)
      modifies this
      ensures (entries, reminders) == Take(old(entries), key, now)
    {
      var found := Find(entries, key);
      entries := WithoutKey(entries, key);
      reminders := if found == [] || now - found[0].at > TTL then [] else found[0].reminders;
    }
  }

  // ---- the table with its history ----

  /** Where the reminder of a put is. One that joins a waiting entry shares that entry's fate. */
  datatype Place = Waiting(key: CallKey) | TakenBy(frame: nat) | Lapsed

  /** `puts[n]` is the reminder of the n-th put, `places[n]` where it is now. */
  datatype Table = Table(entries: seq<Entry>, puts: seq<Reminder>, places: seq<Place>)

  const EMPTY_TABLE := Table([], [], [])

  /** A drop is a take whose reminders nobody wants: the call's own verdict replaces them. */
  datatype Op =
    | PutOp(key: CallKey, r: Reminder, now: int)
    | TakeOp(key: CallKey, now: int, frame: nat)
    | DropOp(key: CallKey, now: int)

  /** Puts whose entry is gone have lapsed. */
  function Settle(places: seq<Place>, left: seq<Entry>): (settled: seq<Place>)
    ensures |settled| == |places|
    ensures forall n :: 0 <= n < |places| ==>
      settled[n] == if places[n].Waiting? && Find(left, places[n].key) == [] then Lapsed else places[n]
  {
    seq(|places|, n requires 0 <= n < |places| =>
      if places[n].Waiting? && Find(left, places[n].key) == [] then Lapsed else places[n])
  }

  /** The puts that wait under the key go to the frame. */
  function HandTo(places: seq<Place>, key: CallKey, frame: nat): (handed: seq<Place>)
    ensures |handed| == |places|
    ensures forall n :: 0 <= n < |places| ==>
      handed[n] == if places[n] == Waiting(key) then TakenBy(frame) else places[n]
  {
    seq(|places|, n requires 0 <= n < |places| => if places[n] == Waiting(key) then TakenBy(frame) else places[n])
  }

  /** What an operation hands over. */
  function Given(t: Table, op: Op): seq<Reminder> {
    if op.TakeOp? then Take(t.entries, op.key, op.now).1 else []
  }

  function Step(t: Table, op: Op): Table {
    match op
    case PutOp(key, r, now) =>
      var entries := Put(t.entries, key, r, now);
      Table(entries, t.puts + [r], Settle(t.places, entries) + [Waiting(key)])
    case TakeOp(key, now, frame) =>
      var entries := Take(t.entries, key, now).0;
      Table(entries, t.puts, Settle(if Given(t, op) == [] then t.places else HandTo(t.places, key, frame), entries))
    case DropOp(key, now) =>
      var entries := Take(t.entries, key, now).0;
      Table(entries, t.puts, Settle(t.places, entries))
  }

  ghost predicate DistinctKeys(entries: seq<Entry>) {
    forall i, j :: 0 <= i < j < |entries| ==> entries[i].key != entries[j].key
  }

  /** Put `n` waits in its entry. */
  predicate WaitsInEntry(t: Table, n: nat)
    requires n < |t.places| == |t.puts|
  {
    t.places[n].Waiting? ==>
      var found := Find(t.entries, t.places[n].key);
      found != [] && t.puts[n] in found[0].reminders
  }

  /** A waiting reminder came from a put. */
  ghost predicate CameFromPut(t: Table, key: CallKey, r: Reminder)
    requires |t.places| == |t.puts|
  {
    exists n :: 0 <= n < |t.puts| && t.places[n] == Waiting(key) && t.puts[n] == r
  }

  /** One entry a call, never more than the limit; waiting puts and waiting reminders are the same. */
  ghost predicate TableOk(t: Table) {
    && |t.entries| <= LIMIT
    && DistinctKeys(t.entries)
    && |t.places| == |t.puts|
    && (forall e <- t.entries :: Distinct(e.reminders) && e.reminders != [])
    && (forall n :: 0 <= n < |t.places| ==> WaitsInEntry(t, n))
    && (forall e <- t.entries, r <- e.reminders :: CameFromPut(t, e.key, r))
  }

  lemma {:induction false} FindOnly(entries: seq<Entry>, e: Entry)
    requires DistinctKeys(entries) && e in entries
    ensures Find(entries, e.key) == [e]
  {
    if entries[0] != e {
      assert e in entries[1..];
      FindOnly(entries[1..], e);
    }
  }

  lemma {:induction false} WithoutKeepsDistinct(entries: seq<Entry>, key: CallKey)
    requires DistinctKeys(entries)
    ensures DistinctKeys(WithoutKey(entries, key))
    ensures key in (set e <- entries :: e.key) ==> |WithoutKey(entries, key)| < |entries|
  {
    if entries != [] {
      WithoutKeepsDistinct(entries[1..], key);
      assert entries == [entries[0]] + entries[1..];
    }
  }

  lemma {:induction false} UnexpiredKeepsDistinct(entries: seq<Entry>, now: int)
    requires DistinctKeys(entries)
    ensures DistinctKeys(Unexpired(entries, now))
  {
    if entries != [] {
      UnexpiredKeepsDistinct(entries[1..], now);
    }
  }

  /** The rest of the table after a put or a take: some of the other entries. */
  lemma OthersStay(t: Table, key: CallKey, now: int)
    requires TableOk(t)
    ensures DistinctKeys(WithoutKey(t.entries, key))
    ensures DistinctKeys(MakeRoom(Unexpired(WithoutKey(t.entries, key), now)))
  {
    WithoutKeepsDistinct(t.entries, key);
    UnexpiredKeepsDistinct(WithoutKey(t.entries, key), now);
  }

  /** Some entries are gone, and the puts that waited in those, and only those, wait no more. */
  ghost predicate FewerEntries(t: Table, left: seq<Entry>, places: seq<Place>) {
    && DistinctKeys(left) && |left| <= LIMIT
    && (forall e <- left :: e in t.entries)
    && |places| == |t.places|
    && forall n :: 0 <= n < |places| ==>
      places[n] == t.places[n] || (t.places[n].Waiting? && !places[n].Waiting? && Find(left, t.places[n].key) == [])
  }

  lemma FewerWaits(t: Table, left: seq<Entry>, places: seq<Place>, n: nat)
    requires TableOk(t) && FewerEntries(t, left, places) && n < |places|
    ensures WaitsInEntry(Table(left, t.puts, Settle(places, left)), n)
  {
    var after := Table(left, t.puts, Settle(places, left));
    if after.places[n].Waiting? {
      var e := Find(left, after.places[n].key)[0];
      assert WaitsInEntry(t, n);
      FindOnly(t.entries, e);
    }
  }

  lemma FewerCameFrom(t: Table, left: seq<Entry>, places: seq<Place>, e: Entry, r: Reminder)
    requires TableOk(t) && FewerEntries(t, left, places) && e in left && r in e.reminders
    ensures CameFromPut(Table(left, t.puts, Settle(places, left)), e.key, r)
  {
    assert CameFromPut(t, e.key, r);
    var n :| 0 <= n < |t.puts| && t.places[n] == Waiting(e.key) && t.puts[n] == r;
    FindOnly(left, e);
    assert Settle(places, left)[n] == Waiting(e.key);
  }

  lemma FewerEntriesOk(t: Table, left: seq<Entry>, places: seq<Place>)
    requires TableOk(t) && FewerEntries(t, left, places)
    ensures TableOk(Table(left, t.puts, Settle(places, left)))
  {
    hide WaitsInEntry, CameFromPut, Find;
    var after := Table(left, t.puts, Settle(places, left));
    forall n | 0 <= n < |after.places| ensures WaitsInEntry(after, n) {
      FewerWaits(t, left, places, n);
    }
    forall e <- left, r <- e.reminders ensures CameFromPut(after, e.key, r) {
      FewerCameFrom(t, left, places, e, r);
    }
  }

  /** The entries after a put: some of the others unchanged, and the key's own at the end. */
  ghost predicate AfterPut(t: Table, after: Table, room: seq<Entry>, e: Entry, op: Op)
    requires op.PutOp?
  {
    && after.entries == room + [e] && e.key == op.key && DistinctKeys(after.entries)
    && (forall x <- room :: x in t.entries)
    && (forall y <- e.reminders :: y == op.r || (Find(t.entries, op.key) != [] && y in Find(t.entries, op.key)[0].reminders))
    && (Find(t.entries, op.key) != [] ==> forall y <- Find(t.entries, op.key)[0].reminders :: y in e.reminders)
    && op.r in e.reminders && Distinct(e.reminders)
    && after.puts == t.puts + [op.r] && after.places == Settle(t.places, after.entries) + [Waiting(op.key)]
  }

  lemma PutShape(t: Table, op: Op) returns (room: seq<Entry>, e: Entry)
    requires TableOk(t) && op.PutOp?
    ensures AfterPut(t, Step(t, op), room, e, op) && |room| < LIMIT
  {
    hide WithoutKey, Unexpired, MakeRoom, Find;
    var PutOp(key, r, now) := op;
    OthersStay(t, key, now);
    room := MakeRoom(Unexpired(WithoutKey(t.entries, key), now));
    e := Entry(key, now, AddNew(if Find(t.entries, key) == [] then [] else Find(t.entries, key)[0].reminders, r));
  }

  lemma PutWaits(t: Table, after: Table, room: seq<Entry>, e: Entry, op: Op, n: nat)
    requires TableOk(t) && op.PutOp? && AfterPut(t, after, room, e, op) && n < |after.places|
    ensures WaitsInEntry(after, n)
  {
    FindOnly(after.entries, e);
    if n < |t.places| && after.places[n].Waiting? {
      assert WaitsInEntry(t, n);
      var mine := Find(after.entries, after.places[n].key)[0];
      if mine != e {
        assert mine in room;
        FindOnly(t.entries, mine);
      }
    }
  }

  lemma PutCameFrom(t: Table, after: Table, room: seq<Entry>, e: Entry, op: Op, x: Entry, y: Reminder)
    requires TableOk(t) && op.PutOp? && AfterPut(t, after, room, e, op)
    requires x in after.entries && y in x.reminders
    ensures CameFromPut(after, x.key, y)
  {
    FindOnly(after.entries, x);
    if x in room || y != op.r {
      assert CameFromPut(t, x.key, y) by {
        if x in room {
          assert x in t.entries;
        } else {
          assert Find(t.entries, op.key)[0] in t.entries;
        }
      }
      var n :| 0 <= n < |t.puts| && t.places[n] == Waiting(x.key) && t.puts[n] == y;
      assert after.places[n] == Waiting(x.key) && after.puts[n] == y;
    } else {
      assert after.places[|t.places|] == Waiting(op.key) && after.puts[|t.places|] == y;
    }
  }

  lemma PutOk(t: Table, op: Op)
    requires TableOk(t) && op.PutOp?
    ensures TableOk(Step(t, op))
  {
    hide Step, WaitsInEntry, CameFromPut, Find;
    var after := Step(t, op);
    var room, e := PutShape(t, op);
    forall n | 0 <= n < |after.places| ensures WaitsInEntry(after, n) {
      PutWaits(t, after, room, e, op, n);
    }
    forall x <- after.entries, y <- x.reminders ensures CameFromPut(after, x.key, y) {
      PutCameFrom(t, after, room, e, op, x, y);
    }
  }

  /** Every operation keeps the account. */
  lemma StepOk(t: Table, op: Op)
    requires TableOk(t)
    ensures TableOk(Step(t, op))
  {
    if op.PutOp? {
      PutOk(t, op);
    } else {
      OthersStay(t, op.key, op.now);
      var left := WithoutKey(t.entries, op.key);
      FewerEntriesOk(t, left, if op.TakeOp? && Given(t, op) != [] then HandTo(t.places, op.key, op.frame) else t.places);
    }
  }

  /** Put `n` goes to the frame that takes. */
  predicate MovesTo(t: Table, op: Op, n: nat)
    requires op.TakeOp? && n < |t.places|
  {
    t.places[n].Waiting? && n < |Step(t, op).places| && Step(t, op).places[n] == TakenBy(op.frame)
  }

  ghost predicate HandedFromPut(t: Table, op: Op, r: Reminder)
    requires op.TakeOp? && |t.places| == |t.puts|
  {
    exists n :: 0 <= n < |t.puts| && t.puts[n] == r && MovesTo(t, op, n)
  }

  /** A take hands over exactly the reminders of the puts that move to its frame, each once. */
  lemma TakeHandsOverItsPuts(t: Table, op: Op)
    requires TableOk(t) && op.TakeOp?
    ensures forall n :: 0 <= n < |t.puts| && MovesTo(t, op, n) ==> t.puts[n] in Given(t, op)
    ensures forall r <- Given(t, op) :: HandedFromPut(t, op, r)
    ensures Distinct(Given(t, op))
  {
    forall n | 0 <= n < |t.puts| && MovesTo(t, op, n) ensures t.puts[n] in Given(t, op) {
      assert WaitsInEntry(t, n);
    }
    forall r <- Given(t, op) ensures HandedFromPut(t, op, r) {
      assert CameFromPut(t, op.key, r);
      var n :| 0 <= n < |t.puts| && t.places[n] == Waiting(op.key) && t.puts[n] == r;
      assert MovesTo(t, op, n);
    }
  }

  /** Once taken or lapsed, always so: no reminder reaches a second frame. */
  lemma TakenAtMostOnce(t: Table, op: Op, n: nat)
    requires TableOk(t) && n < |t.places| && !t.places[n].Waiting?
    ensures n < |Step(t, op).places| && Step(t, op).places[n] == t.places[n]
  {
  }

  /** A waiting put lapses only past its time, by the call's own new verdict, or because a full
      table made room. */
  lemma LapseHasACause(t: Table, op: Op, n: nat)
    requires TableOk(t) && n < |t.places| && t.places[n].Waiting? && Step(t, op).places[n] == Lapsed
    ensures Find(t.entries, t.places[n].key) != []
    ensures var e := Find(t.entries, t.places[n].key)[0];
      || op.now - e.at > TTL
      || (op.DropOp? && op.key == e.key)
      || (op.PutOp? && |Unexpired(WithoutKey(t.entries, op.key), op.now)| >= LIMIT)
  {
    hide WithoutKey, Unexpired;
    assert WaitsInEntry(t, n);
    var e := Find(t.entries, t.places[n].key)[0];
    FindOnly(t.entries, e);
    if op.PutOp? && op.now - e.at <= TTL && |Unexpired(WithoutKey(t.entries, op.key), op.now)| < LIMIT {
      EntrySurvivesPut(t, op, e);
    } else if !op.PutOp? && op.key != e.key {
      FindIn(WithoutKey(t.entries, op.key), e);
    }
  }

  lemma EntrySurvivesPut(t: Table, op: Op, e: Entry)
    requires op.PutOp? && e in t.entries && op.now - e.at <= TTL
    requires |Unexpired(WithoutKey(t.entries, op.key), op.now)| < LIMIT
    ensures Find(Step(t, op).entries, e.key) != []
  {
    var after := Step(t, op).entries;
    FindIn(after, if e.key == op.key then after[|after| - 1] else e);
  }

  lemma {:induction false} FindIn(entries: seq<Entry>, e: Entry)
    requires e in entries
    ensures Find(entries, e.key) != []
  {
    if entries[0].key != e.key {
      FindIn(entries[1..], e);
    }
  }
}
