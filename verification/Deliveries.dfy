/** Which reminders a turn has already been given: a bounded record, oldest mark first. */
module Deliveries {

  datatype Reminder = Reminder(policies: string, reason: string)

  datatype Key = Key(session: string, turn: string, reminder: Reminder)

  /** Without both ids a call cannot be placed in a turn, and always carries its reminders. */
  predicate InTurn(session: string, turn: string) {
    session != "" && turn != ""
  }

  function KeysFor(session: string, turn: string, reminders: seq<Reminder>): (keys: seq<Key>)
    ensures |keys| == |reminders|
    ensures forall i :: 0 <= i < |keys| ==> keys[i] == Key(session, turn, reminders[i])
  {
    seq(|reminders|, i requires 0 <= i < |reminders| => Key(session, turn, reminders[i]))
  }

  /** The record without `k`. */
  function Without(seen: seq<Key>, k: Key): (rest: seq<Key>)
    ensures |rest| <= |seen|
  {
    if seen == [] then []
    else if seen[0] == k then Without(seen[1..], k)
    else [seen[0]] + Without(seen[1..], k)
  }

  function WithoutAll(seen: seq<Key>, keys: seq<Key>): seq<Key>
    decreases |keys|
  {
    if keys == [] then seen else WithoutAll(Without(seen, keys[0]), keys[1..])
  }

  /** Mark `k` as the newest. */
  function Touch(seen: seq<Key>, k: Key): seq<Key> {
    Without(seen, k) + [k]
  }

  function TouchAll(seen: seq<Key>, keys: seq<Key>): seq<Key>
    decreases |keys|
  {
    if keys == [] then seen else TouchAll(Touch(seen, keys[0]), keys[1..])
  }

  /** The newest `limit` of the record. */
  function Trim(seen: seq<Key>, limit: nat): (kept: seq<Key>)
    ensures |kept| <= limit
  {
    if |seen| <= limit then seen else seen[|seen| - limit..]
  }

  /** The reminders whose key is not on record. */
  function Fresh(seen: seq<Key>, session: string, turn: string, reminders: seq<Reminder>): (given: seq<Reminder>)
    ensures forall r :: r in given <==> r in reminders && Key(session, turn, r) !in seen
  {
    if reminders == [] then []
    else (if Key(session, turn, reminders[0]) in seen then [] else [reminders[0]])
         + Fresh(seen, session, turn, reminders[1..])
  }

  function Claimed(seen: seq<Key>, limit: nat, session: string, turn: string, reminders: seq<Reminder>)
    : (seq<Key>, seq<Reminder>)
  {
    if !InTurn(session, turn) then (seen, reminders)
    else
      var given := Fresh(seen, session, turn, reminders);
      (Trim(TouchAll(seen, KeysFor(session, turn, given)), limit), given)
  }

  function Released(seen: seq<Key>, session: string, turn: string, reminders: seq<Reminder>): seq<Key> {
    if !InTurn(session, turn) then seen else WithoutAll(seen, KeysFor(session, turn, reminders))
  }

  lemma {:induction false} WithoutIsRemoval(seen: seq<Key>, k: Key)
    ensures forall x :: x in Without(seen, k) <==> x in seen && x != k
  {
    if seen != [] {
      WithoutIsRemoval(seen[1..], k);
      assert seen == [seen[0]] + seen[1..];
    }
  }

  lemma {:induction false} WithoutConcat(a: seq<Key>, b: seq<Key>, k: Key)
    ensures Without(a + b, k) == Without(a, k) + Without(b, k)
  {
    if a == [] {
      assert a + b == b;
    } else {
      assert (a + b)[1..] == a[1..] + b;
      WithoutConcat(a[1..], b, k);
    }
  }

  class TurnDeliveries {
    const limit: nat
    var seen: seq<Key>

    constructor (limit: nat)
      ensures this.limit == limit && seen == []
    {
      this.limit := limit;
      seen := [];
    }

    /** Mark each reminder as the newest, then drop the oldest past the limit. */
    method MarkLocked(session: string, turn: string, reminders: seq<Reminder>)
      modifies this
      ensures seen == Trim(TouchAll(old(seen), KeysFor(session, turn, reminders)), limit)
    {
      var keys := KeysFor(session, turn, reminders);
      var i := 0;
      assert keys[0..] == keys;
      while i < |keys|
        invariant 0 <= i <= |keys|
        invariant TouchAll(seen, keys[i..]) == TouchAll(old(seen), keys)
      {
        assert keys[i..][1..] == keys[i + 1..];
        seen := Touch(seen, keys[i]);
        i := i + 1;
      }
      ghost var all := seen;
      while |seen| > limit
        invariant Trim(seen, limit) == Trim(all, limit)
      {
        seen := seen[1..];
      }
    }

    /** The reminders not yet delivered in this turn, marked delivered in the same step. */
    method Claim(session: string, turn: string, reminders: seq<Reminder>) returns (given: seq<Reminder>)
      modifies this
      ensures (seen, given) == Claimed(old(seen), limit, session, turn, reminders)
    {
      if session == "" || turn == "" {
        return reminders;
      }
      given := Fresh(seen, session, turn, reminders);
      MarkLocked(session, turn, given);
    }

    /** Undo a claim whose reminders found no carrier. */
    method Release(session: string, turn: string, reminders: seq<Reminder>)
      modifies this
      ensures seen == Released(old(seen), session, turn, reminders)
    {
      if session == "" || turn == "" {
        return;
      }
      var keys := KeysFor(session, turn, reminders);
      var i := 0;
      assert keys[0..] == keys;
      while i < |keys|
        invariant 0 <= i <= |keys|
        invariant WithoutAll(seen, keys[i..]) == WithoutAll(old(seen), keys)
      {
        assert keys[i..][1..] == keys[i + 1..];
        seen := Without(seen, keys[i]);
        i := i + 1;
      }
    }
  }

  /** The reminders not on record come in the order they were collected: one collected last comes last. */
  lemma {:induction false} FreshKeepsOrder(seen: seq<Key>, session: string, turn: string, reminders: seq<Reminder>, r: Reminder)
    ensures Fresh(seen, session, turn, reminders + [r])
         == Fresh(seen, session, turn, reminders) + (if Key(session, turn, r) in seen then [] else [r])
    decreases |reminders|
  {
    var all := reminders + [r];
    if reminders == [] {
      assert all == [r] && [r][1..] == [];
    } else {
      assert all[1..] == reminders[1..] + [r];
      FreshKeepsOrder(seen, session, turn, reminders[1..], r);
    }
  }

  // ---- the record with its history ----

  /** `since` has every key marked and not released since, with the distinct other keys marked
      after its own last mark; `evicted` has every key the limit ever pushed out. */
  datatype Record = Record(seen: seq<Key>, since: map<Key, set<Key>>, evicted: set<Key>)

  const EMPTY := Record([], map[], {})

  function MarkOne(rec: Record, k: Key): Record {
    Record(Touch(rec.seen, k),
           (map x | x in rec.since && x != k :: rec.since[x] + {k}) + map[k := {}],
           rec.evicted)
  }

  function MarkEach(rec: Record, keys: seq<Key>): Record
    decreases |keys|
  {
    if keys == [] then rec else MarkEach(MarkOne(rec, keys[0]), keys[1..])
  }

  function TrimTo(rec: Record, limit: nat): Record {
    var kept := Trim(rec.seen, limit);
    rec.(seen := kept, evicted := rec.evicted + set k <- rec.seen | k !in kept)
  }

  function DropOne(rec: Record, k: Key): Record {
    Record(Without(rec.seen, k), rec.since - {k}, rec.evicted)
  }

  function DropEach(rec: Record, keys: seq<Key>): Record
    decreases |keys|
  {
    if keys == [] then rec else DropEach(DropOne(rec, keys[0]), keys[1..])
  }

  datatype Op =
    | Claim(session: string, turn: string, reminders: seq<Reminder>)
    | Release(session: string, turn: string, reminders: seq<Reminder>)

  /** What a claim hands out. */
  function Given(rec: Record, op: Op): seq<Reminder>
    requires op.Claim?
  {
    if InTurn(op.session, op.turn) then Fresh(rec.seen, op.session, op.turn, op.reminders) else op.reminders
  }

  function Apply(rec: Record, op: Op, limit: nat): Record {
    if !InTurn(op.session, op.turn) then rec
    else
      match op
      case Claim(session, turn, _) => TrimTo(MarkEach(rec, KeysFor(session, turn, Given(rec, op))), limit)
      case Release(session, turn, reminders) => DropEach(rec, KeysFor(session, turn, reminders))
  }

  /** A call without both ids is outside any turn: it is handed everything, and the record stays as it is. */
  lemma OutsideATurn(rec: Record, op: Op, limit: nat)
    requires op.session == "" || op.turn == ""
    ensures Apply(rec, op, limit) == rec && (op.Claim? ==> Given(rec, op) == op.reminders)
  {
  }

  lemma {:induction false} MarkEachSeen(rec: Record, keys: seq<Key>)
    ensures MarkEach(rec, keys).seen == TouchAll(rec.seen, keys)
    ensures MarkEach(rec, keys).evicted == rec.evicted
    decreases |keys|
  {
    if keys != [] {
      MarkEachSeen(MarkOne(rec, keys[0]), keys[1..]);
    }
  }

  lemma {:induction false} DropEachSeen(rec: Record, keys: seq<Key>)
    ensures DropEach(rec, keys).seen == WithoutAll(rec.seen, keys)
    ensures DropEach(rec, keys).evicted == rec.evicted
    decreases |keys|
  {
    if keys != [] {
      DropEachSeen(DropOne(rec, keys[0]), keys[1..]);
    }
  }

  /** The history only watches: the record itself moves as the class does. */
  lemma ApplyIsTheClass(rec: Record, op: Op, limit: nat)
    ensures Apply(rec, op, limit).seen ==
      match op
      case Claim(session, turn, reminders) => Claimed(rec.seen, limit, session, turn, reminders).0
      case Release(session, turn, reminders) => Released(rec.seen, session, turn, reminders)
    ensures op.Claim? ==> Given(rec, op) == Claimed(rec.seen, limit, op.session, op.turn, op.reminders).1
  {
    match op
    case Claim(session, turn, _) => MarkEachSeen(rec, KeysFor(session, turn, Given(rec, op)));
    case Release(session, turn, reminders) => DropEachSeen(rec, KeysFor(session, turn, reminders));
  }

  ghost predicate Distinct<T>(s: seq<T>) {
    forall i, j :: 0 <= i < j < |s| ==> s[i] != s[j]
  }

  /** A key on record has been marked since any release; every key newer than it on record was
      marked after it; and one that is gone was pushed out by at least `limit` others. */
  ghost predicate RecordOk(rec: Record, limit: nat) {
    && Distinct(rec.seen)
    && (forall i :: 0 <= i < |rec.seen| ==> rec.seen[i] in rec.since)
    && (forall i, j :: 0 <= i < j < |rec.seen| ==> rec.seen[j] in rec.since[rec.seen[i]])
    && (forall k <- rec.since.Keys :: k in rec.seen || PushedOut(rec, k, limit))
  }

  predicate PushedOut(rec: Record, k: Key, limit: nat)
    requires k in rec.since
  {
    k in rec.evicted && |rec.since[k]| >= limit
  }

  lemma {:induction false} WithoutAbsent(seen: seq<Key>, k: Key)
    requires k !in seen
    ensures Without(seen, k) == seen
  {
    if seen != [] {
      WithoutAbsent(seen[1..], k);
      assert seen == [seen[0]] + seen[1..];
    }
  }

  lemma WithoutMiddle(a: seq<Key>, k: Key, b: seq<Key>)
    requires k !in a && k !in b
    ensures Without(a + ([k] + b), k) == a + b
  {
    WithoutConcat(a, [k] + b, k);
    WithoutConcat([k], b, k);
    WithoutAbsent(a, k);
    WithoutAbsent(b, k);
    assert Without([k], k) == [];
  }

  lemma DistinctAround(seen: seq<Key>, p: nat)
    requires Distinct(seen) && p < |seen|
    ensures seen[p] !in seen[..p] && seen[p] !in seen[p + 1..]
  {
  }

  lemma SplitAround<T>(s: seq<T>, p: nat)
    requires p < |s|
    ensures s == s[..p] + ([s[p]] + s[p + 1..])
  {
  }

  lemma WithoutIsCut(seen: seq<Key>, p: nat)
    requires Distinct(seen) && p < |seen|
    ensures Without(seen, seen[p]) == seen[..p] + seen[p + 1..]
  {
    hide Without, Distinct;
    SplitAround(seen, p);
    DistinctAround(seen, p);
    WithoutMiddle(seen[..p], seen[p], seen[p + 1..]);
  }

  /** The record without one key: what is left is on record as before. */
  lemma CutStands(rec: Record, p: nat)
    requires Distinct(rec.seen) && p < |rec.seen|
    requires forall i :: 0 <= i < |rec.seen| ==> rec.seen[i] in rec.since
    requires forall i, j :: 0 <= i < j < |rec.seen| ==> rec.seen[j] in rec.since[rec.seen[i]]
    ensures var rest := rec.seen[..p] + rec.seen[p + 1..];
      && Distinct(rest)
      && (forall i :: 0 <= i < |rest| ==> rest[i] != rec.seen[p] && rest[i] in rec.since)
      && (forall i, j :: 0 <= i < j < |rest| ==> rest[j] in rec.since[rest[i]])
  {
    var rest := rec.seen[..p] + rec.seen[p + 1..];
    forall i | 0 <= i < |rest|
      ensures rest[i] == rec.seen[if i < p then i else i + 1]
    {
    }
  }

  lemma DropOneOk(rec: Record, k: Key, limit: nat)
    requires RecordOk(rec, limit)
    ensures RecordOk(DropOne(rec, k), limit)
  {
    hide Without;
    WithoutIsRemoval(rec.seen, k);
    if k in rec.seen {
      var p :| 0 <= p < |rec.seen| && rec.seen[p] == k;
      WithoutIsCut(rec.seen, p);
      CutStands(rec, p);
    } else {
      WithoutAbsent(rec.seen, k);
    }
    var after := DropOne(rec, k);
    forall x <- after.since.Keys ensures x in after.seen || PushedOut(after, x, limit) {
      assert x in rec.seen || PushedOut(rec, x, limit);
    }
  }

  lemma MarkOneOk(rec: Record, k: Key, limit: nat)
    requires RecordOk(rec, limit)
    ensures RecordOk(MarkOne(rec, k), limit)
  {
    hide Without;
    DropOneOk(rec, k, limit);
    WithoutIsRemoval(rec.seen, k);
    var rest, after := Without(rec.seen, k), MarkOne(rec, k);
    assert after.seen == rest + [k];
    forall i, j | 0 <= i < j < |after.seen| ensures after.seen[j] in after.since[after.seen[i]] {
      assert after.seen[i] == rest[i] && rest[i] in rec.seen;
      if j < |rest| {
        assert rest[j] in DropOne(rec, k).since[rest[i]];
      }
    }
    forall x <- after.since.Keys ensures x in after.seen || PushedOut(after, x, limit) {
      if x != k && x !in rec.seen {
        assert PushedOut(rec, x, limit);
        SubsetIsNoLarger(rec.since[x], after.since[x]);
      }
    }
  }

  lemma SubsetIsNoLarger<T>(a: set<T>, b: set<T>)
    requires a <= b
    ensures |a| <= |b|
  {
    assert b == a + (b - a);
  }

  lemma {:induction false} DistinctFits<T>(s: seq<T>, container: set<T>)
    requires Distinct(s) && forall x <- s :: x in container
    ensures |s| <= |container|
    decreases |s|
  {
    if s != [] {
      var last := s[|s| - 1];
      DistinctFits(s[..|s| - 1], container - {last});
    }
  }

  lemma TailMembers(seen: seq<Key>, cut: nat)
    requires cut <= |seen|
    ensures forall i :: cut <= i < |seen| ==> seen[i] in seen[cut..]
  {
    forall i | cut <= i < |seen| ensures seen[i] in seen[cut..] {
      assert seen[cut..][i - cut] == seen[i];
    }
  }

  lemma TrimmedKey(rec: Record, limit: nat, x: Key)
    requires RecordOk(rec, limit) && x in rec.seen && x !in Trim(rec.seen, limit)
    ensures |rec.since[x]| >= limit
  {
    var cut := |rec.seen| - limit;
    var i :| 0 <= i < |rec.seen| && rec.seen[i] == x;
    TailMembers(rec.seen, cut);
    DistinctFits(rec.seen[cut..], rec.since[x]);
  }

  /** The limit pushes out a key only when at least `limit` other keys were marked after it. */
  lemma TrimToOk(rec: Record, limit: nat)
    requires RecordOk(rec, limit)
    ensures RecordOk(TrimTo(rec, limit), limit)
  {
    var after := TrimTo(rec, limit);
    var cut := if |rec.seen| <= limit then 0 else |rec.seen| - limit;
    assert after.seen == rec.seen[cut..];
    forall x <- after.since.Keys ensures x in after.seen || PushedOut(after, x, limit) {
      if x !in rec.seen {
        assert PushedOut(rec, x, limit);
      } else if x !in after.seen {
        TrimmedKey(rec, limit, x);
      }
    }
  }

  lemma {:induction false} MarkEachOk(rec: Record, keys: seq<Key>, limit: nat)
    requires RecordOk(rec, limit)
    ensures RecordOk(MarkEach(rec, keys), limit)
    ensures forall x :: x in MarkEach(rec, keys).since <==> x in rec.since || x in keys
    decreases |keys|
  {
    hide RecordOk;
    if keys != [] {
      MarkOneOk(rec, keys[0], limit);
      MarkEachOk(MarkOne(rec, keys[0]), keys[1..], limit);
      assert keys == [keys[0]] + keys[1..];
    }
  }

  lemma {:induction false} DropEachOk(rec: Record, keys: seq<Key>, limit: nat)
    requires RecordOk(rec, limit)
    ensures RecordOk(DropEach(rec, keys), limit)
    ensures forall x :: x in DropEach(rec, keys).since <==> x in rec.since && x !in keys
    decreases |keys|
  {
    hide RecordOk;
    if keys != [] {
      DropOneOk(rec, keys[0], limit);
      DropEachOk(DropOne(rec, keys[0]), keys[1..], limit);
      assert keys == [keys[0]] + keys[1..];
    }
  }

  lemma ApplyOk(rec: Record, op: Op, limit: nat)
    requires RecordOk(rec, limit)
    ensures RecordOk(Apply(rec, op, limit), limit)
  {
    hide RecordOk;
    if InTurn(op.session, op.turn) {
      match op
      case Claim(session, turn, _) =>
        MarkEachOk(rec, KeysFor(session, turn, Given(rec, op)), limit);
        TrimToOk(MarkEach(rec, KeysFor(session, turn, Given(rec, op))), limit);
      case Release(session, turn, reminders) =>
        DropEachOk(rec, KeysFor(session, turn, reminders), limit);
    }
  }

  /** Every key marked starts over; the others gain the keys marked. */
  lemma {:induction false} MarkEachSince(rec: Record, keys: seq<Key>, x: Key)
    requires x in MarkEach(rec, keys).since && (x in rec.since ==> x !in rec.since[x])
    ensures var after := MarkEach(rec, keys).since[x];
      && x !in after
      && if x in keys then forall y <- after :: y in keys
         else x in rec.since && forall y <- after :: y in rec.since[x] || y in keys
    decreases |keys|
  {
    if keys != [] {
      MarkEachSince(MarkOne(rec, keys[0]), keys[1..], x);
      assert keys == [keys[0]] + keys[1..];
    }
  }

  lemma {:induction false} DropEachSince(rec: Record, keys: seq<Key>, x: Key)
    requires x in DropEach(rec, keys).since
    ensures x in rec.since && DropEach(rec, keys).since[x] == rec.since[x]
    decreases |keys|
  {
    if keys != [] {
      DropEachSince(DropOne(rec, keys[0]), keys[1..], x);
    }
  }

  function RecordAt(ops: seq<Op>, limit: nat, n: nat): Record
    requires n <= |ops|
  {
    if n == 0 then EMPTY else Apply(RecordAt(ops, limit, n - 1), ops[n - 1], limit)
  }

  lemma {:induction false} RecordAtOk(ops: seq<Op>, limit: nat, n: nat)
    requires n <= |ops|
    ensures RecordOk(RecordAt(ops, limit, n), limit)
  {
    if n > 0 {
      RecordAtOk(ops, limit, n - 1);
      ApplyOk(RecordAt(ops, limit, n - 1), ops[n - 1], limit);
    }
  }

  lemma ApplyIsBounded(rec: Record, op: Op, limit: nat)
    requires |rec.seen| <= limit
    ensures |Apply(rec, op, limit).seen| <= limit
  {
    if op.Release? {
      ApplyIsTheClass(rec, op, limit);
      WithoutAllShrinks(rec.seen, KeysFor(op.session, op.turn, op.reminders));
    }
  }

  /** The record never exceeds its limit. */
  lemma {:induction false} RecordIsBounded(ops: seq<Op>, limit: nat, n: nat)
    requires n <= |ops|
    ensures |RecordAt(ops, limit, n).seen| <= limit
  {
    if n > 0 {
      RecordIsBounded(ops, limit, n - 1);
      ApplyIsBounded(RecordAt(ops, limit, n - 1), ops[n - 1], limit);
    }
  }

  lemma {:induction false} WithoutAllShrinks(seen: seq<Key>, keys: seq<Key>)
    ensures |WithoutAll(seen, keys)| <= |seen|
    decreases |keys|
  {
    if keys != [] {
      WithoutAllShrinks(Without(seen, keys[0]), keys[1..]);
    }
  }

  /** Operation `i` hands out the reminder of `k`. */
  predicate Hands(ops: seq<Op>, limit: nat, i: nat, k: Key)
    requires i < |ops|
  {
    && ops[i].Claim? && (ops[i].session, ops[i].turn) == (k.session, k.turn)
    && k.reminder in Given(RecordAt(ops, limit, i), ops[i])
  }

  predicate Releases(op: Op, k: Key) {
    op.Release? && (op.session, op.turn) == (k.session, k.turn) && k.reminder in op.reminders
  }

  lemma {:induction false} StillSince(ops: seq<Op>, limit: nat, i: nat, j: nat, k: Key)
    requires InTurn(k.session, k.turn) && i < j <= |ops| && Hands(ops, limit, i, k)
    requires forall m :: i < m < j ==> !Releases(ops[m], k)
    ensures k in RecordAt(ops, limit, j).since
    decreases j
  {
    hide RecordOk, Distinct, Fresh, Trim;
    var rec, op := RecordAt(ops, limit, j - 1), ops[j - 1];
    RecordAtOk(ops, limit, j - 1);
    if j - 1 > i {
      StillSince(ops, limit, i, j - 1, k);
    }
    if InTurn(op.session, op.turn) {
      match op
      case Claim(session, turn, _) =>
        var keys := KeysFor(session, turn, Given(rec, op));
        MarkEachOk(rec, keys, limit);
        if j - 1 == i {
          var p :| 0 <= p < |Given(rec, op)| && Given(rec, op)[p] == k.reminder;
          assert keys[p] == k;
        }
      case Release(session, turn, reminders) =>
        DropEachOk(rec, KeysFor(session, turn, reminders), limit);
    }
  }

  /** At most once per turn: the same reminder is handed out again in a turn only if it was
      released, or if `limit` or more other keys were marked after it and pushed it out. */
  lemma AtMostOncePerTurn(ops: seq<Op>, limit: nat, i: nat, j: nat, k: Key)
    requires k.session != "" && k.turn != "" && i < j < |ops|
    requires Hands(ops, limit, i, k) && Hands(ops, limit, j, k)
    ensures (exists m :: i < m < j && Releases(ops[m], k))
         || (var rec := RecordAt(ops, limit, j); k in rec.since && PushedOut(rec, k, limit))
  {
    if forall m :: i < m < j ==> !Releases(ops[m], k) {
      StillSince(ops, limit, i, j, k);
      RecordAtOk(ops, limit, j);
    }
  }

  lemma {:induction false} TouchAllMembers(seen: seq<Key>, keys: seq<Key>)
    ensures forall k :: k in TouchAll(seen, keys) <==> k in seen || k in keys
    decreases |keys|
  {
    if keys != [] {
      WithoutIsRemoval(seen, keys[0]);
      TouchAllMembers(Touch(seen, keys[0]), keys[1..]);
      assert keys == [keys[0]] + keys[1..];
    }
  }

  lemma {:induction false} WithoutAllMembers(seen: seq<Key>, keys: seq<Key>)
    ensures forall k :: k in WithoutAll(seen, keys) <==> k in seen && k !in keys
    decreases |keys|
  {
    if keys != [] {
      WithoutIsRemoval(seen, keys[0]);
      WithoutAllMembers(Without(seen, keys[0]), keys[1..]);
      assert keys == [keys[0]] + keys[1..];
    }
  }

  /** A claim adds the keys it hands out, and loses a key only by evicting it. */
  lemma ClaimMembers(rec: Record, session: string, turn: string, reminders: seq<Reminder>, limit: nat)
    ensures var op := Claim(session, turn, reminders);
      var after := Apply(rec, op, limit);
      && rec.evicted <= after.evicted
      && (forall k <- after.seen :: k in rec.seen || k in KeysFor(session, turn, Given(rec, op)))
      && (forall k <- rec.seen :: k in after.seen || k in after.evicted)
      && (InTurn(session, turn) ==> forall k <- KeysFor(session, turn, Given(rec, op)) :: k in after.seen || k in after.evicted)
  {
    hide TouchAll, Fresh, MarkEach;
    var keys := KeysFor(session, turn, Given(rec, Claim(session, turn, reminders)));
    TouchAllMembers(rec.seen, keys);
    MarkEachSeen(rec, keys);
  }

  lemma ReleaseMembers(rec: Record, session: string, turn: string, reminders: seq<Reminder>, limit: nat)
    requires InTurn(session, turn)
    ensures var after := Apply(rec, Release(session, turn, reminders), limit);
      && after.evicted == rec.evicted
      && forall k :: k in after.seen <==> k in rec.seen && k !in KeysFor(session, turn, reminders)
  {
    hide WithoutAll, DropEach;
    WithoutAllMembers(rec.seen, KeysFor(session, turn, reminders));
    DropEachSeen(rec, KeysFor(session, turn, reminders));
  }
}
