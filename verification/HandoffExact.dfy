/** What one operation of the handoff table does, entry by entry. */
module HandoffExact {
  import opened Deliveries
  import opened Handoff

  /** `a` is listed before `b`: its time was set earlier. */
  ghost predicate OlderIn(entries: seq<Entry>, a: Entry, b: Entry) {
    exists i, j :: 0 <= i < j < |entries| && entries[i] == a && entries[j] == b
  }

  /** The entries of `some` are listed as in `all`. */
  ghost predicate ListedAs(some: seq<Entry>, all: seq<Entry>) {
    forall i, j :: 0 <= i < j < |some| ==> OlderIn(all, some[i], some[j])
  }

  lemma OlderBehind(head: Entry, tail: seq<Entry>, a: Entry, b: Entry)
    requires OlderIn(tail, a, b)
    ensures OlderIn([head] + tail, a, b)
  {
    var all := [head] + tail;
    var i, j :| 0 <= i < j < |tail| && tail[i] == a && tail[j] == b;
    assert all[i + 1] == a && all[j + 1] == b;
  }

  lemma OlderAhead(head: Entry, tail: seq<Entry>, b: Entry)
    requires b in tail
    ensures OlderIn([head] + tail, head, b)
  {
    var all := [head] + tail;
    var j :| 0 <= j < |tail| && tail[j] == b;
    assert all[0] == head && all[j + 1] == b;
  }

  lemma ListedBehind(head: Entry, some: seq<Entry>, tail: seq<Entry>, keep: bool)
    requires ListedAs(some, tail) && forall e <- some :: e in tail
    ensures ListedAs((if keep then [head] else []) + some, [head] + tail)
  {
    var all := (if keep then [head] else []) + some;
    forall i, j | 0 <= i < j < |all|
      ensures OlderIn([head] + tail, all[i], all[j])
    {
      var shift := if keep then 1 else 0;
      assert all[j] == some[j - shift];
      if i < shift {
        OlderAhead(head, tail, all[j]);
      } else {
        assert all[i] == some[i - shift];
        assert OlderIn(tail, some[i - shift], some[j - shift]);
        OlderBehind(head, tail, all[i], all[j]);
      }
    }
  }

  lemma {:induction false} WithoutKeyIsListed(entries: seq<Entry>, key: CallKey)
    ensures ListedAs(WithoutKey(entries, key), entries)
  {
    if entries != [] {
      WithoutKeyIsListed(entries[1..], key);
      ListedBehind(entries[0], WithoutKey(entries[1..], key), entries[1..], entries[0].key != key);
      assert [entries[0]] + entries[1..] == entries;
    }
  }

  lemma {:induction false} UnexpiredIsListed(entries: seq<Entry>, now: int)
    ensures ListedAs(Unexpired(entries, now), entries)
  {
    if entries != [] {
      UnexpiredIsListed(entries[1..], now);
      ListedBehind(entries[0], Unexpired(entries[1..], now), entries[1..], now - entries[0].at <= TTL);
      assert [entries[0]] + entries[1..] == entries;
    }
  }

  lemma OlderFurtherOut(some: seq<Entry>, all: seq<Entry>, a: Entry, b: Entry)
    requires ListedAs(some, all) && OlderIn(some, a, b)
    ensures OlderIn(all, a, b)
  {
    var i, j :| 0 <= i < j < |some| && some[i] == a && some[j] == b;
    assert OlderIn(all, some[i], some[j]);
  }

  /** The unexpired entries of other calls, as a put finds them. */
  function OthersLeft(entries: seq<Entry>, key: CallKey, now: int): seq<Entry> {
    Unexpired(WithoutKey(entries, key), now)
  }

  lemma OthersAreListed(entries: seq<Entry>, key: CallKey, now: int)
    ensures forall a, b :: OlderIn(OthersLeft(entries, key, now), a, b) ==> OlderIn(entries, a, b)
    ensures forall e :: e in OthersLeft(entries, key, now) <==> e in entries && e.key != key && now - e.at <= 60_000
  {
    hide OlderIn, ListedAs;
    WithoutKeyIsListed(entries, key);
    UnexpiredIsListed(WithoutKey(entries, key), now);
    forall a, b | OlderIn(OthersLeft(entries, key, now), a, b)
      ensures OlderIn(entries, a, b)
    {
      OlderFurtherOut(OthersLeft(entries, key, now), WithoutKey(entries, key), a, b);
      OlderFurtherOut(WithoutKey(entries, key), entries, a, b);
    }
  }

  /** Of the others the oldest go, as many as it takes to leave at most 255. */
  lemma RoomIsForTheNewest(others: seq<Entry>)
    ensures var room := MakeRoom(others);
      && (forall i, j :: 0 <= i < j < |room| ==> OlderIn(others, room[i], room[j]))
      && (forall e <- room :: e in others)
      && (forall e <- others :: e in room || (|room| == 255 && forall x <- room :: OlderIn(others, e, x)))
      && (|others| <= 255 ==> room == others)
  {
    var room := MakeRoom(others);
    var cut := |others| - |room|;
    assert room == others[cut..];
    forall i, j | 0 <= i < j < |room|
      ensures OlderIn(others, room[i], room[j])
    {
      assert others[cut + i] == room[i] && others[cut + j] == room[j];
    }
    forall e <- others
      ensures e in room || (|room| == 255 && forall x <- room :: OlderIn(others, e, x))
    {
      var i :| 0 <= i < |others| && others[i] == e;
      if i >= cut {
        assert room[i - cut] == e;
      } else {
        forall x <- room
          ensures OlderIn(others, e, x)
        {
          var j :| 0 <= j < |room| && room[j] == x;
          assert others[cut + j] == x;
        }
      }
    }
  }

  /** What waited under the key. */
  ghost predicate WaitedFor(entries: seq<Entry>, key: CallKey, reminders: seq<Reminder>) {
    || (exists e <- entries :: e.key == key && reminders == e.reminders)
    || (reminders == [] && forall e <- entries :: e.key != key)
  }

  /**
   * A put, entry by entry. The key's own entry comes last, with the present time and what waited under
   * the key, whatever its age, and the new reminder unless it was there. Of the other calls' entries
   * those past a minute go; and if 256 or more are left, the oldest of them, until 255 are.
   */
  lemma PutExactly(entries: seq<Entry>, key: CallKey, r: Reminder, now: int)
    requires DistinctKeys(entries)
    ensures var after := Put(entries, key, r, now);
      && 0 < |after| <= 256
      && var (others, own) := (after[..|after| - 1], after[|after| - 1]);
         && own.key == key && own.at == now
         && (exists waited :: WaitedFor(entries, key, waited) && own.reminders == if r in waited then waited else waited + [r])
         && (forall i, j :: 0 <= i < j < |others| ==> OlderIn(entries, others[i], others[j]))
         && (forall e <- others :: e in entries && e.key != key && now - e.at <= 60_000)
         && (forall e <- entries :: e.key != key && now - e.at <= 60_000 ==>
               e in others || (|others| == 255 && forall x <- others :: OlderIn(entries, e, x)))
  {
    hide OlderIn, WithoutKey, Unexpired, MakeRoom;
    var after := Put(entries, key, r, now);
    var left := OthersLeft(entries, key, now);
    assert after[..|after| - 1] == MakeRoom(left);
    OthersAreListed(entries, key, now);
    RoomIsForTheNewest(left);
    var found := Find(entries, key);
    var waited := if found == [] then [] else found[0].reminders;
    FoundWaited(entries, key);
    assert WaitedFor(entries, key, waited);
  }

  lemma FoundWaited(entries: seq<Entry>, key: CallKey)
    requires DistinctKeys(entries)
    ensures WaitedFor(entries, key, if Find(entries, key) == [] then [] else Find(entries, key)[0].reminders)
  {
    forall e <- entries | e.key == key
      ensures Find(entries, key) == [e]
    {
      FindOnly(entries, e);
    }
  }

  /**
   * A take, entry by entry. The key's entry goes, and nothing else; what it held is handed over unless it
   * has waited more than a minute.
   */
  lemma TakeExactly(entries: seq<Entry>, key: CallKey, now: int)
    requires DistinctKeys(entries)
    ensures var (after, given) := Take(entries, key, now);
      && (forall e :: e in after <==> e in entries && e.key != key)
      && ListedAs(after, entries)
      && (forall e <- entries :: e.key == key ==> given == if now - e.at <= 60_000 then e.reminders else [])
      && ((forall e <- entries :: e.key != key) ==> given == [])
  {
    hide ListedAs;
    WithoutKeyIsListed(entries, key);
    forall e <- entries | e.key == key
      ensures Find(entries, key) == [e]
    {
      FindOnly(entries, e);
    }
  }
}
