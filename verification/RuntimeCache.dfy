/** The in-process cache with a time to live, coalesced runs and a size limit. */
module RuntimeCache {

  datatype Option<+T> = None | Some(value: T)

  /** A stored result; `run` is the run of the cached function it came from. */
  datatype Entry = Entry(key: string, data: string, expiry: int, run: nat)

  /** What a call gets: a stored value at once, or a run to wait for. */
  datatype Answer = Hit(data: string, run: nat) | Joined(run: nat) | Started(run: nat)

  datatype Config = Config(ttl: int, maxSize: Option<int>)

  // ---- an insertion-ordered map ----

  function IndexOf(cache: seq<Entry>, key: string): (at: Option<nat>)
    ensures at.Some? ==> at.value < |cache| && cache[at.value].key == key
    ensures at == None <==> forall e <- cache :: e.key != key
  {
    if cache == [] then None
    else if cache[0].key == key then Some(0)
    else
      var rest := IndexOf(cache[1..], key);
      if rest == None then None else Some(rest.value + 1)
  }

  /** Setting a key already there keeps its place. */
  function Put(cache: seq<Entry>, e: Entry): seq<Entry> {
    var at := IndexOf(cache, e.key);
    if at.Some? then cache[at.value := e] else cache + [e]
  }

  predicate Full(c: Config, cache: seq<Entry>) {
    c.maxSize.Some? && c.maxSize.value != 0 && |cache| >= c.maxSize.value
  }

  /** Deleting the first key; of an empty map, nothing. */
  function DropFirst(cache: seq<Entry>): seq<Entry> {
    if cache == [] then [] else cache[1..]
  }

  function Stored(c: Config, cache: seq<Entry>, e: Entry): seq<Entry> {
    Put(if Full(c, cache) then DropFirst(cache) else cache, e)
  }

  class Cache {
    const config: Config
    var cache: seq<Entry>
    var inflight: map<string, nat>

    constructor (config: Config)
      ensures this.config == config && cache == [] && inflight == map[]
    {
      this.config := config;
      cache, inflight := [], map[];
    }

    /** `run` is the run this call starts if it must. */
    method Call(key: string, now: int, run: nat) returns (answer: Answer)
      modifies this`inflight
      ensures (answer, inflight) == Answered(cache, old(inflight), key, now, run)
    {
      var at := IndexOf(cache, key);
      if at.Some? && now < cache[at.value].expiry {
        return Hit(cache[at.value].data, cache[at.value].run);
      }
      if key in inflight {
        return Joined(inflight[key]);
      }
      inflight := inflight[key := run];
      answer := Started(run);
    }

    method Finish(key: string, data: string, now: int, run: nat)
      modifies this
      ensures cache == Stored(config, old(cache), Entry(key, data, now + config.ttl, run))
      ensures inflight == old(inflight) - {key}
    {
      inflight := inflight - {key};
      if config.maxSize.Some? && config.maxSize.value != 0 && |cache| >= config.maxSize.value {
        if cache != [] {
          cache := cache[1..];
        }
      }
      cache := Put(cache, Entry(key, data, now + config.ttl, run));
    }

    method Fail(key: string)
      modifies this`inflight
      ensures inflight == old(inflight) - {key}
    {
      inflight := inflight - {key};
    }
  }

  function Answered(cache: seq<Entry>, inflight: map<string, nat>, key: string, now: int, run: nat)
    : (Answer, map<string, nat>)
  {
    var at := IndexOf(cache, key);
    if at.Some? && now < cache[at.value].expiry then (Hit(cache[at.value].data, cache[at.value].run), inflight)
    else if key in inflight then (Joined(inflight[key]), inflight)
    else (Started(run), inflight[key := run])
  }

  // ---- calls, completions and failures in any order ----

  datatype End = Value(data: string, at: int) | Failure

  /** One run of the cached function. */
  datatype Run = Run(key: string, end: Option<End>)

  datatype State = State(cache: seq<Entry>, inflight: map<string, nat>, runs: seq<Run>)

  const START := State([], map[], [])

  datatype Step =
    | Call(key: string, now: int)
    | Finish(run: nat, data: string, now: int)
    | Fail(run: nat)

  predicate Enabled(s: State, st: Step) {
    st.Call? || (st.run < |s.runs| && s.runs[st.run].end == None)
  }

  function AnswerTo(s: State, st: Step): Answer
    requires st.Call?
  {
    Answered(s.cache, s.inflight, st.key, st.now, |s.runs|).0
  }

  function Next(c: Config, s: State, st: Step): State
    requires Enabled(s, st)
  {
    match st
    case Call(key, now) =>
      var (answer, inflight) := Answered(s.cache, s.inflight, key, now, |s.runs|);
      s.(inflight := inflight, runs := if answer.Started? then s.runs + [Run(key, None)] else s.runs)
    case Finish(run, data, now) =>
      var key := s.runs[run].key;
      State(Stored(c, s.cache, Entry(key, data, now + c.ttl, run)), s.inflight - {key},
            s.runs[run := Run(key, Some(Value(data, now)))])
    case Fail(run) =>
      var key := s.runs[run].key;
      s.(inflight := s.inflight - {key}, runs := s.runs[run := Run(key, Some(Failure))])
  }

  /** The entry is the value its run finished with, until the time to live after that. */
  predicate EntryOk(c: Config, s: State, e: Entry) {
    && e.run < |s.runs| && s.runs[e.run].key == e.key
    && s.runs[e.run].end.Some? && s.runs[e.run].end.value.Value?
    && s.runs[e.run].end.value.data == e.data
    && e.expiry == s.runs[e.run].end.value.at + c.ttl
  }

  ghost predicate Inv(c: Config, s: State) {
    && (forall i, j :: 0 <= i < j < |s.cache| ==> s.cache[i].key != s.cache[j].key)
    && (forall e <- s.cache :: EntryOk(c, s, e))
    && (forall k <- s.inflight.Keys :: s.inflight[k] < |s.runs| && s.runs[s.inflight[k]] == Run(k, None))
    && (forall r :: 0 <= r < |s.runs| && s.runs[r].end == None ==> s.runs[r].key in s.inflight && s.inflight[s.runs[r].key] == r)
    && (c.maxSize.Some? && c.maxSize.value > 0 ==> |s.cache| <= c.maxSize.value)
  }

  lemma StoredKeys(c: Config, cache: seq<Entry>, e: Entry)
    requires forall i, j :: 0 <= i < j < |cache| ==> cache[i].key != cache[j].key
    ensures var after := Stored(c, cache, e);
      && (forall i, j :: 0 <= i < j < |after| ==> after[i].key != after[j].key)
      && e in after && (forall x <- after :: x == e || x in cache)
      && (c.maxSize.Some? && c.maxSize.value > 0 && |cache| <= c.maxSize.value ==> |after| <= c.maxSize.value)
  {
    var room := if Full(c, cache) then DropFirst(cache) else cache;
    var at, after := IndexOf(room, e.key), Stored(c, cache, e);
    assert after[if at.Some? then at.value else |room|] == e;
  }

  lemma EntriesStayOk(c: Config, s: State, s': State)
    requires forall e <- s.cache :: EntryOk(c, s, e)
    requires |s.runs| <= |s'.runs|
    requires forall r :: 0 <= r < |s.runs| && s.runs[r].end.Some? ==> s'.runs[r] == s.runs[r]
    ensures forall e <- s.cache :: EntryOk(c, s', e)
  {
    forall e <- s.cache ensures EntryOk(c, s', e) {
      assert EntryOk(c, s, e);
    }
  }

  lemma FinishKeeps(c: Config, s: State, st: Step)
    requires Enabled(s, st) && Inv(c, s) && st.Finish?
    ensures Inv(c, Next(c, s, st))
  {
    hide Put, Full, IndexOf, Stored;
    var e := Entry(s.runs[st.run].key, st.data, st.now + c.ttl, st.run);
    var s' := Next(c, s, st);
    StoredKeys(c, s.cache, e);
    EntriesStayOk(c, s, s');
    assert EntryOk(c, s', e);
  }

  lemma StepKeeps(c: Config, s: State, st: Step)
    requires Enabled(s, st) && Inv(c, s)
    ensures Inv(c, Next(c, s, st))
  {
    hide Stored, IndexOf, EntryOk;
    if st.Finish? {
      FinishKeeps(c, s, st);
    } else {
      EntriesStayOk(c, s, Next(c, s, st));
    }
  }

  /** Any interleaving of calls, completions and failures. */
  ghost predicate History(c: Config, states: seq<State>, steps: seq<Step>) {
    && |states| == |steps| + 1 && states[0] == START
    && forall n :: 0 <= n < |steps| ==> Enabled(states[n], steps[n]) && states[n + 1] == Next(c, states[n], steps[n])
  }

  lemma {:induction false} HistoryKeeps(c: Config, states: seq<State>, steps: seq<Step>, n: nat)
    requires History(c, states, steps) && n < |states|
    ensures Inv(c, states[n])
  {
    if n > 0 {
      HistoryKeeps(c, states, steps, n - 1);
      StepKeeps(c, states[n - 1], steps[n - 1]);
    }
  }

  /** The cache agrees with the function it speeds up: a call is answered with the value of a run
      on its own key that finished less than the time to live before, or it waits for such a run
      that was in flight, or for one it starts; and it starts one only when none is in flight. */
  lemma CacheAgreesWithFunction(c: Config, states: seq<State>, steps: seq<Step>, n: nat)
    requires History(c, states, steps) && n < |steps| && steps[n].Call?
    ensures var s, key, now := states[n], steps[n].key, steps[n].now;
      match AnswerTo(s, steps[n])
      case Hit(data, run) =>
        run < |s.runs| && s.runs[run].key == key && s.runs[run].end.Some? && s.runs[run].end.value.Value?
        && s.runs[run].end.value.data == data && now < s.runs[run].end.value.at + c.ttl
      case Joined(run) => run < |s.runs| && s.runs[run] == Run(key, None)
      case Started(run) =>
        && run == |s.runs| && states[n + 1].runs == s.runs + [Run(key, None)]
        && forall r :: 0 <= r < |s.runs| && s.runs[r].key == key ==> s.runs[r].end.Some?
  {
    HistoryKeeps(c, states, steps, n);
    var at := IndexOf(states[n].cache, steps[n].key);
    if at.Some? {
      assert EntryOk(c, states[n], states[n].cache[at.value]);
    }
  }

  predicate FreshFor(e: Entry, key: string, now: int) {
    e.key == key && now < e.expiry
  }

  /**
   * And it is answered at once whenever it can be: a fresh entry of the key is a hit; else a run of the
   * key in flight is joined; only else is one started. No call changes what is stored.
   */
  lemma CallIsAnsweredAtOnce(c: Config, states: seq<State>, steps: seq<Step>, n: nat)
    requires History(c, states, steps) && n < |steps| && steps[n].Call?
    ensures var s, key, now, answer := states[n], steps[n].key, steps[n].now, AnswerTo(states[n], steps[n]);
      && (forall e <- s.cache :: FreshFor(e, key, now) ==> answer == Hit(e.data, e.run))
      && ((forall e <- s.cache :: !FreshFor(e, key, now)) ==>
            && !answer.Hit?
            && (forall r :: 0 <= r < |s.runs| && s.runs[r] == Run(key, None) ==> answer == Joined(r)))
      && states[n + 1].cache == s.cache
  {
    HistoryKeeps(c, states, steps, n);
  }

  /** A run that fails leaves what is stored as it is, and its key free for the next call. */
  lemma FailureStoresNothing(c: Config, states: seq<State>, steps: seq<Step>, n: nat)
    requires History(c, states, steps) && n < |steps| && steps[n].Fail?
    ensures steps[n].run < |states[n].runs| && states[n + 1].cache == states[n].cache
    ensures states[n].runs[steps[n].run].key !in states[n + 1].inflight
    ensures forall key <- states[n].inflight.Keys :: key != states[n].runs[steps[n].run].key ==>
      key in states[n + 1].inflight && states[n + 1].inflight[key] == states[n].inflight[key]
  {
    assert Enabled(states[n], steps[n]);
  }

  /**
   * What a run that ends well stores: its own result under its key, for one time to live, in place of
   * what was there. Of the other keys only the first goes, and only from a cache at its limit.
   */
  lemma FinishStoresItsResult(c: Config, states: seq<State>, steps: seq<Step>, n: nat)
    requires History(c, states, steps) && n < |steps| && steps[n].Finish?
    ensures steps[n].run < |states[n].runs|
    ensures var before, after, key := states[n].cache, states[n + 1].cache, states[n].runs[steps[n].run].key;
      && Entry(key, steps[n].data, steps[n].now + c.ttl, steps[n].run) in after
      && (forall e <- after :: e.key == key ==> e == Entry(key, steps[n].data, steps[n].now + c.ttl, steps[n].run))
      && forall e: Entry :: e.key != key ==>
           (e in after <==> e in before && !(c.maxSize.Some? && c.maxSize.value != 0 && |before| >= c.maxSize.value && e == before[0]))
  {
    hide IndexOf, Put;
    HistoryKeeps(c, states, steps, n);
    var s, st := states[n], steps[n];
    var e := Entry(s.runs[st.run].key, st.data, st.now + c.ttl, st.run);
    var room := if Full(c, s.cache) then DropFirst(s.cache) else s.cache;
    RoomLosesTheFirst(c, s.cache);
    hide Full;
    PutReplaces(room, e);
  }

  lemma RoomLosesTheFirst(c: Config, cache: seq<Entry>)
    requires forall i, j :: 0 <= i < j < |cache| ==> cache[i].key != cache[j].key
    ensures var room := if Full(c, cache) then DropFirst(cache) else cache;
      && (forall i, j :: 0 <= i < j < |room| ==> room[i].key != room[j].key)
      && forall e: Entry :: e in room <==>
           e in cache && !(c.maxSize.Some? && c.maxSize.value != 0 && |cache| >= c.maxSize.value && e == cache[0])
  {
    if cache != [] {
      assert cache == [cache[0]] + cache[1..];
    }
  }

  lemma PutReplaces(cache: seq<Entry>, e: Entry)
    requires forall i, j :: 0 <= i < j < |cache| ==> cache[i].key != cache[j].key
    ensures forall x: Entry :: x in Put(cache, e) <==> x == e || (x in cache && x.key != e.key)
  {
    var at, after := IndexOf(cache, e.key), Put(cache, e);
    assert after[if at.Some? then at.value else |cache|] == e;
    forall x | x in cache && x.key != e.key
      ensures x in after
    {
      var i :| 0 <= i < |cache| && cache[i] == x;
      assert after[i] == x;
    }
  }

  /** At most one run a key in flight; failures are never stored; the size limit holds. */
  lemma AtMostOneRunInFlight(c: Config, states: seq<State>, steps: seq<Step>, n: nat, q: nat, r: nat)
    requires History(c, states, steps) && n < |states| && q < |states[n].runs| && r < |states[n].runs|
    requires states[n].runs[q].key == states[n].runs[r].key
    requires states[n].runs[q].end == None && states[n].runs[r].end == None
    ensures q == r
  {
    HistoryKeeps(c, states, steps, n);
  }

  lemma FailuresAreNeverStored(c: Config, states: seq<State>, steps: seq<Step>, n: nat)
    requires History(c, states, steps) && n < |states|
    ensures forall e <- states[n].cache :: e.run < |states[n].runs| && states[n].runs[e.run].end != Some(Failure)
    ensures c.maxSize.Some? && c.maxSize.value > 0 ==> |states[n].cache| <= c.maxSize.value
  {
    HistoryKeeps(c, states, steps, n);
    forall e <- states[n].cache ensures e.run < |states[n].runs| && states[n].runs[e.run].end != Some(Failure) {
      assert EntryOk(c, states[n], e);
    }
  }

  /** What has ended stays as it is. */
  lemma {:induction false} EndedStaysEnded(c: Config, states: seq<State>, steps: seq<Step>, m: nat, n: nat, r: nat)
    requires History(c, states, steps) && m <= n < |states| && r < |states[m].runs|
    ensures r < |states[n].runs| && states[n].runs[r].key == states[m].runs[r].key
    ensures states[m].runs[r].end.Some? ==> states[n].runs[r] == states[m].runs[r]
    decreases n
  {
    if m < n {
      hide Stored, Answered;
      EndedStaysEnded(c, states, steps, m, n - 1, r);
    }
  }

  /** The call waits for the run, having joined or started it. */
  predicate WaitsFor(s: State, st: Step, r: nat) {
    st.Call? && (AnswerTo(s, st) == Joined(r) || AnswerTo(s, st) == Started(r))
  }

  predicate Ends(st: Step, r: nat) {
    (st.Finish? || st.Fail?) && st.run == r
  }

  function Outcome(st: Step): End
    requires !st.Call?
  {
    match st
    case Finish(_, data, now) => Value(data, now)
    case Fail(_) => Failure
  }

  /** The step at which a run that was open at `m` and is over at `n` ended. */
  lemma {:induction false} EndMoment(c: Config, states: seq<State>, steps: seq<Step>, m: nat, n: nat, r: nat) returns (q: nat)
    requires History(c, states, steps) && m <= n < |states|
    requires r < |states[m].runs| && states[m].runs[r].end == None
    requires r < |states[n].runs| && states[n].runs[r].end.Some?
    ensures m <= q < n && Ends(steps[q], r) && states[n].runs[r].end == Some(Outcome(steps[q]))
    decreases n
  {
    hide Stored, Answered;
    EndedStaysEnded(c, states, steps, m, n - 1, r);
    if states[n - 1].runs[r].end.Some? {
      q := EndMoment(c, states, steps, m, n - 1, r);
      EndedStaysEnded(c, states, steps, n - 1, n, r);
    } else {
      q := n - 1;
    }
  }

  lemma EndsOnce(c: Config, states: seq<State>, steps: seq<Step>, x: nat, y: nat, r: nat)
    requires History(c, states, steps) && x < y < |steps| && Ends(steps[x], r)
    ensures !Ends(steps[y], r)
  {
    hide Stored;
    assert Enabled(states[x], steps[x]) && Enabled(states[y], steps[y]);
    if Ends(steps[y], r) {
      EndedStaysEnded(c, states, steps, x + 1, y, r);
    }
  }

  lemma WaitedForIsOpen(c: Config, states: seq<State>, steps: seq<Step>, p: nat, r: nat)
    requires History(c, states, steps) && p < |steps| && WaitsFor(states[p], steps[p], r)
    ensures r < |states[p + 1].runs| && states[p + 1].runs[r] == Run(steps[p].key, None)
  {
    HistoryKeeps(c, states, steps, p);
  }

  /**
   * Whoever waits for a run gets its one outcome: the run is on the caller's key, it ends after the
   * call, in a single step of the whole history, and what it ended with never changes.
   */
  lemma WaitersGetTheOneOutcome(c: Config, states: seq<State>, steps: seq<Step>, p: nat, m: nat, n: nat, r: nat)
    returns (q: nat)
    requires History(c, states, steps) && p < m <= n < |states| && WaitsFor(states[p], steps[p], r)
    requires r < |states[m].runs| && states[m].runs[r].end.Some?
    ensures p < q < m && Ends(steps[q], r) && forall x :: 0 <= x < |steps| && Ends(steps[x], r) ==> x == q
    ensures r < |states[n].runs| && states[n].runs[r] == Run(steps[p].key, Some(Outcome(steps[q])))
  {
    hide Next, Enabled, Ends, WaitsFor;
    WaitedForIsOpen(c, states, steps, p, r);
    EndedStaysEnded(c, states, steps, p + 1, m, r);
    EndedStaysEnded(c, states, steps, m, n, r);
    q := EndMoment(c, states, steps, p + 1, m, r);
    forall x | 0 <= x < |steps| && Ends(steps[x], r)
      ensures x == q
    {
      if x < q {
        EndsOnce(c, states, steps, x, q, r);
      } else if x > q {
        EndsOnce(c, states, steps, q, x, r);
      }
    }
  }

  /** Refreshing a key that a full cache still holds evicts the oldest other key all the same. */
  lemma RefreshEvictsAnother(c: Config, s: State, run: nat, data: string, now: int)
    requires Inv(c, s) && Full(c, s.cache) && s.cache != []
    requires run < |s.runs| && s.runs[run].end == None
    requires IndexOf(s.cache, s.runs[run].key).Some? && s.cache[0].key != s.runs[run].key
    ensures var after := Next(c, s, Finish(run, data, now)).cache;
      |after| == |s.cache| - 1 && IndexOf(after, s.cache[0].key) == None
  {
    var key := s.runs[run].key;
    var p := IndexOf(s.cache, key).value;
    assert s.cache[1..][p - 1].key == key;
  }

  // ---- eviction, exactly ----

  predicate Holds(cache: seq<Entry>, key: string) {
    IndexOf(cache, key).Some?
  }

  /** The cache as it is when a new value is set: without its first entry if it was full. */
  function Room(c: Config, cache: seq<Entry>): seq<Entry> {
    if Full(c, cache) then DropFirst(cache) else cache
  }

  ghost predicate DistinctKeys(cache: seq<Entry>) {
    forall i, j :: 0 <= i < j < |cache| ==> cache[i].key != cache[j].key
  }

  lemma PutHolds(cache: seq<Entry>, e: Entry, key: string)
    ensures Holds(Put(cache, e), key) <==> key == e.key || Holds(cache, key)
  {
    hide IndexOf;
    var after := Put(cache, e);
    if key == e.key {
      assert after[if IndexOf(cache, key).Some? then IndexOf(cache, key).value else |cache|] == e;
    } else if Holds(cache, key) {
      assert after[IndexOf(cache, key).value].key == key;
    }
  }

  lemma RoomHolds(c: Config, cache: seq<Entry>, key: string)
    requires DistinctKeys(cache)
    ensures Holds(Room(c, cache), key) <==>
      Holds(cache, key) && !(Full(c, cache) && cache != [] && key == cache[0].key)
  {
    hide IndexOf, Full;
    if Full(c, cache) && cache != [] && Holds(cache, key) && key != cache[0].key {
      assert cache[1..][IndexOf(cache, key).value - 1].key == key;
    }
  }

  /** Storing a key holds it, and drops exactly the first key of a full cache. */
  lemma EvictsTheFirst(c: Config, states: seq<State>, steps: seq<Step>, n: nat, key: string)
    requires History(c, states, steps) && n < |steps| && steps[n].Finish?
    ensures steps[n].run < |states[n].runs|
    ensures var before, after := states[n].cache, states[n + 1].cache;
      Holds(after, key) <==>
        key == states[n].runs[steps[n].run].key
        || (Holds(before, key) && !(Full(c, before) && before != [] && key == before[0].key))
  {
    hide IndexOf, Full, Put, Holds;
    HistoryKeeps(c, states, steps, n);
    var s, st := states[n], steps[n];
    RoomHolds(c, s.cache, key);
    PutHolds(Room(c, s.cache), Entry(s.runs[st.run].key, st.data, st.now + c.ttl, st.run), key);
  }

  // ---- the order of the cache, and of its use ----

  predicate Stores(s: State, st: Step, key: string) {
    Enabled(s, st) && st.Finish? && s.runs[st.run].key == key
  }

  /** The step gives the key a new place at the end. */
  predicate Inserts(c: Config, s: State, st: Step, key: string) {
    Stores(s, st, key) && !Holds(Room(c, s.cache), key)
  }

  /** The step uses the key where it stands: a hit, or a new value in the old place. */
  predicate Touches(c: Config, s: State, st: Step, key: string) {
    || (st.Call? && st.key == key && AnswerTo(s, st).Hit?)
    || (Stores(s, st, key) && Holds(Room(c, s.cache), key))
  }

  /** The last of the first `n` steps that inserted the key, -1 if none did. */
  function LastInsert(c: Config, states: seq<State>, steps: seq<Step>, n: nat, key: string): (m: int)
    requires n <= |steps| < |states|
    ensures -1 <= m < n
  {
    if n == 0 then -1
    else if Inserts(c, states[n - 1], steps[n - 1], key) then n - 1
    else LastInsert(c, states, steps, n - 1, key)
  }

  /** The last of the first `n` steps that used the key where it stood. */
  function LastTouch(c: Config, states: seq<State>, steps: seq<Step>, n: nat, key: string): (m: int)
    requires n <= |steps| < |states|
    ensures -1 <= m < n
  {
    if n == 0 then -1
    else if Touches(c, states[n - 1], steps[n - 1], key) then n - 1
    else LastTouch(c, states, steps, n - 1, key)
  }

  function LastUse(c: Config, states: seq<State>, steps: seq<Step>, n: nat, key: string): int
    requires n <= |steps| < |states|
  {
    var inserted, touched := LastInsert(c, states, steps, n, key), LastTouch(c, states, steps, n, key);
    if inserted > touched then inserted else touched
  }

  function Keys(cache: seq<Entry>): (keys: seq<string>)
    ensures |keys| == |cache| && forall i :: 0 <= i < |keys| ==> keys[i] == cache[i].key
  {
    seq(|cache|, i requires 0 <= i < |cache| => cache[i].key)
  }

  /** Each key was inserted, and before the keys listed after it. */
  ghost predicate InInsertionOrder(c: Config, states: seq<State>, steps: seq<Step>, n: nat, keys: seq<string>)
    requires n <= |steps| < |states|
  {
    && (forall i :: 0 <= i < |keys| ==> LastInsert(c, states, steps, n, keys[i]) >= 0)
    && forall i, j :: 0 <= i < j < |keys| ==>
         LastInsert(c, states, steps, n, keys[i]) < LastInsert(c, states, steps, n, keys[j])
  }

  /** What one step does to the list of keys. */
  lemma KeysAfter(c: Config, s: State, st: Step)
    requires Enabled(s, st) && Inv(c, s)
    ensures var after, room := Keys(Next(c, s, st).cache), Keys(Room(c, s.cache));
      if !st.Finish? then after == Keys(s.cache)
      else if Inserts(c, s, st, s.runs[st.run].key) then after == room + [s.runs[st.run].key]
      else after == room
    ensures Keys(Room(c, s.cache)) == Keys(s.cache) || (s.cache != [] && Keys(Room(c, s.cache)) == Keys(s.cache)[1..])
  {
    hide IndexOf, Full;
  }

  /** A key that has room is not inserted by the step. */
  lemma KeptKeyIsNotInserted(c: Config, s: State, st: Step, key: string)
    requires key in Keys(Room(c, s.cache)) || !st.Finish?
    ensures !Inserts(c, s, st, key)
  {
    hide Room, IndexOf;
    if key in Keys(Room(c, s.cache)) {
      var i :| 0 <= i < |Room(c, s.cache)| && Keys(Room(c, s.cache))[i] == key;
      assert Room(c, s.cache)[i].key == key;
    }
  }

  lemma {:induction false} OrderKept(c: Config, states: seq<State>, steps: seq<Step>, n: nat, keys: seq<string>)
    requires n < |steps| < |states| && InInsertionOrder(c, states, steps, n, keys)
    requires forall key <- keys :: !Inserts(c, states[n], steps[n], key)
    ensures InInsertionOrder(c, states, steps, n + 1, keys)
  {
    hide Inserts;
    forall i | 0 <= i < |keys|
      ensures LastInsert(c, states, steps, n + 1, keys[i]) == LastInsert(c, states, steps, n, keys[i])
    {
      assert keys[i] in keys;
    }
  }

  lemma OrderExtended(c: Config, states: seq<State>, steps: seq<Step>, n: nat, keys: seq<string>, key: string)
    requires n < |steps| < |states| && InInsertionOrder(c, states, steps, n, keys)
    requires forall k <- keys :: !Inserts(c, states[n], steps[n], k)
    requires Inserts(c, states[n], steps[n], key)
    ensures InInsertionOrder(c, states, steps, n + 1, keys + [key])
  {
    hide Inserts;
    OrderKept(c, states, steps, n, keys);
    forall i | 0 <= i < |keys|
      ensures LastInsert(c, states, steps, n + 1, keys[i]) < n
    {
      assert keys[i] in keys;
    }
    assert LastInsert(c, states, steps, n + 1, key) == n;
  }

  lemma DropKeepsInsertionOrder(c: Config, states: seq<State>, steps: seq<Step>, n: nat, keys: seq<string>)
    requires n <= |steps| < |states| && InInsertionOrder(c, states, steps, n, keys) && keys != []
    ensures InInsertionOrder(c, states, steps, n, keys[1..])
  {
    hide LastInsert;
  }

  lemma InsertionOrderMoves(c: Config, states: seq<State>, steps: seq<Step>, n: nat)
    requires n < |steps| < |states| && Enabled(states[n], steps[n]) && Inv(c, states[n])
    requires states[n + 1] == Next(c, states[n], steps[n])
    requires InInsertionOrder(c, states, steps, n, Keys(states[n].cache))
    ensures InInsertionOrder(c, states, steps, n + 1, Keys(states[n + 1].cache))
  {
    hide Next, Inserts, Room, Inv, InInsertionOrder;
    var s, st := states[n], steps[n];
    KeysAfter(c, s, st);
    var room := if st.Finish? then Keys(Room(c, s.cache)) else Keys(s.cache);
    if room != Keys(s.cache) {
      DropKeepsInsertionOrder(c, states, steps, n, Keys(s.cache));
    }
    forall key <- room
      ensures !Inserts(c, s, st, key)
    {
      KeptKeyIsNotInserted(c, s, st, key);
    }
    OrderKept(c, states, steps, n, room);
    if st.Finish? && Inserts(c, s, st, s.runs[st.run].key) {
      OrderExtended(c, states, steps, n, room, s.runs[st.run].key);
    }
  }

  lemma NothingInserted(c: Config, states: seq<State>, steps: seq<Step>)
    requires |steps| < |states|
    ensures InInsertionOrder(c, states, steps, 0, Keys(START.cache))
  {
  }

  /** In every history the cache lists its keys in the order they were last inserted; being used changes nothing. */
  lemma {:induction false} CacheIsInInsertionOrder(c: Config, states: seq<State>, steps: seq<Step>, n: nat)
    requires History(c, states, steps) && n <= |steps|
    ensures InInsertionOrder(c, states, steps, n, Keys(states[n].cache))
  {
    hide Next, Enabled, Inv, InInsertionOrder;
    if n == 0 {
      NothingInserted(c, states, steps);
    } else {
      CacheIsInInsertionOrder(c, states, steps, n - 1);
      HistoryKeeps(c, states, steps, n - 1);
      InsertionOrderMoves(c, states, steps, n - 1);
    }
  }

  // ---- when the first entry is the least recently used ----

  /** Every other key the cache holds was used after the key's own last use. */
  ghost predicate LeastRecentlyUsed(c: Config, states: seq<State>, steps: seq<Step>, n: nat, key: string)
    requires n <= |steps| < |states|
  {
    forall other <- Keys(states[n].cache) :: other != key ==>
      LastUse(c, states, steps, n, key) < LastUse(c, states, steps, n, other)
  }

  /** Since `other` was inserted, `key` was used where it stood, and `other` not after that. */
  ghost predicate UsedPast(c: Config, states: seq<State>, steps: seq<Step>, n: nat, key: string, other: string)
    requires n <= |steps| < |states|
  {
    && LastTouch(c, states, steps, n, key) >= LastInsert(c, states, steps, n, other)
    && LastTouch(c, states, steps, n, key) >= LastTouch(c, states, steps, n, other)
  }

  /**
   * The entry a full cache drops is its least recently used one exactly when no other held key was
   * passed by: the first key was not hit or refreshed after the other was inserted, or the other
   * was hit or refreshed again after that.
   */
  lemma DropsLeastRecentlyUsedUnlessPassed(c: Config, states: seq<State>, steps: seq<Step>, n: nat)
    requires History(c, states, steps) && n <= |steps| && states[n].cache != []
    ensures var first := states[n].cache[0].key;
      LeastRecentlyUsed(c, states, steps, n, first)
      <==> forall other <- Keys(states[n].cache) :: other != first ==> !UsedPast(c, states, steps, n, first, other)
  {
    hide LastInsert, LastTouch;
    CacheIsInInsertionOrder(c, states, steps, n);
    var keys := Keys(states[n].cache);
    var first := keys[0];
    forall other <- keys | other != first
      ensures LastUse(c, states, steps, n, first) < LastUse(c, states, steps, n, other)
        <==> !UsedPast(c, states, steps, n, first, other)
    {
      var j :| 0 <= j < |keys| && keys[j] == other;
      assert LastInsert(c, states, steps, n, first) < LastInsert(c, states, steps, n, other);
    }
  }

  // ---- a history in which it is not ----

  const SMALL := Config(1000, Some(2))

  function SceneRuns(k: nat): seq<Run> {
    (if k < 1 then [] else [Run("a", if k < 2 then None else Some(Value("x", 0)))])
    + (if k < 3 then [] else [Run("b", if k < 4 then None else Some(Value("y", 0)))])
    + (if k < 6 then [] else [Run("c", if k < 7 then None else Some(Value("z", 0)))])
  }

  function SceneCache(k: nat): seq<Entry> {
    if k < 2 then []
    else if k < 4 then [Entry("a", "x", 1000, 0)]
    else if k < 7 then [Entry("a", "x", 1000, 0), Entry("b", "y", 1000, 1)]
    else [Entry("b", "y", 1000, 1), Entry("c", "z", 1000, 2)]
  }

  function SceneState(k: nat): State {
    State(SceneCache(k), if k == 1 then map["a" := 0] else if k == 3 then map["b" := 1] else if k == 6 then map["c" := 2] else map[],
          SceneRuns(k))
  }

  /** Two keys fill the cache, the older is used again, and a third comes. */
  function SceneStep(k: nat): Step
    requires k < 7
  {
    [Call("a", 0), Finish(0, "x", 0), Call("b", 0), Finish(1, "y", 0), Call("a", 0), Call("c", 0), Finish(2, "z", 0)][k]
  }

  lemma SceneCalls(k: nat)
    requires k == 0 || k == 2 || k == 4 || k == 5
    ensures Enabled(SceneState(k), SceneStep(k))
    ensures Next(SMALL, SceneState(k), SceneStep(k)) == SceneState(k + 1)
  {
    assert IndexOf([Entry("b", "y", 1000, 1)], "c") == None;
    assert [Entry("a", "x", 1000, 0), Entry("b", "y", 1000, 1)][1..] == [Entry("b", "y", 1000, 1)];
  }

  lemma SceneFills(k: nat)
    requires k == 1 || k == 3
    ensures Enabled(SceneState(k), SceneStep(k))
    ensures Next(SMALL, SceneState(k), SceneStep(k)) == SceneState(k + 1)
  {
    assert IndexOf([Entry("a", "x", 1000, 0)], "b") == None;
  }

  lemma SceneDrops()
    ensures Enabled(SceneState(6), SceneStep(6))
    ensures Next(SMALL, SceneState(6), SceneStep(6)) == SceneState(7)
  {
    assert SceneCache(6)[1..] == [Entry("b", "y", 1000, 1)];
    assert IndexOf([Entry("b", "y", 1000, 1)], "c") == None;
  }

  lemma SceneMoves(k: nat)
    requires k < 7
    ensures Enabled(SceneState(k), SceneStep(k))
    ensures Next(SMALL, SceneState(k), SceneStep(k)) == SceneState(k + 1)
  {
    hide Next, Enabled, SceneState, SceneStep;
    if k == 1 || k == 3 {
      SceneFills(k);
    } else if k == 6 {
      SceneDrops();
    } else {
      SceneCalls(k);
    }
  }

  /** From an empty cache of two: the key used last is dropped, and the least recently used one stays. */
  lemma TheLastUsedCanGo() returns (states: seq<State>, steps: seq<Step>)
    ensures History(SMALL, states, steps) && |steps| == 7
    ensures Keys(states[6].cache) == ["a", "b"] && Full(SMALL, states[6].cache) && steps[6].Finish?
    ensures LastUse(SMALL, states, steps, 6, "b") < LastUse(SMALL, states, steps, 6, "a")
    ensures !LeastRecentlyUsed(SMALL, states, steps, 6, "a")
    ensures !Holds(states[7].cache, "a") && Holds(states[7].cache, "b")
  {
    hide Next, Inserts, Touches, Enabled;
    states := seq(8, k requires 0 <= k < 8 => SceneState(k));
    steps := seq(7, k requires 0 <= k < 7 => SceneStep(k));
    forall k | 0 <= k < 7
      ensures Enabled(states[k], steps[k]) && states[k + 1] == Next(SMALL, states[k], steps[k])
    {
      SceneMoves(k);
    }
    SceneUses();
    assert states[4] == SceneState(4) && states[5] == SceneState(5) && steps[4] == SceneStep(4) && steps[5] == SceneStep(5);
    assert LastTouch(SMALL, states, steps, 5, "a") == 4;
    assert LastTouch(SMALL, states, steps, 6, "a") == 4;
    assert LastTouch(SMALL, states, steps, 6, "b") == LastTouch(SMALL, states, steps, 5, "b") == LastTouch(SMALL, states, steps, 4, "b");
    assert LastInsert(SMALL, states, steps, 6, "b") == LastInsert(SMALL, states, steps, 5, "b") == LastInsert(SMALL, states, steps, 4, "b");
    assert Keys(states[6].cache)[1] == "b";
  }

  lemma SceneUses()
    ensures Touches(SMALL, SceneState(4), SceneStep(4), "a")
    ensures !Inserts(SMALL, SceneState(4), SceneStep(4), "b") && !Touches(SMALL, SceneState(4), SceneStep(4), "b")
    ensures !Inserts(SMALL, SceneState(5), SceneStep(5), "b") && !Touches(SMALL, SceneState(5), SceneStep(5), "b")
    ensures !Inserts(SMALL, SceneState(5), SceneStep(5), "a") && !Touches(SMALL, SceneState(5), SceneStep(5), "a")
  {
  }
}
