/** What reading a transcript comes to, said of its lines alone: the calls, the entries, and who answers whom. */
module PairingMeaning {
  import opened Pairing

  // ---- the calls ----

  /** A tool call's place: its line, and its position in the line's list. */
  datatype Site = Site(line: nat, index: nat)

  predicate SiteBefore(a: Site, b: Site) {
    a.line < b.line || (a.line == b.line && a.index < b.index)
  }

  /** A planner step's list has an object at this place. */
  predicate IsSite(lines: seq<Line>, x: Site) {
    && x.line < |lines| && lines[x.line].Step? && lines[x.line].kind == "PLANNER_RESPONSE"
    && x.index < |lines[x.line].calls| && lines[x.line].calls[x.index].Call?
  }

  /** Every place of a call, once, in file order. */
  ghost predicate AreTheSites(lines: seq<Line>, sites: seq<Site>) {
    && (forall x :: x in sites <==> IsSite(lines, x))
    && forall j, k :: 0 <= j < k < |sites| ==> SiteBefore(sites[j], sites[k])
  }

  /** The call made at a place: the line it is on, its name in capitals, "TOOL" for none, and the line's time. */
  ghost predicate IssuedAt(call: Issued, lines: seq<Line>, x: Site, upper: string -> string)
    requires IsSite(lines, x)
  {
    var name := lines[x.line].calls[x.index].name;
    && call.line == x.line && call.startMs == lines[x.line].ms
    && (name.Some? ==> call.key == upper(name.value)) && (name == None ==> call.key == upper("tool"))
  }

  ghost predicate IssuedAtSites(calls: seq<Issued>, lines: seq<Line>, sites: seq<Site>, upper: string -> string) {
    && |calls| == |sites|
    && forall k :: 0 <= k < |sites| ==> IsSite(lines, sites[k]) && IssuedAt(calls[k], lines, sites[k], upper)
  }

  function SitesIn(calls: seq<ToolCall>, at: nat, n: nat): seq<Site>
    requires n <= |calls|
  {
    if n == 0 then []
    else SitesIn(calls, at, n - 1) + (if calls[n - 1].Call? then [Site(at, n - 1)] else [])
  }

  function Sites(lines: seq<Line>): seq<Site>
    decreases |lines|
  {
    if lines == [] then []
    else
      var line := Last(lines);
      Sites(ButLast(lines))
      + (if line.Step? && line.kind == "PLANNER_RESPONSE" then SitesIn(line.calls, |lines| - 1, |line.calls|) else [])
  }

  ghost predicate InFileOrder(sites: seq<Site>) {
    forall j, k :: 0 <= j < k < |sites| ==> SiteBefore(sites[j], sites[k])
  }

  lemma OrderedOneMore(sites: seq<Site>, x: Site)
    requires InFileOrder(sites) && forall y <- sites :: SiteBefore(y, x)
    ensures InFileOrder(sites + [x])
  {
  }

  lemma OrderedTogether(first: seq<Site>, second: seq<Site>)
    requires InFileOrder(first) && InFileOrder(second) && forall a, b :: a in first && b in second ==> SiteBefore(a, b)
    ensures InFileOrder(first + second)
  {
    var all := first + second;
    forall j, k | 0 <= j < k < |all|
      ensures SiteBefore(all[j], all[k])
    {
      if j < |first| && k >= |first| {
        assert all[j] in first && all[k] in second;
      }
    }
  }

  lemma {:induction false} SitesInAre(calls: seq<ToolCall>, at: nat, n: nat)
    requires n <= |calls|
    ensures forall x :: x in SitesIn(calls, at, n) <==> x.line == at && x.index < n && calls[x.index].Call?
    ensures InFileOrder(SitesIn(calls, at, n))
  {
    hide InFileOrder;
    if n == 0 {
      assert InFileOrder([]) by { NoSites(); }
    } else {
      SitesInAre(calls, at, n - 1);
      if calls[n - 1].Call? {
        OrderedOneMore(SitesIn(calls, at, n - 1), Site(at, n - 1));
      } else {
        assert SitesIn(calls, at, n - 1) + [] == SitesIn(calls, at, n - 1);
      }
    }
  }

  lemma SitesLie(lines: seq<Line>)
    ensures forall x :: IsSite(lines, x) ==> x.line < |lines|
  {
  }

  lemma NothingIsASite()
    ensures forall x :: !IsSite([], x)
  {
  }

  lemma NoSites()
    ensures InFileOrder([])
  {
  }

  lemma {:induction false} SitesAre(lines: seq<Line>)
    ensures forall x :: x in Sites(lines) <==> IsSite(lines, x)
    ensures InFileOrder(Sites(lines))
    decreases |lines|
  {
    hide InFileOrder, SitesIn, IsSite;
    if lines == [] {
      assert forall x :: !IsSite([], x) by { NothingIsASite(); }
      NoSites();
    } else {
      var before, line := ButLast(lines), Last(lines);
      SitesAre(before);
      if line.Step? && line.kind == "PLANNER_RESPONSE" {
        SitesInAre(line.calls, |before|, |line.calls|);
        assert forall x <- Sites(before) :: x.line < |before| by { SitesLie(before); }
        OrderedTogether(Sites(before), SitesIn(line.calls, |before|, |line.calls|));
      } else {
        assert Sites(before) + [] == Sites(before);
      }
      forall x
        ensures IsSite(lines, x) <==> IsSite(before, x) || IsLastSite(line, |before|, x)
      {
        OneLineMore(lines, x);
      }
    }
  }

  predicate IsLastSite(line: Line, at: nat, x: Site) {
    && x.line == at && line.Step? && line.kind == "PLANNER_RESPONSE"
    && x.index < |line.calls| && line.calls[x.index].Call?
  }

  lemma OneLineMore(lines: seq<Line>, x: Site)
    requires lines != []
    ensures IsSite(lines, x) <==> IsSite(ButLast(lines), x) || IsLastSite(Last(lines), |lines| - 1, x)
  {
    assert x.line < |lines| - 1 ==> lines[x.line] == ButLast(lines)[x.line];
  }

  /** The calls of one planner step, issued one by one. */
  lemma {:induction false} StepIssues(s: State, lines: seq<Line>, n: nat, upper: string -> string)
    requires Aligned(s) && lines != [] && Last(lines).Step? && Last(lines).kind == "PLANNER_RESPONSE" && n <= |Last(lines).calls|
    requires IssuedAtSites(s.calls, lines, Sites(ButLast(lines)), upper)
    ensures var line := Last(lines);
      IssuedAtSites(IssueCalls(s, |lines| - 1, line.ms, line.calls[..n], upper).calls, lines,
                    Sites(ButLast(lines)) + SitesIn(line.calls, |lines| - 1, n), upper)
  {
    hide Sites, IssuedAtSites, IssuedAt;
    var line, before := Last(lines), Sites(ButLast(lines));
    if n == 0 {
      assert before + [] == before;
    } else {
      StepIssues(s, lines, n - 1, upper);
      assert ButLast(line.calls[..n]) == line.calls[..n - 1];
      var earlier := before + SitesIn(line.calls, |lines| - 1, n - 1);
      if line.calls[n - 1].Call? {
        var x := Site(|lines| - 1, n - 1);
        OneCallMore(IssueCalls(s, |lines| - 1, line.ms, line.calls[..n - 1], upper).calls, lines, earlier, x, upper);
        assert before + (SitesIn(line.calls, |lines| - 1, n - 1) + [x]) == earlier + [x];
      } else {
        assert before + (SitesIn(line.calls, |lines| - 1, n - 1) + []) == earlier;
      }
    }
  }

  lemma OneCallMore(calls: seq<Issued>, lines: seq<Line>, sites: seq<Site>, x: Site, upper: string -> string)
    requires IssuedAtSites(calls, lines, sites, upper) && IsSite(lines, x)
    ensures var line := lines[x.line];
      IssuedAtSites(calls + [Issued(x.line, upper(OrElse(line.calls[x.index].name, "tool")), line.ms)], lines, sites + [x], upper)
  {
  }

  lemma IssuedWithMoreLines(calls: seq<Issued>, lines: seq<Line>, line: Line, sites: seq<Site>, upper: string -> string)
    requires IssuedAtSites(calls, lines, sites, upper)
    ensures IssuedAtSites(calls, lines + [line], sites, upper)
  {
    forall k | 0 <= k < |sites|
      ensures IsSite(lines + [line], sites[k]) && IssuedAt(calls[k], lines + [line], sites[k], upper)
    {
      assert IsSite(lines, sites[k]) && IssuedAt(calls[k], lines, sites[k], upper);
    }
  }

  lemma {:induction false} ReadIssues(lines: seq<Line>, upper: string -> string)
    ensures IssuedAtSites(Read(lines, upper).calls, lines, Sites(lines), upper)
    decreases |lines|
  {
    hide IssuedAtSites, IssueCalls, SitesIn, Waiting, AnswerFrom;
    if lines == [] {
      assert IssuedAtSites([], [], [], upper) by { NothingIssued(upper); }
    } else {
      var before, line := ButLast(lines), Last(lines);
      var s := Read(before, upper);
      ReadIssues(before, upper);
      SplitLast(lines);
      IssuedWithMoreLines(s.calls, before, line, Sites(before), upper);
      if line.Step? && line.kind == "PLANNER_RESPONSE" {
        StepIssues(s, lines, |line.calls|, upper);
        assert line.calls[..|line.calls|] == line.calls;
      } else {
        assert Sites(before) + [] == Sites(before);
      }
    }
  }

  lemma NothingIssued(upper: string -> string)
    ensures IssuedAtSites([], [], [], upper)
  {
  }

  /** The calls of a transcript are the objects in its planner steps' lists: every one, once, in file order. */
  lemma CallsAreTheSites(lines: seq<Line>, upper: string -> string) returns (sites: seq<Site>)
    ensures AreTheSites(lines, sites) && IssuedAtSites(Read(lines, upper).calls, lines, sites, upper)
  {
    sites := Sites(lines);
    SitesAre(lines);
    ReadIssues(lines, upper);
  }

  // ---- what was read early stays ----

  /** Calls stay, results stay, and a call with none yet can only get one from line `at` or a later one. */
  ghost predicate GrowsFrom(s: State, s': State, at: nat) {
    && Aligned(s) && Aligned(s') && s.calls <= s'.calls
    && forall c: nat :: c < |s.calls| ==> KeepsAnswer(s.answers[c], s'.answers[c], at)
  }

  predicate KeepsAnswer(answer: Option<Answer>, later: Option<Answer>, at: nat) {
    if answer.Some? then later == answer else later.Some? ==> later.value.line >= at
  }

  lemma TakeGrows(s: State, at: nat, line: Line, upper: string -> string)
    requires Aligned(s)
    ensures GrowsFrom(s, Take(s, at, line, upper), at)
  {
    hide Waiting, IssueCall;
    if !Silent(line) && !IsTurn(line) && Waiting(s, line.kind) != [] {
      OldestIsFirst(s, line.kind);
    }
  }

  lemma GrowsOn(s: State, s': State, s'': State, at: nat, later: nat)
    requires GrowsFrom(s, s', at) && GrowsFrom(s', s'', later) && at <= later
    ensures GrowsFrom(s, s'', at)
  {
    forall c: nat | c < |s.calls|
      ensures KeepsAnswer(s.answers[c], s''.answers[c], at)
    {
      assert KeepsAnswer(s.answers[c], s'.answers[c], at) && KeepsAnswer(s'.answers[c], s''.answers[c], later);
    }
  }

  lemma {:induction false} ReadGrows(lines: seq<Line>, i: nat, upper: string -> string)
    requires i <= |lines|
    ensures GrowsFrom(Read(lines[..i], upper), Read(lines, upper), i)
    decreases |lines|
  {
    hide GrowsFrom, Take;
    if i == |lines| {
      assert lines[..i] == lines;
      assert GrowsFrom(Read(lines, upper), Read(lines, upper), i) by { StaysItself(Read(lines, upper), i); }
    } else {
      var before := ButLast(lines);
      assert before[..i] == lines[..i];
      ReadGrows(before, i, upper);
      TakeGrows(Read(before, upper), |before|, Last(lines), upper);
      GrowsOn(Read(lines[..i], upper), Read(before, upper), Read(lines, upper), i, |before|);
    }
  }

  lemma StaysItself(s: State, at: nat)
    requires Aligned(s)
    ensures GrowsFrom(s, s, at)
  {
  }

  // ---- how many calls the earlier lines make ----

  lemma {:induction false} SitesGrow(lines: seq<Line>, i: nat)
    requires i <= |lines|
    ensures Sites(lines[..i]) <= Sites(lines)
    decreases |lines|
  {
    hide SitesIn;
    if i == |lines| {
      assert lines[..i] == lines;
    } else {
      assert ButLast(lines)[..i] == lines[..i];
      SitesGrow(ButLast(lines), i);
    }
  }

  /** The calls made before line `i` are the first in the list. */
  lemma EarlierSites(lines: seq<Line>, i: nat, k: nat)
    requires i <= |lines| && k < |Sites(lines)|
    ensures Sites(lines)[k].line < i <==> k < |Sites(lines[..i])|
  {
    hide Sites;
    var all, some := Sites(lines), Sites(lines[..i]);
    SitesGrow(lines, i);
    SitesAre(lines);
    SitesAre(lines[..i]);
    var x := all[k];
    assert x in all;
    assert k < |some| ==> some[k] == x && x in some;
    if x.line < i {
      assert lines[..i][x.line] == lines[x.line];
      assert x in some;
      var j :| 0 <= j < |some| && some[j] == x;
      assert all[j] == x;
      assert j != k ==> SiteBefore(x, x);
    }
  }

  lemma CallsSoFar(lines: seq<Line>, i: nat, upper: string -> string)
    requires i <= |lines|
    ensures |Read(lines[..i], upper).calls| == |Sites(lines[..i])|
  {
    ReadIssues(lines[..i], upper);
  }

  // ---- the entries and the results ----

  function TextOf(line: Line): string
    requires line.Step?
  {
    match line.content case Some(text) => text case None => ""
  }

  /** Line `i` is a result of call `c`: a later line of the call's name, with its text, its time, and the delay if positive. */
  ghost predicate ResultIs(answer: Answer, lines: seq<Line>, call: Issued) {
    && call.line < answer.line < |lines| && lines[answer.line].Step? && lines[answer.line].kind == call.key
    && answer.ms == lines[answer.line].ms && answer.content == TextOf(lines[answer.line])
    && answer.durationMs == if answer.ms > call.startMs then answer.ms - call.startMs else 0
  }

  predicate ResultOf(s: State, c: nat, i: nat) {
    c < |s.answers| && s.answers[c].Some? && s.answers[c].value.line == i
  }

  ghost predicate NoEntry(s: State, i: nat) {
    forall entry <- s.entries :: entry.line != i
  }

  ghost predicate NoResult(s: State, i: nat) {
    forall c: nat :: !ResultOf(s, c, i)
  }

  /** Every call of the name on an earlier line had its result on an earlier line. */
  ghost predicate NoneWaits(s: State, kind: string, i: nat)
    requires Aligned(s)
  {
    forall c: nat :: c < |s.calls| && s.calls[c].line < i && s.calls[c].key == kind ==>
      s.answers[c].Some? && s.answers[c].value.line < i
  }

  /** What line `i` comes to. */
  ghost predicate ComesTo(s: State, lines: seq<Line>, sites: seq<Site>, i: nat)
    requires i < |lines| && Aligned(s)
  {
    var line := lines[i];
    if !line.Step? || line.kind in {"", "CONVERSATION_HISTORY", "CHECKPOINT"} then NoEntry(s, i) && NoResult(s, i)
    else if line.kind == "USER_INPUT" then User(i, line.ms, TextOf(line)) in s.entries && NoResult(s, i)
    else if line.kind == "PLANNER_RESPONSE" then
      && NoResult(s, i)
      && if TextOf(line) == "" && (forall x <- sites :: x.line != i) then NoEntry(s, i)
         else exists first: nat, upto: nat ::
           && Assistant(i, line.ms, TextOf(line), first, upto) in s.entries && first <= upto <= |sites|
           && forall k: nat :: k < |sites| ==> (first <= k < upto <==> sites[k].line == i)
    else if NoResult(s, i) then System(i, line.ms) in s.entries && NoneWaits(s, line.kind, i)
    else NoEntry(s, i)
  }

  /** The calls of one name get their results in the order they were made. */
  ghost predicate ServedInOrder(s: State)
    requires Aligned(s)
  {
    forall c: nat, d: nat :: c < d < |s.calls| && s.calls[c].key == s.calls[d].key && s.answers[d].Some? ==>
      s.answers[c].Some? && s.answers[c].value.line < s.answers[d].value.line
  }

  lemma FateIsAccounted(lines: seq<Line>, i: nat, upper: string -> string)
    requires i < |lines|
    ensures var s, fate := Read(lines, upper), FateOf(lines, i, upper);
      && (fate.Emitted? ==> fate.entry.line == i && fate.entry in s.entries && NoResult(s, i))
      && (fate.Attached? ==> NoEntry(s, i) && ResultOf(s, fate.call, i))
      && (fate.Skipped? ==> NoEntry(s, i) && NoResult(s, i))
  {
    hide Read, FateOf;
    AllAccounted(lines, i, upper);
  }

  lemma TextIsOrElse(line: Line)
    requires line.Step?
    ensures TextOf(line) == OrElse(line.content, "")
  {
  }

  lemma IgnoredLine(lines: seq<Line>, sites: seq<Site>, i: nat, upper: string -> string)
    requires i < |lines| && (!lines[i].Step? || lines[i].kind in {"", "CONVERSATION_HISTORY", "CHECKPOINT"})
    ensures ComesTo(Read(lines, upper), lines, sites, i)
  {
    hide Read, Waiting, IssueCalls, NoEntry, NoResult;
    FateIsAccounted(lines, i, upper);
  }

  lemma UserLine(lines: seq<Line>, sites: seq<Site>, i: nat, upper: string -> string)
    requires i < |lines| && lines[i].Step? && lines[i].kind == "USER_INPUT"
    ensures ComesTo(Read(lines, upper), lines, sites, i)
  {
    hide Read, Waiting, IssueCalls, NoEntry, NoResult;
    FateIsAccounted(lines, i, upper);
  }

  /** The calls of line `i` are those from the ones before it up to the ones before the next line. */
  lemma CallsOfTheLine(lines: seq<Line>, i: nat)
    requires i < |lines|
    ensures var first, upto := |Sites(lines[..i])|, |Sites(lines[..i + 1])|;
      && first <= upto <= |Sites(lines)|
      && forall k: nat :: k < |Sites(lines)| ==> (first <= k < upto <==> Sites(lines)[k].line == i)
  {
    hide Sites;
    SitesGrow(lines, i + 1);
    SitesGrow(lines[..i + 1], i);
    assert lines[..i + 1][..i] == lines[..i];
    forall k: nat | k < |Sites(lines)|
      ensures |Sites(lines[..i])| <= k < |Sites(lines[..i + 1])| <==> Sites(lines)[k].line == i
    {
      EarlierSites(lines, i, k);
      EarlierSites(lines, i + 1, k);
    }
  }

  lemma HasCallIsASite(lines: seq<Line>, i: nat)
    requires i < |lines| && lines[i].Step? && lines[i].kind == "PLANNER_RESPONSE"
    ensures HasCall(lines[i].calls) <==> exists x <- Sites(lines) :: x.line == i
  {
    hide Sites;
    SitesAre(lines);
    if HasCall(lines[i].calls) {
      var call :| call in lines[i].calls && call.Call?;
      var j :| 0 <= j < |lines[i].calls| && lines[i].calls[j] == call;
      assert IsSite(lines, Site(i, j));
      assert Site(i, j) in Sites(lines);
    }
  }

  lemma PlannerLine(lines: seq<Line>, i: nat, upper: string -> string)
    requires i < |lines| && lines[i].Step? && lines[i].kind == "PLANNER_RESPONSE"
    ensures ComesTo(Read(lines, upper), lines, Sites(lines), i)
  {
    hide Read, Waiting, IssueCalls, NoEntry, NoResult, HasCall, Sites;
    FateIsAccounted(lines, i, upper);
    HasCallIsASite(lines, i);
    TextIsOrElse(lines[i]);
    CallsOfTheLine(lines, i);
    CallsSoFar(lines, i, upper);
    CallsSoFar(lines, i + 1, upper);
    StepCount(lines, i, upper);
  }

  lemma StepCount(lines: seq<Line>, i: nat, upper: string -> string)
    requires i < |lines| && lines[i].Step? && lines[i].kind == "PLANNER_RESPONSE"
    ensures |IssueCalls(Read(lines[..i], upper), i, lines[i].ms, lines[i].calls, upper).calls|
         == |Read(lines[..i + 1], upper).calls|
  {
    hide Waiting, IssueCall;
    ReadLast(lines[..i + 1], upper);
    assert ButLast(lines[..i + 1]) == lines[..i];
  }

  /** A call that does not wait when line `i` comes has had its result. */
  lemma ServedBefore(now: State, s: State, lines: seq<Line>, i: nat, kind: string, c: nat)
    requires i <= |lines| && Paired(now, lines[..i]) && GrowsFrom(now, s, i) && Waiting(now, kind) == []
    requires c < |now.calls| && now.calls[c].key == kind
    ensures s.answers[c].Some? && s.answers[c].value.line < i
  {
    hide Open, Paired, AnsweredByItsName;
    OpenMembers(now.calls, now.answers, kind, |now.calls|);
    assert c !in Waiting(now, kind);
    NoAnswerYet(now, lines[..i]);
    assert KeepsAnswer(now.answers[c], s.answers[c], i);
  }

  /** A name with nothing waiting when line `i` comes: its earlier calls have earlier results. */
  lemma NothingWaited(lines: seq<Line>, i: nat, kind: string, upper: string -> string)
    requires i < |lines| && Waiting(Read(lines[..i], upper), kind) == []
    ensures NoneWaits(Read(lines, upper), kind, i)
  {
    hide Read, Waiting, Paired, IssuedAtSites, Sites;
    var s, now := Read(lines, upper), Read(lines[..i], upper);
    ReadGrows(lines, i, upper);
    ReadIsPaired(lines[..i], upper);
    forall c: nat | c < |s.calls| && s.calls[c].line < i && s.calls[c].key == kind
      ensures s.answers[c].Some? && s.answers[c].value.line < i
    {
      CallIsEarly(lines, i, c, upper);
      ServedBefore(now, s, lines, i, kind, c);
    }
  }

  lemma CallIsEarly(lines: seq<Line>, i: nat, c: nat, upper: string -> string)
    requires i <= |lines| && c < |Read(lines, upper).calls|
    ensures Read(lines, upper).calls[c].line < i <==> c < |Read(lines[..i], upper).calls|
  {
    hide Read, Sites, IssuedAtSites;
    ReadIssues(lines, upper);
    CallsSoFar(lines, i, upper);
    assert |Read(lines, upper).calls| == |Sites(lines)| by { AsManySites(Read(lines, upper).calls, lines, Sites(lines), upper); }
    EarlierSites(lines, i, c);
    IssuedLine(Read(lines, upper).calls, lines, Sites(lines), upper, c);
  }

  lemma AsManySites(calls: seq<Issued>, lines: seq<Line>, sites: seq<Site>, upper: string -> string)
    requires IssuedAtSites(calls, lines, sites, upper)
    ensures |calls| == |sites|
  {
  }

  lemma IssuedLine(calls: seq<Issued>, lines: seq<Line>, sites: seq<Site>, upper: string -> string, c: nat)
    requires IssuedAtSites(calls, lines, sites, upper) && c < |calls|
    ensures c < |sites| && calls[c].line == sites[c].line
  {
    assert IsSite(lines, sites[c]) && IssuedAt(calls[c], lines, sites[c], upper);
  }

  lemma ResultLine(lines: seq<Line>, sites: seq<Site>, i: nat, upper: string -> string)
    requires i < |lines| && lines[i].Step?
    requires lines[i].kind !in {"", "CONVERSATION_HISTORY", "CHECKPOINT", "USER_INPUT", "PLANNER_RESPONSE"}
    ensures ComesTo(Read(lines, upper), lines, sites, i)
  {
    hide Read, IssueCalls, NoEntry, Open, NoneWaits;
    FateIsAccounted(lines, i, upper);
    if Waiting(Read(lines[..i], upper), lines[i].kind) == [] {
      NothingWaited(lines, i, lines[i].kind, upper);
    }
  }

  lemma LineComesTo(lines: seq<Line>, i: nat, upper: string -> string)
    requires i < |lines|
    ensures ComesTo(Read(lines, upper), lines, Sites(lines), i)
  {
    hide Read, ComesTo, Sites;
    if !lines[i].Step? || lines[i].kind in {"", "CONVERSATION_HISTORY", "CHECKPOINT"} {
      IgnoredLine(lines, Sites(lines), i, upper);
    } else if lines[i].kind == "USER_INPUT" {
      UserLine(lines, Sites(lines), i, upper);
    } else if lines[i].kind == "PLANNER_RESPONSE" {
      PlannerLine(lines, i, upper);
    } else {
      ResultLine(lines, Sites(lines), i, upper);
    }
  }

  lemma AnswerIsResult(s: State, lines: seq<Line>, c: nat)
    requires Paired(s, lines) && c < |s.calls| && s.answers[c].Some?
    ensures ResultIs(s.answers[c].value, lines, s.calls[c])
  {
    assert AnsweredByItsName(s, lines, c);
    TextIsOrElse(lines[s.answers[c].value.line]);
  }

  lemma InOrderOfCalls(s: State, lines: seq<Line>)
    requires Paired(s, lines)
    ensures ServedInOrder(s)
  {
    forall c: nat, d: nat | c < d < |s.calls| && s.calls[c].key == s.calls[d].key && s.answers[d].Some?
      ensures s.answers[c].Some? && s.answers[c].value.line < s.answers[d].value.line
    {
      assert Later(s, c, d);
    }
  }

  /**
   * The whole reading, from the lines alone. The calls are the objects in the planner steps' lists, each
   * once, in file order. Every line is an entry, a result or neither as its kind says, an assistant
   * entry having exactly its own line's calls; there are no other entries. A result is a later line of
   * its call's name and carries that line's text, time and delay; no line is the result of two calls;
   * the calls of a name are served in order, and a line of that name is turned into an entry of its own
   * only when all of them before it have been served.
   */
  lemma ReadingMeans(lines: seq<Line>, upper: string -> string) returns (sites: seq<Site>)
    ensures var s := Read(lines, upper);
      && AreTheSites(lines, sites) && IssuedAtSites(s.calls, lines, sites, upper)
      && (forall i: nat :: i < |lines| ==> ComesTo(s, lines, sites, i))
      && InLineOrder(s.entries, |lines|)
      && (forall c: nat :: c < |s.calls| && s.answers[c].Some? ==> ResultIs(s.answers[c].value, lines, s.calls[c]))
      && (forall c: nat, d: nat, i: nat :: ResultOf(s, c, i) && ResultOf(s, d, i) ==> c == d)
      && ServedInOrder(s)
  {
    hide Read, ComesTo, Sites, ResultIs, Paired, IssuedAtSites, AnsweredByItsName, ServedInOrder;
    var s := Read(lines, upper);
    sites := Sites(lines);
    SitesAre(lines);
    ReadIssues(lines, upper);
    ReadIsPaired(lines, upper);
    EntriesInLineOrder(lines, upper);
    InOrderOfCalls(s, lines);
    forall i: nat | i < |lines|
      ensures ComesTo(s, lines, sites, i)
    {
      LineComesTo(lines, i, upper);
    }
    forall c: nat | c < |s.calls| && s.answers[c].Some?
      ensures ResultIs(s.answers[c].value, lines, s.calls[c])
    {
      AnswerIsResult(s, lines, c);
    }
    forall c: nat, d: nat, i: nat | ResultOf(s, c, i) && ResultOf(s, d, i)
      ensures c == d
    {
      if c != d {
        ResultsMatchCallsInOrder(lines, upper, c, d);
      }
    }
  }
}
