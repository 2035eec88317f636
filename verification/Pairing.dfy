/** Pairing the tool calls of an Antigravity transcript with the later steps that carry their results. */
module Pairing {

  datatype Option<+T> = None | Some(value: T)

  /** One transcript line, parsed; `kind` is empty and `content` absent when they are not strings. */
  datatype Line =
    | NotAnObject
    | Step(kind: string, ms: int, content: Option<string>, calls: seq<ToolCall>)

  datatype ToolCall = NotACall | Call(name: Option<string>)

  datatype Answer = Answer(line: nat, ms: int, content: string, durationMs: int)

  /** A call in file order: the line it is on, the upper-cased name results are matched by, and when it was made. */
  datatype Issued = Issued(line: nat, key: string, startMs: int)

  /** Log entries; the calls of an assistant entry are `calls[first..upto]`. */
  datatype Entry =
    | User(line: nat, ms: int, text: string)
    | Assistant(line: nat, ms: int, text: string, first: nat, upto: nat)
    | System(line: nat, ms: int)

  datatype State = State(calls: seq<Issued>, answers: seq<Option<Answer>>, entries: seq<Entry>)

  const EMPTY := State([], [], [])

  function Last<T>(s: seq<T>): T
    requires s != []
  {
    s[|s| - 1]
  }

  function ButLast<T>(s: seq<T>): seq<T>
    requires s != []
  {
    s[..|s| - 1]
  }

  function OrElse(text: Option<string>, default: string): string {
    if text.Some? then text.value else default
  }

  predicate Silent(line: Line) {
    line.NotAnObject? || line.kind == "" || line.kind == "CONVERSATION_HISTORY" || line.kind == "CHECKPOINT"
  }

  predicate IsTurn(line: Line) {
    line.Step? && (line.kind == "USER_INPUT" || line.kind == "PLANNER_RESPONSE")
  }

  predicate IsResult(line: Line) {
    !Silent(line) && !IsTurn(line)
  }

  function OpenAt(calls: seq<Issued>, answers: seq<Option<Answer>>, key: string, c: nat): seq<nat>
    requires c < |calls| == |answers|
  {
    if calls[c].key == key && answers[c] == None then [c] else []
  }

  /** The calls named `key` that have no result yet, oldest first, among the first `n`. */
  function Open(calls: seq<Issued>, answers: seq<Option<Answer>>, key: string, n: nat): (open: seq<nat>)
    requires n <= |calls| == |answers|
    ensures forall i :: 0 <= i < |open| ==> open[i] < n
  {
    if n == 0 then []
    else Open(calls, answers, key, n - 1) + OpenAt(calls, answers, key, n - 1)
  }

  ghost predicate Aligned(s: State) {
    |s.calls| == |s.answers|
  }

  function Waiting(s: State, key: string): (open: seq<nat>)
    requires Aligned(s)
    ensures forall i :: 0 <= i < |open| ==> open[i] < |s.calls|
  {
    Open(s.calls, s.answers, key, |s.calls|)
  }

  function IssueCall(s: State, at: nat, ms: int, call: ToolCall, upper: string -> string): State {
    if call.NotACall? then s
    else s.(calls := s.calls + [Issued(at, upper(OrElse(call.name, "tool")), ms)], answers := s.answers + [None])
  }

  function IssueCalls(s: State, at: nat, ms: int, calls: seq<ToolCall>, upper: string -> string): (s': State)
    requires Aligned(s)
    ensures Aligned(s') && s.calls <= s'.calls && s.answers <= s'.answers && s'.entries == s.entries
    ensures forall c :: |s.calls| <= c < |s'.calls| ==> s'.calls[c].line == at && s'.answers[c] == None
    decreases |calls|
  {
    if calls == [] then s
    else IssueCall(IssueCalls(s, at, ms, ButLast(calls), upper), at, ms, Last(calls), upper)
  }

  function Max(a: int, b: int): int {
    if a >= b then a else b
  }

  function AnswerFrom(at: nat, line: Line, startMs: int): Answer
    requires line.Step?
  {
    Answer(at, line.ms, OrElse(line.content, ""), Max(0, line.ms - startMs))
  }

  /** Take line `at`: a turn is an entry, a result goes to the oldest open call of its name, if there is one. */
  function Take(s: State, at: nat, line: Line, upper: string -> string): (s': State)
    requires Aligned(s)
    ensures Aligned(s')
  {
    if Silent(line) then s
    else if line.kind == "USER_INPUT" then s.(entries := s.entries + [User(at, line.ms, OrElse(line.content, ""))])
    else if line.kind == "PLANNER_RESPONSE" then
      var s' := IssueCalls(s, at, line.ms, line.calls, upper);
      var text := OrElse(line.content, "");
      if text == "" && |s'.calls| == |s.calls| then s'
      else s'.(entries := s.entries + [Assistant(at, line.ms, text, |s.calls|, |s'.calls|)])
    else
      var waiting := Waiting(s, line.kind);
      if waiting == [] then s.(entries := s.entries + [System(at, line.ms)])
      else
        var c := waiting[0];
        s.(answers := s.answers[c := Some(AnswerFrom(at, line, s.calls[c].startMs))])
  }

  function Read(lines: seq<Line>, upper: string -> string): (s: State)
    ensures Aligned(s)
    decreases |lines|
  {
    if lines == [] then EMPTY else Take(Read(ButLast(lines), upper), |lines| - 1, Last(lines), upper)
  }

  // ---- the open calls ----

  ghost predicate Increasing(s: seq<nat>) {
    forall i, j :: 0 <= i < j < |s| ==> s[i] < s[j]
  }

  lemma {:induction false} OpenMembers(calls: seq<Issued>, answers: seq<Option<Answer>>, key: string, n: nat)
    requires n <= |calls| == |answers|
    ensures forall c: nat :: c in Open(calls, answers, key, n) <==>
              c < n && calls[c].key == key && answers[c] == None
    ensures Increasing(Open(calls, answers, key, n))
  {
    if n > 0 {
      OpenMembers(calls, answers, key, n - 1);
      var shorter := Open(calls, answers, key, n - 1);
      assert Increasing(shorter + [n - 1]);
      assert Open(calls, answers, key, n) in {shorter + [], shorter + [n - 1]};
      assert shorter + [] == shorter;
    }
  }

  lemma {:induction false} OpenAgrees(calls: seq<Issued>, answers: seq<Option<Answer>>,
                                      calls': seq<Issued>, answers': seq<Option<Answer>>, key: string, n: nat)
    requires n <= |calls| == |answers| && n <= |calls'| == |answers'|
    requires forall c :: 0 <= c < n ==> calls[c].key == calls'[c].key
    requires forall c :: 0 <= c < n && calls[c].key == key ==> (answers[c] == None <==> answers'[c] == None)
    ensures Open(calls, answers, key, n) == Open(calls', answers', key, n)
  {
    if n > 0 {
      OpenAgrees(calls, answers, calls', answers', key, n - 1);
    }
  }

  lemma OpenSplits(calls: seq<Issued>, answers: seq<Option<Answer>>, key: string, n: nat)
    requires 0 < n <= |calls| == |answers|
    ensures Open(calls, answers, key, n) == Open(calls, answers, key, n - 1) + OpenAt(calls, answers, key, n - 1)
  {
  }

  lemma OpenNone(calls: seq<Issued>, answers: seq<Option<Answer>>, key: string)
    requires |calls| == |answers|
    ensures Open(calls, answers, key, 0) == []
  {
  }

  /** Answering the oldest open call of a name takes it off the front of that name's open calls. */
  lemma {:induction false} AnsweringTheOldest(calls: seq<Issued>, answers: seq<Option<Answer>>, key: string, n: nat,
                                              answer: Answer)
    requires n <= |calls| == |answers| && Open(calls, answers, key, n) != []
    ensures var open := Open(calls, answers, key, n);
      Open(calls, answers[open[0] := Some(answer)], key, n) == open[1..]
  {
    hide Open();
    OpenNone(calls, answers, key);
    var open := Open(calls, answers, key, n);
    var answers' := answers[open[0] := Some(answer)];
    var shorter := Open(calls, answers, key, n - 1);
    OpenSplits(calls, answers, key, n);
    OpenSplits(calls, answers', key, n);
    if shorter == [] {
      OpenAgrees(calls, answers, calls, answers', key, n - 1);
    } else {
      var last := OpenAt(calls, answers, key, n - 1);
      assert open == shorter + last && open[0] == shorter[0] && open[0] < n - 1;
      AnsweringTheOldest(calls, answers, key, n - 1, answer);
      assert (shorter + last)[1..] == shorter[1..] + last;
    }
  }

  // ---- which result goes to which call ----

  /** `c`'s result is on a later line, of `c`'s own name, and carries that line's content and delay. */
  ghost predicate AnsweredByItsName(s: State, lines: seq<Line>, c: nat)
    requires c < |s.calls| == |s.answers| && s.answers[c].Some?
  {
    var at := s.answers[c].value.line;
    && s.calls[c].line < at < |lines| && IsResult(lines[at]) && lines[at].kind == s.calls[c].key
    && s.answers[c].value == AnswerFrom(at, lines[at], s.calls[c].startMs)
  }

  ghost predicate Later(s: State, c: nat, d: nat)
    requires c < |s.calls| == |s.answers| && d < |s.calls|
  {
    s.answers[d].Some? ==> s.answers[c].Some? && s.answers[c].value.line < s.answers[d].value.line
  }

  ghost predicate Paired(s: State, lines: seq<Line>) {
    && Aligned(s)
    && (forall c: nat :: c < |s.calls| ==> s.calls[c].line < |lines|)
    && (forall c: nat :: c < |s.calls| && s.answers[c].Some? ==> AnsweredByItsName(s, lines, c))
    && (forall c: nat, d: nat :: c < d < |s.calls| && s.calls[c].key == s.calls[d].key ==> Later(s, c, d))
  }

  lemma MoreLines(s: State, lines: seq<Line>, line: Line)
    requires Paired(s, lines)
    ensures Paired(s, lines + [line])
  {
    forall c: nat | c < |s.calls| && s.answers[c].Some?
      ensures AnsweredByItsName(s, lines + [line], c)
    {
      assert AnsweredByItsName(s, lines, c);
    }
  }

  lemma NewCallsStayPaired(s: State, s': State, lines: seq<Line>)
    requires Paired(s, lines) && Aligned(s') && s.calls <= s'.calls && s.answers <= s'.answers
    requires forall c :: |s.calls| <= c < |s'.calls| ==> s'.calls[c].line < |lines| && s'.answers[c] == None
    ensures Paired(s', lines)
  {
    forall c: nat | c < |s'.calls| && s'.answers[c].Some?
      ensures AnsweredByItsName(s', lines, c)
    {
      assert AnsweredByItsName(s, lines, c);
    }
    forall c: nat, d: nat | c < d < |s'.calls| && s'.calls[c].key == s'.calls[d].key
      ensures Later(s', c, d)
    {
      if d < |s.calls| {
        assert Later(s, c, d);
      }
    }
  }

  lemma OldestIsFirst(s: State, key: string)
    requires Aligned(s) && Waiting(s, key) != []
    ensures var c := Waiting(s, key)[0];
      && s.calls[c].key == key && s.answers[c] == None
      && forall d: nat :: d < c && s.calls[d].key == key ==> s.answers[d].Some?
  {
    var waiting := Waiting(s, key);
    OpenMembers(s.calls, s.answers, key, |s.calls|);
    assert waiting[0] in waiting;
    HeadIsLeast(waiting);
  }

  lemma HeadIsLeast(s: seq<nat>)
    requires Increasing(s) && s != []
    ensures forall d :: d in s ==> s[0] <= d
  {
  }

  /** Giving the oldest open call of a name the result on a new line. */
  lemma AnswerStaysPaired(s: State, lines: seq<Line>, line: Line)
    requires Paired(s, lines) && IsResult(line) && Waiting(s, line.kind) != []
    ensures var c := Waiting(s, line.kind)[0];
      Paired(s.(answers := s.answers[c := Some(AnswerFrom(|lines|, line, s.calls[c].startMs))]), lines + [line])
  {
    hide Open();
    var key := line.kind;
    var c := Waiting(s, key)[0];
    OldestIsFirst(s, key);
    var s' := s.(answers := s.answers[c := Some(AnswerFrom(|lines|, line, s.calls[c].startMs))]);
    MoreLines(s, lines, line);
    forall d: nat | d < |s'.calls| && s'.answers[d].Some?
      ensures AnsweredByItsName(s', lines + [line], d)
    {
      assert (lines + [line])[|lines|] == line;
      assert d != c ==> AnsweredByItsName(s, lines + [line], d);
    }
    forall d: nat, e: nat | d < e < |s'.calls| && s'.calls[d].key == s'.calls[e].key
      ensures Later(s', d, e)
    {
      assert Later(s, d, e);
      assert d != c && s.answers[d].Some? ==> AnsweredByItsName(s, lines, d);
    }
  }

  lemma SplitLast(lines: seq<Line>)
    requires lines != []
    ensures ButLast(lines) + [Last(lines)] == lines
  {
  }

  lemma {:induction false} ReadIsPaired(lines: seq<Line>, upper: string -> string)
    ensures Paired(Read(lines, upper), lines)
    decreases |lines|
  {
    hide Paired(), AnswerFrom(), Waiting();
    if lines == [] {
      NothingPaired();
    } else {
      var before := ButLast(lines);
      var line := Last(lines);
      var s := Read(before, upper);
      ReadIsPaired(before, upper);
      SplitLast(lines);
      MoreLines(s, before, line);
      if !Silent(line) {
        NewEntryStaysPaired(s, lines);
        if line.kind == "PLANNER_RESPONSE" {
          var s' := IssueCalls(s, |before|, line.ms, line.calls, upper);
          NewCallsStayPaired(s, s', lines);
          NewEntryStaysPaired(s', lines);
        } else if IsResult(line) && Waiting(s, line.kind) != [] {
          AnswerStaysPaired(s, before, line);
        }
      }
    }
  }

  lemma NothingPaired()
    ensures Paired(EMPTY, [])
  {
  }

  lemma NewEntryStaysPaired(s: State, lines: seq<Line>)
    requires Paired(s, lines)
    ensures forall entries :: Paired(s.(entries := entries), lines)
  {
    forall entries: seq<Entry>
      ensures Paired(s.(entries := entries), lines)
    {
      var s' := s.(entries := entries);
      forall c: nat | c < |s'.calls| && s'.answers[c].Some?
        ensures AnsweredByItsName(s', lines, c)
      {
        assert AnsweredByItsName(s, lines, c);
      }
      forall c: nat, d: nat | c < d < |s'.calls| && s'.calls[c].key == s'.calls[d].key
        ensures Later(s', c, d)
      {
        assert Later(s, c, d);
      }
    }
  }

  /**
   * A call's result comes from a later step of the call's own name, no step serves two calls, and the
   * calls of that name answered before it are exactly the ones made before it: the k-th matched
   * result of a name goes to the k-th call.
   */
  lemma ResultsMatchCallsInOrder(lines: seq<Line>, upper: string -> string, c: nat, d: nat)
    requires c < |Read(lines, upper).calls| && d < |Read(lines, upper).calls| && c != d
    requires Read(lines, upper).answers[c].Some?
    ensures var s := Read(lines, upper);
      && AnsweredByItsName(s, lines, c)
      && (s.answers[d].Some? ==> s.answers[c].value.line != s.answers[d].value.line)
      && (s.calls[c].key == s.calls[d].key ==>
            (d < c <==> s.answers[d].Some? && s.answers[d].value.line < s.answers[c].value.line))
  {
    hide Read();
    ReadIsPaired(lines, upper);
    var s := Read(lines, upper);
    assert s.answers[d].Some? ==> AnsweredByItsName(s, lines, d);
    if s.calls[c].key == s.calls[d].key {
      if c < d {
        assert Later(s, c, d);
      } else {
        assert Later(s, d, c);
      }
    }
  }

  // ---- every line is accounted for ----

  datatype Reason = Malformed | Untyped | Metadata | EmptyReply

  datatype Fate = Emitted(entry: Entry) | Attached(call: nat) | Skipped(reason: Reason)

  predicate HasCall(calls: seq<ToolCall>) {
    exists call <- calls :: call.Call?
  }

  /** What becomes of line `at`, judged by what the lines before it came to. */
  function FateIn(s: State, at: nat, line: Line, upper: string -> string): Fate
    requires Aligned(s)
  {
    if line.NotAnObject? then Skipped(Malformed)
    else if line.kind == "" then Skipped(Untyped)
    else if Silent(line) then Skipped(Metadata)
    else if line.kind == "USER_INPUT" then Emitted(User(at, line.ms, OrElse(line.content, "")))
    else if IsTurn(line) then
      if OrElse(line.content, "") == "" && !HasCall(line.calls) then Skipped(EmptyReply)
      else Emitted(Assistant(at, line.ms, OrElse(line.content, ""),
                             |s.calls|, |IssueCalls(s, at, line.ms, line.calls, upper).calls|))
    else if Waiting(s, line.kind) == [] then Emitted(System(at, line.ms))
    else Attached(Waiting(s, line.kind)[0])
  }

  function FateOf(lines: seq<Line>, i: nat, upper: string -> string): Fate
    requires i < |lines|
  {
    FateIn(Read(lines[..i], upper), i, lines[i], upper)
  }

  ghost predicate InLineOrder(entries: seq<Entry>, n: nat) {
    && (forall i :: 0 <= i < |entries| ==> entries[i].line < n)
    && forall i, j :: 0 <= i < j < |entries| ==> entries[i].line < entries[j].line
  }

  /** Line `i` shows up in `s` as its fate says, and nowhere else. */
  ghost predicate Accounted(s: State, i: nat, fate: Fate) {
    && (match fate
        case Emitted(entry) => entry.line == i && entry in s.entries
        case Attached(c) => c < |s.answers| && s.answers[c].Some? && s.answers[c].value.line == i
        case Skipped(_) => true)
    && (!fate.Emitted? ==> forall entry <- s.entries :: entry.line != i)
    && (!fate.Attached? ==> forall c :: 0 <= c < |s.answers| && s.answers[c].Some? ==> s.answers[c].value.line != i)
  }

  lemma {:induction false} CallsAdded(s: State, at: nat, ms: int, calls: seq<ToolCall>, upper: string -> string)
    requires Aligned(s)
    ensures if HasCall(calls) then |IssueCalls(s, at, ms, calls, upper).calls| > |s.calls|
            else IssueCalls(s, at, ms, calls, upper) == s
    decreases |calls|
  {
    if calls != [] {
      CallsAdded(s, at, ms, ButLast(calls), upper);
      assert calls == ButLast(calls) + [Last(calls)];
    }
  }

  ghost predicate Before(s: State, n: nat) {
    && InLineOrder(s.entries, n)
    && forall c :: 0 <= c < |s.answers| && s.answers[c].Some? ==> s.answers[c].value.line < n
  }

  lemma EntryAccounted(s: State, s': State, at: nat, entry: Entry)
    requires Before(s, at) && entry.line == at && s'.entries == s.entries + [entry] && s.answers <= s'.answers
    requires forall c :: |s.answers| <= c < |s'.answers| ==> s'.answers[c] == None
    ensures Accounted(s', at, Emitted(entry)) && InLineOrder(s'.entries, at + 1)
  {
    assert s'.entries[|s.entries|] == entry;
  }

  lemma TakeAccounts(s: State, at: nat, line: Line, upper: string -> string)
    requires Aligned(s) && Before(s, at)
    ensures var s' := Take(s, at, line, upper);
      Accounted(s', at, FateIn(s, at, line, upper)) && InLineOrder(s'.entries, at + 1)
  {
    hide IssueCall(), HasCall(), InLineOrder(), Accounted(), Waiting();
    NothingAccounted(s, at);
    if !Silent(line) {
      var fate := FateIn(s, at, line, upper);
      CallsAdded(s, at, line.ms, line.calls, upper);
      if fate.Emitted? {
        EntryAccounted(s, Take(s, at, line, upper), at, fate.entry);
      } else if fate.Attached? {
        AttachAccounts(s, at, fate.call, AnswerFrom(at, line, s.calls[fate.call].startMs));
      }
    }
  }

  lemma NothingAccounted(s: State, at: nat)
    requires Before(s, at)
    ensures forall reason :: Accounted(s, at, Skipped(reason))
    ensures InLineOrder(s.entries, at + 1)
  {
  }

  lemma AttachAccounts(s: State, at: nat, c: nat, answer: Answer)
    requires Before(s, at) && c < |s.answers| && answer.line == at
    ensures Accounted(s.(answers := s.answers[c := Some(answer)]), at, Attached(c))
  {
  }

  lemma LastLineIsAccounted(lines: seq<Line>, upper: string -> string)
    requires lines != []
    requires var s := Read(ButLast(lines), upper);
      Paired(s, ButLast(lines)) && InLineOrder(s.entries, |lines| - 1)
    ensures Accounted(Read(lines, upper), |lines| - 1, FateOf(lines, |lines| - 1, upper))
    ensures InLineOrder(Read(lines, upper).entries, |lines|)
  {
    hide Read(), Take(), FateIn(), Accounted(), InLineOrder(), Paired();
    ReadLast(lines, upper);
    assert lines[..|lines| - 1] == ButLast(lines);
    NoAnswerYet(Read(ButLast(lines), upper), ButLast(lines));
    TakeAccounts(Read(ButLast(lines), upper), |lines| - 1, Last(lines), upper);
  }

  lemma NoAnswerYet(s: State, lines: seq<Line>)
    requires Paired(s, lines)
    ensures forall c :: 0 <= c < |s.answers| && s.answers[c].Some? ==> s.answers[c].value.line < |lines|
  {
    forall c: nat | c < |s.answers| && s.answers[c].Some?
      ensures s.answers[c].value.line < |lines|
    {
      assert AnsweredByItsName(s, lines, c);
    }
  }

  lemma ReadLast(lines: seq<Line>, upper: string -> string)
    requires lines != []
    ensures Read(lines, upper) == Take(Read(ButLast(lines), upper), |lines| - 1, Last(lines), upper)
  {
  }

  /** Later lines leave what an earlier line came to. */
  lemma TakeKeepsAccounts(s: State, at: nat, line: Line, i: nat, fate: Fate, upper: string -> string)
    requires Aligned(s) && Before(s, at) && i < at && Accounted(s, i, fate)
    ensures Accounted(Take(s, at, line, upper), i, fate)
  {
    hide HasCall(), Open();
    var s' := Take(s, at, line, upper);
    assert s.entries <= s'.entries;
    if line.Step? && IsResult(line) && Waiting(s, line.kind) != [] {
      OldestIsFirst(s, line.kind);
    }
  }

  lemma {:induction false} AllAccounted(lines: seq<Line>, i: nat, upper: string -> string)
    requires i < |lines|
    ensures Accounted(Read(lines, upper), i, FateOf(lines, i, upper))
    decreases |lines|
  {
    hide Read(), Take(), FateIn(), Accounted(), InLineOrder(), Paired();
    var before := ButLast(lines);
    ReadIsPaired(before, upper);
    EntriesInLineOrder(before, upper);
    if i == |lines| - 1 {
      LastLineIsAccounted(lines, upper);
    } else {
      AllAccounted(before, i, upper);
      assert before[..i] == lines[..i];
      NoAnswerYet(Read(before, upper), before);
      ReadLast(lines, upper);
      TakeKeepsAccounts(Read(before, upper), |lines| - 1, Last(lines), i, FateOf(lines, i, upper), upper);
    }
  }

  lemma {:induction false} EntriesInLineOrder(lines: seq<Line>, upper: string -> string)
    ensures InLineOrder(Read(lines, upper).entries, |lines|)
    decreases |lines|
  {
    hide Paired();
    if lines != [] {
      EntriesInLineOrder(ButLast(lines), upper);
      ReadIsPaired(ButLast(lines), upper);
      LastLineIsAccounted(lines, upper);
    }
  }

  /**
   * Every line is an entry of its own, the result of one call, or skipped for a named reason; and
   * every entry and every result is some line's.
   */
  lemma EveryLineIsAccountedFor(lines: seq<Line>, upper: string -> string)
    ensures var s := Read(lines, upper);
      && (forall i: nat :: i < |lines| ==> Accounted(s, i, FateOf(lines, i, upper)))
      && InLineOrder(s.entries, |lines|)
      && (forall entry <- s.entries :: FateOf(lines, entry.line, upper) == Emitted(entry))
      && (forall c :: 0 <= c < |s.calls| && s.answers[c].Some? ==>
            s.answers[c].value.line < |lines| && FateOf(lines, s.answers[c].value.line, upper) == Attached(c))
  {
    hide Read(), FateOf(), Paired();
    var s := Read(lines, upper);
    EntriesInLineOrder(lines, upper);
    ReadIsPaired(lines, upper);
    NoAnswerYet(s, lines);
    forall i: nat | i < |lines|
      ensures Accounted(s, i, FateOf(lines, i, upper))
    {
      AllAccounted(lines, i, upper);
    }
    forall entry <- s.entries
      ensures FateOf(lines, entry.line, upper) == Emitted(entry)
    {
      assert Accounted(s, entry.line, FateOf(lines, entry.line, upper));
    }
    forall c: nat | c < |s.calls| && s.answers[c].Some?
      ensures FateOf(lines, s.answers[c].value.line, upper) == Attached(c)
    {
      var fate := FateOf(lines, s.answers[c].value.line, upper);
      assert Accounted(s, s.answers[c].value.line, fate);
      if fate.call != c {
        ResultsMatchCallsInOrder(lines, upper, c, fate.call);
        assert false;
      }
    }
  }

  // ---- the final order ----

  function Insert(sorted: seq<Entry>, entry: Entry): seq<Entry>
    decreases |sorted|
  {
    if sorted == [] || Last(sorted).ms <= entry.ms then sorted + [entry]
    else Insert(ButLast(sorted), entry) + [Last(sorted)]
  }

  /** The platform's sort by time, which is stable. */
  function SortedByTime(entries: seq<Entry>): seq<Entry>
    decreases |entries|
  {
    if entries == [] then [] else Insert(SortedByTime(ButLast(entries)), Last(entries))
  }

  predicate Precedes(a: Entry, b: Entry) {
    a.ms < b.ms || (a.ms == b.ms && a.line < b.line)
  }

  /** In order of time, and of file position at one time. */
  ghost predicate InTimeOrder(entries: seq<Entry>) {
    forall i, j :: 0 <= i < j < |entries| ==> Precedes(entries[i], entries[j])
  }

  lemma {:induction false} InsertIsAPermutation(sorted: seq<Entry>, entry: Entry)
    ensures multiset(Insert(sorted, entry)) == multiset(sorted) + multiset{entry}
    decreases |sorted|
  {
    if sorted != [] && Last(sorted).ms > entry.ms {
      InsertIsAPermutation(ButLast(sorted), entry);
      assert sorted == ButLast(sorted) + [Last(sorted)];
    }
  }

  lemma AppendKeepsOrder(sorted: seq<Entry>, entry: Entry)
    requires InTimeOrder(sorted) && forall e <- sorted :: Precedes(e, entry)
    ensures InTimeOrder(sorted + [entry])
  {
  }

  lemma {:induction false} InsertKeepsOrder(sorted: seq<Entry>, entry: Entry)
    requires InTimeOrder(sorted) && forall e <- sorted :: e.line < entry.line
    ensures InTimeOrder(Insert(sorted, entry))
    decreases |sorted|
  {
    if sorted == [] || Last(sorted).ms <= entry.ms {
      forall e | e in sorted
        ensures Precedes(e, entry)
      {
        LastIsGreatest(sorted, e);
      }
      AppendKeepsOrder(sorted, entry);
    } else {
      var rest := ButLast(sorted);
      InsertKeepsOrder(rest, entry);
      InsertIsAPermutation(rest, entry);
      forall e | e in Insert(rest, entry)
        ensures Precedes(e, Last(sorted))
      {
        assert e in multiset(Insert(rest, entry));
        if e != entry {
          assert e in rest;
          LastIsGreatest(sorted, e);
        }
      }
      AppendKeepsOrder(Insert(rest, entry), Last(sorted));
    }
  }

  lemma LastIsGreatest(sorted: seq<Entry>, e: Entry)
    requires InTimeOrder(sorted) && e in sorted
    ensures e == Last(sorted) || Precedes(e, Last(sorted))
    ensures e in ButLast(sorted) ==> Precedes(e, Last(sorted))
  {
  }

  lemma FirstIsLeast(sorted: seq<Entry>, e: Entry)
    requires InTimeOrder(sorted) && e in sorted
    ensures e == sorted[0] || Precedes(sorted[0], e)
  {
  }

  lemma {:induction false} SortIsAStablePermutation(entries: seq<Entry>, n: nat)
    requires InLineOrder(entries, n)
    ensures InTimeOrder(SortedByTime(entries)) && multiset(SortedByTime(entries)) == multiset(entries)
    decreases |entries|
  {
    if entries != [] {
      var rest := ButLast(entries);
      SortIsAStablePermutation(rest, n);
      assert entries == rest + [Last(entries)];
      forall e | e in SortedByTime(rest)
        ensures e.line < Last(entries).line
      {
        assert e in multiset(rest);
      }
      InsertKeepsOrder(SortedByTime(rest), Last(entries));
      InsertIsAPermutation(SortedByTime(rest), Last(entries));
    }
  }

  lemma FirstsAgree(a: seq<Entry>, b: seq<Entry>)
    requires InTimeOrder(a) && InTimeOrder(b) && multiset(a) == multiset(b) && a != []
    ensures b != [] && a[0] == b[0]
  {
    hide InTimeOrder();
    assert a[0] in multiset(b);
    FirstIsLeast(b, a[0]);
    assert b[0] in multiset(a);
    FirstIsLeast(a, b[0]);
  }

  lemma RestsAgree(a: seq<Entry>, b: seq<Entry>)
    requires a != [] && b != [] && a[0] == b[0] && multiset(a) == multiset(b)
    ensures multiset(a[1..]) == multiset(b[1..])
  {
    assert a == [a[0]] + a[1..] && b == [b[0]] + b[1..];
    assert multiset(a[1..]) == multiset(a) - multiset{a[0]};
    assert multiset(b[1..]) == multiset(b) - multiset{b[0]};
  }

  /** There is only one such order, so any stable sort gives it. */
  lemma {:induction false} TimeOrderIsUnique(a: seq<Entry>, b: seq<Entry>)
    requires InTimeOrder(a) && InTimeOrder(b) && multiset(a) == multiset(b)
    ensures a == b
    decreases |a|
  {
    if a == [] || b == [] {
      assert |multiset(a)| == |a| && |multiset(b)| == |b|;
    } else {
      FirstsAgree(a, b);
      RestsAgree(a, b);
      TimeOrderIsUnique(a[1..], b[1..]);
      assert a == [a[0]] + a[1..] && b == [b[0]] + b[1..];
    }
  }

  // ---- the parser ----

  /** A tool call's block in an entry already emitted; its result is filled in later. */
  class ToolUse {
    var result: Option<Answer>

    constructor ()
      ensures result == None
    {
      result := None;
    }
  }

  datatype Pending = Pending(block: ToolUse, startMs: int)

  function QueueOf(pending: map<string, seq<Pending>>, key: string): seq<Pending> {
    if key in pending then pending[key] else []
  }

  ghost predicate Distinct(blocks: seq<ToolUse>) {
    forall i, j :: 0 <= i < j < |blocks| ==> blocks[i] != blocks[j]
  }

  /** The blocks carry the results of `s`. */
  ghost predicate Mirrors(blocks: seq<ToolUse>, s: State)
    reads blocks
  {
    && Aligned(s) && |blocks| == |s.calls| && Distinct(blocks)
    && forall c :: 0 <= c < |blocks| ==> blocks[c].result == s.answers[c]
  }

  /** `queue` lists the calls waiting under a name. */
  ghost predicate Queued(queue: seq<Pending>, blocks: seq<ToolUse>, s: State, waiting: seq<nat>)
    requires |blocks| == |s.calls|
  {
    && |queue| == |waiting|
    && forall j :: 0 <= j < |queue| ==>
         && waiting[j] < |s.calls|
         && queue[j] == Pending(blocks[waiting[j]], s.calls[waiting[j]].startMs)
  }

  ghost predicate AllQueued(pending: map<string, seq<Pending>>, blocks: seq<ToolUse>, s: State)
    requires Aligned(s) && |blocks| == |s.calls|
  {
    forall key: string :: Queued(QueueOf(pending, key), blocks, s, Waiting(s, key))
  }

  /** A new call waits at the back of its name's queue, and of no other. */
  lemma WaitingAfterCall(s: State, at: nat, ms: int, call: ToolCall, upper: string -> string, key: string)
    requires Aligned(s) && call.Call?
    ensures var s' := IssueCall(s, at, ms, call, upper);
      Waiting(s', key)
      == Waiting(s, key) + (if key == upper(OrElse(call.name, "tool")) then [|s.calls|] else [])
  {
    var s' := IssueCall(s, at, ms, call, upper);
    OpenAgrees(s.calls, s.answers, s'.calls, s'.answers, key, |s.calls|);
  }

  lemma WaitingAfterAnswer(s: State, key: string, answer: Answer, other: string)
    requires Aligned(s) && Waiting(s, key) != []
    ensures var s' := s.(answers := s.answers[Waiting(s, key)[0] := Some(answer)]);
      Waiting(s', other) == if other == key then Waiting(s, key)[1..] else Waiting(s, other)
  {
    var c := Waiting(s, key)[0];
    OldestIsFirst(s, key);
    if other == key {
      AnsweringTheOldest(s.calls, s.answers, key, |s.calls|, answer);
    } else {
      OpenAgrees(s.calls, s.answers, s.calls, s.answers[c := Some(answer)], other, |s.calls|);
    }
  }

  lemma CallQueued(pending: map<string, seq<Pending>>, blocks: seq<ToolUse>, s: State, at: nat, ms: int,
                   call: ToolCall, upper: string -> string, block: ToolUse)
    requires Aligned(s) && |blocks| == |s.calls| && AllQueued(pending, blocks, s) && call.Call?
    ensures var key := upper(OrElse(call.name, "tool"));
      var s' := IssueCall(s, at, ms, call, upper);
      AllQueued(pending[key := QueueOf(pending, key) + [Pending(block, ms)]], blocks + [block], s')
  {
    hide Waiting();
    var key := upper(OrElse(call.name, "tool"));
    var s' := IssueCall(s, at, ms, call, upper);
    var pending' := pending[key := QueueOf(pending, key) + [Pending(block, ms)]];
    forall other: string
      ensures Queued(QueueOf(pending', other), blocks + [block], s', Waiting(s', other))
    {
      WaitingAfterCall(s, at, ms, call, upper, other);
      assert Queued(QueueOf(pending, other), blocks, s, Waiting(s, other));
    }
  }

  lemma AnswerDequeued(pending: map<string, seq<Pending>>, blocks: seq<ToolUse>, s: State, key: string, answer: Answer)
    requires Aligned(s) && |blocks| == |s.calls| && AllQueued(pending, blocks, s) && Waiting(s, key) != []
    ensures var s' := s.(answers := s.answers[Waiting(s, key)[0] := Some(answer)]);
      QueueOf(pending, key) != [] && AllQueued(pending[key := QueueOf(pending, key)[1..]], blocks, s')
  {
    hide Waiting();
    var s' := s.(answers := s.answers[Waiting(s, key)[0] := Some(answer)]);
    assert Queued(QueueOf(pending, key), blocks, s, Waiting(s, key));
    var pending' := pending[key := QueueOf(pending, key)[1..]];
    forall other: string
      ensures Queued(QueueOf(pending', other), blocks, s', Waiting(s', other))
    {
      WaitingAfterAnswer(s, key, answer, other);
      assert Queued(QueueOf(pending, other), blocks, s, Waiting(s, other));
    }
  }

  lemma QueueUnder(pending: map<string, seq<Pending>>, blocks: seq<ToolUse>, s: State, key: string)
    requires Aligned(s) && |blocks| == |s.calls| && AllQueued(pending, blocks, s)
    ensures Queued(QueueOf(pending, key), blocks, s, Waiting(s, key))
  {
  }

  lemma QueuedWhateverTheEntries(pending: map<string, seq<Pending>>, blocks: seq<ToolUse>, s: State)
    requires Aligned(s) && |blocks| == |s.calls| && AllQueued(pending, blocks, s)
    ensures forall entries :: AllQueued(pending, blocks, s.(entries := entries))
  {
    forall entries: seq<Entry>
      ensures AllQueued(pending, blocks, s.(entries := entries))
    {
      forall key: string
        ensures Queued(QueueOf(pending, key), blocks, s.(entries := entries), Waiting(s.(entries := entries), key))
      {
        assert Queued(QueueOf(pending, key), blocks, s, Waiting(s, key));
      }
    }
  }

  class Parser {
    const upper: string -> string
    var entries: seq<Entry>
    var blocks: seq<ToolUse>
    var pending: map<string, seq<Pending>>

    ghost predicate Holds(s: State)
      reads this, blocks
    {
      Mirrors(blocks, s) && AllQueued(pending, blocks, s) && entries == s.entries
    }

    constructor (upper: string -> string)
      ensures this.upper == upper && Holds(EMPTY) && blocks == []
    {
      this.upper := upper;
      entries, blocks, pending := [], [], map[];
    }

    method AddCall(call: ToolCall, at: nat, ms: int, ghost s: State)
      requires Holds(s) && call.Call?
      modifies this
      ensures Holds(IssueCall(s, at, ms, call, upper))
      ensures forall j :: 0 <= j < |blocks| ==> blocks[j] in old(blocks) || fresh(blocks[j])
    {
      var key := upper(OrElse(call.name, "tool"));
      var block := new ToolUse();
      CallQueued(pending, blocks, s, at, ms, call, upper, block);
      pending := pending[key := QueueOf(pending, key) + [Pending(block, ms)]];
      blocks := blocks + [block];
    }

    method PlannerResponse(line: Line, at: nat, ghost s: State)
      requires Holds(s) && line.Step? && line.kind == "PLANNER_RESPONSE"
      modifies this
      ensures Holds(Take(s, at, line, upper))
      ensures forall j :: 0 <= j < |blocks| ==> blocks[j] in old(blocks) || fresh(blocks[j])
    {
      hide AllQueued(), OrElse();
      var before := |blocks|;
      var j := 0;
      assert line.calls[..0] == [];
      while j < |line.calls|
        invariant 0 <= j <= |line.calls|
        invariant Holds(IssueCalls(s, at, line.ms, line.calls[..j], upper))
        invariant forall j :: 0 <= j < |blocks| ==> blocks[j] in old(blocks) || fresh(blocks[j])
      {
        assert ButLast(line.calls[..j + 1]) == line.calls[..j];
        if line.calls[j].Call? {
          AddCall(line.calls[j], at, line.ms, IssueCalls(s, at, line.ms, line.calls[..j], upper));
        }
        j := j + 1;
      }
      assert line.calls[..j] == line.calls;
      var text := OrElse(line.content, "");
      if text != "" || |blocks| > before {
        QueuedWhateverTheEntries(pending, blocks, IssueCalls(s, at, line.ms, line.calls, upper));
        entries := entries + [Assistant(at, line.ms, text, before, |blocks|)];
      }
    }

    method ResultStep(line: Line, at: nat, ghost s: State)
      requires Holds(s) && IsResult(line)
      modifies this, blocks
      ensures blocks == old(blocks)
      ensures Holds(Take(s, at, line, upper))
    {
      hide AllQueued(), Waiting();
      QueueUnder(pending, blocks, s, line.kind);
      var queue := QueueOf(pending, line.kind);
      if queue == [] {
        QueuedWhateverTheEntries(pending, blocks, s);
        entries := entries + [System(at, line.ms)];
        return;
      }
      var first := queue[0];
      AnswerDequeued(pending, blocks, s, line.kind, AnswerFrom(at, line, first.startMs));
      pending := pending[line.kind := queue[1..]];
      first.block.result := Some(AnswerFrom(at, line, first.startMs));
    }

    method TakeLine(line: Line, at: nat, ghost s: State)
      requires Holds(s)
      modifies this, blocks
      ensures forall j :: 0 <= j < |blocks| ==> blocks[j] in old(blocks) || fresh(blocks[j])
      ensures Holds(Take(s, at, line, upper))
    {
      if Silent(line) {
        return;
      }
      if line.kind == "USER_INPUT" {
        entries := entries + [User(at, line.ms, OrElse(line.content, ""))];
        return;
      }
      if line.kind == "PLANNER_RESPONSE" {
        PlannerResponse(line, at, s);
      } else {
        ResultStep(line, at, s);
      }
    }
  }

  /** The whole transcript: its entries in time order, and the blocks they show. */
  method LogEntries(lines: seq<Line>, upper: string -> string) returns (entries: seq<Entry>, blocks: seq<ToolUse>)
    ensures Mirrors(blocks, Read(lines, upper)) && forall b <- blocks :: fresh(b)
    ensures entries == SortedByTime(Read(lines, upper).entries)
  {
    hide Take(), SortedByTime(), Mirrors(), AllQueued();
    var parser := new Parser(upper);
    var i := 0;
    assert lines[..0] == [];
    while i < |lines|
      invariant 0 <= i <= |lines|
      invariant parser.Holds(Read(lines[..i], upper))
      invariant parser.upper == upper && fresh(parser)
      invariant forall j :: 0 <= j < |parser.blocks| ==> fresh(parser.blocks[j])
    {
      assert ButLast(lines[..i + 1]) == lines[..i];
      parser.TakeLine(lines[i], i, Read(lines[..i], upper));
      i := i + 1;
    }
    assert lines[..i] == lines;
    entries := SortedByTime(parser.entries);
    blocks := parser.blocks;
  }
}
