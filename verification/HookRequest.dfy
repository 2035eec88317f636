/** The OpenClaw plugin's request to the daemon: one connection, settled by whichever event comes first. */
module HookRequest {
  import opened Bytes
  import opened DaemonFrames

  // ---- the reply's meaning ----

  /** A parsed JSON value; `Fraction` stands for every number that is not an integer. */
  datatype Json =
    | Null
    | Boolean(bool)
    | Integer(int)
    | Fraction
    | Text(text: string)
    | List(items: seq<Json>)
    | Object(fields: map<string, Json>)

  datatype Option<+T> = None | Some(value: T)

  /** JSON parsing and trimming, supplied by the platform. */
  datatype Platform = Platform(
    parseBytes: seq<Byte> -> Option<Json>,
    parseText: string -> Option<Json>,
    trim: string -> string)

  datatype Failure = Unreachable | Late | Invalid | ProtocolMismatch | Evaluation

  datatype Outcome = Refused(failure: Failure) | Verdict(verdict: Json, oversized: bool)

  const PROTOCOL_VERSION := 2

  const ALLOW := Object(map["permission" := Text("allow")])

  function Field(message: Json, name: string): Option<Json>
    requires message.Object?
  {
    if name in message.fields then Some(message.fields[name]) else None
  }

  predicate TextOrAbsent(field: Option<Json>) {
    field == None || field.value.Text?
  }

  predicate TextsOrAbsent(field: Option<Json>) {
    field == None || (field.value.List? && forall item <- field.value.items :: item.Text?)
  }

  predicate IsVerdict(verdict: Json) {
    && verdict.Object?
    && Field(verdict, "permission") in {Some(Text("allow")), Some(Text("deny")), Some(Text("instruct"))}
    && TextOrAbsent(Field(verdict, "reason"))
    && TextOrAbsent(Field(verdict, "policyName"))
    && TextsOrAbsent(Field(verdict, "policyNames"))
  }

  predicate HasText(message: Json, name: string)
    requires message.Object?
  {
    name in message.fields && message.fields[name].Text?
  }

  predicate HasInteger(message: Json, name: string)
    requires message.Object?
  {
    name in message.fields && message.fields[name].Integer?
  }

  function ReadHookResult(message: Json, platform: Platform): Outcome {
    if !message.Object? then Refused(Invalid)
    else if Field(message, "protocolVersion") != Some(Integer(PROTOCOL_VERSION)) then Refused(ProtocolMismatch)
    else if Field(message, "type") == Some(Text("error")) then Refused(Evaluation)
    else if Field(message, "type") != Some(Text("hookResult")) then Refused(Invalid)
    else if !HasInteger(message, "exitCode") || !HasText(message, "stdout") || !HasText(message, "stderr") then
      Refused(Invalid)
    else if message.fields["exitCode"] != Integer(0) then Refused(Evaluation)
    else
      var printed := platform.trim(message.fields["stdout"].text);
      if printed == "" then Verdict(ALLOW, false)
      else match platform.parseText(printed)
           case Some(verdict) => if IsVerdict(verdict) then Verdict(verdict, false) else Refused(Invalid)
           case None => Refused(Invalid)
  }

  /** The outcome of a complete reply body. */
  function Judge(body: seq<Byte>, oversized: bool, platform: Platform): Outcome {
    match platform.parseBytes(body)
    case None => Refused(Invalid)
    case Some(message) =>
      var result := ReadHookResult(message, platform);
      if result.Verdict? then result.(oversized := oversized) else result
  }

  /** A reply in the agreed protocol that reports a run of the evaluator that ended well. */
  predicate ReportsSuccess(message: Json) {
    && message.Object?
    && Field(message, "protocolVersion") == Some(Integer(2))
    && Field(message, "type") == Some(Text("hookResult"))
    && Field(message, "exitCode") == Some(Integer(0))
    && HasText(message, "stdout") && HasText(message, "stderr")
  }

  predicate Permits(outcome: Outcome) {
    outcome.Verdict? && outcome.verdict.Object? && Field(outcome.verdict, "permission") == Some(Text("allow"))
  }

  predicate AllowVerdict(parsed: Option<Json>) {
    parsed.Some? && IsVerdict(parsed.value) && Field(parsed.value, "permission") == Some(Text("allow"))
  }

  /** What the evaluator printed says that the call may go ahead. */
  predicate PrintedAllow(stdout: string, platform: Platform) {
    var printed := platform.trim(stdout);
    printed == "" || AllowVerdict(platform.parseText(printed))
  }

  /**
   * A call is let through exactly when the reply is a complete, successful hook result whose output
   * is blank or an allow verdict: no malformed, failed or foreign reply reads as permission.
   */
  lemma PermissionNeedsACompleteReply(message: Json, platform: Platform)
    ensures Permits(ReadHookResult(message, platform))
      <==> ReportsSuccess(message) && PrintedAllow(message.fields["stdout"].text, platform)
    ensures ReadHookResult(message, platform).Verdict? ==>
      ReportsSuccess(message) && IsVerdict(ReadHookResult(message, platform).verdict)
  {
    assert IsVerdict(ALLOW);
  }

  predicate HasTextIfAny(verdict: Json, name: string)
    requires verdict.Object?
  {
    name in verdict.fields ==> verdict.fields[name].Text?
  }

  /** One of the three permissions, and the other fields that are read are of the right kind or absent. */
  predicate Wellformed(verdict: Json) {
    && verdict.Object?
    && "permission" in verdict.fields && verdict.fields["permission"] in {Text("allow"), Text("deny"), Text("instruct")}
    && HasTextIfAny(verdict, "reason") && HasTextIfAny(verdict, "policyName")
    && ("policyNames" in verdict.fields ==>
          && verdict.fields["policyNames"].List?
          && forall i :: 0 <= i < |verdict.fields["policyNames"].items| ==> verdict.fields["policyNames"].items[i].Text?)
  }

  /** The evaluator printed the verdict, or nothing, which says that the call may go ahead. */
  predicate Prints(stdout: string, verdict: Json, platform: Platform) {
    var printed := platform.trim(stdout);
    if printed == "" then verdict == Object(map["permission" := Text("allow")])
    else platform.parseText(printed) == Some(verdict) && Wellformed(verdict)
  }

  predicate Agreed(message: Json) {
    message.Object? && "protocolVersion" in message.fields && message.fields["protocolVersion"] == Integer(2)
  }

  /** The reply says that the evaluator failed, or that it could not be asked. */
  predicate ReportsFailure(message: Json)
    requires message.Object?
  {
    "type" in message.fields &&
    (|| message.fields["type"] == Text("error")
     || (&& message.fields["type"] == Text("hookResult")
         && HasInteger(message, "exitCode") && HasText(message, "stdout") && HasText(message, "stderr")
         && message.fields["exitCode"] != Integer(0)))
  }

  /**
   * What each reply comes to: the verdict it prints, word for word, exactly when it reports success and
   * prints one; a mismatch exactly when it is an object of another protocol; an evaluation failure
   * exactly when it reports one; and every other reply is invalid.
   */
  lemma ReplyMeansExactly(message: Json, verdict: Json, platform: Platform)
    ensures ReadHookResult(message, platform) == Verdict(verdict, false)
      <==> ReportsSuccess(message) && Prints(message.fields["stdout"].text, verdict, platform)
    ensures var outcome := ReadHookResult(message, platform);
      && (outcome.Verdict? ==> !outcome.oversized)
      && (outcome == Refused(ProtocolMismatch) <==> message.Object? && !Agreed(message))
      && (outcome == Refused(Evaluation) <==> Agreed(message) && ReportsFailure(message))
      && outcome != Refused(Unreachable) && outcome != Refused(Late)
  {
    assert IsVerdict(verdict) <==> Wellformed(verdict) by { WellformedIsVerdict(verdict); }
    hide IsVerdict, Wellformed;
  }

  lemma WellformedIsVerdict(verdict: Json)
    ensures IsVerdict(verdict) <==> Wellformed(verdict)
  {
    if verdict.Object? && "policyNames" in verdict.fields && verdict.fields["policyNames"].List? {
      var items := verdict.fields["policyNames"].items;
      assert (forall item <- items :: item.Text?) <==> forall i :: 0 <= i < |items| ==> items[i].Text?;
    }
  }

  /** The same of a reply body; one that does not parse is invalid. */
  lemma BodyMeansExactly(body: seq<Byte>, oversized: bool, verdict: Json, flag: bool, platform: Platform)
    ensures Judge(body, oversized, platform) == Verdict(verdict, flag)
      <==> && flag == oversized && platform.parseBytes(body).Some?
           && ReportsSuccess(platform.parseBytes(body).value)
           && Prints(platform.parseBytes(body).value.fields["stdout"].text, verdict, platform)
    ensures platform.parseBytes(body) == None ==> Judge(body, oversized, platform) == Refused(Invalid)
    ensures platform.parseBytes(body).Some? && Judge(body, oversized, platform).Refused? ==>
      Judge(body, oversized, platform) == ReadHookResult(platform.parseBytes(body).value, platform)
  {
    hide ReadHookResult, Prints;
    if platform.parseBytes(body).Some? {
      ReplyMeansExactly(platform.parseBytes(body).value, verdict, platform);
    }
  }

  // ---- the events of one connection ----

  datatype Timer = Off | Connecting | Answering

  datatype Event = Connect | Data(bytes: seq<Byte>) | Error | Close | Expire

  /** `outcomes` lists every call of the promise's resolver. */
  datatype State = State(
    settled: bool,
    connected: bool,
    received: seq<Byte>,
    timer: Timer,
    sent: seq<Byte>,
    outcomes: seq<Outcome>)

  /** What the request was made of: its encoded body, if it could be encoded, and how it was sent. */
  datatype Request = Request(body: Option<seq<Byte>>, oversized: bool, opens: bool)

  function Settle(s: State, outcome: Outcome): State {
    if s.settled then s else s.(settled := true, timer := Off, outcomes := s.outcomes + [outcome])
  }

  function Start(request: Request): State {
    var idle := State(false, false, [], Off, [], []);
    if request.body == None || |request.body.value| > MAX_FRAME_BYTES then Settle(idle, Refused(Invalid))
    else if !request.opens then Settle(idle, Refused(Unreachable))
    else idle.(timer := Connecting)
  }

  function Step(s: State, event: Event, request: Request, platform: Platform): State {
    match event
    case Connect =>
      if request.body == None || |request.body.value| > MAX_FRAME_BYTES then s
      else s.(connected := true, timer := Answering, sent := s.sent + Encode(request.body.value))
    case Data(bytes) =>
      var s' := s.(received := s.received + bytes);
      (match Decode(s'.received)
       case Pending => s'
       case TooLong => Settle(s', Refused(Invalid))
       case Complete(body) => Settle(s', Judge(body, request.oversized, platform)))
    case Error => Settle(s, Refused(if s.connected then Evaluation else Unreachable))
    case Close => Settle(s, Refused(if s.connected then Evaluation else Unreachable))
    case Expire =>
      (match s.timer
       case Off => s
       case Connecting => Settle(s.(timer := Off), Refused(Unreachable))
       case Answering => Settle(s.(timer := Off), Refused(Late)))
  }

  function Run(s: State, events: seq<Event>, request: Request, platform: Platform): State
    decreases |events|
  {
    if events == [] then s
    else Run(Step(s, events[0], request, platform), events[1..], request, platform)
  }

  /** The callbacks of the request, over the variables they share. */
  class Exchange {
    const request: Request
    const platform: Platform
    var settled: bool
    var connected: bool
    var received: seq<Byte>
    var timer: Timer
    var sent: seq<Byte>
    var outcomes: seq<Outcome>

    function Now(): State
      reads this
    {
      State(settled, connected, received, timer, sent, outcomes)
    }

    constructor (request: Request, platform: Platform)
      ensures this.request == request
      ensures Now() == Start(request)
    {
      this.request := request;
      this.platform := platform;
      settled, connected, received, timer, sent, outcomes := false, false, [], Off, [], [];
      new;
      if request.body == None || |request.body.value| > MAX_FRAME_BYTES {
        Finish(Refused(Invalid));
        return;
      }
      if !request.opens {
        Finish(Refused(Unreachable));
        return;
      }
      timer := Connecting;
    }

    method Finish(outcome: Outcome)
      modifies this
      ensures Now() == Settle(old(Now()), outcome)
    {
      if settled {
        return;
      }
      settled := true;
      timer := Off;
      outcomes := outcomes + [outcome];
    }

    method OnConnect()
      requires request.body.Some? && |request.body.value| <= MAX_FRAME_BYTES
      modifies this
      ensures Now() == Step(old(Now()), Connect, request, platform)
    {
      connected := true;
      timer := Answering;
      sent := sent + (PutU32(|request.body.value|) + request.body.value);
    }

    method OnData(chunk: seq<Byte>)
      modifies this
      ensures Now() == Step(old(Now()), Data(chunk), request, platform)
    {
      received := received + chunk;
      if |received| < 4 {
        return;
      }
      var length := GetU32(received, 0, true);
      if length > MAX_FRAME_BYTES {
        Finish(Refused(Invalid));
        return;
      }
      if |received| < 4 + length {
        return;
      }
      var message := platform.parseBytes(received[4..4 + length]);
      if message == None {
        Finish(Refused(Invalid));
        return;
      }
      var result := ReadHookResult(message.value, platform);
      Finish(if result.Verdict? && request.oversized then result.(oversized := true) else result);
    }

    method OnError()
      modifies this
      ensures Now() == Step(old(Now()), Error, request, platform)
    {
      Finish(Refused(if connected then Evaluation else Unreachable));
    }

    method OnClose()
      modifies this
      ensures Now() == Step(old(Now()), Close, request, platform)
    {
      Finish(Refused(if connected then Evaluation else Unreachable));
    }

    method OnExpire()
      requires timer != Off
      modifies this
      ensures Now() == Step(old(Now()), Expire, request, platform)
    {
      var late := timer == Answering;
      timer := Off;
      Finish(Refused(if late then Late else Unreachable));
    }
  }

  // ---- every order of events ----

  /** Settled once or not yet; while unsettled no decision has arrived and a timer is running. */
  ghost predicate Sound(s: State) {
    && |s.outcomes| == (if s.settled then 1 else 0)
    && (!s.settled ==> Decode(s.received) == Pending && s.timer != Off)
  }

  /** Everything received, in order. */
  function DataOf(events: seq<Event>): seq<Byte> {
    if events == [] then []
    else BytesOf(events[0]) + DataOf(events[1..])
  }

  function BytesOf(event: Event): seq<Byte> {
    if event.Data? then event.bytes else []
  }

  lemma StepIsSound(s: State, event: Event, request: Request, platform: Platform)
    requires Sound(s)
    ensures Sound(Step(s, event, request, platform))
    ensures s.settled ==> Step(s, event, request, platform).settled
    ensures s.settled ==> Step(s, event, request, platform).outcomes == s.outcomes
    ensures event in {Error, Close, Expire} ==> Step(s, event, request, platform).settled
  {
  }

  /** However the events fall, the resolver is called at most once, and has been called after any ending event. */
  lemma {:induction false} SettlesOnce(s: State, events: seq<Event>, request: Request, platform: Platform)
    requires Sound(s)
    ensures Sound(Run(s, events, request, platform))
    ensures s.settled ==> Run(s, events, request, platform).settled
    ensures s.settled ==> Run(s, events, request, platform).outcomes == s.outcomes
    ensures (Error in events || Close in events || Expire in events) ==> Run(s, events, request, platform).settled
    decreases |events|
  {
    if events != [] {
      StepIsSound(s, events[0], request, platform);
      SettlesOnce(Step(s, events[0], request, platform), events[1..], request, platform);
    }
  }

  lemma {:induction false} RunConcat(s: State, first: seq<Event>, second: seq<Event>,
                                     request: Request, platform: Platform)
    ensures Run(s, first + second, request, platform)
         == Run(Run(s, first, request, platform), second, request, platform)
    decreases |first|
  {
    if first == [] {
      assert first + second == second;
    } else {
      assert (first + second)[1..] == first[1..] + second;
      RunConcat(Step(s, first[0], request, platform), first[1..], second, request, platform);
    }
  }

  // ---- chunk boundaries ----

  function Concat(chunks: seq<seq<Byte>>): seq<Byte> {
    if chunks == [] then [] else chunks[0] + Concat(chunks[1..])
  }

  function Arriving(chunks: seq<seq<Byte>>): seq<Event> {
    if chunks == [] then [] else [Data(chunks[0])] + Arriving(chunks[1..])
  }

  lemma JoinTwo(s: State, first: seq<Byte>, second: seq<Byte>, request: Request, platform: Platform)
    requires Sound(s)
    ensures Step(Step(s, Data(first), request, platform), Data(second), request, platform)
         == Step(s, Data(first + second), request, platform)
  {
    hide Judge(), Decode();
    assert (s.received + first) + second == s.received + (first + second);
    if Decode(s.received + first) != Pending {
      DecisionIsFinal(s.received + first, second);
    }
  }

  lemma {:induction false} ChunksJoin(s: State, chunks: seq<seq<Byte>>, request: Request, platform: Platform)
    requires Sound(s)
    ensures Run(s, Arriving(chunks), request, platform)
         == Step(s, Data(Concat(chunks)), request, platform)
    decreases |chunks|
  {
    hide Judge(), Decode();
    if chunks == [] {
      assert s.received + [] == s.received;
    } else {
      StepIsSound(s, Data(chunks[0]), request, platform);
      var s' := Step(s, Data(chunks[0]), request, platform);
      assert Arriving(chunks)[1..] == Arriving(chunks[1..]);
      ChunksJoin(s', chunks[1..], request, platform);
      JoinTwo(s, chunks[0], Concat(chunks[1..]), request, platform);
    }
  }

  /** In any run, bytes cut into chunks anywhere leave the same state as the bytes in one piece. */
  lemma CutsDoNotMatter(before: seq<Event>, chunks: seq<seq<Byte>>, after: seq<Event>,
                        request: Request, platform: Platform)
    ensures Run(Start(request), before + Arriving(chunks) + after, request, platform)
         == Run(Start(request), before + [Data(Concat(chunks))] + after, request, platform)
  {
    hide Judge(), Decode(), Step(), Sound();
    StartIsSound(request);
    var s := Run(Start(request), before, request, platform);
    SettlesOnce(Start(request), before, request, platform);
    ChunksJoin(s, chunks, request, platform);
    var joined := [Data(Concat(chunks))];
    assert Run(s, joined, request, platform) == Step(s, joined[0], request, platform);
    RunConcat(Start(request), before, Arriving(chunks), request, platform);
    RunConcat(Start(request), before, joined, request, platform);
    RunConcat(Start(request), before + Arriving(chunks), after, request, platform);
    RunConcat(Start(request), before + joined, after, request, platform);
  }

  lemma StartIsSound(request: Request)
    ensures Sound(Start(request))
    ensures Start(request).settled <==>
      request.body == None || |request.body.value| > MAX_FRAME_BYTES || !request.opens
  {
  }

  // ---- where a verdict can come from ----

  predicate Quiet(events: seq<Event>) {
    Error !in events && Close !in events && Expire !in events
  }

  /** By event `k`, with nothing gone wrong before, the bytes after `received` completed a frame judged `outcome`. */
  ghost predicate AnsweredBy(received: seq<Byte>, events: seq<Event>, k: nat, outcome: Outcome,
                             request: Request, platform: Platform) {
    && k <= |events| && Quiet(events[..k])
    && var decoded := Decode(received + DataOf(events[..k]));
       decoded.Complete? && Judge(decoded.body, request.oversized, platform) == outcome
  }

  /** One event on an unsettled request: it waits, settles with the frame's judgment, or is refused. */
  lemma StepDecides(s: State, event: Event, request: Request, platform: Platform)
    requires Sound(s) && !s.settled
    ensures var s' := Step(s, event, request, platform);
      && s'.received == s.received + BytesOf(event)
      && (Quiet([event]) ==> match Decode(s'.received)
                             case Pending => !s'.settled
                             case TooLong => s'.outcomes == [Refused(Invalid)]
                             case Complete(body) => s'.outcomes == [Judge(body, request.oversized, platform)])
      && (!Quiet([event]) ==> s'.settled && s'.outcomes[0].Refused?)
  {
    hide Judge(), Decode();
    assert s.received + [] == s.received;
    assert event in [event];
  }

  lemma DataOfSplits(events: seq<Event>, k: nat)
    requires 0 < k <= |events|
    ensures DataOf(events[..k]) == BytesOf(events[0]) + DataOf(events[1..][..k - 1])
    ensures Quiet(events[..k]) <==> Quiet([events[0]]) && Quiet(events[1..][..k - 1])
  {
    assert events[..k] == [events[0]] + events[1..][..k - 1];
  }

  lemma {:induction false} FrameDecides(s: State, events: seq<Event>, k: nat, outcome: Outcome,
                                        request: Request, platform: Platform)
    requires Sound(s) && !s.settled
    requires AnsweredBy(s.received, events, k, outcome, request, platform)
    ensures Run(s, events, request, platform).outcomes == [outcome]
    decreases |events|
  {
    hide Judge(), Decode(), Step(), DataOf(), BytesOf(), Quiet();
    if k == 0 {
      NothingArrived(s.received);
    } else {
      var s' := Step(s, events[0], request, platform);
      StepIsSound(s, events[0], request, platform);
      StepDecides(s, events[0], request, platform);
      DataOfSplits(events, k);
      var later := DataOf(events[1..][..k - 1]);
      assert s'.received + later == s.received + DataOf(events[..k]);
      if Decode(s'.received) != Pending {
        DecisionIsFinal(s'.received, later);
        SettlesOnce(s', events[1..], request, platform);
      } else {
        FrameDecides(s', events[1..], k - 1, outcome, request, platform);
      }
    }
  }

  lemma NothingArrived(received: seq<Byte>)
    ensures forall events: seq<Event> :: received + DataOf(events[..0]) == received
  {
  }

  lemma {:induction false} VerdictHasItsFrame(s: State, events: seq<Event>, outcome: Outcome,
                                              request: Request, platform: Platform)
    requires Sound(s) && !s.settled && outcome.Verdict?
    requires Run(s, events, request, platform).outcomes == [outcome]
    ensures exists k: nat :: AnsweredBy(s.received, events, k, outcome, request, platform)
    decreases |events|
  {
    hide Judge(), Decode(), Step(), DataOf(), BytesOf(), Quiet();
    if events == [] {
      assert false;
    } else {
      var s' := Step(s, events[0], request, platform);
      StepIsSound(s, events[0], request, platform);
      StepDecides(s, events[0], request, platform);
      if s'.settled {
        SettlesOnce(s', events[1..], request, platform);
        assert s'.outcomes[0] == outcome;
        DataOfSplits(events, 1);
        NothingArrived(s'.received);
        assert s'.received + DataOf(events[1..][..0]) == s.received + DataOf(events[..1]);
        assert AnsweredBy(s.received, events, 1, outcome, request, platform) by { QuietNothing(events[1..]); }
      } else {
        VerdictHasItsFrame(s', events[1..], outcome, request, platform);
        var k: nat :| AnsweredBy(s'.received, events[1..], k, outcome, request, platform);
        DataOfSplits(events, k + 1);
        assert s'.received + DataOf(events[1..][..k]) == s.received + DataOf(events[..k + 1]);
        assert AnsweredBy(s.received, events, k + 1, outcome, request, platform);
      }
    }
  }

  lemma QuietNothing(events: seq<Event>)
    ensures Quiet(events[..0])
  {
  }

  /**
   * A verdict is reported exactly when the request went out and, before any error, close or expiry,
   * the bytes received made up a complete frame whose body carries that verdict.
   */
  lemma VerdictExactlyFromAFrame(events: seq<Event>, outcome: Outcome, request: Request, platform: Platform)
    requires outcome.Verdict?
    ensures Run(Start(request), events, request, platform).outcomes == [outcome]
      <==> !Start(request).settled && exists k: nat :: AnsweredBy([], events, k, outcome, request, platform)
  {
    hide Judge(), Decode(), AnsweredBy();
    StartIsSound(request);
    var s := Start(request);
    if s.settled {
      SettlesOnce(s, events, request, platform);
      assert s.outcomes[0].Refused?;
    } else if k: nat :| AnsweredBy([], events, k, outcome, request, platform) {
      FrameDecides(s, events, k, outcome, request, platform);
    } else if Run(s, events, request, platform).outcomes == [outcome] {
      VerdictHasItsFrame(s, events, outcome, request, platform);
    }
  }

  // ---- which outcome, exactly ----

  /** The event ends the wait, or completes what the bytes decide. */
  predicate Decides(events: seq<Event>, k: nat)
    requires k < |events|
  {
    events[k] in {Error, Close, Expire} || Decode(DataOf(events[..k + 1])) != Pending
  }

  /** Nothing among the first `n` events decides. */
  ghost predicate Undecided(events: seq<Event>, n: nat)
    requires n <= |events|
  {
    forall m :: 0 <= m < n ==> !Decides(events, m)
  }

  lemma {:induction false} DataOfConcat(first: seq<Event>, second: seq<Event>)
    ensures DataOf(first + second) == DataOf(first) + DataOf(second)
    decreases |first|
  {
    if first == [] {
      assert first + second == second;
    } else {
      assert (first + second)[1..] == first[1..] + second;
      DataOfConcat(first[1..], second);
    }
  }

  /** The request as it waits: what has arrived, whether it is connected, and the timer that runs. */
  ghost predicate WaitsWith(s: State, events: seq<Event>) {
    && !s.settled && s.outcomes == [] && s.received == DataOf(events)
    && s.connected == (Connect in events) && s.timer == (if Connect in events then Answering else Connecting)
  }

  lemma DataOfLast(events: seq<Event>, n: nat)
    requires n < |events|
    ensures events[..n + 1] == events[..n] + [events[n]]
    ensures DataOf(events[..n + 1]) == DataOf(events[..n]) + BytesOf(events[n])
  {
    assert events[..n + 1] == events[..n] + [events[n]];
    DataOfConcat(events[..n], [events[n]]);
    assert [events[n]][1..] == [];
    assert BytesOf(events[n]) + [] == BytesOf(events[n]);
  }

  lemma WaitStep(s: State, events: seq<Event>, n: nat, request: Request, platform: Platform)
    requires n < |events| && WaitsWith(s, events[..n]) && !Start(request).settled && !Decides(events, n)
    ensures WaitsWith(Step(s, events[n], request, platform), events[..n + 1])
  {
    hide Judge, Decode, DataOf;
    StartIsSound(request);
    DataOfLast(events, n);
    assert DataOf(events[..n]) + [] == DataOf(events[..n]);
  }

  lemma {:induction false} StillWaits(events: seq<Event>, n: nat, request: Request, platform: Platform)
    requires n <= |events| && !Start(request).settled && Undecided(events, n)
    ensures WaitsWith(Run(Start(request), events[..n], request, platform), events[..n])
  {
    hide Step, Decides, WaitsWith;
    if n == 0 {
      assert events[..0] == [];
      StartWaits(request, platform);
    } else {
      StillWaits(events, n - 1, request, platform);
      DataOfLast(events, n - 1);
      RunConcat(Start(request), events[..n - 1], [events[n - 1]], request, platform);
      var s := Run(Start(request), events[..n - 1], request, platform);
      WaitStep(s, events, n - 1, request, platform);
      OneEvent(s, events[n - 1], request, platform);
    }
  }

  lemma StartWaits(request: Request, platform: Platform)
    requires !Start(request).settled
    ensures WaitsWith(Run(Start(request), [], request, platform), [])
  {
  }

  lemma OneEvent(s: State, event: Event, request: Request, platform: Platform)
    ensures Run(s, [event], request, platform) == Step(s, event, request, platform)
  {
    hide Step;
    assert [event][1..] == [];
  }

  /** The outcome the deciding event brings, said of the events alone. */
  function OutcomeAt(events: seq<Event>, k: nat, request: Request, platform: Platform): Outcome
    requires k < |events|
  {
    match events[k]
    case Expire => Refused(if Connect in events[..k] then Late else Unreachable)
    case Error => Refused(if Connect in events[..k] then Evaluation else Unreachable)
    case Close => Refused(if Connect in events[..k] then Evaluation else Unreachable)
    case _ =>
      match Decode(DataOf(events[..k + 1]))
      case Complete(body) => Judge(body, request.oversized, platform)
      case _ => Refused(Invalid)
  }

  lemma DecidingStep(s: State, events: seq<Event>, k: nat, request: Request, platform: Platform)
    requires k < |events| && WaitsWith(s, events[..k]) && !Start(request).settled && Decides(events, k)
    requires Decode(s.received) == Pending
    ensures var s' := Step(s, events[k], request, platform);
      s'.settled && s'.outcomes == [OutcomeAt(events, k, request, platform)]
  {
    hide Judge, Decode, DataOf;
    DataOfLast(events, k);
    assert DataOf(events[..k]) + [] == DataOf(events[..k]);
  }

  /**
   * The outcome of a request that was sent on its way is that of the first event that decides: an
   * error, a close or an expiry, each by whether the connection was made before; or the bytes that
   * complete a frame, or announce one too long. Without such an event nothing is reported.
   */
  lemma FirstDecidingEvent(events: seq<Event>, k: nat, request: Request, platform: Platform)
    requires !Start(request).settled && k <= |events| && Undecided(events, k)
    ensures k < |events| && Decides(events, k) ==>
      Run(Start(request), events, request, platform).outcomes == [OutcomeAt(events, k, request, platform)]
    ensures k == |events| ==> Run(Start(request), events, request, platform).outcomes == []
  {
    hide Step, Decides, WaitsWith, OutcomeAt, Judge, Decode, Sound;
    StillWaits(events, k, request, platform);
    var s := Run(Start(request), events[..k], request, platform);
    if k == |events| {
      assert events[..k] == events;
      assert s.outcomes == [] by { WaitingReportsNothing(s, events[..k]); }
    } else if Decides(events, k) {
      StartIsSound(request);
      SettlesOnce(Start(request), events[..k], request, platform);
      WaitingReportsNothing(s, events[..k]);
      DecidingStep(s, events, k, request, platform);
      var s' := Step(s, events[k], request, platform);
      StepIsSound(s, events[k], request, platform);
      SettlesOnce(s', events[k + 1..], request, platform);
      OneEvent(s, events[k], request, platform);
      DataOfLast(events, k);
      RunConcat(Start(request), events[..k], [events[k]], request, platform);
      RunConcat(Start(request), events[..k + 1], events[k + 1..], request, platform);
      assert events[..k + 1] + events[k + 1..] == events;
    }
  }

  lemma WaitingReportsNothing(s: State, events: seq<Event>)
    requires WaitsWith(s, events)
    ensures s.outcomes == [] && (Sound(s) ==> Decode(s.received) == Pending)
  {
  }

  /** A request that cannot be encoded or framed, or sent at all, is refused at once. */
  lemma RefusedAtOnce(events: seq<Event>, request: Request, platform: Platform)
    ensures var unsendable := request.body == None || |request.body.value| > MAX_FRAME_BYTES;
      && (Start(request).settled <==> unsendable || !request.opens)
      && (Start(request).settled ==>
            Run(Start(request), events, request, platform).outcomes == [Refused(if unsendable then Invalid else Unreachable)])
  {
    hide Step, Judge;
    StartIsSound(request);
    SettlesOnce(Start(request), events, request, platform);
  }

  lemma {:induction false} NothingSent(s: State, events: seq<Event>, request: Request, platform: Platform)
    requires Connect !in events
    ensures Run(s, events, request, platform).sent == s.sent
    decreases |events|
  {
    if events != [] {
      SendsOnlyOnConnect(s, events[0], request, platform);
      NothingSent(Step(s, events[0], request, platform), events[1..], request, platform);
    }
  }

  lemma SendsOnlyOnConnect(s: State, event: Event, request: Request, platform: Platform)
    ensures event != Connect ==> Step(s, event, request, platform).sent == s.sent
    ensures event == Connect && request.body.Some? && |request.body.value| <= MAX_FRAME_BYTES ==>
      Step(s, event, request, platform).sent == s.sent + Encode(request.body.value)
  {
    hide Judge, Decode;
  }

  /** In any run in which the connection is made, what the daemon decodes of all that was sent is the
      request's body, of none of it but a part, nothing; until then nothing is sent. */
  lemma RequestArrives(before: seq<Event>, after: seq<Event>, request: Request, platform: Platform, cut: nat)
    requires !Start(request).settled && Connect !in before && Connect !in after
    ensures Run(Start(request), before, request, platform).sent == []
    ensures var sent := Run(Start(request), before + [Connect] + after, request, platform).sent;
      && |sent| == 4 + |request.body.value| && Decode(sent) == Complete(request.body.value)
      && (cut < |sent| ==> Decode(sent[..cut]) == Pending)
  {
    hide Judge, Decode, Step;
    StartIsSound(request);
    var body := request.body.value;
    NothingSent(Start(request), before, request, platform);
    var s := Run(Start(request), before, request, platform);
    SendsOnlyOnConnect(s, Connect, request, platform);
    OneEvent(s, Connect, request, platform);
    RunConcat(Start(request), before, [Connect], request, platform);
    RunConcat(Start(request), before + [Connect], after, request, platform);
    NothingSent(Step(s, Connect, request, platform), after, request, platform);
    assert [] + Encode(body) == Encode(body) && Encode(body) + [] == Encode(body);
    DecodeInvertsEncode(body, [], if cut < |Encode(body)| then cut else 0);
  }
}
