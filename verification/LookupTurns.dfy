/**
 What the agent of a lookup loop is told is true: every answer it is shown is the one that came back and was recorded,
 every part it reads is a part of the retained bytes, and in a replay every answer is the recorded one.
 */
module LookupTurns {
  import opened Outcomes
  import opened Text
  import opened LookupSession
  import opened LookupPages
  import opened LookupReplay
  import opened LookupRules
  import opened LookupDecisions

  // ---------- Live turns ----------

  /** The port's answer to this query, recorded as the next record and shown in full, or by reference when it is too large. */
  ghost predicate ShowsAnswer(env: Env, w: World, operation: string, request: Option<Request>, port: PortReply, after: World,
                              ordinal: nat, d: Delivery)
  {
    && request.Some? && port.correlation.Ok? && port.reply.Ok? && ordinal == |w.session.records|
    && after.session.records == w.session.records + [d.record]
    && (var sent, raw := Request(port.correlation.value, request.value.query), port.reply.value;
        && Dispatched(w.session, operation, sent, d.record) && SourceOf(env, raw, d.record)
        && env.decode(raw).Some? && AnswersTo(env, sent, env.decode(raw).value)
        && d.record.viewSha == Some(env.viewSha(d.data)) && env.viewSize(d.data) <= w.session.budget
        && (var full := Full(Some(env.sha(raw)), w.session.binding, env.decode(raw).value);
            || d.data == full
            || (env.viewSize(full) > w.session.budget && d.data == Reference(d.record.source, Some(env.sha(raw)), |raw|))))
  }

  /** The query was refused and nothing happened, or it was dispatched and the error is its record. */
  ghost predicate ShowsFailure(w: World, operation: string, after: World, error: LookupError) {
    || after == w
    || (&& |after.session.records| == |w.session.records| + 1
        && var record := after.session.records[|w.session.records|];
           && after.session == w.session.(records := w.session.records + [record])
           && record.operationId == operation && record.error == Some(error) && record.source == None)
  }

  ghost predicate QueryShows(env: Env, w: World, operation: string, request: Option<Request>, port: PortReply, after: World, f: Feedback) {
    match f
    case Data(ordinal, d) => ShowsAnswer(env, w, operation, request, port, after, ordinal, d)
    case Failed(error) => ShowsFailure(w, operation, after, error)
    case _ => false
  }

  /** A part of what the corpus holds for the record, or a failure. */
  ghost predicate ReadShows(env: Env, w: World, ordinal: nat, offset: nat, f: Feedback) {
    match f
    case Bytes(o, from, total, part) =>
      && o == ordinal < |w.session.records| && from == offset
      && (exists bytes :: HoldsFor(env, w.corpus, w.session.now, w.session.records[ordinal], bytes)
                          && total == |bytes| && PartAt(bytes, offset, w.session.budget, part))
    case Failed(error) => ordinal >= |w.session.records| ==> error == MissingRetention
    case _ => false
  }

  lemma ReadIsTrue(env: Env, s: Session, corpus: Corpus, ordinal: nat, offset: nat)
    ensures ReadShows(env, World(s, corpus), ordinal, offset, ReadFeedback(env, s, corpus, ordinal, offset))
  {
    hide ReadRetained, HoldsFor, PartAt;
    if ordinal < |s.records| && ReadRetained(env, s, corpus, s.records[ordinal], offset).Ok? {
      var bytes := ReadsPart(env, s, corpus, s.records[ordinal], offset);
      RetainedLength(env, corpus, s.now, s.records[ordinal], bytes);
    }
  }

  lemma ReadsPart(env: Env, s: Session, corpus: Corpus, record: Record, offset: nat) returns (bytes: seq<byte>)
    requires ReadRetained(env, s, corpus, record, offset).Ok?
    ensures HoldsFor(env, corpus, s.now, record, bytes) && PartAt(bytes, offset, s.budget, ReadRetained(env, s, corpus, record, offset).value)
  {
    hide ReadRetained, HoldsFor, PartAt, Replay, SameOwners;
    ReadOutcome(env, s, corpus, record, offset);
    var part := ReadRetained(env, s, corpus, record, offset).value;
    bytes :| HoldsFor(env, corpus, s.now, record, bytes) && PartAt(bytes, offset, s.budget, part);
  }

  lemma QueryIsTrue(env: Env, s: Session, corpus: Corpus, operation: string, request: Option<Request>, port: PortReply)
    ensures var o := QueryPort(env, s, corpus, operation, request, port);
            QueryShows(env, World(s, corpus), operation, request, port, World(o.session, o.corpus), QueryFeedback(o))
  {
    if request.Some? && env.validRequest(request.value) && port.correlation.Ok? {
      var sent := request.value.(correlation := port.correlation.value);
      QueryOutcome(env, s, corpus, s.binding, operation, Some(sent), port.reply, port.accepts);
      var sequence := if operation in s.pages then s.pages[operation].count else 0;
      if port.reply.Ok? {
        AcceptIsTrue(env, s, corpus, operation, sequence, sent, port.reply.value, port.accepts);
      }
      hide QueryOnce, Accept, AdmitError, PageSequence, SourceOf, AnswersTo;
    }
  }

  lemma AcceptIsTrue(env: Env, s: Session, corpus: Corpus, operation: string, sequence: nat, request: Request, raw: seq<byte>, accepts: bool)
    requires sequence == if operation in s.pages then s.pages[operation].count else 0
    ensures var o := Accept(env, s, corpus, operation, sequence, request, raw, accepts);
            QueryShows(env, World(s, corpus), operation, Some(request), PortReply(Ok(request.correlation), Ok(raw), accepts),
                       World(o.session, o.corpus), QueryFeedback(o))
  {
    hide Accept, CheckSource, Deliver, AnswersTo;
    AcceptOutcome(env, s, corpus, operation, sequence, request, raw, accepts);
    var o := Accept(env, s, corpus, operation, sequence, request, raw, accepts);
    if o.result.Ok? {
      var answer := CheckSource(env, s, corpus, operation, request, raw).value;
      CheckOutcome(env, s, corpus, operation, request, raw, answer);
      DeliverOutcome(env, s, o.result.value.record.(viewSha := None), answer);
    }
  }

  // ---------- Live runs ----------

  /** What one turn did, and what the agent is told of it next, if anything. */
  ghost predicate TurnShows(env: Env, turn: Result<Turn, LookupError>, port: PortReply, w: World, after: World, next: Option<Feedback>) {
    match turn
    case Ok(QueryTurn(operation, request)) =>
      exists f :: QueryShows(env, w, operation, request, port, after, f) && (next.Some? ==> next.value == f)
    case Ok(ReadTurn(ordinal, offset)) => after == w && (next.Some? ==> ReadShows(env, w, ordinal, offset, next.value))
    case _ => after == w && next == None
  }

  /** The world before each turn and after the last, with every turn told truly; `pending` has not been shown yet. */
  ghost predicate Told(env: Env, agent: Agent, port: Port, worlds: seq<World>, inputs: seq<Input>, pending: Option<Feedback>) {
    && |worlds| == |inputs| + 1
    && forall i :: 0 <= i < |inputs| ==>
         TurnShows(env, agent(inputs[..i + 1]), port(i), worlds[i], worlds[i + 1],
                   if i + 1 < |inputs| then Some(inputs[i + 1].feedback) else pending)
  }

  lemma ToldSnoc(env: Env, agent: Agent, port: Port, worlds: seq<World>, inputs: seq<Input>, input: Input, after: World, pending: Option<Feedback>)
    requires Told(env, agent, port, worlds, inputs, if inputs == [] then None else Some(input.feedback))
    requires TurnShows(env, agent(inputs + [input]), port(|inputs|), worlds[|inputs|], after, pending)
    ensures Told(env, agent, port, worlds + [after], inputs + [input], pending)
  {
    hide TurnShows;
    var shown, all := inputs + [input], worlds + [after];
    forall i | 0 <= i < |shown|
      ensures TurnShows(env, agent(shown[..i + 1]), port(i), all[i], all[i + 1], if i + 1 < |shown| then Some(shown[i + 1].feedback) else pending)
    {
      if i < |inputs| {
        assert shown[..i + 1] == inputs[..i + 1];
      } else {
        assert shown[..i + 1] == shown;
      }
    }
  }

  lemma ToldEnds(env: Env, agent: Agent, port: Port, worlds: seq<World>, inputs: seq<Input>, feedback: Feedback)
    requires Told(env, agent, port, worlds, inputs, if inputs == [] then None else Some(feedback))
    ensures Told(env, agent, port, worlds, inputs, None)
  {
    hide QueryShows, ReadShows;
    if inputs != [] {
      var n := |inputs| - 1;
      assert TurnShows(env, agent(inputs[..n + 1]), port(n), worlds[n], worlds[n + 1], Some(feedback));
      assert TurnShows(env, agent(inputs[..n + 1]), port(n), worlds[n], worlds[n + 1], None);
      hide TurnShows;
    }
  }

  lemma {:induction false} LiveTold(env: Env, legal: Legal, agent: Agent, port: Port, s: Session, corpus: Corpus,
                                    inputs: seq<Input>, feedback: Feedback, turns: nat, worlds: seq<World>) returns (all: seq<World>)
    requires Told(env, agent, port, worlds, inputs, if inputs == [] then None else Some(feedback))
    requires worlds[|inputs|] == World(s, corpus)
    ensures var e := LiveFrom(env, legal, agent, port, s, corpus, inputs, feedback, turns);
            Told(env, agent, port, all, e.inputs, None) && worlds <= all && all[|e.inputs|] == World(e.session, e.corpus)
    decreases turns
  {
    hide QueryPort, QueryFeedback, ReadFeedback, Told, QueryShows, ReadShows;
    if turns == 0 || Stale(s.binding, legal) {
      ToldEnds(env, agent, port, worlds, inputs, feedback);
      ToldLength(env, agent, port, worlds, inputs, None);
      return worlds;
    }
    ToldLength(env, agent, port, worlds, inputs, if inputs == [] then None else Some(feedback));
    var input := Input(s.binding, feedback, turns - 1, s.budget);
    var shown := inputs + [input];
    match agent(shown) {
      case Ok(QueryTurn(operation, request)) =>
        var o := QueryPort(env, s, corpus, operation, request, port(|inputs|));
        var after := World(o.session, o.corpus);
        QueryIsTrue(env, s, corpus, operation, request, port(|inputs|));
        ToldSnoc(env, agent, port, worlds, inputs, input, after, Some(QueryFeedback(o)));
        all := LiveTold(env, legal, agent, port, o.session, o.corpus, shown, QueryFeedback(o), turns - 1, worlds + [after]);
      case Ok(ReadTurn(ordinal, offset)) =>
        var f := ReadFeedback(env, s, corpus, ordinal, offset);
        ReadIsTrue(env, s, corpus, ordinal, offset);
        ToldSnoc(env, agent, port, worlds, inputs, input, World(s, corpus), Some(f));
        all := LiveTold(env, legal, agent, port, s, corpus, shown, f, turns - 1, worlds + [World(s, corpus)]);
      case _ =>
        ToldSnoc(env, agent, port, worlds, inputs, input, World(s, corpus), None);
        all := worlds + [World(s, corpus)];
    }
  }

  lemma ToldLength(env: Env, agent: Agent, port: Port, worlds: seq<World>, inputs: seq<Input>, pending: Option<Feedback>)
    requires Told(env, agent, port, worlds, inputs, pending)
    ensures |worlds| == |inputs| + 1
  {
  }

  /** Over every live run there are worlds from the first to the last such that every turn is told truly. */
  lemma LiveFeedbackIsTrue(env: Env, legal: Legal, agent: Agent, port: Port, s: Session, corpus: Corpus, maxTurns: nat)
    returns (worlds: seq<World>)
    ensures var e := Live(env, legal, agent, port, s, corpus, maxTurns);
            && Told(env, agent, port, worlds, e.inputs, None)
            && worlds[0] == World(s, corpus) && worlds[|e.inputs|] == World(e.session, e.corpus)
  {
    worlds := [World(s, corpus)];
    if 1 <= maxTurns <= 32 {
      worlds := LiveTold(env, legal, agent, port, s, corpus, [], Start, maxTurns, worlds);
    }
  }

  // ---------- Replayed turns ----------

  /** The record at the cursor is of this operation and query. */
  predicate AtCursor(s: Session, operation: string, request: Option<Request>) {
    && request.Some? && s.replayCursor < |s.records|
    && s.records[s.replayCursor].operationId == operation && s.records[s.replayCursor].request.query == request.value.query
  }

  /** What a replayed query shows, and what each end of the replay means. */
  lemma ReplayQueryOutcome(env: Env, s: Session, corpus: Corpus, operation: string, request: Option<Request>)
    ensures var (next, r) := ReplayQuery(env, s, corpus, operation, request);
            var valid := s.replayCursor < |s.records| && request.Some? && env.validRequest(request.value);
            var matching := valid && AtCursor(s, operation, request);
            && (next == if matching && s.records[s.replayCursor].error != Some(Reobserve) then s.(replayCursor := s.replayCursor + 1) else s)
            && (s.replayCursor >= |s.records| ==> r == Err(Divergence))
            && (s.replayCursor < |s.records| && !valid ==> r == Err(Invalid))
            && (valid && !matching ==> r == Err(Divergence))
            && (matching ==>
                  var record := s.records[s.replayCursor];
                  var replayed := Replay(env, s, corpus, record, record.request);
                  && (record.error == Some(Reobserve) ==> r == Err(Reobserve))
                  && (record.error != Some(Reobserve) && replayed.Ok? ==>
                        r == Ok(Data(s.replayCursor, replayed.value)) && replayed.value.record == record)
                  && (record.error != Some(Reobserve) && replayed.Err? ==>
                        if replayed.error in {Divergence, Scope, Reobserve} then r == Err(Divergence) else r == Ok(Failed(replayed.error))))
  {
    if AtCursor(s, operation, request) {
      var record := s.records[s.replayCursor];
      ReplayedRecord(env, s, corpus, record);
    }
    hide Replay;
  }

  lemma ReplayedRecord(env: Env, s: Session, corpus: Corpus, record: Record)
    ensures var r := Replay(env, s, corpus, record, record.request); r.Ok? ==> r.value.record == record
  {
    hide Retained, ValidResponse;
  }
}
