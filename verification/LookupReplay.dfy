/**
 The live lookup loop and the replay loop of an agent that decides from what it was shown. Replaying a
 session's records shows the agent the same feedback and ends the same way.
 */
module LookupReplay {
  import opened Outcomes
  import opened Text
  import opened LookupSession
  import opened LookupPages

  const MAX_TURNS := 32

  datatype Turn =
    | QueryTurn(operation: string, request: Option<Request>)
    | ReadTurn(ordinal: nat, offset: nat)
    | Decide(action: string)

  datatype Feedback =
    | Start
    | Data(ordinal: nat, delivery: Delivery)
    | Bytes(ordinal: nat, offset: nat, totalBytes: nat, bytes: seq<byte>)
    | Failed(error: LookupError)

  /** What an agent is shown before a turn. */
  datatype Input = Input(binding: Binding, feedback: Feedback, remaining: nat, budget: nat)

  /** A deterministic agent: its turn is a function of everything it was shown. */
  type Agent = seq<Input> -> Result<Turn, LookupError>

  datatype Legal = Legal(generation: nat, actions: seq<string>)

  /** What the port does with the query of one turn: its correlation, its answer, and the corpus's room for it. */
  datatype PortReply = PortReply(correlation: Result<string, LookupError>, reply: Result<seq<byte>, LookupError>, accepts: bool)

  type Port = nat -> PortReply

  /** How a loop ends: session and corpus, its result, and all inputs it showed to the agent. */
  datatype End = End(session: Session, corpus: Corpus, result: Result<string, LookupError>, inputs: seq<Input>)

  predicate Stale(binding: Binding, legal: Legal) {
    binding.snapshot.Some? && binding.snapshot.value.stateGeneration != Some(legal.generation)
  }

  function Decision(legal: Legal, action: string): Result<string, LookupError> {
    if action in legal.actions then Ok(action) else Err(Invalid)
  }

  // ---------- The live loop ----------

  /** `query_port`. */
  function QueryPort(env: Env, s: Session, corpus: Corpus, operation: string, request: Option<Request>, port: PortReply): Outcome {
    if request.None? || !env.validRequest(request.value) then Outcome(s, corpus, Err(Invalid), false)
    else if port.correlation.Err? then Outcome(s, corpus, Err(port.correlation.error), false)
    else
      var sent := request.value.(correlation := port.correlation.value);
      QueryOnce(env, s, corpus, s.binding, operation, Some(sent), port.reply, port.accepts)
  }

  function QueryFeedback(o: Outcome): Feedback {
    match o.result
    case Ok(delivery) => if |o.session.records| == 0 then Failed(Invalid) else Data(|o.session.records| - 1, delivery)
    case Err(e) => Failed(e)
  }

  function ReadFeedback(env: Env, s: Session, corpus: Corpus, ordinal: nat, offset: nat): Feedback {
    if ordinal >= |s.records| then Failed(MissingRetention)
    else
      match ReadRetained(env, s, corpus, s.records[ordinal], offset)
      case Ok(bytes) => Bytes(ordinal, offset, s.records[ordinal].sourceBytes, bytes)
      case Err(e) => Failed(e)
  }

  /** The turns that are left, after the agent saw `inputs` and is about to see `feedback`. */
  function LiveFrom(env: Env, legal: Legal, agent: Agent, port: Port, s: Session, corpus: Corpus,
                    inputs: seq<Input>, feedback: Feedback, turns: nat): End
    decreases turns
  {
    if turns == 0 then End(s, corpus, Err(Bounds), inputs)
    else if Stale(s.binding, legal) then End(s, corpus, Err(Reobserve), inputs)
    else
      var shown := inputs + [Input(s.binding, feedback, turns - 1, s.budget)];
      match agent(shown)
      case Err(e) => End(s, corpus, Err(e), shown)
      case Ok(Decide(action)) => End(s, corpus, Decision(legal, action), shown)
      case Ok(QueryTurn(operation, request)) =>
        var o := QueryPort(env, s, corpus, operation, request, port(|inputs|));
        LiveFrom(env, legal, agent, port, o.session, o.corpus, shown, QueryFeedback(o), turns - 1)
      case Ok(ReadTurn(ordinal, offset)) =>
        LiveFrom(env, legal, agent, port, s, corpus, shown, ReadFeedback(env, s, corpus, ordinal, offset), turns - 1)
  }

  function Live(env: Env, legal: Legal, agent: Agent, port: Port, s: Session, corpus: Corpus, maxTurns: nat): End {
    if maxTurns == 0 || maxTurns > MAX_TURNS then End(s, corpus, Err(Bounds), [])
    else LiveFrom(env, legal, agent, port, s, corpus, [], Start, maxTurns)
  }

  /** The live loop of the source. */
  method RunLookupToolLoop(env: Env, legal: Legal, agent: Agent, port: Port, session: Lookup, corpus: Corpus, maxTurns: nat)
    returns (after: Corpus, r: Result<string, LookupError>, ghost inputs: seq<Input>)
    modifies session
    ensures End(session.Value(), after, r, inputs) == Live(env, legal, agent, port, old(session.Value()), corpus, maxTurns)
  {
    hide QueryOnce, ReadRetained;
    after, inputs := corpus, [];
    if maxTurns == 0 || maxTurns > MAX_TURNS {
      return after, Err(Bounds), inputs;
    }
    if Stale(session.binding, legal) {
      return after, Err(Reobserve), inputs;
    }
    var feedback := Start;
    var seen: seq<Input> := [];
    var turns := maxTurns;
    while turns > 0
      invariant seen == inputs && |seen| == maxTurns - turns
      invariant LiveFrom(env, legal, agent, port, session.Value(), after, inputs, feedback, turns)
                == Live(env, legal, agent, port, old(session.Value()), corpus, maxTurns)
    {
      if Stale(session.binding, legal) {
        return after, Err(Reobserve), inputs;
      }
      seen := seen + [Input(session.binding, feedback, turns - 1, session.budget)];
      inputs := seen;
      var turn := agent(seen);
      if turn.Err? {
        return after, Err(turn.error), inputs;
      }
      match turn.value {
        case Decide(action) =>
          return after, Decision(legal, action), inputs;
        case QueryTurn(operation, request) =>
          after, feedback := HandleQuery(env, port(|seen| - 1), session, after, operation, request);
        case ReadTurn(ordinal, offset) =>
          feedback := ReadFeedback(env, session.Value(), after, ordinal, offset);
      }
      turns := turns - 1;
    }
    return after, Err(Bounds), inputs;
  }

  method HandleQuery(env: Env, port: PortReply, session: Lookup, corpus: Corpus, operation: string, request: Option<Request>)
    returns (after: Corpus, feedback: Feedback)
    modifies session
    ensures var o := QueryPort(env, old(session.Value()), corpus, operation, request, port);
            session.Value() == o.session && after == o.corpus && feedback == QueryFeedback(o)
  {
    hide QueryOnce;
    if request.None? || !env.validRequest(request.value) {
      return corpus, Failed(Invalid);
    }
    if port.correlation.Err? {
      return corpus, Failed(port.correlation.error);
    }
    var sent := request.value.(correlation := port.correlation.value);
    var r, dispatched;
    after, r, dispatched := session.Query(env, corpus, session.binding, operation, Some(sent), port.reply, port.accepts);
    feedback := QueryFeedback(Outcome(session.Value(), after, r, dispatched));
  }

  // ---------- The replay loop ----------

  /** One query of the replay: the feedback, or the error that ends the loop. */
  function ReplayQuery(env: Env, s: Session, corpus: Corpus, operation: string, request: Option<Request>)
    : (Session, Result<Feedback, LookupError>)
  {
    if s.replayCursor >= |s.records| then (s, Err(Divergence))
    else if request.None? || !env.validRequest(request.value) then (s, Err(Invalid))
    else
      var ordinal, record := s.replayCursor, s.records[s.replayCursor];
      if record.operationId != operation || record.request.query != request.value.query then (s, Err(Divergence))
      else if record.error == Some(Reobserve) then (s, Err(Reobserve))
      else
        var next := s.(replayCursor := ordinal + 1);
        match Replay(env, s, corpus, record, record.request)
        case Ok(delivery) => (next, Ok(Data(ordinal, delivery)))
        case Err(e) => (next, if e in {Divergence, Scope, Reobserve} then Err(Divergence) else Ok(Failed(e)))
  }

  function ReplayRead(env: Env, s: Session, corpus: Corpus, ordinal: nat, offset: nat): Result<Feedback, LookupError> {
    if ordinal >= |s.records| then Err(MissingRetention)
    else
      match ReadRetained(env, s, corpus, s.records[ordinal], offset)
      case Ok(bytes) => Ok(Bytes(ordinal, offset, s.records[ordinal].sourceBytes, bytes))
      case Err(e) => Err(e)
  }

  function ReplayFrom(env: Env, legal: Legal, agent: Agent, s: Session, corpus: Corpus,
                      inputs: seq<Input>, feedback: Feedback, turns: nat): End
    decreases turns
  {
    if turns == 0 then End(s, corpus, Err(Bounds), inputs)
    else if Stale(s.binding, legal) then End(s, corpus, Err(Reobserve), inputs)
    else
      var shown := inputs + [Input(s.binding, feedback, turns - 1, s.budget)];
      match agent(shown)
      case Err(e) => End(s, corpus, Err(e), shown)
      case Ok(Decide(action)) => End(s, corpus, Decision(legal, action), shown)
      case Ok(QueryTurn(operation, request)) =>
        var (next, r) := ReplayQuery(env, s, corpus, operation, request);
        if r.Err? then End(next, corpus, Err(r.error), shown)
        else ReplayFrom(env, legal, agent, next, corpus, shown, r.value, turns - 1)
      case Ok(ReadTurn(ordinal, offset)) =>
        match ReplayRead(env, s, corpus, ordinal, offset)
        case Err(e) => End(s, corpus, Err(e), shown)
        case Ok(next) => ReplayFrom(env, legal, agent, s, corpus, shown, next, turns - 1)
  }

  function Replayed(env: Env, legal: Legal, agent: Agent, s: Session, corpus: Corpus, maxTurns: nat): End {
    if maxTurns == 0 || maxTurns > MAX_TURNS then End(s, corpus, Err(Bounds), [])
    else ReplayFrom(env, legal, agent, s, corpus, [], Start, maxTurns)
  }

  /** The replay loop of the source: no port, and only the cursor moves. */
  method RunLookupReplayToolLoop(env: Env, legal: Legal, agent: Agent, session: Lookup, corpus: Corpus, maxTurns: nat)
    returns (r: Result<string, LookupError>, ghost inputs: seq<Input>)
    modifies session`replayCursor
    ensures End(session.Value(), corpus, r, inputs) == Replayed(env, legal, agent, old(session.Value()), corpus, maxTurns)
  {
    hide Replay, ReadRetained;
    inputs := [];
    if maxTurns == 0 || maxTurns > MAX_TURNS {
      return Err(Bounds), inputs;
    }
    if Stale(session.binding, legal) {
      return Err(Reobserve), inputs;
    }
    var feedback := Start;
    var seen: seq<Input> := [];
    var turns := maxTurns;
    while turns > 0
      invariant seen == inputs
      invariant ReplayFrom(env, legal, agent, session.Value(), corpus, inputs, feedback, turns)
                == Replayed(env, legal, agent, old(session.Value()), corpus, maxTurns)
    {
      if Stale(session.binding, legal) {
        return Err(Reobserve), inputs;
      }
      seen := seen + [Input(session.binding, feedback, turns - 1, session.budget)];
      inputs := seen;
      var turn := agent(seen);
      if turn.Err? {
        return Err(turn.error), inputs;
      }
      match turn.value {
        case Decide(action) =>
          return Decision(legal, action), inputs;
        case QueryTurn(operation, request) =>
          var next := ReplayOneQuery(env, session, corpus, operation, request);
          if next.Err? {
            return Err(next.error), inputs;
          }
          feedback := next.value;
        case ReadTurn(ordinal, offset) =>
          var next := ReplayRead(env, session.Value(), corpus, ordinal, offset);
          if next.Err? {
            return Err(next.error), inputs;
          }
          feedback := next.value;
      }
      turns := turns - 1;
    }
    return Err(Bounds), inputs;
  }

  method ReplayOneQuery(env: Env, session: Lookup, corpus: Corpus, operation: string, request: Option<Request>)
    returns (r: Result<Feedback, LookupError>)
    modifies session`replayCursor
    ensures (session.Value(), r) == ReplayQuery(env, old(session.Value()), corpus, operation, request)
  {
    hide Replay;
    var ordinal := session.replayCursor;
    if ordinal >= |session.records| {
      return Err(Divergence);
    }
    var record := session.records[ordinal];
    if request.None? || !env.validRequest(request.value) {
      return Err(Invalid);
    }
    if record.operationId != operation || record.request.query != request.value.query {
      return Err(Divergence);
    }
    if record.error == Some(Reobserve) {
      return Err(Reobserve);
    }
    var replayed := Replay(env, session.Value(), corpus, record, record.request);
    session.replayCursor := ordinal + 1;
    match replayed {
      case Ok(delivery) =>
        return Ok(Data(ordinal, delivery));
      case Err(e) =>
        if e in {Divergence, Scope, Reobserve} {
          return Err(Divergence);
        }
        return Ok(Failed(e));
    }
  }
}
