/** Replay simulates the live loop: same feedback to the agent, same end, one record consumed a query. */
module LookupSimulation {
  import opened Outcomes
  import opened Text
  import opened LookupSession
  import opened LookupPages
  import opened LookupReplay

  /** An error that the replay loop shows to the agent again instead of ending. */
  predicate Shown(e: LookupError) {
    e !in {Divergence, Scope, Reobserve}
  }

  /** Every query of the run was dispatched and answered, or failed with an error that replay can show; every read succeeded. */
  ghost predicate Clean(env: Env, legal: Legal, agent: Agent, port: Port, s: Session, corpus: Corpus,
                        inputs: seq<Input>, feedback: Feedback, turns: nat)
    decreases turns
  {
    if turns == 0 || Stale(s.binding, legal) then true
    else
      var shown := inputs + [Input(s.binding, feedback, turns - 1, s.budget)];
      match agent(shown)
      case Err(_) => true
      case Ok(Decide(_)) => true
      case Ok(QueryTurn(operation, request)) =>
        var o := QueryPort(env, s, corpus, operation, request, port(|inputs|));
        && CleanOutcome(o)
        && Clean(env, legal, agent, port, o.session, o.corpus, shown, QueryFeedback(o), turns - 1)
      case Ok(ReadTurn(ordinal, offset)) =>
        var next := ReadFeedback(env, s, corpus, ordinal, offset);
        next.Bytes? && Clean(env, legal, agent, port, s, corpus, shown, next, turns - 1)
  }

  predicate CleanOutcome(o: Outcome) {
    o.dispatched && (o.result.Err? ==> Shown(o.result.error))
  }

  /** The two sessions show an agent the same binding and budget. */
  predicate SameView(a: Session, b: Session) {
    a.binding == b.binding && a.budget == b.budget
  }

  /** Nor did its clock or the expiry of what it retains change. */
  predicate SameRun(a: Session, b: Session) {
    SameView(a, b) && a.now == b.now && a.expiresAt == b.expiresAt
  }

  /** A corpus that later runs of the same owner only added to. */
  ghost predicate Later(a: Corpus, b: Corpus) {
    Grows(a, b) && a.scope == b.scope
  }

  // ---------- One live query ----------

  /** What a dispatched request satisfied when it was admitted. */
  predicate Admitted(env: Env, s: Session, request: Request) {
    && env.validRequest(request) && request.query.contentManifestId == s.binding.contentManifestId
    && request.query.locale == s.binding.locale
    && (request.query.live.Some? ==>
          s.binding.snapshot == Some(request.query.live.value.snapshotRef) && request.query.live.value.runId == s.binding.scope.runId)
  }

  lemma AdmittedMeans(env: Env, s: Session, corpus: Corpus, binding: Binding, operation: string, request: Request)
    requires AdmitError(env, s, corpus, binding, operation, request) == None
    ensures Admitted(env, s, request)
  {
  }

  /** The record that a dispatched query leaves: an error, or a source with the answer's bytes. */
  ghost predicate Recorded(env: Env, s: Session, o: Outcome, operation: string, request: Request) {
    && |o.session.records| == |s.records| + 1 && s.records <= o.session.records
    && (var r := o.session.records[|s.records|];
        && r.schema == RECORD_SCHEMA && r.binding == s.binding && r.operationId == operation && r.request == request
        && match o.result
           case Err(e) => r.error == Some(e) && r.source == None
           case Ok(delivery) => Answered(env, s, o.corpus, r, delivery))
  }

  /** An accepted answer: its bytes are held, they decode and validate, and the record names the view delivered. */
  ghost predicate Answered(env: Env, s: Session, corpus: Corpus, r: Record, delivery: Delivery) {
    && r.error == None && r.source.Some? && r.source.value in corpus.entries
    && (var bytes := corpus.entries[r.source.value].content;
        && env.decode(bytes).Some? && ValidResponse(env, r.request, env.decode(bytes).value)
        && Deliver(env, s, r, env.decode(bytes).value) == Ok(delivery)
        && r.sourceSha == Some(env.sha(bytes)) && r.sourceBytes == |bytes|)
    && delivery.record == r
  }

  lemma AcceptRecords(env: Env, s: Session, corpus: Corpus, operation: string, sequence: nat, request: Request,
                      raw: seq<byte>, accepts: bool)
    requires CorpusOk(env, corpus)
    ensures var o := Accept(env, s, corpus, operation, sequence, request, raw, accepts);
            && o.dispatched && Recorded(env, s, o, operation, request)
            && SameRun(s, o.session) && Later(corpus, o.corpus) && CorpusOk(env, o.corpus)
  {
    hide ChainError, ProducerError, AdmitEntry, ValidResponse;
    var o := Accept(env, s, corpus, operation, sequence, request, raw, accepts);
    var checked := CheckSource(env, s, corpus, operation, request, raw);
    if checked.Ok? {
      var record := SourceRecord(env, s, operation, sequence, request, raw);
      var held := HeldBy(s, raw);
      var admitted := AdmitEntry(env, corpus, record.source.value.entryId, held, s.now, accepts);
      AdmitScope(env, corpus, record.source.value.entryId, held, s.now, accepts);
      if admitted.Some? {
        AdmitGrows(env, corpus, record.source.value.entryId, held, s.now, accepts);
        if o.result.Ok? {
          assert Answered(env, s, o.corpus, o.session.records[|s.records|], o.result.value);
        }
      }
    }
  }

  lemma AdmitScope(env: Env, corpus: Corpus, entryId: string, held: Held, now: string, accepts: bool)
    ensures var r := AdmitEntry(env, corpus, entryId, held, now, accepts); r.Some? ==> r.value.scope == corpus.scope
  {
  }

  lemma DispatchedMeans(env: Env, s: Session, corpus: Corpus, operation: string, request: Option<Request>, port: PortReply)
    requires CorpusOk(env, corpus)
    ensures var o := QueryPort(env, s, corpus, operation, request, port);
            && SameRun(s, o.session) && Later(corpus, o.corpus) && CorpusOk(env, o.corpus)
            && (if o.dispatched then
                  && request.Some? && env.validRequest(request.value) && port.correlation.Ok?
                  && var sent := request.value.(correlation := port.correlation.value);
                     Recorded(env, s, o, operation, sent) && Admitted(env, s, sent)
                else o.session == s && o.corpus == corpus)
  {
    hide Accept, AdmitError, PageSequence, Admitted, Answered;
    if request.Some? && env.validRequest(request.value) && port.correlation.Ok? {
      var sent := request.value.(correlation := port.correlation.value);
      if AdmitError(env, s, corpus, s.binding, operation, sent) == None {
        AdmittedMeans(env, s, corpus, s.binding, operation, sent);
        var sequence := PageSequence(s, operation, sent.query);
        if sequence.Ok? && port.reply.Ok? {
          AcceptRecords(env, s, corpus, operation, sequence.value, sent, port.reply.value, port.accepts);
        }
      }
    }
  }

  // ---------- The same record, replayed later ----------

  lemma ReplayOfError(env: Env, s: Session, r: Session, corpus: Corpus, record: Record, e: LookupError)
    requires SameView(s, r) && corpus.scope == r.binding.scope
    requires record.schema == RECORD_SCHEMA && record.binding == s.binding && Admitted(env, s, record.request)
    requires record.error == Some(e)
    ensures Replay(env, r, corpus, record, record.request) == Err(e)
  {
  }

  /** Nothing but its expiry keeps the source of a record from being read. */
  ghost predicate FitsRecord(env: Env, corpus: Corpus, record: Record) {
    record.source.Some? ==>
      && record.source.value in corpus.entries && Fits(corpus.entries[record.source.value], record.binding)
      && record.binding.scope == corpus.scope && record.error == None
      && (var content := corpus.entries[record.source.value].content;
          record.sourceSha == Some(env.sha(content)) && record.sourceBytes == |content|)
  }

  predicate Fits(held: Held, binding: Binding) {
    held.scope == binding.scope && held.gameProfile == binding.gameProfile && held.branch == BRANCH && !held.guarded
  }

  /** The record has no source, or one that has not expired at `now`. */
  predicate AliveRecord(env: Env, corpus: Corpus, now: string, record: Record) {
    record.source.Some? ==> record.source.value in corpus.entries && Alive(env, corpus.entries[record.source.value], now)
  }

  lemma RetainedIffAlive(env: Env, corpus: Corpus, now: string, record: Record)
    requires FitsRecord(env, corpus, record) && record.source.Some?
    ensures Retained(env, corpus, now, record)
            == if AliveRecord(env, corpus, now, record) then Ok(corpus.entries[record.source.value].content) else Err(MissingRetention)
  {
  }

  /** An answered record replays to its delivery until its source expires on the replaying session's clock. */
  lemma ReplayOfAnswer(env: Env, s: Session, r: Session, before: Corpus, corpus: Corpus, record: Record, delivery: Delivery)
    requires SameView(s, r) && corpus.scope == r.binding.scope && Later(before, corpus)
    requires record.schema == RECORD_SCHEMA && record.binding == s.binding && Admitted(env, s, record.request)
    requires Answered(env, s, before, record, delivery) && FitsRecord(env, corpus, record)
    ensures Replay(env, r, corpus, record, record.request)
            == if AliveRecord(env, corpus, r.now, record) then Ok(delivery) else Err(MissingRetention)
  {
    RetainedIffAlive(env, corpus, r.now, record);
    hide Retained, ValidResponse, Alive, FitsRecord;
  }

  /** What replaying a dispatched query shows: what it showed live, unless its source has expired. */
  function ShownAgain(env: Env, corpus: Corpus, now: string, o: Outcome, ordinal: nat): Feedback
    requires ordinal < |o.session.records|
  {
    if AliveRecord(env, corpus, now, o.session.records[ordinal]) then QueryFeedback(o) else Failed(MissingRetention)
  }

  /** A dispatched query, replayed in a later corpus at any clock. */
  lemma ReplayQuerySame(env: Env, s: Session, r: Session, before: Corpus, corpus: Corpus, operation: string, request: Option<Request>,
                        port: PortReply)
    requires CorpusOk(env, before) && SameView(s, r) && corpus.scope == r.binding.scope
    requires var o := QueryPort(env, s, before, operation, request, port);
             && CleanOutcome(o) && Later(o.corpus, corpus)
             && o.session.records <= r.records && r.replayCursor == |s.records| && AllFit(env, corpus, r.records)
    ensures var o := QueryPort(env, s, before, operation, request, port);
            && |o.session.records| == |s.records| + 1
            && ReplayQuery(env, r, corpus, operation, request)
               == (r.(replayCursor := |s.records| + 1), Ok(ShownAgain(env, corpus, r.now, o, |s.records|)))
  {
    var o := QueryPort(env, s, before, operation, request, port);
    DispatchedMeans(env, s, before, operation, request, port);
    var record := o.session.records[|s.records|];
    assert r.records[|s.records|] == record && record in r.records;
    hide QueryPort, CorpusOk, Admitted, Answered, FitsRecord;
    match o.result {
      case Err(e) => ReplayOfError(env, s, r, corpus, record, e);
      case Ok(delivery) => ReplayOfAnswer(env, s, r, o.corpus, corpus, record, delivery);
    }
    hide Replay, Alive;
  }

  ghost predicate AllFit(env: Env, corpus: Corpus, records: seq<Record>) {
    forall r :: r in records ==> FitsRecord(env, corpus, r)
  }

  lemma RetainedStays(env: Env, a: Corpus, b: Corpus, earlier: string, now: string, record: Record)
    requires Later(a, b) && Retained(env, a, earlier, record).Ok? && AliveRecord(env, b, now, record)
    ensures Retained(env, b, now, record) == Retained(env, a, earlier, record)
  {
  }

  lemma ReplayStays(env: Env, s: Session, r: Session, a: Corpus, b: Corpus, record: Record, request: Request)
    requires SameView(s, r) && Later(a, b) && Replay(env, s, a, record, request).Ok? && AliveRecord(env, b, r.now, record)
    ensures Replay(env, r, b, record, request) == Replay(env, s, a, record, request)
  {
    RetainedStays(env, a, b, s.now, r.now, record);
    hide Retained, Grows, ValidResponse, AliveRecord;
  }

  lemma ReadStays(env: Env, s: Session, r: Session, a: Corpus, b: Corpus, record: Record, offset: nat)
    requires SameView(s, r) && Later(a, b) && ReadRetained(env, s, a, record, offset).Ok? && AliveRecord(env, b, r.now, record)
    ensures ReadRetained(env, r, b, record, offset) == ReadRetained(env, s, a, record, offset)
  {
    ReplayStays(env, s, r, a, b, record, record.request);
    RetainedStays(env, a, b, s.now, r.now, record);
    hide Retained, Grows, Replay, AliveRecord;
  }

  lemma ReplayReadSame(env: Env, s: Session, r: Session, a: Corpus, b: Corpus, ordinal: nat, offset: nat)
    requires SameView(s, r) && Later(a, b) && s.records <= r.records && ReadFeedback(env, s, a, ordinal, offset).Bytes?
    requires AliveUpTo(env, b, r.now, r.records, |s.records|)
    ensures ReplayRead(env, r, b, ordinal, offset) == Ok(ReadFeedback(env, s, a, ordinal, offset))
  {
    assert ordinal < |s.records| && s.records[ordinal] == r.records[ordinal];
    ReadStays(env, s, r, a, b, s.records[ordinal], offset);
    hide ReadRetained;
  }

  /** None of the first `n` records has an expired source. */
  ghost predicate AliveUpTo(env: Env, corpus: Corpus, now: string, records: seq<Record>, n: int) {
    forall k :: 0 <= k < n && k < |records| ==> AliveRecord(env, corpus, now, records[k])
  }

  // ---------- The run only adds ----------

  lemma LaterTwice(a: Corpus, b: Corpus, c: Corpus)
    requires Later(a, b) && Later(b, c)
    ensures Later(a, c)
  {
    forall r | r in a.entries ensures r in c.entries && c.entries[r] == a.entries[r] {
      assert r in b.entries;
    }
  }

  lemma LaterItself(a: Corpus)
    ensures Later(a, a)
  {
  }

  lemma {:induction false} LiveGrows(env: Env, legal: Legal, agent: Agent, port: Port, s: Session, corpus: Corpus,
                                     inputs: seq<Input>, feedback: Feedback, turns: nat)
    requires CorpusOk(env, corpus)
    ensures var e := LiveFrom(env, legal, agent, port, s, corpus, inputs, feedback, turns);
            SameRun(s, e.session) && Later(corpus, e.corpus) && s.records <= e.session.records
    decreases turns
  {
    hide QueryPort, CorpusOk, Later, ReadFeedback, QueryFeedback, Recorded, Admitted;
    LaterItself(corpus);
    if turns > 0 && !Stale(s.binding, legal) {
      var shown := inputs + [Input(s.binding, feedback, turns - 1, s.budget)];
      match agent(shown) {
        case Ok(QueryTurn(operation, request)) =>
          var o := QueryPort(env, s, corpus, operation, request, port(|inputs|));
          DispatchedMeans(env, s, corpus, operation, request, port(|inputs|));
          DispatchedGrows(env, s, corpus, operation, request, port(|inputs|));
          LiveGrows(env, legal, agent, port, o.session, o.corpus, shown, QueryFeedback(o), turns - 1);
          var e := LiveFrom(env, legal, agent, port, o.session, o.corpus, shown, QueryFeedback(o), turns - 1);
          LaterTwice(corpus, o.corpus, e.corpus);
        case Ok(ReadTurn(ordinal, offset)) =>
          LiveGrows(env, legal, agent, port, s, corpus, shown, ReadFeedback(env, s, corpus, ordinal, offset), turns - 1);
        case _ =>
      }
    }
  }

  lemma DispatchedGrows(env: Env, s: Session, corpus: Corpus, operation: string, request: Option<Request>, port: PortReply)
    requires CorpusOk(env, corpus)
    ensures s.records <= QueryPort(env, s, corpus, operation, request, port).session.records
  {
    DispatchedMeans(env, s, corpus, operation, request, port);
    hide QueryPort, CorpusOk, Admitted, Answered;
  }

  // ---------- Queries are counted ----------

  predicate IsQuery(turn: Result<Turn, LookupError>) {
    turn.Ok? && turn.value.QueryTurn?
  }

  /** How many of the agent's turns were queries. */
  function QueryTurns(agent: Agent, inputs: seq<Input>): nat {
    if inputs == [] then 0
    else QueryTurns(agent, inputs[..|inputs| - 1]) + if IsQuery(agent(inputs)) then 1 else 0
  }

  lemma {:induction false} LiveCounts(env: Env, legal: Legal, agent: Agent, port: Port, s: Session, corpus: Corpus,
                                      inputs: seq<Input>, feedback: Feedback, turns: nat)
    requires CorpusOk(env, corpus) && Clean(env, legal, agent, port, s, corpus, inputs, feedback, turns)
    ensures var e := LiveFrom(env, legal, agent, port, s, corpus, inputs, feedback, turns);
            |e.session.records| - |s.records| == QueryTurns(agent, e.inputs) - QueryTurns(agent, inputs)
    decreases turns
  {
    hide QueryPort, CorpusOk, Later, ReadFeedback, QueryFeedback, Admitted, Answered, CleanOutcome;
    if turns > 0 && !Stale(s.binding, legal) {
      var shown := inputs + [Input(s.binding, feedback, turns - 1, s.budget)];
      assert shown[..|shown| - 1] == inputs;
      match agent(shown) {
        case Ok(QueryTurn(operation, request)) =>
          var o := QueryPort(env, s, corpus, operation, request, port(|inputs|));
          DispatchedMeans(env, s, corpus, operation, request, port(|inputs|));
          DispatchedCounts(o);
          LiveCounts(env, legal, agent, port, o.session, o.corpus, shown, QueryFeedback(o), turns - 1);
        case Ok(ReadTurn(ordinal, offset)) =>
          LiveCounts(env, legal, agent, port, s, corpus, shown, ReadFeedback(env, s, corpus, ordinal, offset), turns - 1);
        case _ =>
      }
    }
  }

  lemma DispatchedCounts(o: Outcome)
    requires CleanOutcome(o)
    ensures o.dispatched
  {
  }

  /** The records whose feedback the agent was shown: all but one that the last turn asked for. */
  function ShownRecords(agent: Agent, e: End): int {
    |e.session.records| - if e.inputs != [] && IsQuery(agent(e.inputs)) then 1 else 0
  }

  lemma {:induction false} ShownAtLeast(env: Env, legal: Legal, agent: Agent, port: Port, s: Session, corpus: Corpus,
                                        inputs: seq<Input>, feedback: Feedback, turns: nat)
    requires CorpusOk(env, corpus) && Clean(env, legal, agent, port, s, corpus, inputs, feedback, turns)
    requires turns > 0 && !Stale(s.binding, legal)
    ensures var e := LiveFrom(env, legal, agent, port, s, corpus, inputs, feedback, turns);
            ShownRecords(agent, e) >= |s.records| && inputs + [Input(s.binding, feedback, turns - 1, s.budget)] <= e.inputs
    decreases turns
  {
    hide QueryPort, CorpusOk, Later, ReadFeedback, QueryFeedback, Admitted, Answered, CleanOutcome;
    var shown := inputs + [Input(s.binding, feedback, turns - 1, s.budget)];
    match agent(shown) {
      case Ok(QueryTurn(operation, request)) =>
        var o := QueryPort(env, s, corpus, operation, request, port(|inputs|));
        DispatchedMeans(env, s, corpus, operation, request, port(|inputs|));
        DispatchedCounts(o);
        if turns > 1 {
          ShownAtLeast(env, legal, agent, port, o.session, o.corpus, shown, QueryFeedback(o), turns - 1);
        }
      case Ok(ReadTurn(ordinal, offset)) =>
        if turns > 1 {
          ShownAtLeast(env, legal, agent, port, s, corpus, shown, ReadFeedback(env, s, corpus, ordinal, offset), turns - 1);
        }
      case _ =>
    }
  }

  lemma {:induction false} ReplayShows(env: Env, legal: Legal, agent: Agent, s: Session, corpus: Corpus,
                                       inputs: seq<Input>, feedback: Feedback, turns: nat)
    requires turns > 0 && !Stale(s.binding, legal)
    ensures inputs + [Input(s.binding, feedback, turns - 1, s.budget)]
            <= ReplayFrom(env, legal, agent, s, corpus, inputs, feedback, turns).inputs
    decreases turns
  {
    hide ReplayRead, Replay;
    var shown := inputs + [Input(s.binding, feedback, turns - 1, s.budget)];
    match agent(shown) {
      case Ok(QueryTurn(operation, request)) =>
        var (next, r) := ReplayQuery(env, s, corpus, operation, request);
        if r.Ok? && turns > 1 {
          ReplayShows(env, legal, agent, next, corpus, shown, r.value, turns - 1);
        }
      case Ok(ReadTurn(ordinal, offset)) =>
        var r := ReplayRead(env, s, corpus, ordinal, offset);
        if r.Ok? && turns > 1 {
          ReplayShows(env, legal, agent, s, corpus, shown, r.value, turns - 1);
        }
      case _ =>
    }
  }

  // ---------- Simulation ----------

  /** Up to some turn both agents saw the same; then one saw the answer of record `k` and the other that it is gone. */
  ghost predicate Diverges(live: End, again: End, k: nat) {
    exists i :: DivergesAfter(live, again, k, i)
  }

  predicate DivergesAfter(live: End, again: End, k: nat, i: nat) {
    && i + 1 < |live.inputs| && i + 1 < |again.inputs| && live.inputs[..i + 1] == again.inputs[..i + 1]
    && live.inputs[i + 1].feedback.Data? && live.inputs[i + 1].feedback.ordinal == k
    && again.inputs[i + 1].feedback == Failed(MissingRetention)
  }

  /** The first shown record whose source has expired. */
  ghost predicate FirstExpired(env: Env, agent: Agent, live: End, now: string, k: nat) {
    && k < |live.session.records| && k < ShownRecords(agent, live)
    && !AliveRecord(env, live.corpus, now, live.session.records[k])
    && AliveUpTo(env, live.corpus, now, live.session.records, k)
  }

  /** Either everything shown is alive and the replay is the same, or it departs at the first expired source. */
  ghost predicate SameUntilExpiry(env: Env, agent: Agent, live: End, r: Session, again: End) {
    if AliveUpTo(env, live.corpus, r.now, live.session.records, ShownRecords(agent, live)) then
      again == End(r.(replayCursor := |live.session.records|), live.corpus, live.result, live.inputs)
    else
      exists k :: FirstExpired(env, agent, live, r.now, k) && Diverges(live, again, k)
  }

  lemma {:induction false} Simulates(env: Env, legal: Legal, agent: Agent, port: Port, s: Session, corpus: Corpus,
                                     inputs: seq<Input>, feedback: Feedback, turns: nat, r: Session)
    requires CorpusOk(env, corpus) && corpus.scope == s.binding.scope
    requires Clean(env, legal, agent, port, s, corpus, inputs, feedback, turns)
    requires var e := LiveFrom(env, legal, agent, port, s, corpus, inputs, feedback, turns);
             && SameView(s, r) && r.records == e.session.records && r.replayCursor == |s.records|
             && AllFit(env, e.corpus, e.session.records) && AliveUpTo(env, e.corpus, r.now, e.session.records, |s.records|)
    ensures var e := LiveFrom(env, legal, agent, port, s, corpus, inputs, feedback, turns);
            SameUntilExpiry(env, agent, e, r, ReplayFrom(env, legal, agent, r, e.corpus, inputs, feedback, turns))
    decreases turns
  {
    hide QueryPort, CorpusOk, Later, ReadFeedback, QueryFeedback, Answered, Admitted, ReplayQuery, ReplayRead, AllFit, CleanOutcome,
         FitsRecord, AliveRecord, Diverges;
    var e := LiveFrom(env, legal, agent, port, s, corpus, inputs, feedback, turns);
    LiveGrows(env, legal, agent, port, s, corpus, inputs, feedback, turns);
    LaterScope(corpus, e.corpus);
    if turns > 0 && !Stale(s.binding, legal) {
      var shown := inputs + [Input(s.binding, feedback, turns - 1, s.budget)];
      match agent(shown) {
        case Ok(QueryTurn(operation, request)) =>
          var o := QueryPort(env, s, corpus, operation, request, port(|inputs|));
          DispatchedMeans(env, s, corpus, operation, request, port(|inputs|));
          DispatchedCounts(o);
          LaterScope(corpus, o.corpus);
          LiveGrows(env, legal, agent, port, o.session, o.corpus, shown, QueryFeedback(o), turns - 1);
          ReplayQuerySame(env, s, r, corpus, e.corpus, operation, request, port(|inputs|));
          if AliveRecord(env, e.corpus, r.now, o.session.records[|s.records|]) {
            Simulates(env, legal, agent, port, o.session, o.corpus, shown, QueryFeedback(o), turns - 1,
                      r.(replayCursor := |s.records| + 1));
          } else if turns > 1 {
            Departs(env, legal, agent, port, s, corpus, inputs, feedback, turns, r, operation, request);
          }
        case Ok(ReadTurn(ordinal, offset)) =>
          ReplayReadSame(env, s, r, corpus, e.corpus, ordinal, offset);
          Simulates(env, legal, agent, port, s, corpus, shown, ReadFeedback(env, s, corpus, ordinal, offset), turns - 1, r);
        case _ =>
      }
    }
  }

  lemma Departs(env: Env, legal: Legal, agent: Agent, port: Port, s: Session, corpus: Corpus,
                inputs: seq<Input>, feedback: Feedback, turns: nat, r: Session, operation: string, request: Option<Request>)
    requires CorpusOk(env, corpus) && corpus.scope == s.binding.scope && turns > 1 && !Stale(s.binding, legal)
    requires Clean(env, legal, agent, port, s, corpus, inputs, feedback, turns)
    requires agent(inputs + [Input(s.binding, feedback, turns - 1, s.budget)]) == Ok(QueryTurn(operation, request))
    requires var e := LiveFrom(env, legal, agent, port, s, corpus, inputs, feedback, turns);
             && SameView(s, r) && r.records == e.session.records && r.replayCursor == |s.records| < |r.records|
             && AllFit(env, e.corpus, e.session.records) && AliveUpTo(env, e.corpus, r.now, e.session.records, |s.records|)
             && !AliveRecord(env, e.corpus, r.now, r.records[|s.records|])
    ensures var e := LiveFrom(env, legal, agent, port, s, corpus, inputs, feedback, turns);
            SameUntilExpiry(env, agent, e, r, ReplayFrom(env, legal, agent, r, e.corpus, inputs, feedback, turns))
  {
    hide QueryPort, CorpusOk, Later, Admitted, Answered, ReplayQuery, AllFit, CleanOutcome, FitsRecord;
    var e := LiveFrom(env, legal, agent, port, s, corpus, inputs, feedback, turns);
    var shown := inputs + [Input(s.binding, feedback, turns - 1, s.budget)];
    var o := QueryPort(env, s, corpus, operation, request, port(|inputs|));
    DispatchedMeans(env, s, corpus, operation, request, port(|inputs|));
    DispatchedCounts(o);
    LiveGrows(env, legal, agent, port, o.session, o.corpus, shown, QueryFeedback(o), turns - 1);
    LaterScope(corpus, o.corpus);
    LaterScope(o.corpus, e.corpus);
    ReplayQuerySame(env, s, r, corpus, e.corpus, operation, request, port(|inputs|));
    ShownAtLeast(env, legal, agent, port, o.session, o.corpus, shown, QueryFeedback(o), turns - 1);
    var next := r.(replayCursor := |s.records| + 1);
    ReplayShows(env, legal, agent, next, e.corpus, shown, Failed(MissingRetention), turns - 1);
    var again := ReplayFrom(env, legal, agent, r, e.corpus, inputs, feedback, turns);
    assert again == ReplayFrom(env, legal, agent, next, e.corpus, shown, Failed(MissingRetention), turns - 1);
    hide LiveFrom, ReplayFrom, Clean;
    DepartsHere(e, again, shown, QueryFeedback(o), Failed(MissingRetention), s, turns, |inputs|);
    assert FirstExpired(env, agent, e, r.now, |s.records|);
  }

  lemma DepartsHere(live: End, again: End, shown: seq<Input>, a: Feedback, b: Feedback, s: Session, turns: nat, i: nat)
    requires turns > 1 && |shown| == i + 1 && a.Data? && b == Failed(MissingRetention)
    requires shown + [Input(s.binding, a, turns - 2, s.budget)] <= live.inputs
    requires shown + [Input(s.binding, b, turns - 2, s.budget)] <= again.inputs
    ensures Diverges(live, again, a.ordinal)
  {
    assert live.inputs[i + 1] == (shown + [Input(s.binding, a, turns - 2, s.budget)])[i + 1];
    assert again.inputs[i + 1] == (shown + [Input(s.binding, b, turns - 2, s.budget)])[i + 1];
    assert live.inputs[..i + 1] == shown == again.inputs[..i + 1];
    assert DivergesAfter(live, again, a.ordinal, i);
  }

  lemma LaterScope(a: Corpus, b: Corpus)
    requires Later(a, b)
    ensures a.scope == b.scope
  {
  }
}
