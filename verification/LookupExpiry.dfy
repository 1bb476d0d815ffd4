/**
 Which sources a live run leaves, when they expire, and what that means for replay: it is the same until
 the replaying session's clock reaches the expiry of an answer that the agent was shown.
 */
module LookupExpiry {
  import opened Outcomes
  import opened Text
  import opened LookupItems
  import opened LookupSession
  import opened LookupPages
  import opened LookupReplay
  import opened LookupSimulation

  // ---------- The sources of a run ----------

  /** What the corpus already holds under the identifier of a record of this binding is an entry of its lookups. */
  ghost predicate Serves(env: Env, corpus: Corpus, binding: Binding) {
    forall r, record: Record :: r in corpus.entries && record.binding == binding && r.entryId == env.entryId(record) ==>
      Fits(corpus.entries[r], binding)
  }

  /** Every entry that is not of the first corpus was admitted by the session: it expires with it, and later than its clock. */
  ghost predicate AddedBy(env: Env, s: Session, first: Corpus, corpus: Corpus) {
    forall r :: r in corpus.entries ==> r in first.entries || AdmittedBy(env, s, corpus.entries[r])
  }

  predicate AdmittedBy(env: Env, s: Session, held: Held) {
    held.expiresAt == s.expiresAt && Alive(env, held, s.now)
  }

  /** The source of a record, if any, is stored under the identifier of a record of its binding. */
  ghost predicate Identified(env: Env, record: Record) {
    record.source.Some? ==> exists named: Record :: named.binding == record.binding && record.source.value.entryId == env.entryId(named)
  }

  ghost predicate AllIdentified(env: Env, records: seq<Record>) {
    forall r :: r in records ==> Identified(env, r)
  }

  lemma AdmitServes(env: Env, s: Session, first: Corpus, corpus: Corpus, entryId: string, raw: seq<byte>, accepts: bool)
    requires Serves(env, corpus, s.binding) && AddedBy(env, s, first, corpus)
    ensures var after := AdmitEntry(env, corpus, entryId, HeldBy(s, raw), s.now, accepts);
            after.Some? ==> Serves(env, after.value, s.binding) && AddedBy(env, s, first, after.value)
  {
    hide Alive;
  }

  lemma FitStays(env: Env, a: Corpus, b: Corpus, records: seq<Record>)
    requires Later(a, b) && AllFit(env, a, records)
    ensures AllFit(env, b, records)
  {
    forall r | r in records ensures FitsRecord(env, b, r) {
      assert FitsRecord(env, a, r);
    }
  }

  lemma AcceptServes(env: Env, s: Session, first: Corpus, corpus: Corpus, operation: string, sequence: nat, request: Request,
                     raw: seq<byte>, accepts: bool)
    requires CorpusOk(env, corpus) && corpus.scope == s.binding.scope
    requires Serves(env, corpus, s.binding) && AddedBy(env, s, first, corpus)
    ensures var o := Accept(env, s, corpus, operation, sequence, request, raw, accepts);
            && Serves(env, o.corpus, s.binding) && AddedBy(env, s, first, o.corpus) && |o.session.records| == |s.records| + 1
            && FitsRecord(env, o.corpus, o.session.records[|s.records|]) && Identified(env, o.session.records[|s.records|])
  {
    hide ChainError, ProducerError, AdmitEntry, ValidResponse, Deliver, Alive, AddedBy;
    var checked := CheckSource(env, s, corpus, operation, request, raw);
    if checked.Ok? {
      var record := SourceRecord(env, s, operation, sequence, request, raw);
      var id := record.source.value.entryId;
      var admitted := AdmitEntry(env, corpus, id, HeldBy(s, raw), s.now, accepts);
      AdmitServes(env, s, first, corpus, id, raw, accepts);
      AdmitScope(env, corpus, id, HeldBy(s, raw), s.now, accepts);
      if admitted.Some? {
        AdmitGrows(env, corpus, id, HeldBy(s, raw), s.now, accepts);
        DeliverKeepsSource(env, s, record, checked.value);
        assert id == env.entryId(NewRecord(s, operation, sequence, request));
      }
    }
  }

  lemma DeliverKeepsSource(env: Env, s: Session, record: Record, response: Response)
    ensures var d := Deliver(env, s, record, response); d.Ok? ==> d.value.record == record.(viewSha := d.value.record.viewSha)
  {
  }

  lemma QueryServes(env: Env, s: Session, first: Corpus, corpus: Corpus, operation: string, request: Option<Request>, port: PortReply)
    requires CorpusOk(env, corpus) && corpus.scope == s.binding.scope
    requires Serves(env, corpus, s.binding) && AddedBy(env, s, first, corpus)
    requires AllFit(env, corpus, s.records) && AllIdentified(env, s.records)
    ensures var o := QueryPort(env, s, corpus, operation, request, port);
            && Serves(env, o.corpus, s.binding) && AddedBy(env, s, first, o.corpus)
            && AllFit(env, o.corpus, o.session.records) && AllIdentified(env, o.session.records)
  {
    hide CheckSource, AdmitEntry, Deliver, Serves, AddedBy, FitsRecord, Identified, AdmitError, Admitted, Answered;
    var o := QueryPort(env, s, corpus, operation, request, port);
    DispatchedMeans(env, s, corpus, operation, request, port);
    FitStays(env, corpus, o.corpus, s.records);
    if o.dispatched {
      var sent := request.value.(correlation := port.correlation.value);
      var last := o.session.records[|s.records|];
      if port.reply.Ok? {
        AcceptServes(env, s, first, corpus, operation, PageSequence(s, operation, sent.query).value, sent, port.reply.value, port.accepts);
      } else {
        SourcelessFits(env, o.corpus, last);
      }
      assert o.session.records == s.records + [last];
    }
  }

  lemma SourcelessFits(env: Env, corpus: Corpus, record: Record)
    requires record.source == None
    ensures FitsRecord(env, corpus, record) && Identified(env, record)
  {
  }

  lemma {:induction false} LiveServes(env: Env, legal: Legal, agent: Agent, port: Port, s: Session, first: Corpus, corpus: Corpus,
                                      inputs: seq<Input>, feedback: Feedback, turns: nat)
    requires CorpusOk(env, corpus) && corpus.scope == s.binding.scope
    requires Serves(env, corpus, s.binding) && AddedBy(env, s, first, corpus)
    requires AllFit(env, corpus, s.records) && AllIdentified(env, s.records)
    ensures var e := LiveFrom(env, legal, agent, port, s, corpus, inputs, feedback, turns);
            AddedBy(env, s, first, e.corpus) && AllFit(env, e.corpus, e.session.records) && AllIdentified(env, e.session.records)
    decreases turns
  {
    hide QueryPort, CorpusOk, Later, ReadFeedback, QueryFeedback, Recorded, Admitted, AllFit, AllIdentified, Serves, AddedBy;
    if turns > 0 && !Stale(s.binding, legal) {
      var shown := inputs + [Input(s.binding, feedback, turns - 1, s.budget)];
      match agent(shown) {
        case Ok(QueryTurn(operation, request)) =>
          var o := QueryPort(env, s, corpus, operation, request, port(|inputs|));
          DispatchedMeans(env, s, corpus, operation, request, port(|inputs|));
          LaterScope(corpus, o.corpus);
          QueryServes(env, s, first, corpus, operation, request, port(|inputs|));
          AddedBySame(env, s, o.session, first, o.corpus);
          LiveServes(env, legal, agent, port, o.session, first, o.corpus, shown, QueryFeedback(o), turns - 1);
          var e := LiveFrom(env, legal, agent, port, o.session, o.corpus, shown, QueryFeedback(o), turns - 1);
          AddedBySame(env, o.session, s, first, e.corpus);
        case Ok(ReadTurn(ordinal, offset)) =>
          LiveServes(env, legal, agent, port, s, first, corpus, shown, ReadFeedback(env, s, corpus, ordinal, offset), turns - 1);
        case _ =>
      }
    }
  }

  lemma AddedBySame(env: Env, s: Session, t: Session, first: Corpus, corpus: Corpus)
    requires AddedBy(env, s, first, corpus) && SameRun(s, t)
    ensures AddedBy(env, t, first, corpus)
  {
    hide Alive;
  }

  // ---------- Main results ----------

  /**
   Replaying what a clean live run recorded, from cursor zero, in the corpus it left and on any clock: the
   agent is shown the same inputs exactly when no source whose answer it was shown has expired. Then the
   result is the same too and one record is consumed a query; otherwise the first expired answer is replaced
   by a missing retention.
   */
  lemma ReplaySimulatesLive(env: Env, legal: Legal, agent: Agent, port: Port, s: Session, corpus: Corpus, maxTurns: nat, r: Session)
    requires s.records == [] && s.binding.scope == corpus.scope && CorpusOk(env, corpus) && Serves(env, corpus, s.binding)
    requires Clean(env, legal, agent, port, s, corpus, [], Start, maxTurns)
    requires SameView(s, r) && r.records == Live(env, legal, agent, port, s, corpus, maxTurns).session.records && r.replayCursor == 0
    ensures var live := Live(env, legal, agent, port, s, corpus, maxTurns);
            var again := Replayed(env, legal, agent, r, live.corpus, maxTurns);
            var alive := AliveUpTo(env, live.corpus, r.now, live.session.records, ShownRecords(agent, live));
            && (again.inputs == live.inputs <==> alive)
            && (alive ==> again == End(r.(replayCursor := QueryTurns(agent, live.inputs)), live.corpus, live.result, live.inputs))
            && (!alive ==> exists k :: FirstExpired(env, agent, live, r.now, k) && Diverges(live, again, k))
  {
    if 0 < maxTurns <= MAX_TURNS {
      NothingYet(env, s, corpus);
      LiveServes(env, legal, agent, port, s, corpus, corpus, [], Start, maxTurns);
      LiveCounts(env, legal, agent, port, s, corpus, [], Start, maxTurns);
      assert AliveUpTo(env, LiveFrom(env, legal, agent, port, s, corpus, [], Start, maxTurns).corpus, r.now, r.records, 0);
      Simulates(env, legal, agent, port, s, corpus, [], Start, maxTurns, r);
      hide LiveFrom, ReplayFrom, Clean, AliveUpTo, FirstExpired;
      var live := Live(env, legal, agent, port, s, corpus, maxTurns);
      var again := Replayed(env, legal, agent, r, live.corpus, maxTurns);
      if k :| Diverges(live, again, k) {
        DivergedInputs(live, again, k);
      }
    }
  }

  lemma DivergedInputs(live: End, again: End, k: nat)
    requires Diverges(live, again, k)
    ensures again.inputs != live.inputs
  {
    var i :| DivergesAfter(live, again, k, i);
  }

  lemma NothingYet(env: Env, s: Session, corpus: Corpus)
    requires s.records == []
    ensures AddedBy(env, s, corpus, corpus) && AllFit(env, corpus, s.records) && AllIdentified(env, s.records)
  {
  }

  /** The corpus holds nothing yet under an identifier of this binding's records. */
  ghost predicate Unused(env: Env, corpus: Corpus, binding: Binding) {
    forall r, record: Record :: r in corpus.entries && record.binding == binding ==> r.entryId != env.entryId(record)
  }

  /** Some answer of the run was shown to the agent. */
  ghost predicate ShowsAnswer(agent: Agent, live: End) {
    exists k :: 0 <= k < ShownRecords(agent, live) && k < |live.session.records| && live.session.records[k].source.Some?
  }

  /** Over a corpus without earlier entries of these records, two timestamps decide: the replay's clock and the session's expiry. */
  lemma ReplayUntilExpiry(env: Env, legal: Legal, agent: Agent, port: Port, s: Session, corpus: Corpus, maxTurns: nat, r: Session)
    requires s.records == [] && s.binding.scope == corpus.scope && CorpusOk(env, corpus) && Unused(env, corpus, s.binding)
    requires Clean(env, legal, agent, port, s, corpus, [], Start, maxTurns)
    requires SameView(s, r) && r.records == Live(env, legal, agent, port, s, corpus, maxTurns).session.records && r.replayCursor == 0
    ensures var live := Live(env, legal, agent, port, s, corpus, maxTurns);
            var again := Replayed(env, legal, agent, r, live.corpus, maxTurns);
            again.inputs == live.inputs <==>
            (ShowsAnswer(agent, live) ==> env.validTimestamp(r.now) && Before(r.now, s.expiresAt))
  {
    assert Serves(env, corpus, s.binding);
    ReplaySimulatesLive(env, legal, agent, port, s, corpus, maxTurns, r);
    var live := Live(env, legal, agent, port, s, corpus, maxTurns);
    SourcesExpireTogether(env, legal, agent, port, s, corpus, maxTurns);
    hide Live, Replayed, Clean, Before, Serves, Unused;
    forall k | 0 <= k < ShownRecords(agent, live) && k < |live.session.records|
      ensures AliveRecord(env, live.corpus, r.now, live.session.records[k]) <==>
              (live.session.records[k].source.Some? ==> env.validTimestamp(r.now) && Before(r.now, s.expiresAt))
    {
      assert live.session.records[k] in live.session.records;
    }
  }

  /** Every source of such a run expires at the session's expiry, which is later than its clock. */
  lemma SourcesExpireTogether(env: Env, legal: Legal, agent: Agent, port: Port, s: Session, corpus: Corpus, maxTurns: nat)
    requires s.records == [] && s.binding.scope == corpus.scope && CorpusOk(env, corpus) && Unused(env, corpus, s.binding)
    ensures var live := Live(env, legal, agent, port, s, corpus, maxTurns);
            forall record :: record in live.session.records && record.source.Some? ==>
              record.source.value in live.corpus.entries && AdmittedBy(env, s, live.corpus.entries[record.source.value])
  {
    assert Serves(env, corpus, s.binding);
    if 0 < maxTurns <= MAX_TURNS {
      NothingYet(env, s, corpus);
      LiveServes(env, legal, agent, port, s, corpus, corpus, [], Start, maxTurns);
      LiveBindings(env, legal, agent, port, s, corpus, [], Start, maxTurns);
      hide LiveFrom, Serves, AdmittedBy;
      var live := Live(env, legal, agent, port, s, corpus, maxTurns);
      forall record | record in live.session.records && record.source.Some?
        ensures record.source.value in live.corpus.entries && AdmittedBy(env, s, live.corpus.entries[record.source.value])
      {
        assert FitsRecord(env, live.corpus, record) && Identified(env, record);
        var named: Record :| named.binding == record.binding && record.source.value.entryId == env.entryId(named);
        assert record.source.value !in corpus.entries;
      }
    }
  }

  lemma {:induction false} LiveBindings(env: Env, legal: Legal, agent: Agent, port: Port, s: Session, corpus: Corpus,
                                        inputs: seq<Input>, feedback: Feedback, turns: nat)
    requires CorpusOk(env, corpus) && forall r :: r in s.records ==> r.binding == s.binding
    ensures forall r :: r in LiveFrom(env, legal, agent, port, s, corpus, inputs, feedback, turns).session.records ==> r.binding == s.binding
    decreases turns
  {
    hide QueryPort, CorpusOk, Later, ReadFeedback, QueryFeedback, Admitted, Answered;
    if turns > 0 && !Stale(s.binding, legal) {
      var shown := inputs + [Input(s.binding, feedback, turns - 1, s.budget)];
      match agent(shown) {
        case Ok(QueryTurn(operation, request)) =>
          var o := QueryPort(env, s, corpus, operation, request, port(|inputs|));
          DispatchedMeans(env, s, corpus, operation, request, port(|inputs|));
          if o.dispatched {
            assert o.session.records == s.records + [o.session.records[|s.records|]];
          }
          LiveBindings(env, legal, agent, port, o.session, o.corpus, shown, QueryFeedback(o), turns - 1);
        case Ok(ReadTurn(ordinal, offset)) =>
          LiveBindings(env, legal, agent, port, s, corpus, shown, ReadFeedback(env, s, corpus, ordinal, offset), turns - 1);
        case _ =>
      }
    }
  }

  // ---------- A query that was never dispatched ----------

  /** The record at `i` is not one of this query: there is none, or it names another operation or query. */
  predicate Unmatched(records: seq<Record>, i: nat, operation: string, request: Option<Request>) {
    |records| <= i || request.None? || records[i].operationId != operation || records[i].request.query != request.value.query
  }

  /** A run that is clean up to a query that was refused before dispatch and that the next record does not stand for. */
  ghost predicate Refused(env: Env, legal: Legal, agent: Agent, port: Port, s: Session, corpus: Corpus,
                          inputs: seq<Input>, feedback: Feedback, turns: nat, records: seq<Record>)
    decreases turns
  {
    && turns > 0 && !Stale(s.binding, legal)
    && var shown := inputs + [Input(s.binding, feedback, turns - 1, s.budget)];
       match agent(shown)
       case Err(_) => false
       case Ok(Decide(_)) => false
       case Ok(QueryTurn(operation, request)) =>
         var o := QueryPort(env, s, corpus, operation, request, port(|inputs|));
         if o.dispatched then
           CleanOutcome(o) && Refused(env, legal, agent, port, o.session, o.corpus, shown, QueryFeedback(o), turns - 1, records)
         else Unmatched(records, |s.records|, operation, request)
       case Ok(ReadTurn(ordinal, offset)) =>
         var next := ReadFeedback(env, s, corpus, ordinal, offset);
         next.Bytes? && Refused(env, legal, agent, port, s, corpus, shown, next, turns - 1, records)
  }

  /** Such a query left no record, so its replay ends there: with a divergence, or as invalid if the request is malformed. */
  lemma {:induction false} RefusedQueryEndsReplay(env: Env, legal: Legal, agent: Agent, port: Port, s: Session, corpus: Corpus,
                                                  inputs: seq<Input>, feedback: Feedback, turns: nat, r: Session)
    requires CorpusOk(env, corpus) && corpus.scope == s.binding.scope
    requires var e := LiveFrom(env, legal, agent, port, s, corpus, inputs, feedback, turns);
             && Refused(env, legal, agent, port, s, corpus, inputs, feedback, turns, e.session.records)
             && SameView(s, r) && r.records == e.session.records && r.replayCursor == |s.records|
             && AllFit(env, e.corpus, r.records) && AliveUpTo(env, e.corpus, r.now, r.records, |r.records|)
    ensures var e := LiveFrom(env, legal, agent, port, s, corpus, inputs, feedback, turns);
            var again := ReplayFrom(env, legal, agent, r, e.corpus, inputs, feedback, turns);
            again.result in {Err(Divergence), Err(Invalid)} && inputs < again.inputs <= e.inputs
    decreases turns
  {
    hide QueryPort, CorpusOk, Later, ReadFeedback, QueryFeedback, Answered, Admitted, ReplayRead, AllFit, CleanOutcome,
         FitsRecord, AliveRecord, Replay;
    var e := LiveFrom(env, legal, agent, port, s, corpus, inputs, feedback, turns);
    LiveGrows(env, legal, agent, port, s, corpus, inputs, feedback, turns);
    LaterScope(corpus, e.corpus);
    LiveShows(env, legal, agent, port, s, corpus, inputs, feedback, turns);
    var shown := inputs + [Input(s.binding, feedback, turns - 1, s.budget)];
    match agent(shown) {
      case Ok(QueryTurn(operation, request)) =>
        var o := QueryPort(env, s, corpus, operation, request, port(|inputs|));
        if o.dispatched {
          DispatchedMeans(env, s, corpus, operation, request, port(|inputs|));
          LaterScope(corpus, o.corpus);
          LiveGrows(env, legal, agent, port, o.session, o.corpus, shown, QueryFeedback(o), turns - 1);
          ReplayQuerySame(env, s, r, corpus, e.corpus, operation, request, port(|inputs|));
          var next := r.(replayCursor := |s.records| + 1);
          assert r.records[|s.records|] == o.session.records[|s.records|];
          assert ReplayQuery(env, r, e.corpus, operation, request) == (next, Ok(QueryFeedback(o)));
          hide ReplayQuery;
          RefusedQueryEndsReplay(env, legal, agent, port, o.session, o.corpus, shown, QueryFeedback(o), turns - 1, next);
        }
      case Ok(ReadTurn(ordinal, offset)) =>
        ReplayReadSame(env, s, r, corpus, e.corpus, ordinal, offset);
        RefusedQueryEndsReplay(env, legal, agent, port, s, corpus, shown, ReadFeedback(env, s, corpus, ordinal, offset), turns - 1, r);
    }
  }

  lemma {:induction false} LiveShows(env: Env, legal: Legal, agent: Agent, port: Port, s: Session, corpus: Corpus,
                                     inputs: seq<Input>, feedback: Feedback, turns: nat)
    ensures var e := LiveFrom(env, legal, agent, port, s, corpus, inputs, feedback, turns);
            && inputs <= e.inputs
            && (turns > 0 && !Stale(s.binding, legal) ==> inputs + [Input(s.binding, feedback, turns - 1, s.budget)] <= e.inputs)
    decreases turns
  {
    hide QueryPort, ReadFeedback, QueryFeedback;
    if turns > 0 && !Stale(s.binding, legal) {
      var shown := inputs + [Input(s.binding, feedback, turns - 1, s.budget)];
      match agent(shown) {
        case Ok(QueryTurn(operation, request)) =>
          var o := QueryPort(env, s, corpus, operation, request, port(|inputs|));
          LiveShows(env, legal, agent, port, o.session, o.corpus, shown, QueryFeedback(o), turns - 1);
        case Ok(ReadTurn(ordinal, offset)) =>
          LiveShows(env, legal, agent, port, s, corpus, shown, ReadFeedback(env, s, corpus, ordinal, offset), turns - 1);
        case _ =>
      }
    }
  }

  // ---------- One answer ----------

  /** An accepted answer, replayed in any later corpus on any clock: its delivery until the entry that holds it expires. */
  lemma AnswerReplaysIffAlive(env: Env, s: Session, r: Session, corpus: Corpus, later: Corpus, operation: string,
                              request: Option<Request>, port: PortReply)
    requires CorpusOk(env, corpus) && corpus.scope == s.binding.scope && SameView(s, r)
    requires QueryPort(env, s, corpus, operation, request, port).result.Ok?
    requires Later(QueryPort(env, s, corpus, operation, request, port).corpus, later)
    ensures var o := QueryPort(env, s, corpus, operation, request, port);
            var record := o.result.value.record;
            && record.source.Some? && record.source.value in o.corpus.entries && record.source.value in later.entries
            && (Fits(o.corpus.entries[record.source.value], s.binding) ==>
                  Replay(env, r, later, record, record.request)
                  == if Alive(env, o.corpus.entries[record.source.value], r.now) then Ok(o.result.value) else Err(MissingRetention))
            && (record.source.value !in corpus.entries ==>
                  && Fits(o.corpus.entries[record.source.value], s.binding)
                  && AdmittedBy(env, s, o.corpus.entries[record.source.value]))
  {
    var o := QueryPort(env, s, corpus, operation, request, port);
    DispatchedMeans(env, s, corpus, operation, request, port);
    AcceptedIsDispatched(env, s, corpus, operation, request, port);
    FreshIsAdmitted(env, s, corpus, operation, request, port);
    hide QueryPort, CorpusOk, Alive, Admitted;
    var record := o.result.value.record;
    if Fits(o.corpus.entries[record.source.value], s.binding) {
      ReplayOfAnswer(env, s, r, o.corpus, later, record, o.result.value);
    }
  }

  lemma AcceptedIsDispatched(env: Env, s: Session, corpus: Corpus, operation: string, request: Option<Request>, port: PortReply)
    requires QueryPort(env, s, corpus, operation, request, port).result.Ok?
    ensures QueryPort(env, s, corpus, operation, request, port).dispatched
  {
    hide AcceptSource;
  }

  lemma FreshIsAdmitted(env: Env, s: Session, corpus: Corpus, operation: string, request: Option<Request>, port: PortReply)
    requires CorpusOk(env, corpus)
    ensures var o := QueryPort(env, s, corpus, operation, request, port);
            forall r :: r in o.corpus.entries && r !in corpus.entries ==>
              Fits(o.corpus.entries[r], s.binding) && AdmittedBy(env, s, o.corpus.entries[r])
  {
    hide ChainError, AdmitError, PageSequence, ValidResponse, ProducerError, Deliver;
  }

  // ---------- An answer over an expired duplicate ----------

  function Day(d: char): string {
    "2026-01-0" + [d] + "T00:00:00Z"
  }

  lemma {:induction false} EarlierChar(p: string, x: char, y: char, a: string, b: string)
    requires x < y && y as int < 0x80 && forall c :: c in p ==> c as int < 0x80
    ensures Before(p + [x] + a, p + [y] + b)
  {
    if p == "" {
      assert p + [x] + a == [x] + a && p + [y] + b == [y] + b;
      assert ([x] + a)[0] == x && ([y] + b)[0] == y;
    } else {
      assert p[0] in p && forall c :: c in p[1..] ==> c in p;
      EarlierChar(p[1..], x, y, a, b);
      assert (p + [x] + a)[1..] == p[1..] + [x] + a && (p + [y] + b)[1..] == p[1..] + [y] + b;
      assert (p + [x] + a)[0] == p[0] && (p + [y] + b)[0] == p[0];
      var u, v := Utf8(p[1..] + [x] + a), Utf8(p[1..] + [y] + b);
      assert Utf8(p + [x] + a) == [p[0] as int] + u && Utf8(p + [y] + b) == [p[0] as int] + v;
      assert ([p[0] as int] + v)[1..] == v && ([p[0] as int] + u)[1..] == u;
    }
  }

  lemma Days(x: char, y: char)
    requires x < y && y as int < 0x80
    ensures Before(Day(x), Day(y)) && !Before(Day(y), Day(x))
  {
    EarlierChar("2026-01-0", x, y, "T00:00:00Z", "T00:00:00Z");
    LexTotal(Utf8(Day(x)), Utf8(Day(y)));
  }

  const SCOPE := MemoryScope("run", "")
  const OWNER := Binding(SCOPE, "profile", "manifest", "en", 0, None)
  const ASKED := Request("c", Query(None, None, "manifest", "en", ""))
  const EMPTY_PAGE := Page([], Ordering("definition_ref", true, "identity_bytes"), None, false, "partial", true, None)
  const RAW: seq<byte> := [123, 125]

  function ExampleEnv(): Env {
    Env(request => true, (request, response) => true, raw => Some(Answer("c", ASKED.query, EMPTY_PAGE, "")), request => true,
        (caps, request) => None, caps => Some(MAX_SOURCE_BYTES), caps => 128, (caps, page) => true, raw => "sha", record => "entry",
        time => |time| == 20, view => 1, view => "view", scope => true)
  }

  /** A session of the second day over a corpus that holds the same answer from a session that expired on the first. */
  function ExampleSession(): Session {
    Session(OWNER, Some("caps"), [], map[], 7000, 0, Day('2'), Day('3'))
  }

  function ExampleCorpus(): Corpus {
    Corpus(SCOPE, map[Ref("entry", "sha") := Held(RAW, SCOPE, "profile", BRANCH, false, Day('1'))])
  }

  function ExampleAnswer(): Response {
    Answer("c", ASKED.query, EMPTY_PAGE, "")
  }

  lemma ExampleIsAdmitted()
    ensures AdmitError(ExampleEnv(), ExampleSession(), ExampleCorpus(), OWNER, "op", ASKED) == None
    ensures PageSequence(ExampleSession(), "op", ASKED.query) == Ok(0)
  {
    hide Day;
  }

  lemma ExampleIsValid()
    ensures CheckSource(ExampleEnv(), ExampleSession(), ExampleCorpus(), "op", ASKED, RAW) == Ok(ExampleAnswer())
  {
    hide Day, AdmitEntry;
    assert EMPTY_PAGE.items + EMPTY_PAGE.items == EMPTY_PAGE.items;
    assert ListingError(EMPTY_PAGE.items, EMPTY_PAGE) == None;
    hide ListingError;
    assert ChainError(ExampleEnv(), ExampleCorpus(), ExampleSession().now, [], "op", None, EMPTY_PAGE) == None;
    hide ChainError;
    assert ValidResponse(ExampleEnv(), ASKED, ExampleAnswer());
    hide ValidResponse;
  }

  lemma ExampleIsDuplicate()
    ensures AdmitEntry(ExampleEnv(), ExampleCorpus(), "entry", HeldBy(ExampleSession(), RAW), Day('2'), true) == Some(ExampleCorpus())
  {
    ExampleIsTimely();
    hide ValidEntry, Day;
    assert Ref("entry", "sha") in ExampleCorpus().entries;
  }

  lemma ExampleIsTimely()
    ensures ValidEntry(ExampleEnv(), HeldBy(ExampleSession(), RAW), Day('2'))
  {
    Days('2', '3');
    hide Before;
    assert |Day('2')| == 20 && |Day('3')| == 20;
    hide Day;
  }

  lemma ExampleIsAccepted()
    ensures var o := QueryPort(ExampleEnv(), ExampleSession(), ExampleCorpus(), "op", Some(ASKED), PortReply(Ok("c"), Ok(RAW), true));
            o.result.Ok? && o.corpus == ExampleCorpus() && o.result.value.record.source == Some(Ref("entry", "sha"))
  {
    ExampleIsAdmitted();
    ExampleIsValid();
    ExampleIsDuplicate();
    hide CheckSource, AdmitEntry, AdmitError, PageSequence, Day;
    assert AcceptSource(ExampleEnv(), ExampleSession(), ExampleCorpus(), "op", 0, ASKED, RAW, true).1.Ok?;
  }

  lemma ExampleServes()
    ensures CorpusOk(ExampleEnv(), ExampleCorpus()) && Serves(ExampleEnv(), ExampleCorpus(), OWNER)
    ensures Fits(ExampleCorpus().entries[Ref("entry", "sha")], OWNER)
    ensures !Alive(ExampleEnv(), ExampleCorpus().entries[Ref("entry", "sha")], Day('2'))
  {
    Days('1', '2');
    hide Day, Before;
  }

  /**
   A live answer can be shown that even its own session cannot replay: the corpus accepts the same content
   again and keeps the expiry of the entry it already holds.
   */
  lemma DuplicateOverExpired()
    ensures var env, s, corpus := ExampleEnv(), ExampleSession(), ExampleCorpus();
            var o := QueryPort(env, s, corpus, "op", Some(ASKED), PortReply(Ok("c"), Ok(RAW), true));
            && CorpusOk(env, corpus) && Serves(env, corpus, s.binding) && s.binding.scope == corpus.scope
            && o.result.Ok? && Before(s.now, s.expiresAt)
            && Replay(env, o.session, o.corpus, o.result.value.record, o.result.value.record.request) == Err(MissingRetention)
  {
    var env, s, corpus := ExampleEnv(), ExampleSession(), ExampleCorpus();
    var port := PortReply(Ok("c"), Ok(RAW), true);
    var o := QueryPort(env, s, corpus, "op", Some(ASKED), port);
    ExampleIsAccepted();
    ExampleServes();
    Days('2', '3');
    hide QueryPort, Day, Before, ExampleEnv, CorpusOk, Serves, Replay, Alive;
    DispatchedMeans(env, s, corpus, "op", Some(ASKED), port);
    LaterItself(o.corpus);
    AnswerReplaysIffAlive(env, s, o.session, corpus, o.corpus, "op", Some(ASKED), port);
  }
}
