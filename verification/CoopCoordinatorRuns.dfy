/** What holds of the coordinator after every run of calls on parsed envelopes. */
module CoopCoordinatorRuns {
  import opened Outcomes
  import opened CoopWire
  import opened CoopCoordinator

  // ---------- What a log says ----------

  /** The state in the last record of an operation. */
  ghost function LastState(records: seq<Record>, op: string): Option<OperationState> {
    if records == [] then None
    else
      var n := |records| - 1;
      if records[n].operationId == Some(op) then records[n].state else LastState(records[..n], op)
  }

  predicate IsNew(r: Record) {
    r.event != DuplicateReplay
  }

  /** The envelopes of the records that are not duplicate replays, in order. */
  ghost function NewEnvelopes(records: seq<Record>): seq<Envelope> {
    if records == [] then []
    else
      var n := |records| - 1;
      NewEnvelopes(records[..n]) + if IsNew(records[n]) then [records[n].envelope] else []
  }

  lemma LastStateSnoc(records: seq<Record>, r: Record, op: string)
    ensures LastState(records + [r], op) == if r.operationId == Some(op) then r.state else LastState(records, op)
  {
    assert (records + [r])[..|records|] == records;
  }

  lemma NewEnvelopesSnoc(records: seq<Record>, r: Record)
    ensures NewEnvelopes(records + [r]) == NewEnvelopes(records) + if IsNew(r) then [r.envelope] else []
  {
    assert (records + [r])[..|records|] == records;
  }

  /** The only moves of an operation. */
  predicate Follows(before: Option<OperationState>, after: OperationState) {
    match before
    case None => after == OpRequested
    case Some(OpRequested) => after in {OpAccepted, OpSettled, OpRejected, OpUnknown}
    case Some(OpAccepted) => after in {OpAccepted, OpSettled, OpRejected, OpUnknown}
    case Some(OpUnknown) => after in {OpUnknown, OpReconciled}
    case Some(_) => false
  }

  predicate Terminal(s: OperationState) {
    s == OpSettled || s == OpRejected || s == OpReconciled
  }

  /** A replay repeats the state it finds; any other record of an operation is a legal move. */
  ghost predicate LegalAfter(records: seq<Record>, r: Record) {
    r.operationId.Some? ==>
      var before := LastState(records, r.operationId.value);
      if IsNew(r) then r.state.Some? && Follows(before, r.state.value) else r.state == before
  }

  ghost predicate LegalLog(records: seq<Record>) {
    forall i :: 0 <= i < |records| ==> LegalAfter(records[..i], records[i])
  }

  // ---------- The invariants ----------

  ghost predicate Numbered(cfg: Config, st: State) {
    && |st.records| <= MAX_LOG
    && forall i :: 0 <= i < |st.records| ==>
         var r := st.records[i];
         && r.sequence == i && r.header == r.envelope.header && r.operationId == OperationOf(r.envelope)
         && r.digest == cfg.digest(r.envelope)
  }

  /** The seen digests are those of the new records, each at its own index. */
  ghost predicate SeenIsLog(st: State) {
    && (forall d :: d in st.seen ==>
          st.seen[d] < |st.records| && st.records[st.seen[d]].digest == d && IsNew(st.records[st.seen[d]]))
    && (forall i :: 0 <= i < |st.records| && IsNew(st.records[i]) ==>
          st.records[i].digest in st.seen && st.seen[st.records[i].digest] == i)
    && (forall i :: 0 <= i < |st.records| ==> st.records[i].digest in st.seen)
  }

  ghost predicate TableIsLog(st: State) {
    forall op :: StateOf(st, op) == LastState(st.records, op)
  }

  function AttributionOf(e: Envelope): Option<Attribution> {
    if ActorOf(e).Some? then Some(Attribution(GenerationOf(e), ActorOf(e).value, e.header)) else None
  }

  /** Every entry carries the digest and the fences of a recorded request of its own operation. */
  ghost predicate Anchored(st: State) {
    forall op :: op in st.operations ==> AnchoredEntry(st, op, st.operations[op])
  }

  ghost predicate AnchoredEntry(st: State, op: string, entry: Entry) {
    && entry.digest in st.seen && st.seen[entry.digest] < |st.records|
    && var q := st.records[st.seen[entry.digest]];
       q.operationId == Some(op) && IsRequest(q.envelope) && AttributionOf(q.envelope) == Some(entry.attribution)
  }

  /** What a new record of an operation owes to the operation's request. */
  ghost predicate Attributed(r: Record, a: Attribution) {
    && SameFence(r.header, a.route)
    && a.expectedGeneration.Some?
    && (ReceiptOf(r.envelope).Some? ==> ReceiptOf(r.envelope).value.beforeGeneration == a.expectedGeneration.value)
    && (ObservationOf(r.envelope).Some? ==> LocalPeer(ObservationOf(r.envelope).value.peers) == Some(a.actor))
    && (r.envelope.body.EffectResponse? && r.envelope.body.status == Settled ==>
          r.envelope.body.seen.hostGeneration > a.expectedGeneration.value)
  }

  ghost predicate AllAttributed(st: State) {
    forall i :: 0 <= i < |st.records| && IsNew(st.records[i]) && st.records[i].operationId.Some? ==>
      st.records[i].operationId.value in st.operations
      && Attributed(st.records[i], st.operations[st.records[i].operationId.value].attribution)
  }

  /** The new records were delivered in order; a delivery that is not recorded happened at a full log. */
  ghost predicate DeliveriesAreLog(st: State) {
    && NewEnvelopes(st.records) <= st.delivered
    && (|st.delivered| > |NewEnvelopes(st.records)| ==> |st.records| == MAX_LOG)
  }

  ghost predicate Inv(cfg: Config, st: State) {
    && Numbered(cfg, st) && SeenIsLog(st) && TableIsLog(st) && Anchored(st) && AllAttributed(st)
    && LegalLog(st.records) && DeliveriesAreLog(st)
  }

  // ---------- The four kinds of step ----------

  ghost predicate Replays(cfg: Config, st: State, e: Envelope, st': State) {
    && cfg.digest(e) in st.seen && |st.records| < MAX_LOG
    && st' == Append(st, RecordFor(st, e, cfg.digest(e), DuplicateReplay, EntryState(EntryOf(st, e))))
  }

  ghost predicate Overflows(cfg: Config, st: State, e: Envelope, st': State) {
    && cfg.digest(e) !in st.seen && |st.records| >= MAX_LOG
    && st' == st.(delivered := st.delivered + [e])
  }

  ghost predicate Commits(cfg: Config, st: State, e: Envelope, st': State, event: EventKind, next: Option<OperationState>) {
    && cfg.digest(e) !in st.seen && |st.records| < MAX_LOG
    && RouteError(cfg, e, EntryOf(st, e)) == None
    && Admit(e, EntryOf(st, e), cfg.digest(e)) == Ok((event, next))
    && st' == Commit(st.(delivered := st.delivered + [e]), e, cfg.digest(e), event, next).0
  }

  lemma StepKinds(cfg: Config, st: State, e: Envelope, port: Result<(), PortError>)
    ensures var (st', r) := ConsumeInner(cfg, st, e, port);
            || st' == st
            || Replays(cfg, st, e, st')
            || Overflows(cfg, st, e, st')
            || exists event, next :: Commits(cfg, st, e, st', event, next)
  {
    hide Admit, RouteError;
    var (st', r) := ConsumeInner(cfg, st, e, port);
    var admitted := Admit(e, EntryOf(st, e), cfg.digest(e));
    if st' != st && !Replays(cfg, st, e, st') && !Overflows(cfg, st, e, st') {
      assert Commits(cfg, st, e, st', admitted.value.0, admitted.value.1);
    }
  }

  /** What a committed step does, without the error paths that it cannot take. */
  lemma CommitEffect(cfg: Config, st: State, e: Envelope, st': State, event: EventKind, next: Option<OperationState>)
    requires Commits(cfg, st, e, st', event, next)
    ensures st'.records == st.records + [RecordFor(st, e, cfg.digest(e), event, next)] && event != DuplicateReplay
    ensures st'.seen == st.seen[cfg.digest(e) := |st.records|] && st'.delivered == st.delivered + [e]
    ensures OperationOf(e).None? ==> st'.operations == st.operations && next == None
    ensures OperationOf(e).Some? && !(IsRequest(e) && EntryOf(st, e).Some?) ==>
            next.Some? && Follows(EntryState(EntryOf(st, e)), next.value)
    ensures OperationOf(e).Some? && EntryOf(st, e).Some? ==>
            next.Some? && st'.operations == st.operations[OperationOf(e).value := EntryOf(st, e).value.(state := next.value)]
    ensures OperationOf(e).Some? && EntryOf(st, e).None? ==>
            && IsRequest(e) && next == Some(OpRequested) && AttributionOf(e).Some?
            && st'.operations
               == st.operations[OperationOf(e).value := Entry(OpRequested, cfg.digest(e), AttributionOf(e).value)]
  {
    hide RouteError, PeerMatches, FencedGeneration;
  }

  /** A request of a known operation is never committed: its digest would have to be new and seen. */
  lemma KnownOperationCommitsResponses(cfg: Config, st: State, e: Envelope, st': State, event: EventKind, next: Option<OperationState>)
    requires Anchored(st) && Commits(cfg, st, e, st', event, next) && EntryOf(st, e).Some?
    ensures !IsRequest(e)
  {
    hide RouteError, PeerMatches, FencedGeneration, Classify;
    assert EntryOf(st, e).value.digest in st.seen;
  }

  // ---------- Every step keeps the invariants ----------

  lemma {:induction false} LegalLogSnoc(records: seq<Record>, r: Record)
    requires LegalLog(records) && LegalAfter(records, r)
    ensures LegalLog(records + [r])
  {
    var longer := records + [r];
    forall i | 0 <= i < |longer| ensures LegalAfter(longer[..i], longer[i]) {
      assert longer[..i] == records[..i];
      assert records[..|records|] == records;
    }
  }

  lemma TableSnoc(st: State, st': State, r: Record)
    requires TableIsLog(st) && st'.records == st.records + [r]
    requires forall op :: StateOf(st', op) == if r.operationId == Some(op) then r.state else StateOf(st, op)
    ensures TableIsLog(st')
  {
    forall op ensures StateOf(st', op) == LastState(st'.records, op) {
      LastStateSnoc(st.records, r, op);
    }
  }

  lemma DeliveriesSnoc(st: State, st': State, r: Record)
    requires DeliveriesAreLog(st) && st'.records == st.records + [r] && |st.records| < MAX_LOG
    requires st'.delivered == st.delivered + if IsNew(r) then [r.envelope] else []
    ensures DeliveriesAreLog(st')
  {
    NewEnvelopesSnoc(st.records, r);
    assert st.delivered == NewEnvelopes(st.records);
  }

  lemma ReplayKeeps(cfg: Config, st: State, e: Envelope, st': State)
    requires Inv(cfg, st) && Replays(cfg, st, e, st')
    ensures Inv(cfg, st')
  {
    hide LastState, NewEnvelopes, Attributed, LegalLog, LegalAfter, TableIsLog, DeliveriesAreLog, SeenIsLog, Numbered;
    var r := RecordFor(st, e, cfg.digest(e), DuplicateReplay, EntryState(EntryOf(st, e)));
    ReplayKeepsSeen(cfg, st, e, st');
    ReplayIsLegal(st, e, r);
    LegalLogSnoc(st.records, r);
    TableSnoc(st, st', r);
    DeliveriesSnoc(st, st', r);
  }

  lemma ReplayKeepsSeen(cfg: Config, st: State, e: Envelope, st': State)
    requires Numbered(cfg, st) && SeenIsLog(st) && Replays(cfg, st, e, st')
    ensures Numbered(cfg, st') && SeenIsLog(st')
  {
  }

  lemma ReplayIsLegal(st: State, e: Envelope, r: Record)
    requires TableIsLog(st) && r.operationId == OperationOf(e) && r.state == EntryState(EntryOf(st, e)) && !IsNew(r)
    ensures LegalAfter(st.records, r)
  {
    if r.operationId.Some? {
      assert StateOf(st, r.operationId.value) == LastState(st.records, r.operationId.value);
    }
  }

  lemma CommitIsLegal(cfg: Config, st: State, e: Envelope, st': State, event: EventKind, next: Option<OperationState>)
    requires TableIsLog(st) && Anchored(st) && Commits(cfg, st, e, st', event, next)
    ensures LegalAfter(st.records, RecordFor(st, e, cfg.digest(e), event, next))
  {
    CommitEffect(cfg, st, e, st', event, next);
    if EntryOf(st, e).Some? {
      KnownOperationCommitsResponses(cfg, st, e, st', event, next);
    }
    hide Commits, Follows, Anchored;
    if OperationOf(e).Some? {
      assert StateOf(st, OperationOf(e).value) == LastState(st.records, OperationOf(e).value);
    }
  }

  lemma CommitIsAttributed(cfg: Config, st: State, e: Envelope, st': State, event: EventKind, next: Option<OperationState>)
    requires Parses(e) && Anchored(st) && Commits(cfg, st, e, st', event, next) && OperationOf(e).Some?
    ensures OperationOf(e).value in st'.operations
    ensures Attributed(RecordFor(st, e, cfg.digest(e), event, next), st'.operations[OperationOf(e).value].attribution)
  {
    CommitEffect(cfg, st, e, st', event, next);
    hide Classify, LineageMatches, Follows;
    if EntryOf(st, e).Some? {
      KnownOperationCommitsResponses(cfg, st, e, st', event, next);
      var entry := EntryOf(st, e).value;
      assert AnchoredEntry(st, OperationOf(e).value, entry);
      assert entry.attribution.expectedGeneration.Some?;
    }
  }

  lemma CommitKeepsSeen(cfg: Config, st: State, e: Envelope, st': State, event: EventKind, next: Option<OperationState>)
    requires Numbered(cfg, st) && SeenIsLog(st) && Commits(cfg, st, e, st', event, next)
    ensures Numbered(cfg, st') && SeenIsLog(st')
  {
    CommitLogs(cfg, st, e, st', event, next);
    hide Commits, SeenIsLog;
    SeenSnoc(st, st', RecordFor(st, e, cfg.digest(e), event, next));
  }

  /** What a committed step does to the log and the seen digests. */
  lemma CommitLogs(cfg: Config, st: State, e: Envelope, st': State, event: EventKind, next: Option<OperationState>)
    requires Commits(cfg, st, e, st', event, next)
    ensures cfg.digest(e) !in st.seen && |st.records| < MAX_LOG && event != DuplicateReplay
    ensures st'.records == st.records + [RecordFor(st, e, cfg.digest(e), event, next)]
    ensures st'.seen == st.seen[cfg.digest(e) := |st.records|]
  {
    hide Follows, AttributionOf, IsRequest;
    CommitEffect(cfg, st, e, st', event, next);
  }

  lemma SeenSnoc(st: State, st': State, r: Record)
    requires SeenIsLog(st) && IsNew(r) && r.digest !in st.seen
    requires st'.records == st.records + [r] && st'.seen == st.seen[r.digest := |st.records|]
    ensures SeenIsLog(st')
  {
  }

  lemma CommitKeepsAnchors(cfg: Config, st: State, e: Envelope, st': State, event: EventKind, next: Option<OperationState>)
    requires SeenIsLog(st) && Anchored(st) && Commits(cfg, st, e, st', event, next)
    ensures Anchored(st')
  {
    CommitEffect(cfg, st, e, st', event, next);
    assert cfg.digest(e) !in st.seen;
    hide Commits, AttributionOf, IsRequest, Follows;
    forall op | op in st'.operations ensures AnchoredEntry(st', op, st'.operations[op]) {
      var entry := st'.operations[op];
      if op in st.operations {
        assert entry.digest == st.operations[op].digest && entry.attribution == st.operations[op].attribution;
        assert AnchoredEntry(st, op, st.operations[op]);
        AnchorStays(st, st', RecordFor(st, e, cfg.digest(e), event, next), op, st.operations[op], entry);
      }
    }
  }

  lemma AnchorStays(st: State, st': State, r: Record, op: string, entry: Entry, entry': Entry)
    requires AnchoredEntry(st, op, entry) && entry'.digest == entry.digest && entry'.attribution == entry.attribution
    requires st'.records == st.records + [r] && r.digest !in st.seen && st'.seen == st.seen[r.digest := |st.records|]
    ensures AnchoredEntry(st', op, entry')
  {
    hide AttributionOf, IsRequest;
  }

  /** Entries keep their attribution. */
  lemma CommitKeepsAttribution(cfg: Config, st: State, e: Envelope, st': State, event: EventKind, next: Option<OperationState>, op: string)
    requires Commits(cfg, st, e, st', event, next) && op in st.operations
    ensures op in st'.operations && st'.operations[op].attribution == st.operations[op].attribution
  {
    CommitEffect(cfg, st, e, st', event, next);
  }

  lemma CommitKeepsAttributed(cfg: Config, st: State, e: Envelope, st': State, event: EventKind, next: Option<OperationState>)
    requires Parses(e) && Anchored(st) && AllAttributed(st) && Commits(cfg, st, e, st', event, next)
    ensures AllAttributed(st')
  {
    CommitEffect(cfg, st, e, st', event, next);
    if OperationOf(e).Some? {
      CommitIsAttributed(cfg, st, e, st', event, next);
    }
    hide Commits, Attributed, Parses, Anchored, Follows;
    forall i | 0 <= i < |st'.records| && IsNew(st'.records[i]) && st'.records[i].operationId.Some?
      ensures st'.records[i].operationId.value in st'.operations
      ensures Attributed(st'.records[i], st'.operations[st'.records[i].operationId.value].attribution)
    {
      if i < |st.records| {
        assert st'.records[i] == st.records[i];
        CommitKeepsAttribution(cfg, st, e, st', event, next, st.records[i].operationId.value);
      }
    }
  }

  lemma CommitKeepsTable(cfg: Config, st: State, e: Envelope, st': State, event: EventKind, next: Option<OperationState>)
    requires TableIsLog(st) && Commits(cfg, st, e, st', event, next)
    ensures TableIsLog(st')
  {
    CommitEffect(cfg, st, e, st', event, next);
    hide Commits, TableIsLog, Follows;
    TableSnoc(st, st', RecordFor(st, e, cfg.digest(e), event, next));
  }

  lemma CommitKeeps(cfg: Config, st: State, e: Envelope, st': State, event: EventKind, next: Option<OperationState>)
    requires Inv(cfg, st) && Parses(e) && Commits(cfg, st, e, st', event, next)
    ensures Inv(cfg, st')
  {
    hide Commits, Parses, Numbered, SeenIsLog, TableIsLog, Anchored, AllAttributed, LegalLog, DeliveriesAreLog, Follows, LegalAfter;
    CommitEffect(cfg, st, e, st', event, next);
    CommitKeepsSeen(cfg, st, e, st', event, next);
    CommitKeepsAnchors(cfg, st, e, st', event, next);
    CommitKeepsAttributed(cfg, st, e, st', event, next);
    CommitKeepsTable(cfg, st, e, st', event, next);
    CommitIsLegal(cfg, st, e, st', event, next);
    var r := RecordFor(st, e, cfg.digest(e), event, next);
    LegalLogSnoc(st.records, r);
    CommitHasRoom(cfg, st, e, st', event, next);
    DeliveriesSnoc(st, st', r);
  }

  lemma CommitHasRoom(cfg: Config, st: State, e: Envelope, st': State, event: EventKind, next: Option<OperationState>)
    requires Commits(cfg, st, e, st', event, next)
    ensures |st.records| < MAX_LOG
  {
  }

  lemma OverflowKeeps(cfg: Config, st: State, e: Envelope, st': State)
    requires Inv(cfg, st) && Overflows(cfg, st, e, st')
    ensures Inv(cfg, st')
  {
    hide LastState, NewEnvelopes, Attributed, LegalLog;
  }

  lemma StepKeeps(cfg: Config, st: State, e: Envelope, port: Result<(), PortError>)
    requires Inv(cfg, st) && Parses(e)
    ensures Inv(cfg, ConsumeInner(cfg, st, e, port).0)
  {
    hide Inv, ConsumeInner, Replays, Overflows, Commits;
    StepKinds(cfg, st, e, port);
    var st' := ConsumeInner(cfg, st, e, port).0;
    if Replays(cfg, st, e, st') {
      ReplayKeeps(cfg, st, e, st');
    } else if Overflows(cfg, st, e, st') {
      OverflowKeeps(cfg, st, e, st');
    } else if st' != st {
      var event, next :| Commits(cfg, st, e, st', event, next);
      CommitKeeps(cfg, st, e, st', event, next);
    }
  }

  lemma PerformKeeps(cfg: Config, st: State, c: Call)
    requires Inv(cfg, st) && CallParses(c)
    ensures Inv(cfg, Perform(cfg, st, c).0)
  {
    hide Inv, ConsumeInner;
    if !c.RetryUnknown? {
      StepKeeps(cfg, st, c.envelope, c.port);
    }
  }

  ghost predicate AllParse(calls: seq<Call>) {
    forall c :: c in calls ==> CallParses(c)
  }

  lemma {:induction false} RunKeeps(cfg: Config, st: State, calls: seq<Call>)
    requires Inv(cfg, st) && AllParse(calls)
    ensures Inv(cfg, Run(cfg, st, calls))
    decreases |calls|
  {
    hide Inv, Perform, CallParses;
    if calls != [] {
      PerformKeeps(cfg, st, calls[0]);
      RunKeeps(cfg, Perform(cfg, st, calls[0]).0, calls[1..]);
    }
  }

  lemma InitialInv(cfg: Config)
    ensures Inv(cfg, INITIAL)
  {
  }

  lemma Reachable(cfg: Config, calls: seq<Call>)
    requires AllParse(calls)
    ensures Inv(cfg, Run(cfg, INITIAL, calls))
  {
    InitialInv(cfg);
    RunKeeps(cfg, INITIAL, calls);
  }

  // ---------- The operation table is a function of the log ----------

  /** In every reachable state the table shows each operation's last recorded state, reached by legal moves. */
  lemma OperationTableIsLog(cfg: Config, calls: seq<Call>)
    requires AllParse(calls)
    ensures var st := Run(cfg, INITIAL, calls);
            && (forall op :: StateOf(st, op) == LastState(st.records, op))
            && LegalLog(st.records)
  {
    hide Run, LastState, LegalLog, AllParse;
    Reachable(cfg, calls);
  }

  lemma StepMoves(cfg: Config, st: State, e: Envelope, port: Result<(), PortError>, op: string)
    requires Anchored(st)
    ensures var st' := ConsumeInner(cfg, st, e, port).0;
            || StateOf(st', op) == StateOf(st, op)
            || (StateOf(st', op).Some? && Follows(StateOf(st, op), StateOf(st', op).value))
  {
    hide ConsumeInner, Anchored, Follows;
    StepKinds(cfg, st, e, port);
    var st' := ConsumeInner(cfg, st, e, port).0;
    if event, next :| Commits(cfg, st, e, st', event, next) {
      CommitEffect(cfg, st, e, st', event, next);
      if EntryOf(st, e).Some? {
        KnownOperationCommitsResponses(cfg, st, e, st', event, next);
      }
    }
  }

  lemma {:induction false} TerminalIsForever(cfg: Config, st: State, more: seq<Call>, op: string)
    requires Inv(cfg, st) && AllParse(more)
    requires StateOf(st, op).Some? && Terminal(StateOf(st, op).value)
    ensures StateOf(Run(cfg, st, more), op) == StateOf(st, op)
    decreases |more|
  {
    hide ConsumeInner, Inv, CallParses;
    if more != [] {
      var c := more[0];
      var st' := Perform(cfg, st, c).0;
      PerformKeeps(cfg, st, c);
      if !c.RetryUnknown? {
        InvAnchors(cfg, st);
        StepMoves(cfg, st, c.envelope, c.port, op);
      }
      TerminalIsForever(cfg, st', more[1..], op);
    }
  }

  lemma InvAnchors(cfg: Config, st: State)
    requires Inv(cfg, st)
    ensures Anchored(st) && SeenIsLog(st)
  {
  }

  /** Settled, rejected and reconciled operations never change again, whatever is consumed later. */
  lemma FinishedOperationsStay(cfg: Config, calls: seq<Call>, more: seq<Call>, op: string)
    requires AllParse(calls) && AllParse(more)
    requires StateOf(Run(cfg, INITIAL, calls), op).Some? && Terminal(StateOf(Run(cfg, INITIAL, calls), op).value)
    ensures StateOf(Run(cfg, Run(cfg, INITIAL, calls), more), op) == StateOf(Run(cfg, INITIAL, calls), op)
  {
    hide Run, AllParse, Inv;
    Reachable(cfg, calls);
    TerminalIsForever(cfg, Run(cfg, INITIAL, calls), more, op);
  }

  /** A request for a known operation neither changes the table nor reaches the port. */
  lemma RequestNeverResets(cfg: Config, calls: seq<Call>, e: Envelope, port: Result<(), PortError>)
    requires AllParse(calls) && IsRequest(e) && EntryOf(Run(cfg, INITIAL, calls), e).Some?
    ensures var st := Run(cfg, INITIAL, calls);
            var st' := ConsumeInner(cfg, st, e, port).0;
            st'.operations == st.operations && st'.delivered == st.delivered
  {
    hide Run, AllParse, Inv, ConsumeInner, Anchored, SeenIsLog, Commits;
    var st := Run(cfg, INITIAL, calls);
    Reachable(cfg, calls);
    InvAnchors(cfg, st);
    StepKinds(cfg, st, e, port);
    var st' := ConsumeInner(cfg, st, e, port).0;
    RequestDoesNotOverflow(cfg, st, e, port);
    if event, next :| Commits(cfg, st, e, st', event, next) {
      KnownOperationCommitsResponses(cfg, st, e, st', event, next);
    }
  }

  lemma RequestDoesNotOverflow(cfg: Config, st: State, e: Envelope, port: Result<(), PortError>)
    requires Anchored(st) && IsRequest(e) && EntryOf(st, e).Some?
    ensures !Overflows(cfg, st, e, ConsumeInner(cfg, st, e, port).0)
  {
    hide PeerMatches, FencedGeneration, Classify, RouteError;
    assert EntryOf(st, e).value.digest in st.seen;
    var st' := ConsumeInner(cfg, st, e, port).0;
    assert st.delivered + [e] != st.delivered by { assert |st.delivered + [e]| == |st.delivered| + 1; }
  }

  // ---------- Exactly-once delivery ----------

  /** The envelope of a call that reached the port while the log was full, if it did. */
  function Overflow(cfg: Config, st: State, c: Call): seq<Envelope> {
    if !c.RetryUnknown? && |st.records| >= MAX_LOG && |Perform(cfg, st, c).0.delivered| > |st.delivered| then [c.envelope] else []
  }

  /** All such envelopes of a run, in order. */
  function Overflowed(cfg: Config, st: State, calls: seq<Call>): seq<Envelope>
    decreases |calls|
  {
    if calls == [] then [] else Overflow(cfg, st, calls[0]) + Overflowed(cfg, Perform(cfg, st, calls[0]).0, calls[1..])
  }

  /** The port received the new records' envelopes and then `extra`, which needs a full log. */
  ghost predicate DeliveredExtra(st: State, extra: seq<Envelope>) {
    st.delivered == NewEnvelopes(st.records) + extra && (extra != [] ==> |st.records| >= MAX_LOG)
  }

  lemma StepDeliveries(cfg: Config, st: State, e: Envelope, port: Result<(), PortError>, extra: seq<Envelope>)
    requires DeliveredExtra(st, extra)
    ensures var st' := ConsumeInner(cfg, st, e, port).0;
            DeliveredExtra(st', extra + if |st.records| >= MAX_LOG && |st'.delivered| > |st.delivered| then [e] else [])
  {
    hide ConsumeInner, Commits, NewEnvelopes;
    StepKinds(cfg, st, e, port);
    var st' := ConsumeInner(cfg, st, e, port).0;
    if st' == st {
      assert extra + [] == extra;
    } else if Replays(cfg, st, e, st') {
      NewEnvelopesSnoc(st.records, RecordFor(st, e, cfg.digest(e), DuplicateReplay, EntryState(EntryOf(st, e))));
    } else if !Overflows(cfg, st, e, st') {
      var event, next :| Commits(cfg, st, e, st', event, next);
      CommitEffect(cfg, st, e, st', event, next);
      CommitHasRoom(cfg, st, e, st', event, next);
      NewEnvelopesSnoc(st.records, RecordFor(st, e, cfg.digest(e), event, next));
    }
  }

  lemma PerformDeliveries(cfg: Config, st: State, c: Call, extra: seq<Envelope>)
    requires DeliveredExtra(st, extra)
    ensures DeliveredExtra(Perform(cfg, st, c).0, extra + Overflow(cfg, st, c))
  {
    hide ConsumeInner, DeliveredExtra;
    assert extra + [] == extra;
    if !c.RetryUnknown? {
      StepDeliveries(cfg, st, c.envelope, c.port, extra);
    }
  }

  lemma {:induction false} RunDeliveries(cfg: Config, st: State, calls: seq<Call>, extra: seq<Envelope>)
    requires DeliveredExtra(st, extra)
    ensures DeliveredExtra(Run(cfg, st, calls), extra + Overflowed(cfg, st, calls))
    decreases |calls|
  {
    hide Perform, DeliveredExtra, Overflow;
    if calls == [] {
      assert extra + [] == extra;
    } else {
      var c, rest := calls[0], calls[1..];
      var st' := Perform(cfg, st, c).0;
      PerformDeliveries(cfg, st, c, extra);
      RunDeliveries(cfg, st', rest, extra + Overflow(cfg, st, c));
      assert extra + Overflow(cfg, st, c) + Overflowed(cfg, st', rest) == extra + (Overflow(cfg, st, c) + Overflowed(cfg, st', rest));
    }
  }

  /** A full log stays as it is. */
  lemma FullStep(cfg: Config, st: State, c: Call)
    requires |st.records| >= MAX_LOG
    ensures var st' := Perform(cfg, st, c).0;
            st'.records == st.records && st'.seen == st.seen && (Overflow(cfg, st, c) != [] ==> cfg.digest(c.envelope) !in st.seen)
  {
    hide RouteError, Admit;
  }

  lemma {:induction false} FullRun(cfg: Config, st: State, calls: seq<Call>)
    requires |st.records| >= MAX_LOG
    ensures Run(cfg, st, calls).seen == st.seen
    decreases |calls|
  {
    hide Perform;
    if calls != [] {
      FullStep(cfg, st, calls[0]);
      FullRun(cfg, Perform(cfg, st, calls[0]).0, calls[1..]);
    }
  }

  lemma {:induction false} OverflowedUnseen(cfg: Config, st: State, calls: seq<Call>, e: Envelope)
    requires e in Overflowed(cfg, st, calls)
    ensures cfg.digest(e) !in Run(cfg, st, calls).seen
    decreases |calls|
  {
    hide Perform;
    var st' := Perform(cfg, st, calls[0]).0;
    if e in Overflow(cfg, st, calls[0]) {
      FullStep(cfg, st, calls[0]);
      FullRun(cfg, st', calls[1..]);
    } else {
      OverflowedUnseen(cfg, st', calls[1..], e);
    }
  }

  ghost predicate DistinctDigests(cfg: Config, envelopes: seq<Envelope>) {
    forall i, j :: 0 <= i < j < |envelopes| ==> cfg.digest(envelopes[i]) != cfg.digest(envelopes[j])
  }

  lemma {:induction false} NewEnvelopesFromLog(records: seq<Record>, e: Envelope)
    requires e in NewEnvelopes(records)
    ensures exists i :: 0 <= i < |records| && IsNew(records[i]) && records[i].envelope == e
  {
    var n := |records| - 1;
    if e in NewEnvelopes(records[..n]) {
      NewEnvelopesFromLog(records[..n], e);
      var i :| 0 <= i < n && IsNew(records[..n][i]) && records[..n][i].envelope == e;
      assert records[i] == records[..n][i];
    }
  }

  lemma {:induction false} NewDigestsDistinct(cfg: Config, records: seq<Record>)
    requires forall i :: 0 <= i < |records| ==> records[i].digest == cfg.digest(records[i].envelope)
    requires forall i, j :: 0 <= i < j < |records| && IsNew(records[i]) && IsNew(records[j]) ==>
               records[i].digest != records[j].digest
    ensures DistinctDigests(cfg, NewEnvelopes(records))
  {
    if records != [] {
      var n := |records| - 1;
      var rest := NewEnvelopes(records[..n]);
      NewDigestsDistinct(cfg, records[..n]);
      forall k | 0 <= k < |rest| && IsNew(records[n])
        ensures cfg.digest(rest[k]) != cfg.digest(records[n].envelope)
      {
        NewEnvelopesFromLog(records[..n], rest[k]);
      }
    }
  }

  /** New envelopes have digests of their own that are all seen; what else was delivered has unseen ones. */
  lemma DistinctSplit(cfg: Config, a: seq<Envelope>, b: seq<Envelope>, seen: map<string, nat>)
    requires DistinctDigests(cfg, a) && (forall e :: e in a ==> cfg.digest(e) in seen) && (forall e :: e in b ==> cfg.digest(e) !in seen)
    ensures DistinctDigests(cfg, a + b) <==> DistinctDigests(cfg, b)
  {
    var all := a + b;
    if DistinctDigests(cfg, all) {
      forall i, j | 0 <= i < j < |b| ensures cfg.digest(b[i]) != cfg.digest(b[j]) {
        assert all[|a| + i] == b[i] && all[|a| + j] == b[j];
      }
    }
    if DistinctDigests(cfg, b) {
      forall i, j | 0 <= i < j < |all| ensures cfg.digest(all[i]) != cfg.digest(all[j]) {
        if i < |a| && |a| <= j {
          assert all[i] == a[i] && a[i] in a && all[j] == b[j - |a|] && b[j - |a|] in b;
        } else if |a| <= i {
          assert all[i] == b[i - |a|] && all[j] == b[j - |a|];
        }
      }
    }
  }

  lemma NewEnvelopesSeen(cfg: Config, st: State)
    requires Numbered(cfg, st) && SeenIsLog(st)
    ensures forall e :: e in NewEnvelopes(st.records) ==> cfg.digest(e) in st.seen
  {
    forall e | e in NewEnvelopes(st.records) ensures cfg.digest(e) in st.seen {
      NewEnvelopesFromLog(st.records, e);
    }
  }

  /**
   Over every run the port received the envelopes of the new records, in order, and after them those that
   reached it at a full log. So delivery is exactly once precisely when no call is delivered at a full log,
   and a digest is delivered twice precisely when one is delivered at a full log twice.
   */
  lemma ExactlyOnceDelivery(cfg: Config, calls: seq<Call>)
    requires AllParse(calls)
    ensures var st, extra := Run(cfg, INITIAL, calls), Overflowed(cfg, INITIAL, calls);
            && st.delivered == NewEnvelopes(st.records) + extra
            && (st.delivered == NewEnvelopes(st.records) <==> extra == [])
            && (DistinctDigests(cfg, st.delivered) <==> DistinctDigests(cfg, extra))
  {
    var st, extra := Run(cfg, INITIAL, calls), Overflowed(cfg, INITIAL, calls);
    RunDeliveries(cfg, INITIAL, calls, []);
    Reachable(cfg, calls);
    forall e | e in extra ensures cfg.digest(e) !in st.seen {
      OverflowedUnseen(cfg, INITIAL, calls, e);
    }
    hide Run, Overflowed, AllParse, LegalLog, TableIsLog, Anchored, AllAttributed;
    assert [] + extra == extra;
    NewDigestsDistinct(cfg, st.records);
    NewEnvelopesSeen(cfg, st);
    DistinctSplit(cfg, NewEnvelopes(st.records), extra, st.seen);
    assert |st.delivered| == |NewEnvelopes(st.records)| + |extra|;
  }

  /** A delivery is recorded exactly when the log has room; at a full log it is repeated by every retry. */
  lemma DeliveryIsRecordedIffRoom(cfg: Config, st: State, e: Envelope)
    requires |st.records| <= MAX_LOG && ConsumeInner(cfg, st, e, Ok(())).0.delivered == st.delivered + [e]
    ensures var (st', r) := ConsumeInner(cfg, st, e, Ok(()));
            && (r.Ok? <==> |st.records| < MAX_LOG)
            && (r.Err? ==> r.error == TooManyRecords && ConsumeInner(cfg, st', e, Ok(())).0.delivered == st.delivered + [e, e])
  {
    hide RouteError, PeerMatches, FencedGeneration;
    assert |st.delivered + [e]| == |st.delivered| + 1;
    assert st.delivered + [e] + [e] == st.delivered + [e, e];
  }

  /** After a delivery only the record bound can fail; the missing-state and missing-attribution errors never occur. */
  lemma OnlyTheBoundFailsAfterDelivery(cfg: Config, st: State, e: Envelope, port: Result<(), PortError>)
    ensures var (st', r) := ConsumeInner(cfg, st, e, port);
            && r != Err(Serialization)
            && (st'.delivered != st.delivered && r.Err? ==> r.error == TooManyRecords && |st.records| >= MAX_LOG)
            && (r.Err? ==> st'.records == st.records && st'.operations == st.operations && st'.seen == st.seen)
  {
    hide LineageMatches, PeerMatches, FencedGeneration;
  }

  // ---------- Fences and generations ----------

  /** Some recorded envelope has the digest of `e` without being `e`. */
  ghost predicate Collides(cfg: Config, records: seq<Record>, e: Envelope) {
    exists r :: r in records && cfg.digest(r.envelope) == cfg.digest(e) && r.envelope != e
  }

  /** The fences, generation and actor of a recorded envelope are those of the operation's request at `q`. */
  ghost predicate AnswersRequest(e: Envelope, request: Record) {
    && IsRequest(request.envelope) && request.operationId == OperationOf(e) && SameFence(e.header, request.header)
    && (ReceiptOf(e).Some? ==> Some(ReceiptOf(e).value.beforeGeneration) == GenerationOf(request.envelope))
    && (ObservationOf(e).Some? ==> LocalPeer(ObservationOf(e).value.peers) == ActorOf(request.envelope))
    && (e.body.EffectResponse? && e.body.status == Settled ==>
          GenerationOf(request.envelope).Some? && e.body.seen.hostGeneration > GenerationOf(request.envelope).value)
  }

  lemma NewRecordAnswers(cfg: Config, st: State, i: nat) returns (q: nat)
    requires Inv(cfg, st) && i < |st.records| && IsNew(st.records[i]) && st.records[i].operationId.Some?
    ensures q < |st.records| && AnswersRequest(st.records[i].envelope, st.records[q])
  {
    hide LegalLog, TableIsLog, DeliveriesAreLog;
    var r := st.records[i];
    var entry := st.operations[r.operationId.value];
    q := st.seen[entry.digest];
    assert Attributed(r, entry.attribution);
    assert st.records[q].header == st.records[q].envelope.header;
  }

  /**
   Every record of an operation, replays included, carries the route of the operation's request, starts its
   receipt at the request's generation, observes the request's actor as the local peer, and, when it settles
   an effect, observes a later generation; or its digest collides.
   */
  lemma FencesAndGenerations(cfg: Config, calls: seq<Call>, i: nat)
    requires AllParse(calls) && i < |Run(cfg, INITIAL, calls).records|
    requires Run(cfg, INITIAL, calls).records[i].operationId.Some?
    ensures var records := Run(cfg, INITIAL, calls).records;
            || (exists q :: 0 <= q < |records| && AnswersRequest(records[i].envelope, records[q]))
            || Collides(cfg, records, records[i].envelope)
  {
    Reachable(cfg, calls);
    var st := Run(cfg, INITIAL, calls);
    hide Run, AllParse, LegalLog, TableIsLog, DeliveriesAreLog, Anchored, AllAttributed, AnswersRequest;
    var r := st.records[i];
    var k := st.seen[r.digest];
    var first := st.records[k];
    assert IsNew(first) && cfg.digest(first.envelope) == cfg.digest(r.envelope) && first in st.records;
    if first.envelope == r.envelope {
      var q := NewRecordAnswers(cfg, st, k);
    } else {
      assert Collides(cfg, st.records, r.envelope);
    }
  }

  /** Every record of an operation, replays included, carries the operation's route, or its digest collides. */
  lemma RouteFenceIsConstant(cfg: Config, calls: seq<Call>, i: nat)
    requires AllParse(calls) && i < |Run(cfg, INITIAL, calls).records|
    requires Run(cfg, INITIAL, calls).records[i].operationId.Some?
    ensures var st := Run(cfg, INITIAL, calls);
            var r := st.records[i];
            || (r.operationId.value in st.operations
                && SameFence(r.header, st.operations[r.operationId.value].attribution.route))
            || Collides(cfg, st.records, r.envelope)
  {
    hide Run, AllParse, LegalLog, TableIsLog, DeliveriesAreLog, Anchored;
    Reachable(cfg, calls);
    var st := Run(cfg, INITIAL, calls);
    var r := st.records[i];
    var k := st.seen[r.digest];
    var first := st.records[k];
    assert IsNew(first) && first.digest == r.digest;
    assert cfg.digest(first.envelope) == cfg.digest(r.envelope) && first in st.records;
    if first.envelope == r.envelope {
      assert first.operationId == r.operationId && first.header == r.header;
      assert Attributed(first, st.operations[r.operationId.value].attribution);
      assert SameFence(r.header, st.operations[r.operationId.value].attribution.route);
    } else {
      assert Collides(cfg, st.records, r.envelope);
    }
  }
}
