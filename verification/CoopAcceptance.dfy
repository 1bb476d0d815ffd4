/**
 When an envelope is accepted, what each refusal means and what an accepted envelope changes, in terms of the
 envelope's own members and of what the coordinator knows of its operation, without the order of the checks.
 */
module CoopAcceptance {
  import opened Outcomes
  import opened CoopWire
  import opened CoopCoordinator
  import opened CoopAnnouncements

  // ---------- What is said of an envelope ----------

  predicate IsRequestBody(b: Body) {
    b.CatalogRequest? || b.LocalActionRequest? || b.SharedVoteRequest? || b.RejoinRequest?
  }

  predicate ForOperation(b: Body, op: string) {
    !b.ObservationBody? && !b.CatalogRequest? && !b.CatalogResponse? && b.operationId == op
  }

  /** The operation of the envelope is known, as `entry`. */
  predicate Known(st: State, e: Envelope, entry: Entry) {
    !e.body.ObservationBody? && !e.body.CatalogRequest? && !e.body.CatalogResponse?
    && e.body.operationId in st.operations && st.operations[e.body.operationId] == entry
  }

  predicate Shows(b: Body, o: Observation) {
    || ((b.ObservationBody? || b.CatalogResponse? || b.EffectResponse?) && b.seen == o)
    || (b.RecoveryResponse? && b.observed == Some(o))
  }

  /** The receipt in the envelope starts at this generation. */
  predicate StartsAt(b: Body, generation: nat) {
    || (b.EffectResponse? && b.proof.beforeGeneration == generation)
    || (b.RecoveryResponse? && b.evidence.Some? && b.evidence.value.beforeGeneration == generation)
  }

  /** The actor that a catalog or a request names. */
  predicate ActsFor(b: Body, actor: string) {
    (b.CatalogResponse? || IsRequestBody(b)) && b.actor == actor
  }

  /** The first local peer of an observation. */
  ghost predicate SeenLocally(o: Observation, token: string) {
    exists k :: 0 <= k < |o.peers| && o.peers[k].role == Local && o.peers[k].token == token
                && forall i :: 0 <= i < k ==> o.peers[i].role != Local
  }

  // ---------- The conditions ----------

  /** A response carries the instance, session and lease of its operation's request. */
  ghost predicate Fenced(st: State, e: Envelope) {
    forall entry :: Known(st, e, entry) && !IsRequestBody(e.body) ==>
      var a, b := e.header, entry.attribution.route;
      (a.instanceId, a.sessionId, a.leaseId, a.leaseEpoch) == (b.instanceId, b.sessionId, b.leaseId, b.leaseEpoch)
  }

  /** The envelope belongs to the configured instance, session and run, and to the configured operation and action. */
  ghost predicate OfLineage(l: Lineage, e: Envelope) {
    && e.header.instanceId == l.instanceId && e.header.sessionId == l.sessionId
    && (l.operationId.Some? ==> ForOperation(e.body, l.operationId.value))
    && (l.actionId.Some? ==> e.body.LocalActionRequest? && e.body.action.actionId == l.actionId.value)
    && (forall o :: Shows(e.body, o) ==> o.runId == l.runId)
  }

  /** Neither another request for a known operation, nor a receipt that starts at another generation. */
  ghost predicate Consistent(st: State, e: Envelope, digest: string) {
    forall entry :: Known(st, e, entry) ==>
      && (IsRequestBody(e.body) ==> entry.digest == digest)
      && (forall g, h :: entry.attribution.expectedGeneration == Some(g) && StartsAt(e.body, h) ==> g == h)
  }

  /** What is observed is observed by the scheduled actor, or by the named one before anything is scheduled. */
  ghost predicate ByActor(st: State, e: Envelope) {
    forall o :: Shows(e.body, o) ==>
      exists token :: SeenLocally(o, token)
        && (forall entry :: Known(st, e, entry) ==> entry.attribution.actor == token)
        && ((forall entry :: !Known(st, e, entry)) ==> forall actor :: ActsFor(e.body, actor) ==> actor == token)
  }

  predicate IsResponse(b: Body) {
    b.EffectResponse? || b.RecoveryResponse?
  }

  ghost predicate Unscheduled(st: State, e: Envelope) {
    IsResponse(e.body) && forall entry :: !Known(st, e, entry)
  }

  /** A response in a state that leaves room for it. */
  predicate InTime(b: Body, s: OperationState) {
    && (b.EffectResponse? ==> s == OpRequested || s == OpAccepted)
    && (b.RecoveryResponse? && b.outcome == Some(Unknown) ==> s == OpRequested || s == OpUnknown)
    && (b.RecoveryResponse? && b.outcome != Some(Unknown) ==> s == OpUnknown)
  }

  ghost predicate Late(st: State, e: Envelope) {
    exists entry :: Known(st, e, entry) && !InTime(e.body, entry.state)
  }

  ghost predicate Admissible(st: State, e: Envelope, digest: string) {
    Consistent(st, e, digest) && ByActor(st, e) && !Unscheduled(st, e) && !Late(st, e)
  }

  // ---------- They are what the code checks ----------

  lemma KnownMeans(st: State, e: Envelope)
    ensures forall entry :: Known(st, e, entry) <==> EntryOf(st, e) == Some(entry)
  {
  }

  lemma LineageMeans(l: Lineage, e: Envelope)
    ensures LineageMatches(l, e) <==> OfLineage(l, e)
  {
    ShowsMeans(e);
    hide Shows, ObservationOf;
    if ObservationOf(e).Some? {
      assert Shows(e.body, ObservationOf(e).value);
    }
  }

  lemma ShowsMeans(e: Envelope)
    ensures forall o :: Shows(e.body, o) <==> ObservationOf(e) == Some(o)
  {
  }

  lemma StartsMeans(e: Envelope)
    ensures forall g: nat :: StartsAt(e.body, g) <==> ReceiptOf(e).Some? && ReceiptOf(e).value.beforeGeneration == g
  {
  }

  lemma ActsMeans(e: Envelope)
    ensures forall a :: ActsFor(e.body, a) <==> ActorOf(e) == Some(a)
  {
  }

  lemma {:induction false} LocalMeans(peers: seq<Peer>, token: string)
    ensures LocalPeer(peers) == Some(token) <==>
            exists k :: 0 <= k < |peers| && peers[k].role == Local && peers[k].token == token
                        && forall i :: 0 <= i < k ==> peers[i].role != Local
  {
    if peers != [] && peers[0].role != Local {
      var rest := peers[1..];
      LocalMeans(rest, token);
      if k :| 0 <= k < |rest| && rest[k].role == Local && rest[k].token == token && forall i :: 0 <= i < k ==> rest[i].role != Local {
        assert peers[k + 1] == rest[k];
        assert forall i :: 0 < i < k + 1 ==> peers[i] == rest[i - 1];
      }
      if k :| 0 <= k < |peers| && peers[k].role == Local && peers[k].token == token && forall i :: 0 <= i < k ==> peers[i].role != Local {
        assert rest[k - 1] == peers[k];
        assert forall i :: 0 <= i < k - 1 ==> rest[i] == peers[i + 1];
      }
    }
  }

  lemma PeerMeans(st: State, e: Envelope)
    ensures PeerMatches(e, EntryOf(st, e)) <==> ByActor(st, e)
  {
    KnownMeans(st, e);
    ShowsMeans(e);
    ActsMeans(e);
    hide Known, EntryOf, Shows, ObservationOf, ActsFor, ActorOf, SeenLocally, LocalPeer;
    var entry := EntryOf(st, e);
    assert (forall x :: !Known(st, e, x)) <==> entry.None? by {
      if entry.Some? {
        assert Known(st, e, entry.value);
      }
    }
    if ObservationOf(e).Some? {
      var o := ObservationOf(e).value;
      assert Shows(e.body, o);
      forall token ensures SeenLocally(o, token) <==> LocalPeer(o.peers) == Some(token) {
        SeenMeans(o, token);
      }
      if PeerMatches(e, entry) {
        assert SeenLocally(o, LocalPeer(o.peers).value);
      }
      if entry.Some? {
        assert Known(st, e, entry.value);
      } else if ActorOf(e).Some? {
        assert ActsFor(e.body, ActorOf(e).value);
      }
    }
  }

  lemma SeenMeans(o: Observation, token: string)
    ensures SeenLocally(o, token) <==> LocalPeer(o.peers) == Some(token)
  {
    LocalMeans(o.peers, token);
  }

  lemma ConsistentMeans(st: State, e: Envelope, digest: string)
    ensures var entry := EntryOf(st, e);
            !(entry.Some? && IsRequest(e) && entry.value.digest != digest) && FencedGeneration(e, entry) <==> Consistent(st, e, digest)
  {
    KnownMeans(st, e);
    StartsMeans(e);
    hide Known, EntryOf, StartsAt, ReceiptOf;
    var entry := EntryOf(st, e);
    if entry.Some? {
      assert Known(st, e, entry.value);
      if ReceiptOf(e).Some? {
        assert StartsAt(e.body, ReceiptOf(e).value.beforeGeneration);
      }
    }
  }

  lemma FencedMeans(st: State, e: Envelope)
    ensures var entry := EntryOf(st, e);
            !(entry.Some? && !IsRequest(e) && !SameFence(e.header, entry.value.attribution.route)) <==> Fenced(st, e)
  {
    KnownMeans(st, e);
    hide Known, EntryOf;
    if EntryOf(st, e).Some? {
      assert Known(st, e, EntryOf(st, e).value);
    }
  }

  lemma ClassifyMeans(st: State, e: Envelope)
    ensures var c := Classify(e, EntryState(EntryOf(st, e)));
            && (c.Ok? <==> !Unscheduled(st, e) && !Late(st, e))
            && (c == Err(MissingOperation) <==> Unscheduled(st, e))
            && (c == Err(OperationConflict) <==>
                  Late(st, e) && (e.body.EffectResponse? || (e.body.RecoveryResponse? && e.body.outcome == Some(Unknown))))
            && (c == Err(ReconciliationMismatch) <==> Late(st, e) && e.body.RecoveryResponse? && e.body.outcome != Some(Unknown))
  {
    KnownMeans(st, e);
    hide Known, EntryOf;
    var entry := EntryOf(st, e);
    if entry.Some? {
      assert Known(st, e, entry.value);
    }
  }

  // ---------- Outcomes ----------

  /** Exactly which envelopes are accepted, and exactly what each refusal means. */
  lemma ConsumeOutcome(cfg: Config, st: State, e: Envelope, port: Result<(), PortError>)
    ensures var r, digest := ConsumeInner(cfg, st, e, port).1, cfg.digest(e);
            var routed := Fenced(st, e) && OfLineage(cfg.lineage, e);
            var unseen := routed && digest !in st.seen;
            var reaches := unseen && Admissible(st, e, digest);
            var kept := (routed && digest in st.seen) || (reaches && port.Ok?);
            && (r.Ok? <==> kept && |st.records| < 256)
            && (r == Err(TooManyRecords) <==> kept && |st.records| >= 256)
            && (r == Err(RouteFenceMismatch) <==> !Fenced(st, e))
            && (r == Err(EnvelopeIdentity) <==> Fenced(st, e) && !OfLineage(cfg.lineage, e))
            && (forall error :: r == Err(PortFailure(error)) <==> reaches && port == Err(error))
            && (r == Err(CanonicalPeerMismatch) <==> unseen && Consistent(st, e, digest) && !ByActor(st, e))
            && (r == Err(MissingOperation) <==> unseen && Consistent(st, e, digest) && ByActor(st, e) && Unscheduled(st, e))
            && (r == Err(ReconciliationMismatch) <==>
                  && unseen && Consistent(st, e, digest) && ByActor(st, e) && Late(st, e)
                  && e.body.RecoveryResponse? && e.body.outcome != Some(Unknown))
            && (r == Err(OperationConflict) <==>
                  unseen && (!Consistent(st, e, digest)
                             || (ByActor(st, e) && Late(st, e)
                                 && (e.body.EffectResponse? || (e.body.RecoveryResponse? && e.body.outcome == Some(Unknown))))))
  {
    hide *;
    AdmitOutcome(st, e, cfg.digest(e));
    RouteOutcome(cfg, st, e);
    InnerOutcome(cfg, st, e, port);
    AdmissibleMeans(st, e, cfg.digest(e));
  }

  lemma AdmissibleMeans(st: State, e: Envelope, digest: string)
    ensures Admissible(st, e, digest) <==> Consistent(st, e, digest) && ByActor(st, e) && !Unscheduled(st, e) && !Late(st, e)
  {
  }

  lemma RouteOutcome(cfg: Config, st: State, e: Envelope)
    ensures var route := RouteError(cfg, e, EntryOf(st, e));
            && (route == None <==> Fenced(st, e) && OfLineage(cfg.lineage, e))
            && (route == Some(RouteFenceMismatch) <==> !Fenced(st, e))
            && (route == Some(EnvelopeIdentity) <==> Fenced(st, e) && !OfLineage(cfg.lineage, e))
  {
    FencedMeans(st, e);
    LineageMeans(cfg.lineage, e);
    hide Fenced, OfLineage, LineageMatches, EntryOf, IsRequest, SameFence;
  }

  lemma AdmitOutcome(st: State, e: Envelope, digest: string)
    ensures var a := Admit(e, EntryOf(st, e), digest);
            && (a.Ok? <==> Consistent(st, e, digest) && ByActor(st, e) && !Unscheduled(st, e) && !Late(st, e))
            && (a == Err(CanonicalPeerMismatch) <==> Consistent(st, e, digest) && !ByActor(st, e))
            && (a == Err(MissingOperation) <==> Consistent(st, e, digest) && ByActor(st, e) && Unscheduled(st, e))
            && (a == Err(ReconciliationMismatch) <==>
                  && Consistent(st, e, digest) && ByActor(st, e) && Late(st, e)
                  && e.body.RecoveryResponse? && e.body.outcome != Some(Unknown))
            && (a == Err(OperationConflict) <==>
                  || !Consistent(st, e, digest)
                  || (ByActor(st, e) && Late(st, e)
                      && (e.body.EffectResponse? || (e.body.RecoveryResponse? && e.body.outcome == Some(Unknown)))))
            && (a.Err? ==> a.error in {CanonicalPeerMismatch, MissingOperation, ReconciliationMismatch, OperationConflict})
  {
    ConsistentMeans(st, e, digest);
    PeerMeans(st, e);
    ClassifyMeans(st, e);
    ClassifyErrors(e, EntryState(EntryOf(st, e)));
    hide Consistent, ByActor, Unscheduled, Late, Classify, EntryOf, PeerMatches, FencedGeneration;
  }

  lemma ClassifyErrors(e: Envelope, current: Option<OperationState>)
    ensures Classify(e, current).Err? ==>
              Classify(e, current).error in {MissingOperation, ReconciliationMismatch, OperationConflict}
  {
  }

  /** The order of the stages. */
  lemma InnerOutcome(cfg: Config, st: State, e: Envelope, port: Result<(), PortError>)
    ensures var r, entry, digest := ConsumeInner(cfg, st, e, port).1, EntryOf(st, e), cfg.digest(e);
            var route, admitted := RouteError(cfg, e, entry), Admit(e, entry, digest);
            && (route.Some? ==> r == Err(route.value) && route.value in {RouteFenceMismatch, EnvelopeIdentity})
            && (route.None? && digest !in st.seen && admitted.Err? ==> r == Err(admitted.error))
            && (route.None? && digest !in st.seen && admitted.Ok? && port.Err? ==> r == Err(PortFailure(port.error)))
            && (route.None? && (digest in st.seen || (admitted.Ok? && port.Ok?)) ==>
                  if |st.records| < 256 then r.Ok? else r == Err(TooManyRecords))
  {
    hide PeerMatches, FencedGeneration, LineageMatches;
  }

  // ---------- Effects ----------

  /** Only the envelope's own operation changes. */
  ghost predicate OthersStay(st: State, st': State, e: Envelope) {
    forall op :: !ForOperation(e.body, op) ==>
      (op in st'.operations <==> op in st.operations) && (op in st.operations ==> st'.operations[op] == st.operations[op])
  }

  /** The entry of a first request, from the request's own members. */
  ghost predicate Opens(e: Envelope, digest: string, entry: Entry) {
    && (e.body.LocalActionRequest? || e.body.SharedVoteRequest? || e.body.RejoinRequest?)
    && entry == Entry(OpRequested, digest, Attribution(Some(e.body.generation), e.body.actor, e.header))
  }

  /**
   What an accepted envelope changes. A repeated one adds a replay record that shows its operation's state. A new one
   is delivered, adds the record that it announces, is remembered by its digest, and opens its operation or moves
   the state, and nothing else, of the known one.
   */
  lemma ConsumeEffect(cfg: Config, st: State, e: Envelope, port: Result<(), PortError>)
    requires ConsumeInner(cfg, st, e, port).1.Ok?
    ensures var (st', r) := ConsumeInner(cfg, st, e, port);
            var digest, n := cfg.digest(e), |st.records|;
            && |st'.records| == n + 1 && st'.records[..n] == st.records
            && var record := st'.records[n];
               && record.sequence == n && record.envelope == e && record.header == e.header && record.digest == digest
               && r.value == LogReceipt(n, record.event, record.state, record.operationId)
               && OthersStay(st, st', e)
               && (digest in st.seen ==>
                     && st'.operations == st.operations && st'.seen == st.seen && st'.delivered == st.delivered
                     && record.event == DuplicateReplay
                     && (forall entry :: Known(st, e, entry) ==> record.state == Some(entry.state))
                     && ((forall entry :: !Known(st, e, entry)) ==> record.state == None))
               && (digest !in st.seen ==>
                     && st'.delivered == st.delivered + [e] && st'.seen == st.seen[digest := n]
                     && Announces(e.body, Announcement(record.event, record.state, record.operationId, record.actionId))
                     && (forall entry :: Known(st, e, entry) ==>
                           record.state.Some? && Known(st', e, Entry(record.state.value, entry.digest, entry.attribution)))
                     && (forall op :: ForOperation(e.body, op) && op !in st.operations ==>
                           op in st'.operations && Opens(e, digest, st'.operations[op])))
  {
    KnownMeans(st, e);
    hide Announces, PeerMatches, FencedGeneration, RouteError;
    var digest := cfg.digest(e);
    if digest in st.seen {
      hide Classify;
      var entry := EntryOf(st, e);
      if entry.Some? {
        assert Known(st, e, entry.value);
      }
    } else {
      var admitted := Admit(e, EntryOf(st, e), digest);
      AdmittedAnnounces(st, e, EntryOf(st, e), digest, admitted.value.0, admitted.value.1);
    }
  }

  /** A refusal changes nothing, except that the port keeps what it received when the log is full. */
  lemma RefusalEffect(cfg: Config, st: State, e: Envelope, port: Result<(), PortError>)
    requires ConsumeInner(cfg, st, e, port).1.Err?
    ensures var (st', r) := ConsumeInner(cfg, st, e, port);
            st' == if r.error == TooManyRecords && cfg.digest(e) !in st.seen then st.(delivered := st.delivered + [e]) else st
  {
    hide PeerMatches, FencedGeneration, LineageMatches;
  }

  /** The public calls: an unadmitted coordinator refuses, reconciling needs a recovery response, nothing is retried blindly. */
  lemma PerformOutcome(cfg: Config, st: State, c: Call)
    ensures var (st', r) := Perform(cfg, st, c);
            if c.RetryUnknown? then
              && st' == st
              && (r == Err(NoBlindRetry) <==> c.operation in st.operations && st.operations[c.operation].state == OpUnknown)
              && (r == Err(MissingOperation) <==> !(c.operation in st.operations && st.operations[c.operation].state == OpUnknown))
            else
              var misused := (c.Reconcile? || c.ReconcileFixture?) && !c.envelope.body.RecoveryResponse?;
              var refused := (c.Consume? || c.Reconcile?) && !cfg.admitted;
              && (r == Err(WrongReconciliation) <==> misused)
              && (r == Err(Unadmitted) <==> !misused && refused)
              && (if misused || refused then st' == st else (st', r) == ConsumeInner(cfg, st, c.envelope, c.port))
  {
    if !c.RetryUnknown? {
      InnerErrors(cfg, st, c.envelope, c.port);
    }
    hide ConsumeInner;
  }

  lemma InnerErrors(cfg: Config, st: State, e: Envelope, port: Result<(), PortError>)
    ensures ConsumeInner(cfg, st, e, port).1 != Err(WrongReconciliation) && ConsumeInner(cfg, st, e, port).1 != Err(Unadmitted)
  {
    hide PeerMatches, FencedGeneration, LineageMatches;
  }
}
