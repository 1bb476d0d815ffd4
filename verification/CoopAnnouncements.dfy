/**
 What an envelope announces: the event, the operation state and the identities that its record must carry, read
 off the envelope's kind and status alone; and the states of an operation in terms of the envelopes recorded for it.
 */
module CoopAnnouncements {
  import opened Outcomes
  import opened CoopWire
  import opened CoopCoordinator
  import opened CoopCoordinatorRuns

  datatype Announcement = Announcement(
    event: EventKind, state: Option<OperationState>, operationId: Option<string>, actionId: Option<string>)

  /** One case for every kind of body and every status it may have. */
  predicate Announces(b: Body, a: Announcement) {
    match b
    case ObservationBody(_) => a == Announcement(Observed, None, None, None)
    case CatalogRequest(_, _) => a == Announcement(CatalogRequested, None, None, None)
    case CatalogResponse(_, _, _, _) => a == Announcement(CatalogObserved, None, None, None)
    case LocalActionRequest(op, _, _, action) =>
      a == Announcement(ActionRequested, Some(OpRequested), Some(op), Some(action.actionId))
    case SharedVoteRequest(op, _, _, _) => a == Announcement(VoteRequested, Some(OpRequested), Some(op), None)
    case RejoinRequest(op, _, _, _) => a == Announcement(RejoinRequested, Some(OpRequested), Some(op), None)
    case EffectResponse(op, Accepted, _, _, _) => a == Announcement(EffectAccepted, Some(OpAccepted), Some(op), None)
    case EffectResponse(op, Settled, _, _, _) => a == Announcement(EffectSettled, Some(OpSettled), Some(op), None)
    case EffectResponse(op, Rejected, _, _, _) => a == Announcement(EffectRejected, Some(OpRejected), Some(op), None)
    case EffectResponse(op, Unknown, _, _, _) => a == Announcement(EffectUnknown, Some(OpUnknown), Some(op), None)
    case RecoveryResponse(op, None, _, _, _) => a == Announcement(ReconcileRequested, Some(OpUnknown), Some(op), None)
    case RecoveryResponse(op, Some(Unknown), _, _, _) => a == Announcement(EffectUnknown, Some(OpUnknown), Some(op), None)
    case RecoveryResponse(op, Some(_), _, _, _) => a == Announcement(ReconciledEvent, Some(OpReconciled), Some(op), None)
  }

  function AnnouncementOf(r: Record): Announcement {
    Announcement(r.event, r.state, r.operationId, r.actionId)
  }

  /** New records say what their envelopes announce; every recorded envelope was parsed. */
  ghost predicate AllAnnounced(records: seq<Record>) {
    forall i :: 0 <= i < |records| ==>
      Parses(records[i].envelope) && (IsNew(records[i]) ==> Announces(records[i].envelope.body, AnnouncementOf(records[i])))
  }

  lemma AdmittedAnnounces(st: State, e: Envelope, entry: Option<Entry>, digest: string, event: EventKind, next: Option<OperationState>)
    requires Admit(e, entry, digest) == Ok((event, next))
    ensures Announces(e.body, AnnouncementOf(RecordFor(st, e, digest, event, next)))
  {
    hide PeerMatches, FencedGeneration;
  }

  lemma StepAnnounces(cfg: Config, st: State, e: Envelope, port: Result<(), PortError>)
    requires AllAnnounced(st.records) && Parses(e)
    ensures AllAnnounced(ConsumeInner(cfg, st, e, port).0.records)
  {
    hide ConsumeInner, Commits, Announces, Parses;
    StepKinds(cfg, st, e, port);
    var st' := ConsumeInner(cfg, st, e, port).0;
    if event, next :| Commits(cfg, st, e, st', event, next) {
      CommitEffect(cfg, st, e, st', event, next);
      CommitAnnounces(cfg, st, e, st', event, next);
    }
  }

  lemma CommitAnnounces(cfg: Config, st: State, e: Envelope, st': State, event: EventKind, next: Option<OperationState>)
    requires Commits(cfg, st, e, st', event, next)
    ensures Announces(e.body, AnnouncementOf(RecordFor(st, e, cfg.digest(e), event, next)))
  {
    hide Announces, Admit, RouteError;
    AdmittedAnnounces(st, e, EntryOf(st, e), cfg.digest(e), event, next);
  }

  lemma {:induction false} RunAnnounces(cfg: Config, st: State, calls: seq<Call>)
    requires AllAnnounced(st.records) && AllParse(calls)
    ensures AllAnnounced(Run(cfg, st, calls).records)
    decreases |calls|
  {
    hide ConsumeInner, AllAnnounced, Parses;
    if calls != [] {
      var c := calls[0];
      assert CallParses(c);
      if !c.RetryUnknown? {
        StepAnnounces(cfg, st, c.envelope, c.port);
      }
      RunAnnounces(cfg, Perform(cfg, st, c).0, calls[1..]);
    }
  }

  /** After every run each record that is not a replay carries what its envelope announces. */
  lemma RecordsAnnounce(cfg: Config, calls: seq<Call>, i: nat)
    requires AllParse(calls) && i < |Run(cfg, INITIAL, calls).records|
    ensures var r := Run(cfg, INITIAL, calls).records[i];
            && r.sequence == i && r.header == r.envelope.header && r.digest == cfg.digest(r.envelope)
            && (r.event != DuplicateReplay ==> Announces(r.envelope.body, Announcement(r.event, r.state, r.operationId, r.actionId)))
  {
    Reachable(cfg, calls);
    RunAnnounces(cfg, INITIAL, calls);
    hide Run, AllParse, Announces, Parses, SeenIsLog, TableIsLog, Anchored, AllAttributed, LegalLog, DeliveriesAreLog;
  }

  // ---------- Final states ----------

  /** Some new record of the operation says `s`. */
  ghost predicate Says(records: seq<Record>, op: string, s: OperationState) {
    exists i :: 0 <= i < |records| && IsNew(records[i]) && records[i].operationId == Some(op) && records[i].state == Some(s)
  }

  lemma SaysSnoc(records: seq<Record>, r: Record, op: string, s: OperationState)
    ensures Says(records + [r], op, s) <==>
            Says(records, op, s) || (IsNew(r) && r.operationId == Some(op) && r.state == Some(s))
  {
    var longer := records + [r];
    if i :| 0 <= i < |records| && IsNew(records[i]) && records[i].operationId == Some(op) && records[i].state == Some(s) {
      assert longer[i] == records[i];
    }
    assert longer[|records|] == r;
  }

  /** In a legal log a final state is the last one exactly when some new record says it. */
  lemma {:induction false} FinalIffSaid(records: seq<Record>, op: string, s: OperationState)
    requires LegalLog(records) && Terminal(s)
    ensures LastState(records, op) == Some(s) <==> Says(records, op, s)
    decreases |records|
  {
    if records != [] {
      var n := |records| - 1;
      var before, r := records[..n], records[n];
      assert records == before + [r];
      assert forall i :: 0 <= i < n ==> before[..i] == records[..i];
      FinalIffSaid(before, op, s);
      SaysSnoc(before, r, op, s);
      LastStateSnoc(before, r, op);
      assert LegalAfter(before, r);
      hide Says, LegalLog, LastState;
    }
  }

  /** A new record of the operation whose body is an effect response of this status. */
  ghost predicate EffectRecorded(records: seq<Record>, op: string, status: Status) {
    exists i :: 0 <= i < |records| && records[i].event != DuplicateReplay
                && records[i].envelope.body.EffectResponse? && records[i].envelope.body.operationId == op
                && records[i].envelope.body.status == status
  }

  /** A new record of the operation whose body is a recovery response that found it settled or rejected. */
  ghost predicate RecoveryRecorded(records: seq<Record>, op: string) {
    exists i :: 0 <= i < |records| && records[i].event != DuplicateReplay
                && records[i].envelope.body.RecoveryResponse? && records[i].envelope.body.operationId == op
                && records[i].envelope.body.outcome in {Some(Settled), Some(Rejected)}
  }

  lemma AnnouncedFinal(r: Record, op: string)
    requires Parses(r.envelope) && Announces(r.envelope.body, AnnouncementOf(r))
    ensures var b := r.envelope.body;
            && (r.operationId == Some(op) && r.state == Some(OpSettled) <==> b.EffectResponse? && b.operationId == op && b.status == Settled)
            && (r.operationId == Some(op) && r.state == Some(OpRejected) <==> b.EffectResponse? && b.operationId == op && b.status == Rejected)
            && (r.operationId == Some(op) && r.state == Some(OpReconciled) <==>
                  b.RecoveryResponse? && b.operationId == op && b.outcome in {Some(Settled), Some(Rejected)})
  {
    hide EffectResponseParses, ObservationParses;
  }

  lemma SaidIffRecorded(records: seq<Record>, op: string)
    requires AllAnnounced(records)
    ensures Says(records, op, OpSettled) <==> EffectRecorded(records, op, Settled)
    ensures Says(records, op, OpRejected) <==> EffectRecorded(records, op, Rejected)
    ensures Says(records, op, OpReconciled) <==> RecoveryRecorded(records, op)
  {
    hide Announces, Parses;
    forall i | 0 <= i < |records| && IsNew(records[i])
      ensures var r := records[i];
              var b := r.envelope.body;
              && (r.operationId == Some(op) && r.state == Some(OpSettled) <==> b.EffectResponse? && b.operationId == op && b.status == Settled)
              && (r.operationId == Some(op) && r.state == Some(OpRejected) <==> b.EffectResponse? && b.operationId == op && b.status == Rejected)
              && (r.operationId == Some(op) && r.state == Some(OpReconciled) <==>
                    b.RecoveryResponse? && b.operationId == op && b.outcome in {Some(Settled), Some(Rejected)})
    {
      AnnouncedFinal(records[i], op);
    }
  }

  /**
   After every run an operation is settled exactly when a settled effect response of it was recorded, rejected
   exactly when a rejected one was, and reconciled exactly when a recovery that found it settled or rejected was.
   */
  lemma FinalStatesAreAnnounced(cfg: Config, calls: seq<Call>, op: string)
    requires AllParse(calls)
    ensures var st := Run(cfg, INITIAL, calls);
            && (StateOf(st, op) == Some(OpSettled) <==> EffectRecorded(st.records, op, Settled))
            && (StateOf(st, op) == Some(OpRejected) <==> EffectRecorded(st.records, op, Rejected))
            && (StateOf(st, op) == Some(OpReconciled) <==> RecoveryRecorded(st.records, op))
  {
    hide *;
    var st := Run(cfg, INITIAL, calls);
    OperationTableIsLog(cfg, calls);
    NoRecords();
    RunAnnounces(cfg, INITIAL, calls);
    FinalStates();
    FinalIffSaid(st.records, op, OpSettled);
    FinalIffSaid(st.records, op, OpRejected);
    FinalIffSaid(st.records, op, OpReconciled);
    SaidIffRecorded(st.records, op);
  }

  lemma NoRecords()
    ensures AllAnnounced(INITIAL.records)
  {
  }

  lemma FinalStates()
    ensures Terminal(OpSettled) && Terminal(OpRejected) && Terminal(OpReconciled)
  {
  }
}
