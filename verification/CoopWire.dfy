/**
 Native co-op envelopes after parsing, and the relations the wire parser enforces between their
 fields. Identifiers, digests and epochs are strings; generations are naturals. A `rest` stands for the
 fields that are only ever compared as a whole.
 */
module CoopWire {
  import opened Outcomes

  const PROTOCOL_VERSION: string := "coop-native-v1"
  const SCHEMA_DIGEST: string := "2f3bc99e53080fa11b39592b64fb0ab964a16f568719a2622d0b2caf766ab629"

  datatype Status = Accepted | Settled | Rejected | Unknown

  datatype ChecksumStatus =
    Available | Unavailable | ChecksumUnknown | Disabled | EnabledUnread | Enabled | Divergent | Matched

  datatype PeerRole = Local | Ally

  datatype RecoveryKind = Reconcile | Rejoin

  datatype Header = Header(
    correlationId: string, instanceId: string, sessionId: string, leaseId: string, leaseEpoch: nat)

  datatype Peer = Peer(
    token: string, authorityId: string, role: PeerRole, connected: bool, stateDigest: string,
    checkpointId: Option<string>, digestKnown: bool, loading: bool, divergent: bool, rest: string)

  datatype Observation = Observation(
    hostAuthorityEpoch: string, authorityId: string, runId: string, hostGeneration: nat,
    stateDigest: string, checkpointId: string, checksumStatus: ChecksumStatus,
    nativeChecksum: Option<string>, hostDigestKnown: bool, hostLoading: bool, hostDivergent: bool,
    peers: seq<Peer>, rest: string)

  datatype Effect = Effect(
    operationId: string, fromGeneration: nat, toGeneration: nat, stateDigest: string,
    authorityEpoch: string, checkpointId: string, authorityId: string)

  datatype Receipt = Receipt(
    operationId: string, status: Status, beforeGeneration: nat, afterGeneration: Option<nat>,
    authorityId: string, authorityEpoch: string, checkpointId: string, stateDigest: string)

  datatype Action = Action(kind: string, actionId: string, targetPeer: Option<string>)

  datatype Vote = Vote(proposalId: string, voterPeer: string, choice: string)

  datatype Recovery = Recovery(kind: RecoveryKind, rejoinEpoch: nat)

  datatype Catalog = Catalog(hostGeneration: nat, actorPeer: string, actions: seq<Action>, votes: seq<Vote>)

  datatype Body =
    | ObservationBody(seen: Observation)
    | CatalogRequest(actor: string, generation: nat)
    | CatalogResponse(actor: string, generation: nat, seen: Observation, catalog: Catalog)
    | LocalActionRequest(operationId: string, actor: string, generation: nat, action: Action)
    | SharedVoteRequest(operationId: string, actor: string, generation: nat, vote: Vote)
    | RejoinRequest(operationId: string, actor: string, generation: nat, recovery: Recovery)
    | EffectResponse(operationId: string, status: Status, seen: Observation, effect: Option<Effect>, proof: Receipt)
    | RecoveryResponse(operationId: string, outcome: Option<Status>, observed: Option<Observation>,
                       recovery: Recovery, evidence: Option<Receipt>)

  datatype Envelope = Envelope(protocolVersion: string, schemaDigest: string, header: Header, body: Body)

  // ---------- Accessors ----------

  function OperationOf(e: Envelope): Option<string> {
    match e.body
    case ObservationBody(_) => None
    case CatalogRequest(_, _) => None
    case CatalogResponse(_, _, _, _) => None
    case _ => Some(e.body.operationId)
  }

  function GenerationOf(e: Envelope): Option<nat> {
    match e.body
    case ObservationBody(_) => None
    case EffectResponse(_, _, _, _, proof) => Some(proof.beforeGeneration)
    case RecoveryResponse(_, _, _, _, evidence) => if evidence.Some? then Some(evidence.value.beforeGeneration) else None
    case _ => Some(e.body.generation)
  }

  function ReceiptOf(e: Envelope): Option<Receipt> {
    match e.body
    case EffectResponse(_, _, _, _, proof) => Some(proof)
    case RecoveryResponse(_, _, _, _, evidence) => evidence
    case _ => None
  }

  function ActionIdOf(e: Envelope): Option<string> {
    match e.body
    case LocalActionRequest(_, _, _, action) => Some(action.actionId)
    case _ => None
  }

  function ObservationOf(e: Envelope): Option<Observation> {
    match e.body
    case ObservationBody(seen) => Some(seen)
    case CatalogResponse(_, _, seen, _) => Some(seen)
    case EffectResponse(_, _, seen, _, _) => Some(seen)
    case RecoveryResponse(_, _, observed, _, _) => observed
    case _ => None
  }

  function ActorOf(e: Envelope): Option<string> {
    match e.body
    case ObservationBody(_) => None
    case EffectResponse(_, _, _, _, _) => None
    case RecoveryResponse(_, _, _, _, _) => None
    case _ => Some(e.body.actor)
  }

  predicate IsRequest(e: Envelope) {
    e.body.CatalogRequest? || e.body.LocalActionRequest? || e.body.SharedVoteRequest? || e.body.RejoinRequest?
  }

  /** The first peer whose role is local. */
  function LocalPeer(peers: seq<Peer>): Option<string> {
    if peers == [] then None
    else if peers[0].role == Local then Some(peers[0].token)
    else LocalPeer(peers[1..])
  }

  predicate SameFence(a: Header, b: Header) {
    a.instanceId == b.instanceId && a.sessionId == b.sessionId && a.leaseId == b.leaseId && a.leaseEpoch == b.leaseEpoch
  }

  // ---------- The parser's relations ----------

  predicate ObservationParses(o: Observation) {
    && 2 <= |o.peers| <= 4
    && (forall i, j :: 0 <= i < j < |o.peers| ==> o.peers[i].token != o.peers[j].token)
    && exists k :: 0 <= k < |o.peers| && o.peers[k].role == Local
                   && forall i :: 0 <= i < |o.peers| && o.peers[i].role == Local ==> i == k
  }

  /** The receipt describes the observed state. */
  predicate Describes(r: Receipt, o: Observation) {
    && r.stateDigest == o.stateDigest
    && r.authorityId == o.authorityId
    && r.authorityEpoch == o.hostAuthorityEpoch
    && r.checkpointId == o.checkpointId
  }

  predicate EffectResponseParses(operationId: string, status: Status, o: Observation, effect: Option<Effect>, r: Receipt) {
    && ObservationParses(o)
    && (status == Settled <==> effect.Some?)
    && r.operationId == operationId && r.status == status
    && (effect.Some? ==>
          var f := effect.value;
          && f.fromGeneration < f.toGeneration
          && f.operationId == operationId && f.toGeneration == o.hostGeneration && f.stateDigest == o.stateDigest
          && f.authorityEpoch == o.hostAuthorityEpoch && f.checkpointId == o.checkpointId && f.authorityId == o.authorityId
          && r.beforeGeneration == f.fromGeneration && r.afterGeneration == Some(f.toGeneration))
    && Describes(r, o)
    && (status == Settled ==>
          r.afterGeneration == Some(o.hostGeneration) && r.beforeGeneration < o.hostGeneration)
    && (status != Settled ==> r.afterGeneration == None && r.beforeGeneration == o.hostGeneration)
  }

  predicate RecoveryResponseParses(operationId: string, status: Option<Status>, o: Option<Observation>,
                                   recovery: Recovery, r: Option<Receipt>)
  {
    && (o.Some? ==> ObservationParses(o.value))
    && (match status
        case None => o.None? && r.None? && recovery.kind == Reconcile
        case Some(Accepted) => false
        case Some(Unknown) => o.Some? && r.Some?
        case Some(_) => o.Some? && r.Some? && recovery.kind == Reconcile)
    && (o.Some? && r.Some? ==>
          && r.value.operationId == operationId && Describes(r.value, o.value)
          && (status == Some(Unknown) ==> r.value.status == Accepted || r.value.status == Unknown)
          && (status == Some(Settled) ==> r.value.status == Settled)
          && (status == Some(Rejected) ==> r.value.status == Rejected)
          && RecoveryGenerations(status, o.value.hostGeneration, recovery.kind, r.value))
  }

  /** An accepted rejoin may repeat its generation; a settled recovery names the observed one. */
  predicate RecoveryGenerations(status: Option<Status>, observed: nat, kind: RecoveryKind, r: Receipt) {
    match status
    case Some(Unknown) =>
      && r.beforeGeneration == observed
      && (r.status == Accepted && kind == Rejoin ==> r.afterGeneration == Some(observed))
      && (r.status == Accepted && kind != Rejoin ==> r.afterGeneration == None)
      && (r.status == Unknown ==> r.afterGeneration == None)
    case Some(Settled) => r.afterGeneration == Some(observed)
    case Some(Rejected) => r.afterGeneration == None
    case _ => true
  }

  /** What a parsed envelope satisfies; the grammars of single fields are not part of the model. */
  predicate Parses(e: Envelope) {
    && e.protocolVersion == PROTOCOL_VERSION && e.schemaDigest == SCHEMA_DIGEST
    && match e.body
       case ObservationBody(seen) => ObservationParses(seen)
       case CatalogResponse(actor, generation, seen, catalog) =>
         && ObservationParses(seen)
         && catalog.actorPeer == actor && catalog.hostGeneration == generation && seen.hostGeneration == generation
       case RejoinRequest(_, _, _, recovery) => recovery.kind == Rejoin
       case EffectResponse(operationId, status, seen, effect, proof) =>
         EffectResponseParses(operationId, status, seen, effect, proof)
       case RecoveryResponse(operationId, status, observed, recovery, evidence) =>
         RecoveryResponseParses(operationId, status, observed, recovery, evidence)
       case _ => true
  }

  /** A settled recovery response may repeat the generation, or even precede it. */
  lemma SettledRecoveryNeedNotAdvance(header: Header, o: Observation, before: nat)
    requires ObservationParses(o)
    ensures exists e :: Parses(e) && e.header == header && e.body.RecoveryResponse? && e.body.outcome == Some(Settled)
                        && e.body.observed == Some(o) && e.body.evidence.Some?
                        && e.body.evidence.value.beforeGeneration == before
  {
    var r := Receipt("op", Settled, before, Some(o.hostGeneration), o.authorityId, o.hostAuthorityEpoch,
                     o.checkpointId, o.stateDigest);
    var e := Envelope(PROTOCOL_VERSION, SCHEMA_DIGEST, header,
                      RecoveryResponse("op", Some(Settled), Some(o), Recovery(Reconcile, 0), Some(r)));
    assert Parses(e);
  }
}
