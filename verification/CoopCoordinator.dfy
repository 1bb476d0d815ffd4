/**
 The native co-op coordinator: an event log, an operation table, a set of seen digests and a port
 that receives each new envelope once. `digest` stands for the SHA-256 of an envelope's JSON, and
 a record's `envelope` for the JSON it stores. The port's answers are inputs of each step.
 */
module CoopCoordinator {
  import opened Outcomes
  import opened CoopWire

  const MAX_LOG: nat := 256

  datatype EventKind =
    | Observed | CatalogRequested | CatalogObserved | ActionRequested | VoteRequested | RejoinRequested
    | EffectAccepted | EffectSettled | EffectRejected | EffectUnknown | ReconcileRequested | ReconciledEvent
    | DuplicateReplay

  datatype OperationState = OpRequested | OpAccepted | OpSettled | OpRejected | OpUnknown | OpReconciled

  datatype PortError = PortRejected | PortUnavailable | PortInvalidEnvelope

  datatype CoordinatorError =
    | EnvelopeIdentity | PortFailure(error: PortError) | Unadmitted | TooManyRecords | MissingOperation
    | OperationConflict | ReconciliationMismatch | WrongReconciliation | CanonicalPeerMismatch
    | RouteFenceMismatch | Serialization | NoBlindRetry

  datatype Record = Record(
    sequence: nat, event: EventKind, state: Option<OperationState>, header: Header,
    operationId: Option<string>, actionId: Option<string>, envelope: Envelope, digest: string)

  datatype LogReceipt = LogReceipt(
    sequence: nat, event: EventKind, state: Option<OperationState>, operationId: Option<string>)

  datatype Attribution = Attribution(expectedGeneration: Option<nat>, actor: string, route: Header)

  datatype Entry = Entry(state: OperationState, digest: string, attribution: Attribution)

  /** The harness identities around an envelope that the coordinator compares. */
  datatype Lineage = Lineage(
    instanceId: string, sessionId: string, runId: string, operationId: Option<string>, actionId: Option<string>)

  datatype Config = Config(lineage: Lineage, admitted: bool, digest: Envelope -> string)

  /** `delivered` is what the port has successfully consumed, in order. */
  datatype State = State(
    records: seq<Record>, operations: map<string, Entry>, seen: map<string, nat>, delivered: seq<Envelope>)

  const INITIAL: State := State([], map[], map[], [])

  // ---------- One step ----------

  function LineageMatches(l: Lineage, e: Envelope): bool {
    && e.header.instanceId == l.instanceId && e.header.sessionId == l.sessionId
    && (l.operationId.Some? ==> OperationOf(e) == l.operationId)
    && (l.actionId.Some? ==> ActionIdOf(e) == l.actionId)
    && (ObservationOf(e).Some? ==> ObservationOf(e).value.runId == l.runId)
  }

  function EntryOf(st: State, e: Envelope): Option<Entry> {
    var op := OperationOf(e);
    if op.Some? && op.value in st.operations then Some(st.operations[op.value]) else None
  }

  function StateOf(st: State, op: string): Option<OperationState> {
    if op in st.operations then Some(st.operations[op].state) else None
  }

  function EntryState(entry: Option<Entry>): Option<OperationState> {
    if entry.Some? then Some(entry.value.state) else None
  }

  function EventOf(status: Status): EventKind {
    match status
    case Accepted => EffectAccepted
    case Settled => EffectSettled
    case Rejected => EffectRejected
    case Unknown => EffectUnknown
  }

  function OperationStateOf(status: Status): OperationState {
    match status
    case Accepted => OpAccepted
    case Settled => OpSettled
    case Rejected => OpRejected
    case Unknown => OpUnknown
  }

  type Classified = Result<(EventKind, Option<OperationState>), CoordinatorError>

  function ClassifyRecovery(status: Option<Status>, current: Option<OperationState>): Classified {
    if current.None? then Err(MissingOperation)
    else
      match status
      case None =>
        if current.value != OpUnknown then Err(ReconciliationMismatch) else Ok((ReconcileRequested, current))
      case Some(Unknown) =>
        if current.value != OpRequested && current.value != OpUnknown then Err(OperationConflict)
        else Ok((EffectUnknown, Some(OpUnknown)))
      case Some(_) =>
        if current.value != OpUnknown then Err(ReconciliationMismatch) else Ok((ReconciledEvent, Some(OpReconciled)))
  }

  function Classify(e: Envelope, current: Option<OperationState>): Classified {
    match e.body
    case ObservationBody(_) => Ok((Observed, None))
    case CatalogRequest(_, _) => Ok((CatalogRequested, None))
    case CatalogResponse(_, _, _, _) => Ok((CatalogObserved, None))
    case LocalActionRequest(_, _, _, _) => Ok((ActionRequested, Some(OpRequested)))
    case SharedVoteRequest(_, _, _, _) => Ok((VoteRequested, Some(OpRequested)))
    case RejoinRequest(_, _, _, _) => Ok((RejoinRequested, Some(OpRequested)))
    case EffectResponse(_, status, _, _, _) =>
      if current.None? then Err(MissingOperation)
      else if current.value != OpRequested && current.value != OpAccepted then Err(OperationConflict)
      else Ok((EventOf(status), Some(OperationStateOf(status))))
    case RecoveryResponse(_, status, _, _, _) => ClassifyRecovery(status, current)
  }

  /** `validate_observation_peer`: the observed local peer is the scheduled actor. */
  predicate PeerMatches(e: Envelope, entry: Option<Entry>) {
    var o := ObservationOf(e);
    o.Some? ==>
      var local := LocalPeer(o.value.peers);
      var scheduled := if entry.Some? then Some(entry.value.attribution.actor) else ActorOf(e);
      local.Some? && (scheduled.Some? ==> scheduled == local)
  }

  predicate FencedGeneration(e: Envelope, entry: Option<Entry>) {
    entry.Some? && entry.value.attribution.expectedGeneration.Some? && ReceiptOf(e).Some? ==>
      entry.value.attribution.expectedGeneration.value == ReceiptOf(e).value.beforeGeneration
  }

  /** Everything that is checked before the duplicate test. */
  function RouteError(cfg: Config, e: Envelope, entry: Option<Entry>): Option<CoordinatorError> {
    if entry.Some? && !IsRequest(e) && !SameFence(e.header, entry.value.attribution.route) then Some(RouteFenceMismatch)
    else if !LineageMatches(cfg.lineage, e) then Some(EnvelopeIdentity)
    else None
  }

  /** Everything that is checked between the duplicate test and the delivery. */
  function Admit(e: Envelope, entry: Option<Entry>, digest: string): Classified {
    if entry.Some? && IsRequest(e) && entry.value.digest != digest then Err(OperationConflict)
    else if !FencedGeneration(e, entry) then Err(OperationConflict)
    else if !PeerMatches(e, entry) then Err(CanonicalPeerMismatch)
    else Classify(e, EntryState(entry))
  }

  function RecordFor(st: State, e: Envelope, digest: string, event: EventKind, state: Option<OperationState>): Record {
    Record(|st.records|, event, state, e.header, OperationOf(e), ActionIdOf(e), e, digest)
  }

  function ReceiptFor(r: Record): LogReceipt {
    LogReceipt(r.sequence, r.event, r.state, r.operationId)
  }

  function Append(st: State, r: Record): State {
    st.(records := st.records + [r])
  }

  /** `consume_inner`. The port's answer matters only when the envelope reaches it. */
  function ConsumeInner(cfg: Config, st: State, e: Envelope, port: Result<(), PortError>)
    : (State, Result<LogReceipt, CoordinatorError>)
  {
    var entry, digest := EntryOf(st, e), cfg.digest(e);
    var route := RouteError(cfg, e, entry);
    if route.Some? then (st, Err(route.value))
    else if digest in st.seen then
      if |st.records| >= MAX_LOG then (st, Err(TooManyRecords))
      else
        var r := RecordFor(st, e, digest, DuplicateReplay, EntryState(entry));
        (Append(st, r), Ok(ReceiptFor(r)))
    else
      var admitted := Admit(e, entry, digest);
      if admitted.Err? then (st, Err(admitted.error))
      else if port.Err? then (st, Err(PortFailure(port.error)))
      else Commit(st.(delivered := st.delivered + [e]), e, digest, admitted.value.0, admitted.value.1)
  }

  /** What happens after a successful delivery. */
  function Commit(st: State, e: Envelope, digest: string, event: EventKind, next: Option<OperationState>)
    : (State, Result<LogReceipt, CoordinatorError>)
  {
    if |st.records| >= MAX_LOG then (st, Err(TooManyRecords))
    else
      var r := RecordFor(st, e, digest, event, next);
      var logged := Append(st, r).(seen := st.seen[digest := r.sequence]);
      var op := OperationOf(e);
      if op.None? then (logged, Ok(ReceiptFor(r)))
      else if next.None? then (logged, Err(Serialization))
      else if op.value in st.operations then
        var entry := st.operations[op.value].(state := next.value);
        (logged.(operations := st.operations[op.value := entry]), Ok(ReceiptFor(r)))
      else if ActorOf(e).None? then (logged, Err(Serialization))
      else
        var entry := Entry(next.value, digest, Attribution(GenerationOf(e), ActorOf(e).value, e.header));
        (logged.(operations := st.operations[op.value := entry]), Ok(ReceiptFor(r)))
  }

  /** The public calls. */
  datatype Call =
    | Consume(envelope: Envelope, port: Result<(), PortError>)
    | ConsumeFixture(envelope: Envelope, port: Result<(), PortError>)
    | Reconcile(envelope: Envelope, port: Result<(), PortError>)
    | ReconcileFixture(envelope: Envelope, port: Result<(), PortError>)
    | RetryUnknown(operation: string)

  function Perform(cfg: Config, st: State, c: Call): (State, Result<LogReceipt, CoordinatorError>) {
    match c
    case Consume(e, port) => if !cfg.admitted then (st, Err(Unadmitted)) else ConsumeInner(cfg, st, e, port)
    case ConsumeFixture(e, port) => ConsumeInner(cfg, st, e, port)
    case Reconcile(e, port) =>
      if !e.body.RecoveryResponse? then (st, Err(WrongReconciliation))
      else if !cfg.admitted then (st, Err(Unadmitted))
      else ConsumeInner(cfg, st, e, port)
    case ReconcileFixture(e, port) =>
      if !e.body.RecoveryResponse? then (st, Err(WrongReconciliation)) else ConsumeInner(cfg, st, e, port)
    case RetryUnknown(op) => (st, Err(if StateOf(st, op) == Some(OpUnknown) then NoBlindRetry else MissingOperation))
  }

  function Run(cfg: Config, st: State, calls: seq<Call>): State
    decreases |calls|
  {
    if calls == [] then st else Run(cfg, Perform(cfg, st, calls[0]).0, calls[1..])
  }

  predicate CallParses(c: Call) {
    !c.RetryUnknown? ==> Parses(c.envelope)
  }

  // ---------- The object of the source ----------

  class Coordinator {
    const cfg: Config
    var records: seq<Record>
    var operations: map<string, Entry>
    var seen: map<string, nat>
    var delivered: seq<Envelope>

    ghost function Value(): State
      reads this
    {
      State(records, operations, seen, delivered)
    }

    constructor (cfg: Config)
      ensures this.cfg == cfg && Value() == INITIAL
    {
      this.cfg := cfg;
      records, operations, seen, delivered := [], map[], map[], [];
    }

    /** `append_record`. */
    method AppendRecord(e: Envelope, digest: string, event: EventKind, state: Option<OperationState>)
      returns (r: Result<LogReceipt, CoordinatorError>)
      modifies this`records
      ensures r.Err? <==> |old(records)| >= MAX_LOG
      ensures r.Err? ==> r.error == TooManyRecords && records == old(records)
      ensures r.Ok? ==> && records == old(records) + [RecordFor(old(Value()), e, digest, event, state)]
                        && r.value == ReceiptFor(RecordFor(old(Value()), e, digest, event, state))
    {
      if |records| >= MAX_LOG {
        return Err(TooManyRecords);
      }
      var sequence := |records|;
      records := records + [Record(sequence, event, state, e.header, OperationOf(e), ActionIdOf(e), e, digest)];
      return Ok(LogReceipt(sequence, event, state, OperationOf(e)));
    }

    /** `consume_inner`. */
    method ConsumeEnvelope(e: Envelope, port: Result<(), PortError>) returns (r: Result<LogReceipt, CoordinatorError>)
      modifies this
      ensures (Value(), r) == ConsumeInner(cfg, old(Value()), e, port)
    {
      var operation := OperationOf(e);
      var entry := if operation.Some? && operation.value in operations then Some(operations[operation.value]) else None;
      if entry.Some? && !IsRequest(e) && !SameFence(e.header, entry.value.attribution.route) {
        return Err(RouteFenceMismatch);
      }
      if !LineageMatches(cfg.lineage, e) {
        return Err(EnvelopeIdentity);
      }
      var digest := cfg.digest(e);
      if digest in seen {
        r := AppendRecord(e, digest, DuplicateReplay, EntryState(entry));
        return;
      }
      if entry.Some? && IsRequest(e) && entry.value.digest != digest {
        return Err(OperationConflict);
      }
      if !FencedGeneration(e, entry) {
        return Err(OperationConflict);
      }
      if !PeerMatches(e, entry) {
        return Err(CanonicalPeerMismatch);
      }
      var classified := Classify(e, EntryState(entry));
      if classified.Err? {
        return Err(classified.error);
      }
      var (event, next) := classified.value;
      if port.Err? {
        return Err(PortFailure(port.error));
      }
      delivered := delivered + [e];
      r := AppendRecord(e, digest, event, next);
      if r.Err? {
        return;
      }
      seen := seen[digest := r.value.sequence];
      if operation.Some? {
        if next.None? {
          return Err(Serialization);
        }
        if operation.value in operations {
          operations := operations[operation.value := operations[operation.value].(state := next.value)];
        } else if ActorOf(e).None? {
          return Err(Serialization);
        } else {
          var attribution := Attribution(GenerationOf(e), ActorOf(e).value, e.header);
          operations := operations[operation.value := Entry(next.value, digest, attribution)];
        }
      }
    }

    /** Any public call. */
    method Invoke(c: Call) returns (r: Result<LogReceipt, CoordinatorError>)
      modifies this
      ensures (Value(), r) == Perform(cfg, old(Value()), c)
    {
      match c
      case Consume(e, port) =>
        if !cfg.admitted {
          return Err(Unadmitted);
        }
        r := ConsumeEnvelope(e, port);
      case ConsumeFixture(e, port) =>
        r := ConsumeEnvelope(e, port);
      case Reconcile(e, port) =>
        if !e.body.RecoveryResponse? {
          return Err(WrongReconciliation);
        }
        if !cfg.admitted {
          return Err(Unadmitted);
        }
        r := ConsumeEnvelope(e, port);
      case ReconcileFixture(e, port) =>
        if !e.body.RecoveryResponse? {
          return Err(WrongReconciliation);
        }
        r := ConsumeEnvelope(e, port);
      case RetryUnknown(op) =>
        if op in operations && operations[op].state == OpUnknown {
          return Err(NoBlindRetry);
        } else {
          return Err(MissingOperation);
        }
    }
  }
}
