/**
 The lookup session: admission of one query, one dispatch, validation of the answer against the pages
 retained so far, retention in an append-only corpus, and replay from retained bytes.
 Everything the session only compares or hashes (schemas, capabilities, views) is a parameter.
 */
module LookupSession {
  import opened Outcomes
  import opened Sorting
  import opened Text
  import opened LookupItems

  const MAX_PAGES := 16
  const MAX_RECORDS := 256
  const MAX_SOURCE_BYTES := 64 * 1024
  const RECORD_SCHEMA := "ascension.game-information-record.v1"

  datatype LookupError =
    | Invalid | Scope | MissingCapability | Reobserve | Bounds | Transport | Retention | MissingRetention | Divergence
    | Producer(code: string)

  const PRODUCER_CODES := {
    "unknown_kind", "unknown_id", "ambiguous_id", "unsupported_filter", "unsupported_projection", "unsupported_version",
    "denied_scope", "stale_snapshot", "stale_cursor", "result_limit_exceeded", "missing_capability", "unsupported_field",
    "invalid_identity", "invalid_bounds", "mixed_generation", "malformed", "read_only_violation"}

  // ---------- Messages ----------

  datatype Snapshot = Snapshot(stateGeneration: Option<nat>, rest: string)

  datatype LiveBinding = LiveBinding(snapshotRef: Snapshot, runId: string)

  datatype Query = Query(cursor: Option<string>, live: Option<LiveBinding>, contentManifestId: string, locale: string, rest: string)

  datatype Request = Request(correlation: string, query: Query)

  datatype Page = Page(
    items: seq<Item>, ordering: Ordering, totalCount: Option<nat>, totalKnown: bool, coverage: string,
    finalPage: bool, nextCursor: Option<string>)

  datatype Response =
    | Failure(correlation: string, echo: Option<Query>, code: Option<string>)
    | Answer(correlation: string, query: Query, page: Page, rest: string)

  // ---------- Session ----------

  datatype MemoryScope = MemoryScope(runId: string, rest: string)

  datatype Binding = Binding(
    scope: MemoryScope, gameProfile: string, contentManifestId: string, locale: string, authorityEpoch: nat,
    snapshot: Option<Snapshot>)

  datatype Ref = Ref(entryId: string, sha256: string)

  datatype Record = Record(
    schema: string, binding: Binding, operationId: string, pageSequence: nat, request: Request,
    sourceSha: Option<string>, source: Option<Ref>, sourceBytes: nat, viewSha: Option<string>, error: Option<LookupError>)

  /** What the model sees of an answer: all of it, or a reference to the retained bytes. */
  datatype View =
    | Full(sourceSha: Option<string>, binding: Binding, answer: Response)
    | Reference(source: Option<Ref>, sourceSha: Option<string>, byteLength: nat)

  datatype Delivery = Delivery(record: Record, data: View)

  datatype Paging = Paging(first: Query, next: Option<string>, count: nat)

  datatype Session = Session(
    binding: Binding, capabilities: Option<string>, records: seq<Record>, pages: map<string, Paging>, budget: nat,
    replayCursor: nat, now: string, expiresAt: string)

  /** A memory entry; `guarded` is the source's protection flag. */
  datatype Held = Held(
    content: seq<byte>, scope: MemoryScope, gameProfile: string, branch: string, guarded: bool, expiresAt: string)

  datatype Corpus = Corpus(scope: MemoryScope, entries: map<Ref, Held>)

  datatype Env = Env(
    validRequest: Request -> bool,
    closed: (Request, Response) -> bool,
    decode: seq<byte> -> Option<Response>,
    toolKnown: Request -> bool,
    admitCapabilities: (string, Request) -> Option<LookupError>,
    maxMessageBytes: string -> Option<nat>,
    maxCursorBytes: string -> nat,
    fieldsKnown: (string, Page) -> bool,
    sha: seq<byte> -> string,
    entryId: Record -> string,
    validTimestamp: string -> bool,
    viewSize: View -> nat,
    viewSha: View -> string,
    policyValid: MemoryScope -> bool)

  // ---------- Validation ----------

  /** `validate_response`: the echo of the request, then the closed schema and the accounting. */
  predicate ValidResponse(env: Env, request: Request, response: Response) {
    && env.validRequest(request) && response.correlation == request.correlation
    && (match response
        case Failure(_, echo, _) => echo.None? || echo.value == request.query
        case Answer(_, query, _, _) => query == request.query)
    && env.closed(request, response)
  }

  function ProducerError(code: Option<string>): LookupError {
    if code.None? then Invalid
    else if code.value in {"stale_snapshot", "stale_cursor", "mixed_generation"} then Reobserve
    else if code.value in PRODUCER_CODES then Producer(code.value)
    else Invalid
  }

  predicate SameOwner(a: Binding, b: Binding) {
    a.(snapshot := None) == b.(snapshot := None)
  }

  predicate ValidOperation(operation: string) {
    && 1 <= |operation| <= 128
    && forall c :: c in operation ==> 'a' <= c <= 'z' || 'A' <= c <= 'Z' || '0' <= c <= '9' || c in "._:-"
  }

  /** `admit`. */
  function AdmitError(env: Env, s: Session, corpus: Corpus, binding: Binding, operation: string, request: Request)
    : Option<LookupError>
  {
    var query := request.query;
    if !env.policyValid(corpus.scope) then Some(Scope)
    else if binding != s.binding || !ValidOperation(operation) then Some(Scope)
    else if |s.records| >= MAX_RECORDS then Some(Bounds)
    else if !env.validRequest(request) then Some(Invalid)
    else if query.contentManifestId != s.binding.contentManifestId || query.locale != s.binding.locale then Some(Scope)
    else if query.live.Some? && (s.binding.snapshot.None? || query.live.value.snapshotRef != s.binding.snapshot.value
                                 || query.live.value.runId != s.binding.scope.runId) then Some(Reobserve)
    else if s.capabilities.None? then Some(MissingCapability)
    else env.admitCapabilities(s.capabilities.value, request)
  }

  /** `page_sequence`: the first page of an operation, or the page that its last next-cursor asks for. */
  function PageSequence(s: Session, operation: string, query: Query): Result<nat, LookupError> {
    var bare := query.(cursor := None);
    if operation !in s.pages then if query.cursor.None? then Ok(0) else Err(Divergence)
    else
      var p := s.pages[operation];
      if p.first == bare && p.next == query.cursor && p.next.Some? && p.count < MAX_PAGES then Ok(p.count) else Err(Divergence)
  }

  // ---------- Retention ----------

  const BRANCH := "game-information"

  /** `a` is before `b` in the byte order that timestamps are compared by. */
  predicate Before(a: string, b: string) {
    !TextLe(b, a)
  }

  /** An entry is alive while a valid clock has not reached its expiry. */
  predicate Alive(env: Env, held: Held, now: string) {
    env.validTimestamp(now) && Before(now, held.expiresAt)
  }

  /** What `read_content` serves to a lookup that reads at `now`. */
  predicate Readable(env: Env, corpus: Corpus, held: Held, now: string) {
    held.scope == corpus.scope && held.branch == BRANCH && !held.guarded && Alive(env, held, now)
  }

  /** `retained`. */
  function Retained(env: Env, corpus: Corpus, now: string, record: Record): Result<seq<byte>, LookupError> {
    if record.source.None? || record.source.value !in corpus.entries then Err(MissingRetention)
    else
      var held := corpus.entries[record.source.value];
      if held.scope != record.binding.scope || held.gameProfile != record.binding.gameProfile then Err(Scope)
      else if !Readable(env, corpus, held, now) then Err(MissingRetention)
      else if Some(env.sha(held.content)) != record.sourceSha || |held.content| != record.sourceBytes then Err(Divergence)
      else Ok(held.content)
  }

  /** The entry that an answer is retained as. */
  function HeldBy(s: Session, raw: seq<byte>): Held {
    Held(raw, s.binding.scope, s.binding.gameProfile, BRANCH, false, s.expiresAt)
  }

  /** `MemoryEntry::validate` for an entry created at `now`: among other things it expires later. */
  predicate ValidEntry(env: Env, held: Held, now: string) {
    1 <= |held.content| <= MAX_SOURCE_BYTES && env.validTimestamp(held.expiresAt) && Alive(env, held, now)
  }

  /**
   `MemoryCorpus::admit`: a valid entry of the corpus's scope. The same identifier again must bring the
   same content, and then what is held stays as it is.
   */
  function AdmitEntry(env: Env, corpus: Corpus, entryId: string, held: Held, now: string, accepts: bool): Option<Corpus> {
    if !accepts || !ValidEntry(env, held, now) || held.scope != corpus.scope then None
    else if exists r | r in corpus.entries :: r.entryId == entryId then
      if exists r | r in corpus.entries :: r.entryId == entryId && corpus.entries[r].content == held.content
      then Some(corpus) else None
    else Some(corpus.(entries := corpus.entries[Ref(entryId, env.sha(held.content)) := held]))
  }

  // ---------- The chain of pages ----------

  predicate SameListing(a: Page, b: Page) {
    a.ordering == b.ordering && a.totalCount == b.totalCount && a.totalKnown == b.totalKnown && a.coverage == b.coverage
  }

  predicate OfOperation(record: Record, operation: string) {
    record.operationId == operation && record.source.Some?
  }

  /** One earlier record against the new page: its items, or what is wrong. */
  function EarlierPage(env: Env, corpus: Corpus, now: string, record: Record, page: Page): Result<seq<Item>, LookupError> {
    match Retained(env, corpus, now, record)
    case Err(e) => Err(e)
    case Ok(bytes) =>
      match env.decode(bytes)
      case None => Err(Invalid)
      case Some(Failure(_, _, _)) => Err(Divergence)
      case Some(Answer(_, _, earlier, _)) =>
        if !SameListing(earlier, page) then Err(Divergence)
        else if page.nextCursor.Some? && record.request.query.cursor == page.nextCursor then Err(Divergence)
        else Ok(earlier.items)
  }

  /** The items retained for an operation so far, in record order. */
  function EarlierItems(env: Env, corpus: Corpus, now: string, records: seq<Record>, operation: string, page: Page)
    : Result<seq<Item>, LookupError>
  {
    if records == [] then Ok([])
    else
      var n := |records| - 1;
      match EarlierItems(env, corpus, now, records[..n], operation, page)
      case Err(e) => Err(e)
      case Ok(items) =>
        if !OfOperation(records[n], operation) then Ok(items)
        else
          match EarlierPage(env, corpus, now, records[n], page)
          case Err(e) => Err(e)
          case Ok(more) => Ok(items + more)
  }

  function Identities(items: seq<Item>): (ids: seq<Identity>)
    ensures |ids| == |items|
    ensures forall i :: 0 <= i < |items| ==> ids[i] == IdentityOf(items[i])
  {
    if items == [] then [] else [IdentityOf(items[0])] + Identities(items[1..])
  }

  predicate CountsRight(page: Page, count: nat) {
    page.finalPage && page.coverage == "complete" && page.totalKnown ==> page.totalCount == Some(count)
  }

  /** What is wrong with all items of an operation taken together. */
  function ListingError(items: seq<Item>, page: Page): Option<LookupError> {
    if !Distinct(Identities(items)) then Some(Divergence)
    else if !Ordered(items, page.ordering) then Some(Invalid)
    else if !CountsRight(page, |items|) then Some(Divergence)
    else None
  }

  /** `validate_page_chain`. */
  function ChainError(env: Env, corpus: Corpus, now: string, records: seq<Record>, operation: string, cursor: Option<string>, page: Page)
    : Option<LookupError>
  {
    if page.nextCursor.Some? && page.nextCursor == cursor then Some(Divergence)
    else
      match EarlierItems(env, corpus, now, records, operation, page)
      case Err(e) => Some(e)
      case Ok(items) => ListingError(items + page.items, page)
  }

  lemma EarlierStops(env: Env, corpus: Corpus, now: string, records: seq<Record>, operation: string, page: Page, i: nat)
    requires i <= |records| && EarlierItems(env, corpus, now, records[..i], operation, page).Err?
    ensures EarlierItems(env, corpus, now, records, operation, page) == EarlierItems(env, corpus, now, records[..i], operation, page)
    decreases |records|
  {
    hide EarlierPage, OfOperation;
    if i < |records| {
      assert records[..|records| - 1][..i] == records[..i];
      EarlierStops(env, corpus, now, records[..|records| - 1], operation, page, i);
    } else {
      assert records[..i] == records;
    }
  }

  /** The loop of `validate_page_chain`, with the identity set it fills. */
  method ValidatePageChain(env: Env, corpus: Corpus, now: string, records: seq<Record>, operation: string, cursor: Option<string>, page: Page)
    returns (r: Option<LookupError>)
    ensures r == ChainError(env, corpus, now, records, operation, cursor, page)
  {
    hide EarlierPage, OfOperation, Ordered, Distinct;
    if page.nextCursor.Some? && page.nextCursor == cursor {
      return Some(Divergence);
    }
    var items: seq<Item> := [];
    for i := 0 to |records|
      invariant EarlierItems(env, corpus, now, records[..i], operation, page) == Ok(items)
    {
      assert records[..i + 1][..i] == records[..i];
      var record := records[i];
      if OfOperation(record, operation) {
        var more := EarlierPage(env, corpus, now, record, page);
        if more.Err? {
          EarlierStops(env, corpus, now, records, operation, page, i + 1);
          return Some(more.error);
        }
        items := items + more.value;
      }
    }
    assert records[..|records|] == records;
    items := items + page.items;
    var distinct := ValidateIdentities(items);
    if !distinct {
      return Some(Divergence);
    }
    var ordered := ValidateItemOrder(items, page.ordering);
    if !ordered {
      return Some(Invalid);
    }
    if !CountsRight(page, |items|) {
      return Some(Divergence);
    }
    return None;
  }

  method ValidateIdentities(items: seq<Item>) returns (distinct: bool)
    ensures distinct <==> Distinct(Identities(items))
  {
    var identities: set<Identity> := {};
    var ids := Identities(items);
    for i := 0 to |items|
      invariant Distinct(ids[..i])
      invariant identities == set id | id in ids[..i]
    {
      var key := IdentityOf(items[i]);
      assert ids[i] == key && ids[..i + 1] == ids[..i] + [key];
      if key in identities {
        ghost var j :| 0 <= j < i && ids[..i][j] == key;
        assert ids[j] == ids[i];
        return false;
      }
      identities := identities + {key};
    }
    assert ids[..|items|] == ids;
    return true;
  }

  // ---------- One query ----------

  function NewRecord(s: Session, operation: string, sequence: nat, request: Request): Record {
    Record(RECORD_SCHEMA, s.binding, operation, sequence, request, None, None, 0, None, None)
  }

  function ViewOf(env: Env, s: Session, record: Record, response: Response): View {
    var full := Full(record.sourceSha, record.binding, response);
    if env.viewSize(full) <= s.budget then full else Reference(record.source, record.sourceSha, record.sourceBytes)
  }

  /** `deliver`. */
  function Deliver(env: Env, s: Session, record: Record, response: Response): Result<Delivery, LookupError> {
    var view := ViewOf(env, s, record, response);
    if env.viewSize(view) > s.budget then Err(Bounds)
    else Ok(Delivery(record.(viewSha := Some(env.viewSha(view))), view))
  }

  /** The checks of `accept_source` that come before the corpus is touched; the answer if they all pass. */
  function CheckSource(env: Env, s: Session, corpus: Corpus, operation: string, request: Request, raw: seq<byte>)
    : Result<Response, LookupError>
  {
    if s.capabilities.None? then Err(MissingCapability)
    else
      var caps := s.capabilities.value;
      var limit := env.maxMessageBytes(caps);
      if |raw| > MAX_SOURCE_BYTES then Err(Bounds)
      else if limit.None? then Err(Invalid)
      else if |raw| > limit.value then Err(Bounds)
      else if env.decode(raw).None? then Err(Invalid)
      else
        var response := env.decode(raw).value;
        if !ValidResponse(env, request, response) then Err(Invalid)
        else if response.Failure? then Err(ProducerError(response.code))
        else if response.page.nextCursor.Some? && |Utf8(response.page.nextCursor.value)| > env.maxCursorBytes(caps) then Err(Bounds)
        else if !env.fieldsKnown(caps, response.page) then Err(MissingCapability)
        else
          match ChainError(env, corpus, s.now, s.records, operation, response.query.cursor, response.page)
          case Some(e) => Err(e)
          case None => Ok(response)
  }

  method CheckAnswer(env: Env, s: Session, corpus: Corpus, operation: string, request: Request, raw: seq<byte>)
    returns (r: Result<Response, LookupError>)
    ensures r == CheckSource(env, s, corpus, operation, request, raw)
  {
    hide ChainError, ValidResponse, ProducerError;
    if s.capabilities.None? {
      return Err(MissingCapability);
    }
    var caps := s.capabilities.value;
    var limit := env.maxMessageBytes(caps);
    if |raw| > MAX_SOURCE_BYTES {
      return Err(Bounds);
    }
    if limit.None? {
      return Err(Invalid);
    }
    if |raw| > limit.value {
      return Err(Bounds);
    }
    var decoded := env.decode(raw);
    if decoded.None? || !ValidResponse(env, request, decoded.value) {
      return Err(Invalid);
    }
    var response := decoded.value;
    if response.Failure? {
      return Err(ProducerError(response.code));
    }
    if response.page.nextCursor.Some? && |Utf8(response.page.nextCursor.value)| > env.maxCursorBytes(caps) {
      return Err(Bounds);
    }
    if !env.fieldsKnown(caps, response.page) {
      return Err(MissingCapability);
    }
    var error := ValidatePageChain(env, corpus, s.now, s.records, operation, response.query.cursor, response.page);
    if error.Some? {
      return Err(error.value);
    }
    return Ok(response);
  }

  function SourceRecord(env: Env, s: Session, operation: string, sequence: nat, request: Request, raw: seq<byte>): Record {
    var record := NewRecord(s, operation, sequence, request);
    record.(source := Some(Ref(env.entryId(record), env.sha(raw))), sourceSha := Some(env.sha(raw)), sourceBytes := |raw|)
  }

  /** `accept_source`: the corpus afterwards, and the delivery. */
  function AcceptSource(env: Env, s: Session, corpus: Corpus, operation: string, sequence: nat, request: Request,
                        raw: seq<byte>, accepts: bool): (Corpus, Result<Delivery, LookupError>)
  {
    match CheckSource(env, s, corpus, operation, request, raw)
    case Err(e) => (corpus, Err(e))
    case Ok(response) =>
      var record := SourceRecord(env, s, operation, sequence, request, raw);
      var held := HeldBy(s, raw);
      match AdmitEntry(env, corpus, record.source.value.entryId, held, s.now, accepts)
      case None => (corpus, Err(Retention))
      case Some(after) => (after, Deliver(env, s, record, response))
  }

  method RetainAnswer(env: Env, s: Session, corpus: Corpus, operation: string, sequence: nat, request: Request,
                      raw: seq<byte>, accepts: bool) returns (after: Corpus, r: Result<Delivery, LookupError>)
    ensures (after, r) == AcceptSource(env, s, corpus, operation, sequence, request, raw, accepts)
  {
    hide CheckSource, AdmitEntry, Deliver;
    var checked := CheckAnswer(env, s, corpus, operation, request, raw);
    if checked.Err? {
      return corpus, Err(checked.error);
    }
    var record := SourceRecord(env, s, operation, sequence, request, raw);
    var held := HeldBy(s, raw);
    var admitted := AdmitEntry(env, corpus, record.source.value.entryId, held, s.now, accepts);
    if admitted.None? {
      return corpus, Err(Retention);
    }
    return admitted.value, Deliver(env, s, record, checked.value);
  }

  /** How a query ends: the session and corpus after it, what the caller gets, and whether it was dispatched. */
  datatype Outcome = Outcome(session: Session, corpus: Corpus, result: Result<Delivery, LookupError>, dispatched: bool)

  function WithError(s: Session, operation: string, sequence: nat, request: Request, error: LookupError): Session {
    s.(records := s.records + [NewRecord(s, operation, sequence, request).(error := Some(error))])
  }

  /** `accept`. */
  function Accept(env: Env, s: Session, corpus: Corpus, operation: string, sequence: nat, request: Request,
                  raw: seq<byte>, accepts: bool): Outcome
  {
    var (after, result) := AcceptSource(env, s, corpus, operation, sequence, request, raw, accepts);
    match result
    case Err(e) => Outcome(WithError(s, operation, sequence, request, e), after, Err(e), true)
    case Ok(delivery) =>
      var response := env.decode(raw);
      var next := if response.Some? && response.value.Answer? then response.value.page.nextCursor else None;
      var paging := Paging(request.query.(cursor := None), next, sequence + 1);
      Outcome(s.(pages := s.pages[operation := paging], records := s.records + [delivery.record]), after, Ok(delivery), true)
  }

  /** `query` with the request it decoded and the answer the dispatch would give. */
  function QueryOnce(env: Env, s: Session, corpus: Corpus, binding: Binding, operation: string, request: Option<Request>,
                     reply: Result<seq<byte>, LookupError>, accepts: bool): Outcome
  {
    if request.None? then Outcome(s, corpus, Err(Invalid), false)
    else
      match AdmitError(env, s, corpus, binding, operation, request.value)
      case Some(e) => Outcome(s, corpus, Err(e), false)
      case None =>
        match PageSequence(s, operation, request.value.query)
        case Err(e) => Outcome(s, corpus, Err(e), false)
        case Ok(sequence) =>
          if !env.toolKnown(request.value) then Outcome(s, corpus, Err(MissingCapability), false)
          else
            match reply
            case Ok(raw) => Accept(env, s, corpus, operation, sequence, request.value, raw, accepts)
            case Err(e) => Outcome(WithError(s, operation, sequence, request.value, e), corpus, Err(e), true)
  }

  // ---------- Replay and retained reads ----------

  /** `replay`: the delivery that the retained bytes of a record give again. */
  function Replay(env: Env, s: Session, corpus: Corpus, record: Record, request: Request): Result<Delivery, LookupError> {
    var query := request.query;
    if !SameOwner(record.binding, s.binding) || record.request != request || corpus.scope != s.binding.scope
       || record.schema != RECORD_SCHEMA || query.contentManifestId != s.binding.contentManifestId
       || query.locale != s.binding.locale then Err(Divergence)
    else if !env.validRequest(request) then Err(Invalid)
    else if query.live.Some? && query.live.value.runId != record.binding.scope.runId then Err(Divergence)
    else if record.error.Some? then Err(record.error.value)
    else
      match Retained(env, corpus, s.now, record)
      case Err(e) => Err(e)
      case Ok(bytes) =>
        if env.decode(bytes).None? then Err(Invalid)
        else
          var response := env.decode(bytes).value;
          if !ValidResponse(env, request, response) then Err(Invalid)
          else if query.live.Some? && record.binding.snapshot != Some(query.live.value.snapshotRef) then Err(Divergence)
          else
            match Deliver(env, s, record, response)
            case Err(e) => Err(e)
            case Ok(delivery) => if delivery.record.viewSha != record.viewSha then Err(Divergence) else Ok(delivery)
  }

  /** `read_retained`. */
  function ReadRetained(env: Env, s: Session, corpus: Corpus, record: Record, offset: nat): Result<seq<byte>, LookupError> {
    if !SameOwner(record.binding, s.binding) || corpus.scope != s.binding.scope then Err(Scope)
    else
      match Replay(env, s, corpus, record, record.request)
      case Err(e) => Err(e)
      case Ok(_) =>
        match Retained(env, corpus, s.now, record)
        case Err(e) => Err(e)
        case Ok(bytes) =>
          if offset > |bytes| then Err(Bounds)
          else
            var end := if offset + s.budget < |bytes| then offset + s.budget else |bytes|;
            Ok(bytes[offset..end])
  }

  // ---------- The object ----------

  class Lookup {
    var binding: Binding
    var capabilities: Option<string>
    var records: seq<Record>
    var pages: map<string, Paging>
    var budget: nat
    var replayCursor: nat
    var now: string
    var expiresAt: string

    function Value(): Session
      reads this
    {
      Session(binding, capabilities, records, pages, budget, replayCursor, now, expiresAt)
    }

    constructor (s: Session)
      ensures Value() == s
    {
      binding, capabilities, records, pages := s.binding, s.capabilities, s.records, s.pages;
      budget, replayCursor, now, expiresAt := s.budget, s.replayCursor, s.now, s.expiresAt;
    }

    method Invalidate()
      modifies this`capabilities, this`pages, this`binding
      ensures Value() == old(Value()).(capabilities := None, pages := map[], binding := old(binding).(snapshot := None))
    {
      capabilities, pages := None, map[];
      binding := binding.(snapshot := None);
    }

    method ObserveSnapshot(snapshot: Option<Snapshot>)
      modifies this`pages, this`binding
      ensures Value() == old(Value()).(pages := map[], binding := old(binding).(snapshot := snapshot))
    {
      binding := binding.(snapshot := snapshot);
      pages := map[];
    }

    method RecordError(operation: string, sequence: nat, request: Request, error: LookupError)
      modifies this`records
      ensures Value() == WithError(old(Value()), operation, sequence, request, error)
    {
      records := records + [NewRecord(Value(), operation, sequence, request).(error := Some(error))];
    }

    method AcceptAnswer(env: Env, corpus: Corpus, operation: string, sequence: nat, request: Request, raw: seq<byte>, accepts: bool)
      returns (after: Corpus, r: Result<Delivery, LookupError>)
      modifies this
      ensures Outcome(Value(), after, r, true) == Accept(env, old(Value()), corpus, operation, sequence, request, raw, accepts)
    {
      var result;
      after, result := RetainAnswer(env, Value(), corpus, operation, sequence, request, raw, accepts);
      hide AcceptSource;
      if result.Err? {
        RecordError(operation, sequence, request, result.error);
        return after, Err(result.error);
      }
      var response := env.decode(raw);
      var next := if response.Some? && response.value.Answer? then response.value.page.nextCursor else None;
      pages := pages[operation := Paging(request.query.(cursor := None), next, sequence + 1)];
      records := records + [result.value.record];
      return after, Ok(result.value);
    }

    method Query(env: Env, corpus: Corpus, owner: Binding, operation: string, request: Option<Request>,
                 reply: Result<seq<byte>, LookupError>, accepts: bool)
      returns (after: Corpus, r: Result<Delivery, LookupError>, dispatched: bool)
      modifies this
      ensures Outcome(Value(), after, r, dispatched) == QueryOnce(env, old(Value()), corpus, owner, operation, request, reply, accepts)
    {
      hide Accept, AdmitError, PageSequence;
      if request.None? {
        return corpus, Err(Invalid), false;
      }
      var refusal := AdmitError(env, Value(), corpus, owner, operation, request.value);
      if refusal.Some? {
        return corpus, Err(refusal.value), false;
      }
      var sequence := PageSequence(Value(), operation, request.value.query);
      if sequence.Err? {
        return corpus, Err(sequence.error), false;
      }
      if !env.toolKnown(request.value) {
        return corpus, Err(MissingCapability), false;
      }
      dispatched := true;
      if reply.Ok? {
        after, r := AcceptAnswer(env, corpus, operation, sequence.value, request.value, reply.value, accepts);
      } else {
        RecordError(operation, sequence.value, request.value, reply.error);
        return corpus, Err(reply.error), true;
      }
    }
  }
}
