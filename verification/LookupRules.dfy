/**
 When each step of a lookup session succeeds and what it then gives, as conditions on the session, the corpus and
 the message, without the order of the checks.
 */
module LookupRules {
  import opened Outcomes
  import opened Sorting
  import opened Text
  import opened LookupItems
  import opened LookupOrder
  import opened LookupSession
  import opened LookupPages

  // ---------- Admission ----------

  predicate IsOperationCharacter(c: char) {
    || c in "abcdefghijklm" || c in "nopqrstuvwxyz" || c in "ABCDEFGHIJKLM" || c in "NOPQRSTUVWXYZ"
    || c in "0123456789" || c in "._:-"
  }

  predicate IsOperation(operation: string) {
    1 <= |operation| <= 128 && forall c :: c in operation ==> IsOperationCharacter(c)
  }

  lemma EarlyLetter(c: char)
    ensures 'a' <= c <= 'm' <==> c in "abcdefghijklm"
    ensures 'A' <= c <= 'M' <==> c in "ABCDEFGHIJKLM"
  {
    if 'a' <= c <= 'm' {
      assert "abcdefghijklm"[c as int - 'a' as int] == c;
    }
    if 'A' <= c <= 'M' {
      assert "ABCDEFGHIJKLM"[c as int - 'A' as int] == c;
    }
  }

  lemma LateLetter(c: char)
    ensures 'n' <= c <= 'z' <==> c in "nopqrstuvwxyz"
    ensures 'N' <= c <= 'Z' <==> c in "NOPQRSTUVWXYZ"
  {
    if 'n' <= c <= 'z' {
      assert "nopqrstuvwxyz"[c as int - 'n' as int] == c;
    }
    if 'N' <= c <= 'Z' {
      assert "NOPQRSTUVWXYZ"[c as int - 'N' as int] == c;
    }
  }

  lemma DecimalDigit(c: char)
    ensures '0' <= c <= '9' <==> c in "0123456789"
  {
    if '0' <= c <= '9' {
      assert "0123456789"[c as int - '0' as int] == c;
    }
  }

  lemma OperationMeans(operation: string)
    ensures ValidOperation(operation) <==> IsOperation(operation)
  {
    forall c: char ensures ('a' <= c <= 'z' || 'A' <= c <= 'Z' || '0' <= c <= '9' || c in "._:-") <==> IsOperationCharacter(c) {
      EarlyLetter(c);
      LateLetter(c);
      DecimalDigit(c);
    }
    hide IsOperationCharacter;
  }

  ghost predicate Scoped(env: Env, s: Session, corpus: Corpus, binding: Binding, operation: string) {
    env.policyValid(corpus.scope) && binding == s.binding && IsOperation(operation)
  }

  predicate SameContent(s: Session, query: Query) {
    query.contentManifestId == s.binding.contentManifestId && query.locale == s.binding.locale
  }

  /** A live query names the snapshot and the run that the session is bound to. */
  predicate OfSnapshot(s: Session, query: Query) {
    query.live.Some? ==> s.binding.snapshot == Some(query.live.value.snapshotRef) && query.live.value.runId == s.binding.scope.runId
  }

  /** Which queries are admitted, and what the others are refused for. */
  lemma AdmitOutcome(env: Env, s: Session, corpus: Corpus, binding: Binding, operation: string, request: Request)
    ensures var error, q := AdmitError(env, s, corpus, binding, operation, request), request.query;
            var scoped := Scoped(env, s, corpus, binding, operation);
            var formed := scoped && |s.records| < 256 && env.validRequest(request);
            && (error == None <==>
                  && formed && SameContent(s, q) && OfSnapshot(s, q)
                  && s.capabilities.Some? && env.admitCapabilities(s.capabilities.value, request) == None)
            && (!scoped ==> error == Some(Scope))
            && (scoped && |s.records| >= 256 ==> error == Some(Bounds))
            && (scoped && |s.records| < 256 && !env.validRequest(request) ==> error == Some(Invalid))
            && (formed && !SameContent(s, q) ==> error == Some(Scope))
            && (formed && SameContent(s, q) && !OfSnapshot(s, q) ==> error == Some(Reobserve))
            && (formed && SameContent(s, q) && OfSnapshot(s, q) && s.capabilities.None? ==> error == Some(MissingCapability))
            && (formed && SameContent(s, q) && OfSnapshot(s, q) && s.capabilities.Some? ==>
                  error == env.admitCapabilities(s.capabilities.value, request))
  {
    OperationMeans(operation);
    hide ValidOperation, IsOperation;
  }

  /** A page may be asked for when it is the first of its operation, or the next of a chain of less than 16. */
  lemma PageSequenceOutcome(s: Session, operation: string, query: Query)
    ensures var r := PageSequence(s, operation, query);
            && (forall n :: r == Ok(n) <==>
                  || (operation !in s.pages && query.cursor == None && n == 0)
                  || (operation in s.pages && query.cursor.Some? && s.pages[operation].next == query.cursor
                      && s.pages[operation].first == Query(None, query.live, query.contentManifestId, query.locale, query.rest)
                      && s.pages[operation].count == n < 16))
            && (r.Err? ==> r.error == Divergence)
  {
  }

  // ---------- Retention ----------

  lemma BeforeMeans(a: string, b: string)
    ensures Before(a, b) <==> SmallerText(a, b)
  {
    hide SmallerText;
    TextLeMeans(a, b);
    TextLeMeans(b, a);
    LexTotal(Utf8(a), Utf8(b));
    assert TextLe(a, b) <==> LexLe(Utf8(a), Utf8(b));
    assert TextLe(b, a) <==> LexLe(Utf8(b), Utf8(a));
    if TextLe(a, b) && TextLe(b, a) {
      TextStrict(a, b);
    }
    if a == b {
      assert Utf8(a) == Utf8(b);
    }
  }

  /** An unguarded entry of the lookup branch that has not expired at a valid clock. */
  ghost predicate Served(env: Env, corpus: Corpus, held: Held, now: string) {
    && held.scope == corpus.scope && held.branch == "game-information" && !held.guarded
    && env.validTimestamp(now) && SmallerText(now, held.expiresAt)
  }

  /** The corpus holds the bytes that the record describes, for the record's owner, and serves them at `now`. */
  ghost predicate HoldsFor(env: Env, corpus: Corpus, now: string, record: Record, bytes: seq<byte>) {
    && record.source.Some? && record.source.value in corpus.entries
    && var held := corpus.entries[record.source.value];
       && held.content == bytes && held.scope == record.binding.scope && held.gameProfile == record.binding.gameProfile
       && Served(env, corpus, held, now)
       && record.sourceSha == Some(env.sha(bytes)) && record.sourceBytes == |bytes|
  }

  lemma RetainedOutcome(env: Env, corpus: Corpus, now: string, record: Record)
    ensures var r := Retained(env, corpus, now, record);
            && (forall bytes :: r == Ok(bytes) <==> HoldsFor(env, corpus, now, record, bytes))
            && (r.Err? ==>
                  if record.source.None? || record.source.value !in corpus.entries then r.error == MissingRetention
                  else
                    var held := corpus.entries[record.source.value];
                    if held.scope != record.binding.scope || held.gameProfile != record.binding.gameProfile then r.error == Scope
                    else if !Served(env, corpus, held, now) then r.error == MissingRetention
                    else r.error == Divergence)
  {
    if record.source.Some? && record.source.value in corpus.entries {
      BeforeMeans(now, corpus.entries[record.source.value].expiresAt);
    }
    hide Before, SmallerText;
  }

  /** An entry is admitted when it is valid now and of the corpus's scope, and nothing else is held under its identifier. */
  lemma AdmitEntryOutcome(env: Env, corpus: Corpus, entryId: string, held: Held, now: string, accepts: bool)
    ensures var r := AdmitEntry(env, corpus, entryId, held, now, accepts);
            var valid := accepts && held.scope == corpus.scope && 1 <= |held.content| <= 65536
                         && env.validTimestamp(held.expiresAt) && env.validTimestamp(now) && SmallerText(now, held.expiresAt);
            var known := exists ref :: ref in corpus.entries && ref.entryId == entryId;
            var same := exists ref :: ref in corpus.entries && ref.entryId == entryId && corpus.entries[ref].content == held.content;
            && (r.Some? <==> valid && (known ==> same))
            && (r.Some? && known ==> r.value == corpus)
            && (r.Some? && !known ==>
                  r.value == Corpus(corpus.scope, corpus.entries[Ref(entryId, env.sha(held.content)) := held]))
  {
    BeforeMeans(now, held.expiresAt);
    hide Before, SmallerText;
  }

  // ---------- The chain of pages ----------

  /** Two items are the same thing: the same instance, or the same definition when neither is an instance. */
  predicate SameThing(a: Item, b: Item) {
    if a.inst == None && b.inst == None then a.definition == b.definition else a.inst == b.inst
  }

  ghost predicate NothingTwice(items: seq<Item>) {
    forall i, j :: 0 <= i < j < |items| ==> !SameThing(items[i], items[j])
  }

  lemma DistinctMeans(items: seq<Item>)
    ensures Distinct(Identities(items)) <==> NothingTwice(items)
  {
    var ids := Identities(items);
    hide Identities;
    if Distinct(ids) {
      forall i, j | 0 <= i < j < |items| ensures !SameThing(items[i], items[j]) {
        assert ids[i] != ids[j];
      }
    }
  }

  /** A complete final page of a known total closes exactly that many items. */
  predicate AddsUp(page: Page, count: nat) {
    !page.finalPage || page.coverage != "complete" || !page.totalKnown || page.totalCount == Some(count)
  }

  /** An earlier page that the new one can follow: readable now, of one listing, and not asked for by the offered cursor. */
  ghost predicate CanFollow(env: Env, corpus: Corpus, now: string, record: Record, page: Page) {
    exists bytes :: HoldsFor(env, corpus, now, record, bytes) && FollowsBytes(env, record, page, bytes)
  }

  ghost predicate FollowsBytes(env: Env, record: Record, page: Page, bytes: seq<byte>) {
    && env.decode(bytes).Some? && env.decode(bytes).value.Answer?
    && var earlier := env.decode(bytes).value.page;
       && (earlier.ordering, earlier.totalCount, earlier.totalKnown, earlier.coverage)
          == (page.ordering, page.totalCount, page.totalKnown, page.coverage)
       && (page.nextCursor == None || record.request.query.cursor != page.nextCursor)
  }

  lemma EarlierPageOutcome(env: Env, corpus: Corpus, now: string, record: Record, page: Page)
    ensures EarlierPage(env, corpus, now, record, page).Ok? <==> CanFollow(env, corpus, now, record, page)
  {
    RetainedOutcome(env, corpus, now, record);
    hide Retained, HoldsFor;
    if Retained(env, corpus, now, record).Ok? {
      assert HoldsFor(env, corpus, now, record, Retained(env, corpus, now, record).value);
    }
  }

  lemma {:induction false} EarlierItemsOutcome(env: Env, corpus: Corpus, now: string, records: seq<Record>, op: string, page: Page)
    ensures EarlierItems(env, corpus, now, records, op, page).Ok? <==>
            forall r :: r in records && r.operationId == op && r.source.Some? ==> CanFollow(env, corpus, now, r, page)
  {
    if records != [] {
      var n := |records| - 1;
      EarlierItemsOutcome(env, corpus, now, records[..n], op, page);
      EarlierPageOutcome(env, corpus, now, records[n], page);
      hide EarlierPage, CanFollow;
      assert records == records[..n] + [records[n]];
    }
  }

  /**
   A page is accepted after the retained ones exactly when it can follow each of them, offers no cursor that was
   asked for, repeats nothing, continues the order, and adds up. Every run keeps the retained records sound.
   */
  lemma ChainOutcome(env: Env, corpus: Corpus, now: string, records: seq<Record>, operation: string, cursor: Option<string>, page: Page)
    requires AllSound(env, corpus, records)
    ensures var error := ChainError(env, corpus, now, records, operation, cursor, page);
            var items := AllItems(Listing(env, corpus, records, operation)) + page.items;
            var unmet := page.nextCursor == None || page.nextCursor != cursor;
            var follows := forall r :: r in records && r.operationId == operation && r.source.Some? ==> CanFollow(env, corpus, now, r, page);
            && (error == None <==> unmet && follows && NothingTwice(items) && InListingOrder(items, page.ordering) && AddsUp(page, |items|))
            && (!unmet ==> error == Some(Divergence))
            && (unmet && follows && !NothingTwice(items) ==> error == Some(Divergence))
            && (unmet && follows && NothingTwice(items) && !InListingOrder(items, page.ordering) ==> error == Some(Invalid))
            && (unmet && follows && NothingTwice(items) && InListingOrder(items, page.ordering) && !AddsUp(page, |items|) ==>
                  error == Some(Divergence))
  {
    hide EarlierItems, CanFollow, Listing, AllItems, Distinct, NothingTwice, Ordered, InListingOrder;
    EarlierItemsOutcome(env, corpus, now, records, operation, page);
    if EarlierItems(env, corpus, now, records, operation, page).Ok? {
      EarlierItemsMeans(env, corpus, now, records, operation, page);
    }
    var items := AllItems(Listing(env, corpus, records, operation)) + page.items;
    DistinctMeans(items);
    OrderedMeans(items, page.ordering);
  }

  /** Over every run, what is retained of an operation is one listing: nothing twice, in order, and adding up. */
  lemma RetainedListing(env: Env, w: World, events: seq<Event>, operation: string)
    requires Initial(env, w)
    ensures var after := Run(env, w, events);
            var listing := Listing(env, after.corpus, after.session.records, operation);
            var items := AllItems(listing);
            && |after.session.records| <= 256 && NothingTwice(items)
            && (listing != [] ==>
                  var last := listing[|listing| - 1].page;
                  && InListingOrder(items, last.ordering) && AddsUp(last, |items|)
                  && forall l :: l in listing ==>
                       (l.page.ordering, l.page.totalCount, l.page.totalKnown, l.page.coverage)
                       == (last.ordering, last.totalCount, last.totalKnown, last.coverage))
  {
    hide Run, Listing, AllItems, NothingTwice, InListingOrder, Ordered, Distinct, Initial;
    RetainedPagesFormOneListing(env, w, events, operation);
    var after := Run(env, w, events);
    var listing := Listing(env, after.corpus, after.session.records, operation);
    DistinctMeans(AllItems(listing));
    if listing != [] {
      OrderedMeans(AllItems(listing), listing[|listing| - 1].page.ordering);
    }
  }

  // ---------- One answer ----------

  /** The answer echoes the request and satisfies the closed schema. */
  predicate AnswersTo(env: Env, request: Request, response: Response) {
    && response.Answer? && env.validRequest(request) && env.closed(request, response)
    && response.correlation == request.correlation && response.query == request.query
  }

  /** Which raw answers pass, given that the retained records are sound. */
  lemma CheckOutcome(env: Env, s: Session, corpus: Corpus, operation: string, request: Request, raw: seq<byte>, response: Response)
    ensures CheckSource(env, s, corpus, operation, request, raw) == Ok(response) <==>
            && s.capabilities.Some? && |raw| <= 65536
            && (var limit := env.maxMessageBytes(s.capabilities.value); limit.Some? && |raw| <= limit.value)
            && env.decode(raw) == Some(response) && AnswersTo(env, request, response)
            && (response.page.nextCursor.Some? ==>
                  |Utf8(response.page.nextCursor.value)| <= env.maxCursorBytes(s.capabilities.value))
            && env.fieldsKnown(s.capabilities.value, response.page)
            && ChainError(env, corpus, s.now, s.records, operation, request.query.cursor, response.page) == None
  {
    hide ChainError;
  }

  /** Producer errors: staleness asks for a new observation, known codes are passed on, anything else is invalid. */
  lemma ProducerOutcome(code: string)
    ensures ProducerError(None) == Invalid
    ensures ProducerError(Some(code)) == Reobserve <==> code in {"stale_snapshot", "stale_cursor", "mixed_generation"}
    ensures ProducerError(Some(code)) == Producer(code) <==>
            code in {"unknown_kind", "unknown_id", "ambiguous_id", "unsupported_filter", "unsupported_projection",
                     "unsupported_version", "denied_scope", "result_limit_exceeded", "missing_capability", "unsupported_field",
                     "invalid_identity", "invalid_bounds", "malformed", "read_only_violation"}
    ensures ProducerError(Some(code)) in {Reobserve, Producer(code), Invalid}
  {
  }

  /** What the agent sees fits the budget: the whole answer when that fits, else a reference to the retained bytes. */
  lemma DeliverOutcome(env: Env, s: Session, record: Record, response: Response)
    ensures var r := Deliver(env, s, record, response);
            var full := Full(record.sourceSha, record.binding, response);
            var reference := Reference(record.source, record.sourceSha, record.sourceBytes);
            && (forall d :: r == Ok(d) <==>
                  && d.record == record.(viewSha := Some(env.viewSha(d.data))) && env.viewSize(d.data) <= s.budget
                  && (d.data == full || (d.data == reference && env.viewSize(full) > s.budget)))
            && (r.Err? <==> env.viewSize(full) > s.budget && env.viewSize(reference) > s.budget)
            && (r.Err? ==> r.error == Bounds)
  {
  }

  // ---------- Replay and reads ----------

  predicate SameOwners(a: Binding, b: Binding) {
    (a.scope, a.gameProfile, a.contentManifestId, a.locale, a.authorityEpoch)
    == (b.scope, b.gameProfile, b.contentManifestId, b.locale, b.authorityEpoch)
  }

  /** The record belongs to the session and its request to its binding. */
  ghost predicate Replayable(env: Env, s: Session, corpus: Corpus, record: Record) {
    var q := record.request.query;
    && SameOwners(record.binding, s.binding) && corpus.scope == s.binding.scope
    && record.schema == "ascension.game-information-record.v1" && SameContent(s, q) && env.validRequest(record.request)
    && (q.live.Some? ==> q.live.value.runId == record.binding.scope.runId)
  }

  /**
   A record replays to a delivery exactly when its retained answer is served now, is valid, and shows the recorded view.
   A record that kept an error replays to that error, and one of another owner, schema, content or run diverges.
   */
  lemma ReplaySucceeds(env: Env, s: Session, corpus: Corpus, record: Record, d: Delivery)
    ensures Replay(env, s, corpus, record, record.request) == Ok(d) <==>
            && Replayable(env, s, corpus, record) && record.error == None && record.viewSha == Some(env.viewSha(d.data))
            && (record.request.query.live.Some? ==> record.binding.snapshot == Some(record.request.query.live.value.snapshotRef))
            && exists bytes :: HoldsFor(env, corpus, s.now, record, bytes) && Redelivers(env, s, record, bytes, d)
    ensures Replayable(env, s, corpus, record) && record.error.Some? ==>
              Replay(env, s, corpus, record, record.request) == Err(record.error.value)
    ensures env.validRequest(record.request) && !Replayable(env, s, corpus, record) ==>
              Replay(env, s, corpus, record, record.request) == Err(Divergence)
  {
    RetainedOutcome(env, corpus, s.now, record);
    hide Retained, HoldsFor, ValidResponse, Deliver;
    var r := Retained(env, corpus, s.now, record);
    if r.Ok? {
      assert HoldsFor(env, corpus, s.now, record, r.value);
      if env.decode(r.value).Some? {
        DeliverKeeps(env, s, record, env.decode(r.value).value);
      }
    }
  }

  ghost predicate Redelivers(env: Env, s: Session, record: Record, bytes: seq<byte>, d: Delivery) {
    env.decode(bytes).Some? && ValidResponse(env, record.request, env.decode(bytes).value)
    && Deliver(env, s, record, env.decode(bytes).value) == Ok(d)
  }

  lemma DeliverKeeps(env: Env, s: Session, record: Record, response: Response)
    ensures var r := Deliver(env, s, record, response);
            r.Ok? ==> r.value.record.viewSha == Some(env.viewSha(r.value.data))
  {
  }

  /** A read gives the retained bytes from the offset on, as many as the budget allows. */
  lemma ReadOutcome(env: Env, s: Session, corpus: Corpus, record: Record, offset: nat)
    ensures var r := ReadRetained(env, s, corpus, record, offset);
            var replayed := Replay(env, s, corpus, record, record.request);
            && (forall part :: r == Ok(part) <==>
                  replayed.Ok? && exists bytes :: HoldsFor(env, corpus, s.now, record, bytes) && PartAt(bytes, offset, s.budget, part))
            && (!SameOwners(record.binding, s.binding) || corpus.scope != s.binding.scope ==> r == Err(Scope))
            && (SameOwners(record.binding, s.binding) && corpus.scope == s.binding.scope && replayed.Err? ==> r == Err(replayed.error))
            && (replayed.Ok? && r.Err? ==> r.error == Bounds && offset > record.sourceBytes)
  {
    RetainedOutcome(env, corpus, s.now, record);
    ReplayNeedsBytes(env, s, corpus, record);
    hide Retained, HoldsFor, Replay;
    var r := Retained(env, corpus, s.now, record);
    if r.Ok? {
      assert HoldsFor(env, corpus, s.now, record, r.value);
      RetainedLength(env, corpus, s.now, record, r.value);
      PartIs(r.value, offset, s.budget);
    }
    hide PartAt;
  }

  ghost predicate PartAt(bytes: seq<byte>, offset: nat, budget: nat, part: seq<byte>) {
    offset <= |bytes| && part <= bytes[offset..] && (|part| == budget || (|part| < budget && offset + |part| == |bytes|))
  }

  lemma PartIs(bytes: seq<byte>, offset: nat, budget: nat)
    ensures offset <= |bytes| ==>
              forall part :: PartAt(bytes, offset, budget, part) <==>
                part == bytes[offset..if offset + budget < |bytes| then offset + budget else |bytes|]
    ensures offset > |bytes| ==> forall part :: !PartAt(bytes, offset, budget, part)
  {
  }

  lemma RetainedLength(env: Env, corpus: Corpus, now: string, record: Record, bytes: seq<byte>)
    requires HoldsFor(env, corpus, now, record, bytes)
    ensures record.sourceBytes == |bytes|
  {
  }

  lemma ReplayNeedsBytes(env: Env, s: Session, corpus: Corpus, record: Record)
    ensures Replay(env, s, corpus, record, record.request).Ok? ==>
              && Retained(env, corpus, s.now, record).Ok?
              && SameOwners(record.binding, s.binding) && corpus.scope == s.binding.scope
    ensures SameOwner(record.binding, s.binding) <==> SameOwners(record.binding, s.binding)
  {
    hide Retained, Deliver, ValidResponse;
  }

  // ---------- One query ----------

  /** The record that a dispatched query leaves, before its outcome is known. */
  predicate Dispatched(s: Session, operation: string, request: Request, record: Record) {
    && record.schema == "ascension.game-information-record.v1" && record.binding == s.binding && record.operationId == operation
    && record.request == request
    && record.pageSequence == if operation in s.pages then s.pages[operation].count else 0
  }

  /** The source that an accepted answer leaves: named after the record it had before the answer, and by its hash. */
  predicate SourceOf(env: Env, raw: seq<byte>, record: Record) {
    var blank := record.(source := None, sourceSha := None, sourceBytes := 0, viewSha := None, error := None);
    && record.source == Some(Ref(env.entryId(blank), env.sha(raw))) && record.sourceSha == Some(env.sha(raw))
    && record.sourceBytes == |raw| && record.error == None
  }

  lemma AcceptOutcome(env: Env, s: Session, corpus: Corpus, operation: string, sequence: nat, request: Request,
                      raw: seq<byte>, accepts: bool)
    requires sequence == if operation in s.pages then s.pages[operation].count else 0
    ensures var o := Accept(env, s, corpus, operation, sequence, request, raw, accepts);
            && o.dispatched && |o.session.records| == |s.records| + 1 && s.records <= o.session.records
            && var record := o.session.records[|s.records|];
               && Dispatched(s, operation, request, record)
               && (o.result.Err? ==>
                     && record.error == Some(o.result.error) && record.source == None && record.sourceSha == None
                     && record.viewSha == None && record.sourceBytes == 0 && o.session == s.(records := s.records + [record]))
               && (o.result.Ok? ==>
                     && o.result.value.record == record && SourceOf(env, raw, record)
                     && CheckSource(env, s, corpus, operation, request, raw).Ok?
                     && (var page := CheckSource(env, s, corpus, operation, request, raw).value;
                         && page.Answer?
                         && o.session == s.(records := s.records + [record],
                                            pages := s.pages[operation := Paging(
                                              Query(None, request.query.live, request.query.contentManifestId,
                                                    request.query.locale, request.query.rest),
                                              page.page.nextCursor, record.pageSequence + 1)])
                         && Deliver(env, s, record.(viewSha := None), page) == Ok(o.result.value)))
  {
    hide ChainError, AdmitEntry, ValidResponse;
    var checked := CheckSource(env, s, corpus, operation, request, raw);
    if checked.Ok? {
      CheckOutcome(env, s, corpus, operation, request, raw, checked.value);
      hide CheckSource;
    }
  }

  /** An answer is taken in exactly when it passes, its bytes can be retained, and some view of it fits the budget. */
  lemma AcceptsIff(env: Env, s: Session, corpus: Corpus, operation: string, sequence: nat, request: Request,
                   raw: seq<byte>, accepts: bool)
    ensures var o := Accept(env, s, corpus, operation, sequence, request, raw, accepts);
            var checked := CheckSource(env, s, corpus, operation, request, raw);
            var record := SourceRecord(env, s, operation, sequence, request, raw);
            var held := Held(raw, s.binding.scope, s.binding.gameProfile, "game-information", false, s.expiresAt);
            var admitted := AdmitEntry(env, corpus, record.source.value.entryId, held, s.now, accepts);
            && (o.result.Ok? <==> checked.Ok? && admitted.Some? && Deliver(env, s, record, checked.value).Ok?)
            && (checked.Err? ==> o.result == Err(checked.error))
            && (checked.Ok? && admitted.None? ==> o.result == Err(Retention))
            && (checked.Ok? && admitted.Some? && Deliver(env, s, record, checked.value).Err? ==> o.result == Err(Bounds))
            && o.corpus == if checked.Ok? && admitted.Some? then admitted.value else corpus
  {
    hide CheckSource, AdmitEntry;
  }

  /** A query is dispatched exactly when it is admitted, its page may be asked for, and its tool is known. */
  lemma QueryOutcome(env: Env, s: Session, corpus: Corpus, binding: Binding, operation: string, request: Option<Request>,
                     reply: Result<seq<byte>, LookupError>, accepts: bool)
    ensures var o := QueryOnce(env, s, corpus, binding, operation, request, reply, accepts);
            && (o.dispatched <==>
                  && request.Some? && AdmitError(env, s, corpus, binding, operation, request.value) == None
                  && PageSequence(s, operation, request.value.query).Ok? && env.toolKnown(request.value))
            && (!o.dispatched ==> o.session == s && o.corpus == corpus && o.result.Err?)
            && (request.None? ==> o.result == Err(Invalid))
            && (request.Some? ==>
                  var refusal := AdmitError(env, s, corpus, binding, operation, request.value);
                  var page := PageSequence(s, operation, request.value.query);
                  && (refusal.Some? ==> o.result == Err(refusal.value))
                  && (refusal == None && page.Err? ==> o.result == Err(page.error))
                  && (refusal == None && page.Ok? && !env.toolKnown(request.value) ==> o.result == Err(MissingCapability)))
            && (o.dispatched && reply.Ok? ==>
                  var sequence := if operation in s.pages then s.pages[operation].count else 0;
                  o == Accept(env, s, corpus, operation, sequence, request.value, reply.value, accepts))
            && (o.dispatched && reply.Err? ==>
                  && o.result == Err(reply.error) && o.corpus == corpus && |o.session.records| == |s.records| + 1
                  && var record := o.session.records[|s.records|];
                     && o.session == s.(records := s.records + [record]) && Dispatched(s, operation, request.value, record)
                     && record.error == Some(reply.error) && record.source == None)
  {
    if request.Some? && reply.Ok? {
      var sequence := if operation in s.pages then s.pages[operation].count else 0;
      AcceptOutcome(env, s, corpus, operation, sequence, request.value, reply.value, accepts);
    }
    hide Accept, AdmitError;
  }
}
