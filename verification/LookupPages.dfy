/**
 Pagination over whole runs of a lookup session: what the retained pages of one operation say together,
 through failed dispatches, refused answers and cleared snapshots.
 */
module LookupPages {
  import opened Outcomes
  import opened Sorting
  import opened Text
  import opened LookupItems
  import opened LookupSession

  // ---------- Runs ----------

  datatype Event =
    | Ask(binding: Binding, operation: string, request: Option<Request>, reply: Result<seq<byte>, LookupError>, accepts: bool)
    | Observe(snapshot: Option<Snapshot>)
    | Invalidated
    | Negotiated(capabilities: Option<string>)

  datatype World = World(session: Session, corpus: Corpus)

  function Step(env: Env, w: World, e: Event): World {
    match e
    case Ask(binding, operation, request, reply, accepts) =>
      var o := QueryOnce(env, w.session, w.corpus, binding, operation, request, reply, accepts);
      World(o.session, o.corpus)
    case Observe(snapshot) =>
      w.(session := w.session.(pages := map[], binding := w.session.binding.(snapshot := snapshot)))
    case Invalidated =>
      w.(session := w.session.(capabilities := None, pages := map[], binding := w.session.binding.(snapshot := None)))
    case Negotiated(capabilities) =>
      w.(session := w.session.(capabilities := capabilities))
  }

  function Run(env: Env, w: World, events: seq<Event>): World
    decreases |events|
  {
    if events == [] then w else Step(env, Run(env, w, events[..|events| - 1]), events[|events| - 1])
  }

  // ---------- What is retained for an operation ----------

  datatype Listed = Listed(query: Query, sequence: nat, page: Page)

  /** The page that the retained bytes of a record hold. */
  function PageAt(env: Env, corpus: Corpus, record: Record): Option<Page> {
    if record.source.None? || record.source.value !in corpus.entries then None
    else
      match env.decode(corpus.entries[record.source.value].content)
      case Some(Answer(_, query, page, _)) => if query == record.request.query then Some(page) else None
      case _ => None
  }

  /** The retained pages of an operation, in the order they were accepted. */
  function Listing(env: Env, corpus: Corpus, records: seq<Record>, operation: string): seq<Listed> {
    if records == [] then []
    else
      var n := |records| - 1;
      Listing(env, corpus, records[..n], operation) + One(env, corpus, records[n], operation)
  }

  function One(env: Env, corpus: Corpus, record: Record, operation: string): seq<Listed> {
    if OfOperation(record, operation) && PageAt(env, corpus, record).Some?
    then [Listed(record.request.query, record.pageSequence, PageAt(env, corpus, record).value)] else []
  }

  function AllItems(listing: seq<Listed>): seq<Item> {
    if listing == [] then [] else AllItems(listing[..|listing| - 1]) + listing[|listing| - 1].page.items
  }

  // ---------- Invariant ----------

  /** The page `k` closed a listing that was complete, ordered and free of repetitions up to it. */
  ghost predicate GoodAt(listing: seq<Listed>, k: nat)
    requires k < |listing|
  {
    var items, page := AllItems(listing[..k + 1]), listing[k].page;
    && Distinct(Identities(items)) && Ordered(items, page.ordering) && CountsRight(page, |items|)
    && forall i :: 0 <= i <= k ==>
         SameListing(listing[i].page, page) && (page.nextCursor.Some? ==> listing[i].query.cursor != page.nextCursor)
  }

  ghost predicate GoodListing(listing: seq<Listed>) {
    forall k :: 0 <= k < |listing| ==> GoodAt(listing, k)
  }

  /** Contiguous pages from the first one, each asked for by the cursor of the page before. */
  ghost predicate IsChain(chain: seq<Listed>, p: Paging) {
    && 1 <= |chain| == p.count <= MAX_PAGES
    && chain[0].query.cursor == None && p.next == chain[|chain| - 1].page.nextCursor
    && (forall k :: 0 <= k < |chain| ==> chain[k].sequence == k && chain[k].query.(cursor := None) == p.first)
    && forall k :: 0 < k < |chain| ==> chain[k].query.cursor.Some? && chain[k].query.cursor == chain[k - 1].page.nextCursor
  }

  ghost predicate PagingOk(listing: seq<Listed>, p: Paging) {
    p.count <= |listing| && IsChain(listing[|listing| - p.count..], p)
  }

  ghost predicate CorpusOk(env: Env, corpus: Corpus) {
    forall r :: r in corpus.entries ==> r.sha256 == env.sha(corpus.entries[r].content)
  }

  ghost predicate AllSound(env: Env, corpus: Corpus, records: seq<Record>) {
    forall r :: r in records && r.source.Some? ==> PageAt(env, corpus, r).Some?
  }

  ghost predicate Inv(env: Env, w: World) {
    var s := w.session;
    && CorpusOk(env, w.corpus) && AllSound(env, w.corpus, s.records) && |s.records| <= MAX_RECORDS
    && (forall op :: GoodListing(Listing(env, w.corpus, s.records, op)))
    && forall op :: op in s.pages ==> PagingOk(Listing(env, w.corpus, s.records, op), s.pages[op])
  }

  // ---------- The corpus only grows ----------

  ghost predicate Grows(a: Corpus, b: Corpus) {
    forall r :: r in a.entries ==> r in b.entries && b.entries[r] == a.entries[r]
  }

  lemma AdmitGrows(env: Env, corpus: Corpus, entryId: string, held: Held, now: string, accepts: bool)
    requires CorpusOk(env, corpus) && AdmitEntry(env, corpus, entryId, held, now, accepts).Some?
    ensures var after := AdmitEntry(env, corpus, entryId, held, now, accepts).value;
            var ref := Ref(entryId, env.sha(held.content));
            && Grows(corpus, after) && CorpusOk(env, after)
            && ref in after.entries && after.entries[ref].content == held.content
            && (ref !in corpus.entries ==> after.entries[ref] == held) && Alive(env, held, now)
  {
    var ref := Ref(entryId, env.sha(held.content));
    if exists r | r in corpus.entries :: r.entryId == entryId {
      var r :| r in corpus.entries && r.entryId == entryId && corpus.entries[r].content == held.content;
      assert r == ref;
    }
  }

  lemma {:induction false} ListingStays(env: Env, a: Corpus, b: Corpus, records: seq<Record>, op: string)
    requires Grows(a, b) && AllSound(env, a, records)
    ensures Listing(env, a, records, op) == Listing(env, b, records, op)
  {
    if records != [] {
      var n := |records| - 1;
      assert records[n] in records;
      assert forall r :: r in records[..n] ==> r in records;
      ListingStays(env, a, b, records[..n], op);
    }
  }

  lemma SoundStays(env: Env, a: Corpus, b: Corpus, records: seq<Record>)
    requires Grows(a, b) && AllSound(env, a, records)
    ensures AllSound(env, b, records)
  {
    forall r | r in records && r.source.Some? ensures PageAt(env, b, r).Some? {
      assert PageAt(env, a, r).Some?;
    }
  }

  lemma ListingSnoc(env: Env, corpus: Corpus, records: seq<Record>, record: Record, op: string)
    ensures Listing(env, corpus, records + [record], op) == Listing(env, corpus, records, op) + One(env, corpus, record, op)
  {
    hide One;
    assert (records + [record])[..|records + [record]| - 1] == records;
  }

  // ---------- What an accepted chain check means ----------

  lemma EarlierPageMeans(env: Env, corpus: Corpus, now: string, record: Record, page: Page)
    requires EarlierPage(env, corpus, now, record, page).Ok? && PageAt(env, corpus, record).Some?
    ensures var earlier := PageAt(env, corpus, record).value;
            && EarlierPage(env, corpus, now, record, page).value == earlier.items && SameListing(earlier, page)
            && (page.nextCursor.Some? ==> record.request.query.cursor != page.nextCursor)
  {
  }

  ghost predicate Precedes(listing: seq<Listed>, page: Page) {
    forall l :: l in listing ==> SameListing(l.page, page) && (page.nextCursor.Some? ==> l.query.cursor != page.nextCursor)
  }

  lemma {:induction false} EarlierItemsMeans(env: Env, corpus: Corpus, now: string, records: seq<Record>, op: string, page: Page)
    requires AllSound(env, corpus, records) && EarlierItems(env, corpus, now, records, op, page).Ok?
    ensures EarlierItems(env, corpus, now, records, op, page).value == AllItems(Listing(env, corpus, records, op))
    ensures Precedes(Listing(env, corpus, records, op), page)
  {
    hide EarlierPage, PageAt, SameListing;
    if records != [] {
      var n := |records| - 1;
      assert records[n] in records;
      assert forall r :: r in records[..n] ==> r in records;
      EarlierItemsMeans(env, corpus, now, records[..n], op, page);
      var front := Listing(env, corpus, records[..n], op);
      if OfOperation(records[n], op) {
        EarlierPageMeans(env, corpus, now, records[n], page);
        var listed := Listed(records[n].request.query, records[n].pageSequence, PageAt(env, corpus, records[n]).value);
        AllItemsSnoc(front, listed);
      } else {
        assert front + [] == front;
      }
    }
  }

  lemma AllItemsSnoc(listing: seq<Listed>, l: Listed)
    ensures AllItems(listing + [l]) == AllItems(listing) + l.page.items
  {
    assert (listing + [l])[..|listing + [l]| - 1] == listing;
  }

  lemma GoodSnoc(listing: seq<Listed>, l: Listed)
    requires GoodListing(listing) && Precedes(listing, l.page)
    requires ListingError(AllItems(listing) + l.page.items, l.page) == None
    requires l.page.nextCursor.Some? ==> l.query.cursor != l.page.nextCursor
    ensures GoodListing(listing + [l])
  {
    hide GoodAt, Distinct, Ordered, AllItems, SameListing, CountsRight;
    var all := listing + [l];
    forall k | 0 <= k < |all| ensures GoodAt(all, k) {
      if k < |listing| {
        GoodAtLonger(listing, l, k);
      } else {
        GoodAtEnd(listing, l);
      }
    }
  }

  lemma GoodAtLonger(listing: seq<Listed>, l: Listed, k: nat)
    requires k < |listing| && GoodAt(listing, k)
    ensures GoodAt(listing + [l], k)
  {
    hide Distinct, Ordered, AllItems, SameListing, CountsRight;
    var all := listing + [l];
    assert all[..k + 1] == listing[..k + 1];
    assert forall i :: 0 <= i <= k ==> all[i] == listing[i];
  }

  lemma GoodAtEnd(listing: seq<Listed>, l: Listed)
    requires Precedes(listing, l.page) && ListingError(AllItems(listing) + l.page.items, l.page) == None
    requires l.page.nextCursor.Some? ==> l.query.cursor != l.page.nextCursor
    ensures GoodAt(listing + [l], |listing|)
  {
    hide Distinct, Ordered, AllItems, CountsRight, SameListing, Precedes, Identities;
    var all := listing + [l];
    AllItemsSnoc(listing, l);
    PrecedesAll(listing, l);
    var items := AllItems(all);
    assert Distinct(Identities(items)) && Ordered(items, l.page.ordering) && CountsRight(l.page, |items|);
    hide ListingError;
    assert all[|listing|] == l && all[..|listing| + 1] == all;
  }

  lemma PrecedesAll(listing: seq<Listed>, l: Listed)
    requires Precedes(listing, l.page) && (l.page.nextCursor.Some? ==> l.query.cursor != l.page.nextCursor)
    ensures var all := listing + [l];
            forall i :: 0 <= i < |all| ==>
              SameListing(all[i].page, l.page) && (l.page.nextCursor.Some? ==> all[i].query.cursor != l.page.nextCursor)
  {
    var all := listing + [l];
    assert SameListing(l.page, l.page);
    hide SameListing;
    forall i | 0 <= i < |all|
      ensures SameListing(all[i].page, l.page) && (l.page.nextCursor.Some? ==> all[i].query.cursor != l.page.nextCursor)
    {
      if i < |listing| {
        assert all[i] in listing;
      }
    }
  }

  lemma ChainSnoc(listing: seq<Listed>, p: Paging, l: Listed)
    requires PagingOk(listing, p) && p.count < MAX_PAGES
    requires l.query.(cursor := None) == p.first && p.next == l.query.cursor && p.next.Some? && l.sequence == p.count
    ensures PagingOk(listing + [l], Paging(p.first, l.page.nextCursor, p.count + 1))
  {
    var chain := listing[|listing| - p.count..];
    var all := listing + [l];
    assert all[|all| - (p.count + 1)..] == chain + [l];
  }

  lemma ChainStarts(listing: seq<Listed>, l: Listed)
    requires l.query.cursor == None && l.sequence == 0
    ensures PagingOk(listing + [l], Paging(l.query.(cursor := None), l.page.nextCursor, 1))
  {
    assert (listing + [l])[|listing + [l]| - 1..] == [l];
  }

  // ---------- Steps ----------

  /** A record without a source changes no listing. */
  lemma ErrorKeeps(env: Env, w: World, corpus: Corpus, operation: string, sequence: nat, request: Request, error: LookupError)
    requires Inv(env, w) && |w.session.records| < MAX_RECORDS && Grows(w.corpus, corpus) && CorpusOk(env, corpus)
    ensures Inv(env, World(WithError(w.session, operation, sequence, request, error), corpus))
  {
    hide GoodListing, PagingOk, PageAt;
    SoundStays(env, w.corpus, corpus, w.session.records);
    assert AllSound(env, corpus, WithError(w.session, operation, sequence, request, error).records);
    ErrorListing(env, w, corpus, operation, sequence, request, error);
  }

  lemma ErrorListing(env: Env, w: World, corpus: Corpus, operation: string, sequence: nat, request: Request, error: LookupError)
    requires AllSound(env, w.corpus, w.session.records) && Grows(w.corpus, corpus)
    ensures var after := WithError(w.session, operation, sequence, request, error);
            forall op :: Listing(env, corpus, after.records, op) == Listing(env, w.corpus, w.session.records, op)
  {
    hide PageAt, Grows, AllSound;
    var s := w.session;
    var after := WithError(s, operation, sequence, request, error);
    forall op ensures Listing(env, corpus, after.records, op) == Listing(env, w.corpus, s.records, op) {
      ListingStays(env, w.corpus, corpus, s.records, op);
      ListingSnoc(env, corpus, s.records, after.records[|s.records|], op);
    }
  }

  /** What an accepted answer adds. */
  ghost predicate Accepted(env: Env, w: World, operation: string, sequence: nat, request: Request, page: Page, after: World) {
    var s, t := w.session, after.session;
    && Grows(w.corpus, after.corpus) && CorpusOk(env, after.corpus)
    && |t.records| == |s.records| + 1 && t.records[..|s.records|] == s.records
    && (var r := t.records[|s.records|];
        r.operationId == operation && r.pageSequence == sequence && r.request == request && r.source.Some?
        && PageAt(env, after.corpus, r) == Some(page))
    && t.pages == s.pages[operation := Paging(request.query.(cursor := None), page.nextCursor, sequence + 1)]
    && ChainError(env, w.corpus, s.now, s.records, operation, request.query.cursor, page) == None
  }

  lemma AcceptMeans(env: Env, w: World, operation: string, sequence: nat, request: Request, raw: seq<byte>, accepts: bool)
    requires CorpusOk(env, w.corpus)
    ensures var o := Accept(env, w.session, w.corpus, operation, sequence, request, raw, accepts);
            if o.result.Ok? then exists page :: Accepted(env, w, operation, sequence, request, page, World(o.session, o.corpus))
            else o.session == WithError(w.session, operation, sequence, request, o.result.error)
                 && Grows(w.corpus, o.corpus) && CorpusOk(env, o.corpus)
  {
    hide ChainError, ProducerError, AdmitEntry;
    var s := w.session;
    var checked := CheckSource(env, s, w.corpus, operation, request, raw);
    if checked.Ok? {
      var record := SourceRecord(env, s, operation, sequence, request, raw);
      var held := HeldBy(s, raw);
      var admitted := AdmitEntry(env, w.corpus, record.source.value.entryId, held, s.now, accepts);
      if admitted.Some? {
        AdmitGrows(env, w.corpus, record.source.value.entryId, held, s.now, accepts);
        var o := Accept(env, s, w.corpus, operation, sequence, request, raw, accepts);
        if o.result.Ok? {
          assert Accepted(env, w, operation, sequence, request, checked.value.page, World(o.session, o.corpus));
        }
      }
    }
  }

  lemma AcceptedListing(env: Env, w: World, operation: string, sequence: nat, request: Request, page: Page, after: World, op: string)
    requires Inv(env, w) && Accepted(env, w, operation, sequence, request, page, after)
    ensures AllSound(env, after.corpus, after.session.records)
    ensures Listing(env, after.corpus, after.session.records, op)
            == Listing(env, w.corpus, w.session.records, op) + (if op == operation then [Listed(request.query, sequence, page)] else [])
  {
    hide GoodListing, PagingOk, PageAt, ChainError, Listing;
    var s, t := w.session, after.session;
    var r := t.records[|s.records|];
    assert t.records == s.records + [r];
    SoundStays(env, w.corpus, after.corpus, s.records);
    ListingStays(env, w.corpus, after.corpus, s.records, op);
    ListingSnoc(env, after.corpus, s.records, r, op);
  }

  lemma AcceptedKeeps(env: Env, w: World, operation: string, sequence: nat, request: Request, page: Page, after: World)
    requires Inv(env, w) && |w.session.records| < MAX_RECORDS
    requires Accepted(env, w, operation, sequence, request, page, after)
    requires PageSequence(w.session, operation, request.query) == Ok(sequence)
    ensures Inv(env, after)
  {
    hide Listing, PageAt, AllSound, GoodListing, PagingOk, ChainError, PageSequence;
    var s, t := w.session, after.session;
    forall op
      ensures GoodListing(Listing(env, after.corpus, t.records, op))
      ensures op in t.pages ==> PagingOk(Listing(env, after.corpus, t.records, op), t.pages[op])
    {
      AcceptedListing(env, w, operation, sequence, request, page, after, op);
      if op == operation {
        OperationKeeps(env, w, operation, sequence, request, page, after);
      } else {
        assert Listing(env, w.corpus, s.records, op) + [] == Listing(env, w.corpus, s.records, op);
      }
    }
    AcceptedListing(env, w, operation, sequence, request, page, after, operation);
  }

  /** The operation that was asked about: its listing and its chain grow by the new page. */
  lemma OperationKeeps(env: Env, w: World, operation: string, sequence: nat, request: Request, page: Page, after: World)
    requires Inv(env, w) && Accepted(env, w, operation, sequence, request, page, after)
    requires PageSequence(w.session, operation, request.query) == Ok(sequence)
    ensures var listing := Listing(env, w.corpus, w.session.records, operation) + [Listed(request.query, sequence, page)];
            && GoodListing(listing)
            && operation in after.session.pages && PagingOk(listing, after.session.pages[operation])
  {
    hide Listing, PageAt, AllSound, GoodListing, PagingOk, ListingError;
    var s := w.session;
    var listing, l := Listing(env, w.corpus, s.records, operation), Listed(request.query, sequence, page);
    EarlierItemsMeans(env, w.corpus, s.now, s.records, operation, page);
    GoodSnoc(listing, l);
    if operation in s.pages {
      ChainSnoc(listing, s.pages[operation], l);
    } else {
      ChainStarts(listing, l);
    }
  }

  lemma AskKeeps(env: Env, w: World, e: Event)
    requires Inv(env, w) && e.Ask?
    ensures Inv(env, Step(env, w, e))
  {
    hide Inv, Accept, AdmitError, PageSequence;
    var s := w.session;
    if e.request.Some? {
      var request := e.request.value;
      if AdmitError(env, s, w.corpus, e.binding, e.operation, request) == None {
        AdmittedRoom(env, s, w.corpus, e.binding, e.operation, request);
        var q := PageSequence(s, e.operation, request.query);
        if q.Ok? && env.toolKnown(request) {
          DispatchedKeeps(env, w, e, q.value);
        }
      }
    }
  }

  lemma AdmittedRoom(env: Env, s: Session, corpus: Corpus, binding: Binding, operation: string, request: Request)
    requires AdmitError(env, s, corpus, binding, operation, request) == None
    ensures |s.records| < MAX_RECORDS
  {
  }

  lemma DispatchedKeeps(env: Env, w: World, e: Event, sequence: nat)
    requires Inv(env, w) && e.Ask? && e.request.Some? && |w.session.records| < MAX_RECORDS
    requires PageSequence(w.session, e.operation, e.request.value.query) == Ok(sequence)
    ensures match e.reply
            case Ok(raw) =>
              var o := Accept(env, w.session, w.corpus, e.operation, sequence, e.request.value, raw, e.accepts);
              Inv(env, World(o.session, o.corpus))
            case Err(error) =>
              Inv(env, World(WithError(w.session, e.operation, sequence, e.request.value, error), w.corpus))
  {
    CorpusIsOk(env, w);
    hide Inv, Accept, PageSequence, Accepted;
    var request := e.request.value;
    match e.reply {
      case Ok(raw) =>
        AcceptMeans(env, w, e.operation, sequence, request, raw, e.accepts);
        var o := Accept(env, w.session, w.corpus, e.operation, sequence, request, raw, e.accepts);
        if o.result.Ok? {
          var page :| Accepted(env, w, e.operation, sequence, request, page, World(o.session, o.corpus));
          AcceptedKeeps(env, w, e.operation, sequence, request, page, World(o.session, o.corpus));
        } else {
          ErrorKeeps(env, w, o.corpus, e.operation, sequence, request, o.result.error);
        }
      case Err(error) =>
        ErrorKeeps(env, w, w.corpus, e.operation, sequence, request, error);
    }
  }

  lemma CorpusIsOk(env: Env, w: World)
    requires Inv(env, w)
    ensures CorpusOk(env, w.corpus) && Grows(w.corpus, w.corpus)
  {
  }

  lemma {:induction false} RunKeeps(env: Env, w: World, events: seq<Event>)
    requires Inv(env, w)
    ensures Inv(env, Run(env, w, events))
    decreases |events|
  {
    if events != [] {
      var before, e := Run(env, w, events[..|events| - 1]), events[|events| - 1];
      RunKeeps(env, w, events[..|events| - 1]);
      if e.Ask? {
        hide Inv;
        AskKeeps(env, before, e);
      } else {
        OtherKeeps(env, before, e);
      }
    }
  }

  lemma OtherKeeps(env: Env, w: World, e: Event)
    requires Inv(env, w) && !e.Ask?
    ensures Inv(env, Step(env, w, e))
  {
    hide GoodListing, PagingOk, Listing;
  }

  // ---------- Main results ----------

  /** A session that has asked nothing yet, over any corpus whose references carry their content's hash. */
  ghost predicate Initial(env: Env, w: World) {
    w.session.records == [] && w.session.pages == map[] && CorpusOk(env, w.corpus)
  }

  lemma InitialInv(env: Env, w: World)
    requires Initial(env, w)
    ensures Inv(env, w)
  {
    assert forall op :: Listing(env, w.corpus, w.session.records, op) == [];
  }

  /** Over every run, the retained pages of every operation form one duplicate-free, ordered listing. */
  lemma RetainedPagesFormOneListing(env: Env, w: World, events: seq<Event>, operation: string)
    requires Initial(env, w)
    ensures var after := Run(env, w, events);
            var listing := Listing(env, after.corpus, after.session.records, operation);
            var items := AllItems(listing);
            && |after.session.records| <= MAX_RECORDS
            && Distinct(Identities(items))
            && (listing != [] ==>
                  var last := listing[|listing| - 1].page;
                  && Ordered(items, last.ordering) && CountsRight(last, |items|)
                  && forall l :: l in listing ==> SameListing(l.page, last))
  {
    hide *;
    InitialInv(env, w);
    RunKeeps(env, w, events);
    var after := Run(env, w, events);
    InvAt(env, after, operation);
    InvBound(env, after);
    LastIsGood(Listing(env, after.corpus, after.session.records, operation));
  }

  lemma InvBound(env: Env, w: World)
    requires Inv(env, w)
    ensures |w.session.records| <= MAX_RECORDS
  {
    hide GoodListing, Listing;
  }

  lemma LastIsGood(listing: seq<Listed>)
    requires GoodListing(listing)
    ensures var items := AllItems(listing);
            && Distinct(Identities(items))
            && (listing != [] ==>
                  var last := listing[|listing| - 1].page;
                  && Ordered(items, last.ordering) && CountsRight(last, |items|)
                  && forall l :: l in listing ==> SameListing(l.page, last))
  {
    if listing != [] {
      hide Ordered, AllItems, Distinct, SameListing;
      assert GoodAt(listing, |listing| - 1);
      assert listing[..|listing|] == listing;
    }
  }

  /** No answer offers a cursor that was asked for before, and the current chain never meets a cursor twice. */
  lemma CursorsNeverCycle(env: Env, w: World, events: seq<Event>, operation: string)
    requires Initial(env, w)
    ensures var after := Run(env, w, events);
            var listing := Listing(env, after.corpus, after.session.records, operation);
            && (forall i, j :: 0 <= i <= j < |listing| && listing[j].page.nextCursor.Some? ==>
                  listing[i].query.cursor != listing[j].page.nextCursor)
            && (operation in after.session.pages ==>
                  var p := after.session.pages[operation];
                  PagingOk(listing, p) && CursorsDistinct(listing[|listing| - p.count..]))
  {
    InitialInv(env, w);
    RunKeeps(env, w, events);
    var after := Run(env, w, events);
    var listing := Listing(env, after.corpus, after.session.records, operation);
    InvAt(env, after, operation);
    hide *;
    NoCycle(listing);
    if operation in after.session.pages {
      ChainDistinct(listing, after.session.pages[operation]);
    }
  }

  lemma InvAt(env: Env, w: World, op: string)
    requires Inv(env, w)
    ensures var listing := Listing(env, w.corpus, w.session.records, op);
            GoodListing(listing) && (op in w.session.pages ==> PagingOk(listing, w.session.pages[op]) && w.session.pages[op].count <= |listing|)
  {
    hide GoodListing, Listing;
  }

  lemma NoCycle(listing: seq<Listed>)
    requires GoodListing(listing)
    ensures forall i, j :: 0 <= i <= j < |listing| && listing[j].page.nextCursor.Some? ==>
              listing[i].query.cursor != listing[j].page.nextCursor
  {
    hide AllItems, Ordered, Distinct;
    forall i, j | 0 <= i <= j < |listing| && listing[j].page.nextCursor.Some?
      ensures listing[i].query.cursor != listing[j].page.nextCursor
    {
      assert GoodAt(listing, j);
    }
  }

  ghost predicate CursorsDistinct(chain: seq<Listed>) {
    forall i, j :: 0 <= i < j < |chain| ==>
      && chain[i].query.cursor != chain[j].query.cursor
      && (chain[i].page.nextCursor.Some? ==> chain[i].page.nextCursor != chain[j].page.nextCursor)
  }

  lemma ChainDistinct(listing: seq<Listed>, p: Paging)
    requires PagingOk(listing, p)
    requires forall i, j :: 0 <= i <= j < |listing| && listing[j].page.nextCursor.Some? ==>
               listing[i].query.cursor != listing[j].page.nextCursor
    ensures CursorsDistinct(listing[|listing| - p.count..])
  {
    var at := |listing| - p.count;
    var chain := listing[at..];
    forall i, j | 0 <= i < j < |chain|
      ensures chain[i].query.cursor != chain[j].query.cursor
      ensures chain[i].page.nextCursor.Some? ==> chain[i].page.nextCursor != chain[j].page.nextCursor
    {
      assert chain[i] == listing[at + i] && chain[j - 1] == listing[at + j - 1];
      assert chain[j] == listing[at + j] && chain[i + 1] == listing[at + i + 1];
    }
  }

  /** No event forgets where an operation's chain stands. */
  predicate Uncleared(events: seq<Event>) {
    forall e :: e in events ==> e.Ask? || e.Negotiated?
  }

  ghost predicate Whole(env: Env, w: World) {
    forall op :: |Listing(env, w.corpus, w.session.records, op)| == if op in w.session.pages then w.session.pages[op].count else 0
  }

  lemma AskKeepsWhole(env: Env, w: World, e: Event)
    requires Inv(env, w) && Whole(env, w) && e.Ask?
    ensures Whole(env, Step(env, w, e))
  {
    CorpusIsOk(env, w);
    assert AllSound(env, w.corpus, w.session.records);
    hide Inv, Accept, AdmitError, Accepted, Listing, Whole, WithError, PageSequence, AllSound;
    if e.request.Some? && AdmitError(env, w.session, w.corpus, e.binding, e.operation, e.request.value) == None {
      var request, q := e.request.value, PageSequence(w.session, e.operation, e.request.value.query);
      if q.Ok? && env.toolKnown(request) {
        if e.reply.Ok? {
          AcceptMeans(env, w, e.operation, q.value, request, e.reply.value, e.accepts);
          var o := Accept(env, w.session, w.corpus, e.operation, q.value, request, e.reply.value, e.accepts);
          if o.result.Ok? {
            var page :| Accepted(env, w, e.operation, q.value, request, page, World(o.session, o.corpus));
            AcceptedKeepsWhole(env, w, e.operation, q.value, request, page, World(o.session, o.corpus));
          } else {
            ErrorKeepsWhole(env, w, o.corpus, e.operation, q.value, request, o.result.error);
          }
        } else {
          ErrorKeepsWhole(env, w, w.corpus, e.operation, q.value, request, e.reply.error);
        }
      }
    }
  }

  lemma ErrorKeepsWhole(env: Env, w: World, corpus: Corpus, operation: string, sequence: nat, request: Request, error: LookupError)
    requires AllSound(env, w.corpus, w.session.records) && Grows(w.corpus, corpus) && Whole(env, w)
    ensures Whole(env, World(WithError(w.session, operation, sequence, request, error), corpus))
  {
    ErrorListing(env, w, corpus, operation, sequence, request, error);
    hide Listing, AllSound, Grows;
  }

  lemma AcceptedKeepsWhole(env: Env, w: World, operation: string, sequence: nat, request: Request, page: Page, after: World)
    requires Inv(env, w) && Whole(env, w) && Accepted(env, w, operation, sequence, request, page, after)
    requires PageSequence(w.session, operation, request.query) == Ok(sequence)
    ensures Whole(env, after)
  {
    hide Inv, Listing, ChainError, PageAt;
    forall op
      ensures |Listing(env, after.corpus, after.session.records, op)|
              == if op in after.session.pages then after.session.pages[op].count else 0
    {
      AcceptedListing(env, w, operation, sequence, request, page, after, op);
    }
  }

  lemma {:induction false} RunKeepsWhole(env: Env, w: World, events: seq<Event>)
    requires Inv(env, w) && Whole(env, w) && Uncleared(events)
    ensures Whole(env, Run(env, w, events))
    decreases |events|
  {
    if events != [] {
      var front, e := events[..|events| - 1], events[|events| - 1];
      assert e in events && forall d :: d in front ==> d in events;
      RunKeepsWhole(env, w, front);
      RunKeeps(env, w, front);
      hide Inv, Listing;
      if e.Ask? {
        AskKeepsWhole(env, Run(env, w, front), e);
      }
    }
  }

  /** Until a snapshot is cleared, all retained pages of an operation are one chain of at most 16 pages. */
  lemma UnclearedListingIsOneChain(env: Env, w: World, events: seq<Event>, operation: string)
    requires Initial(env, w) && Uncleared(events)
    ensures var after := Run(env, w, events);
            var listing := Listing(env, after.corpus, after.session.records, operation);
            if operation in after.session.pages then IsChain(listing, after.session.pages[operation]) else listing == []
  {
    InitialInv(env, w);
    assert Whole(env, w);
    RunKeeps(env, w, events);
    RunKeepsWhole(env, w, events);
    var after := Run(env, w, events);
    hide Run, Listing;
    var listing := Listing(env, after.corpus, after.session.records, operation);
    assert listing[0..] == listing;
  }

  /** A refused query changes nothing; a dispatched one adds one record; a failed one moves no chain. */
  lemma DispatchAddsOneRecord(env: Env, s: Session, corpus: Corpus, binding: Binding, operation: string, request: Option<Request>,
                              reply: Result<seq<byte>, LookupError>, accepts: bool)
    ensures var o := QueryOnce(env, s, corpus, binding, operation, request, reply, accepts);
            && (!o.dispatched ==> o.session == s && o.corpus == corpus && o.result.Err?)
            && (o.dispatched ==> |s.records| < MAX_RECORDS && |o.session.records| == |s.records| + 1 && s.records <= o.session.records)
            && (o.result.Err? ==> o.session.pages == s.pages)
            && (o.dispatched && o.result.Err? ==>
                  var last := o.session.records[|s.records|]; last.error == Some(o.result.error) && last.source == None)
            && (o.result.Ok? ==>
                  && o.dispatched && o.result.value.record == o.session.records[|s.records|]
                  && operation in o.session.pages
                  && o.session.pages[operation].count == (if operation in s.pages then s.pages[operation].count else 0) + 1
                  && forall op :: op in s.pages && op != operation ==> op in o.session.pages && o.session.pages[op] == s.pages[op])
  {
    hide AcceptSource;
    if request.Some? && AdmitError(env, s, corpus, binding, operation, request.value) == None {
      AdmittedRoom(env, s, corpus, binding, operation, request.value);
    }
    hide AdmitError;
  }
}
