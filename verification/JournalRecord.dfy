/**
 One record of the operation journal and the line it is stored as: `serde_json` members in declaration
 order, closed by a newline. The line reads back by member names, holds no inner newline and fits the read limit.
 */
module JournalRecord {
  import opened Outcomes
  import opened Text
  import opened CanonicalJson
  import opened JsonReader
  import opened JsonText

  const MAX_JOURNAL_ENTRIES := 4096
  const MAX_JOURNAL_FIELD_BYTES := 256
  const MAX_RECORD_BYTES := 16 * 1024

  datatype Key = Key(principal: string, instance: string, incarnation: string, operation: string, idempotencyKey: string)

  datatype Outcome = Pending | Accepted | Rejected | Unknown

  datatype Entry = Entry(key: Key, requestDigest: string, outcome: Outcome, sequence: nat)

  predicate ValidField(field: string) {
    field != "" && |Utf8(field)| <= MAX_JOURNAL_FIELD_BYTES && '\0' !in field
  }

  predicate ValidKey(key: Key) {
    && ValidField(key.principal) && ValidField(key.instance) && ValidField(key.incarnation)
    && ValidField(key.operation) && ValidField(key.idempotencyKey)
  }

  predicate ValidDigest(digest: string) {
    IsDigest("sha256:", digest)
  }

  function Label(outcome: Outcome): string {
    match outcome
    case Pending => "pending"
    case Accepted => "accepted"
    case Rejected => "rejected"
    case Unknown => "unknown"
  }

  // ---------- The text ----------

  function KeyText(key: Key): string {
    ObjectOf([Field("principal", Quote(key.principal)), Field("instance", Quote(key.instance)),
              Field("incarnation", Quote(key.incarnation)), Field("operation", Quote(key.operation)),
              Field("idempotency_key", Quote(key.idempotencyKey))])
  }

  function EntryText(e: Entry): string {
    ObjectOf([Field("key", KeyText(e.key)), Field("request_digest", Quote(e.requestDigest)),
              Field("outcome", Quote(Label(e.outcome))), Field("sequence", Decimal(e.sequence))])
  }

  /** What one append leaves in the file. */
  function Line(e: Entry): (line: seq<byte>)
    ensures line != [] && line[|line| - 1] == 10
  {
    Utf8(EntryText(e)) + [10]
  }

  // ---------- Reading a line ----------

  function KeyOf(v: Json): Option<Key> {
    if !v.Obj? || |v.members| != 5 then None
    else
      match (FindText(v.members, "principal"), FindText(v.members, "instance"), FindText(v.members, "incarnation"),
             FindText(v.members, "operation"), FindText(v.members, "idempotency_key"))
      case (Some(p), Some(i), Some(n), Some(o), Some(k)) => Some(Key(p, i, n, o, k))
      case _ => None
  }

  function OutcomeOf(name: string): Option<Outcome> {
    if name == "pending" then Some(Pending)
    else if name == "accepted" then Some(Accepted)
    else if name == "rejected" then Some(Rejected)
    else if name == "unknown" then Some(Unknown)
    else None
  }

  /** The entry that an object stands for, by the names of its members. */
  function EntryOf(v: Json): Option<Entry> {
    if !v.Obj? || |v.members| != 4 then None
    else
      match (Find(v.members, "key"), FindText(v.members, "request_digest"), FindText(v.members, "outcome"), Find(v.members, "sequence"))
      case (Some(key), Some(digest), Some(name), Some(Num(Unsigned(n)))) =>
        (match (KeyOf(key), OutcomeOf(name))
         case (Some(k), Some(outcome)) => if n <= 0xFFFF_FFFF_FFFF_FFFF then Some(Entry(k, digest, outcome, n)) else None
         case _ => None)
      case _ => None
  }

  /** A reader of stored lines: UTF-8, then JSON, then the members by name. */
  function ReadLine(line: seq<byte>): Option<Entry> {
    match FromUtf8(line)
    case None => None
    case Some(text) =>
      match ReadJson(Whole, text)
      case None => None
      case Some(v) => EntryOf(v)
  }

  /** The object that a line holds. */
  function EntryJson(e: Entry): Json {
    var k := e.key;
    Obj([Member("key", Obj([Member("principal", Str(k.principal)), Member("instance", Str(k.instance)),
                            Member("incarnation", Str(k.incarnation)), Member("operation", Str(k.operation)),
                            Member("idempotency_key", Str(k.idempotencyKey))])),
         Member("request_digest", Str(e.requestDigest)), Member("outcome", Str(Label(e.outcome))),
         Member("sequence", Num(Unsigned(e.sequence)))])
  }

  lemma KeyReads(key: Key)
    ensures ReadsAs(Whole, KeyText(key), EntryJson(Entry(key, "", Pending, 0)).members[0].value)
  {
    hide ReadsAs, Quote;
    TextReads(Whole, key.principal);
    TextReads(Whole, key.instance);
    TextReads(Whole, key.incarnation);
    TextReads(Whole, key.operation);
    TextReads(Whole, key.idempotencyKey);
    ObjectReadsAs(Whole,
      [Field("principal", Quote(key.principal)), Field("instance", Quote(key.instance)),
       Field("incarnation", Quote(key.incarnation)), Field("operation", Quote(key.operation)),
       Field("idempotency_key", Quote(key.idempotencyKey))],
      [Member("principal", Str(key.principal)), Member("instance", Str(key.instance)),
       Member("incarnation", Str(key.incarnation)), Member("operation", Str(key.operation)),
       Member("idempotency_key", Str(key.idempotencyKey))]);
  }

  lemma EntryReads(e: Entry)
    ensures ReadsAs(Whole, EntryText(e), EntryJson(e))
  {
    hide ReadsAs, Quote, KeyText, Decimal, Label;
    KeyReads(e.key);
    TextReads(Whole, e.requestDigest);
    TextReads(Whole, Label(e.outcome));
    WholeNumberReads(e.sequence);
    ObjectReadsAs(Whole,
      [Field("key", KeyText(e.key)), Field("request_digest", Quote(e.requestDigest)),
       Field("outcome", Quote(Label(e.outcome))), Field("sequence", Decimal(e.sequence))],
      EntryJson(e).members);
  }

  lemma EntryOfJson(e: Entry)
    requires e.sequence <= 0xFFFF_FFFF_FFFF_FFFF
    ensures EntryOf(EntryJson(e)) == Some(e)
  {
    OutcomeOfLabel(e.outcome);
    KeyOfJson(e.key);
    hide KeyOf, OutcomeOf, Label;
    var ms := EntryJson(e).members;
    assert ms[0].key == "key" && ms[1].key == "request_digest" && ms[2].key == "outcome" && ms[3].key == "sequence";
    NamesDiffer();
    FindAt(ms, 0);
    FindAt(ms, 1);
    FindAt(ms, 2);
    FindAt(ms, 3);
  }

  lemma OutcomeOfLabel(outcome: Outcome)
    ensures OutcomeOf(Label(outcome)) == Some(outcome)
  {
    var text := Label(outcome);
    assert "pending"[0] == 'p' && "accepted"[0] == 'a' && "rejected"[0] == 'r' && "unknown"[0] == 'u';
  }

  lemma NamesDiffer()
    ensures |"key"| == 3 && |"request_digest"| == 14 && |"outcome"| == 7 && |"sequence"| == 8
    ensures |"principal"| == 9 && |"instance"| == 8 && |"incarnation"| == 11 && |"operation"| == 9 && |"idempotency_key"| == 15
    ensures "principal" != "operation"
  {
    assert "principal"[0] != "operation"[0];
  }

  lemma KeyOfJson(key: Key)
    ensures KeyOf(EntryJson(Entry(key, "", Pending, 0)).members[0].value) == Some(key)
  {
    var ms := EntryJson(Entry(key, "", Pending, 0)).members[0].value.members;
    assert ms[0].key == "principal" && ms[1].key == "instance" && ms[2].key == "incarnation";
    assert ms[3].key == "operation" && ms[4].key == "idempotency_key";
    NamesDiffer();
    FindAt(ms, 0);
    FindAt(ms, 1);
    FindAt(ms, 2);
    FindAt(ms, 3);
    FindAt(ms, 4);
  }

  /** A stored line is JSON with the fields under their names; it reads back as its entry. */
  lemma LineReads(e: Entry)
    requires e.sequence <= 0xFFFF_FFFF_FFFF_FFFF
    ensures ReadLine(Line(e)) == Some(e)
  {
    hide EntryOf, EntryJson, EntryText, ReadsAs, Line, ReadJson, FromUtf8;
    EntryReads(e);
    EntryOfJson(e);
    LineText(e);
    ReadsAsJson(Whole, EntryText(e), EntryJson(e), "\n");
  }

  lemma LineText(e: Entry)
    ensures FromUtf8(Line(e)) == Some(EntryText(e) + "\n")
  {
    assert Utf8("\n") == [10];
    hide EntryText, Utf8, FromUtf8;
    Utf8Concat(EntryText(e), "\n");
    Utf8RoundTrip(EntryText(e) + "\n");
  }

  // ---------- One line ----------

  lemma QuoteOneLine(s: string)
    ensures '\n' !in Quote(s)
  {
    EscapeAllOneLine(s);
  }

  lemma KeyOneLine(key: Key)
    ensures '\n' !in KeyText(key)
  {
    QuoteOneLine(key.principal);
    QuoteOneLine(key.instance);
    QuoteOneLine(key.incarnation);
    QuoteOneLine(key.operation);
    QuoteOneLine(key.idempotencyKey);
    hide Quote, FieldsText;
    FieldsOneLine([Field("principal", Quote(key.principal)), Field("instance", Quote(key.instance)),
                   Field("incarnation", Quote(key.incarnation)), Field("operation", Quote(key.operation)),
                   Field("idempotency_key", Quote(key.idempotencyKey))]);
  }

  lemma EntryOneLine(e: Entry)
    ensures '\n' !in EntryText(e)
  {
    KeyOneLine(e.key);
    QuoteOneLine(e.requestDigest);
    QuoteOneLine(Label(e.outcome));
    assert '\n' !in Decimal(e.sequence);
    hide Quote, FieldsText, KeyText, Decimal;
    FieldsOneLine([Field("key", KeyText(e.key)), Field("request_digest", Quote(e.requestDigest)),
                   Field("outcome", Quote(Label(e.outcome))), Field("sequence", Decimal(e.sequence))]);
  }

  /** The only newline of a line is its last byte. */
  lemma LineIsOneLine(e: Entry)
    ensures 10 !in Line(e)[..|Line(e)| - 1]
  {
    EntryOneLine(e);
    hide EntryText, Utf8;
    Utf8Ascii(EntryText(e), '\n');
    assert Line(e)[..|Line(e)| - 1] == Utf8(EntryText(e));
  }

  // ---------- Size ----------

  lemma NamesArePlain()
    ensures IsPlain("key") && IsPlain("request_digest") && IsPlain("outcome") && IsPlain("sequence")
    ensures IsPlain("principal") && IsPlain("instance") && IsPlain("incarnation") && IsPlain("operation")
    ensures IsPlain("idempotency_key")
  {
  }

  lemma KeySize(key: Key)
    requires ValidKey(key)
    ensures |Utf8(KeyText(key))| <= 8000
  {
    KeyNameSizes();
    hide Quote, Utf8, ObjectOf, FieldsSize;
    QuoteSize(key.principal);
    QuoteSize(key.instance);
    QuoteSize(key.incarnation);
    QuoteSize(key.operation);
    QuoteSize(key.idempotencyKey);
    var a, b, c := Field("principal", Quote(key.principal)), Field("instance", Quote(key.instance)), Field("incarnation", Quote(key.incarnation));
    var d, e := Field("operation", Quote(key.operation)), Field("idempotency_key", Quote(key.idempotencyKey));
    SizeOfObject([a, b, c, d, e]);
    FiveSizes(a, b, c, d, e);
  }

  lemma KeyNameSizes()
    ensures |Utf8(Quote("principal"))| == 11 && |Utf8(Quote("instance"))| == 10 && |Utf8(Quote("incarnation"))| == 13
    ensures |Utf8(Quote("operation"))| == 11 && |Utf8(Quote("idempotency_key"))| == 17
  {
    NamesArePlain();
    NamesDiffer();
    hide Quote, Utf8, IsPlain;
    PlainSize("principal");
    PlainSize("instance");
    PlainSize("incarnation");
    PlainSize("operation");
    PlainSize("idempotency_key");
  }

  lemma {:induction false} Utf8AtMost(s: string)
    ensures |Utf8(s)| <= 4 * |s|
  {
    if s != "" {
      Utf8AtMost(s[1..]);
    }
  }

  lemma SequenceSize(n: nat)
    requires n <= MAX_JOURNAL_ENTRIES
    ensures |Utf8(Decimal(n))| <= 16
  {
    DecimalLengthMonotone(n, MAX_JOURNAL_ENTRIES);
    assert |Decimal(4096)| == 4 by {
      assert |Decimal(4)| == 1 && |Decimal(40)| == 2 && |Decimal(409)| == 3;
    }
    assert |Decimal(n)| <= 4;
    hide Decimal;
    Utf8AtMost(Decimal(n));
  }

  /** Every record that the journal writes stays within the limit that replay reads with. */
  lemma LineFits(e: Entry)
    requires ValidKey(e.key) && ValidDigest(e.requestDigest) && e.sequence <= MAX_JOURNAL_ENTRIES
    ensures |Line(e)| <= MAX_RECORD_BYTES
  {
    EntrySize(e);
    hide Utf8, EntryText;
  }

  lemma EntrySize(e: Entry)
    requires ValidKey(e.key) && ValidDigest(e.requestDigest) && e.sequence <= MAX_JOURNAL_ENTRIES
    ensures |Utf8(EntryText(e))| <= 11000
  {
    var a, b := Field("key", KeyText(e.key)), Field("request_digest", Quote(e.requestDigest));
    var c, d := Field("outcome", Quote(Label(e.outcome))), Field("sequence", Decimal(e.sequence));
    assert EntryText(e) == ObjectOf([a, b, c, d]);
    assert |e.requestDigest| == 71;
    hide Quote, Utf8, Label, Decimal, KeyText, ValidKey, ObjectOf, FieldsSize, EntryText, ValidDigest;
    SizeOfObject([a, b, c, d]);
    FourSizes(a, b, c, d);
    KeySize(e.key);
    SequenceSize(e.sequence);
    QuoteSize(e.requestDigest);
    Utf8AtMost(e.requestDigest);
    LabelSize(e.outcome);
    EntryNameSizes();
  }

  lemma LabelSize(outcome: Outcome)
    ensures |Utf8(Quote(Label(outcome)))| <= 200
  {
    assert |Label(outcome)| <= 8;
    hide Quote, Utf8, Label;
    QuoteSize(Label(outcome));
    Utf8AtMost(Label(outcome));
  }

  lemma EntryNameSizes()
    ensures |Utf8(Quote("key"))| == 5 && |Utf8(Quote("request_digest"))| == 16
    ensures |Utf8(Quote("outcome"))| == 9 && |Utf8(Quote("sequence"))| == 10
  {
    NamesArePlain();
    NamesDiffer();
    hide Quote, Utf8, IsPlain;
    PlainSize("key");
    PlainSize("request_digest");
    PlainSize("outcome");
    PlainSize("sequence");
  }
}
