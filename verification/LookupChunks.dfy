/**
 Retained bytes sent in bounded hexadecimal chunks: a loop that shrinks a chunk until its envelope fits,
 and a client that follows `next_offset` until it has the whole source.
 */
module LookupChunks {
  import opened Outcomes
  import opened Text
  import opened CanonicalJson
  import opened JsonReader
  import opened JsonText
  import opened LookupSession

  const FEEDBACK_BYTES := 7000
  const CHUNK_BYTES := 3000
  const MAX_TOTAL_BYTES := 65536

  datatype Envelope = Envelope(ordinal: nat, offset: nat, next: nat, total: nat, chunk: seq<byte>)

  // ---------- The text of an envelope and its size ----------

  const AUTHORITY := "untrusted_game_information_data"

  /** The members in the order of their names. */
  function EnvelopeFields(e: Envelope): seq<Field> {
    [Field("authority", Quote(AUTHORITY)), Field("bytes", Quote(Hex(e.chunk))), Field("encoding", Quote("hex")),
     Field("next_offset", Decimal(e.next)), Field("offset", Decimal(e.offset)), Field("record_ordinal", Decimal(e.ordinal)),
     Field("total_bytes", Decimal(e.total))]
  }

  function EnvelopeText(e: Envelope): string {
    ObjectOf(EnvelopeFields(e))
  }

  /** The characters that are in every envelope. */
  const FIXED := 133

  function Digits(n: nat): (d: nat)
    ensures d >= 1
  {
    |Decimal(n)|
  }

  function Size(ordinal: nat, offset: nat, next: nat, total: nat, count: nat): nat {
    FIXED + 2 * count + Digits(next) + Digits(offset) + Digits(ordinal) + Digits(total)
  }

  lemma PlainNames()
    ensures IsPlain("authority") && IsPlain("bytes") && IsPlain("encoding") && IsPlain("next_offset")
    ensures IsPlain("offset") && IsPlain("record_ordinal") && IsPlain("total_bytes") && IsPlain("hex")
  {
  }

  lemma NameSizes()
    ensures |Utf8(Quote("authority"))| == 11 && |Utf8(Quote("bytes"))| == 7 && |Utf8(Quote("encoding"))| == 10
    ensures |Utf8(Quote("next_offset"))| == 13 && |Utf8(Quote("offset"))| == 8 && |Utf8(Quote("record_ordinal"))| == 16
    ensures |Utf8(Quote("total_bytes"))| == 13 && |Utf8(Quote("hex"))| == 5
  {
    hide IsPlain, Quote, Utf8;
    PlainNames();
    NamesDiffer();
    PlainSize("authority");
    PlainSize("bytes");
    PlainSize("encoding");
    PlainSize("next_offset");
    PlainSize("offset");
    PlainSize("record_ordinal");
    PlainSize("total_bytes");
    PlainSize("hex");
  }

  lemma PlainAuthority()
    ensures IsPlain("untrusted_game_information_data")
  {
  }

  lemma AuthoritySize()
    ensures |Utf8(Quote(AUTHORITY))| == 33
  {
    hide IsPlain, Quote, Utf8;
    PlainAuthority();
    PlainSize("untrusted_game_information_data");
    assert |"untrusted_game_information_data"| == 31;
  }

  lemma HexSize(bytes: seq<byte>)
    ensures |Utf8(Quote(Hex(bytes)))| == 2 * |bytes| + 2
  {
    assert forall c :: IsHex(c) ==> 0x20 <= c as int < 0x80 && c != '"' && c != '\\';
    assert IsPlain(Hex(bytes));
    hide IsPlain, Quote, Utf8;
    PlainSize(Hex(bytes));
  }

  lemma NumberSize(n: nat)
    ensures |Utf8(Decimal(n))| == Digits(n)
  {
    assert forall c :: c in Decimal(n) ==> c as int < 0x80;
    hide Utf8, Decimal;
    Utf8AsciiLength(Decimal(n));
  }

  lemma SevenSizes(a: Field, b: Field, c: Field, d: Field, e: Field, f: Field, g: Field)
    ensures FieldsSize([a, b, c, d, e, f, g])
            == FieldSize(a) + FieldSize(b) + FieldSize(c) + FieldSize(d) + FieldSize(e) + FieldSize(f) + FieldSize(g)
  {
    hide Quote, Utf8, FieldsSize, FieldSize;
    SizeCons([a, b, c, d, e, f, g], a, [b, c, d, e, f, g]);
    SizeCons([b, c, d, e, f, g], b, [c, d, e, f, g]);
    FiveSizes(c, d, e, f, g);
  }

  /** The serialized envelope takes exactly `Size` bytes. */
  lemma EnvelopeSize(e: Envelope)
    ensures |Utf8(EnvelopeText(e))| == Size(e.ordinal, e.offset, e.next, e.total, |e.chunk|)
  {
    NameSizes();
    AuthoritySize();
    HexSize(e.chunk);
    NumberSize(e.next);
    NumberSize(e.offset);
    NumberSize(e.ordinal);
    NumberSize(e.total);
    hide Quote, Utf8, Decimal, Hex, FieldsSize, ObjectOf, Digits;
    SizeOfObject(EnvelopeFields(e));
    var f := EnvelopeFields(e);
    SevenSizes(f[0], f[1], f[2], f[3], f[4], f[5], f[6]);
  }

  // ---------- Reading an envelope ----------

  function EnvelopeJson(e: Envelope): Json {
    Obj([Member("authority", Str(AUTHORITY)), Member("bytes", Str(Hex(e.chunk))), Member("encoding", Str("hex")),
         Member("next_offset", Num(Unsigned(e.next))), Member("offset", Num(Unsigned(e.offset))),
         Member("record_ordinal", Num(Unsigned(e.ordinal))), Member("total_bytes", Num(Unsigned(e.total)))])
  }

  function FindWhole(members: seq<Member>, name: string): Option<nat> {
    match Find(members, name)
    case Some(Num(Unsigned(n))) => Some(n)
    case _ => None
  }

  function FindHex(members: seq<Member>, name: string): Option<seq<byte>> {
    match FindText(members, name)
    case Some(hex) => if |hex| % 2 == 0 && (forall c | c in hex :: IsHex(c)) then Some(UnHex(hex)) else None
    case None => None
  }

  /** What a client reads from an envelope: JSON, then the members by name. */
  function ReadEnvelope(text: string): Option<Envelope> {
    match ReadJson(Whole, text)
    case Some(Obj(ms)) => EnvelopeOf(ms)
    case _ => None
  }

  function EnvelopeOf(ms: seq<Member>): Option<Envelope> {
    if FindText(ms, "authority") != Some("untrusted_game_information_data") || FindText(ms, "encoding") != Some("hex") then None
    else
      match (FindWhole(ms, "record_ordinal"), FindWhole(ms, "offset"), FindWhole(ms, "next_offset"), FindWhole(ms, "total_bytes"),
             FindHex(ms, "bytes"))
      case (Some(ordinal), Some(offset), Some(next), Some(total), Some(chunk)) => Some(Envelope(ordinal, offset, next, total, chunk))
      case _ => None
  }

  lemma EnvelopeReadsAs(e: Envelope)
    ensures ReadsAs(Whole, EnvelopeText(e), EnvelopeJson(e))
  {
    hide ReadsAs, Quote, Decimal, Hex, ObjectOf;
    TextReads(Whole, AUTHORITY);
    TextReads(Whole, Hex(e.chunk));
    TextReads(Whole, "hex");
    WholeNumberReads(e.next);
    WholeNumberReads(e.offset);
    WholeNumberReads(e.ordinal);
    WholeNumberReads(e.total);
    ObjectReadsAs(Whole, EnvelopeFields(e), EnvelopeJson(e).members);
  }

  lemma NamesDiffer()
    ensures |"authority"| == 9 && |"bytes"| == 5 && |"encoding"| == 8 && |"next_offset"| == 11
    ensures |"offset"| == 6 && |"record_ordinal"| == 14 && |"total_bytes"| == 11 && |"hex"| == 3
    ensures "next_offset" != "total_bytes"
  {
    assert "next_offset"[0] != "total_bytes"[0];
  }

  lemma MembersFound(e: Envelope)
    ensures EnvelopeOf(EnvelopeJson(e).members) == Some(e)
  {
    hide Hex, UnHex, Find;
    HexRoundTrip(e.chunk);
    var ms := EnvelopeJson(e).members;
    assert ms[0].key == "authority" && ms[1].key == "bytes" && ms[2].key == "encoding" && ms[3].key == "next_offset";
    assert ms[4].key == "offset" && ms[5].key == "record_ordinal" && ms[6].key == "total_bytes";
    NamesDiffer();
    FindAt(ms, 0);
    FindAt(ms, 1);
    FindAt(ms, 2);
    FindAt(ms, 3);
    FindAt(ms, 4);
    FindAt(ms, 5);
    FindAt(ms, 6);
  }

  /** The client gets back what was put in. */
  lemma EnvelopeReads(e: Envelope)
    ensures ReadEnvelope(EnvelopeText(e)) == Some(e)
  {
    hide EnvelopeText, EnvelopeOf, ReadsAs, ReadJson;
    EnvelopeReadsAs(e);
    ReadsAsJson(Whole, EnvelopeText(e), EnvelopeJson(e), "");
    assert EnvelopeText(e) + "" == EnvelopeText(e);
    MembersFound(e);
  }

  // ---------- One answer ----------

  function Maximum(budget: nat): nat {
    if budget < FEEDBACK_BYTES then budget else FEEDBACK_BYTES
  }

  predicate InBounds(ordinal: nat, offset: nat, total: nat, bytes: seq<byte>) {
    ordinal < 256 && total <= MAX_TOTAL_BYTES && offset <= total && |bytes| <= total - offset
  }

  function FirstCount(bytes: seq<byte>): (count: nat)
    ensures count <= |bytes| && count <= CHUNK_BYTES
  {
    if |bytes| < CHUNK_BYTES then |bytes| else CHUNK_BYTES
  }

  function Cut(ordinal: nat, offset: nat, total: nat, bytes: seq<byte>, count: nat): Envelope
    requires count <= |bytes|
  {
    Envelope(ordinal, offset, offset + count, total, bytes[..count])
  }

  /** The size of the first attempt. */
  function FullSize(ordinal: nat, offset: nat, total: nat, bytes: seq<byte>): nat {
    Size(ordinal, offset, offset + FirstCount(bytes), total, FirstCount(bytes))
  }

  /**
   When an answer is given: the first attempt fits, or would fit with a single byte in it and its
   next offset still written as wide.
   */
  predicate Answered(ordinal: nat, offset: nat, total: nat, bytes: seq<byte>, budget: nat) {
    && budget > 0 && InBounds(ordinal, offset, total, bytes)
    && var count := FirstCount(bytes);
       Size(ordinal, offset, offset + count, total, if count == 0 then 0 else 1) <= Maximum(budget)
  }

  /** How many bytes the answer carries. */
  function Carried(ordinal: nat, offset: nat, total: nat, bytes: seq<byte>, budget: nat): int {
    var full := FullSize(ordinal, offset, total, bytes);
    if full <= Maximum(budget) then FirstCount(bytes) else FirstCount(bytes) - (full - Maximum(budget) + 1) / 2
  }

  lemma ShrunkFits(ordinal: nat, offset: nat, total: nat, count: nat, less: nat, maximum: nat)
    requires less <= count && Size(ordinal, offset, offset + count, total, count) > maximum
    requires less == count - (Size(ordinal, offset, offset + count, total, count) - maximum + 1) / 2
    ensures Size(ordinal, offset, offset + less, total, less) <= maximum
  {
    DecimalLengthMonotone(offset + less, offset + count);
  }

  /** The loop of the bytes arm. It shrinks at most once. */
  method BytesFeedback(ordinal: nat, offset: nat, total: nat, bytes: seq<byte>, budget: nat)
    returns (r: Result<Envelope, LookupError>, shrinks: nat)
    ensures shrinks <= 1
    ensures r.Ok? <==> Answered(ordinal, offset, total, bytes, budget)
    ensures r.Ok? ==>
              var count := Carried(ordinal, offset, total, bytes, budget);
              && 0 <= count <= |bytes| && (count == 0 ==> bytes == [])
              && r.value == Cut(ordinal, offset, total, bytes, count)
              && |Utf8(EnvelopeText(r.value))| <= Maximum(budget)
    ensures r.Err? ==> r.error == Bounds
  {
    hide Digits, EnvelopeText, Utf8;
    shrinks := 0;
    var maximum := Maximum(budget);
    if maximum == 0 || !InBounds(ordinal, offset, total, bytes) {
      return Err(Bounds), shrinks;
    }
    var count := FirstCount(bytes);
    while true
      invariant 0 <= count <= FirstCount(bytes) && shrinks <= 1
      invariant shrinks == 0 ==> count == FirstCount(bytes)
      invariant shrinks == 1 ==> FullSize(ordinal, offset, total, bytes) > maximum
      invariant shrinks == 1 ==> count == FirstCount(bytes) - (FullSize(ordinal, offset, total, bytes) - maximum + 1) / 2
      decreases count
    {
      var value := Cut(ordinal, offset, total, bytes, count);
      EnvelopeSize(value);
      var size := |Utf8(EnvelopeText(value))|;
      if size <= maximum {
        if count == 0 && bytes != [] {
          return Err(Bounds), shrinks;
        }
        return Ok(value), shrinks;
      }
      if shrinks == 1 {
        ShrunkFits(ordinal, offset, total, FirstCount(bytes), count, maximum);
        assert false;
      }
      var excess := (size - maximum + 1) / 2;
      if excess > count {
        return Err(Bounds), shrinks;
      }
      count := count - excess;
      shrinks := shrinks + 1;
    }
  }

  /** An answer never carries nothing while bytes are left. */
  lemma AnswerCarries(ordinal: nat, offset: nat, total: nat, bytes: seq<byte>, budget: nat)
    requires Answered(ordinal, offset, total, bytes, budget)
    ensures 0 <= Carried(ordinal, offset, total, bytes, budget) <= |bytes|
    ensures Carried(ordinal, offset, total, bytes, budget) == 0 <==> bytes == []
  {
    hide Digits;
  }

  // ---------- When an answer is refused ----------

  /** An envelope with one byte of the source would fit. */
  predicate OneByteFits(ordinal: nat, offset: nat, total: nat, budget: nat) {
    Size(ordinal, offset, offset + 1, total, 1) <= Maximum(budget)
  }

  /** With equally wide next offsets the loop answers exactly when one byte fits. */
  lemma AnswersIffOneByteFits(ordinal: nat, offset: nat, total: nat, bytes: seq<byte>, budget: nat)
    requires budget > 0 && InBounds(ordinal, offset, total, bytes) && bytes != []
    ensures Answered(ordinal, offset, total, bytes, budget) ==> OneByteFits(ordinal, offset, total, budget)
    ensures Digits(offset + FirstCount(bytes)) == Digits(offset + 1) ==>
              (Answered(ordinal, offset, total, bytes, budget) <==> OneByteFits(ordinal, offset, total, budget))
  {
    DecimalLengthMonotone(offset + 1, offset + FirstCount(bytes));
    hide Decimal;
  }

  lemma FewDigits(n: nat)
    requires n <= MAX_TOTAL_BYTES
    ensures Digits(n) <= 5
  {
    DecimalLengthMonotone(n, MAX_TOTAL_BYTES);
    assert |Decimal(65536)| == 5 by {
      assert |Decimal(6)| == 1 && |Decimal(65)| == 2 && |Decimal(655)| == 3 && |Decimal(6553)| == 4;
    }
  }

  /** With the whole feedback budget every chunk goes out in full. */
  lemma WholeBudgetCarriesAll(ordinal: nat, offset: nat, total: nat, bytes: seq<byte>, budget: nat)
    requires budget >= FEEDBACK_BYTES && InBounds(ordinal, offset, total, bytes)
    ensures Answered(ordinal, offset, total, bytes, budget)
    ensures Carried(ordinal, offset, total, bytes, budget) == FirstCount(bytes)
  {
    FewDigits(ordinal);
    FewDigits(offset);
    FewDigits(offset + FirstCount(bytes));
    FewDigits(total);
    assert FIXED <= 200;
    hide Digits;
  }

  // ---------- A client that follows next_offset ----------

  /** The bytes that `read_retained` hands out. */
  function Slice(source: seq<byte>, offset: nat, budget: nat): seq<byte>
    requires offset <= |source|
  {
    source[offset..if offset + budget < |source| then offset + budget else |source|]
  }

  lemma RetainedReadIsSlice(env: Env, s: Session, corpus: Corpus, record: Record, offset: nat)
    requires ReadRetained(env, s, corpus, record, offset).Ok?
    ensures Retained(env, corpus, s.now, record).Ok?
    ensures var source := Retained(env, corpus, s.now, record).value;
            && offset <= |source| == record.sourceBytes
            && ReadRetained(env, s, corpus, record, offset).value == Slice(source, offset, s.budget)
  {
    hide Replay;
  }

  /** What the client gets when it asks at `offset`. */
  function Answer(source: seq<byte>, ordinal: nat, budget: nat, offset: nat): Option<Envelope>
    requires offset <= |source|
  {
    var bytes := Slice(source, offset, budget);
    if Answered(ordinal, offset, |source|, bytes, budget) then
      AnswerCarries(ordinal, offset, |source|, bytes, budget);
      Some(Cut(ordinal, offset, |source|, bytes, Carried(ordinal, offset, |source|, bytes, budget)))
    else None
  }

  /** Every answer before the end moves on by at least a byte, stays inside the source and fits the budget. */
  lemma AnswerAdvances(source: seq<byte>, ordinal: nat, budget: nat, offset: nat)
    requires offset <= |source| && Answer(source, ordinal, budget, offset).Some?
    ensures var e := Answer(source, ordinal, budget, offset).value;
            && offset <= e.next <= |source| && (offset < |source| ==> offset < e.next)
            && e.chunk == source[offset..e.next] && |Utf8(EnvelopeText(e))| <= Maximum(budget)
  {
    hide EnvelopeText, Utf8, Size, Answered, Carried;
    var bytes := Slice(source, offset, budget);
    AnswerCarries(ordinal, offset, |source|, bytes, budget);
    AnswerFits(ordinal, offset, |source|, bytes, budget);
    var count := Carried(ordinal, offset, |source|, bytes, budget);
    EnvelopeSize(Answer(source, ordinal, budget, offset).value);
    assert bytes[..count] == source[offset..offset + count];
    NoSliceAtEnd(source, offset, budget, ordinal);
  }

  lemma AnswerFits(ordinal: nat, offset: nat, total: nat, bytes: seq<byte>, budget: nat)
    requires Answered(ordinal, offset, total, bytes, budget)
    ensures var count := Carried(ordinal, offset, total, bytes, budget);
            count >= 0 && Size(ordinal, offset, offset + count, total, count) <= Maximum(budget)
  {
    hide Digits;
    AnswerCarries(ordinal, offset, total, bytes, budget);
    if FullSize(ordinal, offset, total, bytes) > Maximum(budget) {
      ShrunkFits(ordinal, offset, total, FirstCount(bytes), Carried(ordinal, offset, total, bytes, budget), Maximum(budget));
    }
  }

  lemma NoSliceAtEnd(source: seq<byte>, offset: nat, budget: nat, ordinal: nat)
    requires offset <= |source| && Answered(ordinal, offset, |source|, Slice(source, offset, budget), budget)
    ensures Slice(source, offset, budget) == [] <==> offset == |source|
  {
    hide Digits;
  }

  /** An envelope that carries the next `n` bytes of the source. */
  function Carrying(source: seq<byte>, ordinal: nat, offset: nat, n: nat): Envelope
    requires offset + n <= |source|
  {
    Envelope(ordinal, offset, offset + n, |source|, source[offset..offset + n])
  }

  /**
   The answer to a read at `offset`. The first attempt carries as much as 3,000 bytes, the budget and the source allow.
   If it takes more than the budget or 7,000 bytes, as few bytes are dropped as make up for the excess at two
   characters a byte. An answer that would then carry nothing is refused.
   */
  ghost predicate IsAnswer(source: seq<byte>, ordinal: nat, budget: nat, offset: nat, e: Envelope)
    requires offset <= |source|
  {
    var limit, first := Least(budget, 7000), Least(Least(budget, 3000), |source| - offset);
    && 1 <= budget && ordinal < 256 && |source| <= 65536
    && offset <= e.next <= offset + first && e == Carrying(source, ordinal, offset, e.next - offset)
    && (e.next == offset ==> first == 0)
    && var full, dropped := |Utf8(EnvelopeText(Carrying(source, ordinal, offset, first)))|, offset + first - e.next;
       if full <= limit then dropped == 0 else full - 2 * dropped <= limit < full - 2 * (dropped - 1)
  }

  function Least(a: nat, b: nat): nat {
    if a < b then a else b
  }

  lemma AnswerMeans(source: seq<byte>, ordinal: nat, budget: nat, offset: nat, e: Envelope)
    requires offset <= |source|
    ensures Answer(source, ordinal, budget, offset) == Some(e) <==> IsAnswer(source, ordinal, budget, offset, e)
  {
    hide EnvelopeText, Utf8, Answered, Carried, Size, Answer;
    var bytes := Slice(source, offset, budget);
    SliceIs(source, offset, budget);
    EnvelopeSize(Carrying(source, ordinal, offset, FirstCount(bytes)));
    CarriedMeans(ordinal, offset, |source|, bytes, budget, e.next - offset);
    AnswerIs(source, ordinal, budget, offset);
    hide Slice;
  }

  lemma SliceIs(source: seq<byte>, offset: nat, budget: nat)
    requires offset <= |source|
    ensures var bytes := Slice(source, offset, budget);
            && |bytes| == Least(budget, |source| - offset) && FirstCount(bytes) == Least(Least(budget, 3000), |source| - offset)
            && forall n :: 0 <= n <= |bytes| ==> bytes[..n] == source[offset..offset + n]
  {
    var bytes := Slice(source, offset, budget);
    forall n | 0 <= n <= |bytes| ensures bytes[..n] == source[offset..offset + n] {
    }
  }

  lemma AnswerIs(source: seq<byte>, ordinal: nat, budget: nat, offset: nat)
    requires offset <= |source|
    ensures var bytes := Slice(source, offset, budget);
            var n := Carried(ordinal, offset, |source|, bytes, budget);
            if Answered(ordinal, offset, |source|, bytes, budget) then
              0 <= n <= |source| - offset && Answer(source, ordinal, budget, offset) == Some(Carrying(source, ordinal, offset, n))
            else Answer(source, ordinal, budget, offset) == None
  {
    hide Answered, Carried;
    var bytes := Slice(source, offset, budget);
    SliceIs(source, offset, budget);
    if Answered(ordinal, offset, |source|, bytes, budget) {
      AnswerCarries(ordinal, offset, |source|, bytes, budget);
    }
  }

  lemma CarriedMeans(ordinal: nat, offset: nat, total: nat, bytes: seq<byte>, budget: nat, n: int)
    ensures Answered(ordinal, offset, total, bytes, budget) && Carried(ordinal, offset, total, bytes, budget) == n <==>
            && budget > 0 && InBounds(ordinal, offset, total, bytes) && 0 <= n <= FirstCount(bytes) && (n == 0 ==> bytes == [])
            && var full, limit, dropped := FullSize(ordinal, offset, total, bytes), Maximum(budget), FirstCount(bytes) - n;
               if full <= limit then dropped == 0 else full - 2 * dropped <= limit < full - 2 * (dropped - 1)
  {
    hide Digits;
  }

  // ---------- When a read is refused ----------

  lemma ThreeDigits(n: nat)
    requires 100 <= n < 1000
    ensures Digits(n) == 3
  {
    assert |Decimal(n / 10)| == 2 by {
      assert |Decimal(n / 100)| == 1;
    }
  }

  /** A tiny budget is refused although one byte would fit: the estimate keeps the wider next offset. */
  lemma RefusesThoughOneByteFits()
    ensures var source := seq(3000, i => 0);
            var budget := Size(0, 0, 1, 3000, 1);
            budget < 200 && OneByteFits(0, 0, 3000, budget) && Answer(source, 0, budget, 0) == None
  {
    var budget := Size(0, 0, 1, 3000, 1);
    assert Digits(3000) == 4 by {
      assert |Decimal(3)| == 1 && |Decimal(30)| == 2 && |Decimal(300)| == 3;
    }
    assert Digits(0) == 1 && Digits(1) == 1;
    ThreeDigits(budget);
    hide Digits;
  }

  /** The widest envelope of one byte. */
  const ENOUGH := FIXED + 20

  /** From 200 bytes on, no read of a retained source is refused. */
  lemma EnoughBudgetAnswers(source: seq<byte>, ordinal: nat, budget: nat, offset: nat)
    requires ordinal < 256 && |source| <= MAX_TOTAL_BYTES && budget >= ENOUGH && offset <= |source|
    ensures ENOUGH <= 200 && Answer(source, ordinal, budget, offset).Some?
  {
    hide Size, Carried;
    EnoughAnswered(ordinal, offset, |source|, Slice(source, offset, budget), budget);
    hide Answered;
  }

  lemma EnoughAnswered(ordinal: nat, offset: nat, total: nat, bytes: seq<byte>, budget: nat)
    requires InBounds(ordinal, offset, total, bytes) && budget >= ENOUGH
    ensures ENOUGH <= 200 && Answered(ordinal, offset, total, bytes, budget)
  {
    DecimalLengthMonotone(ordinal, 999);
    ThreeDigits(999);
    FewDigits(offset);
    FewDigits(offset + FirstCount(bytes));
    FewDigits(total);
    assert Digits(ordinal) <= 3;
    hide Digits;
  }

  // ---------- The client's side ----------

  function NextOf(texts: seq<string>): nat {
    if texts == [] || ReadEnvelope(texts[|texts| - 1]).None? then 0 else ReadEnvelope(texts[|texts| - 1]).value.next
  }

  /** Reads that start at zero and always ask for the last `next_offset`, each of them answered. */
  predicate Transcript(source: seq<byte>, ordinal: nat, budget: nat, texts: seq<string>) {
    texts == []
    || (var front := texts[..|texts| - 1];
        && Transcript(source, ordinal, budget, front) && NextOf(front) <= |source|
        && Answer(source, ordinal, budget, NextOf(front)).Some?
        && texts[|texts| - 1] == EnvelopeText(Answer(source, ordinal, budget, NextOf(front)).value))
  }

  function BytesOf(text: string): seq<byte> {
    if ReadEnvelope(text).Some? then ReadEnvelope(text).value.chunk else []
  }

  function Joined(texts: seq<string>): seq<byte> {
    if texts == [] then [] else Joined(texts[..|texts| - 1]) + BytesOf(texts[|texts| - 1])
  }

  /** The decoded chunks of any transcript are exactly the source up to its last `next_offset`. */
  lemma {:induction false} ChunksReconstruct(source: seq<byte>, ordinal: nat, budget: nat, texts: seq<string>)
    requires Transcript(source, ordinal, budget, texts)
    ensures NextOf(texts) <= |source| && Joined(texts) == source[..NextOf(texts)]
    ensures NextOf(texts) == |source| ==> Joined(texts) == source
  {
    hide Answer, EnvelopeText, Utf8, ReadEnvelope;
    if texts != [] {
      var front := texts[..|texts| - 1];
      ChunksReconstruct(source, ordinal, budget, front);
      AnswerAdvances(source, ordinal, budget, NextOf(front));
      var e := Answer(source, ordinal, budget, NextOf(front)).value;
      EnvelopeReads(e);
      assert source[..NextOf(front)] + source[NextOf(front)..e.next] == source[..e.next];
    }
    assert source[..|source|] == source;
  }

  /** A client is at the end or has at least one byte a read. */
  lemma {:induction false} ReadsTerminate(source: seq<byte>, ordinal: nat, budget: nat, texts: seq<string>)
    requires Transcript(source, ordinal, budget, texts)
    ensures NextOf(texts) == |source| || NextOf(texts) >= |texts|
  {
    hide Answer, EnvelopeText, Utf8, ReadEnvelope;
    if texts != [] {
      var front := texts[..|texts| - 1];
      ReadsTerminate(source, ordinal, budget, front);
      AnswerAdvances(source, ordinal, budget, NextOf(front));
      EnvelopeReads(Answer(source, ordinal, budget, NextOf(front)).value);
    }
  }

  /** With 200 bytes of budget or more, every client can go on until it has the whole source. */
  lemma EveryClientFinishes(source: seq<byte>, ordinal: nat, budget: nat, texts: seq<string>)
    requires ordinal < 256 && |source| <= MAX_TOTAL_BYTES && budget >= ENOUGH
    requires Transcript(source, ordinal, budget, texts)
    ensures NextOf(texts) <= |source| && Answer(source, ordinal, budget, NextOf(texts)).Some?
    ensures |texts| >= |source| ==> Joined(texts) == source
  {
    ChunksReconstruct(source, ordinal, budget, texts);
    ReadsTerminate(source, ordinal, budget, texts);
    hide Transcript, Answer, Joined, NextOf;
    EnoughBudgetAnswers(source, ordinal, budget, NextOf(texts));
  }

  lemma WholeAnswer(source: seq<byte>, ordinal: nat, budget: nat, offset: nat)
    requires ordinal < 256 && |source| <= MAX_TOTAL_BYTES && budget >= FEEDBACK_BYTES && offset <= |source|
    ensures Answer(source, ordinal, budget, offset).Some?
    ensures Answer(source, ordinal, budget, offset).value.next == Least(offset + CHUNK_BYTES, |source|)
  {
    var bytes := Slice(source, offset, budget);
    WholeBudgetCarriesAll(ordinal, offset, |source|, bytes, budget);
    hide Answered, Carried;
  }

  /** With the whole budget, `n` reads get the first 3,000 `n` bytes. */
  lemma {:induction false} WholeReads(source: seq<byte>, ordinal: nat, budget: nat, texts: seq<string>)
    requires ordinal < 256 && |source| <= MAX_TOTAL_BYTES && budget >= FEEDBACK_BYTES
    requires Transcript(source, ordinal, budget, texts)
    ensures NextOf(texts) <= |source| && NextOf(texts) == Least(CHUNK_BYTES * |texts|, |source|)
    ensures Answer(source, ordinal, budget, NextOf(texts)).Some?
  {
    hide Answer, EnvelopeText, ReadEnvelope;
    if texts != [] {
      var front := texts[..|texts| - 1];
      WholeReads(source, ordinal, budget, front);
      WholeAnswer(source, ordinal, budget, NextOf(front));
      EnvelopeReads(Answer(source, ordinal, budget, NextOf(front)).value);
    }
    WholeAnswer(source, ordinal, budget, NextOf(texts));
  }

  /** The largest source takes 22 reads: no read is refused, and the source is complete after 22 and not before. */
  lemma LargestSourceTakes22Reads(source: seq<byte>, ordinal: nat, budget: nat, texts: seq<string>)
    requires ordinal < 256 && |source| == MAX_TOTAL_BYTES && budget >= FEEDBACK_BYTES
    requires Transcript(source, ordinal, budget, texts)
    ensures NextOf(texts) <= |source| && Answer(source, ordinal, budget, NextOf(texts)).Some?
    ensures Joined(texts) == source <==> |texts| >= 22
  {
    hide Transcript, Answer, Joined, NextOf;
    WholeReads(source, ordinal, budget, texts);
    ChunksReconstruct(source, ordinal, budget, texts);
    if Joined(texts) == source {
      assert |source[..NextOf(texts)]| == |source|;
    }
  }
}
