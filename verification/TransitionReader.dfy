/**
 What a commitment is a hash of, read from the outside: the bytes are split at their zero bytes and the eleven
 fields are named by position. Beside it, the validity of records and traces and the report of a comparison,
 without the order in which the code looks at them.
 */
module TransitionReader {
  import opened Outcomes
  import opened Text
  import opened ExactTransition

  // ---------- Reading a preimage ----------

  /** How many bytes come before the first zero byte. */
  function UntilZero(b: seq<int>): (n: nat)
    ensures n <= |b|
  {
    if b == [] || b[0] == 0 then 0 else 1 + UntilZero(b[1..])
  }

  /** The texts that `b` holds, each closed by a zero byte. */
  function ReadTexts(b: seq<int>): Option<seq<string>>
    decreases |b|
  {
    var n := UntilZero(b);
    if b == [] then Some([])
    else if n == |b| then None
    else
      match (FromUtf8(b[..n]), ReadTexts(b[n + 1..]))
      case (Some(text), Some(rest)) => Some([text] + rest)
      case _ => None
  }

  function ReadOptional(s: string): Option<string> {
    if s == "-" then None else Some(s)
  }

  predicate IsOrdinal(s: string) {
    IsDecimal(s) && (s == "0" || s[0] != '0') && UnDecimal(s) < 0x1_0000_0000_0000_0000
  }

  predicate IsState(s: string) {
    IsDigest("asc-state:v1:sha256:", s)
  }

  /** The eleven fields, by position. */
  function RecordOf(t: seq<string>): Option<Record> {
    if |t| == 11 && t[0] == "asc-transition:v1" && IsOrdinal(t[1]) && IsState(t[4]) && IsState(t[5]) then
      Some(Record(
             ordinal := UnDecimal(t[1]),
             boundaryKind := t[2],
             boundaryPhase := t[3],
             before := t[4],
             after := t[5],
             actionKey := t[6],
             actionSchema := t[7],
             catalogWitness := ReadOptional(t[8]),
             externalInput := ReadOptional(t[9]),
             previous := ReadOptional(t[10])))
    else None
  }

  /** The domain, which a zero byte closes too, and then the fields. */
  function ReadRecord(b: seq<int>): Option<Record> {
    match ReadTexts(b)
    case None => None
    case Some(t) => if t != [] && t[0] == "AI-ASCENSION/TRANSITION/v1" then RecordOf(t[1..]) else None
  }

  // ---------- It reads every preimage ----------

  lemma ZeroClosed(name: string, fields: seq<string>)
    ensures Utf8(name + "\0") + Payload(fields) == Payload([name] + fields)
  {
    Utf8Concat(name, "\0");
    ZeroByte();
    hide Utf8;
    assert ([name] + fields)[1..] == fields;
  }

  lemma ZeroByte()
    ensures Utf8("\0") == [0]
  {
  }

  lemma {:induction false} UntilZeroOf(x: seq<int>, rest: seq<int>)
    requires 0 !in x
    ensures UntilZero(x + [0] + rest) == |x|
  {
    var w := x + [0] + rest;
    if x == [] {
      assert w[0] == 0;
    } else {
      assert w[0] == x[0] && x[0] in x && w[1..] == x[1..] + [0] + rest;
      UntilZeroOf(x[1..], rest);
    }
  }

  lemma {:induction false} PayloadReads(fields: seq<string>)
    requires forall f :: f in fields ==> '\0' !in f
    ensures ReadTexts(Payload(fields)) == Some(fields)
  {
    hide Utf8, FromUtf8, UntilZero;
    if fields != [] {
      var x, rest := Utf8(fields[0]), Payload(fields[1..]);
      Utf8Ascii(fields[0], '\0');
      UntilZeroOf(x, rest);
      Utf8RoundTrip(fields[0]);
      PayloadReads(fields[1..]);
      var w := x + [0] + rest;
      assert w[..|x|] == x && w[|x| + 1..] == rest;
      assert fields == [fields[0]] + fields[1..];
    }
  }

  lemma {:induction false} NoLeadingZero(n: nat)
    ensures Decimal(n) == "0" || Decimal(n)[0] != '0'
    ensures n > 0 ==> Decimal(n)[0] != '0'
  {
    if n >= 10 {
      NoLeadingZero(n / 10);
    }
  }

  lemma OptionalReads(prefix: string, s: Option<string>)
    requires ValidOptional(prefix, s)
    ensures ReadOptional(OrDash(s)) == s
  {
  }

  lemma FieldsRead(r: Record)
    requires ValidRecord(r)
    ensures RecordOf(Fields(r)) == Some(r)
  {
    hide Utf8, Decimal, UnDecimal, OrDash, ReadOptional, IsDigest;
    DecimalRoundTrip(r.ordinal);
    NoLeadingZero(r.ordinal);
    OptionalReads(BLOB_PREFIX, r.catalogWitness);
    OptionalReads(BLOB_PREFIX, r.externalInput);
    OptionalReads(COMMITMENT_PREFIX, r.previous);
  }

  /** The bytes hashed for a record are read back as that record, and its commitment is a labelled hash of them. */
  lemma PreimageReads(sha: Hash, r: Record)
    requires ValidRecord(r)
    ensures ReadRecord(Preimage(r)) == Some(r)
    ensures Commitment(sha, r) == "asc-transition:v1:sha256:" + sha(Preimage(r))
  {
    hide Utf8, Fields, Payload, ReadTexts, RecordOf, ValidRecord;
    FieldsRead(r);
    FieldsHaveNoZero(r);
    var name := "AI-ASCENSION/TRANSITION/v1";
    var texts := [name] + Fields(r);
    assert '\0' !in name && texts[1..] == Fields(r);
    PayloadReads(texts);
    assert DOMAIN == name + "\0";
    ZeroClosed(name, Fields(r));
  }

  // ---------- Validity ----------

  predicate IsLabel(s: string) {
    1 <= |Utf8(s)| <= 256 && '\0' !in s
  }

  ghost predicate IsHashOf(prefix: string, s: string) {
    exists hex: string :: s == prefix + hex && |hex| == 64 && forall c :: c in hex ==> c in "0123456789abcdef"
  }

  lemma LabelMeans(s: string)
    ensures ValidLabel(s) <==> IsLabel(s)
  {
    if s != "" {
      assert |Utf8Char(s[0])| >= 1;
    }
  }

  lemma OptionalMeans(prefix: string, s: Option<string>)
    ensures ValidOptional(prefix, s) <==> (s.Some? ==> IsHashOf(prefix, s.value))
  {
    if s.Some? {
      DigestMeans(prefix, s.value);
    }
  }

  ghost predicate Labelled(r: Record) {
    IsLabel(r.boundaryKind) && IsLabel(r.boundaryPhase) && IsLabel(r.actionKey) && IsLabel(r.actionSchema)
  }

  ghost predicate Digested(r: Record) {
    && (r.catalogWitness.Some? ==> IsHashOf("sha256:", r.catalogWitness.value))
    && (r.externalInput.Some? ==> IsHashOf("sha256:", r.externalInput.value))
    && (r.previous.Some? ==> IsHashOf("asc-transition:v1:sha256:", r.previous.value))
  }

  /** Which records are valid, and which of the two refusals the others get. */
  lemma RecordOutcome(r: Record)
    ensures ValidRecord(r) <==> Labelled(r) && Digested(r)
    ensures RecordError(r) == None <==> Labelled(r) && Digested(r)
    ensures RecordError(r) == Some(InvalidRecord) <==> !Labelled(r)
    ensures RecordError(r) == Some(InvalidDigest) <==> Labelled(r) && !Digested(r)
  {
    LabelMeans(r.boundaryKind);
    LabelMeans(r.boundaryPhase);
    LabelMeans(r.actionKey);
    LabelMeans(r.actionSchema);
    OptionalMeans(BLOB_PREFIX, r.catalogWitness);
    OptionalMeans(BLOB_PREFIX, r.externalInput);
    OptionalMeans(COMMITMENT_PREFIX, r.previous);
    hide ValidLabel, IsLabel, ValidOptional, IsHashOf;
  }

  /** Genesis binding, strictly increasing ordinals, and links that hash the bytes that read as the predecessor. */
  ghost predicate Linked(sha: Hash, t: Trace) {
    && (t.records != [] ==> t.records[0].before == t.sourceState && t.records[0].previous == None)
    && (forall i :: 0 < i < |t.records| ==> t.records[i - 1].ordinal < t.records[i].ordinal)
    && (forall i :: 0 < i < |t.records| ==>
          t.records[i].previous == Some("asc-transition:v1:sha256:" + sha(Preimage(t.records[i - 1]))))
  }

  lemma ValidTraceMeans(sha: Hash, t: Trace)
    ensures ValidTrace(sha, t) <==>
            && IsLabel(t.profile) && |t.records| <= 100_000 && Linked(sha, t)
            && forall i :: 0 <= i < |t.records| ==> Labelled(t.records[i]) && Digested(t.records[i])
  {
    LabelMeans(t.profile);
    FitsIsLinked(sha, t);
    hide StepError, ValidLabel, IsLabel, Labelled, Digested, Linked, Fits;
    forall i | 0 <= i < |t.records| ensures StepError(sha, t, i) == None <==> Fits(sha, t, i) {
      StepMeans(sha, t, i);
    }
  }

  lemma FitsIsLinked(sha: Hash, t: Trace)
    ensures (forall i :: 0 <= i < |t.records| ==> Fits(sha, t, i)) <==>
            Linked(sha, t) && forall i :: 0 <= i < |t.records| ==> Labelled(t.records[i]) && Digested(t.records[i])
  {
    hide Labelled, Digested, Preimage;
    if forall i :: 0 <= i < |t.records| ==> Fits(sha, t, i) {
      assert t.records != [] ==> Fits(sha, t, 0);
      forall i | 0 < i < |t.records|
        ensures t.records[i - 1].ordinal < t.records[i].ordinal
        ensures t.records[i].previous == Some("asc-transition:v1:sha256:" + sha(Preimage(t.records[i - 1])))
      {
        assert Fits(sha, t, i);
      }
      assert forall i :: 0 <= i < |t.records| ==> Fits(sha, t, i) ==> Labelled(t.records[i]) && Digested(t.records[i]);
    }
  }

  ghost predicate Fits(sha: Hash, t: Trace, i: nat)
    requires i < |t.records|
  {
    && Labelled(t.records[i]) && Digested(t.records[i])
    && (i == 0 ==> t.records[0].before == t.sourceState && t.records[0].previous == None)
    && (i > 0 ==> t.records[i - 1].ordinal < t.records[i].ordinal
                  && t.records[i].previous == Some("asc-transition:v1:sha256:" + sha(Preimage(t.records[i - 1]))))
  }

  lemma StepMeans(sha: Hash, t: Trace, i: nat)
    requires i < |t.records|
    ensures StepError(sha, t, i) == None <==> Fits(sha, t, i)
  {
    RecordOutcome(t.records[i]);
    hide RecordError, Labelled, Digested, Preimage, ValidRecord;
  }

  /** What a record is refused for: a malformed record first, then an ordinal that does not grow, then a broken link. */
  lemma StepOutcome(sha: Hash, t: Trace, i: nat)
    requires i < |t.records|
    ensures var r, error := t.records[i], StepError(sha, t, i);
            var formed := Labelled(r) && Digested(r);
            var grows := i == 0 || t.records[i - 1].ordinal < r.ordinal;
            && (error == Some(InvalidRecord) <==> !Labelled(r))
            && (error == Some(InvalidDigest) <==> Labelled(r) && !Digested(r))
            && (error == Some(NonMonotonicOrdinal) <==> formed && !grows)
            && (error == Some(BrokenCommitmentChain) <==> formed && grows && !Fits(sha, t, i))
  {
    hide RecordError, Labelled, Digested, Commitment, ValidRecord, Fits;
    RecordOutcome(t.records[i]);
    StepMeans(sha, t, i);
    if i == 0 {
      return;
    }
    assert StepError(sha, t, i) in {None, Some(NonMonotonicOrdinal), Some(BrokenCommitmentChain), RecordError(t.records[i])};
  }

  // ---------- Comparison ----------

  /** `n` records agree, and no more do. */
  predicate AgreeFor(a: seq<Record>, b: seq<Record>, n: nat) {
    n <= |a| && n <= |b| && a[..n] == b[..n] && (n < |a| && n < |b| ==> a[n] != b[n])
  }

  /** Why two records at the place of the first difference differ: the first of these that holds. */
  ghost predicate Explains(outcome: TraceOutcome, x: Record, y: Record) {
    if (x.ordinal, x.boundaryKind, x.boundaryPhase) != (y.ordinal, y.boundaryKind, y.boundaryPhase) then outcome == UnalignedTrace
    else if (x.actionKey, x.actionSchema) != (y.actionKey, y.actionSchema) then outcome == DifferentAction
    else if x.externalInput != y.externalInput then outcome == DifferentExternalInput
    else if x.catalogWitness.Some? != y.catalogWitness.Some? then outcome == MissingCapture
    else outcome == StateDivergence
  }

  /** The report of a comparison of valid traces from one state, field by field. */
  lemma ComparisonMeans(sha: Hash, e: Trace, a: Trace, n: nat)
    requires ValidTrace(sha, e) && ValidTrace(sha, a) && e.records != [] && AgreeFor(e.records, a.records, n)
    ensures var c := Expected(e, a);
            && c.comparedRecords == n
            && c.lastEqualOrdinal == (if n > 0 then Some(e.records[n - 1].ordinal) else None)
            && c.firstUnequalOrdinal == (if n < |e.records| then Some(e.records[n].ordinal) else None)
            && c.unobservedRecords == (if n == |a.records| then |e.records| - n else if n == |e.records| then |a.records| - n else 0)
            && (if n == |e.records| then c.outcome == IdenticalOverRecordedRange
                else if n == |a.records| then c.outcome == MissingCapture
                else Explains(c.outcome, e.records[n], a.records[n]))
  {
    hide ValidTrace;
    CommonPrefixIs(e.records, a.records, n);
    hide CommonPrefix;
    if n < |e.records| && n < |a.records| {
      EqualPrefixEqualLinks(sha, e, a, n);
    }
  }
}
