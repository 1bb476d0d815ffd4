/**
 Committed transition records: every record commits to its fields and to the commitment of its
 predecessor. The hash is a parameter; claims that rest on it name the colliding inputs instead of
 assuming that none exist.
 */
module ExactTransition {
  import opened Outcomes
  import opened Text

  const COMMITMENT_VERSION: string := "asc-transition:v1"
  const COMMITMENT_PREFIX: string := "asc-transition:v1:sha256:"
  const DOMAIN: string := "AI-ASCENSION/TRANSITION/v1\0"
  const STATE_PREFIX: string := "asc-state:v1:sha256:"
  const BLOB_PREFIX: string := "sha256:"
  const MAX_RECORDS: nat := 100_000
  const MAX_LABEL_BYTES: nat := 256

  type u64 = n: int | 0 <= n < 0x1_0000_0000_0000_0000

  /** `ExactStateDigest`: only parsed values exist. */
  type StateDigest = s: string | IsDigest("asc-state:v1:sha256:", s)
    witness ZeroDigest("asc-state:v1:sha256:")

  /** SHA-256 rendered as 64 lower-case hexadecimal digits. */
  type Hash = seq<byte> -> string

  ghost predicate IsHash(sha: Hash) {
    forall b :: IsDigest("", sha(b))
  }

  datatype Record = Record(
    ordinal: u64,
    boundaryKind: string,
    boundaryPhase: string,
    before: StateDigest,
    after: StateDigest,
    actionKey: string,
    actionSchema: string,
    catalogWitness: Option<string>,
    externalInput: Option<string>,
    previous: Option<string>)

  datatype Trace = Trace(profile: string, sourceState: StateDigest, records: seq<Record>)

  datatype TransitionError = InvalidRecord | InvalidDigest | InvalidTrace | BrokenCommitmentChain | NonMonotonicOrdinal

  // ---------- Records ----------

  predicate ValidLabel(s: string) {
    s != "" && |Utf8(s)| <= MAX_LABEL_BYTES && '\0' !in s
  }

  predicate ValidOptional(prefix: string, s: Option<string>) {
    s.Some? ==> IsDigest(prefix, s.value)
  }

  /** `TransitionRecord::validate`. */
  function RecordError(r: Record): Option<TransitionError> {
    if !(ValidLabel(r.boundaryKind) && ValidLabel(r.boundaryPhase)
         && ValidLabel(r.actionKey) && ValidLabel(r.actionSchema)) then Some(InvalidRecord)
    else if !(ValidOptional(BLOB_PREFIX, r.catalogWitness) && ValidOptional(BLOB_PREFIX, r.externalInput)
              && ValidOptional(COMMITMENT_PREFIX, r.previous)) then Some(InvalidDigest)
    else None
  }

  /** All labels and all digests that are present are well formed. */
  predicate ValidRecord(r: Record) {
    && ValidLabel(r.boundaryKind) && ValidLabel(r.boundaryPhase) && ValidLabel(r.actionKey) && ValidLabel(r.actionSchema)
    && ValidOptional(BLOB_PREFIX, r.catalogWitness) && ValidOptional(BLOB_PREFIX, r.externalInput)
    && ValidOptional(COMMITMENT_PREFIX, r.previous)
  }

  function OrDash(s: Option<string>): string {
    if s.Some? then s.value else "-"
  }

  function Fields(r: Record): seq<string> {
    [COMMITMENT_VERSION, Decimal(r.ordinal), r.boundaryKind, r.boundaryPhase, r.before, r.after,
     r.actionKey, r.actionSchema, OrDash(r.catalogWitness), OrDash(r.externalInput), OrDash(r.previous)]
  }

  /** Every field followed by a zero byte. */
  function Payload(fields: seq<string>): seq<byte> {
    if fields == [] then [] else Utf8(fields[0]) + [0] + Payload(fields[1..])
  }

  /** What is hashed for a record. */
  function Preimage(r: Record): seq<byte> {
    Utf8(DOMAIN) + Payload(Fields(r))
  }

  function Commitment(sha: Hash, r: Record): string {
    COMMITMENT_PREFIX + sha(Preimage(r))
  }

  lemma {:induction false} PayloadSnoc(fields: seq<string>, field: string)
    ensures Payload(fields + [field]) == Payload(fields) + Utf8(field) + [0]
  {
    hide Utf8;
    if fields == [] {
      assert fields + [field] == [field] && [field][1..] == [];
    } else {
      PayloadSnoc(fields[1..], field);
      assert (fields + [field])[1..] == fields[1..] + [field];
      var first := Utf8(fields[0]) + [0];
      assert first + (Payload(fields[1..]) + Utf8(field) + [0]) == (first + Payload(fields[1..])) + Utf8(field) + [0];
    }
  }

  /** `TransitionRecord::commitment`, which fills a payload buffer field by field. */
  method Commit(sha: Hash, r: Record) returns (c: Result<string, TransitionError>)
    ensures c.Ok? <==> ValidRecord(r)
    ensures c.Ok? ==> c.value == Commitment(sha, r)
    ensures c.Err? ==> RecordError(r) == Some(c.error)
  {
    hide Utf8, ValidRecord;
    var error := RecordError(r);
    assert ValidRecord(r) <==> error == None by { ValidRecordMeans(r); }
    if error.Some? {
      return Err(error.value);
    }
    var fields := Fields(r);
    var payload: seq<byte> := [];
    for i := 0 to |fields|
      invariant payload == Payload(fields[..i])
    {
      assert fields[..i + 1] == fields[..i] + [fields[i]];
      PayloadSnoc(fields[..i], fields[i]);
      payload := payload + Utf8(fields[i]) + [0];
    }
    assert fields[..|fields|] == fields;
    return Ok(COMMITMENT_PREFIX + sha(Utf8(DOMAIN) + payload));
  }

  lemma ValidRecordMeans(r: Record)
    ensures ValidRecord(r) <==> RecordError(r) == None
  {
  }

  // ---------- The payload determines the record ----------

  lemma ZeroTerminated(x: seq<byte>, y: seq<byte>, s: seq<byte>, t: seq<byte>)
    requires 0 !in x && 0 !in y && x + [0] + s == y + [0] + t
    ensures x == y && s == t
  {
    var w := x + [0] + s;
    if |x| < |y| {
      ZeroInside(x, y, s, t);
      assert false;
    }
    if |y| < |x| {
      ZeroInside(y, x, t, s);
      assert false;
    }
    assert x == w[..|x|] == y && s == w[|x| + 1..] == t;
  }

  lemma ZeroInside(x: seq<byte>, y: seq<byte>, s: seq<byte>, t: seq<byte>)
    requires x + [0] + s == y + [0] + t && |x| < |y|
    ensures 0 in y
  {
    assert (x + [0] + s)[|x|] == 0 && (y + [0] + t)[|x|] == y[|x|];
  }

  lemma {:induction false} PayloadInjective(fs: seq<string>, gs: seq<string>)
    requires |fs| == |gs| && (forall f :: f in fs ==> '\0' !in f) && (forall g :: g in gs ==> '\0' !in g)
    requires Payload(fs) == Payload(gs)
    ensures fs == gs
  {
    if fs != [] {
      Utf8Ascii(fs[0], '\0');
      Utf8Ascii(gs[0], '\0');
      ZeroTerminated(Utf8(fs[0]), Utf8(gs[0]), Payload(fs[1..]), Payload(gs[1..]));
      Utf8Injective(fs[0], gs[0]);
      PayloadInjective(fs[1..], gs[1..]);
      assert fs == [fs[0]] + fs[1..] && gs == [gs[0]] + gs[1..];
    }
  }

  lemma DigestHasNoZero(prefix: string, s: string)
    requires IsDigest(prefix, s) && '\0' !in prefix
    ensures '\0' !in s
  {
    assert s == s[..|prefix|] + s[|prefix|..];
  }

  lemma FieldsHaveNoZero(r: Record)
    requires ValidRecord(r)
    ensures forall f :: f in Fields(r) ==> '\0' !in f
  {
    hide Utf8, Decimal, IsDigest, OrDash;
    DigestHasNoZero(STATE_PREFIX, r.before);
    DigestHasNoZero(STATE_PREFIX, r.after);
    OptionalHasNoZero(BLOB_PREFIX, r.catalogWitness);
    OptionalHasNoZero(BLOB_PREFIX, r.externalInput);
    OptionalHasNoZero(COMMITMENT_PREFIX, r.previous);
  }

  lemma OptionalHasNoZero(prefix: string, s: Option<string>)
    requires ValidOptional(prefix, s) && '\0' !in prefix
    ensures '\0' !in OrDash(s)
  {
    if s.Some? {
      DigestHasNoZero(prefix, s.value);
    }
  }

  lemma OptionalDetermined(prefix: string, s: Option<string>, t: Option<string>)
    requires ValidOptional(prefix, s) && ValidOptional(prefix, t) && OrDash(s) == OrDash(t)
    ensures s == t
  {
  }

  /** Two valid records with the same preimage are the same record. */
  lemma PreimageInjective(r: Record, q: Record)
    requires ValidRecord(r) && ValidRecord(q) && Preimage(r) == Preimage(q)
    ensures r == q
  {
    assert ValidOptional(BLOB_PREFIX, r.catalogWitness) && ValidOptional(BLOB_PREFIX, q.catalogWitness);
    hide Utf8, Payload, Fields, Decimal, OrDash, IsDigest;
    FieldsHaveNoZero(r);
    FieldsHaveNoZero(q);
    var d := Utf8(DOMAIN);
    assert Payload(Fields(r)) == Preimage(r)[|d|..] == Preimage(q)[|d|..] == Payload(Fields(q));
    SameFieldCount(r, q);
    PayloadInjective(Fields(r), Fields(q));
    FieldsDetermineRecord(r, q);
  }

  lemma SameFieldCount(r: Record, q: Record)
    ensures |Fields(r)| == |Fields(q)|
  {
  }

  lemma FieldsDetermineRecord(r: Record, q: Record)
    requires ValidRecord(r) && ValidRecord(q) && Fields(r) == Fields(q)
    ensures r == q
  {
    hide Utf8, Decimal, OrDash, IsDigest;
    var x, y := Fields(r), Fields(q);
    assert x[1] == y[1] && x[2] == y[2] && x[3] == y[3] && x[4] == y[4] && x[5] == y[5];
    assert x[6] == y[6] && x[7] == y[7] && x[8] == y[8] && x[9] == y[9] && x[10] == y[10];
    DecimalInjective(r.ordinal, q.ordinal);
    OptionalDetermined(BLOB_PREFIX, r.catalogWitness, q.catalogWitness);
    OptionalDetermined(BLOB_PREFIX, r.externalInput, q.externalInput);
    OptionalDetermined(COMMITMENT_PREFIX, r.previous, q.previous);
  }

  // ---------- Traces ----------

  /** What record `i` is refused for, given that the earlier records are valid. */
  function StepError(sha: Hash, t: Trace, i: nat): Option<TransitionError>
    requires i < |t.records|
  {
    var r := t.records[i];
    if RecordError(r).Some? then RecordError(r)
    else if i == 0 then
      if r.before != t.sourceState || r.previous.Some? then Some(BrokenCommitmentChain) else None
    else if r.ordinal <= t.records[i - 1].ordinal then Some(NonMonotonicOrdinal)
    else if r.previous != Some(Commitment(sha, t.records[i - 1])) then Some(BrokenCommitmentChain)
    else None
  }

  predicate ValidHeader(t: Trace) {
    ValidLabel(t.profile) && |t.records| <= MAX_RECORDS
  }

  predicate ValidTrace(sha: Hash, t: Trace) {
    ValidHeader(t) && forall i :: 0 <= i < |t.records| ==> StepError(sha, t, i) == None
  }

  /** The error of an invalid trace: of its header, or of the first record that cannot follow its predecessors. */
  ghost predicate IsTraceError(sha: Hash, t: Trace, error: TransitionError) {
    if !ValidHeader(t) then error == InvalidTrace
    else exists i :: 0 <= i < |t.records| && StepError(sha, t, i) == Some(error) && forall j :: 0 <= j < i ==> StepError(sha, t, j) == None
  }

  /** `TransitionTrace::validate`. A refusal is the first record's that cannot follow its predecessors. */
  method ValidateTrace(sha: Hash, t: Trace) returns (r: Result<(), TransitionError>)
    ensures r.Ok? <==> ValidTrace(sha, t)
    ensures r.Err? ==> IsTraceError(sha, t, r.error)
  {
    hide ValidLabel, RecordError, Commitment;
    if !ValidHeader(t) {
      return Err(InvalidTrace);
    }
    for index := 0 to |t.records|
      invariant forall j :: 0 <= j < index ==> StepError(sha, t, j) == None
    {
      var record := t.records[index];
      var error := RecordError(record);
      if error.Some? {
        assert StepError(sha, t, index) == error;
        return Err(error.value);
      }
      if index == 0 {
        if record.before != t.sourceState || record.previous.Some? {
          assert StepError(sha, t, index) == Some(BrokenCommitmentChain);
          return Err(BrokenCommitmentChain);
        }
        continue;
      }
      var previous := t.records[index - 1];
      if record.ordinal <= previous.ordinal {
        assert StepError(sha, t, index) == Some(NonMonotonicOrdinal);
        return Err(NonMonotonicOrdinal);
      }
      assert StepError(sha, t, index - 1) == None;
      var expected := Commit(sha, previous);
      if record.previous != Some(expected.value) {
        assert StepError(sha, t, index) == Some(BrokenCommitmentChain);
        return Err(BrokenCommitmentChain);
      }
    }
    return Ok(());
  }

  lemma CommitmentIsValid(sha: Hash, r: Record)
    requires IsHash(sha)
    ensures IsDigest(COMMITMENT_PREFIX, Commitment(sha, r))
  {
    var hex := sha(Preimage(r));
    assert IsDigest("", hex) && hex[0..] == hex;
    assert Commitment(sha, r)[|COMMITMENT_PREFIX|..] == hex;
  }

  /** A valid trace can be extended by any labelled boundary with a later ordinal. */
  lemma TraceExtends(sha: Hash, t: Trace, r: Record)
    requires IsHash(sha) && ValidTrace(sha, t) && 0 < |t.records| < MAX_RECORDS
    requires ValidRecord(r.(previous := None)) && r.ordinal > t.records[|t.records| - 1].ordinal
    ensures var next := r.(previous := Some(Commitment(sha, t.records[|t.records| - 1])));
            ValidTrace(sha, t.(records := t.records + [next]))
  {
    hide *;
    var last := t.records[|t.records| - 1];
    CommitmentIsValid(sha, last);
    RecordWithLink(r, Commitment(sha, last));
    TraceAppends(sha, t, r.(previous := Some(Commitment(sha, last))));
  }

  lemma TraceAppends(sha: Hash, t: Trace, r: Record)
    requires ValidTrace(sha, t) && 0 < |t.records| < MAX_RECORDS
    requires ValidRecord(r) && r.ordinal > t.records[|t.records| - 1].ordinal
    requires r.previous == Some(Commitment(sha, t.records[|t.records| - 1]))
    ensures ValidTrace(sha, t.(records := t.records + [r]))
  {
    ValidRecordMeans(r);
    hide Commitment, RecordError, ValidRecord;
    var longer := t.(records := t.records + [r]);
    forall i | 0 <= i < |longer.records| ensures StepError(sha, longer, i) == None {
      if i < |t.records| {
        StepErrorIsLocal(sha, t, longer, i);
      }
    }
  }

  lemma RecordWithLink(r: Record, link: string)
    requires ValidRecord(r.(previous := None)) && IsDigest(COMMITMENT_PREFIX, link)
    ensures ValidRecord(r.(previous := Some(link)))
  {
    hide IsDigest, ValidLabel;
  }

  lemma UnlinkedRecord(r: Record, before: StateDigest)
    requires ValidRecord(r) && r.ordinal < 0xFFFF_FFFF_FFFF_FFFF
    ensures ValidRecord(r.(ordinal := r.ordinal + 1, before := before, previous := None).(previous := None))
  {
    hide IsDigest, ValidLabel;
  }

  lemma StepErrorIsLocal(sha: Hash, t: Trace, longer: Trace, i: nat)
    requires i < |t.records| && t.records <= longer.records && t.sourceState == longer.sourceState
    ensures StepError(sha, t, i) == StepError(sha, longer, i)
  {
    hide RecordError, Commitment;
  }

  /** Validation links commitments, not states: consecutive records may disagree on the state between them. */
  lemma ContinuityIsNotRequired(sha: Hash, t: Trace, other: StateDigest)
    requires IsHash(sha) && ValidTrace(sha, t) && 0 < |t.records| < MAX_RECORDS
    requires t.records[|t.records| - 1].ordinal < 0xFFFF_FFFF_FFFF_FFFF
    requires other != t.records[|t.records| - 1].after
    ensures exists next: Record ::
              ValidTrace(sha, t.(records := t.records + [next])) && next.before == other
  {
    hide *;
    var next := Discontinuous(sha, t, other);
  }

  lemma Discontinuous(sha: Hash, t: Trace, other: StateDigest) returns (next: Record)
    requires IsHash(sha) && ValidTrace(sha, t) && 0 < |t.records| < MAX_RECORDS
    requires t.records[|t.records| - 1].ordinal < 0xFFFF_FFFF_FFFF_FFFF
    ensures ValidTrace(sha, t.(records := t.records + [next])) && next.before == other
  {
    hide *;
    var last := t.records[|t.records| - 1];
    TraceRecordValid(sha, t, |t.records| - 1);
    UnlinkedRecord(last, other);
    var r := last.(ordinal := last.ordinal + 1, before := other, previous := None);
    TraceExtends(sha, t, r);
    next := r.(previous := Some(Commitment(sha, last)));
  }

  // ---------- The last commitment binds the trace ----------

  /** Two different preimages of records of `a` and `b` with one hash. */
  ghost predicate Collision(sha: Hash, a: seq<Record>, b: seq<Record>) {
    exists i, j :: 0 <= i < |a| && 0 <= j < |b|
                   && Preimage(a[i]) != Preimage(b[j]) && sha(Preimage(a[i])) == sha(Preimage(b[j]))
  }

  lemma CommitmentDeterminesRecord(sha: Hash, a: Trace, b: Trace, i: nat, j: nat)
    requires ValidTrace(sha, a) && ValidTrace(sha, b) && i < |a.records| && j < |b.records|
    requires Commitment(sha, a.records[i]) == Commitment(sha, b.records[j])
    ensures a.records[i] == b.records[j] || Collision(sha, a.records, b.records)
  {
    var r, q := a.records[i], b.records[j];
    TraceRecordValid(sha, a, i);
    TraceRecordValid(sha, b, j);
    hide Preimage, RecordError, ValidRecord, ValidTrace;
    assert sha(Preimage(r)) == Commitment(sha, r)[|COMMITMENT_PREFIX|..];
    assert sha(Preimage(q)) == Commitment(sha, q)[|COMMITMENT_PREFIX|..];
    if Preimage(r) == Preimage(q) {
      PreimageInjective(r, q);
    }
  }

  lemma TraceRecordValid(sha: Hash, t: Trace, i: nat)
    requires ValidTrace(sha, t) && i < |t.records|
    ensures ValidRecord(t.records[i])
  {
    assert StepError(sha, t, i) == None;
    ValidRecordMeans(t.records[i]);
    hide Commitment, RecordError, ValidRecord;
  }

  lemma Link(sha: Hash, t: Trace, i: nat)
    requires ValidTrace(sha, t) && i < |t.records|
    ensures i == 0 <==> t.records[i].previous == None
    ensures i > 0 ==> t.records[i].previous == Some(Commitment(sha, t.records[i - 1]))
    ensures i == 0 ==> t.records[i].before == t.sourceState
  {
    hide RecordError, Commitment, ValidHeader;
    assert StepError(sha, t, i) == None;
  }

  /** Equal commitments anywhere in two valid traces fix the position and everything before it. */
  lemma {:induction false} CommitmentBindsPrefix(sha: Hash, a: Trace, b: Trace, i: nat, j: nat)
    requires ValidTrace(sha, a) && ValidTrace(sha, b) && i < |a.records| && j < |b.records|
    requires Commitment(sha, a.records[i]) == Commitment(sha, b.records[j])
    ensures (i == j && a.records[..i + 1] == b.records[..i + 1] && a.sourceState == b.sourceState)
            || Collision(sha, a.records, b.records)
  {
    hide *;
    CommitmentDeterminesRecord(sha, a, b, i, j);
    Link(sha, a, i);
    Link(sha, b, j);
    if a.records[i] == b.records[j] {
      assert a.records[..i + 1] == a.records[..i] + [a.records[i]];
      assert b.records[..j + 1] == b.records[..j] + [b.records[j]];
      if i > 0 {
        CommitmentBindsPrefix(sha, a, b, i - 1, j - 1);
      }
    }
  }

  /** Two valid traces with the same final commitment are the same trace, or exhibit a hash collision. */
  lemma FinalCommitmentBindsTrace(sha: Hash, a: Trace, b: Trace)
    requires ValidTrace(sha, a) && ValidTrace(sha, b) && a.records != [] && b.records != []
    requires Commitment(sha, a.records[|a.records| - 1]) == Commitment(sha, b.records[|b.records| - 1])
    ensures (a.records == b.records && a.sourceState == b.sourceState) || Collision(sha, a.records, b.records)
  {
    hide ValidTrace, Commitment, Collision;
    CommitmentBindsPrefix(sha, a, b, |a.records| - 1, |b.records| - 1);
    assert a.records[..|a.records|] == a.records && b.records[..|b.records|] == b.records;
  }

  // ---------- Comparison ----------

  datatype TraceOutcome =
    | IdenticalOverRecordedRange
    | DifferentAction
    | DifferentExternalInput
    | StateDivergence
    | MissingCapture
    | RestoreMismatch
    | IncompatibleProfile
    | UnalignedTrace
    | InsufficientCoverage

  datatype TraceComparison = TraceComparison(
    outcome: TraceOutcome,
    lastEqualOrdinal: Option<u64>,
    firstUnequalOrdinal: Option<u64>,
    comparedRecords: nat,
    unobservedRecords: nat)

  function Classify(left: Record, right: Record): Option<TraceOutcome> {
    if left.actionKey != right.actionKey || left.actionSchema != right.actionSchema then Some(DifferentAction)
    else if left.externalInput != right.externalInput then Some(DifferentExternalInput)
    else if left.catalogWitness.Some? && right.catalogWitness.Some? && left.catalogWitness != right.catalogWitness
      then Some(StateDivergence)
    else if left.catalogWitness.Some? != right.catalogWitness.Some? then Some(MissingCapture)
    else if left.before != right.before || left.after != right.after then Some(StateDivergence)
    else None
  }

  predicate Aligned(left: Record, right: Record) {
    && left.ordinal == right.ordinal
    && left.boundaryKind == right.boundaryKind
    && left.boundaryPhase == right.boundaryPhase
  }

  /** What the scan reports of two records at one index. */
  function Difference(left: Record, right: Record): Option<TraceOutcome> {
    if !Aligned(left, right) then Some(UnalignedTrace) else Classify(left, right)
  }

  lemma DifferenceSeesAllButTheLink(left: Record, right: Record)
    ensures Difference(left, right) == None <==> left == right.(previous := left.previous)
  {
  }

  predicate SameAction(left: Record, right: Record) {
    left.actionKey == right.actionKey && left.actionSchema == right.actionSchema
  }

  /** Each outcome is reported exactly when its difference is there and none of the earlier ones is. */
  lemma DifferenceExplains(left: Record, right: Record)
    ensures var d := Difference(left, right);
            var prior := Aligned(left, right) && SameAction(left, right) && left.externalInput == right.externalInput;
            && (d == Some(UnalignedTrace) <==> !Aligned(left, right))
            && (d == Some(DifferentAction) <==> Aligned(left, right) && !SameAction(left, right))
            && (d == Some(DifferentExternalInput) <==>
                  Aligned(left, right) && SameAction(left, right) && left.externalInput != right.externalInput)
            && (d == Some(MissingCapture) <==> prior && left.catalogWitness.Some? != right.catalogWitness.Some?)
            && (d == Some(StateDivergence) <==>
                  && prior && left.catalogWitness.Some? == right.catalogWitness.Some?
                  && (left.catalogWitness, left.before, left.after) != (right.catalogWitness, right.before, right.after))
  {
  }

  /** The length of the longest common prefix. */
  ghost function CommonPrefix(a: seq<Record>, b: seq<Record>): (n: nat)
    ensures n <= |a| && n <= |b| && a[..n] == b[..n]
    ensures n < |a| && n < |b| ==> a[n] != b[n]
  {
    if a == [] || b == [] || a[0] != b[0] then 0
    else
      assert forall n :: 0 <= n < |a| ==> a[..n + 1] == [a[0]] + a[1..][..n];
      assert forall n :: 0 <= n < |b| ==> b[..n + 1] == [b[0]] + b[1..][..n];
      1 + CommonPrefix(a[1..], b[1..])
  }

  /** At the first index the scan cannot tell records apart by their links alone. */
  lemma EqualPrefixEqualLinks(sha: Hash, a: Trace, b: Trace, i: nat)
    requires ValidTrace(sha, a) && ValidTrace(sha, b) && i < |a.records| && i < |b.records|
    requires a.records[..i] == b.records[..i]
    ensures a.records[i].previous == b.records[i].previous
    ensures Difference(a.records[i], b.records[i]) == None <==> a.records[i] == b.records[i]
  {
    hide ValidTrace, Commitment, Difference;
    Link(sha, a, i);
    Link(sha, b, i);
    DifferenceSeesAllButTheLink(a.records[i], b.records[i]);
    if i > 0 {
      assert a.records[i - 1] == a.records[..i][i - 1] == b.records[..i][i - 1] == b.records[i - 1];
    }
  }

  lemma CommonPrefixIs(a: seq<Record>, b: seq<Record>, n: nat)
    requires n <= |a| && n <= |b| && a[..n] == b[..n]
    requires n < |a| && n < |b| ==> a[n] != b[n]
    ensures CommonPrefix(a, b) == n
  {
    var m := CommonPrefix(a, b);
    assert forall k :: 0 <= k < n ==> a[..n][k] == a[k] && b[..n][k] == b[k];
    assert forall k :: 0 <= k < m ==> a[..m][k] == a[k] && b[..m][k] == b[k];
  }

  function OrdinalBefore(records: seq<Record>, index: nat): Option<u64>
    requires index <= |records|
  {
    if index == 0 then None else Some(records[index - 1].ordinal)
  }

  /** The report of a scan that stops where the traces first differ. */
  ghost function Expected(e: Trace, a: Trace): TraceComparison
    requires e.records != []
  {
    var n := CommonPrefix(e.records, a.records);
    var last := OrdinalBefore(e.records, n);
    if n < |e.records| && n < |a.records| then
      var d := Difference(e.records[n], a.records[n]);
      TraceComparison(if d.Some? then d.value else StateDivergence, last, Some(e.records[n].ordinal), n, 0)
    else if n < |e.records| then
      TraceComparison(MissingCapture, last, Some(e.records[n].ordinal), n, |e.records| - n)
    else TraceComparison(IdenticalOverRecordedRange, last, None, n, |a.records| - n)
  }

  /** `compare_traces`: the linear scan reports exactly the end of the longest common prefix. */
  method CompareTraces(sha: Hash, e: Trace, a: Trace) returns (r: Result<TraceComparison, TransitionError>)
    ensures r.Ok? <==> ValidTrace(sha, e) && ValidTrace(sha, a)
    ensures r.Err? ==> IsTraceError(sha, if ValidTrace(sha, e) then a else e, r.error)
    ensures r.Ok? && e.profile != a.profile ==> r.value == TraceComparison(IncompatibleProfile, None, None, 0, 0)
    ensures r.Ok? && e.profile == a.profile && e.records == [] ==>
            r.value == TraceComparison(InsufficientCoverage, None, None, 0, 0)
    ensures r.Ok? && e.profile == a.profile && e.records != [] && e.sourceState != a.sourceState ==>
            r.value == TraceComparison(RestoreMismatch, None, Some(e.records[0].ordinal), 0, 0)
    ensures r.Ok? && e.profile == a.profile && e.records != [] && e.sourceState == a.sourceState ==>
            r.value == Expected(e, a)
  {
    hide ValidTrace, Difference, IsTraceError;
    var ve := ValidateTrace(sha, e);
    if ve.Err? {
      return Err(ve.error);
    }
    var va := ValidateTrace(sha, a);
    if va.Err? {
      return Err(va.error);
    }
    if e.profile != a.profile {
      return Ok(TraceComparison(IncompatibleProfile, None, None, 0, 0));
    }
    if e.records == [] {
      return Ok(TraceComparison(InsufficientCoverage, None, None, 0, 0));
    }
    if e.sourceState != a.sourceState {
      return Ok(TraceComparison(RestoreMismatch, None, Some(e.records[0].ordinal), 0, 0));
    }
    var shared := if |e.records| < |a.records| then |e.records| else |a.records|;
    for index := 0 to shared
      invariant e.records[..index] == a.records[..index]
    {
      var left, right := e.records[index], a.records[index];
      var lastEqual := OrdinalBefore(e.records, index);
      EqualPrefixEqualLinks(sha, e, a, index);
      var outcome := Difference(left, right);
      if outcome.Some? {
        CommonPrefixIs(e.records, a.records, index);
        return Ok(TraceComparison(outcome.value, lastEqual, Some(left.ordinal), index, 0));
      }
      assert e.records[..index + 1] == e.records[..index] + [left];
      assert a.records[..index + 1] == a.records[..index] + [right];
    }
    CommonPrefixIs(e.records, a.records, shared);
    var lastEqual := OrdinalBefore(e.records, shared);
    if |a.records| < |e.records| {
      return Ok(TraceComparison(MissingCapture, lastEqual, Some(e.records[shared].ordinal), shared, |e.records| - shared));
    }
    return Ok(TraceComparison(IdenticalOverRecordedRange, lastEqual, None, shared, |a.records| - |e.records|));
  }

  /** The scan reports identity exactly when the expected records begin the actual ones. */
  lemma IdenticalMeansPrefix(sha: Hash, e: Trace, a: Trace)
    requires ValidTrace(sha, e) && ValidTrace(sha, a) && e.records != []
    ensures Expected(e, a).outcome == IdenticalOverRecordedRange <==> e.records <= a.records
    ensures Expected(e, a).comparedRecords == CommonPrefix(e.records, a.records)
  {
    hide ValidTrace;
    var n := CommonPrefix(e.records, a.records);
    if n < |e.records| && n < |a.records| {
      EqualPrefixEqualLinks(sha, e, a, n);
      assert !(e.records <= a.records);
    } else if e.records <= a.records {
      CommonPrefixIs(e.records, a.records, |e.records|);
    }
  }

  /**
   Commitments agree at a shared index exactly inside the common prefix, unless the hash collides:
   the agreement is a prefix-closed test, so a bisection over commitments finds the same place.
   */
  lemma CommitmentsAgreeInsidePrefix(sha: Hash, e: Trace, a: Trace, i: nat)
    requires ValidTrace(sha, e) && ValidTrace(sha, a) && i < |e.records| && i < |a.records|
    ensures i < CommonPrefix(e.records, a.records) ==> Commitment(sha, e.records[i]) == Commitment(sha, a.records[i])
    ensures Commitment(sha, e.records[i]) == Commitment(sha, a.records[i]) ==>
            i < CommonPrefix(e.records, a.records) || Collision(sha, e.records, a.records)
  {
    hide ValidTrace, Commitment, Collision;
    var n := CommonPrefix(e.records, a.records);
    if i < n {
      assert e.records[i] == e.records[..n][i] == a.records[..n][i] == a.records[i];
    }
    if Commitment(sha, e.records[i]) == Commitment(sha, a.records[i]) {
      CommitmentBindsPrefix(sha, e, a, i, i);
      var x, y := e.records[..i + 1], a.records[..i + 1];
      assert forall k :: 0 <= k <= i ==> x[k] == e.records[k] && y[k] == a.records[k];
    }
  }
}
