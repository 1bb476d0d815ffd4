/**
 The idempotency journal: `begin` and `complete` over a table and an append-only byte file, writes that
 fail after any number of bytes, and the replay that rebuilds the table when the file is opened again.
 */
module OperationJournal {
  import opened Outcomes
  import opened Text
  import opened JournalRecord

  const MAX_RECORDS := 3 * MAX_JOURNAL_ENTRIES
  const U64_MAX := 0xFFFF_FFFF_FFFF_FFFF

  datatype JournalError =
    | Poisoned | InvalidTransition | InvalidKey | InvalidDigest | Conflict | Missing | Capacity | Corrupt | Persistence

  datatype Decision = Started(sequence: nat) | Existing(entry: Entry)

  datatype Table = Table(entries: map<Key, Entry>, next: nat)

  const EMPTY := Table(map[], 1)

  /** The journal: its table, the bytes of its file, and whether a write left the file uncertain. */
  datatype State = State(table: Table, file: seq<byte>, poisoned: bool)

  /** How an append ends: everything written and synced, or an error with some prefix left in the file. */
  datatype Write = Synced | Failed(kept: nat)

  // ---------- Operations ----------

  predicate ValidTransition(previous: Outcome, next: Outcome) {
    || previous == next
    || (previous == Pending && next in {Accepted, Rejected, Unknown})
    || (previous == Unknown && next in {Accepted, Rejected})
  }

  function Written(line: seq<byte>, write: Write): seq<byte> {
    if write.Failed? && write.kept <= |line| then line[..write.kept] else line
  }

  /** `write`: appends the line, and poisons the journal when that fails. */
  function Append(s: State, e: Entry, write: Write): State {
    State(s.table, s.file + Written(Line(e), write), write.Failed?)
  }

  function Update(t: Table, e: Entry): Table {
    Table(t.entries[e.key := e], if e.key in t.entries then t.next else e.sequence + 1)
  }

  /** The file takes the record first; the table follows only when the write is acknowledged. */
  function Record(s: State, e: Entry, write: Write): State {
    var next := Append(s, e, write);
    if write.Failed? then next else next.(table := Update(s.table, e))
  }

  function Begin(s: State, key: Key, digest: string, write: Write): (State, Result<Decision, JournalError>) {
    if s.poisoned then (s, Err(Poisoned))
    else if !ValidKey(key) then (s, Err(InvalidKey))
    else if !ValidDigest(digest) then (s, Err(InvalidDigest))
    else if key in s.table.entries then
      if s.table.entries[key].requestDigest == digest then (s, Ok(Existing(s.table.entries[key]))) else (s, Err(Conflict))
    else if |s.table.entries| >= MAX_JOURNAL_ENTRIES then (s, Err(Capacity))
    else
      var e := Entry(key, digest, Pending, s.table.next);
      (Record(s, e, write), if write.Failed? then Err(Persistence) else Ok(Started(e.sequence)))
  }

  function Complete(s: State, key: Key, outcome: Outcome, write: Write): (State, Result<(), JournalError>) {
    if s.poisoned then (s, Err(Poisoned))
    else if key !in s.table.entries then (s, Err(Missing))
    else
      var previous := s.table.entries[key];
      if previous.outcome == outcome then (s, Ok(()))
      else if !ValidTransition(previous.outcome, outcome) then (s, Err(InvalidTransition))
      else
        (Record(s, previous.(key := key, outcome := outcome), write), if write.Failed? then Err(Persistence) else Ok(()))
  }

  // ---------- Replay ----------

  /** `apply_record`. */
  function ApplyRecord(t: Table, e: Entry): Result<Table, JournalError> {
    if !ValidKey(e.key) || !ValidDigest(e.requestDigest) then Err(Corrupt)
    else if e.key in t.entries then
      var previous := t.entries[e.key];
      if previous.sequence != e.sequence || previous.requestDigest != e.requestDigest
         || !ValidTransition(previous.outcome, e.outcome) then Err(Corrupt)
      else Ok(Update(t, e))
    else if |t.entries| >= MAX_JOURNAL_ENTRIES then Err(Capacity)
    else if e.sequence != t.next || e.outcome != Pending || e.sequence >= U64_MAX then Err(Corrupt)
    else Ok(Update(t, e))
  }

  /** `read_until` a newline, which it keeps, over at most `limit` bytes: how many bytes it takes. */
  function ReadUntil(file: seq<byte>, limit: nat): (n: nat)
    ensures n <= |file| && n <= limit
    ensures n == 0 <==> file == [] || limit == 0
  {
    if file == [] || limit == 0 then 0 else if file[0] == 10 then 1 else 1 + ReadUntil(file[1..], limit - 1)
  }

  /** A reader of stored lines, such as `serde_json::from_slice`. */
  type Decoder = seq<byte> -> Option<Entry>

  /** It reads back every line that the journal writes. */
  ghost predicate Reads(decode: Decoder) {
    forall e: Entry :: e.sequence <= U64_MAX ==> decode(Line(e)) == Some(e)
  }

  /** The table that the file rebuilds, on top of `t`, and how many of its bytes are whole records. */
  function Replayed(decode: Decoder, file: seq<byte>, t: Table, records: nat): (r: Result<(Table, nat), JournalError>)
    ensures r.Ok? ==> r.value.1 <= |file|
    decreases |file|
  {
    var n := ReadUntil(file, MAX_RECORD_BYTES + 1);
    if n == 0 then Ok((t, 0))
    else if n > MAX_RECORD_BYTES then Err(Capacity)
    else if file[n - 1] != 10 then Ok((t, 0))
    else if records + 1 > MAX_RECORDS then Err(Capacity)
    else
      match decode(file[..n])
      case None => Err(Corrupt)
      case Some(e) =>
        match ApplyRecord(t, e)
        case Err(error) => Err(error)
        case Ok(next) => Shift(n, Replayed(decode, file[n..], next, records + 1))
  }

  function Shift(n: nat, r: Result<(Table, nat), JournalError>): Result<(Table, nat), JournalError> {
    match r
    case Ok(v) => Ok((v.0, n + v.1))
    case Err(e) => Err(e)
  }

  /** `open` on an existing file: replay it and drop a torn last record. */
  function Reopened(decode: Decoder, file: seq<byte>): Result<State, JournalError> {
    match Replayed(decode, file, EMPTY, 0)
    case Ok(v) => Ok(State(v.0, file[..v.1], false))
    case Err(e) => Err(e)
  }

  /** The replay loop. */
  method Replay(decode: Decoder, file: seq<byte>) returns (r: Result<(Table, nat), JournalError>)
    ensures r == Replayed(decode, file, EMPTY, 0)
  {
    hide ReadUntil, ApplyRecord, Replayed;
    var table, committed, records := EMPTY, 0, 0;
    assert file[0..] == file;
    ShiftByNothing(Replayed(decode, file, EMPTY, 0));
    while true
      invariant 0 <= committed <= |file|
      invariant Replayed(decode, file, EMPTY, 0) == Shift(committed, Replayed(decode, file[committed..], table, records))
      decreases |file| - committed
    {
      ReplayStep(decode, file[committed..], table, records);
      var n := ReadUntil(file[committed..], MAX_RECORD_BYTES + 1);
      if n == 0 {
        break;
      }
      if n > MAX_RECORD_BYTES {
        return Err(Capacity);
      }
      var bytes := file[committed..][..n];
      if bytes[n - 1] != 10 {
        break;
      }
      records := records + 1;
      if records > MAX_RECORDS {
        return Err(Capacity);
      }
      var entry := decode(bytes);
      if entry.None? {
        return Err(Corrupt);
      }
      var next := ApplyRecord(table, entry.value);
      if next.Err? {
        return Err(next.error);
      }
      table := next.value;
      assert file[committed..][n..] == file[committed + n..];
      committed := committed + n;
    }
    return Ok((table, committed));
  }

  lemma ShiftByNothing(r: Result<(Table, nat), JournalError>)
    ensures Shift(0, r) == r
  {
  }

  /** One turn of the loop, from the recursive reading. */
  lemma ReplayStep(decode: Decoder, file: seq<byte>, t: Table, records: nat)
    ensures var n := ReadUntil(file, MAX_RECORD_BYTES + 1);
            && (n == 0 ==> Replayed(decode, file, t, records) == Ok((t, 0)))
            && (n > MAX_RECORD_BYTES ==> Replayed(decode, file, t, records) == Err(Capacity))
            && (0 < n <= MAX_RECORD_BYTES ==>
                  if file[n - 1] != 10 then Replayed(decode, file, t, records) == Ok((t, 0))
                  else if records + 1 > MAX_RECORDS then Replayed(decode, file, t, records) == Err(Capacity)
                  else
                    match decode(file[..n])
                    case None => Replayed(decode, file, t, records) == Err(Corrupt)
                    case Some(e) =>
                      match ApplyRecord(t, e)
                      case Err(error) => Replayed(decode, file, t, records) == Err(error)
                      case Ok(next) => Replayed(decode, file, t, records) == Shift(n, Replayed(decode, file[n..], next, records + 1)))
  {
    hide ReadUntil, ApplyRecord;
  }

  // ---------- The object ----------

  class Journal {
    var entries: map<Key, Entry>
    var nextSequence: nat
    var file: seq<byte>
    var poisoned: bool

    function Value(): State
      reads this
    {
      State(Table(entries, nextSequence), file, poisoned)
    }

    constructor (s: State)
      ensures Value() == s
    {
      entries, nextSequence, file, poisoned := s.table.entries, s.table.next, s.file, s.poisoned;
    }

    /** `open`, once the file is locked and readable. */
    static method Open(decode: Decoder, file: seq<byte>) returns (r: Result<Journal, JournalError>)
      ensures r.Ok? <==> Reopened(decode, file).Ok?
      ensures r.Ok? ==> fresh(r.value) && r.value.Value() == Reopened(decode, file).value
      ensures r.Err? ==> Reopened(decode, file) == Err(r.error)
    {
      var replayed := Replay(decode, file);
      if replayed.Err? {
        return Err(replayed.error);
      }
      var journal := new Journal(State(replayed.value.0, file[..replayed.value.1], false));
      return Ok(journal);
    }

    method AppendLine(e: Entry, write: Write) returns (r: Result<(), JournalError>)
      modifies this`file, this`poisoned
      ensures Value() == Append(old(Value()), e, write).(poisoned := old(poisoned) || write.Failed?)
      ensures r == if write.Failed? then Err(Persistence) else Ok(())
    {
      hide Line;
      file := file + Written(Line(e), write);
      if write.Failed? {
        poisoned := true;
        return Err(Persistence);
      }
      return Ok(());
    }

    method BeginAttempt(key: Key, digest: string, write: Write) returns (r: Result<Decision, JournalError>)
      modifies this
      ensures (Value(), r) == Begin(old(Value()), key, digest, write)
    {
      hide Line, ValidKey, ValidDigest, Written;
      if poisoned {
        return Err(Poisoned);
      }
      if !ValidKey(key) {
        return Err(InvalidKey);
      }
      if !ValidDigest(digest) {
        return Err(InvalidDigest);
      }
      if key in entries {
        if entries[key].requestDigest == digest {
          return Ok(Existing(entries[key]));
        }
        return Err(Conflict);
      }
      if |entries| >= MAX_JOURNAL_ENTRIES {
        return Err(Capacity);
      }
      var sequence := nextSequence;
      var entry := Entry(key, digest, Pending, sequence);
      var appended := AppendLine(entry, write);
      if appended.Err? {
        return Err(appended.error);
      }
      nextSequence := sequence + 1;
      entries := entries[key := entry];
      return Ok(Started(sequence));
    }

    method CompleteAttempt(key: Key, outcome: Outcome, write: Write) returns (r: Result<(), JournalError>)
      modifies this
      ensures (Value(), r) == Complete(old(Value()), key, outcome, write)
    {
      hide Line, Written;
      if poisoned {
        return Err(Poisoned);
      }
      if key !in entries {
        return Err(Missing);
      }
      var previous := entries[key];
      if previous.outcome == outcome {
        return Ok(());
      }
      if !ValidTransition(previous.outcome, outcome) {
        return Err(InvalidTransition);
      }
      var entry := Entry(key, previous.requestDigest, outcome, previous.sequence);
      var appended := AppendLine(entry, write);
      if appended.Err? {
        return Err(appended.error);
      }
      entries := entries[key := entry];
      return Ok(());
    }
  }
}
