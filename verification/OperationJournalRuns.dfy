/**
 Whole runs of the operation journal: attempts, completions, failed writes and reopenings in any order.
 The table is the last-write fold of the durable log, and reopening always succeeds.
 */
module OperationJournalRuns {
  import opened Outcomes
  import opened Text
  import opened JournalRecord
  import opened OperationJournal

  // ---------- Logs ----------

  /** `e` is a record that a healthy journal with table `t` may write. */
  predicate Extends(t: Table, e: Entry) {
    && ValidKey(e.key) && ValidDigest(e.requestDigest)
    && if e.key in t.entries then
         var previous := t.entries[e.key];
         && previous.sequence == e.sequence && previous.requestDigest == e.requestDigest
         && previous.outcome != e.outcome && ValidTransition(previous.outcome, e.outcome)
       else
         |t.entries| < MAX_JOURNAL_ENTRIES && e.sequence == t.next && e.outcome == Pending
  }

  function Fold(log: seq<Entry>): Table {
    if log == [] then EMPTY else Update(Fold(log[..|log| - 1]), log[|log| - 1])
  }

  predicate Legal(log: seq<Entry>) {
    log == [] || (Legal(log[..|log| - 1]) && Extends(Fold(log[..|log| - 1]), log[|log| - 1]))
  }

  lemma Snoc(log: seq<Entry>, e: Entry)
    ensures Fold(log + [e]) == Update(Fold(log), e)
    ensures Legal(log + [e]) <==> Legal(log) && Extends(Fold(log), e)
  {
    hide Extends, Update;
    assert (log + [e])[..|log + [e]| - 1] == log;
  }

  /** The bytes of a log. */
  function Stored(log: seq<Entry>): seq<byte> {
    if log == [] then [] else Line(log[0]) + Stored(log[1..])
  }

  lemma {:induction false} StoredSnoc(log: seq<Entry>, e: Entry)
    ensures Stored(log + [e]) == Stored(log) + Line(e)
  {
    hide Line;
    if log == [] {
      assert [e][1..] == [];
    } else {
      StoredSnoc(log[1..], e);
      assert (log + [e])[1..] == log[1..] + [e];
      assert Line(log[0]) + (Stored(log[1..]) + Line(e)) == (Line(log[0]) + Stored(log[1..])) + Line(e);
    }
  }

  // ---------- The table is the last write of every key ----------

  /** `i` is the place of the last record of `key`. */
  predicate IsLast(log: seq<Entry>, key: Key, i: int) {
    0 <= i < |log| && log[i].key == key && forall j :: i < j < |log| ==> log[j].key != key
  }

  lemma {:induction false} LastIsInTable(log: seq<Entry>, key: Key, i: nat)
    requires IsLast(log, key, i)
    ensures key in Fold(log).entries && Fold(log).entries[key] == log[i]
  {
    var n := |log| - 1;
    if i < n {
      assert log[..n][i] == log[i];
      assert forall j :: i < j < n ==> log[..n][j] == log[j];
      LastIsInTable(log[..n], key, i);
      assert log[n].key != key;
    }
  }

  lemma {:induction false} TableHasLast(log: seq<Entry>, key: Key) returns (i: nat)
    requires key in Fold(log).entries
    ensures IsLast(log, key, i)
  {
    var n := |log| - 1;
    if log[n].key == key {
      i := n;
    } else {
      i := TableHasLast(log[..n], key);
      assert log[i] == log[..n][i];
      assert forall j :: i < j < n ==> log[j] == log[..n][j];
    }
  }

  /** The table holds the last record of every key in the log, and nothing else. */
  lemma TableIsLastWrite(log: seq<Entry>, key: Key)
    ensures key in Fold(log).entries <==> exists i :: IsLast(log, key, i)
    ensures forall i :: IsLast(log, key, i) ==> key in Fold(log).entries && Fold(log).entries[key] == log[i]
  {
    hide Fold;
    forall i | IsLast(log, key, i) ensures key in Fold(log).entries && Fold(log).entries[key] == log[i] {
      LastIsInTable(log, key, i);
    }
    if key in Fold(log).entries {
      var i := TableHasLast(log, key);
    }
  }

  // ---------- What every legal log's table satisfies ----------

  ghost predicate TableOk(t: Table) {
    && t.next == |t.entries| + 1 && |t.entries| <= MAX_JOURNAL_ENTRIES
    && (forall k :: k in t.entries ==> EntryOk(t, k))
    && forall k, l :: k in t.entries && l in t.entries && k != l ==> t.entries[k].sequence != t.entries[l].sequence
  }

  ghost predicate EntryOk(t: Table, k: Key)
    requires k in t.entries
  {
    var e := t.entries[k];
    e.key == k && ValidKey(k) && ValidDigest(e.requestDigest) && 1 <= e.sequence < t.next
  }

  lemma UpdateOk(t: Table, e: Entry)
    requires TableOk(t) && Extends(t, e)
    ensures TableOk(Update(t, e))
    ensures 1 <= e.sequence <= MAX_JOURNAL_ENTRIES
  {
    hide ValidKey, ValidDigest, ValidTransition, EntryOk;
    var next := Update(t, e);
    assert next.entries.Keys == t.entries.Keys + {e.key};
    UpdateEntries(t, e);
    UpdateDistinct(t, e);
  }

  lemma UpdateEntries(t: Table, e: Entry)
    requires TableOk(t) && Extends(t, e)
    ensures var next := Update(t, e); forall k :: k in next.entries ==> EntryOk(next, k)
    ensures 1 <= e.sequence <= MAX_JOURNAL_ENTRIES
  {
    hide ValidKey, ValidDigest, ValidTransition;
    var next := Update(t, e);
    if e.key in t.entries {
      assert EntryOk(t, e.key);
    }
    forall k | k in next.entries ensures EntryOk(next, k) {
      if k != e.key {
        assert EntryOk(t, k);
      }
    }
  }

  lemma UpdateDistinct(t: Table, e: Entry)
    requires TableOk(t) && Extends(t, e)
    ensures var next := Update(t, e);
            forall k, l :: k in next.entries && l in next.entries && k != l ==> next.entries[k].sequence != next.entries[l].sequence
  {
    hide ValidKey, ValidDigest, ValidTransition;
    var next := Update(t, e);
    forall k, l | k in next.entries && l in next.entries && k != l
      ensures next.entries[k].sequence != next.entries[l].sequence
    {
      if k in t.entries {
        assert EntryOk(t, k);
      }
      if l in t.entries {
        assert EntryOk(t, l);
      }
    }
  }

  lemma {:induction false} LegalOk(log: seq<Entry>)
    requires Legal(log)
    ensures TableOk(Fold(log))
  {
    hide Extends, Update;
    if log == [] {
      assert Fold(log) == EMPTY;
    } else {
      LegalOk(log[..|log| - 1]);
      UpdateOk(Fold(log[..|log| - 1]), log[|log| - 1]);
    }
  }

  // ---------- The log is at most three records a key ----------

  function Moved(t: Table): set<Key> {
    set k | k in t.entries && t.entries[k].outcome != Pending
  }

  function Ended(t: Table): set<Key> {
    set k | k in t.entries && Terminal(t.entries[k].outcome)
  }

  predicate Terminal(outcome: Outcome) {
    outcome == Accepted || outcome == Rejected
  }

  function Progress(t: Table): nat {
    |t.entries| + |Moved(t)| + |Ended(t)|
  }

  lemma UpdateProgresses(t: Table, e: Entry)
    requires Extends(t, e)
    ensures Progress(Update(t, e)) > Progress(t)
  {
    hide ValidKey, ValidDigest;
    var next := Update(t, e);
    assert next.entries.Keys == t.entries.Keys + {e.key};
    if e.key in t.entries {
      UpdateMoves(t, e);
    } else {
      assert Moved(next) == Moved(t);
      assert Ended(next) == Ended(t);
    }
  }

  lemma UpdateMoves(t: Table, e: Entry)
    requires Extends(t, e) && e.key in t.entries
    ensures Progress(Update(t, e)) > Progress(t)
  {
    MovedSets(t, e);
    hide Extends, Update, Moved, Ended;
    assert |t.entries| == |t.entries.Keys| && |Update(t, e).entries| == |Update(t, e).entries.Keys|;
    Add(Moved(t), e.key);
    Add(Ended(t), e.key);
  }

  lemma MovedSets(t: Table, e: Entry)
    requires Extends(t, e) && e.key in t.entries
    ensures var next := Update(t, e);
            && next.entries.Keys == t.entries.Keys && Moved(next) == Moved(t) + {e.key}
            && if Terminal(e.outcome) then Ended(next) == Ended(t) + {e.key} && e.key !in Ended(t)
               else Ended(next) == Ended(t) && e.key !in Moved(t)
  {
    hide ValidKey, ValidDigest;
  }

  lemma Add(keys: set<Key>, key: Key)
    ensures |keys + {key}| == if key in keys then |keys| else |keys| + 1
  {
    if key in keys {
      assert keys + {key} == keys;
    }
  }

  lemma ProgressAtMost(t: Table)
    ensures Progress(t) <= 3 * |t.entries|
  {
    assert Moved(t) <= t.entries.Keys && Ended(t) <= t.entries.Keys;
    Subset(Moved(t), t.entries.Keys);
    Subset(Ended(t), t.entries.Keys);
  }

  lemma {:induction false} Subset<T>(a: set<T>, b: set<T>)
    requires a <= b
    ensures |a| <= |b|
  {
    assert b == a + (b - a);
  }

  lemma {:induction false} LegalProgress(log: seq<Entry>)
    requires Legal(log)
    ensures |log| <= Progress(Fold(log))
  {
    hide Extends, Update, Progress;
    if log != [] {
      LegalProgress(log[..|log| - 1]);
      UpdateProgresses(Fold(log[..|log| - 1]), log[|log| - 1]);
    }
  }

  /** Replay's record limit is never reached: a legal log has at most three records a key. */
  lemma LogBound(log: seq<Entry>)
    requires Legal(log)
    ensures |log| <= 3 * |Fold(log).entries| <= MAX_RECORDS
  {
    hide Fold, Legal, Progress;
    LegalProgress(log);
    ProgressAtMost(Fold(log));
    LegalOk(log);
  }

  // ---------- Replay reads back what was stored ----------

  lemma ApplyLegal(t: Table, e: Entry)
    requires TableOk(t) && Extends(t, e)
    ensures ApplyRecord(t, e) == Ok(Update(t, e))
  {
    UpdateOk(t, e);
    hide ValidKey, ValidDigest, TableOk, Update;
  }

  lemma {:induction false} ReadsNoNewline(file: seq<byte>, limit: nat)
    requires 10 !in file && |file| <= limit
    ensures ReadUntil(file, limit) == |file|
  {
    if file != [] && limit > 0 {
      assert file[0] in file;
      ReadsNoNewline(file[1..], limit - 1);
    }
  }

  lemma {:induction false} ReadsOneLine(line: seq<byte>, rest: seq<byte>, limit: nat)
    requires 10 !in line && |line| < limit
    ensures ReadUntil(line + [10] + rest, limit) == |line| + 1
  {
    var file := line + [10] + rest;
    if line != [] {
      assert file[0] == line[0] && line[0] in line;
      assert file[1..] == line[1..] + [10] + rest;
      ReadsOneLine(line[1..], rest, limit - 1);
    }
  }

  lemma ReadsLine(e: Entry, rest: seq<byte>)
    requires ValidKey(e.key) && ValidDigest(e.requestDigest) && e.sequence <= MAX_JOURNAL_ENTRIES
    ensures ReadUntil(Line(e) + rest, MAX_RECORD_BYTES + 1) == |Line(e)| <= MAX_RECORD_BYTES
  {
    LineFits(e);
    LineIsOneLine(e);
    hide Line, ReadUntil;
    var front := Line(e)[..|Line(e)| - 1];
    assert Line(e) == front + [10];
    ReadsOneLine(front, rest, MAX_RECORD_BYTES + 1);
  }

  /** A torn tail: too short to be a record, and without a newline. */
  predicate Torn(tail: seq<byte>) {
    10 !in tail && |tail| <= MAX_RECORD_BYTES
  }

  lemma ReplayTorn(decode: Decoder, tail: seq<byte>, t: Table, records: nat)
    requires Torn(tail)
    ensures Replayed(decode, tail, t, records) == Ok((t, 0))
  {
    ReadsNoNewline(tail, MAX_RECORD_BYTES + 1);
    ReplayStep(decode, tail, t, records);
    hide Replayed, ReadUntil, ApplyRecord;
    if tail != [] {
      assert tail[|tail| - 1] in tail;
    }
  }

  lemma ReplayOne(decode: Decoder, e: Entry, rest: seq<byte>, t: Table, records: nat)
    requires Reads(decode) && TableOk(t) && Extends(t, e) && records < MAX_RECORDS
    ensures Replayed(decode, Line(e) + rest, t, records)
            == Shift(|Line(e)|, Replayed(decode, rest, Update(t, e), records + 1))
  {
    UpdateOk(t, e);
    ApplyLegal(t, e);
    ReadsLine(e, rest);
    var file := Line(e) + rest;
    ReplayStep(decode, file, t, records);
    assert file[..|Line(e)|] == Line(e) && file[|Line(e)|..] == rest;
    assert decode(Line(e)) == Some(e);
    hide *;
  }

  /** Reading on after `done`: the rest of the log and a torn tail. */
  lemma {:induction false} ReplayRest(decode: Decoder, done: seq<Entry>, rest: seq<Entry>, tail: seq<byte>)
    requires Reads(decode) && Legal(done + rest) && Torn(tail)
    ensures Replayed(decode, Stored(rest) + tail, Fold(done), |done|) == Ok((Fold(done + rest), |Stored(rest)|))
    decreases |rest|
  {
    hide Replayed, Line, Fold, Legal, Extends, Torn, Update, TableOk, Reads;
    if rest == [] {
      assert Stored(rest) + tail == tail && done + rest == done;
      ReplayTorn(decode, tail, Fold(done), |done|);
    } else {
      var e, later := rest[0], rest[1..];
      assert done + rest == (done + [e]) + later;
      LegalPrefix(done + [e], later);
      Snoc(done, e);
      LegalOk(done);
      LogBound(done + [e]);
      assert Stored(rest) + tail == Line(e) + (Stored(later) + tail);
      ReplayOne(decode, e, Stored(later) + tail, Fold(done), |done|);
      ReplayRest(decode, done + [e], later, tail);
    }
  }

  lemma {:induction false} LegalPrefix(log: seq<Entry>, more: seq<Entry>)
    requires Legal(log + more)
    ensures Legal(log)
    decreases |more|
  {
    hide Extends, Fold;
    if more == [] {
      assert log + more == log;
    } else {
      assert (log + more)[..|log + more| - 1] == log + more[..|more| - 1];
      LegalPrefix(log, more[..|more| - 1]);
    }
  }

  /** The file of a legal log, with any torn tail, rebuilds the log's table and loses only the tail. */
  lemma ReplayLog(decode: Decoder, log: seq<Entry>, tail: seq<byte>)
    requires Reads(decode) && Legal(log) && Torn(tail)
    ensures Reopened(decode, Stored(log) + tail) == Ok(State(Fold(log), Stored(log), false))
  {
    assert [] + log == log && Fold([]) == EMPTY;
    hide Replayed, Legal, Reads, Torn, Stored;
    ReplayRest(decode, [], log, tail);
    assert (Stored(log) + tail)[..|Stored(log)|] == Stored(log);
  }

  // ---------- Runs ----------

  datatype Op =
    | BeginOp(key: Key, digest: string, write: Write)
    | CompleteOp(key: Key, outcome: Outcome, write: Write)
    | Reopen

  datatype Reply =
    | Began(decision: Result<Decision, JournalError>)
    | Completed(done: Result<(), JournalError>)
    | Opened(result: Result<(), JournalError>)

  function Perform(decode: Decoder, s: State, op: Op): (State, Reply) {
    match op
    case BeginOp(key, digest, write) =>
      var (next, r) := Begin(s, key, digest, write); (next, Began(r))
    case CompleteOp(key, outcome, write) =>
      var (next, r) := Complete(s, key, outcome, write); (next, Completed(r))
    case Reopen =>
      match Reopened(decode, s.file)
      case Ok(next) => (next, Opened(Ok(())))
      case Err(e) => (s, Opened(Err(e)))
  }

  const FRESH := State(EMPTY, [], false)

  function Run(decode: Decoder, ops: seq<Op>): State {
    if ops == [] then FRESH else Perform(decode, Run(decode, ops[..|ops| - 1]), ops[|ops| - 1]).0
  }

  /** The whole records that a file holds. */
  function Durable(decode: Decoder, file: seq<byte>): seq<Entry>
    decreases |file|
  {
    var n := ReadUntil(file, MAX_RECORD_BYTES + 1);
    if n == 0 || file[n - 1] != 10 || decode(file[..n]).None? then []
    else [decode(file[..n]).value] + Durable(decode, file[n..])
  }

  /** The log that the caller knows of: acknowledged writes, and after a reopening what the file holds. */
  function LogStep(decode: Decoder, s: State, log: seq<Entry>, op: Op): seq<Entry> {
    match (op, Perform(decode, s, op).1)
    case (BeginOp(key, digest, _), Began(Ok(Started(sequence)))) => log + [Entry(key, digest, Pending, sequence)]
    case (CompleteOp(key, outcome, _), Completed(Ok(_))) =>
      if key in s.table.entries && s.table.entries[key].outcome != outcome
      then log + [s.table.entries[key].(outcome := outcome)] else log
    case (Reopen, Opened(Ok(_))) => Durable(decode, s.file)
    case _ => log
  }

  function Log(decode: Decoder, ops: seq<Op>): seq<Entry> {
    if ops == [] then []
    else LogStep(decode, Run(decode, ops[..|ops| - 1]), Log(decode, ops[..|ops| - 1]), ops[|ops| - 1])
  }

  /** A write of `e` stopped after some prefix of its line. */
  predicate Interrupted(s: State, log: seq<Entry>, e: Entry, kept: nat) {
    && Extends(Fold(log), e) && kept <= |Line(e)|
    && s.file == Stored(log) + Line(e)[..kept]
  }

  /** The table is the fold of the log, and the file is the log with at most one unfinished legal record. */
  ghost predicate Inv(s: State, log: seq<Entry>) {
    && Legal(log) && s.table == Fold(log)
    && (!s.poisoned ==> s.file == Stored(log))
    && (s.poisoned ==> exists e, kept: nat :: Interrupted(s, log, e, kept))
  }

  // Durable reads what Stored wrote.

  lemma {:induction false} DurableRest(decode: Decoder, done: seq<Entry>, rest: seq<Entry>, tail: seq<byte>)
    requires Reads(decode) && Legal(done + rest) && Torn(tail)
    ensures Durable(decode, Stored(rest) + tail) == rest
    decreases |rest|
  {
    hide Durable, Line, Fold, Legal, Extends, Torn, Update, TableOk, Reads;
    if rest == [] {
      assert Stored(rest) + tail == tail;
      DurableTorn(decode, tail);
    } else {
      var e, later := rest[0], rest[1..];
      assert done + rest == (done + [e]) + later;
      LegalPrefix(done + [e], later);
      Snoc(done, e);
      LegalOk(done);
      UpdateOk(Fold(done), e);
      assert Stored(rest) + tail == Line(e) + (Stored(later) + tail);
      DurableOne(decode, Fold(done), e, Stored(later) + tail);
      DurableRest(decode, done + [e], later, tail);
    }
  }

  lemma DurableTorn(decode: Decoder, tail: seq<byte>)
    requires Torn(tail)
    ensures Durable(decode, tail) == []
  {
    ReadsNoNewline(tail, MAX_RECORD_BYTES + 1);
    hide ReadUntil;
    if tail != [] {
      assert tail[|tail| - 1] in tail;
    }
  }

  lemma DurableOne(decode: Decoder, t: Table, e: Entry, rest: seq<byte>)
    requires Reads(decode) && Extends(t, e) && e.sequence <= MAX_JOURNAL_ENTRIES
    ensures Durable(decode, Line(e) + rest) == [e] + Durable(decode, rest)
  {
    ReadsLine(e, rest);
    assert decode(Line(e)) == Some(e);
    hide Line, ReadUntil, Reads, Extends;
    var file := Line(e) + rest;
    assert file[..|Line(e)|] == Line(e) && file[|Line(e)|..] == rest;
  }

  lemma DurableLog(decode: Decoder, log: seq<Entry>, tail: seq<byte>)
    requires Reads(decode) && Legal(log) && Torn(tail)
    ensures Durable(decode, Stored(log) + tail) == log
  {
    hide *;
    assert [] + log == log;
    DurableRest(decode, [], log, tail);
  }

  // ---------- Every step keeps the invariant ----------

  lemma RecordKeeps(s: State, log: seq<Entry>, e: Entry, write: Write)
    requires Inv(s, log) && !s.poisoned && Extends(s.table, e)
    ensures Inv(Record(s, e, write), if write.Failed? then log else log + [e])
  {
    hide Extends, Line, Fold, Legal, Stored;
    var next := Record(s, e, write);
    if write.Failed? {
      var kept := if write.kept <= |Line(e)| then write.kept else |Line(e)|;
      assert Written(Line(e), write) == Line(e)[..kept];
      assert Interrupted(next, log, e, kept);
    } else {
      Snoc(log, e);
      StoredSnoc(log, e);
    }
  }

  lemma BeginKeeps(decode: Decoder, s: State, log: seq<Entry>, op: Op)
    requires Inv(s, log) && op.BeginOp?
    ensures Inv(Perform(decode, s, op).0, LogStep(decode, s, log, op))
  {
    hide Inv, ValidKey, ValidDigest, Record;
    var t := s.table;
    if !s.poisoned && ValidKey(op.key) && ValidDigest(op.digest) && op.key !in t.entries && |t.entries| < MAX_JOURNAL_ENTRIES {
      RecordKeeps(s, log, Entry(op.key, op.digest, Pending, t.next), op.write);
    }
  }

  lemma CompleteKeeps(decode: Decoder, s: State, log: seq<Entry>, op: Op)
    requires Inv(s, log) && op.CompleteOp?
    ensures Inv(Perform(decode, s, op).0, LogStep(decode, s, log, op))
  {
    hide Inv, EntryOk, ValidTransition, Extends, Record;
    if !s.poisoned && op.key in s.table.entries {
      KnownEntry(s, log, op.key);
      var previous := s.table.entries[op.key];
      if previous.outcome != op.outcome && ValidTransition(previous.outcome, op.outcome) {
        ExtendsByOutcome(s.table, op.key, op.outcome);
        RecordKeeps(s, log, previous.(outcome := op.outcome), op.write);
      }
    }
  }

  lemma KnownEntry(s: State, log: seq<Entry>, key: Key)
    requires Inv(s, log) && key in s.table.entries
    ensures EntryOk(s.table, key) && s.table.entries[key].key == key
  {
    LegalOk(log);
  }

  lemma ExtendsByOutcome(t: Table, key: Key, outcome: Outcome)
    requires key in t.entries && EntryOk(t, key)
    requires t.entries[key].outcome != outcome && ValidTransition(t.entries[key].outcome, outcome)
    ensures Extends(t, t.entries[key].(outcome := outcome))
  {
  }

  /** The part of a line that a failed write left is torn unless it is the whole line. */
  lemma PartialLine(t: Table, e: Entry, kept: nat)
    requires TableOk(t) && Extends(t, e) && kept < |Line(e)|
    ensures Torn(Line(e)[..kept])
  {
    hide Line, TableOk, ValidTransition, ValidKey, ValidDigest;
    UpdateOk(t, e);
    LineFits(e);
    LineIsOneLine(e);
    assert Line(e)[..kept] == Line(e)[..|Line(e)| - 1][..kept];
  }

  /**
   Reopening always succeeds. It keeps the acknowledged log, or adds the one record whose line a failed
   write had already stored in full.
   */
  lemma ReopenRecovers(decode: Decoder, s: State, log: seq<Entry>)
    requires Reads(decode) && Inv(s, log)
    ensures Reopened(decode, s.file).Ok?
    ensures var after := Durable(decode, s.file);
            && Legal(after) && Reopened(decode, s.file).value == State(Fold(after), Stored(after), false)
            && (after == log || (s.poisoned && exists e :: after == log + [e] && Extends(Fold(log), e) && s.file == Stored(log) + Line(e)))
    ensures !s.poisoned ==> Reopened(decode, s.file).value == s
  {
    hide Replayed, Durable, Legal, Fold, Stored, Extends, Line, Reads, Torn, TableOk, Reopened;
    if !s.poisoned {
      assert Torn([]) by { TornNothing(); }
      assert s.file == Stored(log) + [];
      ReplayLog(decode, log, []);
      DurableLog(decode, log, []);
    } else {
      var e, kept: nat :| Interrupted(s, log, e, kept);
      LegalOk(log);
      if kept < |Line(e)| {
        PartialLine(Fold(log), e, kept);
        ReplayLog(decode, log, Line(e)[..kept]);
        DurableLog(decode, log, Line(e)[..kept]);
      } else {
        TornNothing();
        Snoc(log, e);
        StoredSnoc(log, e);
        assert Line(e)[..kept] == Line(e);
        assert s.file == Stored(log + [e]) + [];
        ReplayLog(decode, log + [e], []);
        DurableLog(decode, log + [e], []);
      }
    }
  }

  lemma TornNothing()
    ensures Torn([])
  {
  }

  lemma ReopenKeeps(decode: Decoder, s: State, log: seq<Entry>)
    requires Reads(decode) && Inv(s, log)
    ensures Inv(Perform(decode, s, Reopen).0, LogStep(decode, s, log, Reopen))
  {
    hide Inv, Reopened, Durable, Fold, Stored, Legal, Extends, Line, Begin, Complete, Reads;
    ReopenRecovers(decode, s, log);
    var after := Durable(decode, s.file);
    assert Perform(decode, s, Reopen).0 == State(Fold(after), Stored(after), false);
    assert LogStep(decode, s, log, Reopen) == after;
    hide Perform, LogStep;
    StoredInv(after);
  }

  lemma StoredInv(log: seq<Entry>)
    requires Legal(log)
    ensures Inv(State(Fold(log), Stored(log), false), log)
  {
    hide Legal, Fold, Stored, Interrupted;
  }

  lemma StepKeeps(decode: Decoder, s: State, log: seq<Entry>, op: Op)
    requires Reads(decode) && Inv(s, log)
    ensures Inv(Perform(decode, s, op).0, LogStep(decode, s, log, op))
  {
    hide *;
    match op
    case BeginOp(_, _, _) => BeginKeeps(decode, s, log, op);
    case CompleteOp(_, _, _) => CompleteKeeps(decode, s, log, op);
    case Reopen => ReopenKeeps(decode, s, log);
  }

  lemma {:induction false} RunKeeps(decode: Decoder, ops: seq<Op>)
    requires Reads(decode)
    ensures Inv(Run(decode, ops), Log(decode, ops))
  {
    if ops == [] {
      assert Fold([]) == EMPTY && Stored([]) == [];
    } else {
      hide Inv, Perform, LogStep;
      var front, op := ops[..|ops| - 1], ops[|ops| - 1];
      RunKeeps(decode, front);
      StepKeeps(decode, Run(decode, front), Log(decode, front), op);
    }
  }

  // ---------- Main results ----------

  /**
   After any run, with writes failing anywhere, the table is the last-write fold of the acknowledged log;
   reopening the file succeeds, and yields that log or one legal record more.
   */
  lemma CrashConsistency(decode: Decoder, ops: seq<Op>)
    requires Reads(decode)
    ensures var s, log := Run(decode, ops), Log(decode, ops);
            && Legal(log) && s.table == Fold(log) && |log| <= MAX_RECORDS
            && Reopened(decode, s.file).Ok?
            && (!s.poisoned ==> Reopened(decode, s.file).value == s)
            && var after := Durable(decode, s.file);
               && Legal(after) && Reopened(decode, s.file).value.table == Fold(after)
               && (after == log || exists e :: after == log + [e] && Extends(Fold(log), e))
  {
    RunKeeps(decode, ops);
    var s, log := Run(decode, ops), Log(decode, ops);
    assert Legal(log) && s.table == Fold(log);
    hide *;
    LogBound(log);
    ReopenRecovers(decode, s, log);
  }

  /** `b` keeps what `a` knows: identities for ever, and terminal outcomes too. */
  ghost predicate Keeps(a: Table, b: Table) {
    forall k :: k in a.entries ==> KeepsKey(a, b, k)
  }

  ghost predicate KeepsKey(a: Table, b: Table, k: Key)
    requires k in a.entries
  {
    && k in b.entries && a.entries[k].key == b.entries[k].key
    && a.entries[k].requestDigest == b.entries[k].requestDigest && a.entries[k].sequence == b.entries[k].sequence
    && (Terminal(a.entries[k].outcome) ==> a.entries[k] == b.entries[k])
    && (a.entries[k].outcome == Unknown ==> b.entries[k].outcome != Pending)
  }

  lemma UpdateKeepsTable(a: Table, t: Table, e: Entry)
    requires Keeps(a, t) && TableOk(t) && Extends(t, e)
    ensures Keeps(a, Update(t, e))
  {
    hide ValidKey, ValidDigest;
    forall k | k in a.entries ensures KeepsKey(a, Update(t, e), k) {
      assert KeepsKey(a, t, k) && EntryOk(t, k);
    }
  }

  lemma {:induction false} LongerLogKeeps(log: seq<Entry>, more: seq<Entry>)
    requires Legal(log + more)
    ensures Keeps(Fold(log), Fold(log + more))
    decreases |more|
  {
    hide Fold, Extends, TableOk, Keeps, Update, Legal;
    if more == [] {
      assert log + more == log;
      KeepsItself(Fold(log));
    } else {
      var n := |more| - 1;
      assert log + more == (log + more[..n]) + [more[n]];
      Snoc(log + more[..n], more[n]);
      LongerLogKeeps(log, more[..n]);
      LegalOk(log + more[..n]);
      UpdateKeepsTable(Fold(log), Fold(log + more[..n]), more[n]);
    }
  }

  lemma KeepsItself(t: Table)
    ensures Keeps(t, t)
  {
  }

  lemma StepGrows(decode: Decoder, s: State, log: seq<Entry>, op: Op)
    requires Reads(decode) && Inv(s, log)
    ensures log <= LogStep(decode, s, log, op)
  {
    hide Durable, Legal, Fold, Stored, Reads, Reopened, Inv, Extends, Perform, Line;
    if op == Reopen {
      ReopenRecovers(decode, s, log);
    }
  }

  lemma {:induction false} LogGrows(decode: Decoder, ops: seq<Op>, more: seq<Op>)
    requires Reads(decode)
    ensures Log(decode, ops) <= Log(decode, ops + more)
    decreases |more|
  {
    hide LogStep, Perform;
    if more == [] {
      assert ops + more == ops;
    } else {
      var front := ops + more[..|more| - 1];
      assert (ops + more)[..|ops + more| - 1] == front;
      LogGrows(decode, ops, more[..|more| - 1]);
      RunKeeps(decode, front);
      StepGrows(decode, Run(decode, front), Log(decode, front), more[|more| - 1]);
    }
  }

  /** No key's digest or sequence ever changes, and a terminal outcome is absorbing, reopenings included. */
  lemma IdentitiesNeverChange(decode: Decoder, ops: seq<Op>, more: seq<Op>)
    requires Reads(decode)
    ensures Keeps(Run(decode, ops).table, Run(decode, ops + more).table)
  {
    hide *;
    LogGrows(decode, ops, more);
    CrashConsistency(decode, ops);
    CrashConsistency(decode, ops + more);
    var log, longer := Log(decode, ops), Log(decode, ops + more);
    assert longer == log + longer[|log|..];
    LongerLogKeeps(log, longer[|log|..]);
  }

  /** What a later attempt with the same key is told, whatever happened since the first one started. */
  lemma StartsOnce(decode: Decoder, ops: seq<Op>, key: Key, digest: string, sequence: nat, write: Write,
                   more: seq<Op>, again: string, write': Write)
    requires Reads(decode)
    requires Perform(decode, Run(decode, ops), BeginOp(key, digest, write)).1 == Began(Ok(Started(sequence)))
    ensures var s := Run(decode, ops + [BeginOp(key, digest, write)] + more);
            var reply := Perform(decode, s, BeginOp(key, again, write')).1;
            if s.poisoned then reply == Began(Err(Poisoned))
            else if !ValidDigest(again) then reply == Began(Err(InvalidDigest))
            else if again != digest then reply == Began(Err(Conflict))
            else reply.Began? && reply.decision.Ok? && reply.decision.value.Existing?
                 && reply.decision.value.entry.sequence == sequence && reply.decision.value.entry.requestDigest == digest
  {
    var op := BeginOp(key, digest, write);
    var first := ops + [op];
    assert first[..|first| - 1] == ops;
    StartedIsRecorded(Run(decode, ops), key, digest, write, sequence);
    var t := Run(decode, first).table;
    assert key in t.entries && t.entries[key] == Entry(key, digest, Pending, sequence) && ValidKey(key);
    IdentitiesNeverChange(decode, first, more);
    hide Run, ValidKey, ValidDigest;
    assert KeepsKey(t, Run(decode, first + more).table, key);
  }

  lemma StartedIsRecorded(s: State, key: Key, digest: string, write: Write, sequence: nat)
    requires Begin(s, key, digest, write).1 == Ok(Started(sequence))
    ensures ValidKey(key) && var t := Begin(s, key, digest, write).0.table;
            key in t.entries && t.entries[key] == Entry(key, digest, Pending, sequence)
  {
    hide ValidKey, ValidDigest, Line;
  }

  /** Sequences number the keys from one without repetition, so they stay far from overflow. */
  lemma SequencesNumberKeys(decode: Decoder, ops: seq<Op>)
    requires Reads(decode)
    ensures TableOk(Run(decode, ops).table)
  {
    hide *;
    CrashConsistency(decode, ops);
    LegalOk(Log(decode, ops));
  }

  /** Reading lines as UTF-8, as JSON and by member names is such a reader. */
  lemma LinesAreRead()
    ensures Reads(ReadLine)
  {
    forall e: Entry | e.sequence <= U64_MAX ensures ReadLine(Line(e)) == Some(e) {
      LineReads(e);
    }
  }
}
