/**
 When each journal operation succeeds and what each refusal means, in terms of the table alone; and exactly
 which files a replay accepts.
 */
module OperationJournalRules {
  import opened Outcomes
  import opened Text
  import opened JournalRecord
  import opened OperationJournal

  // ---------- Attempts ----------

  predicate WellScoped(key: Key) {
    forall f :: f in [key.principal, key.instance, key.incarnation, key.operation, key.idempotencyKey] ==>
      f != "" && |Utf8(f)| <= 256 && '\0' !in f
  }

  ghost predicate IsSha256(digest: string) {
    exists hex: string :: digest == "sha256:" + hex && |hex| == 64 && forall c :: c in hex ==> c in "0123456789abcdef"
  }

  lemma WellScopedMeans(key: Key)
    ensures ValidKey(key) <==> WellScoped(key)
  {
    hide Utf8;
    var fields := [key.principal, key.instance, key.incarnation, key.operation, key.idempotencyKey];
    assert key.principal in fields && key.instance in fields && key.incarnation in fields;
    assert key.operation in fields && key.idempotencyKey in fields;
  }

  lemma Sha256Means(digest: string)
    ensures ValidDigest(digest) <==> IsSha256(digest)
  {
    DigestMeans("sha256:", digest);
    hide IsDigest;
  }

  /** The file got the entry's line, or after a failure some prefix of it; the table changed only in the first case. */
  ghost predicate Recorded(s: State, next: State, e: Entry, write: Write) {
    if write.Synced? then
      && next.table.entries == s.table.entries[e.key := e] && next.file == s.file + Line(e) && next.poisoned == s.poisoned
    else
      && next.table == s.table && next.poisoned && s.file <= next.file <= s.file + Line(e)
  }

  lemma RecordMeans(s: State, e: Entry, write: Write)
    requires !s.poisoned
    ensures Recorded(s, Record(s, e, write), e, write)
    ensures write.Synced? ==>
              Record(s, e, write).table.next == if e.key in s.table.entries then s.table.next else e.sequence + 1
  {
    hide Line;
    var line := Line(e);
    assert Written(line, write) <= line;
    assert s.file + line[..|Written(line, write)|] <= s.file + line;
  }

  /** What `begin` answers and does, whatever the state. */
  lemma BeginOutcome(s: State, key: Key, digest: string, write: Write)
    ensures var (next, r) := Begin(s, key, digest, write);
            var known, fine := s.table.entries, !s.poisoned && WellScoped(key) && IsSha256(digest);
            var started := Entry(key, digest, Pending, s.table.next);
            && (r == Err(Poisoned) <==> s.poisoned)
            && (r == Err(InvalidKey) <==> !s.poisoned && !WellScoped(key))
            && (r == Err(InvalidDigest) <==> !s.poisoned && WellScoped(key) && !IsSha256(digest))
            && (r == Err(Conflict) <==> fine && key in known && known[key].requestDigest != digest)
            && (r == Err(Capacity) <==> fine && key !in known && |known| >= 4096)
            && (r == Err(Persistence) <==> fine && key !in known && |known| < 4096 && write.Failed?)
            && (forall e :: r == Ok(Existing(e)) <==> fine && key in known && known[key] == e && e.requestDigest == digest)
            && (forall n :: r == Ok(Started(n)) <==> fine && key !in known && |known| < 4096 && write.Synced? && n == s.table.next)
            && (if fine && key !in known && |known| < 4096 then
                  Recorded(s, next, started, write) && (write.Synced? ==> next.table.next == s.table.next + 1)
                else next == s)
  {
    WellScopedMeans(key);
    Sha256Means(digest);
    hide WellScoped, IsSha256, ValidKey, ValidDigest, Record, Recorded;
    if !s.poisoned {
      RecordMeans(s, Entry(key, digest, Pending, s.table.next), write);
    }
  }

  /** The outcomes that may replace one that was recorded. */
  predicate MayBecome(previous: Outcome, next: Outcome) {
    next != Pending && (previous == Pending || (previous == Unknown && next != Unknown))
  }

  /** What `complete` answers and does, whatever the state. */
  lemma CompleteOutcome(s: State, key: Key, outcome: Outcome, write: Write)
    ensures var (next, r) := Complete(s, key, outcome, write);
            var known := s.table.entries;
            && (r == Err(Poisoned) <==> s.poisoned)
            && (r == Err(Missing) <==> !s.poisoned && key !in known)
            && (!s.poisoned && key in known ==>
                  var was := known[key].outcome;
                  && (r == Err(InvalidTransition) <==> was != outcome && !MayBecome(was, outcome))
                  && (r == Err(Persistence) <==> MayBecome(was, outcome) && write.Failed?)
                  && (r == Ok(()) <==> was == outcome || (MayBecome(was, outcome) && write.Synced?)))
            && (if !s.poisoned && key in known && MayBecome(known[key].outcome, outcome) then
                  Recorded(s, next, Entry(key, known[key].requestDigest, outcome, known[key].sequence), write)
                  && next.table.next == s.table.next
                else next == s)
  {
    hide Recorded, Record;
    if !s.poisoned && key in s.table.entries {
      RecordMeans(s, Entry(key, s.table.entries[key].requestDigest, outcome, s.table.entries[key].sequence), write);
    }
    NextStays(s, write);
  }

  lemma NextStays(s: State, write: Write)
    ensures forall e :: write.Failed? ==> Record(s, e, write).table == s.table
  {
  }

  // ---------- Replay ----------

  /** A record that may follow a table: a new attempt with the next number, or more about a known one. */
  ghost predicate Continues(t: Table, e: Entry) {
    && WellScoped(e.key) && IsSha256(e.requestDigest)
    && if e.key in t.entries then
         var p := t.entries[e.key];
         p.sequence == e.sequence && p.requestDigest == e.requestDigest && (p.outcome == e.outcome || MayBecome(p.outcome, e.outcome))
       else |t.entries| < 4096 && e.sequence == t.next && e.outcome == Pending && e.sequence < 0xFFFF_FFFF_FFFF_FFFF
  }

  /** The table with the record in it. */
  function With(t: Table, e: Entry): Table {
    Table(t.entries[e.key := e], if e.key in t.entries then t.next else t.next + 1)
  }

  lemma ApplyMeans(t: Table, e: Entry)
    ensures ApplyRecord(t, e).Ok? <==> Continues(t, e)
    ensures Continues(t, e) ==> ApplyRecord(t, e) == Ok(With(t, e))
    ensures ApplyRecord(t, e) == Err(Capacity) <==>
              WellScoped(e.key) && IsSha256(e.requestDigest) && e.key !in t.entries && |t.entries| >= 4096
    ensures ApplyRecord(t, e).Err? ==> ApplyRecord(t, e).error in {Capacity, Corrupt}
  {
    WellScopedMeans(e.key);
    Sha256Means(e.requestDigest);
    hide WellScoped, IsSha256, ValidKey, ValidDigest;
  }

  /** A whole line that replay reads at once. */
  predicate IsLine(line: seq<byte>) {
    1 <= |line| <= 16384 && line[|line| - 1] == 10 && 10 !in line[..|line| - 1]
  }

  function Joined(lines: seq<seq<byte>>): seq<byte> {
    if lines == [] then [] else lines[0] + Joined(lines[1..])
  }

  /** The lines decode to records that may follow one another from `t` on, and end in `end`. */
  ghost predicate Leads(decode: Decoder, t: Table, lines: seq<seq<byte>>, end: Table)
    decreases |lines|
  {
    if lines == [] then end == t
    else IsLine(lines[0]) && decode(lines[0]).Some? && Continues(t, decode(lines[0]).value)
         && Leads(decode, With(t, decode(lines[0]).value), lines[1..], end)
  }

  /** The file is such lines and a tail without a newline. */
  ghost predicate Replays(decode: Decoder, file: seq<byte>, t: Table, records: nat, end: Table, committed: nat,
                          lines: seq<seq<byte>>, tail: seq<byte>)
  {
    && file == Joined(lines) + tail && committed == |Joined(lines)| && 10 !in tail && |tail| <= 16384
    && records + |lines| <= 12288 && Leads(decode, t, lines, end)
  }

  lemma {:induction false} UntilNewline(file: seq<byte>, limit: nat)
    ensures var n := ReadUntil(file, limit);
            && (n > 0 ==> 10 !in file[..n - 1])
            && (n == |file| || n == limit || (n > 0 && file[n - 1] == 10))
    decreases limit
  {
    if file != [] && limit > 0 && file[0] != 10 {
      UntilNewline(file[1..], limit - 1);
      var m := ReadUntil(file[1..], limit - 1);
      if m > 0 {
        assert file[..m] == [file[0]] + file[1..][..m - 1];
      }
    }
  }

  lemma {:induction false} NewlineStops(line: seq<byte>, rest: seq<byte>, limit: nat)
    requires IsLine(line) && |line| <= limit
    ensures ReadUntil(line + rest, limit) == |line|
    decreases |line|
  {
    var w := line + rest;
    assert w[0] == line[0];
    if |line| > 1 {
      assert line[0] == line[..|line| - 1][0];
      assert w[1..] == line[1..] + rest && line[1..][..|line[1..]| - 1] == line[..|line| - 1][1..];
      NewlineStops(line[1..], rest, limit - 1);
    }
  }

  lemma {:induction false} NoNewline(tail: seq<byte>, limit: nat)
    requires 10 !in tail && |tail| <= limit
    ensures ReadUntil(tail, limit) == |tail|
    decreases limit
  {
    if tail != [] {
      assert tail[0] in tail;
      NoNewline(tail[1..], limit - 1);
    }
  }

  /** Such a file is accepted, with exactly that table and length. */
  lemma {:induction false} ReplayAccepts(decode: Decoder, file: seq<byte>, t: Table, records: nat, end: Table, committed: nat,
                                         lines: seq<seq<byte>>, tail: seq<byte>)
    requires Replays(decode, file, t, records, end, committed, lines, tail)
    ensures Replayed(decode, file, t, records) == Ok((end, committed))
    decreases |lines|
  {
    ReplayStep(decode, file, t, records);
    hide Replayed, ReadUntil, ApplyRecord, Continues;
    if lines == [] {
      assert file == tail;
      NoNewline(tail, 16385);
      if tail != [] {
        assert tail[|tail| - 1] in tail;
      }
    } else {
      var line, rest := lines[0], Joined(lines[1..]) + tail;
      assert file == line + rest;
      NewlineStops(line, rest, 16385);
      assert file[..|line|] == line && file[|line|..] == rest && file[|line| - 1] == 10;
      var e := decode(line).value;
      ApplyMeans(t, e);
      ReplayAccepts(decode, rest, With(t, e), records + 1, end, committed - |line|, lines[1..], tail);
    }
  }

  /** A line and what replays after it. */
  lemma LineFirst(decode: Decoder, line: seq<byte>, rest: seq<byte>, t: Table, records: nat, end: Table, committed: nat,
                  more: seq<seq<byte>>, tail: seq<byte>)
    requires IsLine(line) && decode(line).Some? && Continues(t, decode(line).value)
    requires Replays(decode, rest, With(t, decode(line).value), records + 1, end, committed, more, tail)
    ensures Replays(decode, line + rest, t, records, end, |line| + committed, [line] + more, tail)
  {
    hide IsLine, Continues;
    var lines := [line] + more;
    assert lines[1..] == more;
    assert Joined(lines) + tail == line + (Joined(more) + tail);
  }

  lemma TailOnly(decode: Decoder, file: seq<byte>, t: Table, records: nat)
    requires 10 !in file && |file| <= 16384 && records <= 12288
    ensures Replays(decode, file, t, records, t, 0, [], file)
  {
    assert file == Joined([]) + file;
  }

  /** What one accepted turn of the replay has read: the torn tail, or a line that continues the table. */
  ghost predicate TurnReads(decode: Decoder, file: seq<byte>, t: Table, records: nat, n: nat)
    requires n <= |file| && Replayed(decode, file, t, records).Ok?
  {
    var v := Replayed(decode, file, t, records).value;
    if n == 0 then 10 !in file && |file| <= 16384 && v == (t, 0)
    else
      && IsLine(file[..n]) && decode(file[..n]).Some? && Continues(t, decode(file[..n]).value) && records < 12288
      && var after := Replayed(decode, file[n..], With(t, decode(file[..n]).value), records + 1);
      after.Ok? && v == (after.value.0, n + after.value.1)
  }

  lemma TailTurn(decode: Decoder, file: seq<byte>, t: Table, records: nat)
    requires Replayed(decode, file, t, records).Ok?
    requires var n := ReadUntil(file, 16385); n == 0 || file[n - 1] != 10
    ensures TurnReads(decode, file, t, records, 0)
  {
    UntilNewline(file, 16385);
    var n := ReadUntil(file, 16385);
    hide ReadUntil, ApplyRecord, Continues;
    if n > 0 {
      assert n == |file| && file == file[..n - 1] + [file[n - 1]];
    }
  }

  lemma ReadsLine(file: seq<byte>)
    requires var n := ReadUntil(file, 16385); 0 < n <= 16384 && file[n - 1] == 10
    ensures IsLine(file[..ReadUntil(file, 16385)])
  {
    UntilNewline(file, 16385);
    var n := ReadUntil(file, 16385);
    hide ReadUntil;
    assert file[..n][..n - 1] == file[..n - 1];
  }

  lemma LineTurn(decode: Decoder, file: seq<byte>, t: Table, records: nat)
    requires Replayed(decode, file, t, records).Ok?
    requires var n := ReadUntil(file, 16385); n > 0 && file[n - 1] == 10
    ensures TurnReads(decode, file, t, records, ReadUntil(file, 16385))
  {
    hide ReadUntil, ApplyRecord, Continues, Replayed, IsLine, With;
    ReplayStep(decode, file, t, records);
    ReadsLine(file);
    var entry := decode(file[..ReadUntil(file, 16385)]);
    if entry.Some? {
      ApplyMeans(t, entry.value);
    }
  }

  /** Whatever is accepted is such a file. */
  lemma {:induction false} ReplayFinds(decode: Decoder, file: seq<byte>, t: Table, records: nat)
    returns (lines: seq<seq<byte>>, tail: seq<byte>)
    requires Replayed(decode, file, t, records).Ok? && records <= 12288
    ensures var v := Replayed(decode, file, t, records).value;
            Replays(decode, file, t, records, v.0, v.1, lines, tail)
    decreases |file|
  {
    hide Replayed, ReadUntil, Continues, Replays, IsLine;
    var n := ReadUntil(file, 16385);
    if n == 0 || file[n - 1] != 10 {
      TailTurn(decode, file, t, records);
      TailOnly(decode, file, t, records);
      return [], file;
    }
    LineTurn(decode, file, t, records);
    var line, rest := file[..n], file[n..];
    var next := With(t, decode(line).value);
    var more;
    more, tail := ReplayFinds(decode, rest, next, records + 1);
    lines := [line] + more;
    var v := Replayed(decode, rest, next, records + 1).value;
    LineFirst(decode, line, rest, t, records, v.0, v.1, more, tail);
    assert file == line + rest;
  }

  /** A file opens exactly when it is whole lines of records that may follow one another, with at most a torn tail. */
  lemma OpensIff(decode: Decoder, file: seq<byte>, s: State)
    ensures Reopened(decode, file) == Ok(s) <==>
            exists lines, tail :: Replays(decode, file, EMPTY, 0, s.table, |s.file|, lines, tail) && s.file == Joined(lines) && !s.poisoned
  {
    hide Replayed;
    if Reopened(decode, file) == Ok(s) {
      var lines, tail := ReplayFinds(decode, file, EMPTY, 0);
      assert file[..|Joined(lines)|] == Joined(lines);
    }
    if lines, tail :| Replays(decode, file, EMPTY, 0, s.table, |s.file|, lines, tail) && s.file == Joined(lines) && !s.poisoned {
      ReplayAccepts(decode, file, EMPTY, 0, s.table, |s.file|, lines, tail);
      assert file[..|Joined(lines)|] == Joined(lines);
    }
  }
}
