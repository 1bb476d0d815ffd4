/**
 The in-memory part of `write_zip`: a stored (uncompressed) ZIP archive laid out by sections
 4.3.7, 4.3.12 and 4.3.16 of PKWARE APPNOTE.TXT, and an independent reader for it.
 */
module ZipArchive {
  import opened Outcomes
  import opened Text
  import opened Sorting
  import Crc32

  const TWO_16: int := 0x1_0000
  const TWO_32: int := 0x1_0000_0000
  const ARCHIVE_LIMIT: int := 16 * 1024 * 1024
  const LOCAL_SIGNATURE: int := 0x0403_4b50
  const CENTRAL_SIGNATURE: int := 0x0201_4b50
  const END_SIGNATURE: int := 0x0605_4b50

  datatype Entry = Entry(path: string, mediaType: string, bytes: seq<byte>)

  datatype ZipError = LimitExceeded | ArchiveTooLarge | EntryTooLarge | NameTooLong | TooManyEntries | ArchiveLimit

  predicate PathLe(a: Entry, b: Entry) {
    TextLe(a.path, b.path)
  }

  function EntryLimit(path: string): int {
    if path == "manifest.json" then 262_144
    else if path == "reports/omissions.json" then 1_048_576
    else ARCHIVE_LIMIT
  }

  // ---------- Little-endian fields ----------

  function U16(v: int): (r: seq<byte>)
    requires 0 <= v < TWO_16
    ensures |r| == 2
  {
    [v % 256, v / 256]
  }

  function U32(v: int): (r: seq<byte>)
    requires 0 <= v < TWO_32
    ensures |r| == 4
  {
    [v % 256, v / 256 % 256, v / 0x1_0000 % 256, v / 0x100_0000]
  }

  function Get16(s: seq<int>, at: nat): int
    requires at + 2 <= |s|
  {
    s[at] + 256 * s[at + 1]
  }

  function Get32(s: seq<int>, at: nat): int
    requires at + 4 <= |s|
  {
    s[at] + 256 * s[at + 1] + 0x1_0000 * s[at + 2] + 0x100_0000 * s[at + 3]
  }

  lemma Get16OfU16(v: int, s: seq<byte>, at: nat)
    requires 0 <= v < TWO_16 && at + 2 <= |s| && s[at..at + 2] == U16(v)
    ensures Get16(s, at) == v
  {
    assert s[at] == s[at..at + 2][0] && s[at + 1] == s[at..at + 2][1];
  }

  lemma U32Digits(v: int)
    requires 0 <= v < TWO_32
    ensures v % 256 + 256 * (v / 256 % 256) + 0x1_0000 * (v / 0x1_0000 % 256) + 0x100_0000 * (v / 0x100_0000) == v
  {
    var a := v / 256;
    var b := a / 256;
    assert b == v / 0x1_0000 && b / 256 == v / 0x100_0000;
  }

  lemma Get32OfU32(v: int, s: seq<byte>, at: nat)
    requires 0 <= v < TWO_32 && at + 4 <= |s| && s[at..at + 4] == U32(v)
    ensures Get32(s, at) == v
  {
    var w := s[at..at + 4];
    assert s[at] == w[0] && s[at + 1] == w[1] && s[at + 2] == w[2] && s[at + 3] == w[3];
    U32Digits(v);
  }

  // ---------- Layout ----------

  function Name(e: Entry): seq<byte> {
    Utf8(e.path)
  }

  /** Every header field of the entry fits its width. */
  predicate Fits(e: Entry) {
    |Name(e)| < TWO_16 && |e.bytes| < TWO_32
  }

  function Crc(e: Entry): (c: int)
    ensures 0 <= c < TWO_32
  {
    Crc32.AbsorbBound(Crc32.MAX_U32, e.bytes);
    Crc32.Checksum(e.bytes)
  }

  /** Signature, version 2.0, no flags, stored, no time stamp. */
  function LocalPrefix(): (h: seq<byte>)
    ensures |h| == 14
  {
    U32(LOCAL_SIGNATURE) + U16(20) + U16(0) + U16(0) + U16(0) + U16(0)
  }

  /** Signature, made by and needing version 2.0, no flags, stored, no time stamp. */
  function CentralPrefix(): (h: seq<byte>)
    ensures |h| == 16
  {
    U32(CENTRAL_SIGNATURE) + U16(20) + U16(20) + U16(0) + U16(0) + U16(0) + U16(0)
  }

  /** No extra field, no comment, first disk, no attributes. */
  function CentralPadding(): (h: seq<byte>)
    ensures |h| == 12
  {
    U16(0) + U16(0) + U16(0) + U16(0) + U32(0)
  }

  /** Signature, single disk. */
  function EndPrefix(): (h: seq<byte>)
    ensures |h| == 8
  {
    U32(END_SIGNATURE) + U16(0) + U16(0)
  }

  function LocalHeader(crc: int, size: int, nameLength: int): (h: seq<byte>)
    requires 0 <= crc < TWO_32 && 0 <= size < TWO_32 && 0 <= nameLength < TWO_16
    ensures |h| == 30
  {
    LocalPrefix() + (U32(crc) + U32(size) + U32(size)) + (U16(nameLength) + U16(0))
  }

  function CentralHeader(crc: int, size: int, nameLength: int, offset: int): (h: seq<byte>)
    requires 0 <= crc < TWO_32 && 0 <= size < TWO_32 && 0 <= nameLength < TWO_16 && 0 <= offset < TWO_32
    ensures |h| == 46
  {
    CentralPrefix() + (U32(crc) + U32(size) + U32(size)) + (U16(nameLength) + CentralPadding()) + U32(offset)
  }

  function EndRecord(count: int, centralSize: int, centralOffset: int): (h: seq<byte>)
    requires 0 <= count < TWO_16 && 0 <= centralSize < TWO_32 && 0 <= centralOffset < TWO_32
    ensures |h| == 22
  {
    EndPrefix() + (U16(count) + U16(count)) + (U32(centralSize) + U32(centralOffset)) + U16(0)
  }

  function Local(e: Entry): seq<byte>
    requires Fits(e)
  {
    LocalHeader(Crc(e), |e.bytes|, |Name(e)|) + Name(e) + e.bytes
  }

  function Central(e: Entry, offset: int): seq<byte>
    requires Fits(e) && 0 <= offset < TWO_32
  {
    CentralHeader(Crc(e), |e.bytes|, |Name(e)|, offset) + Name(e)
  }

  // ---------- The writer ----------

  /** What one entry adds to the archive: two headers of 30 and 46 bytes, its name twice, its data. */
  function Cost(e: Entry): int {
    |e.bytes| + |Name(e)| * 2 + 76
  }

  function Bound(entries: seq<Entry>): int {
    if entries == [] then 22 else Cost(entries[0]) + Bound(entries[1..])
  }

  predicate WithinLimits(entries: seq<Entry>) {
    && (forall e :: e in entries ==> |e.bytes| <= EntryLimit(e.path))
    && Bound(entries) <= ARCHIVE_LIMIT
  }

  /** The entry loop, from the buffers it has built so far. */
  function WriteEntries(entries: seq<Entry>, out: seq<byte>, central: seq<byte>)
    : Result<(seq<byte>, seq<byte>), ZipError>
  {
    if entries == [] then Ok((out, central))
    else
      var e := entries[0];
      if |out| >= TWO_32 then Err(ArchiveTooLarge)
      else if |e.bytes| >= TWO_32 then Err(EntryTooLarge)
      else if |Name(e)| >= TWO_16 then Err(NameTooLong)
      else WriteEntries(entries[1..], out + Local(e), central + Central(e, |out|))
  }

  function Finish(out: seq<byte>, central: seq<byte>, count: nat): Result<seq<byte>, ZipError> {
    if |out| >= TWO_32 then Err(ArchiveTooLarge)
    else if count >= TWO_16 then Err(TooManyEntries)
    else if |central| >= TWO_32 then Err(ArchiveTooLarge)
    else
      var archive := out + central + EndRecord(count, |central|, |out|);
      if |archive| > ARCHIVE_LIMIT then Err(ArchiveLimit) else Ok(archive)
  }

  /** The bytes written for `entries`, or the reason why none are. */
  function Archive(entries: seq<Entry>): Result<seq<byte>, ZipError> {
    var sorted := StableSort(PathLe, entries);
    if !WithinLimits(sorted) then Err(LimitExceeded)
    else
      match WriteEntries(sorted, [], [])
      case Err(error) => Err(error)
      case Ok((out, central)) => Finish(out, central, |entries|)
  }

  method CheckLimits(sorted: seq<Entry>) returns (ok: bool)
    ensures ok <==> WithinLimits(sorted)
  {
    var bound := 22;
    for i := 0 to |sorted|
      invariant bound + Bound(sorted[i..]) == Bound(sorted) + 22
      invariant bound <= ARCHIVE_LIMIT
      invariant forall e :: e in sorted[..i] ==> |e.bytes| <= EntryLimit(e.path)
    {
      var entry := sorted[i];
      bound := bound + |entry.bytes| + |Utf8(entry.path)| * 2 + 76;
      assert sorted[i..][1..] == sorted[i + 1..];
      assert sorted[..i + 1] == sorted[..i] + [entry];
      BoundAtLeast(sorted[i + 1..]);
      if |entry.bytes| > EntryLimit(entry.path) || bound > ARCHIVE_LIMIT {
        assert entry in sorted;
        return false;
      }
    }
    assert sorted[..|sorted|] == sorted;
    return true;
  }

  lemma {:induction false} BoundAtLeast(entries: seq<Entry>)
    ensures Bound(entries) >= 22 + 76 * |entries|
  {
    if entries != [] {
      BoundAtLeast(entries[1..]);
    }
  }

  /** The buffer-building loops of the source. */
  method BuildArchive(entries: seq<Entry>) returns (r: Result<seq<byte>, ZipError>)
    ensures r == Archive(entries)
  {
    var sorted := StableSort(PathLe, entries);
    var within := CheckLimits(sorted);
    if !within {
      return Err(LimitExceeded);
    }
    var out: seq<byte> := [];
    var central: seq<byte> := [];
    for i := 0 to |sorted|
      invariant WriteEntries(sorted, [], []) == WriteEntries(sorted[i..], out, central)
    {
      var entry := sorted[i];
      assert sorted[i..][1..] == sorted[i + 1..];
      var offset := |out|;
      if offset >= TWO_32 {
        return Err(ArchiveTooLarge);
      }
      var name := Utf8(entry.path);
      var size := |entry.bytes|;
      if size >= TWO_32 {
        return Err(EntryTooLarge);
      }
      var crc := Crc32.Compute(entry.bytes);
      if |name| >= TWO_16 {
        return Err(NameTooLong);
      }
      out := out + (LocalHeader(crc, size, |name|) + name + entry.bytes);
      central := central + (CentralHeader(crc, size, |name|, offset) + name);
    }
    var centralOffset := |out|;
    if centralOffset >= TWO_32 {
      return Err(ArchiveTooLarge);
    }
    if |entries| >= TWO_16 {
      return Err(TooManyEntries);
    }
    if |central| >= TWO_32 {
      return Err(ArchiveTooLarge);
    }
    out := out + central + EndRecord(|entries|, |central|, centralOffset);
    if |out| > ARCHIVE_LIMIT {
      return Err(ArchiveLimit);
    }
    return Ok(out);
  }

  // ---------- What the writer lays out ----------

  function Locals(entries: seq<Entry>): seq<byte>
    requires forall e :: e in entries ==> Fits(e)
  {
    if entries == [] then [] else Local(entries[0]) + Locals(entries[1..])
  }

  function Centrals(entries: seq<Entry>, offset: nat): seq<byte>
    requires forall e :: e in entries ==> Fits(e)
    requires offset + |Locals(entries)| < TWO_32
  {
    if entries == [] then []
    else Central(entries[0], offset) + Centrals(entries[1..], offset + |Local(entries[0])|)
  }

  lemma {:induction false} BuffersSize(entries: seq<Entry>, offset: nat)
    requires forall e :: e in entries ==> Fits(e)
    requires offset + |Locals(entries)| < TWO_32
    ensures |Locals(entries)| + |Centrals(entries, offset)| + 22 == Bound(entries)
    decreases |entries|
  {
    if entries != [] {
      BuffersSize(entries[1..], offset + |Local(entries[0])|);
    }
  }

  lemma {:induction false} LocalsWithinBound(entries: seq<Entry>)
    requires forall e :: e in entries ==> Fits(e)
    ensures |Locals(entries)| + 22 <= Bound(entries)
  {
    if entries != [] {
      LocalsWithinBound(entries[1..]);
    }
  }

  lemma {:induction false} WriteEntriesLayout(entries: seq<Entry>, out: seq<byte>, central: seq<byte>)
    requires forall e :: e in entries ==> Fits(e)
    requires |out| + |Locals(entries)| < TWO_32
    ensures WriteEntries(entries, out, central) == Ok((out + Locals(entries), central + Centrals(entries, |out|)))
    decreases |entries|
  {
    hide Local, Central;
    if entries == [] {
      assert out + [] == out && central + [] == central;
    } else {
      var e, rest := entries[0], entries[1..];
      var out', central' := out + Local(e), central + Central(e, |out|);
      WriteEntriesLayout(rest, out', central');
      assert out' + Locals(rest) == out + Locals(entries);
      assert central' + Centrals(rest, |out'|) == central + Centrals(entries, |out|);
    }
  }

  /** An over-long name stops the loop whatever the buffers hold. */
  lemma {:induction false} WriteEntriesNameTooLong(entries: seq<Entry>, out: seq<byte>, central: seq<byte>)
    requires exists e :: e in entries && |Name(e)| >= TWO_16
    requires forall e :: e in entries ==> |e.bytes| < TWO_32
    requires |out| + Bound(entries) < TWO_32
    ensures WriteEntries(entries, out, central) == Err(NameTooLong)
    decreases |entries|
  {
    BoundAtLeast(entries[1..]);
    if |Name(entries[0])| < TWO_16 {
      var e :| e in entries && |Name(e)| >= TWO_16;
      assert e in entries[1..];
      WriteEntriesNameTooLong(entries[1..], out + Local(entries[0]), central + Central(entries[0], |out|));
    }
  }

  lemma {:induction false} InsertBound(x: Entry, s: seq<Entry>)
    ensures Bound(Insert(PathLe, x, s)) == Cost(x) + Bound(s)
  {
    if s != [] && !PathLe(x, s[0]) {
      InsertBound(x, s[1..]);
    } else {
      assert ([x] + s)[1..] == s;
    }
  }

  lemma {:induction false} SortBound(entries: seq<Entry>)
    ensures Bound(StableSort(PathLe, entries)) == Bound(entries)
  {
    if entries != [] {
      SortBound(entries[1..]);
      InsertBound(entries[0], StableSort(PathLe, entries[1..]));
    }
  }

  /** The entry lists for which an archive is written. */
  predicate Accepted(entries: seq<Entry>) {
    && WithinLimits(entries)
    && (forall e :: e in entries ==> |Name(e)| < TWO_16)
    && |entries| < TWO_16
  }

  lemma SortedFacts(entries: seq<Entry>)
    ensures var sorted := StableSort(PathLe, entries);
            && |sorted| == |entries|
            && (forall e :: e in sorted <==> e in entries)
            && Bound(sorted) == Bound(entries)
            && (WithinLimits(sorted) <==> WithinLimits(entries))
  {
    var sorted := StableSort(PathLe, entries);
    SortPermutes(PathLe, entries);
    SameMembers(sorted, entries);
    SortBound(entries);
  }

  lemma ArchiveWhenAccepted(entries: seq<Entry>)
    requires Accepted(entries)
    ensures var sorted := StableSort(PathLe, entries);
            && (forall e :: e in sorted ==> Fits(e))
            && |Locals(sorted)| < TWO_32
            && |Centrals(sorted, 0)| < TWO_32
            && |Locals(sorted)| + |Centrals(sorted, 0)| + 22 == Bound(entries)
            && Archive(entries) == Ok(Locals(sorted) + Centrals(sorted, 0)
                                      + EndRecord(|entries|, |Centrals(sorted, 0)|, |Locals(sorted)|))
  {
    hide Name, EntryLimit, Bound, WriteEntries, Locals, Centrals, StableSort, EndRecord;
    var sorted := StableSort(PathLe, entries);
    SortedFacts(entries);
    forall x | x in sorted ensures Fits(x) {
      EntryLimitBound(x.path);
    }
    LocalsWithinBound(sorted);
    BuffersSize(sorted, 0);
    WriteEntriesLayout(sorted, [], []);
    assert [] + Locals(sorted) == Locals(sorted) && [] + Centrals(sorted, 0) == Centrals(sorted, 0);
  }

  lemma ArchiveWhenNameTooLong(entries: seq<Entry>, e: Entry)
    requires WithinLimits(entries) && e in entries && |Name(e)| >= TWO_16
    ensures Archive(entries) == Err(NameTooLong)
  {
    hide Name, EntryLimit, Bound, WriteEntries, StableSort;
    SortedFacts(entries);
    var sorted := StableSort(PathLe, entries);
    assert e in sorted;
    forall x | x in sorted ensures |x.bytes| < TWO_32 {
      EntryLimitBound(x.path);
    }
    WriteEntriesNameTooLong(sorted, [], []);
  }

  lemma EntryLimitBound(path: string)
    ensures EntryLimit(path) < TWO_32
  {
  }

  lemma ArchiveWhenTooMany(entries: seq<Entry>)
    requires WithinLimits(entries) && (forall e :: e in entries ==> |Name(e)| < TWO_16) && |entries| >= TWO_16
    ensures Archive(entries) == Err(TooManyEntries)
  {
    hide Name, EntryLimit, Bound, WriteEntries, Locals, Centrals, StableSort;
    SortedFacts(entries);
    var sorted := StableSort(PathLe, entries);
    forall x | x in sorted ensures Fits(x) {
      EntryLimitBound(x.path);
    }
    LocalsWithinBound(sorted);
    WriteEntriesLayout(sorted, [], []);
  }

  /**
   The precomputed bound is the exact archive length, so neither a 32-bit conversion nor the final
   length check can fail; past the first limit check only over-long names and too many entries do.
   */
  lemma SizePrediction(entries: seq<Entry>)
    ensures Archive(entries).Ok? <==> Accepted(entries)
    ensures Archive(entries).Ok? ==> |Archive(entries).value| == Bound(entries)
    ensures Archive(entries) == Err(LimitExceeded) <==> !WithinLimits(entries)
    ensures Archive(entries) == Err(NameTooLong) <==>
            WithinLimits(entries) && exists e :: e in entries && |Name(e)| >= TWO_16
    ensures Archive(entries) == Err(TooManyEntries) <==>
            WithinLimits(entries) && (forall e :: e in entries ==> |Name(e)| < TWO_16) && |entries| >= TWO_16
  {
    if Accepted(entries) {
      ArchiveWhenAccepted(entries);
    } else if !WithinLimits(entries) {
      SortedFacts(entries);
    } else if e :| e in entries && |Name(e)| >= TWO_16 {
      ArchiveWhenNameTooLong(entries, e);
    } else {
      ArchiveWhenTooMany(entries);
    }
    hide *;
  }

  /** An entry is within the limit of its path: 256 KiB for the manifest, 1 MiB for the omissions, 16 MiB for the others. */
  predicate EntryFits(e: Entry) {
    && |e.bytes| <= 16_777_216
    && (e.path == "manifest.json" ==> |e.bytes| <= 262_144)
    && (e.path == "reports/omissions.json" ==> |e.bytes| <= 1_048_576)
  }

  /** An archive is written exactly for fewer than 65,536 entries, each within its limit, that take 16 MiB in all. */
  lemma ArchiveOutcome(entries: seq<Entry>)
    ensures var within := (forall e :: e in entries ==> EntryFits(e)) && Bound(entries) <= 16_777_216;
            var named := forall e :: e in entries ==> |Utf8(e.path)| < 65_536;
            && (Archive(entries).Ok? <==> within && named && |entries| < 65_536)
            && (Archive(entries).Ok? ==> |Archive(entries).value| == Bound(entries))
            && (Archive(entries) == Err(LimitExceeded) <==> !within)
            && (Archive(entries) == Err(NameTooLong) <==> within && !named)
            && (Archive(entries) == Err(TooManyEntries) <==> within && named && |entries| >= 65_536)
  {
    SizePrediction(entries);
    PathsDiffer();
    hide Archive, Bound, Utf8;
    assert forall e: Entry :: EntryFits(e) <==> |e.bytes| <= EntryLimit(e.path);
  }

  lemma PathsDiffer()
    ensures "manifest.json" != "reports/omissions.json"
  {
    assert |"manifest.json"| == 13;
  }

  // ---------- An independent reader ----------

  /** One archive member as a reader reports it. */
  datatype Member = Member(name: seq<byte>, content: seq<byte>, size: int, crc: int)

  datatype LocalFields = LocalFields(
    signature: int, version: int, flags: int, compression: int, time: int, date: int, crc: int, stored: int, size: int,
    nameLength: int, extraLength: int)

  datatype CentralFields = CentralFields(
    signature: int, madeBy: int, version: int, flags: int, compression: int, time: int, date: int, crc: int, stored: int, size: int,
    nameLength: int, extraLength: int, commentLength: int, disk: int, internal: int, external: int, offset: int)

  datatype EndFields = EndFields(
    signature: int, disk: int, centralDisk: int, here: int, count: int, size: int, offset: int, commentLength: int)

  function ParseLocal(h: seq<byte>): LocalFields
    requires |h| == 30
  {
    LocalFields(Get32(h, 0), Get16(h, 4), Get16(h, 6), Get16(h, 8), Get16(h, 10), Get16(h, 12), Get32(h, 14), Get32(h, 18),
                Get32(h, 22), Get16(h, 26), Get16(h, 28))
  }

  function ParseCentral(h: seq<byte>): (c: CentralFields)
    requires |h| == 46
    ensures c.nameLength >= 0 && c.extraLength >= 0 && c.commentLength >= 0
  {
    CentralFields(Get32(h, 0), Get16(h, 4), Get16(h, 6), Get16(h, 8), Get16(h, 10), Get16(h, 12), Get16(h, 14), Get32(h, 16),
                  Get32(h, 20), Get32(h, 24), Get16(h, 28), Get16(h, 30), Get16(h, 32), Get16(h, 34), Get16(h, 36), Get32(h, 38),
                  Get32(h, 42))
  }

  function ParseEnd(h: seq<byte>): (e: EndFields)
    requires |h| == 22
    ensures e.offset >= 0 && e.count >= 0
  {
    EndFields(Get32(h, 0), Get16(h, 4), Get16(h, 6), Get16(h, 8), Get16(h, 10), Get32(h, 12), Get32(h, 16), Get16(h, 20))
  }

  /** A local header of a stored member: version 2.0, no flags, no compression, no time stamp, no extra field. */
  predicate StoredLocally(l: LocalFields) {
    l.signature == 0x0403_4b50 && l.version == 20 && l.flags == l.compression == l.time == l.date == l.extraLength == 0
  }

  /** A central record of a stored member of the first disk: the same, with no comment and no attributes. */
  predicate StoredCentrally(c: CentralFields) {
    && c.signature == 0x0201_4b50 && c.madeBy == c.version == 20 && c.stored == c.size
    && c.flags == c.compression == c.time == c.date == c.extraLength == c.commentLength == 0
    && c.disk == c.internal == c.external == 0
  }

  /** The end of a single-disk archive without a comment. */
  predicate EndsArchive(e: EndFields) {
    e.signature == 0x0605_4b50 && e.disk == e.centralDisk == e.commentLength == 0 && e.here == e.count
  }

  /** `archive[at..at + length]`, when that range exists. */
  function Slice(archive: seq<byte>, at: int, length: int): Option<seq<byte>> {
    if 0 <= at && 0 <= length && at + length <= |archive| then Some(archive[at..at + length]) else None
  }

  /** The name and content behind a central record: its local header must repeat its fields. */
  function ReadLocal(archive: seq<byte>, c: CentralFields): Option<(seq<byte>, seq<byte>)> {
    match Slice(archive, c.offset, 30)
    case None => None
    case Some(h) =>
      if |h| != 30 then None
      else
        var l := ParseLocal(h);
        var nameAt := c.offset + 30;
        if !StoredLocally(l) || l.crc != c.crc || l.stored != c.stored || l.size != c.size || l.nameLength != c.nameLength then None
        else
          match (Slice(archive, nameAt, l.nameLength), Slice(archive, nameAt + l.nameLength + l.extraLength, l.stored))
          case (Some(name), Some(content)) => Some((name, content))
          case _ => None
  }

  /** Follows the central record at `at`, then its local header. Yields the member and the next record. */
  function ReadMember(archive: seq<byte>, at: nat): Option<(Member, nat)> {
    match Slice(archive, at, 46)
    case None => None
    case Some(h) =>
      if |h| != 46 then None
      else
        var c := ParseCentral(h);
        if !StoredCentrally(c) then None
        else
          match (Slice(archive, at + 46, c.nameLength), ReadLocal(archive, c))
          case (Some(name), Some((localName, content))) =>
            if name != localName then None
            else Some((Member(name, content, c.size, c.crc), at + 46 + c.nameLength + c.extraLength + c.commentLength))
          case _ => None
  }

  function ReadMembers(archive: seq<byte>, at: nat, count: nat): Option<seq<Member>>
    decreases count
  {
    if count == 0 then Some([])
    else
      match ReadMember(archive, at)
      case None => None
      case Some((member, next)) =>
        match ReadMembers(archive, next, count - 1)
        case None => None
        case Some(rest) => Some([member] + rest)
  }

  /** Starts from the last 22 bytes, as an archive without a comment allows. */
  function ReadArchive(archive: seq<byte>): Option<seq<Member>> {
    if |archive| < 22 then None
    else
      var e := ParseEnd(archive[|archive| - 22..]);
      if !EndsArchive(e) || e.offset + e.size != |archive| - 22 then None
      else ReadMembers(archive, e.offset, e.count)
  }

  function MemberOf(e: Entry): Member {
    Member(Name(e), e.bytes, |e.bytes|, Crc32.Checksum(e.bytes))
  }

  function MembersOf(entries: seq<Entry>): seq<Member> {
    if entries == [] then [] else [MemberOf(entries[0])] + MembersOf(entries[1..])
  }

  lemma LocalPrefixBytes()
    ensures LocalPrefix() == [0x50, 0x4b, 3, 4, 20, 0, 0, 0, 0, 0, 0, 0, 0, 0]
  {
  }

  lemma CentralPrefixBytes()
    ensures CentralPrefix() == [0x50, 0x4b, 1, 2, 20, 0, 20, 0, 0, 0, 0, 0, 0, 0, 0, 0]
    ensures CentralPadding() == [0, 0, 0, 0, 0, 0, 0, 0, 0, 0, 0, 0]
  {
  }

  lemma EndPrefixBytes()
    ensures EndPrefix() == [0x50, 0x4b, 5, 6, 0, 0, 0, 0]
  {
  }

  lemma ParseLocalHeader(crc: int, size: int, nameLength: int)
    requires 0 <= crc < TWO_32 && 0 <= size < TWO_32 && 0 <= nameLength < TWO_16
    ensures ParseLocal(LocalHeader(crc, size, nameLength))
            == LocalFields(0x0403_4b50, 20, 0, 0, 0, 0, crc, size, size, nameLength, 0)
  {
    LocalPrefixBytes();
    hide LocalPrefix;
    var h := LocalHeader(crc, size, nameLength);
    assert h[..14] == LocalPrefix();
    assert h[14..26] == U32(crc) + U32(size) + U32(size);
    assert h[26..] == U16(nameLength) + U16(0);
    assert h[14..18] == h[14..26][..4] == U32(crc);
    assert h[18..22] == h[14..26][4..8] == U32(size);
    assert h[22..26] == h[14..26][8..] == U32(size);
    assert h[26..28] == h[26..][..2] == U16(nameLength);
    assert h[28..30] == h[26..][2..] == U16(0);
    Get32OfU32(crc, h, 14);
    Get32OfU32(size, h, 18);
    Get32OfU32(size, h, 22);
    Get16OfU16(nameLength, h, 26);
    Get16OfU16(0, h, 28);
    assert forall k :: 0 <= k < 14 ==> h[k] == h[..14][k];
    hide U16, U32;
  }

  lemma ParseCentralHeader(crc: int, size: int, nameLength: int, offset: int)
    requires 0 <= crc < TWO_32 && 0 <= size < TWO_32 && 0 <= nameLength < TWO_16 && 0 <= offset < TWO_32
    ensures ParseCentral(CentralHeader(crc, size, nameLength, offset))
            == CentralFields(0x0201_4b50, 20, 20, 0, 0, 0, 0, crc, size, size, nameLength, 0, 0, 0, 0, 0, offset)
  {
    CentralPrefixBytes();
    hide CentralPrefix, CentralPadding;
    var h := CentralHeader(crc, size, nameLength, offset);
    assert h[..16] == CentralPrefix();
    assert h[16..28] == U32(crc) + U32(size) + U32(size);
    assert h[28..42] == U16(nameLength) + CentralPadding();
    assert h[16..20] == h[16..28][..4] == U32(crc);
    assert h[20..24] == h[16..28][4..8] == U32(size);
    assert h[24..28] == h[16..28][8..] == U32(size);
    assert h[28..30] == h[28..42][..2] == U16(nameLength);
    assert h[30..42] == h[28..42][2..] == CentralPadding();
    assert h[42..46] == U32(offset);
    Get32OfU32(crc, h, 16);
    Get32OfU32(size, h, 20);
    Get32OfU32(size, h, 24);
    Get16OfU16(nameLength, h, 28);
    Get32OfU32(offset, h, 42);
    assert forall k :: 0 <= k < 16 ==> h[k] == h[..16][k];
    assert forall k :: 0 <= k < 12 ==> h[30 + k] == h[30..42][k];
    hide U16, U32;
  }

  lemma ParseEndRecord(count: int, size: int, offset: int)
    requires 0 <= count < TWO_16 && 0 <= size < TWO_32 && 0 <= offset < TWO_32
    ensures ParseEnd(EndRecord(count, size, offset)) == EndFields(0x0605_4b50, 0, 0, count, count, size, offset, 0)
  {
    EndPrefixBytes();
    hide EndPrefix;
    var h := EndRecord(count, size, offset);
    assert h[..8] == EndPrefix();
    assert h[8..12] == U16(count) + U16(count);
    assert h[12..20] == U32(size) + U32(offset);
    assert h[8..10] == h[8..12][..2] == U16(count);
    assert h[10..12] == h[8..12][2..] == U16(count);
    assert h[12..16] == h[12..20][..4] == U32(size);
    assert h[16..20] == h[12..20][4..] == U32(offset);
    assert h[20..22] == h[20..] == U16(0);
    Get16OfU16(count, h, 8);
    Get16OfU16(count, h, 10);
    Get32OfU32(size, h, 12);
    Get32OfU32(offset, h, 16);
    Get16OfU16(0, h, 20);
    assert forall k :: 0 <= k < 8 ==> h[k] == h[..8][k];
    hide U16, U32;
  }

  lemma SliceOfSlice(archive: seq<byte>, at: nat, block: seq<byte>, from: nat, length: nat)
    requires at + |block| <= |archive| && archive[at..at + |block|] == block
    requires from + length <= |block|
    ensures Slice(archive, at + from, length) == Some(block[from..from + length])
  {
    var x, y := archive[at + from..at + from + length], block[from..from + length];
    forall k | 0 <= k < length ensures x[k] == y[k] {
      assert x[k] == archive[at + from + k] == archive[at..at + |block|][from + k];
    }
    assert x == y;
  }

  lemma ReadLocalAt(archive: seq<byte>, e: Entry, c: CentralFields)
    requires Fits(e) && c.crc == Crc(e) && c.stored == c.size == |e.bytes| && c.nameLength == |Name(e)|
    requires 0 <= c.offset && c.offset + |Local(e)| <= |archive|
    requires archive[c.offset..c.offset + |Local(e)|] == Local(e)
    ensures ReadLocal(archive, c) == Some((Name(e), e.bytes))
  {
    hide Local, LocalHeader, ParseLocal, Name, Crc;
    var name, size, local := Name(e), |e.bytes|, Local(e);
    ParseLocalHeader(Crc(e), size, |name|);
    LocalParts(e);
    SliceOfSlice(archive, c.offset, local, 0, 30);
    SliceOfSlice(archive, c.offset, local, 30, |name|);
    SliceOfSlice(archive, c.offset, local, 30 + |name|, size);
  }

  lemma LocalParts(e: Entry)
    requires Fits(e)
    ensures var l, n := Local(e), |Name(e)|;
            && |l| == 30 + n + |e.bytes|
            && l[0..30] == LocalHeader(Crc(e), |e.bytes|, n)
            && l[30..30 + n] == Name(e)
            && l[30 + n..30 + n + |e.bytes|] == e.bytes
  {
  }

  lemma CentralParts(e: Entry, offset: int)
    requires Fits(e) && 0 <= offset < TWO_32
    ensures var c, n := Central(e, offset), |Name(e)|;
            && |c| == 46 + n
            && c[0..46] == CentralHeader(Crc(e), |e.bytes|, n, offset)
            && c[46..46 + n] == Name(e)
  {
  }

  /** Where `e` sits in the archive, its local and central records are the bytes the reader needs. */
  lemma ReadMemberAt(archive: seq<byte>, e: Entry, at: nat, offset: nat)
    requires Fits(e) && offset < TWO_32
    requires at + |Central(e, offset)| <= |archive| && archive[at..at + |Central(e, offset)|] == Central(e, offset)
    requires offset + |Local(e)| <= |archive| && archive[offset..offset + |Local(e)|] == Local(e)
    ensures ReadMember(archive, at) == Some((MemberOf(e), at + |Central(e, offset)|))
  {
    hide Central, Local, ReadLocal, ParseCentral, CentralHeader;
    var n, central := |Name(e)|, Central(e, offset);
    ParseCentralHeader(Crc(e), |e.bytes|, n, offset);
    CentralParts(e, offset);
    SliceOfSlice(archive, at, central, 0, 46);
    SliceOfSlice(archive, at, central, 46, n);
    var fields := CentralFields(0x0201_4b50, 20, 20, 0, 0, 0, 0, Crc(e), |e.bytes|, |e.bytes|, n, 0, 0, 0, 0, 0, offset);
    ReadLocalAt(archive, e, fields);
    var header := CentralHeader(Crc(e), |e.bytes|, n, offset);
    assert Slice(archive, at, 46) == Some(header) && |header| == 46;
    assert Slice(archive, at + 46, n) == Some(Name(e));
    hide Slice, Fits, Name, Crc;
  }

  lemma {:induction false} LocalsConcat(a: seq<Entry>, b: seq<Entry>)
    requires forall e :: e in a + b ==> Fits(e)
    ensures (forall e :: e in a ==> Fits(e)) && (forall e :: e in b ==> Fits(e))
    ensures Locals(a + b) == Locals(a) + Locals(b)
  {
    assert forall e :: e in a ==> e in a + b;
    assert forall e :: e in b ==> e in a + b;
    if a == [] {
      assert a + b == b;
    } else {
      assert (a + b)[1..] == a[1..] + b;
      LocalsConcat(a[1..], b);
    }
  }

  lemma {:induction false} CentralsConcat(a: seq<Entry>, b: seq<Entry>, offset: nat)
    requires forall e :: e in a + b ==> Fits(e)
    requires offset + |Locals(a + b)| < TWO_32
    ensures (forall e :: e in a ==> Fits(e)) && (forall e :: e in b ==> Fits(e))
    ensures |Locals(a + b)| == |Locals(a)| + |Locals(b)|
    ensures Centrals(a + b, offset) == Centrals(a, offset) + Centrals(b, offset + |Locals(a)|)
    decreases |a|
  {
    hide Local, Central;
    LocalsConcat(a, b);
    if a == [] {
      assert a + b == b;
    } else {
      assert (a + b)[1..] == a[1..] + b;
      LocalsConcat(a[1..], b);
      CentralsConcat(a[1..], b, offset + |Local(a[0])|);
    }
  }

  /** The archive around entry `i`: what precedes and follows its two records. */
  lemma EntryInContext(entries: seq<Entry>, i: nat)
    requires i < |entries| && (forall e :: e in entries ==> Fits(e)) && |Locals(entries)| < TWO_32
    ensures (forall e :: e in entries[..i] ==> Fits(e)) && (forall e :: e in entries[i + 1..] ==> Fits(e))
    ensures var p, e, q := entries[..i], entries[i], entries[i + 1..];
            var offset := |Locals(p)|;
            && offset + |Local(e)| + |Locals(q)| < TWO_32
            && Locals(entries) == Locals(p) + (Local(e) + Locals(q))
            && Centrals(entries, 0) == Centrals(p, 0) + (Central(e, offset) + Centrals(q, offset + |Local(e)|))
  {
    hide Local, Central;
    assert entries == entries[..i] + entries[i..];
    CentralsConcat(entries[..i], entries[i..], 0);
    LocalsConcat(entries[..i], entries[i..]);
    assert entries[i..][1..] == entries[i + 1..];
  }

  /** The bytes in front of the end record. */
  function Body(entries: seq<Entry>): seq<byte>
    requires (forall e :: e in entries ==> Fits(e)) && |Locals(entries)| < TWO_32
  {
    Locals(entries) + Centrals(entries, 0)
  }

  /** Where the central record of entry `i` starts. */
  ghost function CentralAt(entries: seq<Entry>, i: nat): nat
    requires i <= |entries| && (forall e :: e in entries ==> Fits(e)) && |Locals(entries)| < TWO_32
  {
    assert entries == entries[..i] + entries[i..];
    LocalsConcat(entries[..i], entries[i..]);
    |Locals(entries)| + |Centrals(entries[..i], 0)|
  }

  lemma CentralAtStart(entries: seq<Entry>)
    requires (forall e :: e in entries ==> Fits(e)) && |Locals(entries)| < TWO_32
    ensures CentralAt(entries, 0) == |Locals(entries)|
  {
    assert entries[..0] == [];
  }

  lemma ReadEntry(entries: seq<Entry>, i: nat, end: seq<byte>)
    requires i < |entries| && (forall e :: e in entries ==> Fits(e)) && |Locals(entries)| < TWO_32
    ensures ReadMember(Body(entries) + end, CentralAt(entries, i))
            == Some((MemberOf(entries[i]), CentralAt(entries, i + 1)))
  {
    hide Local, Central, ReadMember, MemberOf, Locals, Centrals, Fits;
    EntryInContext(entries, i);
    var p, e, q := entries[..i], entries[i], entries[i + 1..];
    var offset := |Locals(p)|;
    var archive := Body(entries) + end;
    var centrals := Centrals(q, offset + |Local(e)|);
    MiddleSlice(Locals(p), Local(e), Locals(q) + Centrals(entries, 0) + end, archive);
    MiddleSlice(Locals(entries) + Centrals(p, 0), Central(e, offset), centrals + end, archive);
    ReadMemberAt(archive, e, CentralAt(entries, i), offset);
    assert entries[..i + 1] == p + [e];
    assert entries == entries[..i + 1] + entries[i + 1..];
    LocalsConcat(entries[..i + 1], entries[i + 1..]);
    EntryAppended(p, e);
  }

  lemma {:induction false} ReadMembersFrom(entries: seq<Entry>, i: nat, end: seq<byte>)
    requires i <= |entries| && (forall e :: e in entries ==> Fits(e)) && |Locals(entries)| < TWO_32
    ensures ReadMembers(Body(entries) + end, CentralAt(entries, i), |entries| - i) == Some(MembersOf(entries[i..]))
    decreases |entries| - i
  {
    hide ReadMember, MemberOf, Body, CentralAt, Locals, Centrals;
    if i < |entries| {
      ReadEntry(entries, i, end);
      ReadMembersFrom(entries, i + 1, end);
      assert entries[i..] == [entries[i]] + entries[i + 1..];
    }
  }

  lemma EntryAppended(p: seq<Entry>, e: Entry)
    requires (forall x :: x in p + [e] ==> Fits(x)) && |Locals(p + [e])| < TWO_32
    ensures (forall x :: x in p ==> Fits(x)) && |Locals(p)| < TWO_32 && Fits(e)
    ensures Centrals(p + [e], 0) == Centrals(p, 0) + Central(e, |Locals(p)|)
  {
    hide Local, Central, Fits;
    CentralsConcat(p, [e], 0);
    CentralsOfOne(e, |Locals(p)|);
    assert e in p + [e];
    hide Locals, Centrals;
  }

  lemma CentralsOfOne(e: Entry, offset: nat)
    requires Fits(e) && offset + |Locals([e])| < TWO_32
    ensures Centrals([e], offset) == Central(e, offset)
  {
    hide Local, Central, Fits;
    assert [e][1..] == [];
  }

  lemma MiddleSlice(a: seq<byte>, b: seq<byte>, c: seq<byte>, whole: seq<byte>)
    requires whole == a + b + c
    ensures whole[|a|..|a| + |b|] == b
  {
  }

  /**
   Whenever an archive is written, the reader recovers exactly the entries in path order, with
   their names, contents, sizes and checksums; entries of one path keep their order.
   */
  lemma RoundTrip(entries: seq<Entry>)
    requires Archive(entries).Ok?
    ensures ReadArchive(Archive(entries).value) == Some(MembersOf(StableSort(PathLe, entries)))
  {
    hide Locals, Centrals, EndRecord, ParseEnd, ReadMembers, MembersOf, Archive, StableSort, Bound, WithinLimits;
    SizePrediction(entries);
    ArchiveWhenAccepted(entries);
    var sorted := StableSort(PathLe, entries);
    SortedFacts(entries);
    var locals, centrals := Locals(sorted), Centrals(sorted, 0);
    var end := EndRecord(|entries|, |centrals|, |locals|);
    var archive := locals + centrals + end;
    ParseEndRecord(|entries|, |centrals|, |locals|);
    assert archive[|archive| - 22..] == end;
    ReadMembersFrom(sorted, 0, end);
    CentralAtStart(sorted);
    assert sorted[0..] == sorted;
  }

  lemma PathOrderIsTotal()
    ensures TotalOrder(PathLe)
  {
    forall a: Entry, b: Entry ensures PathLe(a, b) || PathLe(b, a) {
      LexTotal(Name(a), Name(b));
    }
    forall a: Entry, b: Entry, c: Entry | PathLe(a, b) && PathLe(b, c) ensures PathLe(a, c) {
      LexTransitive(Name(a), Name(b), Name(c));
    }
  }

  lemma PathsIncrease(sorted: seq<Entry>)
    requires Sorted(PathLe, sorted)
    ensures forall i, j :: 0 <= i < j < |sorted| ==> sorted[i].path == sorted[j].path || SmallerText(sorted[i].path, sorted[j].path)
  {
    hide SmallerText, TextLe;
    forall i, j | 0 <= i < j < |sorted| ensures sorted[i].path == sorted[j].path || SmallerText(sorted[i].path, sorted[j].path) {
      TextLeMeans(sorted[i].path, sorted[j].path);
    }
  }

  /** The order in which the reader finds the entries. */
  lemma ArchiveOrder(entries: seq<Entry>, path: string)
    ensures var sorted := StableSort(PathLe, entries);
            && multiset(sorted) == multiset(entries)
            && (forall i, j :: 0 <= i < j < |sorted| ==> sorted[i].path == sorted[j].path || SmallerText(sorted[i].path, sorted[j].path))
            && Select((e: Entry) => e.path == path, sorted) == Select((e: Entry) => e.path == path, entries)
  {
    PathOrderIsTotal();
    SortPermutes(PathLe, entries);
    SortSorted(PathLe, entries);
    PathsIncrease(StableSort(PathLe, entries));
    var p := (e: Entry) => e.path == path;
    var x := Entry(path, "", []);
    forall y: Entry ensures p(y) <==> PathLe(x, y) && PathLe(y, x) {
      LexTotal(Name(x), Name(x));
      if PathLe(x, y) && PathLe(y, x) {
        LexAntisymmetric(Name(x), Name(y));
        Utf8Injective(x.path, y.path);
      }
    }
    SortStable(PathLe, x, p, entries);
  }
}
