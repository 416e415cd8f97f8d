/** Reading the size of the binary out of the tail of a release zip: the backward search for the
    end-of-central-directory record and the walk over the directory (APPNOTE 4.3.12, 4.3.16). */
module ZipSize {
  import opened Wrappers
  import opened LittleEndian

  const SLASH: Byte := 0x2f
  const EOCD_SIGNATURE := 0x0605_4b50
  const ENTRY_SIGNATURE := 0x0201_4b50

  datatype ZipError = NoEocd | DirectoryNotInTail | NoFileEntry

  /** `subarray(from, to)`, which stops at the end of the buffer. */
  function Subarray(buf: Bytes, from: nat, to: nat): Bytes
    requires from <= |buf| && from <= to
  {
    buf[from..if to <= |buf| then to else |buf|]
  }

  /** A decoded UTF-8 name ends in `/` exactly when its last byte is 0x2f. */
  predicate EndsWithSlash(name: Bytes) {
    name != [] && name[|name| - 1] == SLASH
  }

  predicate IsEocd(buf: Bytes, i: nat) {
    i + 22 <= |buf| && U32(buf, i) == EOCD_SIGNATURE
  }

  /** The size after walking entries from `p` on, as far as they go before `eocd`. */
  function Walk(buf: Bytes, eocd: nat, p: nat, size: nat): nat
    requires eocd <= |buf|
    decreases |buf| - p
  {
    if p + 46 <= eocd && U32(buf, p) == ENTRY_SIGNATURE then
      var uncompressed := U32(buf, p + 24);
      var nameLen := U16(buf, p + 28);
      var name := Subarray(buf, p + 46, p + 46 + nameLen);
      var next := if !EndsWithSlash(name) && uncompressed > size then uncompressed else size;
      Walk(buf, eocd, p + 46 + nameLen + U16(buf, p + 30) + U16(buf, p + 32), next)
    else size
  }

  /** The last place a signature stands, no further from the end than a comment can be long. */
  ghost predicate LastEocd(buf: Bytes, eocd: nat) {
    |buf| - 22 - 65535 <= eocd && IsEocd(buf, eocd) && forall i: nat :: eocd < i ==> !IsEocd(buf, i)
  }

  /** How many of the archive's bytes precede the fetched tail. */
  function Skipped(total: nat): nat {
    if total > 65536 then total - 65536 else 0
  }

  function SizeAt(buf: Bytes, total: nat, eocd: nat): Result<nat, ZipError>
    requires IsEocd(buf, eocd)
  {
    var p := U32(buf, eocd + 16) - Skipped(total);
    if p < 0 then Err(DirectoryNotInTail)
    else if Walk(buf, eocd, p, 0) == 0 then Err(NoFileEntry)
    else Ok(Walk(buf, eocd, p, 0))
  }

  method FindEocd(buf: Bytes) returns (eocd: int)
    ensures eocd >= 0 ==> LastEocd(buf, eocd)
    ensures eocd < 0 ==> forall i: nat :: |buf| - 22 - 65535 <= i ==> !IsEocd(buf, i)
  {
    eocd := -1;
    var i := |buf| - 22;
    var first := if |buf| - 22 - 65535 > 0 then |buf| - 22 - 65535 else 0;
    while i >= first
      invariant i <= |buf| - 22 && eocd == -1
      invariant i < first ==> i == first - 1 || i == |buf| - 22
      invariant forall k: nat :: i < k ==> !IsEocd(buf, k)
    {
      if U32(buf, i) == EOCD_SIGNATURE {
        assert IsEocd(buf, i);
        eocd := i;
        break;
      }
      i := i - 1;
    }
  }

  lemma NoLastEocd(buf: Bytes)
    requires forall i: nat :: |buf| - 22 - 65535 <= i ==> !IsEocd(buf, i)
    ensures forall eocd: nat :: !LastEocd(buf, eocd)
  {
  }

  lemma RoomForEnd(buf: Bytes, eocd: nat)
    requires IsEocd(buf, eocd)
    ensures eocd + 22 <= |buf|
  {
  }

  lemma OneLastEocd(buf: Bytes, a: nat, b: nat)
    requires LastEocd(buf, a)
    ensures IsEocd(buf, a) && (LastEocd(buf, b) ==> a == b)
  {
  }

  /** For any buffer and any total, every read is in bounds and the walk ends. */
  method ZipBinarySize(buf: Bytes, total: nat) returns (r: Result<nat, ZipError>)
    ensures (forall i: nat :: |buf| - 22 - 65535 <= i ==> !IsEocd(buf, i)) ==> r == Err(NoEocd)
    ensures forall eocd: nat :: LastEocd(buf, eocd) ==> r == SizeAt(buf, total, eocd)
  {
    hide Walk, U32, IsEocd, LastEocd;
    var tail := if total < 65536 then total else 65536;
    var eocd := FindEocd(buf);
    if eocd < 0 {
      NoLastEocd(buf);
      return Err(NoEocd);
    }
    forall other: nat | LastEocd(buf, other)
      ensures other == eocd
    {
      OneLastEocd(buf, eocd, other);
    }
    OneLastEocd(buf, eocd, eocd);
    RoomForEnd(buf, eocd);
    var p := U32(buf, eocd + 16) - (total - tail);
    if p < 0 {
      return Err(DirectoryNotInTail);
    }
    var size := WalkDirectory(buf, eocd, p);
    if size == 0 {
      return Err(NoFileEntry);
    }
    return Ok(size);
  }

  method WalkDirectory(buf: Bytes, eocd: nat, start: nat) returns (size: nat)
    requires eocd <= |buf|
    ensures size == Walk(buf, eocd, start, 0)
  {
    size := 0;
    var p := start;
    while p + 46 <= eocd && U32(buf, p) == ENTRY_SIGNATURE
      invariant Walk(buf, eocd, p, size) == Walk(buf, eocd, start, 0)
      decreases eocd - p
    {
      hide U16, U32, EndsWithSlash;
      var uncompressed := U32(buf, p + 24);
      var nameLen := U16(buf, p + 28);
      var name := Subarray(buf, p + 46, p + 46 + nameLen);
      if !EndsWithSlash(name) && uncompressed > size {
        size := uncompressed;
      }
      p := p + 46 + nameLen + U16(buf, p + 30) + U16(buf, p + 32);
    }
  }

  // ----- The format's encoder -----

  /** A central-directory entry; `versions` are the 20 bytes from the version fields to the
      compressed size, `attributes` the 12 from the disk number to the local header's offset. */
  datatype Entry = Entry(
    versions: Bytes, uncompressed: nat, attributes: Bytes, name: Bytes, extra: Bytes, comment: Bytes)
  {
    predicate Valid() {
      && |versions| == 20 && |attributes| == 12 && uncompressed < 0x1_0000_0000
      && |name| < 0x1_0000 && |extra| < 0x1_0000 && |comment| < 0x1_0000
    }
  }

  function Header(e: Entry): (b: Bytes)
    requires e.Valid()
    ensures |b| == 46
  {
    Le32(ENTRY_SIGNATURE) + e.versions + Le32(e.uncompressed)
    + Le16(|e.name|) + Le16(|e.extra|) + Le16(|e.comment|) + e.attributes
  }

  function EncodeEntry(e: Entry): Bytes
    requires e.Valid()
  {
    Header(e) + e.name + e.extra + e.comment
  }

  ghost predicate ValidEntries(entries: seq<Entry>) {
    forall k :: 0 <= k < |entries| ==> entries[k].Valid()
  }

  function EncodeEntries(entries: seq<Entry>): Bytes
    requires ValidEntries(entries)
  {
    if entries == [] then [] else EncodeEntry(entries[0]) + EncodeEntries(entries[1..])
  }

  /** The end record; `counts` are the 12 bytes of disk numbers, entry counts and directory size. */
  function EndRecord(counts: Bytes, offset: nat, comment: Bytes): (b: Bytes)
    requires |counts| == 12 && offset < 0x1_0000_0000 && |comment| < 0x1_0000
    ensures |b| == 22 + |comment|
  {
    Le32(EOCD_SIGNATURE) + counts + Le32(offset) + Le16(|comment|) + comment
  }

  /** A directory's name ends in `/`. */
  ghost predicate IsDirectory(e: Entry) {
    exists stem: Bytes :: e.name == stem + [0x2f]
  }

  lemma SlashIsDirectory(e: Entry)
    ensures EndsWithSlash(e.name) <==> IsDirectory(e)
  {
    if EndsWithSlash(e.name) {
      assert e.name == e.name[..|e.name| - 1] + [0x2f];
    }
  }

  /** The largest uncompressed size among the entries that are not directories. */
  ghost function LargestFile(entries: seq<Entry>): (size: nat)
    ensures forall k :: 0 <= k < |entries| && !IsDirectory(entries[k]) ==> entries[k].uncompressed <= size
    ensures size > 0 ==>
      exists k :: 0 <= k < |entries| && !IsDirectory(entries[k]) && entries[k].uncompressed == size
  {
    if entries == [] then 0
    else
      var rest := LargestFile(entries[1..]);
      if !IsDirectory(entries[0]) && entries[0].uncompressed > rest then entries[0].uncompressed else rest
  }

  lemma HeaderFields(e: Entry)
    requires e.Valid()
    ensures var h := Header(e);
      && U32(h, 0) == ENTRY_SIGNATURE && U32(h, 24) == e.uncompressed
      && U16(h, 28) == |e.name| && U16(h, 30) == |e.extra| && U16(h, 32) == |e.comment|
  {
    var h := Header(e);
    assert h[0..4] == Le32(ENTRY_SIGNATURE);
    U32At(h, 0, 0, Le32(ENTRY_SIGNATURE));
    assert h[24..28] == Le32(e.uncompressed);
    U32At(h, 24, 0, Le32(e.uncompressed));
    assert h[28..30] == Le16(|e.name|);
    U16At(h, 28, 0, Le16(|e.name|));
    assert h[30..32] == Le16(|e.extra|);
    U16At(h, 30, 0, Le16(|e.extra|));
    assert h[32..34] == Le16(|e.comment|);
    U16At(h, 32, 0, Le16(|e.comment|));
  }

  lemma EntryParts(e: Entry)
    requires e.Valid()
    ensures var s := EncodeEntry(e);
      && |s| == 46 + |e.name| + |e.extra| + |e.comment|
      && s[0..46] == Header(e) && s[46..46 + |e.name|] == e.name
  {
    hide Header;
  }

  lemma PartOf(buf: Bytes, p: nat, s: Bytes, from: nat, to: nat)
    requires p + |s| <= |buf| && buf[p..p + |s|] == s && from <= to <= |s|
    ensures buf[p + from..p + to] == s[from..to]
  {
    forall k | 0 <= k < to - from
      ensures buf[p + from..p + to][k] == s[from..to][k]
    {
      assert buf[p..p + |s|][from + k] == s[from + k];
    }
  }

  /** The walk's reads at an encoded entry give its fields. */
  lemma ReadEntry(buf: Bytes, p: nat, e: Entry)
    requires e.Valid() && p + |EncodeEntry(e)| <= |buf| && buf[p..p + |EncodeEntry(e)|] == EncodeEntry(e)
    ensures |EncodeEntry(e)| == 46 + |e.name| + |e.extra| + |e.comment|
    ensures U32(buf, p) == ENTRY_SIGNATURE && U32(buf, p + 24) == e.uncompressed
    ensures U16(buf, p + 28) == |e.name| && U16(buf, p + 30) == |e.extra| && U16(buf, p + 32) == |e.comment|
    ensures Subarray(buf, p + 46, p + 46 + |e.name|) == e.name
  {
    hide U16, U32, Header;
    var h, s := Header(e), EncodeEntry(e);
    EntryParts(e);
    PartOf(buf, p, s, 0, 46);
    PartOf(buf, p, s, 46, 46 + |e.name|);
    HeaderFields(e);
    U32At(buf, p, 0, h);
    U32At(buf, p, 24, h);
    U16At(buf, p, 28, h);
    U16At(buf, p, 30, h);
    U16At(buf, p, 32, h);
  }

  /** No further entry stands at `q`: too few bytes are left before the end record, or others. */
  predicate NoEntryAt(buf: Bytes, eocd: nat, q: nat)
    requires eocd <= |buf|
  {
    q + 46 > eocd || U32(buf, q) != ENTRY_SIGNATURE
  }

  /** Walking an encoded directory, whatever follows it but another entry, finds its largest file. */
  lemma {:induction false} WalkEncoded(buf: Bytes, eocd: nat, p: nat, size: nat, entries: seq<Entry>)
    requires ValidEntries(entries) && eocd <= |buf|
    requires var q := p + |EncodeEntries(entries)|;
      q <= eocd && buf[p..q] == EncodeEntries(entries) && NoEntryAt(buf, eocd, q)
    ensures Walk(buf, eocd, p, size) == if LargestFile(entries) > size then LargestFile(entries) else size
    decreases |entries|
  {
    hide U16, U32, EncodeEntry, EndsWithSlash, IsDirectory, Subarray;
    if entries != [] {
      var e, rest := entries[0], EncodeEntries(entries[1..]);
      var s := EncodeEntry(e);
      var q := p + |s|;
      var end := q + |rest|;
      assert buf[p..q] == buf[p..end][..|s|] == s;
      assert buf[q..end] == buf[p..end][|s|..] == rest;
      ReadEntry(buf, p, e);
      SlashIsDirectory(e);
      var next := if !EndsWithSlash(e.name) && e.uncompressed > size then e.uncompressed else size;
      assert Walk(buf, eocd, p, size) == Walk(buf, eocd, q, next);
      WalkEncoded(buf, eocd, q, next, entries[1..]);
    }
  }

  /** A tail that holds the whole directory, from `start` on, and then an end record that names its place in
      the archive: the answer is the largest file's size, or that there is no file. Between the two other
      records may stand, and the comment must not hide a later signature, which an empty one cannot. */
  lemma TailGivesLargestFile(
    buf: Bytes, start: nat, entries: seq<Entry>, between: Bytes, counts: Bytes, comment: Bytes, total: nat)
    requires ValidEntries(entries) && |counts| == 12 && |comment| < 0x1_0000
    requires Skipped(total) + start < 0x1_0000_0000
    requires |between| < 46 || U32(between, 0) != ENTRY_SIGNATURE
    requires start <= |buf|
    requires buf[start..] == EncodeEntries(entries) + between + EndRecord(counts, Skipped(total) + start, comment)
    requires var eocd := start + |EncodeEntries(entries)| + |between|; forall i: nat :: eocd < i ==> !IsEocd(buf, i)
    ensures var eocd := start + |EncodeEntries(entries)| + |between|;
      && LastEocd(buf, eocd)
      && SizeAt(buf, total, eocd) == if LargestFile(entries) == 0 then Err(NoFileEntry) else Ok(LargestFile(entries))
  {
    hide U16, U32, LargestFile, EndRecord, EncodeEntries, Walk;
    var directory, end := EncodeEntries(entries), EndRecord(counts, Skipped(total) + start, comment);
    var q := start + |directory|;
    var eocd := q + |between|;
    TailParts(buf, start, directory, between, end);
    EndFields(counts, Skipped(total) + start, comment);
    U32At(buf, eocd, 0, end);
    U32At(buf, eocd, 16, end);
    if |between| >= 46 {
      U32At(buf, q, 0, between);
    }
    WalkEncoded(buf, eocd, start, 0, entries);
  }

  lemma TailParts(buf: Bytes, start: nat, a: Bytes, b: Bytes, c: Bytes)
    requires start <= |buf| && buf[start..] == a + b + c
    ensures |buf| == start + |a| + |b| + |c|
    ensures buf[start..start + |a|] == a && buf[start + |a|..start + |a| + |b|] == b
    ensures buf[start + |a| + |b|..start + |a| + |b| + |c|] == c
  {
    assert buf[start..start + |a|] == buf[start..][..|a|];
    assert buf[start + |a|..start + |a| + |b|] == buf[start..][|a|..|a| + |b|];
    assert buf[start + |a| + |b|..start + |a| + |b| + |c|] == buf[start..][|a| + |b|..];
  }

  lemma EndFields(counts: Bytes, offset: nat, comment: Bytes)
    requires |counts| == 12 && offset < 0x1_0000_0000 && |comment| < 0x1_0000
    ensures var end := EndRecord(counts, offset, comment); U32(end, 0) == EOCD_SIGNATURE && U32(end, 16) == offset
  {
    var end := EndRecord(counts, offset, comment);
    assert end[0..4] == Le32(EOCD_SIGNATURE);
    U32At(end, 0, 0, Le32(EOCD_SIGNATURE));
    assert end[16..20] == Le32(offset);
    U32At(end, 16, 0, Le32(offset));
  }

  /** The last 64 KB of an archive, or all of it. */
  function Tail(archive: Bytes): (tail: Bytes)
    ensures |tail| <= |archive|
  {
    if |archive| <= 65536 then archive else archive[|archive| - 65536..]
  }

  /** From a whole archive, its directory behind the files' data `front`: the answer for its tail is that no
      directory is in it if it begins before the tail, and otherwise the largest file's size or that there is
      no file. */
  lemma ArchiveGivesLargestFile(
    archive: Bytes, front: Bytes, entries: seq<Entry>, between: Bytes, counts: Bytes, comment: Bytes)
    requires ValidEntries(entries) && |counts| == 12 && |comment| < 0x1_0000 && |front| < 0x1_0000_0000
    requires |between| < 46 || U32(between, 0) != ENTRY_SIGNATURE
    requires archive == front + (EncodeEntries(entries) + between + EndRecord(counts, |front|, comment))
    requires 22 + |comment| <= 65536
    requires forall i: nat :: |Tail(archive)| - 22 - |comment| < i ==> !IsEocd(Tail(archive), i)
    ensures var eocd := |Tail(archive)| - 22 - |comment|;
      && eocd >= 0 && LastEocd(Tail(archive), eocd)
      && SizeAt(Tail(archive), |archive|, eocd)
         == if |front| < |archive| - |Tail(archive)| then Err(DirectoryNotInTail)
            else if LargestFile(entries) == 0 then Err(NoFileEntry)
            else Ok(LargestFile(entries))
  {
    hide *;
    var cut := |archive| - |Tail(archive)|;
    var directory, end := EncodeEntries(entries), EndRecord(counts, |front|, comment);
    CutIsSkipped(archive);
    if |front| < cut {
      DirectoryCutOff(archive, |front|, directory + between, counts, comment, front);
    } else {
      Behind(archive, Tail(archive), front, directory + between + end);
      TailGivesLargestFile(Tail(archive), |front| - cut, entries, between, counts, comment, |archive|);
      assert |Tail(archive)| - |end| == |front| - cut + |directory| + |between|;
    }
  }

  /** What stands behind `front` in a whole, seen from a part that ends with it. */
  lemma Behind(whole: Bytes, part: Bytes, front: Bytes, rest: Bytes)
    requires whole == front + rest && |part| <= |whole| && whole[|whole| - |part|..] == part
    requires |front| >= |whole| - |part|
    ensures |part| == |front| - (|whole| - |part|) + |rest|
    ensures part[|front| - (|whole| - |part|)..] == rest
  {
    var cut := |whole| - |part|;
    assert part[|front| - cut..] == whole[cut..][|front| - cut..] == whole[|front|..];
  }

  lemma CutIsSkipped(archive: Bytes)
    ensures Skipped(|archive|) == |archive| - |Tail(archive)|
    ensures archive[|archive| - |Tail(archive)|..] == Tail(archive)
  {
  }

  lemma DirectoryCutOff(archive: Bytes, offset: nat, middle: Bytes, counts: Bytes, comment: Bytes, front: Bytes)
    requires |counts| == 12 && |comment| < 0x1_0000 && offset < 0x1_0000_0000 && 22 + |comment| <= 65536
    requires archive == front + (middle + EndRecord(counts, offset, comment))
    requires offset < |archive| - |Tail(archive)|
    requires forall i: nat :: |Tail(archive)| - 22 - |comment| < i ==> !IsEocd(Tail(archive), i)
    ensures var eocd := |Tail(archive)| - 22 - |comment|;
      && eocd >= 0 && LastEocd(Tail(archive), eocd)
      && SizeAt(Tail(archive), |archive|, eocd) == Err(DirectoryNotInTail)
  {
    hide U16, U32, EndRecord, Walk, IsEocd, Tail;
    var tail, end := Tail(archive), EndRecord(counts, offset, comment);
    var cut, eocd := |archive| - |tail|, |tail| - |end|;
    CutIsSkipped(archive);
    assert archive == front + middle + end;
    assert archive[|archive| - |end|..] == end;
    assert tail[eocd..] == archive[cut..][eocd..] == archive[|archive| - |end|..];
    assert tail[eocd..eocd + |end|] == end;
    EndFields(counts, offset, comment);
    U32At(tail, eocd, 0, end);
    U32At(tail, eocd, 16, end);
    EndStands(tail, eocd);
  }

  lemma EndStands(buf: Bytes, eocd: nat)
    requires eocd + 22 <= |buf| && U32(buf, eocd) == EOCD_SIGNATURE
    ensures IsEocd(buf, eocd)
  {
  }
}
