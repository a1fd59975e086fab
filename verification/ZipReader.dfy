/**
 * A reader that trusts only the end record and the central directory, as an unpacker does, and
 * checks every local header and data descriptor against them. What the writer wrote, it reads back.
 */
module ZipReader {
  import opened Outcomes
  import opened Crc32
  import opened LittleEndian
  import opened ZipLayout
  import opened ZipWriter

  /** A signature, the flags the diagnostics writer uses, and "stored": what both headers share. */
  predicate Marked(file: seq<byte>, pos: nat, signature: nat, flagsAt: nat) {
    && flagsAt >= pos && pos + 4 <= |file| && flagsAt + 4 <= |file|
    && U32At(file, pos) == signature && U16At(file, flagsAt) == FLAGS && U16At(file, flagsAt + 2) == 0
  }

  /** The central record at `pos` and the position after it. */
  function ReadCentral(file: seq<byte>, end: nat, pos: nat): Option<(CentralEntry, nat)>
    requires end <= |file|
  {
    if pos + 46 > end || !Marked(file, pos, CENTRAL_SIGNATURE, pos + 8) then None else
    var nameEnd := pos + 46 + U16At(file, pos + 28);
    var next := nameEnd + U16At(file, pos + 30) + U16At(file, pos + 32);
    if next > end || U32At(file, pos + 20) != U32At(file, pos + 24) then None else
    Some((CentralEntry(file[pos + 16..pos + 20], U32At(file, pos + 42), file[pos + 46..nameEnd],
      U32At(file, pos + 24)), next))
  }

  /** The member a central record names; its local header, descriptor and data must agree with it. */
  function ReadLocal(file: seq<byte>, limit: nat, c: CentralEntry): Option<Stored>
    requires limit <= |file|
  {
    var pos := c.localOffset;
    if pos + 30 > limit || !Marked(file, pos, LOCAL_SIGNATURE, pos + 6) then None else
    var nameEnd := pos + 30 + U16At(file, pos + 26);
    var dataAt := nameEnd + U16At(file, pos + 28);
    var after := dataAt + c.size;
    if after + 16 > limit || file[pos + 30..nameEnd] != c.name || !DescriptorMatches(file, after, c) then None
    else Some(Stored(c.name, file[dataAt..after], c.crc))
  }

  predicate DescriptorMatches(file: seq<byte>, pos: nat, c: CentralEntry)
    requires pos + 16 <= |file|
  {
    && U32At(file, pos) == DESCRIPTOR_SIGNATURE && file[pos + 4..pos + 8] == c.crc
    && U32At(file, pos + 8) == c.size && U32At(file, pos + 12) == c.size
  }

  /** `count` records one after another from `pos` to exactly `end`, each leading to a member. */
  function ReadAll<C, M>(record: nat -> Option<(C, nat)>, member: C -> Option<M>, pos: nat, end: nat, count: nat):
    Option<seq<M>>
    decreases count
  {
    if count == 0 then
      if pos == end then Some([]) else None
    else
      match record(pos)
      case None => None
      case Some((c, next)) =>
        var first, rest := member(c), ReadAll(record, member, next, end, count - 1);
        if first.Some? && rest.Some? then Some([first.value] + rest.value) else None
  }

  function ReadMembers(file: seq<byte>, offset: nat, end: nat, count: nat): Option<seq<Stored>>
    requires offset <= end <= |file|
  {
    ReadAll(pos => ReadCentral(file, end, pos), c => ReadLocal(file, offset, c), offset, end, count)
  }

  /** The end record stands at the very end, with no comment, right after the central directory. */
  function ReadEnd(file: seq<byte>): (r: Option<(nat, nat)>)
    ensures r.Some? ==> r.value.1 + 22 <= |file|
  {
    if |file| < 22 then None else
    var end := |file| - 22;
    var count, size, offset := U16At(file, end + 10), U32At(file, end + 12), U32At(file, end + 16);
    if U32At(file, end) != END_SIGNATURE || U16At(file, end + 8) != count
      || U16At(file, end + 20) != 0 || offset + size != end
    then None
    else Some((count, offset))
  }

  function ReadStored(file: seq<byte>): Option<seq<Stored>> {
    match ReadEnd(file)
    case None => None
    case Some((count, offset)) => ReadMembers(file, offset, |file| - 22, count)
  }

  /** Every member's data has the CRC the archive records for it. */
  ghost predicate ChecksumsMatch(members: seq<Stored>) {
    forall m | m in members :: m.crc == LeWord(Crc(m.data))
  }

  /** The members of a file whose structure and checksums are both sound. */
  ghost function ReadZip(file: seq<byte>): Option<seq<Stored>> {
    var members := ReadStored(file);
    if members.Some? && ChecksumsMatch(members.value) then members else None
  }

  // ---- Fields ------------------------------------------------------------------------------

  lemma ReadZeros(file: seq<byte>, pos: nat, gap: nat, k: nat)
    requires Holds(file, pos, Zeros(gap)) && k + 2 <= gap
    ensures U16At(file, pos + k) == 0
  {
    HeldByte(file, pos, Zeros(gap), k);
    HeldByte(file, pos, Zeros(gap), k + 1);
  }

  lemma LocalHeaderFields(file: seq<byte>, pos: nat, nameLength: nat)
    requires Holds(file, pos, LocalHeader(nameLength)) && nameLength < ZIP16_LIMIT
    ensures Marked(file, pos, LOCAL_SIGNATURE, pos + 6)
    ensures U16At(file, pos + 26) == nameLength && U16At(file, pos + 28) == 0
  {
    var r4 := U16(nameLength) + Zeros(2);
    var r3 := Zeros(18) + r4;
    var r2 := U16(FLAGS) + r3;
    var r1 := U16(VERSION) + r2;
    HoldsSplit(file, pos, U32(LOCAL_SIGNATURE), r1);
    HoldsSplit(file, pos + 4, U16(VERSION), r2);
    HoldsSplit(file, pos + 6, U16(FLAGS), r3);
    HoldsSplit(file, pos + 8, Zeros(18), r4);
    HoldsSplit(file, pos + 26, U16(nameLength), Zeros(2));
    ReadU32(file, pos, LOCAL_SIGNATURE);
    ReadU16(file, pos + 6, FLAGS);
    ReadZeros(file, pos + 8, 18, 0);
    ReadU16(file, pos + 26, nameLength);
    ReadZeros(file, pos + 28, 2, 0);
  }

  lemma DescriptorFields(file: seq<byte>, pos: nat, crc: Word, size: nat)
    requires Holds(file, pos, Descriptor(crc, size)) && size < ZIP32_LIMIT
    ensures U32At(file, pos) == DESCRIPTOR_SIGNATURE && file[pos + 4..pos + 8] == crc
    ensures U32At(file, pos + 8) == size && U32At(file, pos + 12) == size
  {
    var r2 := U32(size) + U32(size);
    HoldsSplit(file, pos, U32(DESCRIPTOR_SIGNATURE), crc + r2);
    HoldsSplit(file, pos + 4, crc, r2);
    HoldsSplit(file, pos + 8, U32(size), U32(size));
    ReadU32(file, pos, DESCRIPTOR_SIGNATURE);
    ReadU32(file, pos + 8, size);
    ReadU32(file, pos + 12, size);
  }

  lemma CentralHeaderSplit(
    file: seq<byte>, pos: nat, a: seq<byte>, b: seq<byte>, c: seq<byte>, d: seq<byte>, e: seq<byte>, f: seq<byte>,
    g: seq<byte>, h: seq<byte>, i: seq<byte>, j: seq<byte>, k: seq<byte>)
    requires |a| == 4 && |b| == 2 && |c| == 2 && |d| == 2 && |e| == 6 && |f| == 4 && |g| == 4 && |h| == 4 &&
      |i| == 2 && |j| == 12
    requires Holds(file, pos, a + (b + (c + (d + (e + (f + (g + (h + (i + (j + k))))))))))
    ensures Holds(file, pos, a) && Holds(file, pos + 8, d) && Holds(file, pos + 10, e) && Holds(file, pos + 16, f)
    ensures Holds(file, pos + 20, g) && Holds(file, pos + 24, h) && Holds(file, pos + 28, i) && Holds(file, pos + 30, j)
    ensures Holds(file, pos + 42, k)
  {
    var r9 := j + k;
    var r8 := i + r9;
    var r7 := h + r8;
    var r6 := g + r7;
    var r5 := f + r6;
    var r4 := e + r5;
    var r3 := d + r4;
    var r2 := c + r3;
    HoldsSplit(file, pos, a, b + r2);
    HoldsSplit(file, pos + 4, b, r2);
    HoldsSplit(file, pos + 6, c, r3);
    HoldsSplit(file, pos + 8, d, r4);
    HoldsSplit(file, pos + 10, e, r5);
    HoldsSplit(file, pos + 16, f, r6);
    HoldsSplit(file, pos + 20, g, r7);
    HoldsSplit(file, pos + 24, h, r8);
    HoldsSplit(file, pos + 28, i, r9);
    HoldsSplit(file, pos + 30, j, k);
  }

  lemma CentralHeaderFields(file: seq<byte>, pos: nat, crc: Word, size: nat, nameLength: nat, offset: nat)
    requires Holds(file, pos, CentralHeader(crc, size, nameLength, offset))
    requires size < ZIP32_LIMIT && nameLength < ZIP16_LIMIT && offset < ZIP32_LIMIT
    ensures Marked(file, pos, CENTRAL_SIGNATURE, pos + 8) && file[pos + 16..pos + 20] == crc
    ensures U32At(file, pos + 20) == size && U32At(file, pos + 24) == size && U16At(file, pos + 28) == nameLength
    ensures U16At(file, pos + 30) == 0 && U16At(file, pos + 32) == 0 && U32At(file, pos + 42) == offset
  {
    CentralHeaderSplit(file, pos, U32(CENTRAL_SIGNATURE), U16(VERSION), U16(VERSION), U16(FLAGS), Zeros(6), crc,
      U32(size), U32(size), U16(nameLength), Zeros(12), U32(offset));
    ReadU32(file, pos, CENTRAL_SIGNATURE);
    ReadU16(file, pos + 8, FLAGS);
    ReadZeros(file, pos + 10, 6, 0);
    ReadU32(file, pos + 20, size);
    ReadU32(file, pos + 24, size);
    ReadU16(file, pos + 28, nameLength);
    ReadZeros(file, pos + 30, 12, 0);
    ReadZeros(file, pos + 30, 12, 2);
    ReadU32(file, pos + 42, offset);
  }

  lemma EndRecordFields(file: seq<byte>, pos: nat, count: nat, centralSize: nat, centralOffset: nat)
    requires Holds(file, pos, EndRecord(count, centralSize, centralOffset))
    requires count < ZIP16_LIMIT && centralSize < ZIP32_LIMIT && centralOffset < ZIP32_LIMIT
    ensures U32At(file, pos) == END_SIGNATURE && U16At(file, pos + 8) == count && U16At(file, pos + 10) == count
    ensures U32At(file, pos + 12) == centralSize && U32At(file, pos + 16) == centralOffset && U16At(file, pos + 20) == 0
  {
    var r5 := U32(centralOffset) + Zeros(2);
    var r4 := U32(centralSize) + r5;
    var r3 := U16(count) + r4;
    var r2 := U16(count) + r3;
    HoldsSplit(file, pos, U32(END_SIGNATURE), Zeros(4) + r2);
    HoldsSplit(file, pos + 4, Zeros(4), r2);
    HoldsSplit(file, pos + 8, U16(count), r3);
    HoldsSplit(file, pos + 10, U16(count), r4);
    HoldsSplit(file, pos + 12, U32(centralSize), r5);
    HoldsSplit(file, pos + 16, U32(centralOffset), Zeros(2));
    ReadU32(file, pos, END_SIGNATURE);
    ReadU16(file, pos + 8, count);
    ReadU16(file, pos + 10, count);
    ReadU32(file, pos + 12, centralSize);
    ReadU32(file, pos + 16, centralOffset);
    ReadZeros(file, pos + 20, 2, 0);
  }

  // ---- Records -----------------------------------------------------------------------------

  lemma CentralReadsBack(file: seq<byte>, end: nat, pos: nat, c: CentralEntry)
    requires CentralFits(c) && Holds(file, pos, CentralRecord(c)) && pos + |CentralRecord(c)| <= end <= |file|
    ensures ReadCentral(file, end, pos) == Some((c, pos + |CentralRecord(c)|))
  {
    HoldsSplit(file, pos, CentralHeader(c.crc, c.size, |c.name|, c.localOffset), c.name);
    CentralHeaderFields(file, pos, c.crc, c.size, |c.name|, c.localOffset);
  }

  lemma LocalMatches(file: seq<byte>, limit: nat, c: CentralEntry, nameEnd: nat, after: nat)
    requires nameEnd == c.localOffset + 30 + |c.name| && after == nameEnd + c.size && after + 16 <= limit <= |file|
    requires Marked(file, c.localOffset, LOCAL_SIGNATURE, c.localOffset + 6)
    requires U16At(file, c.localOffset + 26) == |c.name| && U16At(file, c.localOffset + 28) == 0
    requires file[c.localOffset + 30..nameEnd] == c.name
    requires DescriptorMatches(file, after, c)
    ensures ReadLocal(file, limit, c) == Some(Stored(c.name, file[nameEnd..after], c.crc))
  {
  }

  lemma LocalSplit(
    file: seq<byte>, pos: nat, header: seq<byte>, name: seq<byte>, data: seq<byte>, descriptor: seq<byte>)
    requires Holds(file, pos, header + (name + (data + descriptor)))
    ensures Holds(file, pos, header) && Holds(file, pos + |header|, name)
    ensures Holds(file, pos + |header| + |name|, data) && Holds(file, pos + |header| + |name| + |data|, descriptor)
  {
    HoldsSplit(file, pos, header, name + (data + descriptor));
    HoldsSplit(file, pos + |header|, name, data + descriptor);
    HoldsSplit(file, pos + |header| + |name|, data, descriptor);
  }

  lemma LocalParts(file: seq<byte>, pos: nat, s: Stored, nameEnd: nat, after: nat)
    requires Holds(file, pos, LocalRecord(s)) && nameEnd == pos + 30 + |s.name| && after == nameEnd + |s.data|
    ensures Holds(file, pos, LocalHeader(|s.name|)) && Holds(file, pos + 30, s.name)
    ensures Holds(file, nameEnd, s.data) && Holds(file, after, Descriptor(s.crc, |s.data|))
  {
    LocalSplit(file, pos, LocalHeader(|s.name|), s.name, s.data, Descriptor(s.crc, |s.data|));
  }

  lemma LocalReadsBack(file: seq<byte>, limit: nat, pos: nat, s: Stored)
    requires Holds(file, pos, LocalRecord(s)) && pos + |LocalRecord(s)| <= limit <= |file|
    requires |s.name| < ZIP16_LIMIT && |s.data| < ZIP32_LIMIT
    ensures ReadLocal(file, limit, CentralOf(s, pos)) == Some(s)
  {
    var nameEnd := pos + 30 + |s.name|;
    var after := nameEnd + |s.data|;
    LocalRecordLength(s);
    LocalParts(file, pos, s, nameEnd, after);
    PartsReadBack(file, limit, pos, s, nameEnd, after);
  }

  lemma PartsReadBack(file: seq<byte>, limit: nat, pos: nat, s: Stored, nameEnd: nat, after: nat)
    requires nameEnd == pos + 30 + |s.name| && after == nameEnd + |s.data| && after + 16 <= limit <= |file|
    requires Holds(file, pos, LocalHeader(|s.name|)) && Holds(file, pos + 30, s.name)
    requires Holds(file, nameEnd, s.data) && Holds(file, after, Descriptor(s.crc, |s.data|))
    requires |s.name| < ZIP16_LIMIT && |s.data| < ZIP32_LIMIT
    ensures ReadLocal(file, limit, CentralOf(s, pos)) == Some(s)
  {
    LocalHeaderFields(file, pos, |s.name|);
    DescriptorFields(file, after, s.crc, |s.data|);
    LocalMatches(file, limit, CentralOf(s, pos), nameEnd, after);
  }

  // ---- The whole archive -------------------------------------------------------------------

  lemma {:induction false} DirectoryAt(all: seq<Stored>, i: nat)
    requires i < |all|
    ensures |Directory(all)| == |all| && Directory(all)[i] == CentralOf(all[i], |Locals(all[..i])|)
  {
    var front := all[..|all| - 1];
    DirectoryLength(front);
    if i < |front| {
      DirectoryAt(front, i);
      assert front[..i] == all[..i];
    }
  }

  lemma {:induction false} DirectoryLength(all: seq<Stored>)
    ensures |Directory(all)| == |all|
  {
    if all != [] {
      DirectoryLength(all[..|all| - 1]);
    }
  }

  lemma {:induction false} LocalInArchive(all: seq<Stored>, i: nat)
    requires i < |all|
    ensures Holds(Locals(all), |Locals(all[..i])|, LocalRecord(all[i]))
  {
    var front := all[..|all| - 1];
    if i < |front| {
      LocalInArchive(front, i);
      assert front[..i] == all[..i];
      HoldsMore(Locals(front), |Locals(all[..i])|, LocalRecord(all[i]), LocalRecord(all[|front|]));
    } else {
      HoldsLast(Locals(front), LocalRecord(all[i]));
    }
  }

  lemma {:induction false} CentralInDirectory(central: seq<CentralEntry>, i: nat)
    requires i < |central|
    ensures Holds(Centrals(central), |Centrals(central[..i])|, CentralRecord(central[i]))
    ensures |Centrals(central[..i + 1])| == |Centrals(central[..i])| + |CentralRecord(central[i])|
  {
    var front := central[..|central| - 1];
    CentralsNext(central, i);
    if i < |front| {
      CentralInDirectory(front, i);
      assert front[..i] == central[..i];
      HoldsMore(Centrals(front), |Centrals(central[..i])|, CentralRecord(central[i]), CentralRecord(central[|front|]));
    } else {
      HoldsLast(Centrals(front), CentralRecord(central[i]));
    }
  }

  lemma HoldsMore(file: seq<byte>, pos: nat, piece: seq<byte>, more: seq<byte>)
    requires Holds(file, pos, piece)
    ensures Holds(file + more, pos, piece)
  {
  }

  lemma HoldsLast(file: seq<byte>, piece: seq<byte>)
    ensures Holds(file + piece, |file|, piece)
  {
  }

  lemma HoldsWithin(file: seq<byte>, start: nat, whole: seq<byte>, pos: nat, piece: seq<byte>)
    requires Holds(file, start, whole) && Holds(whole, pos, piece)
    ensures Holds(file, start + pos, piece)
  {
    forall k | 0 <= k < |piece| ensures file[start + pos..start + pos + |piece|][k] == piece[k] {
      HeldByte(whole, pos, piece, k);
      HeldByte(file, start, whole, pos + k);
    }
  }

  /** The central record of `central[k]` stands at `marks[k]` and ends at the next mark. */
  ghost predicate RecordHeld(file: seq<byte>, end: nat, marks: seq<nat>, central: seq<CentralEntry>, k: nat) {
    && |marks| == |central| + 1 && k < |central| && CentralFits(central[k])
    && Holds(file, marks[k], CentralRecord(central[k]))
    && marks[k + 1] == marks[k] + |CentralRecord(central[k])| && marks[k + 1] <= end <= |file|
  }

  /** The local record of `all[k]` stands where `central[k]` says, before `limit`. */
  ghost predicate MemberHeld(file: seq<byte>, limit: nat, central: seq<CentralEntry>, all: seq<Stored>, k: nat) {
    && k < |all| == |central| && CentralFits(central[k])
    && central[k] == CentralOf(all[k], central[k].localOffset)
    && Holds(file, central[k].localOffset, LocalRecord(all[k]))
    && central[k].localOffset + |LocalRecord(all[k])| <= limit <= |file|
  }

  ghost function Marks(base: nat, central: seq<CentralEntry>): (marks: seq<nat>)
    ensures |marks| == |central| + 1
    ensures forall i | 0 <= i <= |central| :: marks[i] == base + |Centrals(central[..i])|
  {
    seq(|central| + 1, i requires 0 <= i <= |central| => base + |Centrals(central[..i])|)
  }

  lemma RecordsHeld(file: seq<byte>, base: nat, central: seq<CentralEntry>, k: nat)
    requires k < |central| && CentralFits(central[k]) && Holds(file, base, Centrals(central))
    ensures RecordHeld(file, base + |Centrals(central)|, Marks(base, central), central, k)
  {
    MarksAt(base, central, k);
    CentralInDirectory(central, k);
    HoldsWithin(file, base, Centrals(central), |Centrals(central[..k])|, CentralRecord(central[k]));
  }

  lemma MarksAt(base: nat, central: seq<CentralEntry>, k: nat)
    requires k < |central|
    ensures Marks(base, central)[k] == base + |Centrals(central[..k])|
    ensures Marks(base, central)[k + 1] ==
      Marks(base, central)[k] + |CentralRecord(central[k])| <= base + |Centrals(central)|
  {
    CentralInDirectory(central, k);
  }

  lemma LocalHeldAt(file: seq<byte>, all: seq<Stored>, k: nat, offset: nat)
    requires k < |all| && Holds(file, 0, Locals(all)) && offset == |Locals(all[..k])|
    ensures Holds(file, offset, LocalRecord(all[k]))
    ensures offset + |LocalRecord(all[k])| <= |Locals(all)| <= |file|
  {
    LocalInArchive(all, k);
    HoldsWithin(file, 0, Locals(all), offset, LocalRecord(all[k]));
  }

  lemma MembersHeld(file: seq<byte>, all: seq<Stored>, k: nat)
    requires k < |all| == |Directory(all)| && CentralFits(Directory(all)[k]) && Holds(file, 0, Locals(all))
    ensures MemberHeld(file, |Locals(all)|, Directory(all), all, k)
  {
    DirectoryAt(all, k);
    LocalHeldAt(file, all, k, |Locals(all[..k])|);
  }

  /** The record at `marks[i]` is `found[i]` and ends at the next mark. */
  ghost predicate Leads<C(!new)>(record: nat -> Option<(C, nat)>, marks: seq<nat>, found: seq<C>, i: nat) {
    |marks| == |found| + 1 && i < |found| && record(marks[i]) == Some((found[i], marks[i + 1]))
  }

  ghost predicate Names<C(!new), M(!new)>(member: C -> Option<M>, found: seq<C>, members: seq<M>, i: nat) {
    i < |found| == |members| && member(found[i]) == Some(members[i])
  }

  lemma {:induction false} ReadsFrom<C(!new), M(!new)>(
    record: nat -> Option<(C, nat)>, member: C -> Option<M>, marks: seq<nat>, found: seq<C>, members: seq<M>, i: nat)
    requires i <= |found| == |members| && |marks| == |found| + 1
    requires forall k | 0 <= k < |found| :: Leads(record, marks, found, k)
    requires forall k | 0 <= k < |found| :: Names(member, found, members, k)
    ensures ReadAll(record, member, marks[i], marks[|found|], |found| - i) == Some(members[i..])
    decreases |found| - i
  {
    if i < |found| {
      ReadsFrom(record, member, marks, found, members, i + 1);
      assert Leads(record, marks, found, i) && Names(member, found, members, i);
      assert members[i..] == [members[i]] + members[i + 1..];
    } else {
      assert members[i..] == [];
    }
  }

  lemma ReadsEvery<C(!new), M(!new)>(
    record: nat -> Option<(C, nat)>, member: C -> Option<M>, marks: seq<nat>, found: seq<C>, members: seq<M>)
    requires |found| == |members| && |marks| == |found| + 1
    requires forall k | 0 <= k < |found| :: Leads(record, marks, found, k)
    requires forall k | 0 <= k < |found| :: Names(member, found, members, k)
    ensures ReadAll(record, member, marks[0], marks[|found|], |found|) == Some(members)
  {
    ReadsFrom(record, member, marks, found, members, 0);
    assert members[0..] == members;
  }

  lemma RecordLeads(
    file: seq<byte>, end: nat, marks: seq<nat>, central: seq<CentralEntry>,
    record: nat -> Option<(CentralEntry, nat)>, k: nat)
    requires RecordHeld(file, end, marks, central, k) && record == (pos => ReadCentral(file, end, pos))
    ensures Leads(record, marks, central, k)
  {
    CentralReadsBack(file, end, marks[k], central[k]);
  }

  lemma MemberNamed(
    file: seq<byte>, limit: nat, central: seq<CentralEntry>, all: seq<Stored>, member: CentralEntry -> Option<Stored>,
    k: nat)
    requires MemberHeld(file, limit, central, all, k) && member == (c => ReadLocal(file, limit, c))
    ensures Names(member, central, all, k)
  {
    LocalReadsBack(file, limit, central[k].localOffset, all[k]);
  }

  lemma HeldMembersReadBack(
    file: seq<byte>, base: nat, end: nat, marks: seq<nat>, central: seq<CentralEntry>, all: seq<Stored>)
    requires |central| == |all| && |marks| == |central| + 1 && marks[0] == base && marks[|central|] == end &&
      base <= end <= |file|
    requires forall k | 0 <= k < |central| :: RecordHeld(file, end, marks, central, k)
    requires forall k | 0 <= k < |all| :: MemberHeld(file, base, central, all, k)
    ensures ReadMembers(file, base, end, |all|) == Some(all)
  {
    var record := pos => ReadCentral(file, end, pos);
    var member := c => ReadLocal(file, base, c);
    forall k | 0 <= k < |central| ensures Leads(record, marks, central, k) {
      RecordLeads(file, end, marks, central, record, k);
    }
    forall k | 0 <= k < |all| ensures Names(member, central, all, k) {
      MemberNamed(file, base, central, all, member, k);
    }
    ReadsEvery(record, member, marks, central, all);
    ReadsMembers(file, base, end, |all|, all, record, member);
  }

  lemma ReadsMembers(
    file: seq<byte>, offset: nat, end: nat, count: nat, members: seq<Stored>,
    record: nat -> Option<(CentralEntry, nat)>, member: CentralEntry -> Option<Stored>)
    requires offset <= end <= |file|
    requires record == (pos => ReadCentral(file, end, pos)) && member == (c => ReadLocal(file, offset, c))
    requires ReadAll(record, member, offset, end, count) == Some(members)
    ensures ReadMembers(file, offset, end, count) == Some(members)
  {
  }

  lemma EverythingHeld(file: seq<byte>, all: seq<Stored>, central: seq<CentralEntry>, marks: seq<nat>, end: nat)
    requires central == Directory(all) && |central| == |all| && forall c | c in central :: CentralFits(c)
    requires Holds(file, 0, Locals(all)) && Holds(file, |Locals(all)|, Centrals(central))
    requires marks == Marks(|Locals(all)|, central) && end == |Locals(all)| + |Centrals(central)|
    ensures marks[0] == |Locals(all)| && marks[|central|] == end
    ensures forall k | 0 <= k < |central| :: RecordHeld(file, end, marks, central, k)
    ensures forall k | 0 <= k < |all| :: MemberHeld(file, |Locals(all)|, central, all, k)
  {
    assert central[..|central|] == central;
    forall k | 0 <= k < |central| ensures RecordHeld(file, end, marks, central, k) {
      assert central[k] in central;
      RecordsHeld(file, |Locals(all)|, central, k);
    }
    forall k | 0 <= k < |all| ensures MemberHeld(file, |Locals(all)|, central, all, k) {
      assert central[k] in central;
      MembersHeld(file, all, k);
    }
  }

  lemma EndReadsBack(file: seq<byte>, end: nat, count: nat, size: nat, offset: nat)
    requires |file| == end + 22 && offset + size == end
    requires Holds(file, end, EndRecord(count, size, offset))
    requires count < ZIP16_LIMIT && size < ZIP32_LIMIT && offset < ZIP32_LIMIT
    ensures ReadEnd(file) == Some((count, offset))
  {
    EndRecordFields(file, end, count, size, offset);
  }

  lemma HeldArchiveReadsBack(
    file: seq<byte>, base: nat, size: nat, end: nat, marks: seq<nat>, central: seq<CentralEntry>, all: seq<Stored>)
    requires |central| == |all| && |marks| == |central| + 1 && marks[0] == base && marks[|central|] == end
    requires base + size == end && |file| == end + 22 && |all| < ZIP16_LIMIT && size < ZIP32_LIMIT && base < ZIP32_LIMIT
    requires forall k | 0 <= k < |central| :: RecordHeld(file, end, marks, central, k)
    requires forall k | 0 <= k < |all| :: MemberHeld(file, base, central, all, k)
    requires Holds(file, end, EndRecord(|all|, size, base))
    ensures ReadStored(file) == Some(all)
  {
    HeldMembersReadBack(file, base, end, marks, central, all);
    EndReadsBack(file, end, |all|, size, base);
  }

  lemma FileReadsBack(file: seq<byte>, all: seq<Stored>, central: seq<CentralEntry>, base: nat, size: nat)
    requires WithinZip32(all) && central == Directory(all) && base == |Locals(all)| && size == |Centrals(central)|
    requires Holds(file, 0, Locals(all)) && Holds(file, base, Centrals(central))
    requires Holds(file, base + size, EndRecord(|all|, size, base)) && |file| == base + size + 22
    ensures ReadStored(file) == Some(all)
  {
    DirectoryFits(all);
    EverythingHeld(file, all, central, Marks(base, central), base + size);
    HeldArchiveReadsBack(file, base, size, base + size, Marks(base, central), central, all);
  }

  /** Every archive within the format's limits reads back as the members it was made of. */
  lemma ArchiveReadsBack(all: seq<Stored>)
    requires WithinZip32(all)
    ensures ReadStored(Archive(all)) == Some(all)
  {
    var central := Directory(all);
    var base, size := |Locals(all)|, |Centrals(central)|;
    HoldsWhole(Locals(all), Centrals(central), EndRecord(|all|, size, base));
    FileReadsBack(Archive(all), all, central, base, size);
  }

  lemma HoldsWhole(a: seq<byte>, b: seq<byte>, c: seq<byte>)
    ensures var file := a + (b + c); Holds(file, 0, a) && Holds(file, |a|, b) && Holds(file, |a| + |b|, c)
  {
  }

  /**
   * Main result: what the writer accepts reads back, checksums included, as every entry's data under
   * its name; a name without a backslash is unchanged.
   */
  lemma EntriesReadBack(entries: seq<ZipEntry>)
    requires Failure(AllStored(entries)) == None
    ensures ReadZip(Archive(AllStored(entries))) == Some(AllStored(entries))
    ensures forall i | 0 <= i < |entries| && BACKSLASH !in entries[i].name ::
      AllStored(entries)[i].name == entries[i].name
  {
    var all := AllStored(entries);
    RefusedIffOutsideZip32(all);
    ArchiveReadsBack(all);
    StoredChecksumsMatch(entries);
    forall i | 0 <= i < |entries| && BACKSLASH !in entries[i].name ensures all[i].name == entries[i].name {
      SlashedUnchanged(entries[i].name);
    }
  }

  lemma StoredChecksumsMatch(entries: seq<ZipEntry>)
    ensures ChecksumsMatch(AllStored(entries))
  {
    forall m | m in AllStored(entries) ensures m.crc == LeWord(Crc(m.data)) {
      var i :| 0 <= i < |entries| && AllStored(entries)[i] == m;
    }
  }

  lemma SlashedUnchanged(name: seq<byte>)
    requires BACKSLASH !in name
    ensures Slashed(name) == name
  {
  }

  /** Two accepted inputs with the same bytes hold the same data under the same names. */
  lemma ArchiveDeterminesMembers(a: seq<Stored>, b: seq<Stored>)
    requires WithinZip32(a) && WithinZip32(b) && Archive(a) == Archive(b)
    ensures a == b
  {
    ArchiveReadsBack(a);
    ArchiveReadsBack(b);
  }
}
