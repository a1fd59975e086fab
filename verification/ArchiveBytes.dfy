/** The archive's records byte by byte, and which limit a refused archive breaks first. */
module ArchiveBytes {
  import opened Outcomes
  import opened Crc32
  import opened LittleEndian
  import opened ZipLayout
  import opened ZipWriter

  // ---- Records -----------------------------------------------------------------------------

  /** PKWARE APPNOTE section 4.3.7, version 2.0, with the sizes in a descriptor and a UTF-8 name. */
  lemma LocalHeaderBytes(nameLength: nat)
    requires nameLength < 0x1_0000
    ensures LocalHeader(nameLength) ==
      [0x50, 0x4b, 0x03, 0x04, 20, 0, 8, 8] + Zeros(18) + [nameLength % 256, nameLength / 256, 0, 0]
  {
  }

  /** Section 4.3.9. */
  lemma DescriptorBytes(crc: Word, size: nat)
    ensures Descriptor(crc, size) == [0x50, 0x4b, 0x07, 0x08] + crc + U32(size) + U32(size)
  {
  }

  /** Section 4.3.12. */
  lemma CentralHeaderBytes(crc: Word, size: nat, nameLength: nat, offset: nat)
    ensures CentralHeader(crc, size, nameLength, offset) ==
      [0x50, 0x4b, 0x01, 0x02, 20, 0, 20, 0, 8, 8] + Zeros(6) + crc + U32(size) + U32(size) + U16(nameLength) +
      Zeros(12) + U32(offset)
  {
  }

  /** Section 4.3.16. */
  lemma EndRecordBytes(count: nat, centralSize: nat, centralOffset: nat)
    ensures EndRecord(count, centralSize, centralOffset) ==
      [0x50, 0x4b, 0x05, 0x06] + Zeros(4) + U16(count) + U16(count) + U32(centralSize) + U32(centralOffset) + Zeros(2)
  {
  }

  // ---- Names and contents ------------------------------------------------------------------

  /** The stored name is the entry's with every backslash turned into a slash. */
  lemma StoredName(e: ZipEntry, k: nat)
    requires k < |e.name|
    ensures |StoredOf(e).name| == |e.name|
    ensures StoredOf(e).name[k] == if e.name[k] == 0x5c then 0x2f else e.name[k]
  {
  }

  function Joined(blocks: seq<seq<byte>>): seq<byte> {
    if blocks == [] then [] else Joined(blocks[..|blocks| - 1]) + blocks[|blocks| - 1]
  }

  lemma {:induction false} JoinedFirst(blocks: seq<seq<byte>>)
    requires blocks != []
    ensures Joined(blocks) == blocks[0] + Joined(blocks[1..])
  {
    if |blocks| > 1 {
      var front := blocks[..|blocks| - 1];
      JoinedFirst(front);
      assert front[1..] == blocks[1..][..|blocks| - 2];
    } else {
      assert blocks[..0] == [];
    }
  }

  /** A file's data are the blocks up to its first empty read, all of them and in order. */
  lemma {:induction false} StoredFile(name: seq<byte>, blocks: seq<seq<byte>>, k: nat)
    requires k <= |blocks| && (forall i | 0 <= i < k :: blocks[i] != []) && (k == |blocks| || blocks[k] == [])
    ensures StoredOf(ZipEntry(name, File(blocks))).data == Joined(blocks[..k])
  {
    if k > 0 {
      StoredFile(name, blocks[1..], k - 1);
      JoinedFirst(blocks[..k]);
      assert blocks[..k][1..] == blocks[1..][..k - 1];
    }
  }

  /** Two known checksums; with the residue of every file they fix the CRC. */
  lemma KnownChecksums()
    ensures Crc([]) == 0 && Crc([0x61]) == 0xe8b7_be43
  {
  }

  // ---- Refusals ----------------------------------------------------------------------------

  /** The member can be written where the earlier ones end. */
  predicate Fits(all: seq<Stored>, i: nat)
    requires i < |all|
  {
    |Locals(all[..i])| < 0x1_0000_0000 && |all[i].name| < 0x1_0000 && |all[i].data| < 0x1_0000_0000
  }

  lemma {:induction false} FirstMisfit(all: seq<Stored>, i: nat)
    requires i < |all| && !Fits(all, i) && forall j | 0 <= j < i :: Fits(all, j)
    ensures EntriesFailure(all) == Some(
      if |Locals(all[..i])| >= 0x1_0000_0000 then ArchiveTooLarge
      else if |all[i].name| >= 0x1_0000 then NameTooLong
      else EntryTooLarge)
  {
    var upTo, before := all[..i + 1], all[..i];
    assert upTo[..i] == before;
    forall j | 0 <= j < i ensures Fits(before, j) {
      assert Fits(all, j) && before[..j] == all[..j];
    }
    NoMisfit(before);
    FailurePersists(all, i + 1);
  }

  lemma {:induction false} NoMisfit(all: seq<Stored>)
    requires forall j | 0 <= j < |all| :: Fits(all, j)
    ensures EntriesFailure(all) == None
  {
    if all != [] {
      var front := all[..|all| - 1];
      forall j | 0 <= j < |front| ensures Fits(front, j) {
        assert Fits(all, j) && front[..j] == all[..j];
      }
      NoMisfit(front);
      assert Fits(all, |all| - 1);
    }
  }

  /**
   * Main result: why an archive is refused. Too many entries come first; then the first entry that
   * does not fit, by its offset, its name or its data; then the archive's two parts.
   */
  lemma RefusedForTheFirst(all: seq<Stored>, i: nat)
    requires i <= |all| && forall j | 0 <= j < i :: Fits(all, j)
    requires i < |all| ==> !Fits(all, i)
    ensures Failure(all) ==
      if |all| >= 0x1_0000 then Some(TooManyEntries)
      else if i < |all| then Some(
        if |Locals(all[..i])| >= 0x1_0000_0000 then ArchiveTooLarge
        else if |all[i].name| >= 0x1_0000 then NameTooLong
        else EntryTooLarge)
      else if |Locals(all)| >= 0x1_0000_0000 || |Centrals(Directory(all))| >= 0x1_0000_0000 then Some(ArchiveTooLarge)
      else None
  {
    if i < |all| { FirstMisfit(all, i); } else { NoMisfit(all); }
  }
}
