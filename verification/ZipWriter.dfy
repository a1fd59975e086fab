/** The diagnostics ZIP32 writer. Names are UTF-8 bytes. */
module ZipWriter {
  import opened Outcomes
  import opened LinearIteration
  import opened Crc32
  import opened LittleEndian
  import opened ZipLayout

  const U64_MAX: nat := 0xffff_ffff_ffff_ffff
  const BACKSLASH: byte := 0x5c
  const SLASH: byte := 0x2f

  /** A file source is the blocks its successive reads return; the first empty block ends it. */
  datatype ZipSource = Data(bytes: seq<byte>) | File(blocks: seq<seq<byte>>)
  datatype ZipEntry = ZipEntry(name: seq<byte>, source: ZipSource)
  datatype ZipError = TooManyEntries | NameTooLong | EntryTooLarge | ArchiveTooLarge

  function Saturated(n: nat): nat {
    if n > U64_MAX then U64_MAX else n
  }

  /** `u64::saturating_add` */
  function SatAdd(a: nat, b: nat): nat {
    Saturated(a + b)
  }

  // ---- What is stored ----------------------------------------------------------------------

  function Slashed(name: seq<byte>): (r: seq<byte>)
    ensures |r| == |name|
  {
    seq(|name|, i requires 0 <= i < |name| => if name[i] == BACKSLASH then SLASH else name[i])
  }

  function UntilEmpty(blocks: seq<seq<byte>>): seq<byte> {
    if blocks == [] || blocks[0] == [] then [] else blocks[0] + UntilEmpty(blocks[1..])
  }

  function Content(source: ZipSource): seq<byte> {
    match source
    case Data(bytes) => bytes
    case File(blocks) => UntilEmpty(blocks)
  }

  function StoredOf(e: ZipEntry): Stored {
    Stored(Slashed(e.name), Content(e.source), LeWord(Crc(Content(e.source))))
  }

  function AllStored(entries: seq<ZipEntry>): (all: seq<Stored>)
    ensures |all| == |entries|
    ensures forall i | 0 <= i < |entries| :: all[i] == StoredOf(entries[i])
  {
    seq(|entries|, i requires 0 <= i < |entries| => StoredOf(entries[i]))
  }

  /** Why the member at `offset` cannot be written; the checks in the order they are made. */
  function EntryFailure(s: Stored, offset: nat): Option<ZipError> {
    if offset >= ZIP32_LIMIT then Some(ArchiveTooLarge)
    else if |s.name| >= ZIP16_LIMIT then Some(NameTooLong)
    else if |s.data| >= ZIP32_LIMIT then Some(EntryTooLarge)
    else None
  }

  function EntriesFailure(all: seq<Stored>): Option<ZipError> {
    if all == [] then None else
      var front := all[..|all| - 1];
      var earlier := EntriesFailure(front);
      if earlier.Some? then earlier else EntryFailure(all[|all| - 1], |Locals(front)|)
  }

  function Failure(all: seq<Stored>): Option<ZipError> {
    if |all| >= ZIP16_LIMIT then Some(TooManyEntries)
    else if EntriesFailure(all).Some? then EntriesFailure(all)
    else if |Locals(all)| >= ZIP32_LIMIT || |Centrals(Directory(all))| >= ZIP32_LIMIT then Some(ArchiveTooLarge)
    else None
  }

  lemma LastFits(all: seq<Stored>, front: seq<Stored>, last: Stored)
    requires all == front + [last] && |Locals(all)| < ZIP32_LIMIT
    ensures |Locals(front)| < ZIP32_LIMIT
    ensures EntryFailure(last, |Locals(front)|) == None <==> |last.name| < ZIP16_LIMIT
  {
    assert all[..|all| - 1] == front;
    LocalRecordLength(last);
  }

  lemma {:induction false} EntriesFit(all: seq<Stored>)
    requires |Locals(all)| < ZIP32_LIMIT
    ensures EntriesFailure(all) == None <==> forall s | s in all :: |s.name| < ZIP16_LIMIT
  {
    if all != [] {
      var front, last := all[..|all| - 1], all[|all| - 1];
      assert all == front + [last];
      LastFits(all, front, last);
      EntriesFit(front);
    }
  }

  /** The writer refuses exactly the archives that do not fit the format. */
  lemma RefusedIffOutsideZip32(all: seq<Stored>)
    ensures Failure(all) == None <==> WithinZip32(all)
  {
    if |Locals(all)| < ZIP32_LIMIT {
      EntriesFit(all);
    }
  }

  /** What refuses a prefix refuses the whole. */
  lemma {:induction false} FailurePersists(all: seq<Stored>, i: nat)
    requires i <= |all| && EntriesFailure(all[..i]).Some?
    ensures EntriesFailure(all) == EntriesFailure(all[..i])
  {
    if i == |all| {
      assert all[..i] == all;
    } else {
      var front := all[..|all| - 1];
      assert front[..i] == all[..i];
      FailurePersists(front, i);
    }
  }

  // ---- Headers -----------------------------------------------------------------------------

  function Put(buffer: seq<byte>, offset: nat, piece: seq<byte>): (r: seq<byte>)
    requires offset + |piece| <= |buffer|
    ensures |r| == |buffer|
  {
    buffer[..offset] + piece + buffer[offset + |piece|..]
  }

  method PutU16(buffer: array<byte>, offset: nat, value: nat)
    requires offset + 2 <= buffer.Length && value < ZIP16_LIMIT
    modifies buffer
    ensures buffer[..] == Put(old(buffer[..]), offset, U16(value))
  {
    buffer[offset], buffer[offset + 1] := value % 256, value / 256 % 256;
  }

  method PutU32(buffer: array<byte>, offset: nat, value: nat)
    requires offset + 4 <= buffer.Length && value < ZIP32_LIMIT
    modifies buffer
    ensures buffer[..] == Put(old(buffer[..]), offset, U32(value))
  {
    buffer[offset], buffer[offset + 1] := value % 256, value / 256 % 256;
    buffer[offset + 2], buffer[offset + 3] := value / 0x1_0000 % 256, value / 0x100_0000 % 256;
  }

  /** `put_u32` of a value kept as its four bytes. */
  method PutWord(buffer: array<byte>, offset: nat, word: Word)
    requires offset + 4 <= buffer.Length
    modifies buffer
    ensures buffer[..] == Put(old(buffer[..]), offset, word)
  {
    buffer[offset], buffer[offset + 1], buffer[offset + 2], buffer[offset + 3] := word[0], word[1], word[2], word[3];
  }

  /** Writing `piece` after a gap into a buffer that is zero from the end of `done` on. */
  lemma PutOnZeros(done: seq<byte>, rest: nat, gap: nat, piece: seq<byte>)
    requires gap + |piece| <= rest
    ensures Put(done + Zeros(rest), |done| + gap, piece) == (done + Zeros(gap) + piece) + Zeros(rest - gap - |piece|)
  {
  }

  lemma LocalHeaderPuts(a: seq<byte>, b: seq<byte>, c: seq<byte>, d: seq<byte>)
    requires |a| == 4 && |b| == 2 && |c| == 2 && |d| == 2
    ensures Put(Put(Put(Put(Zeros(30), 0, a), 4, b), 6, c), 26, d) == a + (b + (c + (Zeros(18) + (d + Zeros(2)))))
  {
    var d1 := [] + Zeros(0) + a;
    var d2 := d1 + Zeros(0) + b;
    var d3 := d2 + Zeros(0) + c;
    assert Zeros(30) == [] + Zeros(30);
    PutOnZeros([], 30, 0, a);
    PutOnZeros(d1, 26, 0, b);
    PutOnZeros(d2, 24, 0, c);
    PutOnZeros(d3, 22, 18, d);
  }

  method LocalHeaderBuffer(nameLength: nat) returns (header: seq<byte>)
    requires nameLength < ZIP16_LIMIT
    ensures header == LocalHeader(nameLength)
  {
    var buffer := new byte[30](_ => 0);
    assert buffer[..] == Zeros(30);
    PutU32(buffer, 0, LOCAL_SIGNATURE);
    PutU16(buffer, 4, VERSION);
    PutU16(buffer, 6, FLAGS);
    PutU16(buffer, 26, nameLength);
    LocalHeaderPuts(U32(LOCAL_SIGNATURE), U16(VERSION), U16(FLAGS), U16(nameLength));
    header := buffer[..];
  }

  lemma DescriptorPuts(a: seq<byte>, b: seq<byte>, c: seq<byte>, d: seq<byte>)
    requires |a| == 4 && |b| == 4 && |c| == 4 && |d| == 4
    ensures Put(Put(Put(Put(Zeros(16), 0, a), 4, b), 8, c), 12, d) == a + (b + (c + d))
  {
    var d1 := [] + Zeros(0) + a;
    var d2 := d1 + Zeros(0) + b;
    var d3 := d2 + Zeros(0) + c;
    assert Zeros(16) == [] + Zeros(16);
    PutOnZeros([], 16, 0, a);
    PutOnZeros(d1, 12, 0, b);
    PutOnZeros(d2, 8, 0, c);
    PutOnZeros(d3, 4, 0, d);
  }

  method DescriptorBuffer(crc: Word, size: nat) returns (descriptor: seq<byte>)
    requires size < ZIP32_LIMIT
    ensures descriptor == Descriptor(crc, size)
  {
    var buffer := new byte[16](_ => 0);
    assert buffer[..] == Zeros(16);
    PutU32(buffer, 0, DESCRIPTOR_SIGNATURE);
    PutWord(buffer, 4, crc);
    PutU32(buffer, 8, size);
    PutU32(buffer, 12, size);
    DescriptorPuts(U32(DESCRIPTOR_SIGNATURE), crc, U32(size), U32(size));
    descriptor := buffer[..];
  }

  lemma CentralHeaderStart(a: seq<byte>, b: seq<byte>, c: seq<byte>, d: seq<byte>)
    requires |a| == 4 && |b| == 2 && |c| == 2 && |d| == 2
    ensures Put(Put(Put(Put(Zeros(46), 0, a), 4, b), 6, c), 8, d) == (a + (b + (c + d))) + Zeros(36)
  {
    var d1 := [] + Zeros(0) + a;
    var d2 := d1 + Zeros(0) + b;
    var d3 := d2 + Zeros(0) + c;
    assert Zeros(46) == [] + Zeros(46);
    PutOnZeros([], 46, 0, a);
    PutOnZeros(d1, 42, 0, b);
    PutOnZeros(d2, 40, 0, c);
    PutOnZeros(d3, 38, 0, d);
    assert d3 + Zeros(0) + d == a + (b + (c + d));
  }

  lemma CentralHeaderEnd(s: seq<byte>, a: seq<byte>, b: seq<byte>, c: seq<byte>, d: seq<byte>, e: seq<byte>)
    requires |s| == 10 && |a| == 4 && |b| == 4 && |c| == 4 && |d| == 2 && |e| == 4
    ensures Put(Put(Put(Put(Put(s + Zeros(36), 16, a), 20, b), 24, c), 28, d), 42, e)
      == s + (Zeros(6) + (a + (b + (c + (d + (Zeros(12) + e))))))
  {
    var d1 := s + Zeros(6) + a;
    var d2 := d1 + Zeros(0) + b;
    var d3 := d2 + Zeros(0) + c;
    var d4 := d3 + Zeros(0) + d;
    PutOnZeros(s, 36, 6, a);
    PutOnZeros(d1, 26, 0, b);
    PutOnZeros(d2, 22, 0, c);
    PutOnZeros(d3, 18, 0, d);
    PutOnZeros(d4, 16, 12, e);
  }

  lemma Reassociate(a: seq<byte>, b: seq<byte>, c: seq<byte>, d: seq<byte>, rest: seq<byte>)
    ensures (a + (b + (c + d))) + rest == a + (b + (c + (d + rest)))
  {
  }

  method CentralHeaderBuffer(crc: Word, size: nat, nameLength: nat, offset: nat) returns (header: seq<byte>)
    requires size < ZIP32_LIMIT && nameLength < ZIP16_LIMIT && offset < ZIP32_LIMIT
    ensures header == CentralHeader(crc, size, nameLength, offset)
  {
    var buffer := new byte[46](_ => 0);
    assert buffer[..] == Zeros(46);
    PutU32(buffer, 0, CENTRAL_SIGNATURE);
    PutU16(buffer, 4, VERSION);
    PutU16(buffer, 6, VERSION);
    PutU16(buffer, 8, FLAGS);
    ghost var start := U32(CENTRAL_SIGNATURE) + (U16(VERSION) + (U16(VERSION) + U16(FLAGS)));
    CentralHeaderStart(U32(CENTRAL_SIGNATURE), U16(VERSION), U16(VERSION), U16(FLAGS));
    PutWord(buffer, 16, crc);
    PutU32(buffer, 20, size);
    PutU32(buffer, 24, size);
    PutU16(buffer, 28, nameLength);
    PutU32(buffer, 42, offset);
    CentralHeaderEnd(start, crc, U32(size), U32(size), U16(nameLength), U32(offset));
    Reassociate(U32(CENTRAL_SIGNATURE), U16(VERSION), U16(VERSION), U16(FLAGS),
      Zeros(6) + (crc + (U32(size) + (U32(size) + (U16(nameLength) + (Zeros(12) + U32(offset)))))));
    header := buffer[..];
  }

  lemma EndRecordPuts(a: seq<byte>, b: seq<byte>, c: seq<byte>, d: seq<byte>, e: seq<byte>)
    requires |a| == 4 && |b| == 2 && |c| == 2 && |d| == 4 && |e| == 4
    ensures Put(Put(Put(Put(Put(Zeros(22), 0, a), 8, b), 10, c), 12, d), 16, e)
      == a + (Zeros(4) + (b + (c + (d + (e + Zeros(2))))))
  {
    var d1 := [] + Zeros(0) + a;
    var d2 := d1 + Zeros(4) + b;
    var d3 := d2 + Zeros(0) + c;
    var d4 := d3 + Zeros(0) + d;
    assert Zeros(22) == [] + Zeros(22);
    PutOnZeros([], 22, 0, a);
    PutOnZeros(d1, 18, 4, b);
    PutOnZeros(d2, 12, 0, c);
    PutOnZeros(d3, 10, 0, d);
    PutOnZeros(d4, 6, 0, e);
  }

  method EndRecordBuffer(count: nat, centralSize: nat, centralOffset: nat) returns (end: seq<byte>)
    requires count < ZIP16_LIMIT && centralSize < ZIP32_LIMIT && centralOffset < ZIP32_LIMIT
    ensures end == EndRecord(count, centralSize, centralOffset)
  {
    var buffer := new byte[22](_ => 0);
    assert buffer[..] == Zeros(22);
    PutU32(buffer, 0, END_SIGNATURE);
    PutU16(buffer, 8, count);
    PutU16(buffer, 10, count);
    PutU32(buffer, 12, centralSize);
    PutU32(buffer, 16, centralOffset);
    EndRecordPuts(U32(END_SIGNATURE), U16(count), U16(count), U32(centralSize), U32(centralOffset));
    end := buffer[..];
  }

  // ---- The writer --------------------------------------------------------------------------

  method ShiftBits(crc: bv32, count: nat) returns (crc': bv32)
    ensures crc' == Iterate(Shift, crc, count)
  {
    crc' := crc;
    for k := 0 to count
      invariant crc' == Iterate(Shift, crc, k)
    {
      crc' := if crc' & 1 == 1 then POLYNOMIAL ^ (crc' >> 1) else crc' >> 1;
    }
  }

  /** Feeds `bytes` to the running CRC, appends them to the output and counts them. */
  method UpdateAndWrite(output: seq<byte>, bytes: seq<byte>, crc: bv32, size: nat)
    returns (output': seq<byte>, crc': bv32, size': nat)
    ensures output' == output + bytes
    ensures crc' == Register(crc, bytes)
    ensures size' == SatAdd(size, |bytes|)
  {
    crc' := crc;
    for i := 0 to |bytes|
      invariant crc' == Register(crc, bytes[..i])
    {
      RegisterNext(crc, bytes, i);
      crc' := ShiftBits(Xor(crc', Value(bytes[i])), 8);
    }
    assert bytes[..|bytes|] == bytes;
    output' := output + bytes;
    size' := SatAdd(size, |bytes|);
  }

  lemma RegisterNext(crc: bv32, bytes: seq<byte>, i: nat)
    requires i < |bytes|
    ensures Register(crc, bytes[..i + 1]) == Feed(Register(crc, bytes[..i]), bytes[i])
  {
    assert bytes[..i + 1][..i] == bytes[..i];
  }

  /** Copies a file block by block until a read returns nothing. */
  method CopyFile(output: seq<byte>, blocks: seq<seq<byte>>) returns (output': seq<byte>, crc: bv32, size: nat)
    ensures output' == output + UntilEmpty(blocks)
    ensures crc == Register(ALL_ONES, UntilEmpty(blocks))
    ensures size == Saturated(|UntilEmpty(blocks)|)
  {
    output', crc, size := output, ALL_ONES, 0;
    ghost var copied: seq<byte> := [];
    var i := 0;
    while i < |blocks| && blocks[i] != []
      invariant i <= |blocks|
      invariant UntilEmpty(blocks) == copied + UntilEmpty(blocks[i..])
      invariant output' == output + copied
      invariant crc == Register(ALL_ONES, copied)
      invariant size == Saturated(|copied|)
    {
      CopyNext(blocks, i, copied);
      RegisterAppend(ALL_ONES, copied, blocks[i]);
      Associate(output, copied, blocks[i]);
      output', crc, size := UpdateAndWrite(output', blocks[i], crc, size);
      copied := copied + blocks[i];
      i := i + 1;
    }
    assert UntilEmpty(blocks[i..]) == [];
    assert copied == UntilEmpty(blocks);
  }

  lemma CopyNext(blocks: seq<seq<byte>>, i: nat, copied: seq<byte>)
    requires i < |blocks| && blocks[i] != [] && UntilEmpty(blocks) == copied + UntilEmpty(blocks[i..])
    ensures UntilEmpty(blocks) == copied + blocks[i] + UntilEmpty(blocks[i + 1..])
  {
    assert blocks[i..][1..] == blocks[i + 1..];
    Associate(copied, blocks[i], UntilEmpty(blocks[i + 1..]));
  }

  lemma RegisterAppend(crc: bv32, a: seq<byte>, b: seq<byte>)
    ensures Register(crc, a + b) == Register(Register(crc, a), b)
  {
    FoldAppend(Feed, crc, a, b);
  }

  /** A local record's bytes up to its data. */
  method WriteLocalHeader(output: seq<byte>, outputOffset: nat, name: seq<byte>)
    returns (output': seq<byte>, outputOffset': nat)
    requires outputOffset == Saturated(|output|) && |name| < ZIP16_LIMIT
    ensures output' == output + (LocalHeader(|name|) + name) && outputOffset' == Saturated(|output'|)
  {
    var header := LocalHeaderBuffer(|name|);
    output' := output + header + name;
    outputOffset' := SatAdd(SatAdd(outputOffset, |header|), |name|);
    Associate(output, header, name);
  }

  lemma Associate(a: seq<byte>, b: seq<byte>, c: seq<byte>)
    ensures a + b + c == a + (b + c)
  {
  }

  /** The entry's data, its running CRC and its size. */
  method WriteData(output: seq<byte>, source: ZipSource) returns (output': seq<byte>, crc: bv32, size: nat)
    ensures output' == output + Content(source)
    ensures Xor(crc, ALL_ONES) == Crc(Content(source)) && size == Saturated(|Content(source)|)
  {
    crc, size := ALL_ONES, 0;
    match source {
      case Data(bytes) => output', crc, size := UpdateAndWrite(output, bytes, crc, size);
      case File(blocks) => output', crc, size := CopyFile(output, blocks);
    }
  }

  /** One entry: local header, name, data and descriptor, or the reason it does not fit. */
  method WriteEntry(output: seq<byte>, outputOffset: nat, e: ZipEntry)
    returns (r: Result<CentralEntry, ZipError>, output': seq<byte>, outputOffset': nat)
    requires outputOffset == Saturated(|output|)
    ensures match EntryFailure(StoredOf(e), |output|)
      case Some(error) => r == Err(error)
      case None =>
        && r == Ok(CentralOf(StoredOf(e), |output|)) && output' == output + LocalRecord(StoredOf(e))
        && outputOffset' == Saturated(|output'|)
  {
    output', outputOffset' := output, outputOffset;
    if outputOffset >= ZIP32_LIMIT {
      return Err(ArchiveTooLarge), output', outputOffset';
    }
    var name := Slashed(e.name);
    if |name| >= ZIP16_LIMIT {
      return Err(NameTooLong), output', outputOffset';
    }
    output', outputOffset' := WriteLocalHeader(output, outputOffset, name);
    var crc, size;
    output', crc, size := WriteData(output', e.source);
    if size >= ZIP32_LIMIT {
      return Err(EntryTooLarge), output', outputOffset';
    }
    var word: Word := LeWord(Xor(crc, ALL_ONES));
    var descriptor := DescriptorBuffer(word, size);
    output' := output' + descriptor;
    outputOffset' := SatAdd(SatAdd(outputOffset', size), |descriptor|);
    r := Ok(CentralEntry(word, outputOffset, name, size));
    EntryPieces(output, LocalHeader(|name|), name, Content(e.source), descriptor);
  }

  lemma EntryPieces(output: seq<byte>, header: seq<byte>, name: seq<byte>, data: seq<byte>, descriptor: seq<byte>)
    ensures output + (header + name) + data + descriptor == output + (header + (name + (data + descriptor)))
  {
  }

  /** The local records of every entry in turn; stops at the first that does not fit. */
  method WriteLocals(entries: seq<ZipEntry>)
    returns (r: Result<seq<CentralEntry>, ZipError>, output: seq<byte>, outputOffset: nat)
    ensures match EntriesFailure(AllStored(entries))
      case Some(error) => r == Err(error)
      case None =>
        && r == Ok(Directory(AllStored(entries))) && output == Locals(AllStored(entries))
        && outputOffset == Saturated(|output|)
  {
    var central: seq<CentralEntry> := [];
    output, outputOffset := [], 0;
    ghost var all := AllStored(entries);
    for i := 0 to |entries|
      invariant EntriesFailure(all[..i]) == None
      invariant central == Directory(all[..i])
      invariant output == Locals(all[..i]) && outputOffset == Saturated(|output|)
    {
      ghost var next := all[..i + 1];
      assert next[..i] == all[..i] && next[i] == all[i] == StoredOf(entries[i]);
      var written;
      written, output, outputOffset := WriteEntry(output, outputOffset, entries[i]);
      if written.Err? {
        FailurePersists(all, i + 1);
        return Err(written.error), output, outputOffset;
      }
      central := central + [written.value];
    }
    assert all[..|entries|] == all;
    r := Ok(central);
  }

  method WriteCentral(output: seq<byte>, centralSize: nat, c: CentralEntry)
    returns (output': seq<byte>, centralSize': nat)
    requires CentralFits(c)
    ensures output' == output + CentralRecord(c) && centralSize' == SatAdd(centralSize, |CentralRecord(c)|)
  {
    var header := CentralHeaderBuffer(c.crc, c.size, |c.name|, c.localOffset);
    output' := output + header + c.name;
    centralSize' := SatAdd(SatAdd(centralSize, |header|), |c.name|);
    Associate(output, header, c.name);
  }

  /** The central directory, appended after the local records. */
  method WriteCentrals(central: seq<CentralEntry>, output: seq<byte>) returns (output': seq<byte>, centralSize: nat)
    requires forall c | c in central :: CentralFits(c)
    ensures output' == output + Centrals(central) && centralSize == Saturated(|Centrals(central)|)
  {
    output', centralSize := output, 0;
    for i := 0 to |central|
      invariant output' == output + Centrals(central[..i])
      invariant centralSize == Saturated(|Centrals(central[..i])|)
    {
      assert central[i] in central;
      CentralsNext(central, i);
      Associate(output, Centrals(central[..i]), CentralRecord(central[i]));
      output', centralSize := WriteCentral(output', centralSize, central[i]);
    }
    assert central[..|central|] == central;
  }

  /** Main result: the writer returns exactly the described archive, or the first reason it cannot. */
  method WriteZip(entries: seq<ZipEntry>) returns (r: Result<seq<byte>, ZipError>)
    ensures r == match Failure(AllStored(entries))
      case Some(error) => Err(error)
      case None => Ok(Archive(AllStored(entries)))
  {
    ghost var all := AllStored(entries);
    if |entries| >= ZIP16_LIMIT {
      return Err(TooManyEntries);
    }
    var written, local, outputOffset := WriteLocals(entries);
    if written.Err? {
      return Err(written.error);
    }
    if outputOffset >= ZIP32_LIMIT {
      return Err(ArchiveTooLarge);
    }
    EntriesFit(all);
    DirectoryFits(all);
    var output, centralSize := WriteCentrals(written.value, local);
    if centralSize >= ZIP32_LIMIT {
      return Err(ArchiveTooLarge);
    }
    output := WriteEnd(output, |written.value|, centralSize, outputOffset, all);
    r := Ok(output);
  }

  method WriteEnd(output: seq<byte>, count: nat, centralSize: nat, centralOffset: nat, ghost all: seq<Stored>)
    returns (output': seq<byte>)
    requires count == |all| < ZIP16_LIMIT
    requires centralSize == |Centrals(Directory(all))| < ZIP32_LIMIT && centralOffset == |Locals(all)| < ZIP32_LIMIT
    requires output == Locals(all) + Centrals(Directory(all))
    ensures output' == Archive(all)
  {
    var end := EndRecordBuffer(count, centralSize, centralOffset);
    output' := output + end;
    Associate(Locals(all), Centrals(Directory(all)), end);
  }
}
