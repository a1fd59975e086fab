/** Little-endian numbers: `to_le_bytes` and its inverse. */
module LittleEndian {
  import opened Crc32

  function U16(n: nat): (bytes: seq<byte>)
    ensures |bytes| == 2
  {
    [n % 256, n / 256 % 256]
  }

  function U32(n: nat): (bytes: seq<byte>)
    ensures |bytes| == 4
  {
    [n % 256, n / 256 % 256, n / 0x1_0000 % 256, n / 0x100_0000 % 256]
  }

  function U16At(bytes: seq<byte>, i: nat): nat
    requires i + 2 <= |bytes|
  {
    (bytes[i] as nat) + 256 * (bytes[i + 1] as nat)
  }

  function U32At(bytes: seq<byte>, i: nat): nat
    requires i + 4 <= |bytes|
  {
    (bytes[i] as nat) + 256 * (bytes[i + 1] as nat) + 0x1_0000 * (bytes[i + 2] as nat) +
      0x100_0000 * (bytes[i + 3] as nat)
  }

  /** Reading back two bytes gives the number when sixteen bits hold it. */
  lemma U16RoundTrip(n: nat)
    requires n < 0x1_0000
    ensures U16At(U16(n), 0) == n
  {
  }

  lemma U32RoundTrip(n: nat)
    requires n < 0x1_0000_0000
    ensures U32At(U32(n), 0) == n
  {
    var a := n / 256;
    var b := a / 256;
    assert n / 0x1_0000 == b && n / 0x100_0000 == b / 256;
  }
}

/**
 * The ZIP32 archive of a list of stored members (PKWARE APPNOTE sections 4.3.7, 4.3.9, 4.3.12 and
 * 4.3.16). A checksum is the four bytes that stand in the file; how it is computed plays no part here.
 */
module ZipLayout {
  import opened Crc32
  import opened LittleEndian

  type Word = w: seq<byte> | |w| == 4 witness [0, 0, 0, 0]

  const ZIP16_LIMIT: nat := 0x1_0000
  const ZIP32_LIMIT: nat := 0x1_0000_0000

  const LOCAL_SIGNATURE: nat := 0x0403_4b50
  const DESCRIPTOR_SIGNATURE: nat := 0x0807_4b50
  const CENTRAL_SIGNATURE: nat := 0x0201_4b50
  const END_SIGNATURE: nat := 0x0605_4b50
  const VERSION: nat := 20
  const FLAGS: nat := 0x0808  // sizes in a data descriptor, UTF-8 names

  datatype Stored = Stored(name: seq<byte>, data: seq<byte>, crc: Word)

  /** What the central directory says of the member whose local header stands at `localOffset`. */
  datatype CentralEntry = CentralEntry(crc: Word, localOffset: nat, name: seq<byte>, size: nat)

  predicate CentralFits(c: CentralEntry) {
    c.size < ZIP32_LIMIT && |c.name| < ZIP16_LIMIT && c.localOffset < ZIP32_LIMIT
  }

  function Zeros(n: nat): (bytes: seq<byte>)
    ensures |bytes| == n && forall i | 0 <= i < n :: bytes[i] == 0
  {
    seq(n, _ => 0)
  }

  function LocalHeader(nameLength: nat): (h: seq<byte>)
    ensures |h| == 30
  {
    U32(LOCAL_SIGNATURE) + (U16(VERSION) + (U16(FLAGS) + (Zeros(18) + (U16(nameLength) + Zeros(2)))))
  }

  function Descriptor(crc: Word, size: nat): (d: seq<byte>)
    ensures |d| == 16
  {
    U32(DESCRIPTOR_SIGNATURE) + (crc + (U32(size) + U32(size)))
  }

  function CentralHeader(crc: Word, size: nat, nameLength: nat, offset: nat): (h: seq<byte>)
    ensures |h| == 46
  {
    U32(CENTRAL_SIGNATURE) + (U16(VERSION) + (U16(VERSION) + (U16(FLAGS) + (Zeros(6) + (crc + (U32(size) +
    (U32(size) + (U16(nameLength) + (Zeros(12) + U32(offset))))))))))
  }

  function EndRecord(count: nat, centralSize: nat, centralOffset: nat): (e: seq<byte>)
    ensures |e| == 22
  {
    U32(END_SIGNATURE) + (Zeros(4) + (U16(count) + (U16(count) + (U32(centralSize) + (U32(centralOffset) + Zeros(2))))))
  }

  function LocalRecord(s: Stored): seq<byte> {
    LocalHeader(|s.name|) + (s.name + (s.data + Descriptor(s.crc, |s.data|)))
  }

  lemma LocalRecordLength(s: Stored)
    ensures |LocalRecord(s)| == 46 + |s.name| + |s.data|
  {
  }

  function Locals(all: seq<Stored>): seq<byte> {
    if all == [] then [] else Locals(all[..|all| - 1]) + LocalRecord(all[|all| - 1])
  }

  function CentralOf(s: Stored, offset: nat): CentralEntry {
    CentralEntry(s.crc, offset, s.name, |s.data|)
  }

  function Directory(all: seq<Stored>): seq<CentralEntry> {
    if all == [] then [] else
      var front := all[..|all| - 1];
      Directory(front) + [CentralOf(all[|all| - 1], |Locals(front)|)]
  }

  function CentralRecord(c: CentralEntry): seq<byte> {
    CentralHeader(c.crc, c.size, |c.name|, c.localOffset) + c.name
  }

  function Centrals(central: seq<CentralEntry>): seq<byte> {
    if central == [] then [] else Centrals(central[..|central| - 1]) + CentralRecord(central[|central| - 1])
  }

  lemma CentralsNext(central: seq<CentralEntry>, i: nat)
    requires i < |central|
    ensures Centrals(central[..i + 1]) == Centrals(central[..i]) + CentralRecord(central[i])
  {
    assert central[..i + 1][..i] == central[..i];
  }

  function Archive(all: seq<Stored>): seq<byte> {
    var local, central := Locals(all), Centrals(Directory(all));
    local + (central + EndRecord(|all|, |central|, |local|))
  }

  /** The archive fits the format's 16-bit and 32-bit fields. */
  ghost predicate WithinZip32(all: seq<Stored>) {
    && |all| < ZIP16_LIMIT
    && (forall s | s in all :: |s.name| < ZIP16_LIMIT)
    && |Locals(all)| < ZIP32_LIMIT
    && |Centrals(Directory(all))| < ZIP32_LIMIT
  }

  /** Every record's fields hold what they must: no size, offset or name length is cut short. */
  lemma {:induction false} DirectoryFits(all: seq<Stored>)
    requires |Locals(all)| < ZIP32_LIMIT && forall s | s in all :: |s.name| < ZIP16_LIMIT
    ensures |Directory(all)| == |all|
    ensures forall c | c in Directory(all) :: CentralFits(c)
  {
    if all != [] {
      LocalRecordLength(all[|all| - 1]);
      DirectoryFits(all[..|all| - 1]);
    }
  }

  // ---- Pieces of a file --------------------------------------------------------------------

  /** `piece` stands in `file` at `pos`. */
  ghost predicate Holds(file: seq<byte>, pos: nat, piece: seq<byte>) {
    pos + |piece| <= |file| && file[pos..pos + |piece|] == piece
  }

  lemma HoldsSplit(file: seq<byte>, pos: nat, a: seq<byte>, b: seq<byte>)
    requires Holds(file, pos, a + b)
    ensures Holds(file, pos, a) && Holds(file, pos + |a|, b)
  {
    var whole := file[pos..pos + |a + b|];
    assert whole[..|a|] == a && whole[|a|..] == b;
    assert file[pos..pos + |a|] == whole[..|a|] && file[pos + |a|..pos + |a| + |b|] == whole[|a|..];
  }

  lemma HeldByte(file: seq<byte>, pos: nat, piece: seq<byte>, k: nat)
    requires Holds(file, pos, piece) && k < |piece|
    ensures file[pos + k] == piece[k]
  {
    assert file[pos..pos + |piece|][k] == file[pos + k];
  }

  lemma ReadU16(file: seq<byte>, pos: nat, n: nat)
    requires Holds(file, pos, U16(n)) && n < ZIP16_LIMIT
    ensures U16At(file, pos) == n
  {
    var piece := U16(n);
    HeldByte(file, pos, piece, 0);
    HeldByte(file, pos, piece, 1);
    SameU16(file, pos, piece);
    U16RoundTrip(n);
  }

  lemma SameU16(file: seq<byte>, pos: nat, piece: seq<byte>)
    requires |piece| == 2 && pos + 2 <= |file| && file[pos] == piece[0] && file[pos + 1] == piece[1]
    ensures U16At(file, pos) == U16At(piece, 0)
  {
  }

  lemma ReadU32(file: seq<byte>, pos: nat, n: nat)
    requires Holds(file, pos, U32(n)) && n < ZIP32_LIMIT
    ensures U32At(file, pos) == n
  {
    var piece := U32(n);
    HeldByte(file, pos, piece, 0);
    HeldByte(file, pos, piece, 1);
    HeldByte(file, pos, piece, 2);
    HeldByte(file, pos, piece, 3);
    SameU32(file, pos, piece);
    U32RoundTrip(n);
  }

  lemma SameU32(file: seq<byte>, pos: nat, piece: seq<byte>)
    requires |piece| == 4 && pos + 4 <= |file|
    requires file[pos] == piece[0] && file[pos + 1] == piece[1] && file[pos + 2] == piece[2] &&
      file[pos + 3] == piece[3]
    ensures U32At(file, pos) == U32At(piece, 0)
  {
  }
}
