/** The strict PNG profile of src/frame_io.rs as a declarative grammar over chunk
    lists, with the byte layout of RFC 2083 section 3.2. */
module PngFormat {
  import opened Bits
  import opened Crc32

  // Chunk types, read as one big-endian word.
  const IHDR: u32 := 0x4948_4452
  const IDAT: u32 := 0x4944_4154
  const IEND: u32 := 0x4945_4e44
  const SRGB: u32 := 0x7352_4742
  const GAMA: u32 := 0x6741_4d41
  const CHRM: u32 := 0x6348_524d
  const CICP: u32 := 0x6349_4350
  const PHYS: u32 := 0x7048_5973

  const MAXIMUM_PNG_CHUNKS := 65_536
  const LEGACY_GAMMA: u32 := 45455
  const BT709_GAMMA: u32 := 50994

  const SIGNATURE: seq<byte> := [137, 80, 78, 71, 13, 10, 26, 10]

  // -------------------------------------------------------------------- layout

  datatype RawChunk = Chunk(kind: u32, payload: seq<byte>)

  type Chunk = c: RawChunk | |c.payload| < 0x1_0000_0000 witness RawChunk.Chunk(IEND, [])

  /** The stored checksum: over the type and the payload, complemented. */
  function Checksum(kind: u32, payload: seq<byte>): u32 {
    0xffff_ffff - Update(Update(INITIAL, BigEndian(kind)), payload)
  }

  /** The test writer `chunk`: length, type, payload, checksum. */
  function ChunkBytes(c: Chunk): (bytes: seq<byte>)
    ensures |bytes| == |c.payload| + 12
  {
    BigEndian(|c.payload|) + BigEndian(c.kind) + c.payload + BigEndian(Checksum(c.kind, c.payload))
  }

  function Body(chunks: seq<Chunk>): seq<byte> {
    if chunks == [] then [] else ChunkBytes(chunks[0]) + Body(chunks[1..])
  }

  function FileBytes(chunks: seq<Chunk>): seq<byte> {
    SIGNATURE + Body(chunks)
  }

  // ------------------------------------------------------------------- grammar

  function Header(width: u32, height: u32): Chunk {
    RawChunk.Chunk(IHDR, BigEndian(width) + BigEndian(height) + [8, 2, 0, 0, 0])
  }

  const SDR_CHROMATICITIES: seq<byte> :=
    BigEndian(31270) + BigEndian(32900) + BigEndian(64000) + BigEndian(33000)
    + BigEndian(30000) + BigEndian(60000) + BigEndian(15000) + BigEndian(6000)

  /** An optional declaration the profile admits before the image data. */
  predicate Ancillary(c: Chunk) {
    || (c.kind == SRGB && |c.payload| == 1 && c.payload[0] <= 3)
    || (c.kind == GAMA && c.payload in {BigEndian(LEGACY_GAMMA), BigEndian(BT709_GAMMA)})
    || (c.kind == CHRM && c.payload == SDR_CHROMATICITIES)
    || (c.kind == CICP && c.payload == [1, 1, 0, 1])
    || (c.kind == PHYS && |c.payload| == 9 && c.payload[..4] == c.payload[4..8] != [0, 0, 0, 0] && c.payload[8] <= 1)
  }

  predicate Declares(chunks: seq<Chunk>, kind: u32) {
    exists i :: 0 <= i < |chunks| && chunks[i].kind == kind
  }

  predicate DeclaresGamma(chunks: seq<Chunk>, gamma: u32) {
    exists i :: 0 <= i < |chunks| && chunks[i].kind == GAMA && chunks[i].payload == BigEndian(gamma)
  }

  /** cICP goes with the BT.709 gamma or none, and never with sRGB; without cICP the
      BT.709 gamma is not admitted. */
  predicate ColoursAgree(chunks: seq<Chunk>) {
    if Declares(chunks, CICP)
    then !Declares(chunks, SRGB) && !DeclaresGamma(chunks, LEGACY_GAMMA)
    else !DeclaresGamma(chunks, BT709_GAMMA)
  }

  /** The profile: header, distinct declarations in any order, one or more consecutive
      image data chunks, empty end chunk, at most 65,536 chunks, no colour conflict. */
  predicate Conforming(chunks: seq<Chunk>, width: u32, height: u32) {
    var last := |chunks| - 1;
    && 3 <= |chunks| <= MAXIMUM_PNG_CHUNKS
    && chunks[0] == Header(width, height)
    && chunks[last] == RawChunk.Chunk(IEND, [])
    && (forall i :: 0 < i < last ==> chunks[i].kind == IDAT || Ancillary(chunks[i]))
    && (forall i, j :: 0 < i < j < last && chunks[i].kind == IDAT ==> chunks[j].kind == IDAT)
    && (forall i, j :: 0 < i < j < last && chunks[i].kind == chunks[j].kind ==> chunks[i].kind == IDAT)
    && Declares(chunks, IDAT)
    && ColoursAgree(chunks)
  }

  ghost predicate IsConformingFile(file: seq<byte>, width: u32, height: u32) {
    exists chunks: seq<Chunk> :: Conforming(chunks, width, height) && file == FileBytes(chunks)
  }

  // -------------------------------------------------------- unique decomposition

  /** What a reader finds at the front of a chunk's bytes. */
  lemma ChunkFields(c: Chunk, rest: seq<byte>)
    ensures var bytes := ChunkBytes(c) + rest;
            var n := |c.payload|;
            && Word(bytes[..4]) == n
            && Word(bytes[4..8]) == c.kind
            && bytes[8..8 + n] == c.payload
            && Word(bytes[8 + n..12 + n]) == Checksum(c.kind, c.payload)
            && bytes[12 + n..] == rest
  {
    hide BigEndian, Word, Checksum;
    var n := |c.payload|;
    var bytes := ChunkBytes(c) + rest;
    assert bytes[..4] == BigEndian(n);
    assert bytes[4..8] == BigEndian(c.kind);
    assert bytes[8 + n..12 + n] == BigEndian(Checksum(c.kind, c.payload));
    WordOfBigEndian(n);
    WordOfBigEndian(c.kind);
    WordOfBigEndian(Checksum(c.kind, c.payload));
  }

  /** A chunk with its four fields in place is the front of the bytes. */
  lemma FieldsMakeChunk(bytes: seq<byte>, c: Chunk)
    requires |bytes| >= |c.payload| + 12
    requires Word(bytes[..4]) == |c.payload|
    requires Word(bytes[4..8]) == c.kind
    requires bytes[8..8 + |c.payload|] == c.payload
    requires Word(bytes[8 + |c.payload|..12 + |c.payload|]) == Checksum(c.kind, c.payload)
    ensures bytes == ChunkBytes(c) + bytes[12 + |c.payload|..]
  {
    hide BigEndian, Word, Checksum;
    var n := |c.payload|;
    BigEndianOfWord(bytes[..4]);
    BigEndianOfWord(bytes[4..8]);
    BigEndianOfWord(bytes[8 + n..12 + n]);
    assert bytes == bytes[..4] + bytes[4..8] + bytes[8..8 + n] + bytes[8 + n..12 + n] + bytes[12 + n..];
  }

  /** Chunk layout is self-delimiting. */
  lemma ChunkIsPrefixCode(c: Chunk, rest: seq<byte>, c': Chunk, rest': seq<byte>)
    requires ChunkBytes(c) + rest == ChunkBytes(c') + rest'
    ensures c == c' && rest == rest'
  {
    hide ChunkBytes, Word, Checksum;
    ChunkFields(c, rest);
    ChunkFields(c', rest');
  }

  lemma BodyHead(chunks: seq<Chunk>)
    requires chunks != []
    ensures Body(chunks) == ChunkBytes(chunks[0]) + Body(chunks[1..])
  {
  }

  /** A common front of two serialised lists decodes to common chunks. */
  lemma {:induction false} BodyPrefix(front: seq<Chunk>, rest: seq<byte>, chunks: seq<Chunk>)
    requires Body(front) + rest == Body(chunks)
    requires rest != []
    ensures |front| <= |chunks| && chunks[..|front|] == front
    ensures rest == Body(chunks[|front|..])
    decreases |front|
  {
    hide ChunkBytes;
    if front == [] {
      assert Body(front) + rest == rest;
      assert chunks[0..] == chunks;
    } else {
      BodyHead(front);
      assert Body(front) + rest == ChunkBytes(front[0]) + (Body(front[1..]) + rest);
      assert chunks != [];
      BodyHead(chunks);
      ChunkIsPrefixCode(front[0], Body(front[1..]) + rest, chunks[0], Body(chunks[1..]));
      BodyPrefix(front[1..], rest, chunks[1..]);
      assert chunks[|front|..] == chunks[1..][|front| - 1..];
      assert front == [front[0]] + front[1..];
      assert chunks[..|front|] == [chunks[0]] + chunks[1..][..|front| - 1];
    }
  }

  lemma {:induction false} BodyIsInjective(left: seq<Chunk>, right: seq<Chunk>)
    requires Body(left) == Body(right)
    ensures left == right
    decreases |left|
  {
    hide ChunkBytes;
    if left != [] && right != [] {
      BodyHead(left);
      BodyHead(right);
      ChunkIsPrefixCode(left[0], Body(left[1..]), right[0], Body(right[1..]));
      BodyIsInjective(left[1..], right[1..]);
      assert left == [left[0]] + left[1..] && right == [right[0]] + right[1..];
    }
  }

  /** Printer and parser agree on boundaries: no file has two decompositions. */
  lemma DecompositionIsUnique(left: seq<Chunk>, right: seq<Chunk>)
    requires FileBytes(left) == FileBytes(right)
    ensures left == right
  {
    assert Body(left) == FileBytes(left)[8..];
    assert Body(right) == FileBytes(right)[8..];
    BodyIsInjective(left, right);
  }
}
