/** Checksums and whole files worked out: what the reader of src/frame_io.rs makes of bytes
    that any PNG tool writes. */
module KnownFiles {
  import opened Bits
  import opened Crc32
  import opened PngFormat
  import opened PngInspection
  import opened Registers

  // ----------------------------------------------------------------------- checksums

  lemma CheckDivided()
    ensures Update(INITIAL, [49, 50, 51, 52, 53, 54, 55, 56, 57]) == Register(0x340b_c6d9)
  {
    hide Update, Register;
    FeedNothing();
    var m: seq<byte> := [];
    FeedFour(m, 0xffff_ffff, 49, 50, 51, 52, [49, 50, 51, 52], 0x641c_1f5c);
    var m0 := m + [49, 50, 51, 52];
    FeedFour(m0, 0x641c_1f5c, 53, 54, 55, 56, [53, 54, 55, 56], 0x651f_2550);
    var m1 := m0 + [53, 54, 55, 56];
    FeedOne(m1, 0x651f_2550, 57, [57], 0x340b_c6d9);
    var m2 := m1 + [57];
    assert m2 == [49, 50, 51, 52, 53, 54, 55, 56, 57];
  }

  /** The check value of CRC-32: the checksum of the nine digits. */
  lemma CheckValue()
    ensures 0xffff_ffff - Update(INITIAL, [49, 50, 51, 52, 53, 54, 55, 56, 57]) == 0xcbf4_3926
  {
    hide Update, Register;
    CheckDivided();
    RegisterIs(0x340b_c6d9, 0x340b_c6d9);
  }

  // -------------------------------------------------------------------------- chunks

  /** The types are the four letters of their names. */
  lemma KindNames()
    ensures BigEndian(IHDR) == [73, 72, 68, 82] && BigEndian(IDAT) == [73, 68, 65, 84]
    ensures BigEndian(IEND) == [73, 69, 78, 68] && BigEndian(SRGB) == [115, 82, 71, 66]
    ensures BigEndian(GAMA) == [103, 65, 77, 65] && BigEndian(CHRM) == [99, 72, 82, 77]
    ensures BigEndian(CICP) == [99, 73, 67, 80] && BigEndian(PHYS) == [112, 72, 89, 115]
  {
  }

  lemma Chromaticities()
    ensures SDR_CHROMATICITIES == [0, 0, 122, 38, 0, 0, 128, 132, 0, 0, 250, 0, 0, 0, 128, 232, 0, 0, 117, 48, 0,
      0, 234, 96, 0, 0, 58, 152, 0, 0, 23, 112]
  {
    assert BigEndian(31270) == [0, 0, 122, 38] && BigEndian(32900) == [0, 0, 128, 132];
    assert BigEndian(64000) == [0, 0, 250, 0] && BigEndian(33000) == [0, 0, 128, 232];
    assert BigEndian(30000) == [0, 0, 117, 48] && BigEndian(60000) == [0, 0, 234, 96];
    assert BigEndian(15000) == [0, 0, 58, 152] && BigEndian(6000) == [0, 0, 23, 112];
    hide BigEndian;
  }

  lemma OnePixel()
    ensures Header(1, 1) == RawChunk.Chunk(IHDR, [0, 0, 0, 1, 0, 0, 0, 1, 8, 2, 0, 0, 0])
  {
    assert BigEndian(1) == [0, 0, 0, 1];
    hide BigEndian;
  }

  lemma ShortLength(n: nat)
    requires n < 0x100
    ensures BigEndian(n) == [0, 0, 0, n]
  {
  }

  /** A chunk from its parts: its type and payload divided, and its length and checksum as
      four bytes, the most significant first. */
  lemma ChunkOf(kind: u32, name: seq<byte>, payload: seq<byte>, message: seq<byte>, x: bv32, length: seq<byte>,
                sum: seq<byte>)
    requires BigEndian(kind) == name && name + payload == message && |payload| < 0x100
    requires Update(INITIAL, message) == Register(x)
    requires length == [0, 0, 0, |payload|] && |sum| == 4 && Word(sum) == 0xffff_ffff - Value(x)
    ensures ChunkBytes(RawChunk.Chunk(kind, payload)) == length + name + payload + sum
  {
    hide Update, Register, Word, BigEndian, Value;
    RegisterIs(x, Value(x));
    ChecksumJoins(kind, payload);
    ShortLength(|payload|);
    BigEndianOfWord(sum);
  }

  lemma HeaderChunkDividedTo12()
    ensures Update(INITIAL, [73, 72, 68, 82, 0, 0, 0, 1, 0, 0, 0, 1]) == Register(0xc4f9_9b57)
  {
    hide Update, Register;
    FeedNothing();
    var m: seq<byte> := [];
    FeedFour(m, 0xffff_ffff, 73, 72, 68, 82, [73, 72, 68, 82], 0x575e_51f5);
    var m0 := m + [73, 72, 68, 82];
    FeedFour(m0, 0x575e_51f5, 0, 0, 0, 1, [0, 0, 0, 1], 0x7af6_2609);
    var m1 := m0 + [0, 0, 0, 1];
    FeedFour(m1, 0x7af6_2609, 0, 0, 0, 1, [0, 0, 0, 1], 0xc4f9_9b57);
    var m2 := m1 + [0, 0, 0, 1];
    assert m2 == [73, 72, 68, 82, 0, 0, 0, 1, 0, 0, 0, 1];
  }

  lemma HeaderChunkDivided()
    ensures Update(INITIAL, [73, 72, 68, 82, 0, 0, 0, 1, 0, 0, 0, 1, 8, 2, 0, 0, 0]) == Register(0x6f88_ac21)
  {
    hide Update, Register;
    HeaderChunkDividedTo12();
    var m: seq<byte> := [73, 72, 68, 82, 0, 0, 0, 1, 0, 0, 0, 1];
    FeedFour(m, 0xc4f9_9b57, 8, 2, 0, 0, [8, 2, 0, 0], 0x38db_c0d6);
    var m0 := m + [8, 2, 0, 0];
    FeedOne(m0, 0x38db_c0d6, 0, [0], 0x6f88_ac21);
    var m1 := m0 + [0];
    assert m1 == [73, 72, 68, 82, 0, 0, 0, 1, 0, 0, 0, 1, 8, 2, 0, 0, 0];
  }

  lemma HeaderChunkSum()
    ensures Word([144, 119, 83, 222]) == 0xffff_ffff - Value(0x6f88_ac21)
  {
  }

  /** IHDR of one pixel, eight bits a channel. */
  lemma HeaderChunk()
    ensures ChunkBytes(Header(1, 1)) == [0, 0, 0, 13, 73, 72, 68, 82, 0, 0, 0, 1, 0, 0, 0, 1, 8, 2, 0, 0, 0, 144,
      119, 83, 222]
  {
    hide Update, Register, ChunkBytes, BigEndian, Checksum, Word, Value;
    KindNames();
    OnePixel();
    HeaderChunkDivided();
    HeaderChunkSum();
    ChunkOf(IHDR, [73, 72, 68, 82], [0, 0, 0, 1, 0, 0, 0, 1, 8, 2, 0, 0, 0], [73, 72, 68, 82, 0, 0, 0, 1, 0, 0, 0,
      1, 8, 2, 0, 0, 0], 0x6f88_ac21, [0, 0, 0, 13], [144, 119, 83, 222]);
  }

  lemma IntentChunkDivided()
    ensures Update(INITIAL, [115, 82, 71, 66, 0]) == Register(0x5131_e316)
  {
    hide Update, Register;
    FeedNothing();
    var m: seq<byte> := [];
    FeedFour(m, 0xffff_ffff, 115, 82, 71, 66, [115, 82, 71, 66], 0xefe3_2c31);
    var m0 := m + [115, 82, 71, 66];
    FeedOne(m0, 0xefe3_2c31, 0, [0], 0x5131_e316);
    var m1 := m0 + [0];
    assert m1 == [115, 82, 71, 66, 0];
  }

  lemma IntentChunkSum()
    ensures Word([174, 206, 28, 233]) == 0xffff_ffff - Value(0x5131_e316)
  {
  }

  /** sRGB. */
  lemma IntentChunk()
    ensures ChunkBytes(RawChunk.Chunk(SRGB, [0])) == [0, 0, 0, 1, 115, 82, 71, 66, 0, 174, 206, 28, 233]
  {
    hide Update, Register, ChunkBytes, BigEndian, Checksum, Word, Value;
    KindNames();
    IntentChunkDivided();
    IntentChunkSum();
    ChunkOf(SRGB, [115, 82, 71, 66], [0], [115, 82, 71, 66, 0], 0x5131_e316, [0, 0, 0, 1], [174, 206, 28, 233]);
  }

  lemma LegacyGammaChunkDivided()
    ensures Update(INITIAL, [103, 65, 77, 65, 0, 0, 177, 143]) == Register(0xf403_9efa)
  {
    hide Update, Register;
    FeedNothing();
    var m: seq<byte> := [];
    FeedFour(m, 0xffff_ffff, 103, 65, 77, 65, [103, 65, 77, 65], 0x4d1e_48e0);
    var m0 := m + [103, 65, 77, 65];
    FeedFour(m0, 0x4d1e_48e0, 0, 0, 177, 143, [0, 0, 177, 143], 0xf403_9efa);
    var m1 := m0 + [0, 0, 177, 143];
    assert m1 == [103, 65, 77, 65, 0, 0, 177, 143];
  }

  lemma LegacyGammaChunkSum()
    ensures Word([11, 252, 97, 5]) == 0xffff_ffff - Value(0xf403_9efa)
  {
  }

  /** gAMA of sRGB files. */
  lemma LegacyGammaChunk()
    ensures ChunkBytes(RawChunk.Chunk(GAMA, [0, 0, 177, 143])) == [0, 0, 0, 4, 103, 65, 77, 65, 0, 0, 177, 143, 11,
      252, 97, 5]
  {
    hide Update, Register, ChunkBytes, BigEndian, Checksum, Word, Value;
    KindNames();
    LegacyGammaChunkDivided();
    LegacyGammaChunkSum();
    ChunkOf(GAMA, [103, 65, 77, 65], [0, 0, 177, 143], [103, 65, 77, 65, 0, 0, 177, 143], 0xf403_9efa, [0, 0, 0,
      4], [11, 252, 97, 5]);
  }

  lemma ChromaticitiesChunkDividedTo12()
    ensures Update(INITIAL, [99, 72, 82, 77, 0, 0, 122, 38, 0, 0, 128, 132]) == Register(0x103f_e696)
  {
    hide Update, Register;
    FeedNothing();
    var m: seq<byte> := [];
    FeedFour(m, 0xffff_ffff, 99, 72, 82, 77, [99, 72, 82, 77], 0x0941_a68d);
    var m0 := m + [99, 72, 82, 77];
    FeedFour(m0, 0x0941_a68d, 0, 0, 122, 38, [0, 0, 122, 38], 0x55a5_9d55);
    var m1 := m0 + [0, 0, 122, 38];
    FeedFour(m1, 0x55a5_9d55, 0, 0, 128, 132, [0, 0, 128, 132], 0x103f_e696);
    var m2 := m1 + [0, 0, 128, 132];
    assert m2 == [99, 72, 82, 77, 0, 0, 122, 38, 0, 0, 128, 132];
  }

  lemma ChromaticitiesChunkDividedTo24()
    ensures Update(INITIAL, [99, 72, 82, 77, 0, 0, 122, 38, 0, 0, 128, 132, 0, 0, 250, 0, 0, 0, 128, 232, 0, 0,
      117, 48]) == Register(0x0cb1_ec55)
  {
    hide Update, Register;
    ChromaticitiesChunkDividedTo12();
    var m: seq<byte> := [99, 72, 82, 77, 0, 0, 122, 38, 0, 0, 128, 132];
    FeedFour(m, 0x103f_e696, 0, 0, 250, 0, [0, 0, 250, 0], 0x9e7e_2105);
    var m0 := m + [0, 0, 250, 0];
    FeedFour(m0, 0x9e7e_2105, 0, 0, 128, 232, [0, 0, 128, 232], 0x3d08_c4df);
    var m1 := m0 + [0, 0, 128, 232];
    FeedFour(m1, 0x3d08_c4df, 0, 0, 117, 48, [0, 0, 117, 48], 0x0cb1_ec55);
    var m2 := m1 + [0, 0, 117, 48];
    assert m2 == [99, 72, 82, 77, 0, 0, 122, 38, 0, 0, 128, 132, 0, 0, 250, 0, 0, 0, 128, 232, 0, 0, 117, 48];
  }

  lemma ChromaticitiesChunkDivided()
    ensures Update(INITIAL, [99, 72, 82, 77, 0, 0, 122, 38, 0, 0, 128, 132, 0, 0, 250, 0, 0, 0, 128, 232, 0, 0,
      117, 48, 0, 0, 234, 96, 0, 0, 58, 152, 0, 0, 23, 112]) == Register(0x6345_aec3)
  {
    hide Update, Register;
    ChromaticitiesChunkDividedTo24();
    var m: seq<byte> := [99, 72, 82, 77, 0, 0, 122, 38, 0, 0, 128, 132, 0, 0, 250, 0, 0, 0, 128, 232, 0, 0, 117,
      48];
    FeedFour(m, 0x0cb1_ec55, 0, 0, 234, 96, [0, 0, 234, 96], 0x4160_7fb8);
    var m0 := m + [0, 0, 234, 96];
    FeedFour(m0, 0x4160_7fb8, 0, 0, 58, 152, [0, 0, 58, 152], 0x3830_96b6);
    var m1 := m0 + [0, 0, 58, 152];
    FeedFour(m1, 0x3830_96b6, 0, 0, 23, 112, [0, 0, 23, 112], 0x6345_aec3);
    var m2 := m1 + [0, 0, 23, 112];
    assert m2 == [99, 72, 82, 77, 0, 0, 122, 38, 0, 0, 128, 132, 0, 0, 250, 0, 0, 0, 128, 232, 0, 0, 117, 48, 0, 0,
      234, 96, 0, 0, 58, 152, 0, 0, 23, 112];
  }

  lemma ChromaticitiesChunkSum()
    ensures Word([156, 186, 81, 60]) == 0xffff_ffff - Value(0x6345_aec3)
  {
  }

  lemma ChromaticitiesChunkJoins()
    ensures [99, 72, 82, 77] + [0, 0, 122, 38, 0, 0, 128, 132, 0, 0, 250, 0, 0,
      0, 128, 232, 0, 0, 117, 48, 0, 0, 234, 96, 0, 0, 58, 152, 0, 0, 23, 112] == [99, 72, 82, 77, 0, 0, 122, 38,
      0, 0, 128, 132, 0, 0, 250, 0, 0, 0, 128, 232, 0, 0, 117, 48, 0, 0, 234, 96, 0, 0, 58, 152, 0, 0, 23, 112]
  {
  }

  lemma ChromaticitiesChunkBytes()
    ensures [0, 0, 0, 32] + [99, 72, 82, 77] + [0, 0, 122, 38, 0, 0, 128, 132,
      0, 0, 250, 0, 0, 0, 128, 232, 0, 0, 117, 48, 0, 0, 234, 96, 0, 0, 58, 152, 0, 0, 23, 112] + [156, 186, 81,
      60] == [0, 0, 0, 32, 99, 72, 82, 77, 0, 0, 122, 38, 0, 0, 128, 132, 0, 0, 250, 0, 0, 0, 128, 232, 0, 0, 117,
      48, 0, 0, 234, 96, 0, 0, 58, 152, 0, 0, 23, 112, 156, 186, 81, 60]
  {
  }

  /** cHRM. */
  lemma ChromaticitiesChunk()
    ensures ChunkBytes(RawChunk.Chunk(CHRM, SDR_CHROMATICITIES)) == [0, 0, 0, 32, 99, 72, 82, 77, 0, 0, 122, 38, 0,
      0, 128, 132, 0, 0, 250, 0, 0, 0, 128, 232, 0, 0, 117, 48, 0, 0, 234, 96, 0, 0, 58, 152, 0, 0, 23, 112, 156,
      186, 81, 60]
  {
    hide Update, Register, ChunkBytes, BigEndian, Checksum, Word, Value;
    KindNames();
    Chromaticities();
    ChromaticitiesChunkJoins();
    ChromaticitiesChunkBytes();
    ChromaticitiesChunkDivided();
    ChromaticitiesChunkSum();
    ChunkOf(CHRM, [99, 72, 82, 77], [0, 0, 122, 38, 0, 0, 128, 132, 0, 0, 250, 0, 0, 0, 128, 232, 0, 0, 117, 48, 0,
      0, 234, 96, 0, 0, 58, 152, 0, 0, 23, 112], [99, 72, 82, 77, 0, 0, 122, 38, 0, 0, 128, 132, 0, 0, 250, 0, 0,
      0, 128, 232, 0, 0, 117, 48, 0, 0, 234, 96, 0, 0, 58, 152, 0, 0, 23, 112], 0x6345_aec3, [0, 0, 0, 32], [156,
      186, 81, 60]);
  }

  lemma PixelsChunkDividedTo12()
    ensures Update(INITIAL, [112, 72, 89, 115, 0, 0, 11, 19, 0, 0, 11, 19]) == Register(0x6a09_97d8)
  {
    hide Update, Register;
    FeedNothing();
    var m: seq<byte> := [];
    FeedFour(m, 0xffff_ffff, 112, 72, 89, 115, [112, 72, 89, 115], 0x6978_9a9c);
    var m0 := m + [112, 72, 89, 115];
    FeedFour(m0, 0x6978_9a9c, 0, 0, 11, 19, [0, 0, 11, 19], 0xb3d0_d12d);
    var m1 := m0 + [0, 0, 11, 19];
    FeedFour(m1, 0xb3d0_d12d, 0, 0, 11, 19, [0, 0, 11, 19], 0x6a09_97d8);
    var m2 := m1 + [0, 0, 11, 19];
    assert m2 == [112, 72, 89, 115, 0, 0, 11, 19, 0, 0, 11, 19];
  }

  lemma PixelsChunkDivided()
    ensures Update(INITIAL, [112, 72, 89, 115, 0, 0, 11, 19, 0, 0, 11, 19, 1]) == Register(0xff65_63e7)
  {
    hide Update, Register;
    PixelsChunkDividedTo12();
    var m: seq<byte> := [112, 72, 89, 115, 0, 0, 11, 19, 0, 0, 11, 19];
    FeedOne(m, 0x6a09_97d8, 1, [1], 0xff65_63e7);
    var m0 := m + [1];
    assert m0 == [112, 72, 89, 115, 0, 0, 11, 19, 0, 0, 11, 19, 1];
  }

  lemma PixelsChunkSum()
    ensures Word([0, 154, 156, 24]) == 0xffff_ffff - Value(0xff65_63e7)
  {
  }

  /** pHYs of square pixels. */
  lemma PixelsChunk()
    ensures ChunkBytes(RawChunk.Chunk(PHYS, [0, 0, 11, 19, 0, 0, 11, 19, 1])) == [0, 0, 0, 9, 112, 72, 89, 115, 0,
      0, 11, 19, 0, 0, 11, 19, 1, 0, 154, 156, 24]
  {
    hide Update, Register, ChunkBytes, BigEndian, Checksum, Word, Value;
    KindNames();
    PixelsChunkDivided();
    PixelsChunkSum();
    ChunkOf(PHYS, [112, 72, 89, 115], [0, 0, 11, 19, 0, 0, 11, 19, 1], [112, 72, 89, 115, 0, 0, 11, 19, 0, 0, 11,
      19, 1], 0xff65_63e7, [0, 0, 0, 9], [0, 154, 156, 24]);
  }

  lemma CodingPointsChunkDivided()
    ensures Update(INITIAL, [99, 73, 67, 80, 1, 1, 0, 1]) == Register(0x6a8c_3da9)
  {
    hide Update, Register;
    FeedNothing();
    var m: seq<byte> := [];
    FeedFour(m, 0xffff_ffff, 99, 73, 67, 80, [99, 73, 67, 80], 0x385c_8373);
    var m0 := m + [99, 73, 67, 80];
    FeedFour(m0, 0x385c_8373, 1, 1, 0, 1, [1, 1, 0, 1], 0x6a8c_3da9);
    var m1 := m0 + [1, 1, 0, 1];
    assert m1 == [99, 73, 67, 80, 1, 1, 0, 1];
  }

  lemma CodingPointsChunkSum()
    ensures Word([149, 115, 194, 86]) == 0xffff_ffff - Value(0x6a8c_3da9)
  {
  }

  /** cICP. */
  lemma CodingPointsChunk()
    ensures ChunkBytes(RawChunk.Chunk(CICP, [1, 1, 0, 1])) == [0, 0, 0, 4, 99, 73, 67, 80, 1, 1, 0, 1, 149, 115,
      194, 86]
  {
    hide Update, Register, ChunkBytes, BigEndian, Checksum, Word, Value;
    KindNames();
    CodingPointsChunkDivided();
    CodingPointsChunkSum();
    ChunkOf(CICP, [99, 73, 67, 80], [1, 1, 0, 1], [99, 73, 67, 80, 1, 1, 0, 1], 0x6a8c_3da9, [0, 0, 0, 4], [149,
      115, 194, 86]);
  }

  lemma Bt709GammaChunkDivided()
    ensures Update(INITIAL, [103, 65, 77, 65, 0, 0, 199, 50]) == Register(0x38b6_8fbb)
  {
    hide Update, Register;
    FeedNothing();
    var m: seq<byte> := [];
    FeedFour(m, 0xffff_ffff, 103, 65, 77, 65, [103, 65, 77, 65], 0x4d1e_48e0);
    var m0 := m + [103, 65, 77, 65];
    FeedFour(m0, 0x4d1e_48e0, 0, 0, 199, 50, [0, 0, 199, 50], 0x38b6_8fbb);
    var m1 := m0 + [0, 0, 199, 50];
    assert m1 == [103, 65, 77, 65, 0, 0, 199, 50];
  }

  lemma Bt709GammaChunkSum()
    ensures Word([199, 73, 112, 68]) == 0xffff_ffff - Value(0x38b6_8fbb)
  {
  }

  /** gAMA of BT.709 files. */
  lemma Bt709GammaChunk()
    ensures ChunkBytes(RawChunk.Chunk(GAMA, [0, 0, 199, 50])) == [0, 0, 0, 4, 103, 65, 77, 65, 0, 0, 199, 50, 199,
      73, 112, 68]
  {
    hide Update, Register, ChunkBytes, BigEndian, Checksum, Word, Value;
    KindNames();
    Bt709GammaChunkDivided();
    Bt709GammaChunkSum();
    ChunkOf(GAMA, [103, 65, 77, 65], [0, 0, 199, 50], [103, 65, 77, 65, 0, 0, 199, 50], 0x38b6_8fbb, [0, 0, 0, 4],
      [199, 73, 112, 68]);
  }

  lemma DataChunkDividedTo12()
    ensures Update(INITIAL, [73, 68, 65, 84, 120, 156, 99, 96, 96, 96, 0, 0]) == Register(0x22c9_028f)
  {
    hide Update, Register;
    FeedNothing();
    var m: seq<byte> := [];
    FeedFour(m, 0xffff_ffff, 73, 68, 65, 84, [73, 68, 65, 84], 0xca50_f9e1);
    var m0 := m + [73, 68, 65, 84];
    FeedFour(m0, 0xca50_f9e1, 120, 156, 99, 96, [120, 156, 99, 96], 0x4c3c_8823);
    var m1 := m0 + [120, 156, 99, 96];
    FeedFour(m1, 0x4c3c_8823, 96, 96, 0, 0, [96, 96, 0, 0], 0x22c9_028f);
    var m2 := m1 + [96, 96, 0, 0];
    assert m2 == [73, 68, 65, 84, 120, 156, 99, 96, 96, 96, 0, 0];
  }

  lemma DataChunkDivided()
    ensures Update(INITIAL, [73, 68, 65, 84, 120, 156, 99, 96, 96, 96, 0, 0, 0, 4, 0, 1]) == Register(0x09e8_c7aa)
  {
    hide Update, Register;
    DataChunkDividedTo12();
    var m: seq<byte> := [73, 68, 65, 84, 120, 156, 99, 96, 96, 96, 0, 0];
    FeedFour(m, 0x22c9_028f, 0, 4, 0, 1, [0, 4, 0, 1], 0x09e8_c7aa);
    var m0 := m + [0, 4, 0, 1];
    assert m0 == [73, 68, 65, 84, 120, 156, 99, 96, 96, 96, 0, 0, 0, 4, 0, 1];
  }

  lemma DataChunkSum()
    ensures Word([246, 23, 56, 85]) == 0xffff_ffff - Value(0x09e8_c7aa)
  {
  }

  /** IDAT of one black pixel. */
  lemma DataChunk()
    ensures ChunkBytes(RawChunk.Chunk(IDAT, [120, 156, 99, 96, 96, 96, 0, 0, 0, 4, 0, 1])) == [0, 0, 0, 12, 73, 68,
      65, 84, 120, 156, 99, 96, 96, 96, 0, 0, 0, 4, 0, 1, 246, 23, 56, 85]
  {
    hide Update, Register, ChunkBytes, BigEndian, Checksum, Word, Value;
    KindNames();
    DataChunkDivided();
    DataChunkSum();
    ChunkOf(IDAT, [73, 68, 65, 84], [120, 156, 99, 96, 96, 96, 0, 0, 0, 4, 0, 1], [73, 68, 65, 84, 120, 156, 99,
      96, 96, 96, 0, 0, 0, 4, 0, 1], 0x09e8_c7aa, [0, 0, 0, 12], [246, 23, 56, 85]);
  }

  lemma EndChunkDivided()
    ensures Update(INITIAL, [73, 69, 78, 68]) == Register(0x51bd_9f7d)
  {
    hide Update, Register;
    FeedNothing();
    var m: seq<byte> := [];
    FeedFour(m, 0xffff_ffff, 73, 69, 78, 68, [73, 69, 78, 68], 0x51bd_9f7d);
    var m0 := m + [73, 69, 78, 68];
    assert m0 == [73, 69, 78, 68];
  }

  lemma EndChunkSum()
    ensures Word([174, 66, 96, 130]) == 0xffff_ffff - Value(0x51bd_9f7d)
  {
  }

  /** IEND. */
  lemma EndChunk()
    ensures ChunkBytes(RawChunk.Chunk(IEND, [])) == [0, 0, 0, 0, 73, 69, 78, 68, 174, 66, 96, 130]
  {
    hide Update, Register, ChunkBytes, BigEndian, Checksum, Word, Value;
    KindNames();
    EndChunkDivided();
    EndChunkSum();
    ChunkOf(IEND, [73, 69, 78, 68], [], [73, 69, 78, 68], 0x51bd_9f7d, [0, 0, 0, 0], [174, 66, 96, 130]);
  }

  // --------------------------------------------------------------------------- files

  lemma BodyOf(c: Chunk, rest: seq<Chunk>)
    ensures Body([c] + rest) == ChunkBytes(c) + Body(rest)
  {
    assert ([c] + rest)[1..] == rest;
  }

  lemma NoBody()
    ensures Body([]) == []
  {
  }

  /** A whole file, as a PNG tool writes one black pixel with the declarations of sRGB. */
  const SRGB_FILE: seq<byte> :=
    [137, 80, 78, 71, 13, 10, 26, 10]
    + ([0, 0, 0, 13, 73, 72, 68, 82, 0, 0, 0, 1, 0, 0, 0, 1, 8, 2, 0, 0, 0, 144, 119, 83, 222]
    + ([0, 0, 0, 1, 115, 82, 71, 66, 0, 174, 206, 28, 233]
    + ([0, 0, 0, 4, 103, 65, 77, 65, 0, 0, 177, 143, 11, 252, 97, 5]
    + ([0, 0, 0, 32, 99, 72, 82, 77, 0, 0, 122, 38, 0, 0, 128, 132, 0, 0, 250, 0, 0, 0, 128, 232, 0, 0, 117, 48, 0, 0,
     234, 96, 0, 0, 58, 152, 0, 0, 23, 112, 156, 186, 81, 60]
    + ([0, 0, 0, 9, 112, 72, 89, 115, 0, 0, 11, 19, 0, 0, 11, 19, 1, 0, 154, 156, 24]
    + ([0, 0, 0, 12, 73, 68, 65, 84, 120, 156, 99, 96, 96, 96, 0, 0, 0, 4, 0, 1, 246, 23, 56, 85]
    + ([0, 0, 0, 0, 73, 69, 78, 68, 174, 66, 96, 130])))))))

  /** The same pixel with the declarations of BT.709. */
  const BT709_FILE: seq<byte> :=
    [137, 80, 78, 71, 13, 10, 26, 10]
    + ([0, 0, 0, 13, 73, 72, 68, 82, 0, 0, 0, 1, 0, 0, 0, 1, 8, 2, 0, 0, 0, 144, 119, 83, 222]
    + ([0, 0, 0, 4, 99, 73, 67, 80, 1, 1, 0, 1, 149, 115, 194, 86]
    + ([0, 0, 0, 4, 103, 65, 77, 65, 0, 0, 199, 50, 199, 73, 112, 68]
    + ([0, 0, 0, 12, 73, 68, 65, 84, 120, 156, 99, 96, 96, 96, 0, 0, 0, 4, 0, 1, 246, 23, 56, 85]
    + ([0, 0, 0, 0, 73, 69, 78, 68, 174, 66, 96, 130])))))

  const SRGB_CHUNKS: seq<Chunk> :=
    [Header(1, 1), RawChunk.Chunk(SRGB, [0]), RawChunk.Chunk(GAMA, [0, 0, 177, 143]), RawChunk.Chunk(CHRM,
     SDR_CHROMATICITIES), RawChunk.Chunk(PHYS, [0, 0, 11, 19, 0, 0, 11, 19, 1]), RawChunk.Chunk(IDAT, [120, 156,
     99, 96, 96, 96, 0, 0, 0, 4, 0, 1]), RawChunk.Chunk(IEND, [])]

  lemma SrgbBytes()
    ensures FileBytes(SRGB_CHUNKS) == SRGB_FILE
  {
    hide ChunkBytes;
    HeaderChunk();
    IntentChunk();
    LegacyGammaChunk();
    ChromaticitiesChunk();
    PixelsChunk();
    DataChunk();
    EndChunk();
    NoBody();
    var none: seq<Chunk> := [];
    hide Body;
    BodyOf(RawChunk.Chunk(IEND, []), none);
    var c0 := [RawChunk.Chunk(IEND, [])] + none;
    BodyOf(RawChunk.Chunk(IDAT, [120, 156, 99, 96, 96, 96, 0, 0, 0, 4, 0, 1]), c0);
    var c1 := [RawChunk.Chunk(IDAT, [120, 156, 99, 96, 96, 96, 0, 0, 0, 4, 0, 1])] + c0;
    BodyOf(RawChunk.Chunk(PHYS, [0, 0, 11, 19, 0, 0, 11, 19, 1]), c1);
    var c2 := [RawChunk.Chunk(PHYS, [0, 0, 11, 19, 0, 0, 11, 19, 1])] + c1;
    BodyOf(RawChunk.Chunk(CHRM, SDR_CHROMATICITIES), c2);
    var c3 := [RawChunk.Chunk(CHRM, SDR_CHROMATICITIES)] + c2;
    BodyOf(RawChunk.Chunk(GAMA, [0, 0, 177, 143]), c3);
    var c4 := [RawChunk.Chunk(GAMA, [0, 0, 177, 143])] + c3;
    BodyOf(RawChunk.Chunk(SRGB, [0]), c4);
    var c5 := [RawChunk.Chunk(SRGB, [0])] + c4;
    BodyOf(Header(1, 1), c5);
    var c6 := [Header(1, 1)] + c5;
    assert c6 == SRGB_CHUNKS;
  }

  const BT709_CHUNKS: seq<Chunk> :=
    [Header(1, 1), RawChunk.Chunk(CICP, [1, 1, 0, 1]), RawChunk.Chunk(GAMA, [0, 0, 199, 50]), RawChunk.Chunk(IDAT,
     [120, 156, 99, 96, 96, 96, 0, 0, 0, 4, 0, 1]), RawChunk.Chunk(IEND, [])]

  lemma Bt709Bytes()
    ensures FileBytes(BT709_CHUNKS) == BT709_FILE
  {
    hide ChunkBytes;
    HeaderChunk();
    CodingPointsChunk();
    Bt709GammaChunk();
    DataChunk();
    EndChunk();
    NoBody();
    var none: seq<Chunk> := [];
    hide Body;
    BodyOf(RawChunk.Chunk(IEND, []), none);
    var c0 := [RawChunk.Chunk(IEND, [])] + none;
    BodyOf(RawChunk.Chunk(IDAT, [120, 156, 99, 96, 96, 96, 0, 0, 0, 4, 0, 1]), c0);
    var c1 := [RawChunk.Chunk(IDAT, [120, 156, 99, 96, 96, 96, 0, 0, 0, 4, 0, 1])] + c0;
    BodyOf(RawChunk.Chunk(GAMA, [0, 0, 199, 50]), c1);
    var c2 := [RawChunk.Chunk(GAMA, [0, 0, 199, 50])] + c1;
    BodyOf(RawChunk.Chunk(CICP, [1, 1, 0, 1]), c2);
    var c3 := [RawChunk.Chunk(CICP, [1, 1, 0, 1])] + c2;
    BodyOf(Header(1, 1), c3);
    var c4 := [Header(1, 1)] + c3;
    assert c4 == BT709_CHUNKS;
  }

  lemma Gammas()
    ensures BigEndian(LEGACY_GAMMA) == [0, 0, 177, 143] && BigEndian(BT709_GAMMA) == [0, 0, 199, 50]
  {
  }

  lemma SrgbConforms()
    ensures Conforming(SRGB_CHUNKS, 1, 1)
  {
    var chunks := SRGB_CHUNKS;
    Gammas();
    hide BigEndian;
    assert chunks[4].payload[..4] == [0, 0, 11, 19] && chunks[4].payload[4..8] == [0, 0, 11, 19];
    assert chunks[1].kind == SRGB && chunks[5].kind == IDAT && |chunks| == 7;
    assert Ancillary(chunks[1]) && Ancillary(chunks[2]) && Ancillary(chunks[3]) && Ancillary(chunks[4]);
  }

  lemma Bt709Conforms()
    ensures Conforming(BT709_CHUNKS, 1, 1)
  {
    var chunks := BT709_CHUNKS;
    Gammas();
    hide BigEndian;
    assert chunks[1].kind == CICP && chunks[3].kind == IDAT && |chunks| == 5;
    assert Ancillary(chunks[1]) && Ancillary(chunks[2]);
  }

  /** Both files are accepted, as images of one pixel and nothing else. */
  lemma KnownFilesAreAccepted(width: u32, height: u32)
    ensures Inspect(SRGB_FILE, width, height, 65_536).None? <==> width == height == 1
    ensures Inspect(BT709_FILE, width, height, 65_536).None? <==> width == height == 1
  {
    hide Conforming, Inspect;
    SrgbBytes();
    Bt709Bytes();
    SrgbConforms();
    Bt709Conforms();
    AcceptsExactlyConformingFiles(SRGB_FILE, width, height, 65_536);
    AcceptsExactlyConformingFiles(BT709_FILE, width, height, 65_536);
    OnlyGeometry(SRGB_CHUNKS, SRGB_FILE, width, height);
    OnlyGeometry(BT709_CHUNKS, BT709_FILE, width, height);
    assert |SRGB_FILE| <= 65_536 && |BT709_FILE| <= 65_536;
  }

  lemma OnlyGeometry(chunks: seq<Chunk>, file: seq<byte>, width: u32, height: u32)
    requires Conforming(chunks, 1, 1) && file == FileBytes(chunks)
    ensures IsConformingFile(file, width, height) <==> width == height == 1
  {
    hide Conforming, FileBytes;
    if IsConformingFile(file, width, height) {
      var others: seq<Chunk> :| Conforming(others, width, height) && file == FileBytes(others);
      AcceptedOnce(chunks, others, 1, 1, width, height);
    }
  }
}
