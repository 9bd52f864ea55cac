/** The imperative form of `inspect_png`: fixed buffers filled from an open file. */
module PngReader {
  import opened Wrappers
  import opened Bits
  import opened Crc32
  import opened PngFormat
  import opened PngInspection

  const BUFFER_BYTES := 65_536

  /** An open regular file whose bytes do not change while it is read. */
  class FileReader {
    const content: seq<byte>
    var position: nat

    ghost predicate Valid()
      reads this
    {
      position <= |content|
    }

    ghost function Rest(): seq<byte>
      requires Valid()
      reads this
    {
      content[position..]
    }

    constructor (content: seq<byte>)
      ensures Valid() && this.content == content && position == 0
    {
      this.content := content;
      position := 0;
    }

    /** `read_exact` into the first `count` bytes of a buffer. */
    method ReadExact(buffer: array<byte>, count: nat) returns (ok: bool)
      requires Valid() && count <= buffer.Length
      modifies this`position, buffer
      ensures Valid()
      ensures ok <==> old(position) + count <= |content|
      ensures ok ==> position == old(position) + count
      ensures ok ==> buffer[..count] == content[old(position)..old(position) + count]
      ensures ok ==> buffer[count..] == old(buffer[count..])
    {
      ok := count <= |content| - position;
      if ok {
        var i := 0;
        while i < count
          invariant 0 <= i <= count && position == old(position)
          invariant buffer[..i] == content[position..position + i]
          invariant buffer[count..] == old(buffer[count..])
        {
          buffer[i] := content[position + i];
          i := i + 1;
        }
        position := position + count;
      }
    }

    /** `read` into a one-byte buffer: zero only at the end of the file. */
    method ReadTail(buffer: array<byte>) returns (count: nat)
      requires Valid() && buffer.Length == 1
      modifies this`position, buffer
      ensures Valid()
      ensures count == 0 <==> old(position) == |content|
      ensures position == old(position) + count
    {
      count := if position < |content| then 1 else 0;
      if count == 1 {
        buffer[0] := content[position];
        position := position + 1;
      }
    }
  }

  /** One payload: read through a bounded buffer, checksum it, and keep a copy of a
      payload that is not image data. */
  method ReadPayload(file: FileReader, kind: u32, length: u32, small: array<byte>) returns (crc: u32)
    requires file.Valid() && |file.content| - file.position >= length
    requires small.Length == 32 && (kind != IDAT ==> length <= 32)
    modifies file`position, small
    ensures file.Valid() && file.position == old(file.position) + length
    ensures var payload := file.content[old(file.position)..file.position];
      && crc == Update(Update(INITIAL, BigEndian(kind)), payload)
      && (kind != IDAT ==> small[..length] == payload)
  {
    hide Update, BigEndian, DivideBytes;
    crc := Crc32Update(INITIAL, BigEndian(kind));
    ghost var start, first := file.position, crc;
    var remaining: nat := length;
    var buffer := new byte[BUFFER_BYTES](_ => 0);
    EmptyUpdate(first);
    assert file.content[start..start] == [];
    while remaining > 0
      invariant 0 <= remaining <= length
      invariant file.Valid() && file.position == start + (length - remaining)
      invariant crc == Update(first, file.content[start..file.position])
      invariant kind != IDAT ==> remaining in {0, length}
      invariant kind != IDAT && remaining == 0 ==> small[..length] == file.content[start..file.position]
    {
      var count := if remaining < BUFFER_BYTES then remaining else BUFFER_BYTES;
      ghost var middle := file.position;
      var ok := file.ReadExact(buffer, count);
      assert ok;
      crc := Crc32Update(crc, buffer[..count]);
      ExtendUpdate(first, file.content, start, middle, file.position);
      if kind != IDAT {
        CopyFront(small, buffer, count);
      }
      remaining := remaining - count;
    }
  }

  /** `small[..count].copy_from_slice(&buffer[..count])`. */
  method CopyFront(small: array<byte>, buffer: array<byte>, count: nat)
    requires count <= small.Length && count <= buffer.Length && small != buffer
    modifies small
    ensures small[..count] == buffer[..count] && small[count..] == old(small[count..])
  {
    forall i | 0 <= i < count {
      small[i] := buffer[i];
    }
  }

  lemma ExtendUpdate(crc: u32, bytes: seq<byte>, start: nat, middle: nat, end: nat)
    requires start <= middle <= end <= |bytes|
    ensures Update(Update(crc, bytes[start..middle]), bytes[middle..end]) == Update(crc, bytes[start..end])
  {
    hide Update;
    assert bytes[start..middle] + bytes[middle..end] == bytes[start..end];
    UpdateComposes(crc, bytes[start..middle], bytes[middle..end]);
  }

  lemma EmptyUpdate(crc: u32)
    ensures Update(crc, []) == crc
  {
  }

  /** The payload checks, on the 32-byte copy. */
  method CheckPayload(kind: u32, small: array<byte>, length: nat, width: u32, height: u32)
    returns (refusal: Option<Refusal>)
    requires small.Length == 32 && SizedFor(kind, length)
    requires kind != IDAT ==> length <= 32
    ensures kind == IDAT ==> refusal == None
    ensures kind != IDAT ==> refusal == PayloadRefusal(kind, small[..length], width, height)
  {
    hide Word, BigEndian;
    ghost var payload := if kind == IDAT then [] else small[..length];
    if kind == IHDR {
      assert payload[..4] == small[..4] && payload[4..8] == small[4..8] && payload[8..13] == small[8..13];
      if Word(small[..4]) != width || Word(small[4..8]) != height || small[8..13] != [8, 2, 0, 0, 0] {
        return Some(WrongGeometry);
      }
    } else if kind == SRGB {
      if small[0] > 3 {
        return Some(WrongRenderingIntent);
      }
    } else if kind == CICP {
      if small[..4] != [1, 1, 0, 1] {
        return Some(WrongCodingPoints);
      }
    } else if kind == GAMA {
      if Word(small[..4]) != LEGACY_GAMMA && Word(small[..4]) != BT709_GAMMA {
        return Some(WrongGamma);
      }
    } else if kind == CHRM {
      if small[..] != SDR_CHROMATICITIES {
        return Some(WrongChromaticities);
      }
    } else if kind == PHYS {
      assert payload[..4] == small[..4] && payload[4..8] == small[4..8];
      if small[..4] == [0, 0, 0, 0] || small[..4] != small[4..8] || small[8] > 1 {
        return Some(NotSquarePixels);
      }
    }
    return None;
  }

  /** The checks made before a payload is read, with the phase flags and the singleton
      set updated on the way. */
  method CheckHeader(
    kind: u32, length: nat, ordinal: nat,
    wasSeen: bool, wasFinished: bool, ghost gamma: Option<u32>, before: set<u32>)
    returns (refusal: Option<Refusal>, dataSeen: bool, dataFinished: bool, singletons: set<u32>)
    ensures refusal == HeaderRefusal(kind, length, Progress(ordinal, wasSeen, wasFinished, gamma, before))
    ensures refusal.None? ==>
      && dataSeen == (wasSeen || kind == IDAT)
      && dataFinished == (wasFinished || (dataSeen && kind != IDAT))
      && singletons == if kind == IDAT then before else before + {kind}
  {
    dataSeen, dataFinished, singletons := wasSeen, wasFinished, before;
    refusal := None;
    if (ordinal == 0) != (kind == IHDR) {
      refusal := Some(MisplacedHeader);
      return;
    }
    if kind == IHDR && length == 13 {
    } else if kind == IDAT && !dataFinished {
      dataSeen := true;
    } else if kind == IEND && length == 0 && dataSeen {
    } else if kind == SRGB && length == 1 && !dataSeen {
    } else if kind == GAMA && length == 4 && !dataSeen {
    } else if kind == CHRM && length == 32 && !dataSeen {
    } else if kind == CICP && length == 4 && !dataSeen {
    } else if kind == PHYS && length == 9 && !dataSeen {
    } else {
      refusal := Some(UnsupportedChunk);
      return;
    }
    if kind != IDAT {
      if kind in singletons {
        refusal := Some(DuplicateSingleton);
        return;
      }
      singletons := singletons + {kind};
    }
    if dataSeen && kind != IDAT {
      dataFinished := true;
    }
  }

  /** The eight bytes in front of a chunk. */
  method ReadHeader(file: FileReader) returns (ok: bool, length: u32, kind: u32)
    requires file.Valid()
    modifies file`position
    ensures file.Valid()
    ensures ok <==> |old(file.Rest())| >= 8
    ensures ok ==> file.position == old(file.position) + 8
    ensures ok ==> length == Word(old(file.Rest())[..4]) && kind == Word(old(file.Rest())[4..8])
  {
    hide Word;
    ghost var rest := file.Rest();
    length, kind := 0, 0;
    var header := new byte[8](_ => 0);
    ok := file.ReadExact(header, 8);
    if ok {
      assert header[..8] == rest[..8];
      assert header[..4] == rest[..8][..4] == rest[..4];
      assert header[4..8] == rest[..8][4..8] == rest[4..8];
      length, kind := Word(header[..4]), Word(header[4..8]);
    }
  }

  /** The four bytes behind a payload. */
  method ReadChecksum(file: FileReader) returns (ok: bool, stored: u32)
    requires file.Valid()
    modifies file`position
    ensures file.Valid()
    ensures ok <==> |old(file.Rest())| >= 4
    ensures ok ==> file.position == old(file.position) + 4
    ensures ok ==> stored == Word(old(file.Rest())[..4])
  {
    hide Word;
    ghost var rest := file.Rest();
    stored := 0;
    var checksum := new byte[4](_ => 0);
    ok := file.ReadExact(checksum, 4);
    if ok {
      assert checksum[..] == checksum[..4] == rest[..4];
      stored := Word(checksum[..]);
    }
  }

  lemma FrameFields(content: seq<byte>, start: nat, length: u32, kind: u32)
    requires start <= |content|
    requires start + 8 <= |content| ==>
      length == Word(content[start..][..4]) && kind == Word(content[start..][4..8])
    ensures start + 8 > |content| ==> NextFrame(content[start..]) == Failure(ChunkTruncated)
    ensures start + 8 <= |content| < start + length + 12 ==> NextFrame(content[start..]) == Failure(ChunkExceedsFile)
    ensures start + length + 12 <= |content| ==>
      && NextFrame(content[start..]).Success?
      && var f := NextFrame(content[start..]).value;
      && f.chunk.kind == kind
      && f.chunk.payload == content[start + 8..start + 8 + length]
      && f.stored == Word(content[start + 8 + length..][..4])
      && f.tail == content[start + length + 12..]
  {
    hide Word;
    var rest := content[start..];
    if start + length + 12 <= |content| {
      assert rest[8..8 + length] == content[start + 8..start + 8 + length];
      assert rest[8 + length..12 + length] == content[start + 8 + length..][..4];
      assert rest[12 + length..] == content[start + length + 12..];
    }
  }

  function Verdict(file: seq<byte>, width: u32, height: u32, maximum: nat): Result<nat, Refusal> {
    var refusal := Inspect(file, width, height, maximum);
    if refusal.Some? then Failure(refusal.value) else Success(|file|)
  }

  /** What only the last chunk can decide. */
  method AtEnd(file: FileReader, consumed: nat, observed: nat, gamma: Option<u32>, singletons: set<u32>,
               ghost p: Progress)
    returns (refusal: Option<Refusal>)
    requires file.Valid() && consumed == file.position && observed == |file.content|
    requires gamma == p.gamma && singletons == p.singletons
    modifies file`position
    ensures refusal ==
      if ColoursConflictAt(p) then Some(ColoursConflict)
      else if file.content[consumed..] != [] then Some(TrailingData)
      else None
    ensures refusal.None? ==> file.position == |file.content|
  {
    var bt709 := CICP in singletons;
    if (bt709 && (SRGB in singletons || (gamma.Some? && gamma.value != BT709_GAMMA)))
       || (!bt709 && gamma == Some(BT709_GAMMA)) {
      return Some(ColoursConflict);
    }
    var tail := new byte[1](_ => 0);
    var count := file.ReadTail(tail);
    if consumed != observed || count != 0 {
      return Some(TrailingData);
    }
    return None;
  }

  /** `inspect_png`: one pass over the open file. The byte count stands for the observed
      identity, of which the digest half is not modelled. */
  method InspectPng(file: FileReader, width: u32, height: u32, maximum: nat) returns (r: Result<nat, Refusal>)
    requires file.Valid() && file.position == 0
    requires maximum < 0x1_0000_0000_0000_0000
    modifies file`position
    ensures r == Verdict(file.content, width, height, maximum)
    ensures r.Success? <==> |file.content| <= maximum && IsConformingFile(file.content, width, height)
    ensures r.Success? ==> file.position == |file.content| == r.value
  {
    hide Word, BigEndian, Checksum, Update, Conforming, PayloadRefusal, HeaderRefusal, NextFrame, IsConformingFile,
      ColoursConflictAt;
    ghost var verdict := Inspect(file.content, width, height, maximum);
    AcceptsExactlyConformingFiles(file.content, width, height, maximum);
    var observed := |file.content|;
    if observed > maximum {
      return Failure(TooLarge);
    }
    var signature := new byte[8](_ => 0);
    var ok := file.ReadExact(signature, 8);
    if !ok {
      return Failure(SignatureTruncated);
    }
    assert signature[..] == signature[..8] == file.content[..8];
    if signature[..] != SIGNATURE {
      return Failure(NotPng);
    }
    var consumed := 8;
    var dataSeen, dataFinished := false, false;
    var gamma: Option<u32> := None;
    var singletons: set<u32> := {};
    for ordinal := 0 to MAXIMUM_PNG_CHUNKS
      invariant file.Valid() && consumed == file.position
      invariant verdict == Scan(file.content[consumed..], width, height,
                                Progress(ordinal, dataSeen, dataFinished, gamma, singletons))
    {
      ghost var start, p := consumed, Progress(ordinal, dataSeen, dataFinished, gamma, singletons);
      var length, kind;
      ok, length, kind := ReadHeader(file);
      FrameFields(file.content, start, length, kind);
      if !ok {
        return Failure(ChunkTruncated);
      }
      if consumed + length + 12 >= 0x1_0000_0000_0000_0000 || consumed + length + 12 > observed {
        return Failure(ChunkExceedsFile);
      }
      consumed := consumed + length + 12;
      ghost var frame := NextFrame(file.content[start..]).value;
      var refusal: Option<Refusal>;
      refusal, dataSeen, dataFinished, singletons :=
        CheckHeader(kind, length, ordinal, dataSeen, dataFinished, gamma, singletons);
      if refusal.Some? {
        return Failure(refusal.value);
      }
      HeaderFixesLength(kind, length, p);
      var small := new byte[32](_ => 0);
      var crc := ReadPayload(file, kind, length, small);
      var stored;
      ok, stored := ReadChecksum(file);
      if !ok {
        return Failure(ChecksumTruncated);
      }
      ChecksumIsComplement(kind, frame.chunk.payload);
      if 0xffff_ffff - crc != stored {
        return Failure(ChecksumDiffers);
      }
      refusal := CheckPayload(kind, small, length, width, height);
      DataPayloadIsFree(kind, frame.chunk.payload, width, height);
      if refusal.Some? {
        return Failure(refusal.value);
      }
      if kind == GAMA {
        gamma := Some(Word(small[..4]));
      }
      assert Advance(frame.chunk, p) == Progress(ordinal + 1, dataSeen, dataFinished, gamma, singletons);
      if kind == IEND {
        refusal := AtEnd(file, consumed, observed, gamma, singletons, Advance(frame.chunk, p));
        if refusal.Some? {
          return Failure(refusal.value);
        }
        return Success(observed);
      }
    }
    return Failure(TooManyChunks);
  }

  lemma ChecksumIsComplement(kind: u32, payload: seq<byte>)
    ensures Checksum(kind, payload) == 0xffff_ffff - Update(Update(INITIAL, BigEndian(kind)), payload)
  {
    hide Update, BigEndian;
  }

  lemma DataPayloadIsFree(kind: u32, payload: seq<byte>, width: u32, height: u32)
    requires SizedFor(kind, |payload|)
    ensures kind == IDAT ==> PayloadRefusal(kind, payload, width, height).None?
  {
  }
}
