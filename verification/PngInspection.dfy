/** `inspect_png` of src/frame_io.rs: a one-pass reader over an arbitrary byte string,
    proved to accept exactly the files of the grammar in PngFormat. */
module PngInspection {
  import opened Wrappers
  import opened Bits
  import opened Crc32
  import opened PngFormat

  datatype Refusal =
    | TooLarge
    | SignatureTruncated
    | NotPng
    | ChunkTruncated
    | ChunkExceedsFile
    | MisplacedHeader
    | UnsupportedChunk
    | DuplicateSingleton
    | PayloadTruncated
    | ChecksumTruncated
    | ChecksumDiffers
    | WrongGeometry
    | WrongRenderingIntent
    | WrongCodingPoints
    | WrongGamma
    | WrongChromaticities
    | NotSquarePixels
    | ColoursConflict
    | TrailingData
    | TooManyChunks

  /** What the reader remembers between chunks. */
  datatype Progress = Progress(
    ordinal: nat,
    dataSeen: bool,
    dataFinished: bool,
    gamma: Option<u32>,
    singletons: set<u32>)

  const START := Progress(0, false, false, None, {})

  // ------------------------------------------------------------- one chunk

  /** The checks made before a payload is read, in the order the reader makes them. */
  function HeaderRefusal(kind: u32, length: nat, p: Progress): Option<Refusal> {
    var admitted :=
      if kind == IHDR then length == 13
      else if kind == IDAT then !p.dataFinished
      else if kind == IEND then length == 0 && p.dataSeen
      else if kind == SRGB then length == 1 && !p.dataSeen
      else if kind == GAMA then length == 4 && !p.dataSeen
      else if kind == CHRM then length == 32 && !p.dataSeen
      else if kind == CICP then length == 4 && !p.dataSeen
      else if kind == PHYS then length == 9 && !p.dataSeen
      else false;
    if (p.ordinal == 0) != (kind == IHDR) then Some(MisplacedHeader)
    else if !admitted then Some(UnsupportedChunk)
    else if kind != IDAT && kind in p.singletons then Some(DuplicateSingleton)
    else None
  }

  /** The payload length a chunk type has once its header is admitted. */
  predicate SizedFor(kind: u32, length: nat) {
    && (kind == IHDR ==> length == 13)
    && (kind == SRGB ==> length == 1)
    && (kind in {GAMA, CICP} ==> length == 4)
    && (kind == CHRM ==> length == 32)
    && (kind == PHYS ==> length == 9)
    && (kind == IEND ==> length == 0)
  }

  /** The checks made on a payload whose checksum agrees. */
  function PayloadRefusal(kind: u32, payload: seq<byte>, width: u32, height: u32): Option<Refusal>
    requires SizedFor(kind, |payload|)
  {
    if kind == IHDR then
      if Word(payload[..4]) != width || Word(payload[4..8]) != height || payload[8..13] != [8, 2, 0, 0, 0]
      then Some(WrongGeometry) else None
    else if kind == SRGB then
      if payload[0] > 3 then Some(WrongRenderingIntent) else None
    else if kind == CICP then
      if payload != [1, 1, 0, 1] then Some(WrongCodingPoints) else None
    else if kind == GAMA then
      if Word(payload) !in {LEGACY_GAMMA, BT709_GAMMA} then Some(WrongGamma) else None
    else if kind == CHRM then
      if payload != SDR_CHROMATICITIES then Some(WrongChromaticities) else None
    else if kind == PHYS then
      if payload[..4] == [0, 0, 0, 0] || payload[..4] != payload[4..8] || payload[8] > 1
      then Some(NotSquarePixels) else None
    else None
  }

  /** What is remembered once a chunk has been admitted. */
  function Advance(c: Chunk, p: Progress): Progress {
    var dataSeen := p.dataSeen || c.kind == IDAT;
    Progress(
      p.ordinal + 1,
      dataSeen,
      p.dataFinished || (dataSeen && c.kind != IDAT),
      if c.kind == GAMA && |c.payload| == 4 then Some(Word(c.payload)) else p.gamma,
      if c.kind == IDAT then p.singletons else p.singletons + {c.kind})
  }

  /** The cross-chunk colour rule, decided at IEND from what was remembered. */
  predicate ColoursConflictAt(p: Progress) {
    var bt709 := CICP in p.singletons;
    || (bt709 && (SRGB in p.singletons || (p.gamma.Some? && p.gamma.value != BT709_GAMMA)))
    || (!bt709 && p.gamma == Some(BT709_GAMMA))
  }

  // -------------------------------------------------------------- the whole file

  lemma HeaderFixesLength(kind: u32, length: nat, p: Progress)
    requires HeaderRefusal(kind, length, p).None?
    ensures SizedFor(kind, length)
    ensures kind != IDAT ==> length <= 32
  {
  }

  /** A chunk as it stands in the file: with its stored checksum and what follows. */
  datatype Frame = Frame(chunk: Chunk, stored: u32, tail: seq<byte>)

  /** The framing checks: a complete header, and a chunk inside the file. */
  function NextFrame(rest: seq<byte>): Result<Frame, Refusal> {
    if |rest| < 8 then Failure(ChunkTruncated)
    else
      var length, kind := Word(rest[..4]), Word(rest[4..8]);
      if length + 12 > |rest| then Failure(ChunkExceedsFile)
      else Success(Frame(
        RawChunk.Chunk(kind, rest[8..8 + length]),
        Word(rest[8 + length..12 + length]),
        rest[12 + length..]))
  }

  /** The checks on one framed chunk, in the order the reader makes them. */
  function FrameRefusal(f: Frame, p: Progress, width: u32, height: u32): Option<Refusal> {
    var kind, payload := f.chunk.kind, f.chunk.payload;
    var early := HeaderRefusal(kind, |payload|, p);
    if early.Some? then early
    else if f.stored != Checksum(kind, payload) then Some(ChecksumDiffers)
    else
      HeaderFixesLength(kind, |payload|, p);
      PayloadRefusal(kind, payload, width, height)
  }

  /** The reader from a chunk boundary on, over the bytes not yet consumed: nothing,
      or the first refusal. */
  function Scan(rest: seq<byte>, width: u32, height: u32, p: Progress): Option<Refusal>
    decreases MAXIMUM_PNG_CHUNKS - p.ordinal
  {
    if p.ordinal >= MAXIMUM_PNG_CHUNKS then Some(TooManyChunks)
    else
      match NextFrame(rest)
      case Failure(error) => Some(error)
      case Success(f) =>
        if FrameRefusal(f, p, width, height).Some? then FrameRefusal(f, p, width, height)
        else if f.chunk.kind != IEND then Scan(f.tail, width, height, Advance(f.chunk, p))
        else if ColoursConflictAt(Advance(f.chunk, p)) then Some(ColoursConflict)
        else if f.tail != [] then Some(TrailingData)
        else None
  }

  /** The reader from the first byte on, under a byte bound. */
  function Inspect(file: seq<byte>, width: u32, height: u32, maximum: nat): Option<Refusal> {
    if |file| > maximum then Some(TooLarge)
    else if |file| < 8 then Some(SignatureTruncated)
    else if file[..8] != SIGNATURE then Some(NotPng)
    else Scan(file[8..], width, height, START)
  }

  // --------------------------------------------------- the reader's chunk automaton

  predicate Admits(c: Chunk, p: Progress, width: u32, height: u32) {
    && HeaderRefusal(c.kind, |c.payload|, p).None?
    && SizedFor(c.kind, |c.payload|)
    && PayloadRefusal(c.kind, c.payload, width, height).None?
  }

  /** Acceptance of a chunk list by the remembered state alone. */
  predicate Run(p: Progress, chunks: seq<Chunk>, width: u32, height: u32)
    decreases |chunks|
  {
    && chunks != []
    && p.ordinal < MAXIMUM_PNG_CHUNKS
    && Admits(chunks[0], p, width, height)
    && var next := Advance(chunks[0], p);
       if chunks[0].kind == IEND
       then |chunks| == 1 && !ColoursConflictAt(next)
       else Run(next, chunks[1..], width, height)
  }

  lemma RunStep(p: Progress, chunks: seq<Chunk>, width: u32, height: u32)
    requires chunks != []
    ensures Run(p, chunks, width, height) <==>
      && p.ordinal < MAXIMUM_PNG_CHUNKS
      && Admits(chunks[0], p, width, height)
      && (if chunks[0].kind == IEND
          then |chunks| == 1 && !ColoursConflictAt(Advance(chunks[0], p))
          else Run(Advance(chunks[0], p), chunks[1..], width, height))
  {
  }

  /** A printed chunk is framed back, and passes its checks where it is admitted. */
  lemma FrameOfChunk(c: Chunk, rest: seq<byte>, p: Progress, width: u32, height: u32)
    ensures NextFrame(ChunkBytes(c) + rest) == Success(Frame(c, Checksum(c.kind, c.payload), rest))
    ensures FrameRefusal(Frame(c, Checksum(c.kind, c.payload), rest), p, width, height).None? <==>
      Admits(c, p, width, height)
  {
    hide ChunkBytes, Word, Checksum, HeaderRefusal, PayloadRefusal;
    ChunkFields(c, rest);
    if HeaderRefusal(c.kind, |c.payload|, p).None? {
      HeaderFixesLength(c.kind, |c.payload|, p);
    }
  }

  lemma FramedChunk(rest: seq<byte>)
    requires NextFrame(rest).Success?
    requires var f := NextFrame(rest).value; f.stored == Checksum(f.chunk.kind, f.chunk.payload)
    ensures var f := NextFrame(rest).value; rest == ChunkBytes(f.chunk) + f.tail
  {
    hide ChunkBytes, Word, Checksum;
    FieldsMakeChunk(rest, NextFrame(rest).value.chunk);
  }

  /** Reading bytes and stepping the automaton agree: soundness. */
  lemma {:induction false} ScanFindsChunks(rest: seq<byte>, width: u32, height: u32, p: Progress)
    returns (chunks: seq<Chunk>)
    requires Scan(rest, width, height, p).None?
    ensures Run(p, chunks, width, height) && rest == Body(chunks)
    decreases MAXIMUM_PNG_CHUNKS - p.ordinal
  {
    hide ChunkBytes, Word, Checksum, HeaderRefusal, PayloadRefusal, ColoursConflictAt, NextFrame, Admits;
    var f := NextFrame(rest).value;
    FramedChunk(rest);
    FrameOfChunk(f.chunk, f.tail, p, width, height);
    if f.chunk.kind == IEND {
      chunks := [f.chunk];
      assert chunks[1..] == [];
    } else {
      var tail := ScanFindsChunks(f.tail, width, height, Advance(f.chunk, p));
      chunks := [f.chunk] + tail;
      assert chunks[1..] == tail;
    }
    BodyHead(chunks);
    RunStep(p, chunks, width, height);
  }

  /** Reading bytes and stepping the automaton agree: completeness. */
  lemma {:induction false} ScanAcceptsRun(chunks: seq<Chunk>, width: u32, height: u32, p: Progress)
    requires Run(p, chunks, width, height)
    ensures Scan(Body(chunks), width, height, p).None?
    decreases |chunks|
  {
    hide ChunkBytes, Word, Checksum, ColoursConflictAt, Advance, NextFrame, Admits, FrameRefusal;
    RunStep(p, chunks, width, height);
    BodyHead(chunks);
    FrameOfChunk(chunks[0], Body(chunks[1..]), p, width, height);
    if chunks[0].kind != IEND {
      ScanAcceptsRun(chunks[1..], width, height, Advance(chunks[0], p));
    }
  }

  // ------------------------------------------------- the automaton is the grammar

  /** The remembered state after a list of chunks. */
  function After(chunks: seq<Chunk>): Progress {
    if chunks == [] then START
    else
      var last := |chunks| - 1;
      Advance(chunks[last], After(chunks[..last]))
  }

  lemma AfterOneMore(chunks: seq<Chunk>, i: nat)
    requires i < |chunks|
    ensures After(chunks[..i + 1]) == Advance(chunks[i], After(chunks[..i]))
  {
    assert chunks[..i + 1][..i] == chunks[..i];
  }

  /** The remembered state is a faithful summary of the chunks behind it. */
  lemma AfterSummarises(chunks: seq<Chunk>)
    ensures var p := After(chunks);
      && p.ordinal == |chunks|
      && (p.dataSeen <==> Declares(chunks, IDAT))
      && (forall kind: u32 :: kind in p.singletons <==> kind != IDAT && Declares(chunks, kind))
      && (p.gamma.Some? ==> HoldsGamma(chunks, p.gamma.value))
      && (p.gamma.None? ==> forall value: u32 :: !HoldsGamma(chunks, value))
      && (p.dataFinished <==> DataIsOver(chunks))
  {
    KindsSummarised(chunks);
    GammaSummarised(chunks);
    DataSummarised(chunks);
    hide After, HoldsGamma, Declares, DataIsOver;
  }

  lemma {:induction false} KindsSummarised(chunks: seq<Chunk>)
    ensures var p := After(chunks);
      && p.ordinal == |chunks|
      && (p.dataSeen <==> Declares(chunks, IDAT))
      && (forall kind: u32 :: kind in p.singletons <==> kind != IDAT && Declares(chunks, kind))
    decreases |chunks|
  {
    if chunks != [] {
      var last := |chunks| - 1;
      var front, c := chunks[..last], chunks[last];
      KindsSummarised(front);
      assert chunks == front + [c];
      forall kind: u32 ensures Declares(chunks, kind) <==> Declares(front, kind) || c.kind == kind {
        DeclaresOneMore(front, c, kind);
      }
    }
  }

  lemma {:induction false} GammaSummarised(chunks: seq<Chunk>)
    ensures var p := After(chunks);
      && (p.gamma.Some? ==> HoldsGamma(chunks, p.gamma.value))
      && (p.gamma.None? ==> forall value: u32 :: !HoldsGamma(chunks, value))
    decreases |chunks|
  {
    if chunks != [] {
      var last := |chunks| - 1;
      var front, c := chunks[..last], chunks[last];
      GammaSummarised(front);
      assert chunks == front + [c];
      forall value: u32
        ensures HoldsGamma(chunks, value) <==> HoldsGamma(front, value) || IsGamma(c, value)
      {
        HoldsGammaOneMore(front, c, value);
      }
    }
  }

  /** A data chunk has been followed by another. */
  predicate DataIsOver(chunks: seq<Chunk>) {
    exists i, j :: 0 <= i < j < |chunks| && chunks[i].kind == IDAT && chunks[j].kind != IDAT
  }

  lemma {:induction false} DataSummarised(chunks: seq<Chunk>)
    ensures After(chunks).dataFinished <==> DataIsOver(chunks)
    decreases |chunks|
  {
    if chunks != [] {
      var last := |chunks| - 1;
      var front, c := chunks[..last], chunks[last];
      DataSummarised(front);
      KindsSummarised(front);
      assert chunks == front + [c];
      DataOneMore(front, c);
    }
  }

  lemma DataOneMore(front: seq<Chunk>, c: Chunk)
    ensures DataIsOver(front + [c]) <==> DataIsOver(front) || (c.kind != IDAT && Declares(front, IDAT))
  {
    var chunks := front + [c];
    if DataIsOver(front) {
      var i, j :| 0 <= i < j < |front| && front[i].kind == IDAT && front[j].kind != IDAT;
      assert chunks[i].kind == IDAT && chunks[j].kind != IDAT;
    }
    if c.kind != IDAT && Declares(front, IDAT) {
      var i :| 0 <= i < |front| && front[i].kind == IDAT;
      assert chunks[i].kind == IDAT && chunks[|front|].kind != IDAT;
    }
  }

  predicate IsGamma(c: Chunk, value: u32) {
    c.kind == GAMA && |c.payload| == 4 && Word(c.payload) == value
  }

  predicate HoldsGamma(chunks: seq<Chunk>, value: u32) {
    exists i :: 0 <= i < |chunks| && IsGamma(chunks[i], value)
  }

  lemma DeclaresOneMore(front: seq<Chunk>, c: Chunk, kind: u32)
    ensures Declares(front + [c], kind) <==> Declares(front, kind) || c.kind == kind
  {
    if Declares(front, kind) {
      var i :| 0 <= i < |front| && front[i].kind == kind;
      assert (front + [c])[i].kind == kind;
    }
    if c.kind == kind {
      assert (front + [c])[|front|].kind == kind;
    }
  }

  lemma HoldsGammaOneMore(front: seq<Chunk>, c: Chunk, value: u32)
    ensures HoldsGamma(front + [c], value) <==> HoldsGamma(front, value) || IsGamma(c, value)
  {
    if HoldsGamma(front, value) {
      var i :| 0 <= i < |front| && IsGamma(front[i], value);
      assert IsGamma((front + [c])[i], value);
    }
    if IsGamma(c, value) {
      assert IsGamma((front + [c])[|front|], value);
    }
  }

  /** Chunk `i` is admitted where it stands, and IEND stands only at the end. */
  predicate StepHolds(chunks: seq<Chunk>, i: nat, width: u32, height: u32)
    requires i < |chunks|
  {
    && Admits(chunks[i], After(chunks[..i]), width, height)
    && (chunks[i].kind == IEND <==> i == |chunks| - 1)
  }

  predicate AllStepsHold(chunks: seq<Chunk>, from: nat, width: u32, height: u32) {
    && from < |chunks| <= MAXIMUM_PNG_CHUNKS
    && (forall i :: from <= i < |chunks| ==> StepHolds(chunks, i, width, height))
    && !ColoursConflictAt(After(chunks))
  }

  lemma {:induction false} RunIsAllSteps(chunks: seq<Chunk>, from: nat, width: u32, height: u32)
    requires from <= |chunks|
    ensures Run(After(chunks[..from]), chunks[from..], width, height) <==> AllStepsHold(chunks, from, width, height)
    decreases |chunks| - from
  {
    hide Admits, Advance, ColoursConflictAt, After;
    if from < |chunks| {
      AfterSummarises(chunks[..from]);
      AfterOneMore(chunks, from);
      RunStep(After(chunks[..from]), chunks[from..], width, height);
      assert chunks[from..][1..] == chunks[from + 1..];
      RunIsAllSteps(chunks, from + 1, width, height);
      assert chunks[..|chunks|] == chunks;
      assert StepHolds(chunks, from, width, height) <==>
        Admits(chunks[from], After(chunks[..from]), width, height)
        && (chunks[from].kind == IEND <==> from + 1 == |chunks|);
      if from + 1 == |chunks| {
        assert chunks[..from + 1] == chunks;
      }
    }
  }

  lemma HeaderAdmitted(c: Chunk, p: Progress, width: u32, height: u32)
    requires p.ordinal == 0 && IHDR !in p.singletons
    ensures Admits(c, p, width, height) <==> c == Header(width, height)
  {
    hide BigEndian, Word;
    WordOfBigEndian(width);
    WordOfBigEndian(height);
    var h := Header(width, height).payload;
    assert h[..4] == BigEndian(width) && h[4..8] == BigEndian(height) && h[8..13] == [8, 2, 0, 0, 0];
    if Admits(c, p, width, height) {
      BigEndianOfWord(c.payload[..4]);
      BigEndianOfWord(c.payload[4..8]);
      assert c.payload == c.payload[..4] + c.payload[4..8] + c.payload[8..13];
    }
  }

  lemma GammaPayload(payload: seq<byte>, value: u32)
    ensures payload == BigEndian(value) <==> |payload| == 4 && Word(payload) == value
  {
    hide BigEndian, Word;
    WordOfBigEndian(value);
    if |payload| == 4 {
      BigEndianOfWord(payload);
    }
  }

  /** Behind the header, a chunk that is neither image data nor the end is admitted
      exactly when it is a new declaration ahead of the data. */
  lemma AncillaryAdmitted(c: Chunk, p: Progress, width: u32, height: u32)
    requires p.ordinal > 0 && c.kind != IDAT && c.kind != IEND
    ensures Admits(c, p, width, height) <==> Ancillary(c) && !p.dataSeen && c.kind !in p.singletons
  {
    hide BigEndian, Word;
    GammaPayload(c.payload, LEGACY_GAMMA);
    GammaPayload(c.payload, BT709_GAMMA);
  }

  lemma GammaDeclared(chunks: seq<Chunk>, value: u32)
    ensures DeclaresGamma(chunks, value) <==> HoldsGamma(chunks, value)
  {
    hide BigEndian, Word;
    forall i | 0 <= i < |chunks|
      ensures chunks[i].kind == GAMA && chunks[i].payload == BigEndian(value) <==> IsGamma(chunks[i], value)
    {
      GammaPayload(chunks[i].payload, value);
    }
  }

  /** Deciding the colour rule from the remembered state decides it for the file. */
  lemma ColoursRemembered(chunks: seq<Chunk>)
    requires forall i :: 0 <= i < |chunks| && chunks[i].kind == GAMA ==>
      IsGamma(chunks[i], LEGACY_GAMMA) || IsGamma(chunks[i], BT709_GAMMA)
    requires forall i, j :: 0 <= i < j < |chunks| && chunks[i].kind == GAMA ==> chunks[j].kind != GAMA
    ensures ColoursConflictAt(After(chunks)) <==> !ColoursAgree(chunks)
  {
    hide Word, BigEndian, After, HoldsGamma, DeclaresGamma;
    AfterSummarises(chunks);
    GammaDeclared(chunks, LEGACY_GAMMA);
    GammaDeclared(chunks, BT709_GAMMA);
    OneGamma(chunks, After(chunks).gamma, LEGACY_GAMMA);
    OneGamma(chunks, After(chunks).gamma, BT709_GAMMA);
    GammaIsLegal(chunks, After(chunks).gamma);
  }

  lemma GammaIsLegal(chunks: seq<Chunk>, gamma: Option<u32>)
    requires gamma.Some? ==> HoldsGamma(chunks, gamma.value)
    requires forall i :: 0 <= i < |chunks| && chunks[i].kind == GAMA ==>
      IsGamma(chunks[i], LEGACY_GAMMA) || IsGamma(chunks[i], BT709_GAMMA)
    ensures gamma.Some? ==> gamma.value in {LEGACY_GAMMA, BT709_GAMMA}
  {
    hide Word;
    if gamma.Some? {
      var i :| 0 <= i < |chunks| && IsGamma(chunks[i], gamma.value);
    }
  }

  lemma OneGamma(chunks: seq<Chunk>, gamma: Option<u32>, value: u32)
    requires gamma.Some? ==> HoldsGamma(chunks, gamma.value)
    requires gamma.None? ==> !HoldsGamma(chunks, value)
    requires forall i, j :: 0 <= i < j < |chunks| && chunks[i].kind == GAMA ==> chunks[j].kind != GAMA
    ensures HoldsGamma(chunks, value) <==> gamma == Some(value)
  {
    hide Word;
    if gamma.Some? && HoldsGamma(chunks, value) {
      var i :| 0 <= i < |chunks| && IsGamma(chunks[i], gamma.value);
      var j :| 0 <= j < |chunks| && IsGamma(chunks[j], value);
      assert i == j;
    }
  }

  /** In a conforming list every chunk is admitted where it stands. */
  lemma ConformingSteps(chunks: seq<Chunk>, width: u32, height: u32)
    requires Conforming(chunks, width, height)
    ensures AllStepsHold(chunks, 0, width, height)
  {
    hide Admits, BigEndian, Word, After, ColoursConflictAt, ColoursAgree;
    var last := |chunks| - 1;
    forall i | 0 <= i < |chunks| ensures StepHolds(chunks, i, width, height) {
      var front, p := chunks[..i], After(chunks[..i]);
      AfterSummarises(front);
      if i == 0 {
        HeaderAdmitted(chunks[0], p, width, height);
      } else if i == last {
        var d :| 0 <= d < |chunks| && chunks[d].kind == IDAT;
        assert front[d].kind == IDAT;
        EndAdmitted(chunks[i], p, width, height);
      } else if chunks[i].kind == IDAT {
        DataAdmitted(chunks[i], p, width, height);
      } else {
        AncillaryAdmitted(chunks[i], p, width, height);
      }
    }
    GammasLegal(chunks, width, height);
    ColoursRemembered(chunks);
  }

  lemma EndAdmitted(c: Chunk, p: Progress, width: u32, height: u32)
    requires c.kind == IEND && p.ordinal > 0 && IEND !in p.singletons
    ensures Admits(c, p, width, height) <==> c.payload == [] && p.dataSeen
  {
  }

  lemma DataAdmitted(c: Chunk, p: Progress, width: u32, height: u32)
    requires c.kind == IDAT && p.ordinal > 0
    ensures Admits(c, p, width, height) <==> !p.dataFinished
  {
  }

  lemma GammasLegal(chunks: seq<Chunk>, width: u32, height: u32)
    requires Conforming(chunks, width, height)
    ensures forall i :: 0 <= i < |chunks| && chunks[i].kind == GAMA ==>
      IsGamma(chunks[i], LEGACY_GAMMA) || IsGamma(chunks[i], BT709_GAMMA)
    ensures forall i, j :: 0 <= i < j < |chunks| && chunks[i].kind == GAMA ==> chunks[j].kind != GAMA
  {
    hide BigEndian, Word, ColoursAgree;
    forall i | 0 <= i < |chunks| && chunks[i].kind == GAMA
      ensures IsGamma(chunks[i], LEGACY_GAMMA) || IsGamma(chunks[i], BT709_GAMMA)
    {
      GammaPayload(chunks[i].payload, LEGACY_GAMMA);
      GammaPayload(chunks[i].payload, BT709_GAMMA);
      assert Ancillary(chunks[i]);
    }
  }

  /** If every chunk is admitted where it stands, the list conforms. */
  lemma StepsConform(chunks: seq<Chunk>, width: u32, height: u32)
    requires AllStepsHold(chunks, 0, width, height)
    ensures Conforming(chunks, width, height)
  {
    hide Admits, BigEndian, Word, After, ColoursConflictAt, ColoursAgree;
    var last := |chunks| - 1;
    assert StepHolds(chunks, 0, width, height) && StepHolds(chunks, last, width, height);
    AfterSummarises(chunks[..0]);
    HeaderAdmitted(chunks[0], After(chunks[..0]), width, height);
    AfterSummarises(chunks[..last]);
    forall i | 0 <= i < last ensures chunks[..last][i].kind != IEND {
      assert StepHolds(chunks, i, width, height);
    }
    EndAdmitted(chunks[last], After(chunks[..last]), width, height);
    var d :| 0 <= d < last && chunks[..last][d].kind == IDAT;
    assert chunks[d].kind == IDAT;
    forall i | 0 < i < last
      ensures chunks[i].kind == IDAT || MiddleDeclaration(chunks, i)
    {
      assert StepHolds(chunks, i, width, height);
      AfterSummarises(chunks[..i]);
      if chunks[i].kind != IDAT {
        AncillaryAdmitted(chunks[i], After(chunks[..i]), width, height);
      }
    }
    MiddleConforms(chunks);
    forall i | 0 <= i < |chunks| && chunks[i].kind == GAMA
      ensures IsGamma(chunks[i], LEGACY_GAMMA) || IsGamma(chunks[i], BT709_GAMMA)
    {
      GammaPayload(chunks[i].payload, LEGACY_GAMMA);
      GammaPayload(chunks[i].payload, BT709_GAMMA);
      assert MiddleDeclaration(chunks, i);
    }
    ColoursRemembered(chunks);
  }

  /** A declaration with no data and no declaration of its type before it. */
  predicate MiddleDeclaration(chunks: seq<Chunk>, i: nat)
    requires i < |chunks|
  {
    && Ancillary(chunks[i])
    && !Declares(chunks[..i], IDAT)
    && !Declares(chunks[..i], chunks[i].kind)
  }

  lemma MiddleConforms(chunks: seq<Chunk>)
    requires forall i :: 0 < i < |chunks| - 1 ==> chunks[i].kind == IDAT || MiddleDeclaration(chunks, i)
    ensures forall i, j :: 0 < i < j < |chunks| - 1 && chunks[i].kind == IDAT ==> chunks[j].kind == IDAT
    ensures forall i, j :: 0 < i < j < |chunks| - 1 && chunks[i].kind == chunks[j].kind ==> chunks[i].kind == IDAT
  {
    forall i, j | 0 < i < j < |chunks| - 1 && chunks[j].kind != IDAT
      ensures chunks[i].kind != IDAT && chunks[i].kind != chunks[j].kind
    {
      assert MiddleDeclaration(chunks, j);
      assert chunks[..j][i] == chunks[i];
    }
  }

  // ------------------------------------------------------------------ the theorem

  /** `inspect_png` accepts a byte string exactly when it is a conforming file of the
      declared geometry within the byte bound. */
  lemma AcceptsExactlyConformingFiles(file: seq<byte>, width: u32, height: u32, maximum: nat)
    ensures Inspect(file, width, height, maximum).None? <==>
      |file| <= maximum && IsConformingFile(file, width, height)
  {
    hide Scan, Run, Conforming, Body, AllStepsHold;
    if Inspect(file, width, height, maximum).None? {
      var chunks := ScanFindsChunks(file[8..], width, height, START);
      assert chunks[..0] == [] && chunks[0..] == chunks;
      assert After(chunks[..0]) == START;
      RunIsAllSteps(chunks, 0, width, height);
      StepsConform(chunks, width, height);
      assert file == FileBytes(chunks);
    }
    if |file| <= maximum && IsConformingFile(file, width, height) {
      var chunks: seq<Chunk> :| Conforming(chunks, width, height) && file == FileBytes(chunks);
      ConformingSteps(chunks, width, height);
      assert chunks[..0] == [] && chunks[0..] == chunks;
      assert After(chunks[..0]) == START;
      RunIsAllSteps(chunks, 0, width, height);
      ScanAcceptsRun(chunks, width, height, START);
      assert file[8..] == Body(chunks) && file[..8] == SIGNATURE;
    }
  }

  /** No file declares two geometries, and its chunk boundaries are determined. */
  lemma AcceptedOnce(left: seq<Chunk>, right: seq<Chunk>, w: u32, h: u32, w': u32, h': u32)
    requires Conforming(left, w, h) && Conforming(right, w', h') && FileBytes(left) == FileBytes(right)
    ensures left == right && w == w' && h == h'
  {
    hide BigEndian, Word;
    DecompositionIsUnique(left, right);
    var payload := left[0].payload;
    assert payload[..4] == BigEndian(w) == BigEndian(w');
    assert payload[4..8] == BigEndian(h) == BigEndian(h');
    WordOfBigEndian(w);
    WordOfBigEndian(w');
    WordOfBigEndian(h);
    WordOfBigEndian(h');
  }

  /** Damage confined to four consecutive bytes of one chunk's type and payload is
      refused: whatever stands before and after, the stored checksum gives it away. */
  lemma DamagedChunkIsRefused(
    front: seq<Chunk>, c: Chunk, after: seq<byte>,
    before: seq<byte>, original: seq<byte>, damaged: seq<byte>, behind: seq<byte>,
    width: u32, height: u32, maximum: nat)
    requires BigEndian(c.kind) + c.payload == before + original + behind
    requires |original| == |damaged| <= 4 && original != damaged
    ensures Inspect(
      SIGNATURE + Body(front)
        + (BigEndian(|c.payload|) + (before + damaged + behind) + BigEndian(Checksum(c.kind, c.payload))) + after,
      width, height, maximum).Some?
  {
    hide Inspect, Conforming, BigEndian, Word, Checksum, Update, ChunkBytes;
    var chunk := BigEndian(|c.payload|) + (before + damaged + behind) + BigEndian(Checksum(c.kind, c.payload));
    var file := SIGNATURE + Body(front) + chunk + after;
    AcceptsExactlyConformingFiles(file, width, height, maximum);
    if Inspect(file, width, height, maximum).None? {
      var chunks: seq<Chunk> :| Conforming(chunks, width, height) && file == FileBytes(chunks);
      assert Body(front) + (chunk + after) == file[8..] == Body(chunks);
      BodyPrefix(front, chunk + after, chunks);
      var rest := chunks[|front|..];
      DamagedFields(c, before + damaged + behind, after, rest[0], Body(rest[1..]));
      ChecksumJoins(c.kind, c.payload);
      ChecksumJoins(rest[0].kind, rest[0].payload);
      BurstIsDetected(INITIAL, before, original, damaged, behind);
    }
  }

  lemma ChecksumJoins(kind: u32, payload: seq<byte>)
    ensures Checksum(kind, payload) == 0xffff_ffff - Update(INITIAL, BigEndian(kind) + payload)
  {
    hide BigEndian, Update;
    UpdateComposes(INITIAL, BigEndian(kind), payload);
  }

  /** A chunk read where damaged bytes stand has those bytes as type and payload, and
      the undamaged chunk's checksum. */
  lemma DamagedFields(c: Chunk, damaged: seq<byte>, after: seq<byte>, read: Chunk, rest: seq<byte>)
    requires |damaged| == 4 + |c.payload|
    requires BigEndian(|c.payload|) + damaged + BigEndian(Checksum(c.kind, c.payload)) + after
      == ChunkBytes(read) + rest
    ensures BigEndian(read.kind) + read.payload == damaged
    ensures Checksum(read.kind, read.payload) == Checksum(c.kind, c.payload)
  {
    hide BigEndian, Word, Checksum;
    var n := |c.payload|;
    var bytes := BigEndian(n) + damaged + BigEndian(Checksum(c.kind, c.payload)) + after;
    ChunkFields(read, rest);
    assert bytes[..4] == BigEndian(n);
    WordOfBigEndian(n);
    assert bytes[4..8] == damaged[..4];
    BigEndianOfWord(bytes[4..8]);
    assert bytes[8..8 + n] == damaged[4..];
    assert bytes[8 + n..12 + n] == BigEndian(Checksum(c.kind, c.payload));
    WordOfBigEndian(Checksum(c.kind, c.payload));
    assert damaged == damaged[..4] + damaged[4..];
  }
}
