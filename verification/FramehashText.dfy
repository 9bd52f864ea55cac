/** The framehash that the decoder of src/frame_decode.rs prints for one frame, and that the
    parser reads it back. */
module FramehashText {
  import opened Decimals
  import opened Framehash
  import opened Text
  import opened Widths
  import opened Wrappers

  /** Blanks are white space, and printing characters are not. */
  ghost predicate Spaces(whitespace: char -> bool) {
    whitespace(' ') && forall c :: '!' <= c <= '~' ==> !whitespace(c)
  }

  /** A piece that survives splitting at the separator, and trimming. */
  ghost predicate Solid(whitespace: char -> bool, separator: char, piece: string) {
    && piece != "" && !whitespace(piece[0]) && !whitespace(piece[|piece| - 1])
    && separator !in piece
  }

  ghost predicate AllSolid(whitespace: char -> bool, separator: char, pieces: seq<string>) {
    forall i :: 0 <= i < |pieces| ==> Solid(whitespace, separator, pieces[i])
  }

  lemma SolidIsTrimmed(whitespace: char -> bool, separator: char, piece: string)
    requires Spaces(whitespace) && Solid(whitespace, separator, piece)
    ensures Trim(whitespace, piece) == piece && Trim(whitespace, " " + piece) == piece
  {
    assert (" " + piece)[1..] == piece;
    assert TrimLeft(whitespace, piece) == piece;
  }

  lemma TrimmedJoins(whitespace: char -> bool, piece: string, rest: seq<string>)
    ensures Trimmed(whitespace, [piece] + rest) == [Trim(whitespace, piece)] + Trimmed(whitespace, rest)
  {
  }

  // -------------------------------------------------------------------------- lines

  function Joined(lines: seq<string>): string {
    if lines == [] then "" else lines[0] + ['\n'] + Joined(lines[1..])
  }

  lemma {:induction false} LinesOfJoined(whitespace: char -> bool, lines: seq<string>)
    requires Spaces(whitespace) && AllSolid(whitespace, '\n', lines)
    ensures Lines(whitespace, Joined(lines)) == lines
    decreases |lines|
  {
    hide Trim;
    if lines == [] {
      assert Split("", '\n') == [""];
      NothingTrimmed(whitespace);
    } else {
      LinesOfJoined(whitespace, lines[1..]);
      SplitBetween(lines[0], Joined(lines[1..]), '\n');
      SolidIsTrimmed(whitespace, '\n', lines[0]);
      hide Split;
      TrimmedJoins(whitespace, lines[0], Split(Joined(lines[1..]), '\n'));
      NonBlankJoins(lines[0], Trimmed(whitespace, Split(Joined(lines[1..]), '\n')));
    }
  }

  lemma NothingTrimmed(whitespace: char -> bool)
    ensures NonBlank(Trimmed(whitespace, [""])) == []
  {
    assert Trimmed(whitespace, [""]) == [""];
    assert [""][1..] == [];
  }

  lemma NonBlankJoins(line: string, rest: seq<string>)
    requires line != ""
    ensures NonBlank([line] + rest) == [line] + NonBlank(rest)
  {
    assert ([line] + rest)[1..] == rest;
  }

  // ------------------------------------------------------------------------- fields

  function Spaced(fields: seq<string>): string
    requires fields != []
  {
    " " + fields[0] + if |fields| == 1 then "" else [','] + Spaced(fields[1..])
  }

  /** Fields with a comma and a blank between them. */
  function Row(fields: seq<string>): string
    requires fields != []
  {
    fields[0] + if |fields| == 1 then "" else [','] + Spaced(fields[1..])
  }

  lemma RowJoins(field: string, rest: seq<string>)
    requires rest != []
    ensures Spaced([field] + rest) == (" " + field) + [','] + Spaced(rest)
    ensures Row([field] + rest) == field + [','] + Spaced(rest)
    ensures Spaced([field]) == " " + field && Row([field]) == field
  {
    assert ([field] + rest)[1..] == rest;
  }

  /** The first field of a row is split off, with or without a blank in front. */
  lemma FirstField(whitespace: char -> bool, field: string, rest: string)
    requires Spaces(whitespace) && Solid(whitespace, ',', field)
    ensures Fields(whitespace, " " + field) == [field] == Fields(whitespace, field)
    ensures Fields(whitespace, (" " + field) + [','] + rest) == [field] + Fields(whitespace, rest)
    ensures Fields(whitespace, field + [','] + rest) == [field] + Fields(whitespace, rest)
  {
    SolidIsTrimmed(whitespace, ',', field);
    SplitBetween(" " + field, rest, ',');
    SplitBetween(field, rest, ',');
    hide Trim, Split, Spaces, Solid;
    TrimmedJoins(whitespace, " " + field, Split(rest, ','));
    TrimmedJoins(whitespace, field, Split(rest, ','));
  }

  lemma {:induction false} SpacedFields(whitespace: char -> bool, fields: seq<string>)
    requires fields != [] && Spaces(whitespace) && AllSolid(whitespace, ',', fields)
    ensures Fields(whitespace, Spaced(fields)) == fields
    ensures Fields(whitespace, Row(fields)) == fields
    decreases |fields|
  {
    hide Spaced, Row, Solid, Spaces, Fields;
    var rest := fields[1..];
    assert fields == [fields[0]] + rest && (rest == [] ==> fields == [fields[0]]);
    if rest == [] {
      RowJoins(fields[0], [""]);
      FirstField(whitespace, fields[0], "");
    } else {
      SpacedFields(whitespace, rest);
      RowJoins(fields[0], rest);
      FirstField(whitespace, fields[0], Spaced(rest));
    }
  }

  // ----------------------------------------------------------------------- the print

  /** What the decoder says of its one frame. */
  datatype Frame = Frame(dts: nat, pts: nat, duration: nat, digest: string)

  function FrameFields(p: Profile, f: Frame): seq<string> {
    ["0", Decimal(f.dts), Decimal(f.pts), Decimal(f.duration), Decimal(p.expectedBytes), f.digest]
  }

  /** The decoder's lines, with whatever it says of itself and its time base. */
  function Document(p: Profile, software: string, timeBase: string, f: Frame): seq<string> {
    ["#format: frame checksums", "#version: 2", "#hash: SHA256", "#software:" + software, "#tb 0:" + timeBase,
     "#media_type 0: video", "#codec_id 0: rawvideo",
     "#dimensions 0: " + Decimal(p.width) + "x" + Decimal(p.height), "#sar 0: 0/1",
     "#" + Row(["stream#", "dts", "pts", "duration", "size", "hash"]), Row(FrameFields(p, f))]
  }

  lemma NumeralIsSolid(whitespace: char -> bool, n: nat)
    requires Spaces(whitespace)
    ensures Solid(whitespace, ',', Decimal(n)) && Solid(whitespace, '\n', Decimal(n))
    ensures ParseUnsigned(Decimal(n)) == (if n < U64_LIMIT then Some(n) else None)
    ensures ParsesSigned(Decimal(n)) <==> n < U63_LIMIT
  {
    ValueOfDecimal(n);
    var text := Decimal(n);
    assert forall i :: 0 <= i < |text| ==> IsDigit(text[i]);
    assert IsDigit(text[0]) && IsDigit(text[|text| - 1]);
  }

  lemma DigestIsSolid(whitespace: char -> bool, digest: string)
    requires Spaces(whitespace) && IsSha256(digest)
    ensures Solid(whitespace, ',', digest) && Solid(whitespace, '\n', digest)
  {
  }

  lemma ColumnsAreSolid(whitespace: char -> bool)
    requires Spaces(whitespace)
    ensures AllSolid(whitespace, ',', COLUMNS)
  {
  }

  /** The parser's columns are those that the decoder prints. */
  lemma ColumnsAreRead(whitespace: char -> bool)
    requires Spaces(whitespace)
    ensures Fields(whitespace, Row(["stream#", "dts", "pts", "duration", "size", "hash"])) == COLUMNS
  {
    ColumnsAreSolid(whitespace);
    hide AllSolid, Fields, Row;
    SpacedFields(whitespace, COLUMNS);
  }

  lemma SixSolid(whitespace: char -> bool, separator: char, p: Profile, f: Frame)
    requires Solid(whitespace, separator, "0") && Solid(whitespace, separator, Decimal(f.dts))
    requires Solid(whitespace, separator, Decimal(f.pts)) && Solid(whitespace, separator, Decimal(f.duration))
    requires Solid(whitespace, separator, Decimal(p.expectedBytes)) && Solid(whitespace, separator, f.digest)
    ensures AllSolid(whitespace, separator, FrameFields(p, f))
  {
    hide Solid, Decimal;
  }

  lemma FrameIsSolid(whitespace: char -> bool, p: Profile, f: Frame)
    requires Spaces(whitespace) && IsSha256(f.digest)
    ensures AllSolid(whitespace, ',', FrameFields(p, f)) && AllSolid(whitespace, '\n', FrameFields(p, f))
  {
    DigestIsSolid(whitespace, f.digest);
    assert Solid(whitespace, ',', "0") && Solid(whitespace, '\n', "0");
    hide Decimal, IsSha256, Solid, Spaces, AllSolid, ParseUnsigned, ParsesSigned;
    NumeralIsSolid(whitespace, f.dts);
    NumeralIsSolid(whitespace, f.pts);
    NumeralIsSolid(whitespace, f.duration);
    NumeralIsSolid(whitespace, p.expectedBytes);
    SixSolid(whitespace, ',', p, f);
    SixSolid(whitespace, '\n', p, f);
  }

  lemma RowIsRead(whitespace: char -> bool, p: Profile, f: Frame)
    requires Spaces(whitespace) && IsSha256(f.digest) && p.expectedBytes < U64_LIMIT
    requires f.dts < U63_LIMIT && f.pts < U63_LIMIT && 0 < f.duration < U64_LIMIT
    ensures RowDigest(whitespace, p, Row(FrameFields(p, f))) == Some(f.digest)
  {
    FrameIsSolid(whitespace, p, f);
    NumeralIsSolid(whitespace, f.dts);
    NumeralIsSolid(whitespace, f.pts);
    NumeralIsSolid(whitespace, f.duration);
    NumeralIsSolid(whitespace, p.expectedBytes);
    hide Decimal, ParseUnsigned, ParsesSigned, IsSha256, Fields, Row, Solid, AllSolid, Spaces;
    SpacedFields(whitespace, FrameFields(p, f));
  }

  // ------------------------------------------------------------------------- headers

  /** A required header's key ends at its first colon. */
  lemma RequiredKey(whitespace: char -> bool, p: Profile, line: string, key: string)
    requires key <= line && |key| < |line| && line[|key|] == ':' && ':' !in key
    requires line in Required(p)
    ensures HeaderKey(whitespace, p, line) == Some(key)
  {
    assert line == key + [':'] + line[|key| + 1..];
    SplitBetween(key, line[|key| + 1..], ':');
    hide Split, Required, Fields;
  }

  lemma FormatKey(whitespace: char -> bool, p: Profile)
    ensures HeaderKey(whitespace, p, "#format: frame checksums") == Some("#format")
    ensures HeaderKey(whitespace, p, "#version: 2") == Some("#version")
    ensures HeaderKey(whitespace, p, "#hash: SHA256") == Some("#hash")
  {
    hide Split, Decimal, Fields, HeaderKey;
    assert Required(p)[0] in Required(p) && Required(p)[1] in Required(p) && Required(p)[2] in Required(p);
    RequiredKey(whitespace, p, "#format: frame checksums", "#format");
    RequiredKey(whitespace, p, "#version: 2", "#version");
    RequiredKey(whitespace, p, "#hash: SHA256", "#hash");
  }

  lemma MediaKey(whitespace: char -> bool, p: Profile)
    ensures HeaderKey(whitespace, p, "#media_type 0: video") == Some("#media_type 0")
    ensures HeaderKey(whitespace, p, "#codec_id 0: rawvideo") == Some("#codec_id 0")
  {
    hide Split, Decimal, Fields, HeaderKey;
    assert Required(p)[3] in Required(p) && Required(p)[4] in Required(p);
    RequiredKey(whitespace, p, "#media_type 0: video", "#media_type 0");
    RequiredKey(whitespace, p, "#codec_id 0: rawvideo", "#codec_id 0");
  }

  lemma DimensionsKey(whitespace: char -> bool, p: Profile)
    ensures HeaderKey(whitespace, p, "#dimensions 0: " + Decimal(p.width) + "x" + Decimal(p.height))
            == Some("#dimensions 0")
  {
    hide Split, Decimal, Fields, HeaderKey;
    var line := Required(p)[5];
    assert line in Required(p) && "#dimensions 0" <= line;
    RequiredKey(whitespace, p, line, "#dimensions 0");
  }

  lemma SoftwareKey(whitespace: char -> bool, p: Profile, software: string)
    ensures HeaderKey(whitespace, p, "#software:" + software) == Some("#software")
  {
    hide Split, Decimal, Fields;
    RequiredInitials(p, "#software:" + software);
    hide Required;
  }

  lemma TimeBaseKey(whitespace: char -> bool, p: Profile, timeBase: string)
    ensures HeaderKey(whitespace, p, "#tb 0:" + timeBase) == Some("#tb 0")
  {
    hide Split, Decimal, Fields;
    var line := "#tb 0:" + timeBase;
    assert line[1] == 't' && "#software:"[1] == 's';
    RequiredInitials(p, line);
    hide Required;
  }

  lemma AspectKey(whitespace: char -> bool, p: Profile)
    ensures HeaderKey(whitespace, p, "#sar 0: 0/1") == Some("#sar 0")
  {
    hide Split, Decimal, Fields;
    RequiredInitials(p, "#sar 0: 0/1");
    hide Required;
    assert "#sar 0: 0/1"[1] == 's' && "#tb 0:"[1] == 't';
    assert "#sar 0: 0/1"[2] == 'a' && "#software:"[2] == 'o';
  }

  lemma ColumnsKey(whitespace: char -> bool, p: Profile)
    requires Spaces(whitespace)
    ensures HeaderKey(whitespace, p, "#" + Row(["stream#", "dts", "pts", "duration", "size", "hash"]))
            == Some("#columns")
  {
    ColumnsAreRead(whitespace);
    var columns := Row(["stream#", "dts", "pts", "duration", "size", "hash"]);
    assert columns[0] == 's' && columns[1] == 't' && |columns| > 10;
    hide Split, Decimal, Fields, Row;
    var line := "#" + columns;
    assert line[1] == 's' && line[2] == 't' && line[1..] == columns;
    RequiredInitials(p, line);
    ColumnsLine(whitespace, p, line);
  }

  lemma ColumnsLine(whitespace: char -> bool, p: Profile, line: string)
    requires |line| > 2 && line[0] == '#' && line[1] == 's' && line[2] == 't' && line !in Required(p)
    requires Fields(whitespace, line[1..]) == COLUMNS
    ensures HeaderKey(whitespace, p, line) == Some("#columns")
  {
    hide Required, Fields, COLUMNS;
    assert "#software:"[2] == 'o' && "#tb 0:"[1] == 't' && "#sar 0: 0/1"[2] == 'a' == "#sar 0: 1/1"[2];
  }

  /** The required headers differ from others in their second character. */
  lemma RequiredInitials(p: Profile, line: string)
    requires |line| > 1 && (line[1] == 's' || line[1] == 't')
    ensures line !in Required(p)
  {
    hide Decimal;
    assert forall i :: 0 <= i < |Required(p)| ==> |Required(p)[i]| > 1 && Required(p)[i][1] != line[1];
  }

  const KEYS := ["#format", "#version", "#hash", "#software", "#tb 0", "#media_type 0", "#codec_id 0",
                 "#dimensions 0", "#sar 0", "#columns"]

  lemma KeysDiffer(i: nat, j: nat)
    requires i < j < |KEYS|
    ensures KEYS[i] != KEYS[j]
  {
    assert |KEYS[i]| == |KEYS[j]| ==> KEYS[i][1] != KEYS[j][1];
  }

  lemma DocumentKeys(whitespace: char -> bool, p: Profile, software: string, timeBase: string, f: Frame)
    requires Spaces(whitespace)
    ensures |Document(p, software, timeBase, f)| == |KEYS| + 1
    ensures forall i :: 0 <= i < |KEYS| ==>
      IsHeader(Document(p, software, timeBase, f)[i])
      && HeaderKey(whitespace, p, Document(p, software, timeBase, f)[i]) == Some(KEYS[i])
  {
    hide HeaderKey, Decimal, Row, FrameFields;
    FormatKey(whitespace, p);
    MediaKey(whitespace, p);
    DimensionsKey(whitespace, p);
    SoftwareKey(whitespace, p, software);
    TimeBaseKey(whitespace, p, timeBase);
    AspectKey(whitespace, p);
    ColumnsKey(whitespace, p);
  }

  lemma DocumentIsComplete(whitespace: char -> bool, p: Profile, software: string, timeBase: string, f: Frame)
    requires Spaces(whitespace) && IsSha256(f.digest) && p.expectedBytes < U64_LIMIT
    requires f.dts < U63_LIMIT && f.pts < U63_LIMIT && 0 < f.duration < U64_LIMIT
    ensures Complete(whitespace, p, Document(p, software, timeBase, f))
    ensures |Document(p, software, timeBase, f)| == 11
    ensures RowDigest(whitespace, p, Document(p, software, timeBase, f)[10]) == Some(f.digest)
  {
    var lines := Document(p, software, timeBase, f);
    DocumentKeys(whitespace, p, software, timeBase, f);
    RowIsRead(whitespace, p, f);
    RowIsNoHeader(p, f);
    hide HeaderKey, RowDigest, Decimal, Row, FrameFields, KEYS;
    var front := lines[..10];
    forall i, j | 0 <= i < j < |front|
      ensures HeaderKey(whitespace, p, front[i]) != HeaderKey(whitespace, p, front[j])
    {
      KeysDiffer(i, j);
    }
    assert Headers(whitespace, p, front);
    RequiredInFront(p, software, timeBase, f);
  }

  lemma RowIsNoHeader(p: Profile, f: Frame)
    ensures !IsHeader(Row(FrameFields(p, f)))
  {
    assert Row(FrameFields(p, f))[0] == '0';
  }

  lemma RequiredInFront(p: Profile, software: string, timeBase: string, f: Frame)
    ensures |Document(p, software, timeBase, f)| == 11
    ensures forall header :: header in Required(p) ==> header in Document(p, software, timeBase, f)[..10]
  {
    hide Decimal, Row, FrameFields;
    var lines := Document(p, software, timeBase, f);
    var front := lines[..10];
    assert front[0] == Required(p)[0] && front[1] == Required(p)[1] && front[2] == Required(p)[2];
    assert front[5] == Required(p)[3] && front[6] == Required(p)[4] && front[7] == Required(p)[5];
  }

  // --------------------------------------------------------------------- the read-back

  lemma {:induction false} SpacedIsSolid(whitespace: char -> bool, fields: seq<string>)
    requires fields != [] && AllSolid(whitespace, '\n', fields)
    ensures '\n' !in Spaced(fields) && '\n' !in Row(fields)
    ensures Solid(whitespace, '\n', Row(fields))
    ensures !whitespace(Spaced(fields)[|Spaced(fields)| - 1])
    decreases |fields|
  {
    if |fields| > 1 {
      SpacedIsSolid(whitespace, fields[1..]);
    }
  }

  lemma RowIsSolid(whitespace: char -> bool, p: Profile, f: Frame)
    requires Spaces(whitespace) && IsSha256(f.digest)
    ensures Solid(whitespace, '\n', Row(FrameFields(p, f)))
  {
    FrameIsSolid(whitespace, p, f);
    hide IsSha256, Solid, AllSolid, Spaces, Row, Spaced;
    SpacedIsSolid(whitespace, FrameFields(p, f));
  }

  lemma ColumnsAreLine(whitespace: char -> bool)
    requires Spaces(whitespace)
    ensures Solid(whitespace, '\n', "#" + Row(["stream#", "dts", "pts", "duration", "size", "hash"]))
  {
    var columns := ["stream#", "dts", "pts", "duration", "size", "hash"];
    assert forall i :: 0 <= i < |columns| ==> Solid(whitespace, '\n', columns[i]);
    SpacedIsSolid(whitespace, columns);
    hide Row;
  }

  lemma DimensionsAreLine(whitespace: char -> bool, p: Profile)
    requires Spaces(whitespace)
    ensures Solid(whitespace, '\n', "#dimensions 0: " + Decimal(p.width) + "x" + Decimal(p.height))
  {
    NumeralIsSolid(whitespace, p.width);
    NumeralIsSolid(whitespace, p.height);
    hide Decimal, ParseUnsigned, ParsesSigned;
    assert '\n' !in "#dimensions 0: " && '\n' !in "x";
    Surrounded(whitespace, "#dimensions 0: " + Decimal(p.width) + "x", Decimal(p.height));
  }

  lemma Surrounded(whitespace: char -> bool, front: string, back: string)
    requires front != "" && !whitespace(front[0]) && '\n' !in front && Solid(whitespace, '\n', back)
    ensures Solid(whitespace, '\n', front + back)
  {
  }

  lemma LiteralsAreLines(whitespace: char -> bool)
    requires Spaces(whitespace)
    ensures Solid(whitespace, '\n', "#format: frame checksums") && Solid(whitespace, '\n', "#version: 2")
    ensures Solid(whitespace, '\n', "#hash: SHA256")
  {
  }

  lemma OthersAreLines(whitespace: char -> bool)
    requires Spaces(whitespace)
    ensures Solid(whitespace, '\n', "#media_type 0: video") && Solid(whitespace, '\n', "#codec_id 0: rawvideo")
    ensures Solid(whitespace, '\n', "#sar 0: 0/1")
  {
  }

  lemma DocumentIsSolid(whitespace: char -> bool, p: Profile, software: string, timeBase: string, f: Frame)
    requires Spaces(whitespace) && IsSha256(f.digest)
    requires Solid(whitespace, '\n', "#software:" + software) && Solid(whitespace, '\n', "#tb 0:" + timeBase)
    ensures AllSolid(whitespace, '\n', Document(p, software, timeBase, f))
  {
    hide Solid, Decimal, Row, FrameFields, Spaces, IsSha256;
    RowIsSolid(whitespace, p, f);
    ColumnsAreLine(whitespace);
    DimensionsAreLine(whitespace, p);
    LiteralsAreLines(whitespace);
    OthersAreLines(whitespace);
  }

  lemma DocumentIsLines(whitespace: char -> bool, p: Profile, software: string, timeBase: string, f: Frame)
    requires Spaces(whitespace) && IsSha256(f.digest)
    requires Solid(whitespace, '\n', "#software:" + software) && Solid(whitespace, '\n', "#tb 0:" + timeBase)
    ensures Lines(whitespace, Joined(Document(p, software, timeBase, f))) == Document(p, software, timeBase, f)
  {
    DocumentIsSolid(whitespace, p, software, timeBase, f);
    hide Document, Spaces, Lines, Joined, Solid;
    LinesOfJoined(whitespace, Document(p, software, timeBase, f));
  }

  /** Whatever the decoder prints for one frame of the expected size is accepted, and its
      digest is the one that is returned. */
  lemma PrintedIsRead(whitespace: char -> bool, p: Profile, software: string, timeBase: string, f: Frame)
    requires Spaces(whitespace) && IsSha256(f.digest) && p.expectedBytes < U64_LIMIT
    requires f.dts < U63_LIMIT && f.pts < U63_LIMIT && 0 < f.duration < U64_LIMIT
    requires Solid(whitespace, '\n', "#software:" + software) && Solid(whitespace, '\n', "#tb 0:" + timeBase)
    ensures var lines := Lines(whitespace, Joined(Document(p, software, timeBase, f)));
      && Complete(whitespace, p, lines)
      && RowDigest(whitespace, p, lines[|lines| - 1]) == Some(f.digest)
  {
    DocumentIsLines(whitespace, p, software, timeBase, f);
    DocumentIsComplete(whitespace, p, software, timeBase, f);
    hide Lines, Joined, Document, RowDigest, Spaces, Solid, IsSha256;
  }
}
