/** The framehash parser of src/frame_decode.rs. */
module Framehash {
  import opened Decimals
  import opened Text
  import opened Widths
  import opened Wrappers

  /** What the caller expects of the decoder. */
  datatype Profile = Profile(width: nat, height: nat, expectedBytes: nat)

  datatype Refusal = UnsupportedHeader | MisplacedHeader | BadRow | MissingHeader | NoFrame

  // --------------------------------------------------------------------------- text

  function Trimmed(whitespace: char -> bool, pieces: seq<string>): seq<string> {
    seq(|pieces|, i requires 0 <= i < |pieces| => Trim(whitespace, pieces[i]))
  }

  function NonBlank(lines: seq<string>): seq<string> {
    if lines == [] then [] else (if lines[0] == "" then [] else [lines[0]]) + NonBlank(lines[1..])
  }

  /** The lines that count: trimmed, and not blank. A carriage return is white space, so
      trimming also removes what `lines` would. */
  function Lines(whitespace: char -> bool, text: string): seq<string> {
    NonBlank(Trimmed(whitespace, Split(text, '\n')))
  }

  function Fields(whitespace: char -> bool, text: string): seq<string> {
    Trimmed(whitespace, Split(text, ','))
  }

  predicate Numeral(text: string) {
    text != "" && AllDigits(text)
  }

  /** `str::parse::<u64>`. */
  function ParseUnsigned(text: string): Option<nat> {
    var digits := if "+" <= text then text[1..] else text;
    if Numeral(digits) && ValueOf(digits) < U64_LIMIT then Some(ValueOf(digits)) else None
  }

  /** `str::parse::<i64>` succeeds. */
  predicate ParsesSigned(text: string) {
    if "-" <= text then Numeral(text[1..]) && ValueOf(text[1..]) <= U63_LIMIT
    else
      var digits := if "+" <= text then text[1..] else text;
      Numeral(digits) && ValueOf(digits) < U63_LIMIT
  }

  // -------------------------------------------------------------------------- lines

  function Required(p: Profile): seq<string> {
    ["#format: frame checksums", "#version: 2", "#hash: SHA256", "#media_type 0: video", "#codec_id 0: rawvideo",
     "#dimensions 0: " + Decimal(p.width) + "x" + Decimal(p.height)]
  }

  const COLUMNS: seq<string> := ["stream#", "dts", "pts", "duration", "size", "hash"]

  predicate IsHeader(line: string) {
    "#" <= line
  }

  /** The key of an admitted header. */
  function HeaderKey(whitespace: char -> bool, p: Profile, line: string): Option<string> {
    if line in Required(p) then Some(Split(line, ':')[0])
    else if "#software:" <= line then Some("#software")
    else if "#tb 0:" <= line then Some("#tb 0")
    else if line == "#sar 0: 0/1" || line == "#sar 0: 1/1" then Some("#sar 0")
    else if IsHeader(line) && Fields(whitespace, line[1..]) == COLUMNS then Some("#columns")
    else None
  }

  /** The digest of a row that declares stream 0 and the expected size. */
  function RowDigest(whitespace: char -> bool, p: Profile, line: string): Option<string> {
    var fields := Fields(whitespace, line);
    if |fields| != 6 || fields[0] != "0" || !ParsesSigned(fields[1]) || !ParsesSigned(fields[2]) then None
    else if ParseUnsigned(fields[3]).None? || ParseUnsigned(fields[3]) == Some(0) then None
    else if ParseUnsigned(fields[4]) != Some(p.expectedBytes) then None
    else if !IsSha256(fields[5]) then None
    else Some(fields[5])
  }

  // ------------------------------------------------------------------ what is complete

  /** Admitted headers, no key twice. */
  ghost predicate Headers(whitespace: char -> bool, p: Profile, lines: seq<string>) {
    && (forall i :: 0 <= i < |lines| ==> IsHeader(lines[i]) && HeaderKey(whitespace, p, lines[i]).Some?)
    && (forall i, j :: 0 <= i < j < |lines| ==>
          HeaderKey(whitespace, p, lines[i]) != HeaderKey(whitespace, p, lines[j]))
  }

  /** A whole framehash: distinct admitted headers, all the required ones among them, then
      exactly one row. */
  ghost predicate Complete(whitespace: char -> bool, p: Profile, lines: seq<string>) {
    && lines != []
    && Headers(whitespace, p, lines[..|lines| - 1])
    && (forall header :: header in Required(p) ==> header in lines[..|lines| - 1])
    && !IsHeader(lines[|lines| - 1]) && RowDigest(whitespace, p, lines[|lines| - 1]).Some?
  }

  /** How far the loop has come without refusing. */
  ghost predicate Progress(whitespace: char -> bool, p: Profile, lines: seq<string>, hash: Option<string>) {
    if hash.None? then Headers(whitespace, p, lines)
    else
      && lines != [] && Headers(whitespace, p, lines[..|lines| - 1])
      && !IsHeader(lines[|lines| - 1]) && RowDigest(whitespace, p, lines[|lines| - 1]) == hash
  }

  ghost predicate Seen(whitespace: char -> bool, p: Profile, lines: seq<string>,
                       headers: set<string>, keys: set<string>) {
    && (forall line :: line in headers <==> line in lines && IsHeader(line))
    && (forall key :: key in keys <==> exists line :: line in headers && HeaderKey(whitespace, p, line) == Some(key))
  }

  // ------------------------------------------------------------------------ methods

  /** `decoded_hash`, of text that decodes. */
  method DecodedHash(whitespace: char -> bool, text: string, p: Profile) returns (r: Result<string, Refusal>)
    ensures var lines := Lines(whitespace, text);
      && (r.Success? <==> Complete(whitespace, p, lines))
      && (r.Success? ==> RowDigest(whitespace, p, lines[|lines| - 1]) == Some(r.value))
  {
    hide Lines, HeaderKey, RowDigest, Complete, Progress, Seen, Headers, Required;
    var lines := Lines(whitespace, text);
    var headers, headerKeys := {}, {};
    var hash: Option<string> := None;
    NothingSeen(whitespace, p);
    for i := 0 to |lines|
      invariant Progress(whitespace, p, lines[..i], hash)
      invariant Seen(whitespace, p, lines[..i], headers, headerKeys)
    {
      var line := lines[i];
      Step(whitespace, p, lines, i, hash, headers, headerKeys);
      if IsHeader(line) {
        var key := HeaderKey(whitespace, p, line);
        if key.None? {
          return Failure(UnsupportedHeader);
        }
        if hash.Some? || key.value in headerKeys || line in headers {
          return Failure(MisplacedHeader);
        }
        headerKeys := headerKeys + {key.value};
        headers := headers + {line};
        continue;
      }
      var digest := RowDigest(whitespace, p, line);
      if hash.Some? || digest.None? {
        return Failure(BadRow);
      }
      hash := digest;
    }
    assert lines[..|lines|] == lines;
    AtEnd(whitespace, p, lines, hash, headers, headerKeys);
    if exists i :: 0 <= i < |Required(p)| && Required(p)[i] !in headers {
      return Failure(MissingHeader);
    }
    if hash.None? {
      return Failure(NoFrame);
    }
    return Success(hash.value);
  }

  lemma NothingSeen(whitespace: char -> bool, p: Profile)
    ensures Progress(whitespace, p, [], None) && Seen(whitespace, p, [], {}, {})
  {
  }

  /** One line: refused where no continuation could be complete, and taken in otherwise. */
  lemma Step(whitespace: char -> bool, p: Profile, lines: seq<string>, i: nat, hash: Option<string>,
             headers: set<string>, keys: set<string>)
    requires i < |lines| && Progress(whitespace, p, lines[..i], hash)
    requires Seen(whitespace, p, lines[..i], headers, keys)
    ensures var line := lines[i];
      var key := HeaderKey(whitespace, p, line);
      if hash.Some? then !Complete(whitespace, p, lines)
      else if IsHeader(line) then
        if key.None? || key.value in keys then !Complete(whitespace, p, lines)
        else
          && line !in headers
          && Progress(whitespace, p, lines[..i + 1], None)
          && Seen(whitespace, p, lines[..i + 1], headers + {line}, keys + {key.value})
      else if RowDigest(whitespace, p, line).None? then !Complete(whitespace, p, lines)
      else
        && Progress(whitespace, p, lines[..i + 1], RowDigest(whitespace, p, line))
        && Seen(whitespace, p, lines[..i + 1], headers, keys)
  {
    hide HeaderKey, RowDigest, IsHeader;
    var line := lines[i];
    assert lines[..i + 1] == lines[..i] + [line] && lines[..i + 1][..i] == lines[..i];
    if hash.Some? {
      RowIsLast(whitespace, p, lines, i - 1);
    } else if IsHeader(line) {
      HeaderStep(whitespace, p, lines, i, headers, keys);
    } else if RowDigest(whitespace, p, line).None? {
      RowIsLast(whitespace, p, lines, i);
    } else {
      hide Headers;
      RowSeen(whitespace, p, lines[..i], line, headers, keys);
    }
  }

  lemma RowSeen(whitespace: char -> bool, p: Profile, lines: seq<string>, line: string,
                headers: set<string>, keys: set<string>)
    requires Seen(whitespace, p, lines, headers, keys) && !IsHeader(line)
    ensures Seen(whitespace, p, lines + [line], headers, keys)
  {
    hide HeaderKey, IsHeader;
  }

  lemma RowIsLast(whitespace: char -> bool, p: Profile, lines: seq<string>, i: nat)
    requires i < |lines| && !IsHeader(lines[i])
    ensures Complete(whitespace, p, lines) ==>
      i == |lines| - 1 && RowDigest(whitespace, p, lines[i]).Some?
  {
    hide HeaderKey, RowDigest, IsHeader;
    if i < |lines| - 1 {
      assert lines[..|lines| - 1][i] == lines[i];
    }
  }

  lemma HeaderStep(whitespace: char -> bool, p: Profile, lines: seq<string>, i: nat,
                   headers: set<string>, keys: set<string>)
    requires i < |lines| && IsHeader(lines[i]) && Headers(whitespace, p, lines[..i])
    requires Seen(whitespace, p, lines[..i], headers, keys)
    ensures var key := HeaderKey(whitespace, p, lines[i]);
      if key.None? || key.value in keys then !Complete(whitespace, p, lines)
      else
        && lines[i] !in headers
        && Headers(whitespace, p, lines[..i + 1])
        && Seen(whitespace, p, lines[..i + 1], headers + {lines[i]}, keys + {key.value})
  {
    hide HeaderKey, RowDigest, IsHeader, Required;
    var line, before := lines[i], lines[..i];
    var key := HeaderKey(whitespace, p, line);
    if key.Some? && key.value in keys {
      KeySeenBefore(whitespace, p, before, key.value, headers, keys);
      assert forall k :: 0 <= k < i ==> before[k] == lines[k];
      CompleteIsDistinct(whitespace, p, lines, i);
    } else if key.None? {
      CompleteIsDistinct(whitespace, p, lines, i);
    } else {
      assert lines[..i + 1] == before + [line];
      hide Complete;
      HeaderSeen(whitespace, p, before, line, key.value, headers, keys);
    }
  }

  lemma KeySeenBefore(whitespace: char -> bool, p: Profile, before: seq<string>, key: string,
                      headers: set<string>, keys: set<string>)
    requires Seen(whitespace, p, before, headers, keys) && key in keys
    ensures exists k :: 0 <= k < |before| && HeaderKey(whitespace, p, before[k]) == Some(key)
  {
    hide HeaderKey, IsHeader;
    var line :| line in headers && HeaderKey(whitespace, p, line) == Some(key);
    assert line in before;
  }

  lemma CompleteIsDistinct(whitespace: char -> bool, p: Profile, lines: seq<string>, i: nat)
    requires i < |lines| && IsHeader(lines[i])
    ensures Complete(whitespace, p, lines) ==>
      && HeaderKey(whitespace, p, lines[i]).Some?
      && forall k :: 0 <= k < i ==> HeaderKey(whitespace, p, lines[k]) != HeaderKey(whitespace, p, lines[i])
  {
    hide HeaderKey, RowDigest, IsHeader, Required;
    var front := lines[..|lines| - 1];
    assert forall k :: 0 <= k < |front| ==> front[k] == lines[k];
    assert Complete(whitespace, p, lines) ==> i < |front|;
  }

  lemma HeaderSeen(whitespace: char -> bool, p: Profile, before: seq<string>, line: string, key: string,
                   headers: set<string>, keys: set<string>)
    requires Headers(whitespace, p, before) && Seen(whitespace, p, before, headers, keys)
    requires IsHeader(line) && HeaderKey(whitespace, p, line) == Some(key) && key !in keys
    ensures line !in headers && Headers(whitespace, p, before + [line])
    ensures Seen(whitespace, p, before + [line], headers + {line}, keys + {key})
  {
    hide HeaderKey, IsHeader;
    forall i | 0 <= i < |before| ensures HeaderKey(whitespace, p, before[i]) != Some(key) {
      assert before[i] in headers;
    }
    forall other ensures other in keys + {key} <==>
      exists seen :: seen in headers + {line} && HeaderKey(whitespace, p, seen) == Some(other)
    {
      if other == key {
        assert line in headers + {line};
      }
    }
  }

  lemma AtEnd(whitespace: char -> bool, p: Profile, lines: seq<string>, hash: Option<string>,
              headers: set<string>, keys: set<string>)
    requires Progress(whitespace, p, lines, hash) && Seen(whitespace, p, lines, headers, keys)
    ensures Complete(whitespace, p, lines) <==>
      hash.Some? && forall i :: 0 <= i < |Required(p)| ==> Required(p)[i] in headers
    ensures hash.Some? ==> lines != [] && RowDigest(whitespace, p, lines[|lines| - 1]) == hash
  {
    hide HeaderKey, RowDigest, IsHeader, Required;
    RequiredAreHeaders(p);
    if hash.Some? {
      var front := lines[..|lines| - 1];
      assert lines == front + [lines[|lines| - 1]];
      assert forall header :: header in front ==> IsHeader(header);
      forall header | header in Required(p) ensures header in headers <==> header in front {
        var i :| 0 <= i < |Required(p)| && Required(p)[i] == header;
      }
      forall i | 0 <= i < |Required(p)| ensures Required(p)[i] in Required(p) {
      }
    } else if lines != [] {
      assert IsHeader(lines[|lines| - 1]);
    }
  }

  lemma RequiredAreHeaders(p: Profile)
    ensures forall i :: 0 <= i < |Required(p)| ==> IsHeader(Required(p)[i])
  {
  }
}
