/** Text operations of the standard library, and the shape of a digest. */
module Text {
  function TrimLeft(drop: char -> bool, text: string): string {
    if text != "" && drop(text[0]) then TrimLeft(drop, text[1..]) else text
  }

  function TrimRight(drop: char -> bool, text: string): string {
    if text != "" && drop(text[|text| - 1]) then TrimRight(drop, text[..|text| - 1]) else text
  }

  function Trim(drop: char -> bool, text: string): string {
    TrimRight(drop, TrimLeft(drop, text))
  }

  /** The pieces between separators: one more than there are separators. */
  function Split(text: string, separator: char): (r: seq<string>)
    ensures r != []
  {
    if text == "" then [""]
    else
      var rest := Split(text[1..], separator);
      if text[0] == separator then [""] + rest else [[text[0]] + rest[0]] + rest[1..]
  }

  /** Splitting gives back what stands before the first separator, and splits the rest. */
  lemma {:induction false} SplitBetween(piece: string, rest: string, separator: char)
    requires separator !in piece
    ensures Split(piece, separator) == [piece]
    ensures Split(piece + [separator] + rest, separator) == [piece] + Split(rest, separator)
    decreases |piece|
  {
    var text := piece + [separator] + rest;
    if piece == "" {
      assert text[0] == separator && text[1..] == rest;
    } else {
      assert text[0] == piece[0] && text[1..] == piece[1..] + [separator] + rest;
      assert [piece[0]] + piece[1..] == piece;
      SplitBetween(piece[1..], rest, separator);
    }
  }

  /** What trimming leaves: everything between the first and the last character to keep. */
  ghost predicate Kept(drop: char -> bool, text: string, from: nat, to: nat, r: string) {
    && from <= to <= |text| && r == text[from..to]
    && (forall i :: 0 <= i < from || to <= i < |text| ==> drop(text[i]))
    && (from < to ==> !drop(text[from]) && !drop(text[to - 1]))
  }

  lemma {:induction false} LeftKept(drop: char -> bool, text: string) returns (from: nat)
    ensures from <= |text| && TrimLeft(drop, text) == text[from..]
    ensures (forall i :: 0 <= i < from ==> drop(text[i])) && (from < |text| ==> !drop(text[from]))
    decreases |text|
  {
    from := 0;
    if text != "" && drop(text[0]) {
      from := LeftKept(drop, text[1..]);
      from := from + 1;
    }
  }

  lemma {:induction false} RightKept(drop: char -> bool, text: string) returns (to: nat)
    ensures to <= |text| && TrimRight(drop, text) == text[..to]
    ensures (forall i :: to <= i < |text| ==> drop(text[i])) && (to > 0 ==> !drop(text[to - 1]))
    decreases |text|
  {
    to := |text|;
    if text != "" && drop(text[|text| - 1]) {
      to := RightKept(drop, text[..|text| - 1]);
    }
  }

  lemma TrimKeeps(drop: char -> bool, text: string)
    ensures exists from: nat, to: nat :: Kept(drop, text, from, to, Trim(drop, text))
  {
    var from := LeftKept(drop, text);
    var rest := text[from..];
    var n := RightKept(drop, rest);
    forall i | from + n <= i < |text| ensures drop(text[i]) {
      assert text[i] == rest[i - from];
    }
    assert Trim(drop, text) == rest[..n] == text[from..from + n];
    assert Kept(drop, text, from, from + n, Trim(drop, text));
  }

  /** `require_sha256`: 64 lower-case hexadecimal digits. */
  predicate IsSha256(text: string) {
    |text| == 64 && forall i :: 0 <= i < |text| ==> '0' <= text[i] <= '9' || 'a' <= text[i] <= 'f'
  }
}
