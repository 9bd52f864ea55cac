/** The FIRST:LAST notation of src/frame_selection.rs. */
module RangeText {
  import opened Decimals
  import opened FrameSelection
  import opened Widths
  import opened Wrappers

  const MAXIMUM_DIGITS := 20

  datatype TextError = NoColon | NotDecimal | OutOfRange | NotARange

  /** `str::split_once`, at the first colon. */
  function SplitOnce(text: string): Option<(string, string)> {
    if text == "" then None
    else if text[0] == ':' then Some(("", text[1..]))
    else
      match SplitOnce(text[1..])
      case None => None
      case Some(parts) => Some(([text[0]] + parts.0, parts.1))
  }

  predicate Part(text: string) {
    text != "" && |text| <= MAXIMUM_DIGITS && AllDigits(text)
  }

  /** `InclusiveFrameRange::from_str`. */
  function ParseRange(text: string): Result<Range, TextError> {
    match SplitOnce(text)
    case None => Failure(NoColon)
    case Some(parts) =>
      if !Part(parts.0) || !Part(parts.1) then Failure(NotDecimal)
      else if ValueOf(parts.0) >= U64_LIMIT || ValueOf(parts.1) >= U64_LIMIT then Failure(OutOfRange)
      else
        var r := Range(ValueOf(parts.0), ValueOf(parts.1));
        if r.first == 0 || r.last < r.first then Failure(NotARange) else Success(r)
  }

  /** Two numerals around a colon spell a range. */
  predicate Spells(text: string, first: string, last: string, r: Range) {
    && text == first + ":" + last
    && Part(first) && Part(last)
    && ValueOf(first) == r.first && ValueOf(last) == r.last
    && 1 <= r.first <= r.last < U64_LIMIT
  }

  lemma {:induction false} SplitJoins(text: string)
    ensures match SplitOnce(text)
            case None => forall i :: 0 <= i < |text| ==> text[i] != ':'
            case Some(parts) => text == parts.0 + ":" + parts.1
    decreases |text|
  {
    if text != "" && text[0] != ':' {
      SplitJoins(text[1..]);
    }
  }

  lemma {:induction false} SplitFinds(first: string, last: string)
    requires forall i :: 0 <= i < |first| ==> first[i] != ':'
    ensures SplitOnce(first + ":" + last) == Some((first, last))
    decreases |first|
  {
    var text := first + ":" + last;
    if first == "" {
      assert text[0] == ':' && text[1..] == last;
    } else {
      assert text[0] == first[0] && text[1..] == first[1..] + ":" + last;
      SplitFinds(first[1..], last);
      assert [first[0]] + first[1..] == first;
    }
  }

  lemma SpelledIsParsed(text: string, first: string, last: string, r: Range)
    requires Spells(text, first, last, r)
    ensures ParseRange(text) == Success(r)
  {
    hide ValueOf;
    forall i | 0 <= i < |first| ensures first[i] != ':' {
      assert IsDigit(first[i]);
    }
    SplitFinds(first, last);
  }

  /** A text is accepted exactly when it spells the range that is returned. */
  lemma ParsedIsSpelled(text: string, r: Range)
    ensures ParseRange(text) == Success(r) <==> exists first, last :: Spells(text, first, last, r)
  {
    hide ValueOf;
    if ParseRange(text) == Success(r) {
      SplitJoins(text);
      var parts := SplitOnce(text).value;
      assert Spells(text, parts.0, parts.1, r);
    }
    forall first, last | Spells(text, first, last, r) ensures ParseRange(text) == Success(r) {
      SpelledIsParsed(text, first, last, r);
    }
  }

  lemma TwentyDigits(n: nat)
    requires n < U64_LIMIT
    ensures |Decimal(n)| <= MAXIMUM_DIGITS
  {
    assert Power10(2) == 100;
    assert Power10(4) == 10000;
    assert Power10(6) == 1000000;
    assert Power10(8) == 100000000;
    assert Power10(10) == 10000000000;
    assert Power10(12) == 1000000000000;
    assert Power10(14) == 100000000000000;
    assert Power10(16) == 10000000000000000;
    assert Power10(18) == 1000000000000000000;
    assert Power10(20) == 100000000000000000000;
    DecimalLength(n, MAXIMUM_DIGITS);
  }

  /** Every 64-bit range is read back from its print. */
  lemma PrintedIsParsed(r: Range)
    requires 1 <= r.first <= r.last < U64_LIMIT
    ensures ParseRange(Decimal(r.first) + ":" + Decimal(r.last)) == Success(r)
  {
    ValueOfDecimal(r.first);
    ValueOfDecimal(r.last);
    TwentyDigits(r.first);
    TwentyDigits(r.last);
    hide ValueOf, Decimal;
    SpelledIsParsed(Decimal(r.first) + ":" + Decimal(r.last), Decimal(r.first), Decimal(r.last), r);
  }
}
