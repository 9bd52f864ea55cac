/** Exactly which argument templates, and exactly which values, the replacements of
    src/pipeline.rs treat as one simultaneous substitution. */
module PlaceholderSafety {
  import opened Distinctness
  import opened Placeholders

  function Rank(slot: Slot): (r: nat)
    ensures r < 4 && SOURCE_ORDER[r] == slot
  {
    match slot
    case Input => 0
    case Output => 1
    case Frame => 2
    case RunDir => 3
  }

  lemma RankIsIndex(j: nat)
    requires j < 4
    ensures Rank(SOURCE_ORDER[j]) == j
  {
  }

  /** What stands for each hole when the first `j` slots have been replaced. */
  function EnvAt(values: Values, j: nat): Values {
    slot => if Rank(slot) < j then values(slot) else Pattern(slot)
  }

  /** The replacements from the `j`-th on. */
  function From(text: string, j: nat, values: Values): string
    requires j <= 4
    decreases 4 - j
  {
    if j == 4 then text
    else From(Replace(text, SOURCE_ORDER[j], values(SOURCE_ORDER[j])), j + 1, values)
  }

  lemma FromIsExpansion(template: string, values: Values)
    ensures From(template, 0, values) == ExpandArgument(template, values)
  {
    hide Replace;
    var one := Replace(template, Input, values(Input));
    var two := Replace(one, Output, values(Output));
    var three := Replace(two, Frame, values(Frame));
    var four := Replace(three, RunDir, values(RunDir));
    assert From(four, 4, values) == four;
    assert From(three, 3, values) == From(four, 4, values);
    assert From(two, 2, values) == From(three, 3, values);
    assert From(one, 1, values) == From(two, 2, values);
  }

  // --------------------------------------------------------------------- sufficiency

  /** At each replacement from the `j`-th on, neither a stray brace nor a value that has been
      put in starts the slot's pattern. */
  ghost predicate CalmFrom(tokens: seq<Token>, values: Values, j: nat) {
    forall i :: j <= i < 4 ==>
      var slot := SOURCE_ORDER[i];
      StraysCalm(tokens, EnvAt(values, i), slot) && Settled(EnvAt(values, i), slot)
  }

  lemma {:induction false} CalmFills(tokens: seq<Token>, values: Values, j: nat)
    requires j <= 4 && CalmFrom(tokens, values, j)
    ensures From(Render(tokens, EnvAt(values, j)), j, values) == Render(tokens, values)
    decreases 4 - j
  {
    hide StraysCalm, Settled, Replace, Render, Pattern;
    if j == 4 {
      RenderAgrees(tokens, EnvAt(values, 4), values);
    } else {
      var slot := SOURCE_ORDER[j];
      RankIsIndex(j);
      var env := EnvAt(values, j);
      ReplaceFills(tokens, env, slot, values(slot));
      EnvNext(tokens, values, j);
      CalmFills(tokens, values, j + 1);
    }
  }

  lemma EnvNext(tokens: seq<Token>, values: Values, j: nat)
    requires j < 4
    ensures Render(tokens, With(EnvAt(values, j), SOURCE_ORDER[j], values(SOURCE_ORDER[j])))
      == Render(tokens, EnvAt(values, j + 1))
  {
    hide Render, Pattern;
    RankIsIndex(j);
    forall slot ensures With(EnvAt(values, j), SOURCE_ORDER[j], values(SOURCE_ORDER[j]))(slot)
      == EnvAt(values, j + 1)(slot)
    {
      assert SOURCE_ORDER[Rank(slot)] == slot;
    }
    RenderAgrees(tokens, With(EnvAt(values, j), SOURCE_ORDER[j], values(SOURCE_ORDER[j])), EnvAt(values, j + 1));
  }

  lemma CalmIsSimultaneous(template: string, values: Values)
    requires CalmFrom(Tokens(template), values, 0)
    ensures ExpandArgument(template, values) == Substitute(template, values)
  {
    hide CalmFrom, Tokens, Render, Replace, ExpandArgument, Pattern, Closed, Clean;
    var tokens := Tokens(template);
    TokensRender(template);
    forall slot ensures EnvAt(values, 0)(slot) == Pattern(slot) {
      assert !(Rank(slot) < 0);
    }
    RenderAgrees(tokens, EnvAt(values, 0), Pattern);
    CalmFills(tokens, values, 0);
    FromIsExpansion(template, values);
  }

  // ------------------------------------------------------------------------ counting

  function Braces(text: string): nat {
    if text == "" then 0 else (if text[0] == '{' then 1 else 0) + Braces(text[1..])
  }

  /** How often a slot's pattern occurs. */
  function Occurrences(text: string, slot: Slot): nat
    decreases |text|
  {
    if text == "" then 0 else (if Heads(text, slot) then 1 else 0) + Occurrences(text[1..], slot)
  }

  lemma {:induction false} BracesJoin(left: string, right: string)
    ensures Braces(left + right) == Braces(left) + Braces(right)
    decreases |left|
  {
    if left == "" {
      assert left + right == right;
    } else {
      assert (left + right)[0] == left[0] && (left + right)[1..] == left[1..] + right;
      BracesJoin(left[1..], right);
    }
  }

  lemma {:induction false} BracelessCounts(text: string, rest: string, slot: Slot)
    requires NoBrace(text)
    ensures Braces(text) == 0 && Occurrences(text + rest, slot) == Occurrences(rest, slot)
    decreases |text|
  {
    if text == "" {
      assert text + rest == rest;
    } else {
      assert (text + rest)[0] == text[0] && (text + rest)[1..] == text[1..] + rest;
      assert !Heads(text + rest, slot);
      hide Heads, Pattern;
      BracelessCounts(text[1..], rest, slot);
    }
  }

  lemma {:induction false} OccurrencesLater(text: string, rest: string, slot: Slot)
    ensures Occurrences(text + rest, slot) >= Occurrences(rest, slot)
    decreases |text|
  {
    hide Heads;
    if text == "" {
      assert text + rest == rest;
    } else {
      assert (text + rest)[1..] == text[1..] + rest;
      OccurrencesLater(text[1..], rest, slot);
    }
  }

  lemma AtPattern(at: Slot, rest: string, slot: Slot)
    ensures Occurrences(Pattern(at) + rest, slot) == (if at == slot then 1 else 0) + Occurrences(rest, slot)
    ensures Braces(Pattern(at)) == 1
  {
    hide NoBrace, Occurrences, Braces, Pattern;
    var text := Pattern(at) + rest;
    assert text[1..] == Pattern(at)[1..] + rest;
    BracelessCounts(Pattern(at)[1..], rest, slot);
    OccurrencesStep(text, slot);
    BracesJoin([Pattern(at)[0]], Pattern(at)[1..]);
    assert Pattern(at) == [Pattern(at)[0]] + Pattern(at)[1..];
    assert Braces(['{']) == 1 by { OneBrace(); }
    if at != slot {
      PatternsDiffer(slot, at, rest);
    }
  }

  lemma OneBrace()
    ensures Braces(['{']) == 1
  {
  }

  lemma OccurrencesStep(text: string, slot: Slot)
    requires text != ""
    ensures Occurrences(text, slot) == (if Heads(text, slot) then 1 else 0) + Occurrences(text[1..], slot)
    ensures Braces(text) == (if text[0] == '{' then 1 else 0) + Braces(text[1..])
  {
  }

  lemma HeadedText(text: string, slot: Slot)
    requires Heads(text, slot)
    ensures 0 < |Pattern(slot)| <= |text|
    ensures text == Pattern(slot) + text[|Pattern(slot)|..]
  {
  }

  /** A replacement by a braceless value takes away one brace for each occurrence. */
  lemma {:induction false} ReplaceCounts(text: string, slot: Slot, value: string)
    requires NoBrace(value)
    ensures Braces(Replace(text, slot, value)) + Occurrences(text, slot) == Braces(text)
    decreases |text|
  {
    hide Heads, Braces, Occurrences, NoBrace, Pattern, Replace;
    if text == "" {
      ReplaceNothing(slot, value);
      NothingCounts(slot);
    } else {
      ReplaceStep(text, slot, value);
      if Heads(text, slot) {
        HeadedText(text, slot);
        var rest := text[|Pattern(slot)|..];
        AtPattern(slot, rest, slot);
        BracesJoin(Pattern(slot), rest);
        BracesJoin(value, Replace(rest, slot, value));
        BracelessCounts(value, rest, slot);
        ReplaceCounts(rest, slot, value);
      } else {
        OccurrencesStep(text, slot);
        ReplaceCounts(text[1..], slot, value);
        var after := [text[0]] + Replace(text[1..], slot, value);
        OccurrencesStep(after, slot);
        assert after[1..] == Replace(text[1..], slot, value);
      }
    }
  }

  lemma NothingCounts(slot: Slot)
    ensures Braces("") == 0 && Occurrences("", slot) == 0
  {
  }

  /** A replacement leaves every occurrence of another slot's pattern. */
  lemma {:induction false} OthersSurvive(text: string, slot: Slot, value: string, other: Slot)
    requires other != slot
    ensures Occurrences(Replace(text, slot, value), other) >= Occurrences(text, other)
    decreases |text|
  {
    hide Heads, Occurrences, Pattern, Replace, NoBrace;
    if text == "" {
      NothingCounts(other);
    } else if Heads(text, slot) {
      HeadedText(text, slot);
      var rest := text[|Pattern(slot)|..];
      AtPattern(slot, rest, other);
      ReplaceStep(text, slot, value);
      OthersSurvive(rest, slot, value, other);
      OccurrencesLater(value, Replace(rest, slot, value), other);
    } else if Heads(text, other) {
      HeadedText(text, other);
      var rest := text[|Pattern(other)|..];
      AtPattern(other, rest, other);
      ReplaceAtPattern(other, rest, slot, value);
      AtPattern(other, Replace(rest, slot, value), other);
      OthersSurvive(rest, slot, value, other);
    } else {
      ReplaceStep(text, slot, value);
      OccurrencesStep(text, other);
      OthersSurvive(text[1..], slot, value, other);
      OccurrencesLater([text[0]], Replace(text[1..], slot, value), other);
    }
  }

  // ----------------------------------------------------------------------- necessity

  function HolesOf(tokens: seq<Token>, slot: Slot): nat {
    if tokens == [] then 0 else (if tokens[0] == Hole(slot) then 1 else 0) + HolesOf(tokens[1..], slot)
  }

  /** The holes whose slots are replaced from the `j`-th on. */
  function HolesFrom(tokens: seq<Token>, j: nat): nat {
    if tokens == [] then 0
    else (if tokens[0].Hole? && Rank(tokens[0].slot) >= j then 1 else 0) + HolesFrom(tokens[1..], j)
  }

  function Strays(tokens: seq<Token>): nat {
    if tokens == [] then 0 else (if tokens[0] == Char('{') then 1 else 0) + Strays(tokens[1..])
  }

  lemma {:induction false} HolesNext(tokens: seq<Token>, j: nat)
    requires j < 4
    ensures HolesFrom(tokens, j) == HolesOf(tokens, SOURCE_ORDER[j]) + HolesFrom(tokens, j + 1)
    decreases |tokens|
  {
    if tokens != [] {
      RankIsIndex(j);
      HolesNext(tokens[1..], j);
    }
  }

  lemma {:induction false} NoHolesAtLast(tokens: seq<Token>)
    ensures HolesFrom(tokens, 4) == 0
    decreases |tokens|
  {
    if tokens != [] {
      NoHolesAtLast(tokens[1..]);
    }
  }

  ghost predicate Braceless(values: Values) {
    forall slot :: NoBrace(values(slot))
  }

  lemma {:induction false} RenderBraces(tokens: seq<Token>, values: Values, j: nat)
    requires Braceless(values)
    ensures Braces(Render(tokens, EnvAt(values, j))) == Strays(tokens) + HolesFrom(tokens, j)
    decreases |tokens|
  {
    hide NoBrace, Pattern, Braces;
    if tokens == [] {
      NothingCounts(Input);
    } else {
      RenderBraces(tokens[1..], values, j);
      var env := EnvAt(values, j);
      var rest := Render(tokens[1..], env);
      match tokens[0] {
        case Char(c) =>
          BracesJoin([c], rest);
          OneChar(c);
        case Hole(at) =>
          BracesJoin(env(at), rest);
          AtPattern(at, rest, at);
          BracelessCounts(values(at), rest, at);
      }
    }
  }

  lemma OneChar(c: char)
    ensures Braces([c]) == if c == '{' then 1 else 0
  {
  }

  /** Every hole that still shows its pattern is an occurrence, and a stray brace that starts
      the pattern is one more. */
  lemma {:induction false} HolesOccur(tokens: seq<Token>, env: Values, slot: Slot)
    requires env(slot) == Pattern(slot)
    ensures Occurrences(Render(tokens, env), slot) >= HolesOf(tokens, slot)
    ensures !StraysCalm(tokens, env, slot) ==> Occurrences(Render(tokens, env), slot) > HolesOf(tokens, slot)
    decreases |tokens|
  {
    hide Pattern, Occurrences, StraysCalm, Heads;
    if tokens == [] {
      NothingIsStray(env, slot);
    } else {
      HolesOccur(tokens[1..], env, slot);
      var rest := Render(tokens[1..], env);
      StraysSplit(tokens, env, slot);
      match tokens[0] {
        case Char(c) =>
          assert ([c] + rest)[1..] == rest;
          OccurrencesStep([c] + rest, slot);
        case Hole(at) =>
          if at == slot {
            AtPattern(slot, rest, slot);
          } else {
            OccurrencesLater(env(at), rest, slot);
          }
      }
    }
  }

  lemma NothingIsStray(env: Values, slot: Slot)
    ensures StraysCalm([], env, slot)
  {
  }

  lemma StraysSplit(tokens: seq<Token>, env: Values, slot: Slot)
    requires tokens != []
    ensures StraysCalm(tokens, env, slot) <==>
      StraysCalm(tokens[1..], env, slot) && (tokens[0] == Char('{') ==> !Heads(Render(tokens, env), slot))
  {
    hide Heads, Render;
    assert tokens[0..] == tokens;
    if StraysCalm(tokens, env, slot) {
      StraysCalmRest(tokens, env, slot);
    }
    forall i | 0 < i < |tokens| && tokens[i] == Char('{') ensures tokens[1..][i - 1] == Char('{') {
      assert tokens[1..][i - 1..] == tokens[i..];
    }
    if StraysCalm(tokens[1..], env, slot) {
      forall i | 0 < i < |tokens| && tokens[i] == Char('{') ensures !Heads(Render(tokens[i..], env), slot) {
        assert tokens[1..][i - 1..] == tokens[i..];
      }
    }
  }

  /** Once a text has too few braces for the holes that are left, the result has too few. */
  lemma {:induction false} TooFewBraces(tokens: seq<Token>, text: string, j: nat, values: Values)
    requires j <= 4 && Braceless(values)
    requires forall i :: j <= i < 4 ==> Occurrences(text, SOURCE_ORDER[i]) >= HolesOf(tokens, SOURCE_ORDER[i])
    requires Braces(text) < Strays(tokens) + HolesFrom(tokens, j)
    ensures Braces(From(text, j, values)) < Strays(tokens)
    decreases 4 - j
  {
    hide NoBrace, Occurrences, Braces, Replace, HolesOf, HolesFrom;
    if j == 4 {
      NoHolesAtLast(tokens);
    } else {
      var slot := SOURCE_ORDER[j];
      ReplaceCounts(text, slot, values(slot));
      HolesNext(tokens, j);
      var next := Replace(text, slot, values(slot));
      forall i | j + 1 <= i < 4 ensures Occurrences(next, SOURCE_ORDER[i]) >= HolesOf(tokens, SOURCE_ORDER[i]) {
        RankIsIndex(i);
        RankIsIndex(j);
        OthersSurvive(text, slot, values(slot), SOURCE_ORDER[i]);
      }
      TooFewBraces(tokens, next, j + 1, values);
    }
  }

  /** A stray brace that starts a pattern when its slot is replaced costs a brace for good. */
  lemma {:induction false} StrayCosts(tokens: seq<Token>, values: Values, j: nat, n: nat)
    requires j <= n < 4 && Braceless(values)
    requires !StraysCalm(tokens, EnvAt(values, n), SOURCE_ORDER[n])
    ensures Braces(From(Render(tokens, EnvAt(values, j)), j, values)) < Strays(tokens)
    decreases n - j
  {
    hide StraysCalm, Settled, NoBrace, Pattern, Occurrences, Braces, Replace, Render, HolesOf, HolesFrom;
    var env := EnvAt(values, j);
    var slot := SOURCE_ORDER[j];
    RankIsIndex(j);
    if StraysCalm(tokens, env, slot) {
      BracelessSettles(values, j, slot);
      ReplaceFills(tokens, env, slot, values(slot));
      EnvNext(tokens, values, j);
      StrayCosts(tokens, values, j + 1, n);
    } else {
      StrayCostsNow(tokens, values, j);
    }
  }

  lemma StrayCostsNow(tokens: seq<Token>, values: Values, j: nat)
    requires j < 4 && Braceless(values) && !StraysCalm(tokens, EnvAt(values, j), SOURCE_ORDER[j])
    ensures Braces(From(Render(tokens, EnvAt(values, j)), j, values)) < Strays(tokens)
  {
    hide StraysCalm, NoBrace, Pattern, Occurrences, Braces, Replace, Render, HolesOf, HolesFrom;
    var env := EnvAt(values, j);
    var slot := SOURCE_ORDER[j];
    var text := Render(tokens, env);
    RankIsIndex(j);
    HolesOccur(tokens, env, slot);
    RenderBraces(tokens, values, j);
    ReplaceCounts(text, slot, values(slot));
    HolesNext(tokens, j);
    var next := Replace(text, slot, values(slot));
    forall i | j + 1 <= i < 4 ensures Occurrences(next, SOURCE_ORDER[i]) >= HolesOf(tokens, SOURCE_ORDER[i]) {
      RankIsIndex(i);
      HolesOccur(tokens, env, SOURCE_ORDER[i]);
      OthersSurvive(text, slot, values(slot), SOURCE_ORDER[i]);
    }
    TooFewBraces(tokens, next, j + 1, values);
  }

  lemma BracelessSettles(values: Values, j: nat, slot: Slot)
    requires forall at :: Rank(at) < j ==> NoBrace(values(at))
    ensures Settled(EnvAt(values, j), slot)
  {
    hide NoBrace, Pattern, CalmFor;
    forall at | EnvAt(values, j)(at) != Pattern(at) ensures CalmFor(EnvAt(values, j)(at), slot) {
      NoBraceIsCalm(values(at), slot);
    }
  }

  // ----------------------------------------------------------------------- templates

  predicate Plain(tokens: seq<Token>) {
    forall i :: 0 <= i < |tokens| ==> tokens[i].Char?
  }

  /** A stray brace and the plain text after it are the beginning of a slot's pattern, cut
      off by the hole of a slot that is replaced before it. */
  ghost predicate JoinsAt(tokens: seq<Token>, i: nat, h: nat, slot: Slot) {
    && i < h < |tokens| && tokens[i] == Char('{') && Plain(tokens[i..h])
    && tokens[h].Hole? && Rank(tokens[h].slot) < Rank(slot)
    && var begun := Render(tokens[i..h], Pattern);
       begun <= Pattern(slot) && |begun| < |Pattern(slot)|
  }

  ghost predicate CanJoin(template: string) {
    exists i: nat, h: nat, slot :: JoinsAt(Tokens(template), i, h, slot)
  }

  lemma {:induction false} RenderJoin(left: seq<Token>, right: seq<Token>, env: Values)
    ensures Render(left + right, env) == Render(left, env) + Render(right, env)
    decreases |left|
  {
    if left == [] {
      assert left + right == right;
    } else {
      assert (left + right)[0] == left[0] && (left + right)[1..] == left[1..] + right;
      RenderJoin(left[1..], right, env);
    }
  }

  lemma {:induction false} PlainRender(tokens: seq<Token>, env: Values)
    requires Plain(tokens)
    ensures Render(tokens, env) == Render(tokens, Pattern) && |Render(tokens, env)| == |tokens|
    decreases |tokens|
  {
    hide Pattern;
    if tokens != [] {
      PlainRender(tokens[1..], env);
    }
  }

  /** What follows a stray brace in a rendering. */
  lemma RenderFrom(tokens: seq<Token>, i: nat, h: nat, env: Values)
    requires i <= h <= |tokens| && Plain(tokens[i..h])
    ensures Render(tokens[i..], env) == Render(tokens[i..h], Pattern) + Render(tokens[h..], env)
    ensures |Render(tokens[i..h], Pattern)| == h - i
  {
    hide Render, Pattern;
    assert tokens[i..] == tokens[i..h] + tokens[h..];
    RenderJoin(tokens[i..h], tokens[h..], env);
    PlainRender(tokens[i..h], env);
  }

  lemma PlainNext(tokens: seq<Token>, i: nat, h: nat)
    requires i <= h < |tokens| && Plain(tokens[i..h]) && tokens[h].Char?
    ensures Plain(tokens[i..h + 1])
    ensures Render(tokens[i..h + 1], Pattern) == Render(tokens[i..h], Pattern) + [tokens[h].c]
  {
    hide Pattern;
    var one := [tokens[h]];
    assert tokens[i..h + 1] == tokens[i..h] + one;
    RenderJoin(tokens[i..h], one, Pattern);
    assert one[1..] == [];
    assert Render(one, Pattern) == [tokens[h].c] + Render(one[1..], Pattern);
  }

  lemma PatternEnd(slot: Slot, n: nat)
    requires 0 < n < |Pattern(slot)|
    ensures Pattern(slot)[n] != '{'
  {
    assert NoBrace(Pattern(slot)[1..]);
    assert Pattern(slot)[n] == Pattern(slot)[1..][n - 1];
  }

  /** A stray brace and plain text after it that begin a slot's pattern. */
  ghost predicate Begins(tokens: seq<Token>, i: nat, h: nat, slot: Slot) {
    && i < h <= |tokens| && tokens[i] == Char('{') && Plain(tokens[i..h])
    && Render(tokens[i..h], Pattern) <= Pattern(slot) && h - i < |Pattern(slot)|
  }

  /** The next character goes on with the pattern, or the pattern is not there. */
  lemma PlainGoesOn(tokens: seq<Token>, env: Values, slot: Slot, i: nat, h: nat)
    requires Begins(tokens, i, h, slot) && h < |tokens| && tokens[h].Char?
    requires !Heads(Render(tokens[i..], Pattern), slot)
    ensures Begins(tokens, i, h + 1, slot) || !Heads(Render(tokens[i..], env), slot)
  {
    var begun := Render(tokens[i..h], Pattern);
    var c := tokens[h].c;
    RenderFrom(tokens, i, h, env);
    PlainNext(tokens, i, h);
    assert Render(tokens[h..], env)[0] == c;
    hide Render, Pattern, Heads;
    if c != Pattern(slot)[|begun|] {
      HeadsAt(begun, Render(tokens[h..], env), slot);
    } else {
      PrefixNext(begun, Pattern(slot));
      if |begun| + 1 == |Pattern(slot)| {
        RenderFrom(tokens, i, h + 1, Pattern);
        WholeHeads(slot, Render(tokens[h + 1..], Pattern));
      }
    }
  }

  lemma HeadsAt(begun: string, rest: string, slot: Slot)
    requires |begun| < |Pattern(slot)|
    ensures Heads(begun + rest, slot) ==> rest != "" && rest[0] == Pattern(slot)[|begun|]
  {
  }

  /** A hole ends the pattern, unless its slot has been replaced. */
  lemma HoleEnds(tokens: seq<Token>, env: Values, slot: Slot, i: nat, h: nat)
    requires Begins(tokens, i, h, slot) && h < |tokens| && tokens[h].Hole?
    requires env(tokens[h].slot) == Pattern(tokens[h].slot) || Rank(tokens[h].slot) < Rank(slot)
    requires !JoinsAt(tokens, i, h, slot)
    ensures !Heads(Render(tokens[i..], env), slot)
  {
    RenderFrom(tokens, i, h, env);
    var at := tokens[h].slot;
    assert env(at) == Pattern(at);
    assert Render(tokens[h..], env)[0] == '{';
    PatternEnd(slot, h - i);
    HeadsAt(Render(tokens[i..h], Pattern), Render(tokens[h..], env), slot);
  }

  /** A stray brace that starts no placeholder of the template starts none of a rendering,
      unless it is joined. */
  lemma {:induction false} ScanStray(tokens: seq<Token>, env: Values, slot: Slot, i: nat, h: nat)
    requires Begins(tokens, i, h, slot)
    requires !Heads(Render(tokens[i..], Pattern), slot)
    requires forall at :: env(at) == Pattern(at) || Rank(at) < Rank(slot)
    requires forall n: nat :: !JoinsAt(tokens, i, n, slot)
    ensures !Heads(Render(tokens[i..], env), slot)
    decreases |tokens| - h
  {
    hide Heads, Render, Pattern, JoinsAt;
    if h == |tokens| {
      StrayEnds(tokens, env, slot, i);
    } else if tokens[h].Hole? {
      HoleEnds(tokens, env, slot, i, h);
    } else {
      PlainGoesOn(tokens, env, slot, i, h);
      hide Begins;
      if Begins(tokens, i, h + 1, slot) {
        ScanStray(tokens, env, slot, i, h + 1);
      }
    }
  }

  lemma StrayEnds(tokens: seq<Token>, env: Values, slot: Slot, i: nat)
    requires Begins(tokens, i, |tokens|, slot)
    ensures !Heads(Render(tokens[i..], env), slot)
  {
    RenderFrom(tokens, i, |tokens|, env);
    assert tokens[|tokens|..] == [];
  }

  lemma PrefixNext(begun: string, whole: string)
    requires begun <= whole && |begun| < |whole|
    ensures begun + [whole[|begun|]] <= whole
    ensures |begun| + 1 == |whole| ==> begun + [whole[|begun|]] == whole
  {
  }

  lemma WholeHeads(slot: Slot, rest: string)
    ensures Heads(Pattern(slot) + rest, slot)
  {
  }

  /** No stray brace of a template starts a placeholder there. */
  lemma {:induction false} TokensCalm(text: string, slot: Slot)
    ensures StraysCalm(Tokens(text), Pattern, slot)
    decreases |text|
  {
    hide Pattern, StraysCalm, Render;
    if at :| Heads(text, at) {
      TokensOfHole(text, at);
      var rest := Tokens(text[|Pattern(at)|..]);
      TokensCalm(text[|Pattern(at)|..], slot);
      StraysSplit(Tokens(text), Pattern, slot);
      assert Tokens(text)[1..] == rest;
    } else if text == "" {
      NothingIsStray(Pattern, slot);
    } else {
      TokensCalm(text[1..], slot);
      StraysSplit(Tokens(text), Pattern, slot);
      TokensRender(text);
      assert Tokens(text)[1..] == Tokens(text[1..]);
    }
  }

  lemma NoJoinIsCalm(template: string, values: Values, slot: Slot)
    requires !CanJoin(template)
    ensures StraysCalm(Tokens(template), EnvAt(values, Rank(slot)), slot)
  {
    var tokens := Tokens(template);
    var env := EnvAt(values, Rank(slot));
    TokensCalm(template, slot);
    forall i | 0 <= i < |tokens| && tokens[i] == Char('{') ensures !Heads(Render(tokens[i..], env), slot) {
      hide Tokens;
      var one := [tokens[i]];
      assert tokens[i..i + 1] == one && one[1..] == [];
      assert Render(one, Pattern) == ['{'] + Render(one[1..], Pattern) == ['{'];
      ScanStray(tokens, env, slot, i, i + 1);
    }
  }

  /** The value that completes what a stray brace has begun. */
  lemma JoinHeads(tokens: seq<Token>, env: Values, i: nat, h: nat, slot: Slot)
    requires JoinsAt(tokens, i, h, slot)
    requires env(tokens[h].slot) == Pattern(slot)[|Render(tokens[i..h], Pattern)|..]
    ensures !StraysCalm(tokens, env, slot)
  {
    var begun := Render(tokens[i..h], Pattern);
    var value := env(tokens[h].slot);
    RenderFrom(tokens, i, h, env);
    var rest := RenderHole(tokens[h..], env);
    hide Pattern, Render, Heads, Plain;
    Completes(begun, value, Pattern(slot), rest);
    WholeHeads(slot, rest);
  }

  lemma RenderHole(tokens: seq<Token>, env: Values) returns (rest: string)
    requires tokens != [] && tokens[0].Hole?
    ensures Render(tokens, env) == env(tokens[0].slot) + rest
  {
    rest := Render(tokens[1..], env);
  }

  lemma Completes(begun: string, value: string, whole: string, rest: string)
    requires begun <= whole && value == whole[|begun|..]
    ensures begun + (value + rest) == whole + rest
  {
    assert begun + value == whole;
  }

  ghost predicate FirstThreeBraceless(values: Values) {
    NoBrace(values(Input)) && NoBrace(values(Output)) && NoBrace(values(Frame))
  }

  lemma SafeIfNoJoin(template: string, values: Values)
    requires !CanJoin(template) && FirstThreeBraceless(values)
    ensures ExpandArgument(template, values) == Substitute(template, values)
  {
    hide CanJoin, StraysCalm, Settled, NoBrace, Tokens, Pattern;
    forall j | 0 <= j < 4
      ensures StraysCalm(Tokens(template), EnvAt(values, j), SOURCE_ORDER[j])
      ensures Settled(EnvAt(values, j), SOURCE_ORDER[j])
    {
      RankIsIndex(j);
      NoJoinIsCalm(template, values, SOURCE_ORDER[j]);
      forall at | Rank(at) < j ensures NoBrace(values(at)) {
        assert SOURCE_ORDER[Rank(at)] == at;
      }
      BracelessSettles(values, j, SOURCE_ORDER[j]);
    }
    CalmIsSimultaneous(template, values);
  }

  lemma SubstituteBraces(template: string, values: Values)
    requires Braceless(values)
    ensures Braces(Substitute(template, values)) == Strays(Tokens(template))
  {
    hide Render, Pattern, Braces, Tokens, NoBrace;
    var tokens := Tokens(template);
    RenderBraces(tokens, values, 4);
    NoHolesAtLast(tokens);
    RenderAgrees(tokens, EnvAt(values, 4), values);
  }

  /** The values that make a stray brace join. */
  lemma UnsafeIfJoins(template: string) returns (values: Values)
    requires CanJoin(template)
    ensures Braceless(values) && ExpandArgument(template, values) != Substitute(template, values)
  {
    hide Tokens, Render, Pattern, Braces, NoBrace, StraysCalm;
    var tokens := Tokens(template);
    var i: nat, h: nat, slot :| JoinsAt(tokens, i, h, slot);
    var rest := Pattern(slot)[|Render(tokens[i..h], Pattern)|..];
    var at := tokens[h].slot;
    values := other => if other == at then rest else "";
    var n := Rank(slot);
    forall other ensures NoBrace(values(other)) {
      NothingIsBraceless();
      RenderFrom(tokens, i, h, values);
      PatternRest(slot, h - i);
    }
    JoinHeads(tokens, EnvAt(values, n), i, h, slot);
    StrayCosts(tokens, values, 0, n);
    TokensRender(template);
    forall other ensures EnvAt(values, 0)(other) == Pattern(other) {
      assert !(Rank(other) < 0);
    }
    RenderAgrees(tokens, EnvAt(values, 0), Pattern);
    FromIsExpansion(template, values);
    SubstituteBraces(template, values);
  }

  lemma NothingIsBraceless()
    ensures NoBrace("")
  {
  }

  lemma PatternRest(slot: Slot, n: nat)
    requires 0 < n <= |Pattern(slot)|
    ensures NoBrace(Pattern(slot)[n..])
  {
    forall i | 0 <= i < |Pattern(slot)[n..]| ensures Pattern(slot)[n..][i] != '{' {
      PatternEnd(slot, n + i);
    }
  }

  /** Exactly the templates that are expanded as one simultaneous substitution, whatever
      braceless values they are given, and whatever the run directory. */
  lemma TemplateIsSafe(template: string)
    ensures (forall values: Values :: FirstThreeBraceless(values) ==>
               ExpandArgument(template, values) == Substitute(template, values))
      <==> !CanJoin(template)
  {
    hide ExpandArgument, Substitute, CanJoin, NoBrace;
    if CanJoin(template) {
      var values := UnsafeIfJoins(template);
      assert FirstThreeBraceless(values);
    } else {
      forall values: Values | FirstThreeBraceless(values)
        ensures ExpandArgument(template, values) == Substitute(template, values)
      {
        SafeIfNoJoin(template, values);
      }
    }
  }

  // -------------------------------------------------------------------------- values

  /** No part of a value from a brace on begins the pattern of a slot replaced later, or is
      its beginning. */
  ghost predicate ValueIsCalm(slot: Slot, value: string) {
    forall later :: Rank(slot) < Rank(later) ==> CalmFor(value, later)
  }

  ghost predicate OthersBraceless(slot: Slot, values: Values) {
    forall other :: other != slot && other != RunDir ==> NoBrace(values(other))
  }

  lemma SafeIfCalm(template: string, slot: Slot, values: Values)
    requires Closed(template) && OthersBraceless(slot, values) && ValueIsCalm(slot, values(slot))
    ensures ExpandArgument(template, values) == Substitute(template, values)
  {
    hide NoBrace, Tokens, Pattern, CalmFor, Closed, Render;
    TokensRender(template);
    forall j | 0 <= j < 4
      ensures StraysCalm(Tokens(template), EnvAt(values, j), SOURCE_ORDER[j])
      ensures Settled(EnvAt(values, j), SOURCE_ORDER[j])
    {
      RankIsIndex(j);
      forall at | Rank(at) < j ensures CalmFor(values(at), SOURCE_ORDER[j]) {
        if at != slot {
          NoBraceIsCalm(values(at), SOURCE_ORDER[j]);
        }
      }
    }
    hide StraysCalm, Settled;
    CalmIsSimultaneous(template, values);
  }

  lemma {:induction false} BracelessTokens(text: string, values: Values)
    requires NoBrace(text)
    ensures Render(Tokens(text), values) == text
    decreases |text|
  {
    if text != "" {
      assert forall slot :: !Heads(text, slot);
      hide Pattern;
      BracelessTokens(text[1..], values);
    }
  }

  /** Replacements before the slot's own pass over its pattern. */
  lemma {:induction false} ReachesValue(slot: Slot, rest: string, values: Values, j: nat)
    requires j <= Rank(slot) && NoBrace(rest)
    ensures From(Pattern(slot) + rest, j, values) == From(values(slot) + rest, Rank(slot) + 1, values)
    decreases Rank(slot) - j
  {
    hide Pattern, Replace, NoBrace;
    var at := SOURCE_ORDER[j];
    RankIsIndex(j);
    ReplaceAtPattern(slot, rest, at, values(at));
    NoBraceIsCalm(rest, at);
    ReplaceSkips(rest, "", at, values(at));
    ReplaceNothing(at, values(at));
    assert rest + "" == rest;
    if j < Rank(slot) {
      ReachesValue(slot, rest, values, j + 1);
    }
  }

  /** An occurrence of a pattern that is still to be replaced costs a brace. */
  lemma {:induction false} OccurrenceCosts(text: string, j: nat, n: nat, values: Values)
    requires j <= 4 && forall i :: j <= i < 4 ==> NoBrace(values(SOURCE_ORDER[i]))
    ensures Braces(From(text, j, values)) <= Braces(text)
    ensures j <= n < 4 && Occurrences(text, SOURCE_ORDER[n]) > 0 ==> Braces(From(text, j, values)) < Braces(text)
    decreases 4 - j
  {
    hide NoBrace, Occurrences, Braces, Replace;
    if j < 4 {
      var slot := SOURCE_ORDER[j];
      ReplaceCounts(text, slot, values(slot));
      if j < n < 4 {
        RankIsIndex(j);
        RankIsIndex(n);
        OthersSurvive(text, slot, values(slot), SOURCE_ORDER[n]);
      }
      OccurrenceCosts(Replace(text, slot, values(slot)), j + 1, n, values);
    }
  }

  lemma OccursAt(text: string, i: nat, slot: Slot)
    requires i < |text| && Heads(text[i..], slot)
    ensures Occurrences(text, slot) > 0
  {
    hide Heads, Occurrences;
    OccurrencesStep(text[i..], slot);
    OccurrencesLater(text[..i], text[i..], slot);
    assert text == text[..i] + text[i..];
  }

  /** What has to follow a value so that it completes a pattern. */
  lemma Completed(value: string, i: nat, later: Slot) returns (rest: string)
    requires i < |value| && Comparable(value[i..], Pattern(later))
    ensures NoBrace(rest) && Heads((value + rest)[i..], later)
  {
    var from := value[i..];
    if Pattern(later) <= from {
      rest := "";
      assert value + rest == value;
    } else {
      rest := Pattern(later)[|from|..];
      PatternRest(later, |from|);
      assert (value + rest)[i..] == from + rest == Pattern(later);
    }
  }

  /** A template, and values for the other slots, with which a value is expanded again. */
  lemma UnsafeIfNotCalm(slot: Slot, value: string) returns (template: string, values: Values)
    requires !ValueIsCalm(slot, value)
    ensures Closed(template) && values(slot) == value && OthersBraceless(slot, values)
    ensures ExpandArgument(template, values) != Substitute(template, values)
  {
    hide NoBrace, Heads, Braces, Occurrences, Pattern, Tokens, Render, Comparable, Closed;
    var later :| Rank(slot) < Rank(later) && !CalmFor(value, later);
    var i :| 0 <= i < |value| && value[i] == '{' && Comparable(value[i..], Pattern(later));
    var rest := Completed(value, i, later);
    template := Pattern(slot) + rest;
    values := other => if other == slot then value else "";
    NothingIsBraceless();
    OneHole(slot, rest, values);
    ReachesValue(slot, rest, values, 0);
    FromIsExpansion(template, values);
    OccursAt(value + rest, i, later);
    forall n | Rank(slot) + 1 <= n < 4 ensures NoBrace(values(SOURCE_ORDER[n])) {
      RankIsIndex(n);
    }
    OccurrenceCosts(value + rest, Rank(slot) + 1, Rank(later), values);
  }

  lemma OneHole(slot: Slot, rest: string, values: Values)
    requires NoBrace(rest)
    ensures var template := Pattern(slot) + rest;
      Closed(template) && Substitute(template, values) == values(slot) + rest
  {
    var template := Pattern(slot) + rest;
    WholeHeads(slot, rest);
    TokensOfHole(template, slot);
    assert template[|Pattern(slot)|..] == rest;
    BracelessTokens(rest, values);
    assert ([Hole(slot)] + Tokens(rest))[1..] == Tokens(rest);
    forall i | 0 <= i < |template| && template[i] == '{' ensures exists at :: Heads(template[i..], at) {
      hide Tokens, Render;
      if 0 < i < |Pattern(slot)| {
        PatternEnd(slot, i);
      }
      assert template[0..] == template;
    }
  }

  /** Exactly the values of a slot with which every template whose braces all start
      placeholders is expanded as one simultaneous substitution. */
  lemma ValueIsSafe(slot: Slot, value: string)
    ensures (forall template, values: Values ::
               Closed(template) && values(slot) == value && OthersBraceless(slot, values) ==>
                 ExpandArgument(template, values) == Substitute(template, values))
      <==> ValueIsCalm(slot, value)
  {
    hide ExpandArgument, Substitute, ValueIsCalm, OthersBraceless, Closed;
    if ValueIsCalm(slot, value) {
      forall template, values: Values | Closed(template) && values(slot) == value && OthersBraceless(slot, values)
        ensures ExpandArgument(template, values) == Substitute(template, values)
      {
        SafeIfCalm(template, slot, values);
      }
    } else {
      var template, values := UnsafeIfNotCalm(slot, value);
    }
  }
}
