/** Argument templates of src/pipeline.rs: four textual replacements in a row, against one
    simultaneous substitution. */
module Placeholders {
  import opened Distinctness

  datatype Slot = Input | Output | Frame | RunDir

  function Pattern(slot: Slot): (r: string)
    ensures |r| >= 2 && r[0] == '{' && NoBrace(r[1..])
  {
    match slot
    case Input => "{input}"
    case Output => "{output}"
    case Frame => "{frame}"
    case RunDir => "{run_dir}"
  }

  predicate NoBrace(text: string) {
    forall i :: 0 <= i < |text| ==> text[i] != '{'
  }

  /** `str::replace`: every occurrence, from the left, without looking again at what was
      put in. */
  function Replace(text: string, slot: Slot, value: string): string
    decreases |text|
  {
    if Pattern(slot) <= text then value + Replace(text[|Pattern(slot)|..], slot, value)
    else if text == "" then ""
    else [text[0]] + Replace(text[1..], slot, value)
  }

  /** The values, one for each slot. */
  type Values = Slot -> string

  function ReplaceInOrder(text: string, order: seq<Slot>, values: Values): string
    decreases |order|
  {
    if order == [] then text
    else ReplaceInOrder(Replace(text, order[0], values(order[0])), order[1..], values)
  }

  const SOURCE_ORDER: seq<Slot> := [Input, Output, Frame, RunDir]

  /** `expand_argument`. */
  function ExpandArgument(template: string, values: Values): string {
    Replace(Replace(Replace(Replace(template,
                                    Input, values(Input)),
                            Output, values(Output)),
                    Frame, values(Frame)),
            RunDir, values(RunDir))
  }

  // ------------------------------------------------------------ what templates mean

  datatype Token = Char(c: char) | Hole(slot: Slot)

  /** The slot whose pattern stands at the head of a text. */
  predicate Heads(text: string, slot: Slot) {
    Pattern(slot) <= text
  }

  function Tokens(text: string): seq<Token>
    decreases |text|
  {
    if Heads(text, Input) then [Hole(Input)] + Tokens(text[|Pattern(Input)|..])
    else if Heads(text, Output) then [Hole(Output)] + Tokens(text[|Pattern(Output)|..])
    else if Heads(text, Frame) then [Hole(Frame)] + Tokens(text[|Pattern(Frame)|..])
    else if Heads(text, RunDir) then [Hole(RunDir)] + Tokens(text[|Pattern(RunDir)|..])
    else if text == "" then []
    else [Char(text[0])] + Tokens(text[1..])
  }

  function Render(tokens: seq<Token>, values: Values): string {
    if tokens == [] then ""
    else (match tokens[0] case Char(c) => [c] case Hole(slot) => values(slot)) + Render(tokens[1..], values)
  }

  /** The simultaneous substitution. */
  function Substitute(template: string, values: Values): string {
    Render(Tokens(template), values)
  }

  /** Every opening brace starts a placeholder. */
  ghost predicate Closed(template: string) {
    forall i :: 0 <= i < |template| && template[i] == '{' ==> exists slot :: Heads(template[i..], slot)
  }

  predicate Clean(tokens: seq<Token>) {
    forall i :: 0 <= i < |tokens| && tokens[i].Char? ==> tokens[i].c != '{'
  }

  lemma PatternsDiffer(a: Slot, b: Slot, rest: string)
    requires a != b
    ensures !Heads(Pattern(b) + rest, a)
  {
    assert Pattern(a)[1] != Pattern(b)[1] == (Pattern(b) + rest)[1];
  }

  /** A text is the rendering of its own tokens. */
  lemma {:induction false} TokensRender(text: string)
    ensures Render(Tokens(text), Pattern) == text
    ensures Closed(text) ==> Clean(Tokens(text))
    decreases |text|
  {
    hide Pattern;
    if slot :| Heads(text, slot) {
      TokensOfHole(text, slot);
      TokensRender(text[|Pattern(slot)|..]);
      ClosedRest(text, |Pattern(slot)|);
    } else if text != "" {
      TokensRender(text[1..]);
      ClosedRest(text, 1);
      assert text[0..] == text;
    }
  }

  lemma TokensOfHole(text: string, slot: Slot)
    requires Heads(text, slot)
    ensures Tokens(text) == [Hole(slot)] + Tokens(text[|Pattern(slot)|..])
    ensures text == Pattern(slot) + text[|Pattern(slot)|..]
  {
    hide Closed, Clean;
    assert text == Pattern(slot) + text[|Pattern(slot)|..];
    forall other: Slot | other != slot ensures !Heads(text, other) {
      PatternsDiffer(other, slot, text[|Pattern(slot)|..]);
    }
  }

  lemma ClosedRest(text: string, n: nat)
    requires n <= |text|
    ensures Closed(text) ==> Closed(text[n..])
  {
    hide Heads;
    if Closed(text) {
      forall i | 0 <= i < |text[n..]| && text[n..][i] == '{' ensures exists slot :: Heads(text[n..][i..], slot) {
        assert text[n..][i..] == text[n + i..];
      }
    }
  }

  // ------------------------------------------------------------------- replacements

  /** One text continues the other. */
  predicate Comparable(a: string, b: string) {
    a <= b || b <= a
  }

  /** No brace in the text starts the slot's pattern, whatever follows. */
  predicate CalmFor(text: string, slot: Slot) {
    forall i :: 0 <= i < |text| && text[i] == '{' ==> !Comparable(text[i..], Pattern(slot))
  }

  lemma CalmRest(text: string, slot: Slot)
    requires text != "" && CalmFor(text, slot)
    ensures CalmFor(text[1..], slot)
  {
    hide Comparable, Pattern;
    forall i | 0 <= i < |text[1..]| && text[1..][i] == '{' ensures !Comparable(text[1..][i..], Pattern(slot)) {
      assert text[1..][i..] == text[i + 1..];
    }
  }

  lemma CalmNeverHeads(text: string, rest: string, slot: Slot)
    requires text != "" && CalmFor(text, slot)
    ensures !Heads(text + rest, slot)
  {
    assert text[0..] == text;
  }

  /** Calm text is passed over. */
  lemma {:induction false} ReplaceSkips(text: string, rest: string, slot: Slot, value: string)
    requires CalmFor(text, slot)
    ensures Replace(text + rest, slot, value) == text + Replace(rest, slot, value)
    decreases |text|
  {
    hide Pattern, CalmFor, Heads, Replace;
    if text == "" {
      assert text + rest == rest;
    } else {
      assert (text + rest)[0] == text[0] && (text + rest)[1..] == text[1..] + rest;
      CalmRest(text, slot);
      CalmNeverHeads(text, rest, slot);
      ReplaceStep(text + rest, slot, value);
      ReplaceSkips(text[1..], rest, slot, value);
      assert [text[0]] + (text[1..] + Replace(rest, slot, value)) == text + Replace(rest, slot, value);
    }
  }

  lemma NoBraceIsCalm(text: string, slot: Slot)
    requires NoBrace(text)
    ensures CalmFor(text, slot)
  {
  }

  lemma ReplaceStep(text: string, slot: Slot, value: string)
    requires text != ""
    ensures Replace(text, slot, value) ==
      if Heads(text, slot) then value + Replace(text[|Pattern(slot)|..], slot, value)
      else [text[0]] + Replace(text[1..], slot, value)
  {
  }

  /** The slot's own pattern is replaced, another's is passed over. */
  lemma ReplaceAtPattern(at: Slot, rest: string, slot: Slot, value: string)
    ensures Replace(Pattern(at) + rest, slot, value)
      == (if at == slot then value else Pattern(at)) + Replace(rest, slot, value)
  {
    hide Replace, Pattern, NoBrace;
    var text := Pattern(at) + rest;
    ReplaceStep(text, slot, value);
    if at == slot {
      assert text[|Pattern(slot)|..] == rest;
    } else {
      PatternsDiffer(slot, at, rest);
      assert text[0] == '{' && text[1..] == Pattern(at)[1..] + rest;
      NoBraceIsCalm(Pattern(at)[1..], slot);
      ReplaceSkips(Pattern(at)[1..], rest, slot, value);
      assert Pattern(at) == ['{'] + Pattern(at)[1..];
    }
  }

  /** What stands for a hole while replacements are under way: its pattern still, or a
      value that does not start the pattern of the slot. */
  ghost predicate Settled(values: Values, slot: Slot) {
    forall at :: values(at) == Pattern(at) || CalmFor(values(at), slot)
  }

  /** No stray brace starts the slot's pattern in the rendering. */
  ghost predicate StraysCalm(tokens: seq<Token>, values: Values, slot: Slot) {
    forall i :: 0 <= i < |tokens| && tokens[i] == Char('{') ==> !Heads(Render(tokens[i..], values), slot)
  }

  lemma StraysCalmRest(tokens: seq<Token>, values: Values, slot: Slot)
    requires tokens != [] && StraysCalm(tokens, values, slot)
    ensures StraysCalm(tokens[1..], values, slot)
  {
    hide Heads, Render;
    forall i | 0 <= i < |tokens[1..]| && tokens[1..][i] == Char('{')
      ensures !Heads(Render(tokens[1..][i..], values), slot)
    {
      assert tokens[1..][i..] == tokens[i + 1..];
    }
  }

  function With(values: Values, slot: Slot, value: string): Values {
    other => if other == slot then value else values(other)
  }

  /** One textual replacement fills one slot of the rendering, and nothing else, where no
      stray brace and no value starts the slot's pattern. */
  lemma {:induction false} ReplaceFills(tokens: seq<Token>, values: Values, slot: Slot, value: string)
    requires StraysCalm(tokens, values, slot) && Settled(values, slot) && values(slot) == Pattern(slot)
    ensures Replace(Render(tokens, values), slot, value) == Render(tokens, With(values, slot, value))
    decreases |tokens|
  {
    hide Pattern, CalmFor, Replace, StraysCalm;
    if tokens == [] {
      ReplaceNothing(slot, value);
    } else {
      var rest := Render(tokens[1..], values);
      StraysCalmRest(tokens, values, slot);
      ReplaceFills(tokens[1..], values, slot, value);
      match tokens[0] {
        case Char(c) =>
          StrayIsPassed(tokens, values, slot, value);
        case Hole(at) =>
          if values(at) == Pattern(at) {
            ReplaceAtPattern(at, rest, slot, value);
          } else {
            ReplaceSkips(values(at), rest, slot, value);
          }
      }
    }
  }

  lemma StrayIsPassed(tokens: seq<Token>, values: Values, slot: Slot, value: string)
    requires tokens != [] && tokens[0].Char? && StraysCalm(tokens, values, slot)
    ensures Replace(Render(tokens, values), slot, value)
      == [tokens[0].c] + Replace(Render(tokens[1..], values), slot, value)
  {
    var text := Render(tokens, values);
    var rest := Render(tokens[1..], values);
    assert text[0] == tokens[0].c && text[1..] == rest;
    assert !Heads(text, slot) by {
      if tokens[0].c == '{' {
        assert tokens[0..] == tokens;
      } else {
        assert text[0] != Pattern(slot)[0];
      }
    }
    hide Render, Heads, Pattern;
    ReplaceStep(text, slot, value);
  }

  function Filled(before: Values, order: seq<Slot>, values: Values): Values {
    slot => if slot in order then values(slot) else before(slot)
  }

  lemma {:induction false} RenderAgrees(tokens: seq<Token>, left: Values, right: Values)
    requires forall slot :: left(slot) == right(slot)
    ensures Render(tokens, left) == Render(tokens, right)
    decreases |tokens|
  {
    if tokens != [] {
      RenderAgrees(tokens[1..], left, right);
    }
  }

  /** Replacements in any order fill their slots at once, provided no value but the last
      brings in an opening brace. */
  lemma {:induction false} OrderFills(tokens: seq<Token>, before: Values, order: seq<Slot>, values: Values)
    requires Clean(tokens) && Distinct(order)
    requires forall slot :: before(slot) == Pattern(slot) || NoBrace(before(slot))
    requires forall i :: 0 <= i < |order| ==> before(order[i]) == Pattern(order[i])
    requires forall i :: 0 <= i < |order| - 1 ==> NoBrace(values(order[i]))
    ensures ReplaceInOrder(Render(tokens, before), order, values) == Render(tokens, Filled(before, order, values))
    decreases |order|
  {
    hide Pattern, NoBrace, Clean, Render;
    if order == [] {
      RenderAgrees(tokens, before, Filled(before, order, values));
    } else {
      var first, rest := order[0], order[1..];
      var next := With(before, first, values(first));
      CleanIsCalm(tokens, before, first);
      ReplaceFills(tokens, before, first, values(first));
      if rest == [] {
        RenderAgrees(tokens, next, Filled(before, order, values));
      } else {
        OrderFills(tokens, next, rest, values);
        RenderAgrees(tokens, Filled(next, rest, values), Filled(before, order, values));
      }
    }
  }

  lemma CleanIsCalm(tokens: seq<Token>, values: Values, slot: Slot)
    requires Clean(tokens) && forall at :: values(at) == Pattern(at) || NoBrace(values(at))
    ensures StraysCalm(tokens, values, slot) && Settled(values, slot)
  {
    hide Pattern, Render, CalmFor, NoBrace;
    forall at | values(at) != Pattern(at) ensures CalmFor(values(at), slot) {
      NoBraceIsCalm(values(at), slot);
    }
  }

  // -------------------------------------------------------------------------- facts

  /** Sequential expansion is simultaneous substitution, when every opening brace of the
      template starts a placeholder and the first three values bring in none. The run
      directory, replaced last, may be anything. */
  lemma ExpansionIsSimultaneous(template: string, values: Values)
    requires Closed(template)
    requires NoBrace(values(Input)) && NoBrace(values(Output)) && NoBrace(values(Frame))
    ensures ExpandArgument(template, values) == Substitute(template, values)
  {
    hide Pattern, NoBrace, Closed, Clean, Render, Tokens;
    TokensRender(template);
    OrderFills(Tokens(template), Pattern, SOURCE_ORDER, values);
    AllFour(SOURCE_ORDER);
    RenderAgrees(Tokens(template), Filled(Pattern, SOURCE_ORDER, values), values);
    InSourceOrder(template, values);
  }

  lemma InSourceOrder(template: string, values: Values)
    ensures ReplaceInOrder(template, SOURCE_ORDER, values) == ExpandArgument(template, values)
  {
    hide Replace;
    var rest: seq<Slot> := [Output, Frame, RunDir];
    var last: seq<Slot> := [Frame, RunDir];
    assert SOURCE_ORDER[1..] == rest && rest[1..] == last && last[1..] == [RunDir];
    var one := Replace(template, Input, values(Input));
    var two := Replace(one, Output, values(Output));
    var three := Replace(two, Frame, values(Frame));
    assert ReplaceInOrder(three, [RunDir], values) == Replace(three, RunDir, values(RunDir));
    assert ReplaceInOrder(two, last, values) == ReplaceInOrder(three, [RunDir], values);
    assert ReplaceInOrder(one, rest, values) == ReplaceInOrder(two, last, values);
  }

  /** On such templates the order of replacements is immaterial. */
  lemma OrderIsImmaterial(template: string, order: seq<Slot>, values: Values)
    requires Closed(template) && Distinct(order) && |order| == 4
    requires forall slot :: NoBrace(values(slot))
    ensures ReplaceInOrder(template, order, values) == ExpandArgument(template, values)
  {
    hide Pattern, NoBrace, Closed, Clean, Render, Tokens;
    TokensRender(template);
    OrderFills(Tokens(template), Pattern, order, values);
    AllFour(order);
    RenderAgrees(Tokens(template), Filled(Pattern, order, values), values);
    ExpansionIsSimultaneous(template, values);
  }

  lemma AllFour(order: seq<Slot>)
    requires Distinct(order) && |order| == 4
    ensures forall slot: Slot :: slot in order
  {
    var a, b, c, d := order[0], order[1], order[2], order[3];
    assert a != b && a != c && a != d && b != c && b != d && c != d;
    assert a in order && b in order && c in order && d in order;
    forall slot: Slot ensures slot in order {
      assert slot == a || slot == b || slot == c || slot == d;
    }
  }

  /** No placeholder is left over for a program to see. */
  lemma NothingIsLeft(template: string, values: Values)
    requires Closed(template) && forall slot :: NoBrace(values(slot))
    ensures NoBrace(ExpandArgument(template, values))
  {
    TokensRender(template);
    ExpansionIsSimultaneous(template, values);
    RenderIsBraceless(Tokens(template), values);
  }

  lemma {:induction false} RenderIsBraceless(tokens: seq<Token>, values: Values)
    requires Clean(tokens) && forall slot :: NoBrace(values(slot))
    ensures NoBrace(Render(tokens, values))
    decreases |tokens|
  {
    if tokens != [] {
      RenderIsBraceless(tokens[1..], values);
    }
  }

  // ---------------------------------------------------------------- counterexamples

  /** An input path that is itself spelled as a placeholder is expanded again. */
  lemma BracesInValuesExpandAgain(values: Values)
    requires values(Input) == "{frame}" && values(Frame) == "7"
    ensures Closed("{input}")
    ensures ExpandArgument("{input}", values) == "7"
    ensures Substitute("{input}", values) == "{frame}"
  {
    assert "{input}"[0..] == Pattern(Input);
    assert Heads("{input}"[0..], Input);
    ExpandWhole(Input, Input, values(Input));
    ExpandWhole(Frame, Output, values(Output));
    ExpandWhole(Frame, Frame, values(Frame));
    NoBraceIsCalm("7", RunDir);
    ReplaceSkips("7", "", RunDir, values(RunDir));
    assert "7" + "" == "7";
    TokensOfHole("{input}", Input);
    assert "{input}"[|Pattern(Input)|..] == "";
    assert Tokens("") == [];
    assert [Hole(Input)][1..] == [];
    assert Render([Hole(Input)], values) == values(Input) + Render([], values);
  }

  lemma ExpandWhole(at: Slot, slot: Slot, value: string)
    ensures Replace(Pattern(at), slot, value) == if at == slot then value else Pattern(at)
  {
    ReplaceAtPattern(at, "", slot, value);
    assert Pattern(at) + "" == Pattern(at);
    assert Replace("", slot, value) == "";
    assert value + "" == value;
  }

  /** A stray brace in the template can join a value into a placeholder. */
  lemma StrayBracesJoin(values: Values)
    requires values(Input) == "frame}" && values(Frame) == "7"
    ensures ExpandArgument("{{input}", values) == "7"
    ensures Substitute("{{input}", values) == "{frame}"
  {
    hide Replace, Substitute;
    StrayBraceIsKept(values);
    ReplaceStep("{{input}", Input, "frame}");
    assert "{{input}"[1..] == Pattern(Input);
    ExpandWhole(Input, Input, "frame}");
    assert "{" + "frame}" == "{frame}";
    ExpandWhole(Frame, Output, values(Output));
    ExpandWhole(Frame, Frame, values(Frame));
    NoBraceIsCalm("7", RunDir);
    ReplaceSkips("7", "", RunDir, values(RunDir));
    assert "7" + "" == "7";
    assert Replace("", RunDir, values(RunDir)) == "" by { ReplaceNothing(RunDir, values(RunDir)); }
  }

  lemma ReplaceNothing(slot: Slot, value: string)
    ensures Replace("", slot, value) == ""
  {
  }

  lemma StrayBraceIsKept(values: Values)
    requires values(Input) == "frame}"
    ensures Substitute("{{input}", values) == "{frame}"
  {
    var hole := [Hole(Input)];
    assert "{{input}"[1..] == "{input}" && "{input}"[|Pattern(Input)|..] == "";
    TokensOfHole("{input}", Input);
    assert Tokens("{{input}") == [Char('{')] + hole;
    assert ([Char('{')] + hole)[1..] == hole && hole[1..] == [];
    assert Render(hole, values) == values(Input) + Render([], values);
  }
}
