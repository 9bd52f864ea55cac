/** Stage names of src/pipeline.rs, and the paths that src/workspace.rs derives from them. */
module StageNames {
  import opened Decimals
  import opened Distinctness
  import opened Text

  // --------------------------------------------------------------------- sanitizing

  predicate Kept(c: char) {
    'a' <= c <= 'z' || 'A' <= c <= 'Z' || '0' <= c <= '9' || c == '-' || c == '_'
  }

  function Masked(text: string): string {
    seq(|text|, i requires 0 <= i < |text| => if Kept(text[i]) then text[i] else '-')
  }

  predicate IsHyphen(c: char) {
    c == '-'
  }

  function LowerChar(c: char): char {
    if 'A' <= c <= 'Z' then c - 'A' + 'a' else c
  }

  /** On masked text, lower case is the ASCII one. */
  function Lower(text: string): string {
    seq(|text|, i requires 0 <= i < |text| => LowerChar(text[i]))
  }

  /** `sanitize_identifier`. */
  function SanitizeIdentifier(text: string): string {
    Lower(Trim(IsHyphen, Masked(text)))
  }

  /** `sanitize_name`. */
  function SanitizeName(text: string): string {
    if SanitizeIdentifier(text) == "" then "pipeline" else SanitizeIdentifier(text)
  }

  predicate NormalChar(c: char) {
    'a' <= c <= 'z' || '0' <= c <= '9' || c == '-' || c == '_'
  }

  /** Lower-case letters, digits, hyphens and underscores, with no hyphen at either end. */
  predicate Normal(text: string) {
    && (forall i :: 0 <= i < |text| ==> NormalChar(text[i]))
    && (text != "" ==> text[0] != '-' && text[|text| - 1] != '-')
  }

  predicate AllKept(text: string) {
    forall i :: 0 <= i < |text| ==> Kept(text[i])
  }

  lemma {:induction false} TrimLeftTrims(text: string)
    requires AllKept(text)
    ensures var trimmed := TrimLeft(IsHyphen, text);
      AllKept(trimmed) && (trimmed != "" ==> trimmed[0] != '-')
    decreases |text|
  {
    if text != "" && text[0] == '-' {
      TrimLeftTrims(text[1..]);
    }
  }

  lemma {:induction false} TrimRightTrims(text: string)
    requires AllKept(text) && (text != "" ==> text[0] != '-')
    ensures var trimmed := TrimRight(IsHyphen, text);
      AllKept(trimmed) && (trimmed != "" ==> trimmed[0] != '-' && trimmed[|trimmed| - 1] != '-')
    decreases |text|
  {
    if text != "" && text[|text| - 1] == '-' {
      TrimRightTrims(text[..|text| - 1]);
    }
  }

  lemma SanitizedIsNormal(text: string)
    ensures Normal(SanitizeIdentifier(text))
  {
    TrimLeftTrims(Masked(text));
    var trimmed := TrimRight(IsHyphen, TrimLeft(IsHyphen, Masked(text)));
    TrimRightTrims(TrimLeft(IsHyphen, Masked(text)));
    forall i | 0 <= i < |trimmed| ensures NormalChar(Lower(trimmed)[i]) {
      assert Kept(trimmed[i]);
    }
  }

  lemma NormalIsKept(text: string)
    requires Normal(text)
    ensures SanitizeIdentifier(text) == text
  {
    assert Masked(text) == text;
    assert TrimLeft(IsHyphen, text) == text && TrimRight(IsHyphen, text) == text;
    assert Lower(text) == text;
  }

  /** Sanitizing twice is sanitizing once, and exactly the normal texts are left alone. */
  lemma SanitizeIsIdempotent(text: string)
    ensures SanitizeIdentifier(SanitizeIdentifier(text)) == SanitizeIdentifier(text)
    ensures SanitizeIdentifier(text) == text <==> Normal(text)
    ensures SanitizeName(SanitizeName(text)) == SanitizeName(text)
  {
    hide SanitizeIdentifier, Normal;
    SanitizedIsNormal(text);
    NormalIsKept(SanitizeIdentifier(text));
    if Normal(text) {
      NormalIsKept(text);
    }
    PipelineIsNormal();
    NormalIsKept("pipeline");
  }

  /** A character that an identifier cannot begin or end with: anything but ASCII letters, digits
      and underscores. */
  predicate Fringe(c: char) {
    !('a' <= c <= 'z' || 'A' <= c <= 'Z' || '0' <= c <= '9' || c == '_')
  }

  /** Letters become small, other fringe characters hyphens. */
  function Plain(c: char): char {
    if Fringe(c) then '-' else if 'A' <= c <= 'Z' then (c as int + 32) as char else c
  }

  ghost predicate Trimmed(text: string, from: nat, to: nat, r: string) {
    && from <= to <= |text| && |r| == to - from
    && (forall i :: 0 <= i < |r| ==> r[i] == Plain(text[from + i]))
    && (forall j :: 0 <= j < from || to <= j < |text| ==> Fringe(text[j]))
    && (r != "" ==> !Fringe(text[from]) && !Fringe(text[to - 1]))
  }

  /** What sanitizing does: the fringe is cut off, and the rest made plain. */
  lemma SanitizedMeans(text: string)
    ensures exists from: nat, to: nat :: Trimmed(text, from, to, SanitizeIdentifier(text))
  {
    var from := LeftKept(IsHyphen, Masked(text));
    var rest := Masked(text)[from..];
    var n := RightKept(IsHyphen, rest);
    var r := SanitizeIdentifier(text);
    assert r == Lower(rest[..n]);
    forall i | 0 <= i < |r| ensures r[i] == Plain(text[from + i]) {
      assert r[i] == LowerChar(Masked(text)[from + i]);
    }
    forall j | 0 <= j < from || from + n <= j < |text| ensures Fringe(text[j]) {
      assert Masked(text)[j] == '-' by {
        if j >= from + n {
          assert Masked(text)[j] == rest[j - from];
        }
      }
    }
    assert Trimmed(text, from, from + n, r);
  }

  lemma PipelineIsNormal()
    ensures Normal("pipeline")
  {
  }

  // -------------------------------------------------------------------- identifiers

  /** `validate_identifier`: `blank` says that the text has only white space. */
  predicate ValidIdentifier(text: string, blank: bool) {
    !blank && SanitizeIdentifier(text) == text
  }

  /** `validate_unique_ids`. */
  method ValidateUniqueIds(ids: seq<string>, whitespace: char -> bool) returns (valid: bool)
    requires forall c :: NormalChar(c) ==> !whitespace(c)
    ensures valid <==> Distinct(ids) && forall i :: 0 <= i < |ids| ==> ids[i] != "" && Normal(ids[i])
  {
    hide SanitizeIdentifier, Normal;
    var known := {};
    for n := 0 to |ids|
      invariant Distinct(ids[..n]) && SetOf(known, ids[..n])
      invariant forall i :: 0 <= i < n ==> ids[i] != "" && Normal(ids[i])
    {
      var id := ids[n];
      var blank := forall i :: 0 <= i < |id| ==> whitespace(id[i]);
      SanitizeIsIdempotent(id);
      BlankIsEmpty(id, whitespace);
      if !ValidIdentifier(id, blank) {
        return false;
      }
      if id in known {
        RepeatedLater(ids, n);
        return false;
      }
      assert ids[..n + 1] == ids[..n] + [id];
      known := known + {id};
    }
    assert ids[..|ids|] == ids;
    return true;
  }

  lemma BlankIsEmpty(id: string, whitespace: char -> bool)
    requires forall c :: NormalChar(c) ==> !whitespace(c)
    ensures Normal(id) ==> ((forall i :: 0 <= i < |id| ==> whitespace(id[i])) <==> id == "")
  {
    if id != "" && Normal(id) {
      assert NormalChar(id[0]) && !whitespace(id[0]);
    }
  }

  // ------------------------------------------------------------------------- stages

  datatype Processor = Processor(id: string, enabled: bool)

  datatype Pipeline = Pipeline(
    frames: seq<Processor>, audio: seq<Processor>, video: seq<Processor>,
    subtitles: bool, renderflow: bool)

  function Enabled(processors: seq<Processor>): seq<string> {
    if processors == [] then []
    else (if processors[0].enabled then [processors[0].id] else []) + Enabled(processors[1..])
  }

  /** `{:02}`. */
  function TwoDigits(n: nat): string {
    if n < 10 then "0" + Decimal(n) else Decimal(n)
  }

  function NumberedName(kind: string, index: nat, id: string): string {
    kind + "_" + TwoDigits(index + 1) + "_" + SanitizeIdentifier(id)
  }

  function Numbered(kind: string, ids: seq<string>): seq<string> {
    seq(|ids|, i requires 0 <= i < |ids| => NumberedName(kind, i, ids[i]))
  }

  function FrameStages(p: Pipeline): seq<string> {
    ["inspect", "extract"] + Numbered("frame", Enabled(p.frames)) + ["validate_frames", "assemble_video"]
  }

  function AudioStages(p: Pipeline, hasAudio: bool): seq<string> {
    if hasAudio then Numbered("audio", Enabled(p.audio)) + ["restore_audio"] else []
  }

  function VideoStages(p: Pipeline): seq<string> {
    Numbered("video", Enabled(p.video)) + ["finalize"]
  }

  function Optional(present: bool, stage: string): seq<string> {
    if present then [stage] else []
  }

  function Stages(p: Pipeline, hasAudio: bool): seq<string> {
    FrameStages(p) + AudioStages(p, hasAudio) + Optional(p.subtitles, "subtitles")
    + VideoStages(p) + Optional(p.renderflow, "renderflow") + ["delivery"]
  }

  /** `stage_names`. */
  method StageNames(p: Pipeline, hasAudio: bool) returns (stages: seq<string>)
    ensures stages == Stages(p, hasAudio)
    ensures Listed(p, hasAudio, stages)
  {
    StagesAreListed(p, hasAudio);
    hide Numbered, Enabled, Listed;
    stages := ["inspect", "extract"];
    stages := PushNumbered(stages, "frame", p.frames);
    stages := stages + ["validate_frames"];
    stages := stages + ["assemble_video"];
    assert stages == FrameStages(p);
    hide FrameStages;
    if hasAudio {
      stages := PushNumbered(stages, "audio", p.audio);
      stages := stages + ["restore_audio"];
    }
    assert stages == FrameStages(p) + AudioStages(p, hasAudio);
    hide AudioStages;
    if p.subtitles {
      stages := stages + ["subtitles"];
    }
    ghost var before := stages;
    stages := PushNumbered(stages, "video", p.video);
    stages := stages + ["finalize"];
    assert stages == before + VideoStages(p);
    hide VideoStages;
    if p.renderflow {
      stages := stages + ["renderflow"];
    }
    stages := stages + ["delivery"];
  }

  /** The loop over enabled processors, numbered among the enabled ones. */
  method PushNumbered(stages: seq<string>, kind: string, processors: seq<Processor>) returns (r: seq<string>)
    ensures r == stages + Numbered(kind, Enabled(processors))
  {
    hide NumberedName;
    r := stages;
    var index := 0;
    for i := 0 to |processors|
      invariant index == |Enabled(processors[..i])|
      invariant r == stages + Numbered(kind, Enabled(processors[..i]))
    {
      EnabledOneMore(processors, i);
      if processors[i].enabled {
        r := r + [NumberedName(kind, index, processors[i].id)];
        index := index + 1;
      }
    }
    assert processors[..|processors|] == processors;
  }

  lemma EnabledOneMore(processors: seq<Processor>, i: nat)
    requires i < |processors|
    ensures Enabled(processors[..i + 1])
      == Enabled(processors[..i]) + if processors[i].enabled then [processors[i].id] else []
  {
    assert processors[..i + 1] == processors[..i] + [processors[i]];
    EnabledAppend(processors[..i], processors[i]);
  }

  lemma {:induction false} EnabledAppend(processors: seq<Processor>, last: Processor)
    ensures Enabled(processors + [last]) == Enabled(processors) + if last.enabled then [last.id] else []
    decreases |processors|
  {
    if processors == [] {
      assert ([] + [last])[1..] == [];
    } else {
      assert (processors + [last])[1..] == processors[1..] + [last];
      EnabledAppend(processors[1..], last);
    }
  }

  // ------------------------------------------------------------- which stages there are

  /** The enabled processors among the first `i`. */
  function EnabledBefore(processors: seq<Processor>, i: nat): set<nat>
    requires i <= |processors|
  {
    set k: nat | k < i && processors[k].enabled
  }

  /** A stage's name: its kind, its number in at least two digits, and its sanitized identifier. */
  ghost predicate IsNumbered(kind: string, number: nat, id: string, name: string) {
    exists digits :: IsNumber(digits, number) && name == kind + "_" + digits + "_" + SanitizeIdentifier(id)
  }

  predicate IsNumber(digits: string, number: nat) {
    AllDigits(digits) && ValueOf(digits) == number && |digits| >= 2 && (|digits| > 2 ==> digits[0] != '0')
  }

  /** From place `at` on stand the stages of the enabled processors, numbered in order. */
  ghost predicate Places(processors: seq<Processor>, kind: string, stages: seq<string>, at: nat) {
    && at + |EnabledBefore(processors, |processors|)| <= |stages|
    && forall i :: 0 <= i < |processors| && processors[i].enabled ==>
         var n := |EnabledBefore(processors, i)|;
         n < |EnabledBefore(processors, |processors|)| && IsNumbered(kind, n + 1, processors[i].id, stages[at + n])
  }

  /** Each stage of the run at its place, and no room for any other. */
  ghost predicate InRunOrder(p: Pipeline, hasAudio: bool, stages: seq<string>) {
    var frames := |EnabledBefore(p.frames, |p.frames|)|;
    var video := |EnabledBefore(p.video, |p.video|)|;
    var audio := if hasAudio then |EnabledBefore(p.audio, |p.audio|)| + 1 else 0;
    var late := 4 + frames + audio + (if p.subtitles then 1 else 0);
    && |stages| == late + video + (if p.renderflow then 3 else 2)
    && stages[0] == "inspect" && stages[1] == "extract"
    && Places(p.frames, "frame", stages, 2)
    && stages[2 + frames] == "validate_frames" && stages[3 + frames] == "assemble_video"
    && (hasAudio ==> Places(p.audio, "audio", stages, 4 + frames) && stages[3 + frames + audio] == "restore_audio")
    && (p.subtitles ==> stages[4 + frames + audio] == "subtitles")
    && Places(p.video, "video", stages, late) && stages[late + video] == "finalize"
    && (p.renderflow ==> stages[late + video + 1] == "renderflow")
    && stages[|stages| - 1] == "delivery"
  }

  ghost predicate OfKind(processors: seq<Processor>, kind: string, name: string) {
    exists i :: 0 <= i < |processors| && processors[i].enabled
      && IsNumbered(kind, |EnabledBefore(processors, i)| + 1, processors[i].id, name)
  }

  /** The names that occur: the fixed ones, those of switched-on parts, and those of the enabled
      processors. */
  ghost predicate Occurs(p: Pipeline, hasAudio: bool, name: string) {
    || name in {"inspect", "extract", "validate_frames", "assemble_video", "finalize", "delivery"}
    || (hasAudio && name == "restore_audio") || (p.subtitles && name == "subtitles")
    || (p.renderflow && name == "renderflow")
    || OfKind(p.frames, "frame", name) || (hasAudio && OfKind(p.audio, "audio", name))
    || OfKind(p.video, "video", name)
  }

  lemma EnabledBeforeNext(processors: seq<Processor>, i: nat)
    requires i < |processors|
    ensures |EnabledBefore(processors, i + 1)|
      == |EnabledBefore(processors, i)| + if processors[i].enabled then 1 else 0
  {
    var before, after := EnabledBefore(processors, i), EnabledBefore(processors, i + 1);
    assert after == before + if processors[i].enabled then {i} else {};
  }

  /** Processor `i` is the `k`-th of the enabled ones. */
  predicate EnabledAs(processors: seq<Processor>, i: nat, k: nat, id: string) {
    && i < |processors| && processors[i].enabled && processors[i].id == id
    && |EnabledBefore(processors, i)| == k
  }

  ghost predicate SomeEnabledAs(processors: seq<Processor>, n: nat, k: nat, id: string) {
    exists i: nat :: i < n && EnabledAs(processors, i, k, id)
  }

  /** The `i`-th processor, if enabled, stands where the enabled ones before it end. */
  lemma {:induction false} EnabledPlaces(processors: seq<Processor>, n: nat)
    requires n <= |processors|
    ensures |Enabled(processors[..n])| == |EnabledBefore(processors, n)|
    ensures forall i :: 0 <= i < n && processors[i].enabled ==>
      var k := |EnabledBefore(processors, i)|;
      k < |Enabled(processors[..n])| && Enabled(processors[..n])[k] == processors[i].id
    ensures var ids := Enabled(processors[..n]);
      forall k :: 0 <= k < |ids| ==> SomeEnabledAs(processors, n, k, ids[k])
    decreases n
  {
    hide Enabled, EnabledBefore;
    if n == 0 {
      NoneEnabled(processors);
    } else {
      EnabledPlaces(processors, n - 1);
      EnabledOneMore(processors, n - 1);
      EnabledBeforeNext(processors, n - 1);
      var shorter, ids := Enabled(processors[..n - 1]), Enabled(processors[..n]);
      forall k | 0 <= k < |ids| ensures SomeEnabledAs(processors, n, k, ids[k]) {
        if k < |shorter| {
          var i: nat :| i < n - 1 && EnabledAs(processors, i, k, shorter[k]);
          assert EnabledAs(processors, i, k, ids[k]);
        } else {
          assert EnabledAs(processors, n - 1, k, ids[k]);
        }
      }
    }
  }

  lemma NoneEnabled(processors: seq<Processor>)
    ensures Enabled(processors[..0]) == [] && EnabledBefore(processors, 0) == {}
  {
  }

  lemma NumberedIs(kind: string, index: nat, id: string)
    ensures IsNumbered(kind, index + 1, id, NumberedName(kind, index, id))
  {
    hide SanitizeIdentifier, ValueOf, Decimal;
    TwoDigitsAreRead(index + 1);
    NoLeadingZero(index + 1);
    assert IsNumber(TwoDigits(index + 1), index + 1);
  }

  /** The numbered names, where they are put. */
  lemma NumberedPlaces(processors: seq<Processor>, kind: string, before: seq<string>, after: seq<string>)
    ensures var stages := before + Numbered(kind, Enabled(processors)) + after;
      && Places(processors, kind, stages, |before|)
      && |Numbered(kind, Enabled(processors))| == |EnabledBefore(processors, |processors|)|
    ensures forall name :: name in Numbered(kind, Enabled(processors)) ==> OfKind(processors, kind, name)
  {
    hide NumberedName, EnabledBefore, Enabled, IsNumbered;
    assert processors[..|processors|] == processors;
    EnabledPlaces(processors, |processors|);
    var ids := Enabled(processors);
    forall k | 0 <= k < |ids|
      ensures IsNumbered(kind, k + 1, ids[k], Numbered(kind, ids)[k])
      ensures OfKind(processors, kind, Numbered(kind, ids)[k])
    {
      NumberedIs(kind, k, ids[k]);
      var i: nat :| i < |processors| && EnabledAs(processors, i, k, ids[k]);
    }
  }

  lemma AudioPlaces(p: Pipeline, hasAudio: bool, before: seq<string>, after: seq<string>)
    ensures var stages := before + AudioStages(p, hasAudio) + after;
      var audio := if hasAudio then |EnabledBefore(p.audio, |p.audio|)| + 1 else 0;
      && |AudioStages(p, hasAudio)| == audio
      && (hasAudio ==>
            Places(p.audio, "audio", stages, |before|) && stages[|before| + audio - 1] == "restore_audio")
    ensures forall name :: name in AudioStages(p, hasAudio) ==>
      hasAudio && (name == "restore_audio" || OfKind(p.audio, "audio", name))
  {
    hide Numbered, Enabled, EnabledBefore, OfKind, Places;
    if hasAudio {
      var named := Numbered("audio", Enabled(p.audio));
      NumberedPlaces(p.audio, "audio", before, ["restore_audio"] + after);
      assert before + AudioStages(p, hasAudio) + after == before + named + (["restore_audio"] + after);
    }
  }

  lemma StagesInOrder(p: Pipeline, hasAudio: bool)
    ensures InRunOrder(p, hasAudio, Stages(p, hasAudio))
    ensures forall name :: name in Stages(p, hasAudio) ==> Occurs(p, hasAudio, name)
  {
    hide Numbered, Enabled, EnabledBefore, OfKind, Places, AudioStages;
    var frames, audio := Numbered("frame", Enabled(p.frames)), AudioStages(p, hasAudio);
    var video := Numbered("video", Enabled(p.video));
    var subtitles, renderflow := Optional(p.subtitles, "subtitles"), Optional(p.renderflow, "renderflow");
    var stages := Stages(p, hasAudio);
    var first: seq<string> := ["inspect", "extract"];
    var second: seq<string> := ["validate_frames", "assemble_video"];
    var tail := ["finalize"] + renderflow + ["delivery"];
    assert stages == first + frames + second + audio + subtitles + video + tail;
    Regrouped(first, frames, second, audio, subtitles, video, tail);
    NumberedPlaces(p.frames, "frame", first, second + audio + subtitles + video + tail);
    AudioPlaces(p, hasAudio, first + frames + second, subtitles + video + tail);
    NumberedPlaces(p.video, "video", first + frames + second + audio + subtitles, tail);
    SectionsInOrder(p, hasAudio, first, frames, second, audio, subtitles, video, tail);
    SectionsOccur(p, hasAudio, frames, audio, video);
  }

  lemma Regrouped(a: seq<string>, b: seq<string>, c: seq<string>, d: seq<string>, e: seq<string>, f: seq<string>,
                  g: seq<string>)
    ensures a + b + c + d + e + f + g == a + b + (c + d + e + f + g)
    ensures a + b + c + d + e + f + g == (a + b + c) + d + (e + f + g)
  {
  }

  lemma SectionsInOrder(p: Pipeline, hasAudio: bool, first: seq<string>, frames: seq<string>, second: seq<string>,
                        audio: seq<string>, subtitles: seq<string>, video: seq<string>, tail: seq<string>)
    requires first == ["inspect", "extract"] && second == ["validate_frames", "assemble_video"]
    requires subtitles == Optional(p.subtitles, "subtitles")
    requires tail == ["finalize"] + Optional(p.renderflow, "renderflow") + ["delivery"]
    requires |frames| == |EnabledBefore(p.frames, |p.frames|)| && |video| == |EnabledBefore(p.video, |p.video|)|
    requires |audio| == if hasAudio then |EnabledBefore(p.audio, |p.audio|)| + 1 else 0
    requires var stages := first + frames + second + audio + subtitles + video + tail;
      && Places(p.frames, "frame", stages, 2)
      && Places(p.video, "video", stages, 4 + |frames| + |audio| + |subtitles|)
      && (hasAudio ==>
            && Places(p.audio, "audio", stages, 4 + |frames|)
            && stages[3 + |frames| + |audio|] == "restore_audio")
    ensures InRunOrder(p, hasAudio, first + frames + second + audio + subtitles + video + tail)
  {
    hide EnabledBefore, Places;
  }

  lemma SectionsOccur(p: Pipeline, hasAudio: bool, frames: seq<string>, audio: seq<string>, video: seq<string>)
    requires forall name :: name in frames ==> OfKind(p.frames, "frame", name)
    requires forall name :: name in video ==> OfKind(p.video, "video", name)
    requires forall name :: name in audio ==> hasAudio && (name == "restore_audio" || OfKind(p.audio, "audio", name))
    ensures var stages := ["inspect", "extract"] + frames + ["validate_frames", "assemble_video"] + audio
        + Optional(p.subtitles, "subtitles") + video
        + (["finalize"] + Optional(p.renderflow, "renderflow") + ["delivery"]);
      forall name :: name in stages ==> Occurs(p, hasAudio, name)
  {
    hide OfKind;
  }

  /** What the list of stages owes: everything at its place, nothing else, and the stages of
      audio, subtitles and renderflow exactly where they are there. */
  ghost predicate Listed(p: Pipeline, hasAudio: bool, stages: seq<string>) {
    && InRunOrder(p, hasAudio, stages) && (forall name :: name in stages ==> Occurs(p, hasAudio, name))
    && ("restore_audio" in stages <==> hasAudio) && ("subtitles" in stages <==> p.subtitles)
    && ("renderflow" in stages <==> p.renderflow)
    && (forall name :: name in stages && OfKind(p.audio, "audio", name) ==> hasAudio)
  }

  lemma StagesAreListed(p: Pipeline, hasAudio: bool)
    ensures Listed(p, hasAudio, Stages(p, hasAudio))
  {
    StagesInOrder(p, hasAudio);
    SwitchedStages(p, hasAudio, Stages(p, hasAudio));
    hide InRunOrder, Occurs, OfKind, Stages;
  }

  /** Audio, subtitles and renderflow have their stages exactly when they are there. */
  lemma SwitchedStages(p: Pipeline, hasAudio: bool, stages: seq<string>)
    requires InRunOrder(p, hasAudio, stages) && forall name :: name in stages ==> Occurs(p, hasAudio, name)
    ensures "restore_audio" in stages <==> hasAudio
    ensures "subtitles" in stages <==> p.subtitles
    ensures "renderflow" in stages <==> p.renderflow
    ensures forall name :: name in stages && OfKind(p.audio, "audio", name) ==> hasAudio
  {
    NamesApart(p);
    SwitchedOccur(p, hasAudio);
    hide OfKind, Places, EnabledBefore, Occurs;
  }

  /** Where the names of switched parts stand, if they are there. */
  lemma SwitchedOccur(p: Pipeline, hasAudio: bool)
    ensures Occurs(p, hasAudio, "restore_audio") <==> hasAudio
    ensures Occurs(p, hasAudio, "subtitles") <==> p.subtitles
    ensures Occurs(p, hasAudio, "renderflow") <==> p.renderflow
    ensures forall name :: OfKind(p.audio, "audio", name) && Occurs(p, hasAudio, name) ==> hasAudio
  {
    NamesApart(p);
    hide OfKind;
  }

  lemma NamesApart(p: Pipeline)
    ensures forall name :: name in {"restore_audio", "subtitles", "renderflow"} ==>
      !OfKind(p.frames, "frame", name) && !OfKind(p.audio, "audio", name) && !OfKind(p.video, "video", name)
    ensures forall name :: OfKind(p.audio, "audio", name) ==>
      && !OfKind(p.frames, "frame", name) && !OfKind(p.video, "video", name)
      && name !in {"inspect", "extract", "validate_frames", "assemble_video", "finalize", "delivery"}
      && name !in {"restore_audio", "subtitles", "renderflow"}
  {
    forall name | name in {"restore_audio", "subtitles", "renderflow"}
      ensures !OfKind(p.frames, "frame", name) && !OfKind(p.audio, "audio", name) && !OfKind(p.video, "video", name)
    {
      FixedIsNotNumbered(p.frames, "frame", name);
      FixedIsNotNumbered(p.audio, "audio", name);
      FixedIsNotNumbered(p.video, "video", name);
    }
    forall name | OfKind(p.audio, "audio", name)
      ensures !OfKind(p.frames, "frame", name) && !OfKind(p.video, "video", name)
      ensures name !in {"inspect", "extract", "validate_frames", "assemble_video", "finalize", "delivery"}
      ensures name !in {"restore_audio", "subtitles", "renderflow"}
    {
      KindIsRead(p.audio, "audio", name);
      if OfKind(p.frames, "frame", name) {
        KindIsRead(p.frames, "frame", name);
      }
      if OfKind(p.video, "video", name) {
        KindIsRead(p.video, "video", name);
      }
    }
  }

  lemma KindIsRead(processors: seq<Processor>, kind: string, name: string)
    requires OfKind(processors, kind, name) && |kind| == 5
    ensures |name| > 6 && name[0] == kind[0] && name[5] == '_'
  {
    hide SanitizeIdentifier, ValueOf, AllDigits;
    var i :| 0 <= i < |processors| && processors[i].enabled
      && IsNumbered(kind, |EnabledBefore(processors, i)| + 1, processors[i].id, name);
    var digits :| IsNumber(digits, |EnabledBefore(processors, i)| + 1)
      && name == kind + "_" + digits + "_" + SanitizeIdentifier(processors[i].id);
  }

  lemma FixedIsNotNumbered(processors: seq<Processor>, kind: string, name: string)
    requires |kind| == 5 && name in {"restore_audio", "subtitles", "renderflow"}
    ensures !OfKind(processors, kind, name)
  {
    assert name[5] != '_';
    if OfKind(processors, kind, name) {
      KindIsRead(processors, kind, name);
    }
  }

  // -------------------------------------------------------------- names are distinct

  predicate NumberedAs(name: string, initial: char) {
    |name| > 5 && name[5] == '_' && name[0] == initial
  }

  /** Where a name belongs in the run, told by its length and initial. */
  function Rank(name: string): nat {
    if NumberedAs(name, 'f') then 2
    else if NumberedAs(name, 'a') then 5
    else if NumberedAs(name, 'v') then 8
    else match |name|
      case 7 => if name[0] == 'i' then 0 else 1
      case 15 => 3
      case 14 => 4
      case 13 => 6
      case 9 => 7
      case 8 => if name[0] == 'f' then 9 else 11
      case _ => 10
  }

  lemma RanksOfFixedNames()
    ensures Rank("inspect") == 0 && Rank("extract") == 1 && Rank("validate_frames") == 3
    ensures Rank("assemble_video") == 4 && Rank("restore_audio") == 6 && Rank("subtitles") == 7
    ensures Rank("finalize") == 9 && Rank("renderflow") == 10 && Rank("delivery") == 11
  {
  }

  predicate AllRank(names: seq<string>, rank: nat) {
    forall i :: 0 <= i < |names| ==> Rank(names[i]) == rank
  }

  ghost predicate DistinctBelow(names: seq<string>, rank: nat) {
    Distinct(names) && forall i :: 0 <= i < |names| ==> Rank(names[i]) < rank
  }

  lemma Append(names: seq<string>, more: seq<string>, rank: nat)
    requires DistinctBelow(names, rank) && Distinct(more) && AllRank(more, rank)
    ensures DistinctBelow(names + more, rank + 1)
  {
    hide Rank;
    forall i, j | 0 <= i < j < |names + more| ensures (names + more)[i] != (names + more)[j] {
      if i < |names| <= j {
        assert Rank(names[i]) < rank == Rank(more[j - |names|]);
      }
    }
  }

  lemma AppendOne(names: seq<string>, below: nat, name: string)
    requires DistinctBelow(names, below) && Rank(name) >= below
    ensures DistinctBelow(names + [name], Rank(name) + 1)
  {
    hide Rank;
    Append(names, [name], Rank(name));
  }

  /** Numbers are followed by an underscore, so they can be read back from a name. */
  lemma {:induction false} NumbersAreRead(a: string, b: string, restA: string, restB: string)
    requires AllDigits(a) && AllDigits(b) && a + "_" + restA == b + "_" + restB
    ensures a == b
    decreases |a|
  {
    var left, right := a + "_" + restA, b + "_" + restB;
    assert left[0] == if a == "" then '_' else a[0];
    assert right[0] == if b == "" then '_' else b[0];
    assert (a == "" || IsDigit(a[0])) && (b == "" || IsDigit(b[0]));
    if a != "" && b != "" {
      assert left[1..] == a[1..] + "_" + restA && right[1..] == b[1..] + "_" + restB;
      NumbersAreRead(a[1..], b[1..], restA, restB);
      assert a == [a[0]] + a[1..] && b == [b[0]] + b[1..];
    }
  }

  lemma TwoDigitsAreRead(n: nat)
    ensures AllDigits(TwoDigits(n)) && ValueOf(TwoDigits(n)) == n
  {
    ValueOfDecimal(n);
    LeadingZero(Decimal(n));
  }

  lemma NoLeadingZero(n: nat)
    ensures |TwoDigits(n)| >= 2 && (|TwoDigits(n)| > 2 ==> TwoDigits(n)[0] != '0')
  {
    FirstDigit(n);
  }

  /** The number alone keeps names of one kind apart. */
  lemma NumberedNamesDiffer(kind: string, i: nat, j: nat, a: string, b: string)
    requires i != j
    ensures NumberedName(kind, i, a) != NumberedName(kind, j, b)
  {
    hide TwoDigits, SanitizeIdentifier, ValueOf;
    var left, right := NumberedName(kind, i, a), NumberedName(kind, j, b);
    var ni, nj := TwoDigits(i + 1), TwoDigits(j + 1);
    TwoDigitsAreRead(i + 1);
    TwoDigitsAreRead(j + 1);
    if left == right {
      assert left[|kind| + 1..] == ni + "_" + SanitizeIdentifier(a);
      assert right[|kind| + 1..] == nj + "_" + SanitizeIdentifier(b);
      NumbersAreRead(ni, nj, SanitizeIdentifier(a), SanitizeIdentifier(b));
    }
  }

  lemma NumberedAreDistinct(kind: string, ids: seq<string>)
    requires |kind| == 5
    ensures Distinct(Numbered(kind, ids)) && |Numbered(kind, ids)| == |ids|
    ensures forall i :: 0 <= i < |ids| ==> NumberedAs(Numbered(kind, ids)[i], kind[0])
  {
    forall i, j | 0 <= i < j < |ids| ensures Numbered(kind, ids)[i] != Numbered(kind, ids)[j] {
      NumberedNamesDiffer(kind, i, j, ids[i], ids[j]);
    }
  }

  lemma NumberedRanks(ids: seq<string>)
    ensures Distinct(Numbered("frame", ids)) && AllRank(Numbered("frame", ids), 2)
    ensures Distinct(Numbered("audio", ids)) && AllRank(Numbered("audio", ids), 5)
    ensures Distinct(Numbered("video", ids)) && AllRank(Numbered("video", ids), 8)
  {
    hide Numbered, Distinct;
    NumberedAreDistinct("frame", ids);
    NumberedAreDistinct("audio", ids);
    NumberedAreDistinct("video", ids);
  }

  lemma FrameStagesBelow(p: Pipeline)
    ensures DistinctBelow(FrameStages(p), 5)
  {
    hide Rank, Numbered, DistinctBelow, AllRank, Distinct;
    RanksOfFixedNames();
    var frames := Numbered("frame", Enabled(p.frames));
    NumberedRanks(Enabled(p.frames));
    EmptyIsDistinct();
    AppendOne([], 0, "inspect");
    AppendOne([] + ["inspect"], 1, "extract");
    var names: seq<string> := ["inspect", "extract"];
    assert [] + ["inspect"] + ["extract"] == names;
    Append(names, frames, 2);
    AppendOne(names + frames, 3, "validate_frames");
    AppendOne(names + frames + ["validate_frames"], 4, "assemble_video");
    assert names + frames + ["validate_frames"] + ["assemble_video"] == FrameStages(p);
  }

  lemma EmptyIsDistinct()
    ensures DistinctBelow([], 0)
  {
  }

  lemma AudioStagesBelow(p: Pipeline, hasAudio: bool, names: seq<string>)
    requires DistinctBelow(names, 5)
    ensures DistinctBelow(names + AudioStages(p, hasAudio), 7)
  {
    hide Rank, Numbered, DistinctBelow, AllRank, Distinct;
    RanksOfFixedNames();
    if hasAudio {
      var audio := Numbered("audio", Enabled(p.audio));
      NumberedRanks(Enabled(p.audio));
      Append(names, audio, 5);
      AppendOne(names + audio, 6, "restore_audio");
      assert names + audio + ["restore_audio"] == names + AudioStages(p, hasAudio);
    } else {
      Weaken(names, 5, 7);
      assert names + [] == names;
    }
  }

  lemma VideoStagesBelow(p: Pipeline, names: seq<string>)
    requires DistinctBelow(names, 8)
    ensures DistinctBelow(names + VideoStages(p), 10)
  {
    hide Rank, Numbered, DistinctBelow, AllRank, Distinct;
    RanksOfFixedNames();
    var video := Numbered("video", Enabled(p.video));
    NumberedRanks(Enabled(p.video));
    Append(names, video, 8);
    AppendOne(names + video, 9, "finalize");
    assert names + video + ["finalize"] == names + VideoStages(p);
  }

  lemma OptionalBelow(names: seq<string>, rank: nat, present: bool, stage: string)
    requires DistinctBelow(names, rank) && Rank(stage) == rank
    ensures DistinctBelow(names + Optional(present, stage), rank + 1)
  {
    hide Rank, DistinctBelow;
    if present {
      AppendOne(names, rank, stage);
    } else {
      Weaken(names, rank, rank + 1);
      assert names + [] == names;
    }
  }

  lemma Weaken(names: seq<string>, low: nat, high: nat)
    requires DistinctBelow(names, low) && low <= high
    ensures DistinctBelow(names, high)
  {
    hide Rank;
  }

  /** Stage names are pairwise distinct, in every pipeline of any length, even one whose
      identifiers were never validated. */
  lemma StagesAreDistinct(p: Pipeline, hasAudio: bool)
    ensures Distinct(Stages(p, hasAudio))
  {
    hide Rank, DistinctBelow, FrameStages, AudioStages, VideoStages, Optional, Distinct;
    RanksOfFixedNames();
    FrameStagesBelow(p);
    AudioStagesBelow(p, hasAudio, FrameStages(p));
    var middle := FrameStages(p) + AudioStages(p, hasAudio);
    OptionalBelow(middle, 7, p.subtitles, "subtitles");
    var late := middle + Optional(p.subtitles, "subtitles");
    VideoStagesBelow(p, late);
    OptionalBelow(late + VideoStages(p), 10, p.renderflow, "renderflow");
    AppendOne(late + VideoStages(p) + Optional(p.renderflow, "renderflow"), 11, "delivery");
    BelowIsDistinct(Stages(p, hasAudio), 12);
  }

  lemma BelowIsDistinct(names: seq<string>, rank: nat)
    requires DistinctBelow(names, rank)
    ensures Distinct(names)
  {
  }

  // -------------------------------------------------------------------------- paths

  lemma NumberedIsNormal(kind: string, index: nat, id: string)
    requires kind in ["frame", "audio", "video"]
    ensures Normal(NumberedName(kind, index, id)) && NumberedName(kind, index, id) != ""
  {
    hide TwoDigits, SanitizeIdentifier, ValueOf;
    TwoDigitsAreRead(index + 1);
    SanitizedIsNormal(id);
    var name, digits := NumberedName(kind, index, id), TwoDigits(index + 1);
    var suffix := SanitizeIdentifier(id);
    forall i | 0 <= i < |name| ensures NormalChar(name[i]) {
      if |kind| < i <= |kind| + |digits| {
        assert name[i] == digits[i - |kind| - 1] && IsDigit(name[i]);
      }
    }
    assert name[|name| - 1] == if suffix == "" then '_' else suffix[|suffix| - 1];
  }

  ghost predicate AllNormal(names: seq<string>) {
    forall i :: 0 <= i < |names| ==> names[i] != "" && Normal(names[i])
  }

  lemma NumberedAreNormal(kind: string, ids: seq<string>)
    requires kind in ["frame", "audio", "video"]
    ensures AllNormal(Numbered(kind, ids))
  {
    hide NumberedName, Normal;
    forall i | 0 <= i < |ids| ensures Numbered(kind, ids)[i] != "" && Normal(Numbered(kind, ids)[i]) {
      NumberedIsNormal(kind, i, ids[i]);
    }
  }

  lemma FixedAreNormal()
    ensures AllNormal([]) && AllNormal(["inspect", "extract"]) && AllNormal(["validate_frames", "assemble_video"])
    ensures AllNormal(["restore_audio"]) && AllNormal(["subtitles"]) && AllNormal(["finalize"])
    ensures AllNormal(["renderflow"]) && AllNormal(["delivery"])
  {
    LateFixedAreNormal();
  }

  lemma LateFixedAreNormal()
    ensures AllNormal(["restore_audio"]) && AllNormal(["subtitles"])
    ensures AllNormal(["finalize"]) && AllNormal(["renderflow"]) && AllNormal(["delivery"])
  {
  }

  lemma NormalAppend(a: seq<string>, b: seq<string>)
    requires AllNormal(a) && AllNormal(b)
    ensures AllNormal(a + b)
  {
    hide Normal;
  }

  lemma StagesAreNormal(p: Pipeline, hasAudio: bool)
    ensures AllNormal(Stages(p, hasAudio))
  {
    hide AllNormal, Numbered;
    FixedAreNormal();
    NumberedAreNormal("frame", Enabled(p.frames));
    NumberedAreNormal("audio", Enabled(p.audio));
    NumberedAreNormal("video", Enabled(p.video));
    var frames := Numbered("frame", Enabled(p.frames));
    NormalAppend(["inspect", "extract"], frames);
    NormalAppend(["inspect", "extract"] + frames, ["validate_frames", "assemble_video"]);
    NormalAppend(Numbered("audio", Enabled(p.audio)), ["restore_audio"]);
    NormalAppend(Numbered("video", Enabled(p.video)), ["finalize"]);
    assert AllNormal(FrameStages(p)) && AllNormal(AudioStages(p, hasAudio)) && AllNormal(VideoStages(p));
    assert AllNormal(Optional(p.subtitles, "subtitles")) && AllNormal(Optional(p.renderflow, "renderflow"));
    hide FrameStages, AudioStages, VideoStages, Optional;
    NormalAppend(FrameStages(p), AudioStages(p, hasAudio));
    var middle := FrameStages(p) + AudioStages(p, hasAudio);
    NormalAppend(middle, Optional(p.subtitles, "subtitles"));
    NormalAppend(middle + Optional(p.subtitles, "subtitles"), VideoStages(p));
    var late := middle + Optional(p.subtitles, "subtitles") + VideoStages(p);
    NormalAppend(late, Optional(p.renderflow, "renderflow"));
    NormalAppend(late + Optional(p.renderflow, "renderflow"), ["delivery"]);
  }

  /** `stage_marker`. */
  function StageMarker(root: string, stage: string): string {
    root + "/state/" + stage + ".complete"
  }

  /** `provider_lock`. */
  function ProviderLock(root: string, stage: string): string {
    root + "/providers/" + SanitizeName(stage) + "/provider-lock.json"
  }

  lemma Between(head: string, a: string, b: string, tail: string)
    requires head + a + tail == head + b + tail
    ensures a == b
  {
    var left, right := head + a + tail, head + b + tail;
    assert a == left[|head|..|left| - |tail|];
    assert b == right[|head|..|right| - |tail|];
  }

  /** Every stage of a run has its own marker and its own provider directory, whose name is
      the stage's: sanitizing stage names again changes nothing. */
  lemma StagePathsAreDistinct(p: Pipeline, hasAudio: bool, root: string)
    ensures var stages := Stages(p, hasAudio);
      && (forall i :: 0 <= i < |stages| ==>
            && SanitizeName(stages[i]) == stages[i]
            && StageMarker(root, stages[i]) == root + "/state/" + stages[i] + ".complete"
            && ProviderLock(root, stages[i]) == root + "/providers/" + stages[i] + "/provider-lock.json")
      && (forall i, j :: 0 <= i < j < |stages| ==>
            && StageMarker(root, stages[i]) != StageMarker(root, stages[j])
            && ProviderLock(root, stages[i]) != ProviderLock(root, stages[j]))
  {
    var stages := Stages(p, hasAudio);
    StagesAreDistinct(p, hasAudio);
    StagesAreNormal(p, hasAudio);
    hide Stages, Normal, SanitizeIdentifier;
    forall i | 0 <= i < |stages|
      ensures SanitizeName(stages[i]) == stages[i]
      ensures StageMarker(root, stages[i]) == root + "/state/" + stages[i] + ".complete"
      ensures ProviderLock(root, stages[i]) == root + "/providers/" + stages[i] + "/provider-lock.json"
    {
      NormalIsKept(stages[i]);
    }
    hide SanitizeName;
    forall i, j | 0 <= i < j < |stages|
      ensures StageMarker(root, stages[i]) != StageMarker(root, stages[j])
      ensures ProviderLock(root, stages[i]) != ProviderLock(root, stages[j])
    {
      assert stages[i] != stages[j];
      if StageMarker(root, stages[i]) == StageMarker(root, stages[j]) {
        Between(root + "/state/", stages[i], stages[j], ".complete");
      }
      if ProviderLock(root, stages[i]) == ProviderLock(root, stages[j]) {
        Between(root + "/providers/", stages[i], stages[j], "/provider-lock.json");
      }
    }
  }
}
