/** Delivery metadata of src/delivery_metadata.rs: the loops over tag dictionaries account for
    every field of a delivered file. */
module DeliveryMetadata {
  import opened Widths
  import opened Wrappers

  type Tags = map<string, string>

  datatype Mode = Preserve | Minimal | Allowlist

  datatype Field =
    Title | Creator | Copyright | Credits | ProjectId | ReleaseId | Version | PublicUrl | Description

  datatype Policy = Policy(mode: Mode, approved: map<Field, string>)

  datatype Inventory = Inventory(
    global: Tags, streams: map<nat, Tags>, chapters: seq<Tags>, programs: seq<Tags>)

  datatype Status = Unsupported | ResidualFields | Failed

  datatype Summary = Summary(
    status: Status, beforeFields: nat, afterFields: nat, residual: nat, regenerated: nat)

  const LANGUAGE := "language"

  const OUTPUTS: set<nat> := {0, 1}

  function Tag(field: Field): string {
    match field
    case Title => "title"
    case Creator => "artist"
    case Copyright => "copyright"
    case Credits => "comment"
    case ProjectId => "project_id"
    case ReleaseId => "release_id"
    case Version => "version"
    case PublicUrl => "purl"
    case Description => "description"
  }

  predicate Generated(name: string) {
    || name == "encoder" || name == "major_brand" || name == "minor_version"
    || name == "compatible_brands" || name == "handler_name" || name == "vendor_id"
  }

  /** What each tag is told by: its length and its last letter. */
  function Mark(name: string): (nat, char) {
    (|name|, if name == "" then ' ' else name[|name| - 1])
  }

  lemma TagMarks()
    ensures Mark("title") == (5, 'e') && Mark("artist") == (6, 't') && Mark("copyright") == (9, 't')
    ensures Mark("comment") == (7, 't') && Mark("project_id") == (10, 'd') && Mark("release_id") == (10, 'd')
    ensures Mark("version") == (7, 'n') && Mark("purl") == (4, 'l') && Mark("description") == (11, 'n')
    ensures Mark("encoder") == (7, 'r') && Mark("major_brand") == (11, 'd') && Mark("minor_version") == (13, 'n')
    ensures Mark("compatible_brands") == (17, 's') && Mark("handler_name") == (12, 'e')
    ensures Mark("vendor_id") == (9, 'd') && Mark("language") == (8, 'e')
    ensures "project_id" != "release_id"
  {
    assert "project_id"[0] != "release_id"[0];
  }

  /** Release fields have their own tags, none of them regenerated or a language. */
  lemma TagsAreApart(a: Field, b: Field)
    ensures Tag(a) == Tag(b) <==> a == b
    ensures !Generated(Tag(a)) && Tag(a) != LANGUAGE && !Generated(LANGUAGE)
  {
    hide Mark;
    TagMarks();
  }

  /** The names that the delivery format knows the release fields by, and those its tools write. */
  lemma KnownNames()
    ensures Tag(Title) == "title" && Tag(Creator) == "artist" && Tag(Copyright) == "copyright"
    ensures Tag(Credits) == "comment" && Tag(ProjectId) == "project_id" && Tag(ReleaseId) == "release_id"
    ensures Tag(Version) == "version" && Tag(PublicUrl) == "purl" && Tag(Description) == "description"
    ensures forall name :: Generated(name) <==>
      name in ["encoder", "major_brand", "minor_version", "compatible_brands", "handler_name", "vendor_id"]
    ensures LANGUAGE == "language"
  {
  }

  // -------------------------------------------------------------------------- counts

  function ListFields(scopes: seq<Tags>): nat {
    if scopes == [] then 0 else |scopes[0]| + ListFields(scopes[1..])
  }

  /** The fields of streams below an identity. */
  function StreamFields(streams: map<nat, Tags>, below: nat): nat {
    if below == 0 then 0
    else StreamFields(streams, below - 1) + if below - 1 in streams then |streams[below - 1]| else 0
  }

  /** `count`; stream identities are 32-bit. */
  function Count(inventory: Inventory): nat {
    |inventory.global| + StreamFields(inventory.streams, U32_LIMIT)
    + ListFields(inventory.chapters) + ListFields(inventory.programs)
  }

  function Stream(inventory: Inventory, index: nat): Tags {
    if index in inventory.streams then inventory.streams[index] else map[]
  }

  lemma {:induction false} StreamFieldsSettle(streams: map<nat, Tags>, below: nat)
    requires streams.Keys <= OUTPUTS && below >= 2
    ensures StreamFields(streams, below)
      == (if 0 in streams then |streams[0]| else 0) + (if 1 in streams then |streams[1]| else 0)
  {
    if below == 2 {
      assert StreamFields(streams, 0) == 0;
      assert StreamFields(streams, 1) == if 0 in streams then |streams[0]| else 0;
    } else {
      assert below - 1 !in OUTPUTS;
      StreamFieldsSettle(streams, below - 1);
    }
  }

  function GeneratedKeys(scope: Tags): set<string> {
    set key | key in scope && Generated(key)
  }

  function ResidualKeys(scope: Tags, allowed: set<string>): set<string> {
    set key | key in scope && !Generated(key) && key !in allowed
  }

  function AllowedKeys(scope: Tags, allowed: set<string>): set<string> {
    set key | key in scope && key in allowed
  }

  function ApprovedTags(policy: Policy): set<string> {
    set field | field in policy.approved :: Tag(field)
  }

  lemma ScopeSplits(scope: Tags, allowed: set<string>)
    requires forall key :: key in allowed ==> !Generated(key)
    ensures |scope| == |GeneratedKeys(scope)| + |ResidualKeys(scope, allowed)| + |AllowedKeys(scope, allowed)|
  {
    var generated, residual, kept := GeneratedKeys(scope), ResidualKeys(scope, allowed), AllowedKeys(scope, allowed);
    hide Generated;
    assert scope.Keys == generated + residual + kept;
    assert generated !! residual && (generated + residual) !! kept;
  }

  lemma {:induction false} ApprovedTagsCount(fields: set<Field>)
    ensures |set field | field in fields :: Tag(field)| == |fields|
    decreases |fields|
  {
    if fields != {} {
      var first :| first in fields;
      var rest := fields - {first};
      ApprovedTagsCount(rest);
      var tags := set field | field in rest :: Tag(field);
      forall field | field in rest ensures Tag(field) != Tag(first) {
        TagsAreApart(field, first);
      }
      hide Tag;
      assert (set field | field in fields :: Tag(field)) == tags + {Tag(first)};
    } else {
      assert (set field | field in fields :: Tag(field)) == {};
    }
  }

  // --------------------------------------------------------------- what is acceptable

  predicate StreamsMatch(after: Inventory, audio: Option<nat>) {
    after.streams.Keys == (if audio.Some? then {0, 1} else {0}) && after.programs == []
  }

  predicate Kept(before: Tags, after: Tags) {
    forall key :: key in before && !Generated(key) ==> key in after && after[key] == before[key]
  }

  function Source(before: Inventory, input: Option<nat>): Tags {
    if input.Some? then Stream(before, input.value) else map[]
  }

  /** A present language is kept; an absent one stays absent or undetermined. */
  predicate LanguageKept(before: Tags, after: Tags) {
    if LANGUAGE in before then LANGUAGE in after && after[LANGUAGE] == before[LANGUAGE]
    else LANGUAGE !in after || after[LANGUAGE] == "und"
  }

  predicate ApprovedPresent(policy: Policy, after: Inventory) {
    forall field :: field in policy.approved ==>
      Tag(field) in after.global && after.global[Tag(field)] == policy.approved[field]
  }

  /** What the policy asks of a delivered file, apart from residual fields. */
  predicate Acceptable(policy: Policy, before: Inventory, after: Inventory, video: nat, audio: Option<nat>) {
    && StreamsMatch(after, audio)
    && if policy.mode.Preserve? then
         && Kept(before.global, after.global)
         && before.chapters == after.chapters
         && Kept(Source(before, Some(video)), Stream(after, 0))
         && Kept(Source(before, audio), Stream(after, 1))
       else
         && after.chapters == []
         && ApprovedPresent(policy, after)
         && LanguageKept(Source(before, Some(video)), Stream(after, 0))
         && LanguageKept(Source(before, audio), Stream(after, 1))
  }

  /** A key's value in the tags of an output stream, of which there may be none. */
  function Value(inventory: Inventory, index: Option<nat>, key: string): Option<string> {
    if index.Some? && index.value in inventory.streams && key in inventory.streams[index.value]
    then Some(inventory.streams[index.value][key]) else None
  }

  ghost predicate SameUnlessGenerated(before: Inventory, input: Option<nat>, after: Inventory, output: nat) {
    forall key :: Value(before, input, key).Some? && !Generated(key) ==>
      Value(after, Some(output), key) == Value(before, input, key)
  }

  predicate SameLanguage(before: Inventory, input: Option<nat>, after: Inventory, output: nat) {
    var was, now := Value(before, input, "language"), Value(after, Some(output), "language");
    if was.Some? then now == was else now == None || now == Some("und")
  }

  /** The demands of each mode, spelled out: preserving keeps every tag that tools do not write,
      clearing keeps languages and the approved values and no chapter. */
  lemma AcceptableSays(policy: Policy, before: Inventory, after: Inventory, video: nat, audio: Option<nat>)
    ensures Acceptable(policy, before, after, video, audio) <==>
      && after.streams.Keys == (if audio.Some? then {0, 1} else {0}) && after.programs == []
      && (policy.mode.Preserve? ==>
            && (forall key :: key in before.global && !Generated(key) ==>
                  key in after.global && after.global[key] == before.global[key])
            && before.chapters == after.chapters
            && SameUnlessGenerated(before, Some(video), after, 0) && SameUnlessGenerated(before, audio, after, 1))
      && (!policy.mode.Preserve? ==>
            && after.chapters == []
            && (forall field :: field in policy.approved ==>
                  Tag(field) in after.global && after.global[Tag(field)] == policy.approved[field])
            && SameLanguage(before, Some(video), after, 0) && SameLanguage(before, audio, after, 1))
  {
    hide Generated, Tag;
    forall input: Option<nat>, output: nat
      ensures Kept(Source(before, input), Stream(after, output)) <==> SameUnlessGenerated(before, input, after, output)
    {
      KeptSays(before, input, after, output);
    }
  }

  lemma KeptSays(before: Inventory, input: Option<nat>, after: Inventory, output: nat)
    ensures Kept(Source(before, input), Stream(after, output)) <==> SameUnlessGenerated(before, input, after, output)
  {
    hide Generated;
    forall key ensures Value(before, input, key)
      == if key in Source(before, input) then Some(Source(before, input)[key]) else None
    {
    }
    forall key ensures Value(after, Some(output), key)
      == if key in Stream(after, output) then Some(Stream(after, output)[key]) else None
    {
    }
  }

  predicate ValidPolicy(policy: Policy) {
    policy.mode.Allowlist? || policy.approved == map[]
  }

  function Residual(policy: Policy, after: Inventory): nat {
    if policy.mode.Preserve? then 0
    else
      |ResidualKeys(after.global, ApprovedTags(policy))|
      + |ResidualKeys(Stream(after, 0), {LANGUAGE})| + |ResidualKeys(Stream(after, 1), {LANGUAGE})|
  }

  function Regenerated(policy: Policy, after: Inventory): nat {
    if policy.mode.Preserve? then 0
    else
      |GeneratedKeys(after.global)| + |GeneratedKeys(Stream(after, 0))| + |GeneratedKeys(Stream(after, 1))|
  }

  // ------------------------------------------------------------------------ methods

  /** `verify`, of a policy whose texts are within bounds: each loop visits its dictionary in
      any order. */
  method Verify(policy: Policy, before: Inventory, after: Inventory, video: nat, audio: Option<nat>)
    returns (r: Option<Summary>)
    ensures r.Some? <==> ValidPolicy(policy)
    ensures r.Some? ==>
      && r.value.residual == Residual(policy, after)
      && r.value.regenerated == Regenerated(policy, after)
      && r.value.beforeFields == Count(before) && r.value.afterFields == Count(after)
      && (r.value.status == Failed <==> !Acceptable(policy, before, after, video, audio))
      && (r.value.status == Unsupported <==>
            Acceptable(policy, before, after, video, audio) && Residual(policy, after) == 0)
  {
    hide Count, Kept, LanguageKept, GeneratedKeys, ResidualKeys, ApprovedTags, ApprovedPresent, StreamsMatch;
    if !policy.mode.Allowlist? && policy.approved != map[] {
      return None;
    }
    var residual, regenerated: nat := 0, 0;
    var failed := false;
    StreamCheck(after, audio);
    if |after.streams| != (if audio.Some? then 2 else 1) || 0 !in after.streams
       || (audio.Some? && 1 !in after.streams) || after.programs != [] {
      failed := true;
    }
    match policy.mode {
      case Preserve =>
        var kept := CheckKept(before.global, after.global);
        failed := failed || !kept;
        if before.chapters != after.chapters {
          failed := true;
        }
        kept := CheckKept(Source(before, Some(video)), Stream(after, 0));
        failed := failed || !kept;
        kept := CheckKept(Source(before, audio), Stream(after, 1));
        failed := failed || !kept;
      case _ =>
        if after.chapters != [] {
          failed := true;
        }
        var present := CheckApproved(policy, after);
        failed := failed || !present;
        var approved := ApprovedTags(policy);
        regenerated, residual := CountScope(after.global, approved, 0, 0);
        failed := failed || !LanguageKept(Source(before, Some(video)), Stream(after, 0));
        regenerated, residual := CountScope(Stream(after, 0), {LANGUAGE}, regenerated, residual);
        failed := failed || !LanguageKept(Source(before, audio), Stream(after, 1));
        regenerated, residual := CountScope(Stream(after, 1), {LANGUAGE}, regenerated, residual);
    }
    var status := if failed then Failed else if residual > 0 then ResidualFields else Unsupported;
    return Some(Summary(status, Count(before), Count(after), residual, regenerated));
  }

  /** Counting streams and looking for the expected ones decides which there are. */
  lemma StreamCheck(after: Inventory, audio: Option<nat>)
    ensures StreamsMatch(after, audio) <==>
      && |after.streams| == (if audio.Some? then 2 else 1) && 0 in after.streams
      && (audio.Some? ==> 1 in after.streams) && after.programs == []
  {
    var keys, expected: set<nat> := after.streams.Keys, if audio.Some? then {0, 1} else {0};
    assert |keys| == |after.streams|;
    if expected <= keys && |keys| == |expected| {
      assert |keys - expected| == |keys| - |expected|;
      assert keys - expected == {};
      assert keys == expected;
    }
  }

  method CheckKept(before: Tags, after: Tags) returns (kept: bool)
    ensures kept <==> Kept(before, after)
  {
    hide Generated;
    kept := true;
    var remaining := before.Keys;
    while remaining != {}
      invariant remaining <= before.Keys
      invariant kept <==> forall key :: key in before.Keys - remaining && !Generated(key) ==>
        key in after && after[key] == before[key]
      decreases |remaining|
    {
      var key :| key in remaining;
      if !Generated(key) && !(key in after && after[key] == before[key]) {
        kept := false;
      }
      remaining := remaining - {key};
    }
  }

  method CheckApproved(policy: Policy, after: Inventory) returns (present: bool)
    ensures present <==> ApprovedPresent(policy, after)
  {
    hide Tag;
    present := true;
    var remaining := policy.approved.Keys;
    while remaining != {}
      invariant remaining <= policy.approved.Keys
      invariant present <==> forall field :: field in policy.approved.Keys - remaining ==>
        Tag(field) in after.global && after.global[Tag(field)] == policy.approved[field]
      decreases |remaining|
    {
      var field :| field in remaining;
      if !(Tag(field) in after.global && after.global[Tag(field)] == policy.approved[field]) {
        present := false;
      }
      remaining := remaining - {field};
    }
  }

  method CountScope(scope: Tags, allowed: set<string>, regenerated0: nat, residual0: nat)
    returns (regenerated: nat, residual: nat)
    ensures regenerated == regenerated0 + |GeneratedKeys(scope)|
    ensures residual == residual0 + |ResidualKeys(scope, allowed)|
  {
    hide Generated;
    regenerated, residual := regenerated0, residual0;
    var remaining := scope.Keys;
    ghost var generated, rest: set<string> := {}, {};
    while remaining != {}
      invariant remaining <= scope.Keys
      invariant generated == GeneratedKeys(scope) - remaining && regenerated == regenerated0 + |generated|
      invariant rest == ResidualKeys(scope, allowed) - remaining && residual == residual0 + |rest|
      decreases |remaining|
    {
      var key :| key in remaining;
      if Generated(key) {
        regenerated := regenerated + 1;
        generated := generated + {key};
      } else if key !in allowed {
        residual := residual + 1;
        rest := rest + {key};
      }
      remaining := remaining - {key};
    }
  }

  // -------------------------------------------------------------------------- facts

  function LanguageTags(scope: Tags): nat {
    if LANGUAGE in scope then 1 else 0
  }

  lemma StreamSplits(scope: Tags)
    ensures |scope| == |GeneratedKeys(scope)| + |ResidualKeys(scope, {LANGUAGE})| + LanguageTags(scope)
  {
    TagsAreApart(Title, Title);
    hide Generated, Tag;
    ScopeSplits(scope, {LANGUAGE});
    assert AllowedKeys(scope, {LANGUAGE}) == if LANGUAGE in scope then {LANGUAGE} else {};
  }

  lemma GlobalSplits(policy: Policy, after: Inventory)
    requires ApprovedPresent(policy, after)
    ensures |after.global| == |GeneratedKeys(after.global)| + |ResidualKeys(after.global, ApprovedTags(policy))|
      + |policy.approved|
  {
    forall field: Field ensures !Generated(Tag(field)) {
      TagsAreApart(field, field);
    }
    hide Generated, Tag;
    var approved := ApprovedTags(policy);
    ScopeSplits(after.global, approved);
    ApprovedTagsCount(policy.approved.Keys);
    assert approved == set field | field in policy.approved.Keys :: Tag(field);
    assert AllowedKeys(after.global, approved) == approved;
  }

  /** Nothing is lost in the accounts: in the modes that clear inherited tags, every field
      of an acceptable file is residual, regenerated, approved or a stream's language. */
  lemma FieldsAreAccounted(policy: Policy, before: Inventory, after: Inventory, video: nat, audio: Option<nat>)
    requires !policy.mode.Preserve? && Acceptable(policy, before, after, video, audio)
    ensures Count(after) == Residual(policy, after) + Regenerated(policy, after) + |policy.approved|
      + LanguageTags(Stream(after, 0)) + LanguageTags(Stream(after, 1))
  {
    hide GeneratedKeys, ResidualKeys, ApprovedTags, ApprovedPresent, LanguageKept, LanguageTags;
    GlobalSplits(policy, after);
    StreamSplits(Stream(after, 0));
    StreamSplits(Stream(after, 1));
    assert after.streams.Keys <= OUTPUTS;
    StreamFieldsSettle(after.streams, U32_LIMIT);
  }

  /** Without residual fields, whatever a cleared file still says was regenerated by the
      tool, was approved with exactly this value, or is a language that the source had or
      that says nothing. */
  lemma CleanFileSaysOnlyApproved(policy: Policy, before: Inventory, after: Inventory, video: nat,
                                  audio: Option<nat>)
    requires !policy.mode.Preserve? && Acceptable(policy, before, after, video, audio)
    requires Residual(policy, after) == 0
    ensures forall key :: key in after.global ==>
      || Generated(key)
      || (exists field :: field in policy.approved && key == Tag(field) && after.global[key] == policy.approved[field])
    ensures forall index, key :: index in after.streams && key in after.streams[index] ==>
      || Generated(key)
      || (key == "language"
          && var source := Source(before, if index == 0 then Some(video) else audio);
             after.streams[index][key] == if "language" in source then source["language"] else "und")
  {
    hide Generated, Tag;
    assert ResidualKeys(after.global, ApprovedTags(policy)) == {};
    assert ResidualKeys(Stream(after, 0), {LANGUAGE}) == {} && ResidualKeys(Stream(after, 1), {LANGUAGE}) == {};
    forall key | key in after.global && !Generated(key)
      ensures exists field ::
        field in policy.approved && key == Tag(field) && after.global[key] == policy.approved[field]
    {
      NoneResidual(after.global, ApprovedTags(policy), key);
      var field :| field in policy.approved && key == Tag(field);
    }
    forall index, key | index in after.streams && key in after.streams[index] && !Generated(key)
      ensures key == LANGUAGE
    {
      assert index == 0 || index == 1;
      NoneResidual(Stream(after, index), {LANGUAGE}, key);
    }
  }

  lemma NoneResidual(scope: Tags, allowed: set<string>, key: string)
    requires ResidualKeys(scope, allowed) == {} && key in scope
    ensures Generated(key) || key in allowed
  {
    hide Generated;
    assert key in ResidualKeys(scope, allowed) <==> !Generated(key) && key !in allowed;
  }
}
