/** Provider invocations of src/invocation_v3.rs: the incremental loops over bindings decide
    that no two outputs, and no output and input, own a common path. */
module InvocationRequest {
  import opened Distinctness
  import opened Text
  import opened Wrappers

  /** The character tables that the library supplies. */
  datatype Unicode = Unicode(lower: string -> string, whitespace: char -> bool, control: char -> bool)

  datatype Binding = Binding(port: string, artifactId: string, artifactType: string, path: string)

  datatype Schema = V1 | V2 | Unknown

  datatype Request = Request(
    schema: Schema, semantics: Schema,
    stageId: string, lockSha256: string, configurationValid: bool,
    inputs: seq<Binding>, outputs: seq<Binding>)

  datatype Refusal =
    | UnsupportedSchema
    | NoOutputs
    | BadIdentity
    | NoInputs
    | BadBinding
    | RepeatedInput
    | RepeatedPort
    | RepeatedOutput
    | OutputsOverlap
    | InputOverlap

  // -------------------------------------------------------------------------- paths

  function Name(text: string): seq<string> {
    if text == "" || text == "." then [] else [text]
  }

  /** The names between separators; empty names and single dots do not count. */
  function NamesFrom(current: string, text: string): seq<string>
    decreases |text|
  {
    if text == "" then Name(current)
    else if text[0] == '/' then Name(current) + NamesFrom("", text[1..])
    else NamesFrom(current + [text[0]], text[1..])
  }

  predicate Absolute(path: string) {
    path != "" && path[0] == '/'
  }

  /** The components of a path: its root, then its names. */
  function Components(path: string): seq<string> {
    (if Absolute(path) then ["/"] else []) + NamesFrom("", path)
  }

  function Lowered(u: Unicode, names: seq<string>): seq<string> {
    seq(|names|, i requires 0 <= i < |names| => u.lower(names[i]))
  }

  function Folded(u: Unicode, path: string): seq<string> {
    Lowered(u, Components(path))
  }

  /** `paths_overlap`, of validated paths. */
  predicate Overlap(u: Unicode, left: string, right: string) {
    Folded(u, left) <= Folded(u, right) || Folded(u, right) <= Folded(u, left)
  }

  // --------------------------------------------------------------------- validation

  predicate LocalId(text: string) {
    && text != "" && 'a' <= text[0] <= 'z'
    && forall i :: 0 <= i < |text| ==> LocalIdChar(text[i])
  }

  predicate LocalIdChar(c: char) {
    'a' <= c <= 'z' || '0' <= c <= '9' || c == '-' || c == '_'
  }

  predicate ArtifactType(u: Unicode, text: string) {
    text != "" && forall i :: 0 <= i < |text| ==> !u.whitespace(text[i]) && !u.control(text[i])
  }

  predicate NormalizedPath(u: Unicode, path: string) {
    && Absolute(path)
    && ".." !in Components(path)
    && forall i :: 0 <= i < |path| ==> !u.control(path[i])
  }

  predicate ValidBinding(u: Unicode, binding: Binding) {
    && LocalId(binding.port) && LocalId(binding.artifactId)
    && ArtifactType(u, binding.artifactType)
    && NormalizedPath(u, binding.path)
  }

  function Key(binding: Binding): (string, string) {
    (binding.port, binding.artifactId)
  }

  function Keys(bindings: seq<Binding>): seq<(string, string)> {
    seq(|bindings|, i requires 0 <= i < |bindings| => Key(bindings[i]))
  }

  function Ports(bindings: seq<Binding>): seq<string> {
    seq(|bindings|, i requires 0 <= i < |bindings| => bindings[i].port)
  }

  function Ids(bindings: seq<Binding>): seq<string> {
    seq(|bindings|, i requires 0 <= i < |bindings| => bindings[i].artifactId)
  }

  predicate ValidInputs(u: Unicode, inputs: seq<Binding>) {
    forall i :: 0 <= i < |inputs| ==> ValidBinding(u, inputs[i])
  }

  ghost predicate OutputsApart(u: Unicode, outputs: seq<Binding>) {
    forall i, j :: 0 <= i < j < |outputs| ==> !Overlap(u, outputs[i].path, outputs[j].path)
  }

  ghost predicate InputsApart(u: Unicode, inputs: seq<Binding>, outputs: seq<Binding>) {
    forall i, k :: 0 <= i < |outputs| && 0 <= k < |inputs| ==> !Overlap(u, inputs[k].path, outputs[i].path)
  }

  ghost predicate ValidOutputs(u: Unicode, artifactSet: bool, inputs: seq<Binding>, outputs: seq<Binding>) {
    && ValidInputs(u, outputs)
    && (artifactSet || Distinct(Ports(outputs)))
    && Distinct(Ids(outputs))
    && OutputsApart(u, outputs)
    && InputsApart(u, inputs, outputs)
  }

  ghost predicate ValidRequest(u: Unicode, q: Request) {
    && !q.schema.Unknown? && q.semantics == q.schema
    && (q.schema.V2? ==> q.outputs != [])
    && LocalId(q.stageId) && IsSha256(q.lockSha256) && q.configurationValid
    && q.inputs != []
    && ValidInputs(u, q.inputs) && Distinct(Keys(q.inputs))
    && ValidOutputs(u, q.schema.V2?, q.inputs, q.outputs)
  }

  // ------------------------------------------------------------------------ methods

  /** `validate`. */
  method Validate(u: Unicode, q: Request) returns (r: Option<Refusal>)
    ensures r.None? <==> ValidRequest(u, q)
  {
    hide ValidInputs, ValidOutputs, Distinct, Keys;
    if q.schema.Unknown? || q.semantics != q.schema {
      return Some(UnsupportedSchema);
    }
    var artifactSet := q.schema.V2?;
    if artifactSet && q.outputs == [] {
      return Some(NoOutputs);
    }
    if !LocalId(q.stageId) || !IsSha256(q.lockSha256) || !q.configurationValid {
      return Some(BadIdentity);
    }
    if q.inputs == [] {
      return Some(NoInputs);
    }
    var inputPaths;
    r, inputPaths := CheckInputs(u, q.inputs);
    if r.Some? {
      return;
    }
    r := CheckOutputs(u, artifactSet, q.inputs, inputPaths, q.outputs);
  }

  function PathsOf(bindings: seq<Binding>): seq<string> {
    seq(|bindings|, i requires 0 <= i < |bindings| => bindings[i].path)
  }

  method CheckInputs(u: Unicode, inputs: seq<Binding>) returns (r: Option<Refusal>, paths: seq<string>)
    ensures r.None? <==> ValidInputs(u, inputs) && Distinct(Keys(inputs))
    ensures r.None? ==> paths == PathsOf(inputs)
    ensures r == Some(RepeatedInput) ==> !Distinct(Keys(inputs))
  {
    hide ValidBinding, Distinct, SetOf;
    paths := [];
    var keys := {};
    NothingYet(inputs);
    for i := 0 to |inputs|
      invariant ValidInputs(u, inputs[..i])
      invariant Distinct(Keys(inputs[..i])) && SetOf(keys, Keys(inputs[..i]))
      invariant paths == PathsOf(inputs[..i])
    {
      var binding := inputs[i];
      if !ValidBinding(u, binding) {
        return Some(BadBinding), paths;
      }
      KeysOneMore(inputs, i);
      SetDecides(keys, Keys(inputs), i);
      if Key(binding) in keys {
        return Some(RepeatedInput), paths;
      }
      keys := keys + {Key(binding)};
      paths := paths + [binding.path];
    }
    assert inputs[..|inputs|] == inputs;
    return None, paths;
  }

  /** The growing sets and the growing list of paths decide the pairwise facts. */
  method CheckOutputs(u: Unicode, artifactSet: bool, inputs: seq<Binding>, inputPaths: seq<string>,
                      outputs: seq<Binding>)
    returns (r: Option<Refusal>)
    requires inputPaths == PathsOf(inputs)
    ensures r.None? <==> ValidOutputs(u, artifactSet, inputs, outputs)
    ensures r == Some(RepeatedPort) ==> !artifactSet && !Distinct(Ports(outputs))
    ensures r == Some(RepeatedOutput) ==> !Distinct(Ids(outputs))
    ensures r == Some(OutputsOverlap) ==> !OutputsApart(u, outputs)
    ensures r == Some(InputOverlap) ==> !InputsApart(u, inputs, outputs)
  {
    hide ValidBinding, Overlap, Distinct, SetOf;
    var ports, keys, ids := {}, {}, {};
    var paths: seq<string> := [];
    NothingYet(outputs);
    for i := 0 to |outputs|
      invariant ValidInputs(u, outputs[..i])
      invariant SetOf(ports, Ports(outputs[..i])) && (artifactSet || Distinct(Ports(outputs[..i])))
      invariant SetOf(keys, Keys(outputs[..i]))
      invariant SetOf(ids, Ids(outputs[..i])) && Distinct(Ids(outputs[..i]))
      invariant paths == PathsOf(outputs[..i])
      invariant OutputsApart(u, outputs[..i]) && InputsApart(u, inputs, outputs[..i])
    {
      var binding := outputs[i];
      if !ValidBinding(u, binding) {
        return Some(BadBinding);
      }
      KeysOneMore(outputs, i);
      SetDecides(ports, Ports(outputs), i);
      if binding.port in ports && !artifactSet {
        return Some(RepeatedPort);
      }
      ports := ports + {binding.port};
      SetDecides(keys, Keys(outputs), i);
      if Key(binding) in keys {
        SameKeySameId(outputs);
        return Some(RepeatedOutput);
      }
      keys := keys + {Key(binding)};
      SetDecides(ids, Ids(outputs), i);
      if binding.artifactId in ids {
        return Some(RepeatedOutput);
      }
      ids := ids + {binding.artifactId};
      if exists k :: 0 <= k < |paths| && Overlap(u, paths[k], binding.path) {
        return Some(OutputsOverlap);
      }
      if exists k :: 0 <= k < |inputPaths| && Overlap(u, inputPaths[k], binding.path) {
        return Some(InputOverlap);
      }
      assert forall k :: 0 <= k < i ==> outputs[k].path == paths[k];
      assert forall k :: 0 <= k < |inputs| ==> inputs[k].path == inputPaths[k];
      ApartOneMore(u, inputs, outputs, i);
      paths := paths + [binding.path];
    }
    assert outputs[..|outputs|] == outputs;
    return None;
  }

  lemma NothingYet(bindings: seq<Binding>)
    ensures SetOf({}, Ports(bindings[..0])) && SetOf({}, Keys(bindings[..0])) && SetOf({}, Ids(bindings[..0]))
    ensures Distinct(Ports(bindings[..0])) && Distinct(Keys(bindings[..0])) && Distinct(Ids(bindings[..0]))
  {
  }

  lemma KeysOneMore(bindings: seq<Binding>, i: nat)
    requires i < |bindings|
    ensures Keys(bindings[..i]) == Keys(bindings)[..i] && Keys(bindings[..i + 1]) == Keys(bindings)[..i + 1]
    ensures Ports(bindings[..i]) == Ports(bindings)[..i] && Ports(bindings[..i + 1]) == Ports(bindings)[..i + 1]
    ensures Ids(bindings[..i]) == Ids(bindings)[..i] && Ids(bindings[..i + 1]) == Ids(bindings)[..i + 1]
    ensures Keys(bindings[..i + 1]) == Keys(bindings[..i]) + [Key(bindings[i])]
  {
  }

  lemma SameKeySameId(bindings: seq<Binding>)
    ensures Distinct(Ids(bindings)) ==> Distinct(Keys(bindings))
  {
    if Distinct(Ids(bindings)) {
      forall i, j | 0 <= i < j < |bindings| ensures Keys(bindings)[i] != Keys(bindings)[j] {
        assert Ids(bindings)[i] != Ids(bindings)[j];
      }
    }
  }

  lemma ApartOneMore(u: Unicode, inputs: seq<Binding>, outputs: seq<Binding>, i: nat)
    requires i < |outputs| && OutputsApart(u, outputs[..i]) && InputsApart(u, inputs, outputs[..i])
    requires forall k :: 0 <= k < i ==> !Overlap(u, outputs[k].path, outputs[i].path)
    requires forall k :: 0 <= k < |inputs| ==> !Overlap(u, inputs[k].path, outputs[i].path)
    ensures OutputsApart(u, outputs[..i + 1]) && InputsApart(u, inputs, outputs[..i + 1])
  {
    hide Overlap;
    var longer, shorter := outputs[..i + 1], outputs[..i];
    forall a, b | 0 <= a < b < |longer| ensures !Overlap(u, longer[a].path, longer[b].path) {
      if b < i {
        assert longer[a] == shorter[a] && longer[b] == shorter[b];
      }
    }
    forall a, k | 0 <= a < |longer| && 0 <= k < |inputs| ensures !Overlap(u, inputs[k].path, longer[a].path) {
      if a < i {
        assert longer[a] == shorter[a];
      }
    }
  }

  // ---------------------------------------------------------------- tree separation

  /** A path at or below a base, as a file system that ignores case sees it. */
  predicate Under(u: Unicode, path: string, base: string) {
    Folded(u, base) <= Folded(u, path)
  }

  /** Overlap is exactly a shared path between the two trees. */
  lemma OverlapIsSharedPath(u: Unicode, left: string, right: string)
    ensures Overlap(u, left, right) <==> exists path :: Under(u, path, left) && Under(u, path, right)
  {
    hide Folded;
    if Folded(u, left) <= Folded(u, right) {
      assert Under(u, right, left) && Under(u, right, right);
    } else if Folded(u, right) <= Folded(u, left) {
      assert Under(u, left, left) && Under(u, left, right);
    }
    forall path | Under(u, path, left) && Under(u, path, right) ensures Overlap(u, left, right) {
      PrefixesCompare(Folded(u, left), Folded(u, right), Folded(u, path));
    }
  }

  lemma PrefixesCompare<T>(a: seq<T>, b: seq<T>, whole: seq<T>)
    requires a <= whole && b <= whole
    ensures a <= b || b <= a
  {
    if |a| <= |b| {
      assert a == whole[..|a|] == b[..|a|];
    } else {
      assert b == whole[..|b|] == a[..|b|];
    }
  }

  /** No two outputs, and no output and input, both own this path. */
  predicate SeparateAt(u: Unicode, inputs: seq<Binding>, outputs: seq<Binding>, path: string) {
    && (forall i, j :: 0 <= i < j < |outputs| ==>
          !(Under(u, path, outputs[i].path) && Under(u, path, outputs[j].path)))
    && (forall i, k :: 0 <= i < |outputs| && 0 <= k < |inputs| ==>
          !(Under(u, path, inputs[k].path) && Under(u, path, outputs[i].path)))
  }

  /** What the pairwise checks decide: they pass if and only if no path whatever lies in
      two output trees, or in an output tree and an input tree. */
  lemma TreesAreSeparate(u: Unicode, inputs: seq<Binding>, outputs: seq<Binding>)
    ensures OutputsApart(u, outputs) && InputsApart(u, inputs, outputs) <==>
      forall path :: SeparateAt(u, inputs, outputs, path)
  {
    hide Under, Overlap;
    if OutputsApart(u, outputs) && InputsApart(u, inputs, outputs) {
      forall path ensures SeparateAt(u, inputs, outputs, path) {
        ApartSeparates(u, inputs, outputs, path);
      }
    }
    if !OutputsApart(u, outputs) {
      var i, j :| 0 <= i < j < |outputs| && Overlap(u, outputs[i].path, outputs[j].path);
      OverlapIsSharedPath(u, outputs[i].path, outputs[j].path);
      var path :| Under(u, path, outputs[i].path) && Under(u, path, outputs[j].path);
      assert !SeparateAt(u, inputs, outputs, path);
    }
    if !InputsApart(u, inputs, outputs) {
      var i, k :| 0 <= i < |outputs| && 0 <= k < |inputs| && Overlap(u, inputs[k].path, outputs[i].path);
      OverlapIsSharedPath(u, inputs[k].path, outputs[i].path);
      var path :| Under(u, path, inputs[k].path) && Under(u, path, outputs[i].path);
      assert !SeparateAt(u, inputs, outputs, path);
    }
  }

  lemma ApartSeparates(u: Unicode, inputs: seq<Binding>, outputs: seq<Binding>, path: string)
    requires OutputsApart(u, outputs) && InputsApart(u, inputs, outputs)
    ensures SeparateAt(u, inputs, outputs, path)
  {
    hide Under, Overlap;
    forall i, j | 0 <= i < j < |outputs|
      ensures !(Under(u, path, outputs[i].path) && Under(u, path, outputs[j].path))
    {
      OverlapIsSharedPath(u, outputs[i].path, outputs[j].path);
    }
    forall i, k | 0 <= i < |outputs| && 0 <= k < |inputs|
      ensures !(Under(u, path, inputs[k].path) && Under(u, path, outputs[i].path))
    {
      OverlapIsSharedPath(u, inputs[k].path, outputs[i].path);
    }
  }

  /** Joining paths as text joins their names. */
  lemma {:induction false} JoinNames(current: string, a: string, b: string)
    ensures NamesFrom(current, a + "/" + b) == NamesFrom(current, a) + NamesFrom("", b)
    decreases |a|
  {
    var joined := a + "/" + b;
    if a == "" {
      assert joined[0] == '/' && joined[1..] == b;
    } else {
      assert joined[0] == a[0] && joined[1..] == a[1..] + "/" + b;
      if a[0] == '/' {
        JoinNames("", a[1..], b);
      } else {
        JoinNames(current + [a[0]], a[1..], b);
      }
    }
  }

  predicate NoSeparator(name: string) {
    forall i :: 0 <= i < |name| ==> name[i] != '/'
  }

  lemma {:induction false} OneName(current: string, name: string)
    requires NoSeparator(name)
    ensures NamesFrom(current, name) == Name(current + name)
    decreases |name|
  {
    if name != "" {
      OneName(current + [name[0]], name[1..]);
      assert current + [name[0]] + name[1..] == current + name;
    } else {
      assert current + name == current;
    }
  }

  /** What a path is made of: its names between separators, without empty ones and single dots. */
  lemma NamesBetween(name: string, rest: string)
    requires NoSeparator(name)
    ensures NamesFrom("", name) == if name in {"", "."} then [] else [name]
    ensures NamesFrom("", name + "/" + rest) == (if name in {"", "."} then [] else [name]) + NamesFrom("", rest)
  {
    OneName("", name);
    assert "" + name == name;
    JoinNames("", name, rest);
  }

  /** Where a walk along names ends: two dots lead back, but not above the root. */
  function Resolve(done: seq<string>, names: seq<string>): seq<string>
    decreases |names|
  {
    if names == [] then done
    else if names[0] != ".." then Resolve(done + [names[0]], names[1..])
    else Resolve(if |done| <= 1 then done else done[..|done| - 1], names[1..])
  }

  /** A walk that starts `depth` names below a directory and never leaves it. */
  predicate StaysBelow(names: seq<string>, depth: nat)
    decreases |names|
  {
    || names == []
    || (names[0] != ".." && StaysBelow(names[1..], depth + 1))
    || (names[0] == ".." && depth > 0 && StaysBelow(names[1..], depth - 1))
  }

  /** The file that a path names, as a file system that ignores case sees it. */
  function FileOf(u: Unicode, path: string): seq<string> {
    Lowered(u, Resolve([], Components(path)))
  }

  lemma {:induction false} ResolveForward(done: seq<string>, names: seq<string>, more: seq<string>)
    requires ".." !in names
    ensures Resolve(done, names + more) == Resolve(done + names, more)
    decreases |names|
  {
    if names == [] {
      assert names + more == more && done + names == done;
    } else {
      assert (names + more)[0] == names[0] && (names + more)[1..] == names[1..] + more;
      ResolveForward(done + [names[0]], names[1..], more);
      assert done + [names[0]] + names[1..] == done + names;
    }
  }

  lemma {:induction false} ResolveStays(base: seq<string>, done: seq<string>, names: seq<string>)
    requires base != [] && base <= done && StaysBelow(names, |done| - |base|)
    ensures base <= Resolve(done, names)
    decreases |names|
  {
    if names != [] {
      ResolveStays(base, if names[0] != ".." then done + [names[0]] else done[..|done| - 1], names[1..]);
    }
  }

  /** Whatever is joined below a validated base and does not climb above it, in any spelling,
      names a file of the base's tree. */
  lemma JoinedStaysUnder(u: Unicode, base: string, rest: string)
    requires NormalizedPath(u, base) && StaysBelow(NamesFrom("", rest), 0)
    ensures Folded(u, base) <= FileOf(u, base + "/" + rest)
    ensures FileOf(u, base) == Folded(u, base)
  {
    var names := NamesFrom("", rest);
    JoinNames("", base, rest);
    assert Components(base + "/" + rest) == Components(base) + names;
    ResolveForward([], Components(base), names);
    ResolveForward([], Components(base), []);
    assert Components(base) + [] == Components(base) && [] + Components(base) == Components(base);
    ResolveStays(Components(base), Components(base), names);
  }

  /** A provider that writes below its outputs can neither reach another output nor an
      input: no file named below one is a file named below the other. */
  lemma WritesStayApart(u: Unicode, q: Request, i: nat, rest: string, other: string)
    requires ValidRequest(u, q) && i < |q.outputs|
    requires StaysBelow(NamesFrom("", rest), 0) && StaysBelow(NamesFrom("", other), 0)
    ensures forall j :: 0 <= j < |q.outputs| && j != i ==>
      FileOf(u, q.outputs[i].path + "/" + rest) != FileOf(u, q.outputs[j].path + "/" + other)
    ensures forall k :: 0 <= k < |q.inputs| ==>
      FileOf(u, q.outputs[i].path + "/" + rest) != FileOf(u, q.inputs[k].path + "/" + other)
      && FileOf(u, q.outputs[i].path + "/" + rest) != FileOf(u, q.inputs[k].path)
  {
    var written := q.outputs[i].path + "/" + rest;
    assert forall b :: b in q.outputs || b in q.inputs ==> ValidBinding(u, b);
    assert OutputsApart(u, q.outputs) && InputsApart(u, q.inputs, q.outputs);
    hide Folded, FileOf, OutputsApart, InputsApart, StaysBelow;
    assert q.outputs[i] in q.outputs;
    JoinedStaysUnder(u, q.outputs[i].path, rest);
    forall j | 0 <= j < |q.outputs| && j != i
      ensures FileOf(u, written) != FileOf(u, q.outputs[j].path + "/" + other)
    {
      assert q.outputs[j] in q.outputs;
      JoinedStaysUnder(u, q.outputs[j].path, other);
      OutputsDiffer(u, q.outputs, i, j, FileOf(u, written));
    }
    forall k | 0 <= k < |q.inputs|
      ensures FileOf(u, written) != FileOf(u, q.inputs[k].path + "/" + other)
      ensures FileOf(u, written) != FileOf(u, q.inputs[k].path)
    {
      assert q.inputs[k] in q.inputs;
      JoinedStaysUnder(u, q.inputs[k].path, other);
      InputDiffers(u, q.inputs, q.outputs, i, k, FileOf(u, written));
    }
  }

  lemma OutputsDiffer(u: Unicode, outputs: seq<Binding>, i: nat, j: nat, file: seq<string>)
    requires OutputsApart(u, outputs) && i < |outputs| && j < |outputs| && i != j
    ensures !(Folded(u, outputs[i].path) <= file && Folded(u, outputs[j].path) <= file)
  {
    hide Folded;
    var a, b := if i < j then i else j, if i < j then j else i;
    assert !Overlap(u, outputs[a].path, outputs[b].path);
    if Folded(u, outputs[a].path) <= file && Folded(u, outputs[b].path) <= file {
      PrefixesCompare(Folded(u, outputs[a].path), Folded(u, outputs[b].path), file);
    }
  }

  lemma InputDiffers(u: Unicode, inputs: seq<Binding>, outputs: seq<Binding>, i: nat, k: nat, file: seq<string>)
    requires InputsApart(u, inputs, outputs) && i < |outputs| && k < |inputs|
    ensures !(Folded(u, outputs[i].path) <= file && Folded(u, inputs[k].path) <= file)
  {
    hide Folded;
    assert !Overlap(u, inputs[k].path, outputs[i].path);
    if Folded(u, outputs[i].path) <= file && Folded(u, inputs[k].path) <= file {
      PrefixesCompare(Folded(u, outputs[i].path), Folded(u, inputs[k].path), file);
    }
  }
}
