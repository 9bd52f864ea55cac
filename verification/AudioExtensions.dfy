/** `validate_extensions` of src/audio_analysis.rs: an explicit-stack walk over JSON values,
    bounded in nodes and depth, whatever node is taken next. */
module AudioExtensions {
  import opened Text

  const MAXIMUM_ITEMS := 10_000
  const MAXIMUM_DEPTH := 32

  datatype Json =
    | Scalar
    | Array(items: seq<Json>)
    | Object(keys: seq<string>, values: seq<Json>)

  // ---------------------------------------------------------- recursive definitions

  function Children(v: Json): seq<Json> {
    match v
    case Scalar => []
    case Array(items) => items
    case Object(_, values) => values
  }

  /** How many nodes a value has. */
  function Size(v: Json): (n: nat)
    ensures n >= 1
    decreases v, 1
  {
    match v
    case Scalar => 1
    case Array(items) => 1 + SizeAll(items)
    case Object(_, values) => 1 + SizeAll(values)
  }

  function SizeAll(vs: seq<Json>): nat
    decreases vs, 0
  {
    if vs == [] then 0 else Size(vs[0]) + SizeAll(vs[1..])
  }

  /** No node lies more than `levels` below the value. */
  predicate NoDeeper(v: Json, levels: int)
    decreases v, 1
  {
    && levels >= 0
    && match v
       case Scalar => true
       case Array(items) => NoneDeeper(items, levels - 1)
       case Object(_, values) => NoneDeeper(values, levels - 1)
  }

  predicate NoneDeeper(vs: seq<Json>, levels: int)
    decreases vs, 0
  {
    vs == [] || (NoDeeper(vs[0], levels) && NoneDeeper(vs[1..], levels))
  }

  // -------------------------------------------------------------------------- stack

  /** A node still to be visited, with its depth. */
  datatype Visit = Visit(value: Json, depth: nat)

  function AtDepth(vs: seq<Json>, depth: nat): seq<Visit> {
    seq(|vs|, i requires 0 <= i < |vs| => Visit(vs[i], depth))
  }

  function StackSize(stack: seq<Visit>): nat {
    if stack == [] then 0 else Size(stack[0].value) + StackSize(stack[1..])
  }

  predicate StackShallow(stack: seq<Visit>) {
    forall i :: 0 <= i < |stack| ==> NoDeeper(stack[i].value, MAXIMUM_DEPTH - stack[i].depth)
  }

  /** Replace the visit at `i` by its children. */
  function Expand(stack: seq<Visit>, i: nat): seq<Visit>
    requires i < |stack|
  {
    stack[..i] + stack[i + 1..] + AtDepth(Children(stack[i].value), stack[i].depth + 1)
  }

  lemma {:induction false} StackSizeJoins(front: seq<Visit>, back: seq<Visit>)
    ensures StackSize(front + back) == StackSize(front) + StackSize(back)
    decreases |front|
  {
    if front == [] {
      assert front + back == back;
    } else {
      assert (front + back)[1..] == front[1..] + back;
      StackSizeJoins(front[1..], back);
    }
  }

  lemma {:induction false} SizeAtDepth(vs: seq<Json>, depth: nat)
    ensures StackSize(AtDepth(vs, depth)) == SizeAll(vs)
    decreases |vs|
  {
    if vs != [] {
      assert AtDepth(vs, depth)[1..] == AtDepth(vs[1..], depth);
      SizeAtDepth(vs[1..], depth);
    }
  }

  lemma {:induction false} NoneDeeperMeans(vs: seq<Json>, levels: int)
    ensures NoneDeeper(vs, levels) <==> forall i :: 0 <= i < |vs| ==> NoDeeper(vs[i], levels)
    decreases |vs|
  {
    if vs != [] {
      NoneDeeperMeans(vs[1..], levels);
      assert forall i :: 1 <= i < |vs| ==> vs[i] == vs[1..][i - 1];
    }
  }

  /** Expanding a visit removes exactly one node. */
  lemma ExpandSize(stack: seq<Visit>, i: nat)
    requires i < |stack|
    ensures StackSize(stack) == 1 + StackSize(Expand(stack, i))
  {
    hide StackSize, Size, SizeAll, AtDepth, Children;
    var v, front, back := stack[i], stack[..i], stack[i + 1..];
    var children := AtDepth(Children(v.value), v.depth + 1);
    assert stack == front + ([v] + back);
    StackSizeJoins(front, [v] + back);
    StackSizeJoins([v], back);
    StackSizeJoins(front + back, children);
    StackSizeJoins(front, back);
    SizeAtDepth(Children(v.value), v.depth + 1);
    SingleSize(v);
  }

  lemma SingleSize(v: Visit)
    ensures StackSize([v]) == 1 + SizeAll(Children(v.value))
  {
    assert [v][1..] == [];
  }

  lemma ShallowJoins(front: seq<Visit>, back: seq<Visit>)
    ensures StackShallow(front + back) <==> StackShallow(front) && StackShallow(back)
  {
    hide NoDeeper;
    var whole := front + back;
    assert forall k :: 0 <= k < |front| ==> whole[k] == front[k];
    assert forall k :: 0 <= k < |back| ==> whole[|front| + k] == back[k];
  }

  lemma ShallowAtDepth(vs: seq<Json>, depth: nat)
    ensures StackShallow(AtDepth(vs, depth)) <==> NoneDeeper(vs, MAXIMUM_DEPTH - depth)
  {
    NoneDeeperMeans(vs, MAXIMUM_DEPTH - depth);
    hide NoDeeper, NoneDeeper;
    assert forall k :: 0 <= k < |vs| ==> AtDepth(vs, depth)[k] == Visit(vs[k], depth);
  }

  /** Expanding an admitted visit neither hides nor creates a node that is too deep. */
  lemma ExpandShallow(stack: seq<Visit>, i: nat)
    requires i < |stack|
    ensures StackShallow(stack) <==> stack[i].depth <= MAXIMUM_DEPTH && StackShallow(Expand(stack, i))
  {
    var v, children := stack[i], Children(stack[i].value);
    var levels := MAXIMUM_DEPTH - v.depth;
    ChildrenDecide(v.value, levels);
    hide NoDeeper, NoneDeeper;
    assert stack == stack[..i] + ([v] + stack[i + 1..]);
    ShallowJoins(stack[..i], [v] + stack[i + 1..]);
    ShallowJoins([v], stack[i + 1..]);
    ShallowJoins(stack[..i], stack[i + 1..]);
    ShallowJoins(stack[..i] + stack[i + 1..], AtDepth(children, v.depth + 1));
    ShallowAtDepth(children, v.depth + 1);
    assert StackShallow([v]) <==> NoDeeper([v][0].value, levels);
  }

  lemma ChildrenDecide(v: Json, levels: int)
    ensures NoDeeper(v, levels) <==> levels >= 0 && NoneDeeper(Children(v), levels - 1)
  {
  }

  // --------------------------------------------------------------------------- walk

  /** The walk under any policy for choosing the next visit. */
  predicate Walk(pick: seq<Visit> -> nat, stack: seq<Visit>, nodes: nat)
    decreases StackSize(stack)
  {
    if stack == [] then true
    else
      var i := if pick(stack) < |stack| then pick(stack) else |stack| - 1;
      ExpandSize(stack, i);
      nodes + 1 <= MAXIMUM_ITEMS && stack[i].depth <= MAXIMUM_DEPTH && Walk(pick, Expand(stack, i), nodes + 1)
  }

  /** Whatever is popped, the walk accepts exactly when the nodes fit the bound and none
      is too deep. */
  lemma {:induction false} WalkDecides(pick: seq<Visit> -> nat, stack: seq<Visit>, nodes: nat)
    requires nodes <= MAXIMUM_ITEMS
    ensures Walk(pick, stack, nodes) <==> nodes + StackSize(stack) <= MAXIMUM_ITEMS && StackShallow(stack)
    decreases StackSize(stack)
  {
    hide NoDeeper, Expand, StackShallow;
    if stack == [] {
      EmptyIsShallow();
    } else {
      var i := if pick(stack) < |stack| then pick(stack) else |stack| - 1;
      ExpandSize(stack, i);
      ExpandShallow(stack, i);
      if nodes + 1 <= MAXIMUM_ITEMS {
        WalkDecides(pick, Expand(stack, i), nodes + 1);
      }
    }
  }

  lemma EmptyIsShallow()
    ensures StackShallow([])
  {
  }

  // --------------------------------------------------------------------- namespaces

  predicate NamespacePart(part: string) {
    && part != ""
    && 'a' <= part[0] <= 'z'
    && forall i :: 0 <= i < |part| ==> 'a' <= part[i] <= 'z' || '0' <= part[i] <= '9' || part[i] == '-'
  }

  /** A lowercase reverse-domain namespace. */
  predicate ValidNamespace(key: string) {
    && '.' in key
    && |key| <= 256
    && var parts := Split(key, '.');
       forall i :: 0 <= i < |parts| ==> NamespacePart(parts[i])
  }

  datatype Extension = Extension(namespace: string, value: Json)

  function Values(extensions: seq<Extension>): seq<Json> {
    seq(|extensions|, i requires 0 <= i < |extensions| => extensions[i].value)
  }

  /** `validate_extensions`: the last visit is popped, its children are pushed. */
  method ValidateExtensions(extensions: seq<Extension>) returns (ok: bool)
    ensures ok <==>
      && (forall i :: 0 <= i < |extensions| ==> ValidNamespace(extensions[i].namespace))
      && SizeAll(Values(extensions)) <= 10_000
      && (forall i :: 0 <= i < |extensions| ==> NoDeeper(extensions[i].value, 32))
  {
    hide Size, NoDeeper, ValidNamespace;
    var stack: seq<Visit> := [];
    for i := 0 to |extensions|
      invariant stack == AtDepth(Values(extensions)[..i], 0)
      invariant forall j :: 0 <= j < i ==> ValidNamespace(extensions[j].namespace)
    {
      if !ValidNamespace(extensions[i].namespace) {
        return false;
      }
      stack := stack + [Visit(extensions[i].value, 0)];
    }
    assert Values(extensions)[..|extensions|] == Values(extensions);
    SizeAtDepth(Values(extensions), 0);
    ghost var start := stack;
    assert forall i :: 0 <= i < |start| ==> start[i].value == extensions[i].value && start[i].depth == 0;
    var nodes := 0;
    while stack != []
      invariant nodes <= MAXIMUM_ITEMS
      invariant nodes + StackSize(stack) == StackSize(start)
      invariant StackShallow(stack) <==> StackShallow(start)
      decreases StackSize(stack)
    {
      var top := |stack| - 1;
      var visit := stack[top];
      ExpandSize(stack, top);
      ExpandShallow(stack, top);
      assert stack[top + 1..] == [];
      stack := stack[..top];
      nodes := nodes + 1;
      if nodes > MAXIMUM_ITEMS || visit.depth > MAXIMUM_DEPTH {
        return false;
      }
      assert Expand(stack + [visit], top) == stack + AtDepth(Children(visit.value), visit.depth + 1);
      stack := stack + AtDepth(Children(visit.value), visit.depth + 1);
    }
    EmptyIsShallow();
    return true;
  }
}
