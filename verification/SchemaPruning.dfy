/** Pruning `components.schemas` of an OpenAPI document down to what the rest of the document still uses. */
module SchemaPruning {
  import opened Prelude

  const SCHEMA_REF_PREFIX := "#/components/schemas/"
  const SDK_REF_MARKER := "x-sdk-ref"

  /** A parsed JSON value; an object keeps its entries in insertion order. */
  datatype Node = Scalar | Str(text: string) | Arr(items: seq<Node>) | Obj(fields: seq<Field>)

  datatype Field = Field(key: string, value: Node)

  function Get(fields: seq<Field>, key: string): (r: Option<Node>)
    ensures r.Some? ==> Field(key, r.value) in fields
  {
    if fields == [] then None else if fields[0].key == key then Some(fields[0].value) else Get(fields[1..], key)
  }

  function Text(fields: seq<Field>, key: string): Option<string> {
    match Get(fields, key)
    case Some(Str(text)) => Some(text)
    case _ => None
  }

  /** The names an object itself refers to: its `$ref`, when it points at a schema, and its marker. */
  function OwnRefs(fields: seq<Field>): set<string> {
    (match Text(fields, "$ref")
     case Some(ref) => if SCHEMA_REF_PREFIX <= ref then {ref[|SCHEMA_REF_PREFIX|..]} else {}
     case None => {})
    + (match Text(fields, SDK_REF_MARKER)
       case Some(name) => {name}
       case None => {})
  }

  /** No key comes twice, as in every parsed document. */
  ghost predicate DistinctKeys(fields: seq<Field>) {
    forall i, j :: 0 <= i < j < |fields| ==> fields[i].key != fields[j].key
  }

  lemma {:induction false} GetExactly(fields: seq<Field>, key: string, value: Node)
    requires DistinctKeys(fields)
    ensures Get(fields, key) == Some(value) <==> Field(key, value) in fields
  {
    if fields != [] {
      var rest := fields[1..];
      forall i, j | 0 <= i < j < |rest| ensures rest[i].key != rest[j].key {
        assert fields[i + 1].key != fields[j + 1].key;
      }
      GetExactly(rest, key, value);
      assert fields == [fields[0]] + rest;
      if fields[0].key == key && Field(key, value) in fields {
        var i :| 0 <= i < |fields| && fields[i] == Field(key, value);
        assert i == 0;
      }
    }
  }

  /** The record refers to the schema of this name, by `$ref` or by marker. */
  ghost predicate Names(fields: seq<Field>, name: string) {
    || Get(fields, "$ref") == Some(Str("#/components/schemas/" + name))
    || Get(fields, "x-sdk-ref") == Some(Str(name))
  }

  lemma OwnRefsExactly(fields: seq<Field>, name: string)
    ensures name in OwnRefs(fields) <==> Names(fields, name)
  {
    var text := SCHEMA_REF_PREFIX + name;
    assert SCHEMA_REF_PREFIX <= text && text[|SCHEMA_REF_PREFIX|..] == name;
    if Text(fields, "$ref").Some? && SCHEMA_REF_PREFIX <= Text(fields, "$ref").value {
      var ref := Text(fields, "$ref").value;
      assert ref == SCHEMA_REF_PREFIX + ref[|SCHEMA_REF_PREFIX|..];
    }
  }

  /** The names used anywhere in the node, entries called "schemas" left out. */
  ghost function Refs(node: Node): set<string>
    decreases node
  {
    match node
    case Arr(items) => RefsOfItems(items)
    case Obj(fields) => OwnRefs(fields) + RefsOfFields(fields)
    case _ => {}
  }

  ghost function RefsOfItems(items: seq<Node>): set<string>
    decreases items
  {
    if items == [] then {} else RefsOfItems(items[..|items| - 1]) + Refs(items[|items| - 1])
  }

  ghost function RefsOfFields(fields: seq<Field>): set<string>
    decreases fields
  {
    if fields == [] then {}
    else
      var last := fields[|fields| - 1];
      RefsOfFields(fields[..|fields| - 1]) + (if last.key == "schemas" then {} else Refs(last.value))
  }

  lemma {:induction false} InItems(items: seq<Node>, name: string)
    ensures name in RefsOfItems(items) <==> exists i :: 0 <= i < |items| && name in Refs(items[i])
  {
    if items != [] {
      var n := |items| - 1;
      InItems(items[..n], name);
      assert forall i | 0 <= i < n :: items[..n][i] == items[i];
    }
  }

  lemma {:induction false} InFields(fields: seq<Field>, name: string)
    ensures name in RefsOfFields(fields) <==>
              exists i :: 0 <= i < |fields| && fields[i].key != "schemas" && name in Refs(fields[i].value)
  {
    if fields != [] {
      var n := |fields| - 1;
      InFields(fields[..n], name);
      assert forall i | 0 <= i < n :: fields[..n][i] == fields[i];
    }
  }

  // ---- The same by paths through the document ----

  ghost predicate RefAt(node: Node, path: seq<nat>, name: string)
    decreases path
  {
    if path == [] then node.Obj? && Names(node.fields, name)
    else match node
      case Arr(items) => path[0] < |items| && RefAt(items[path[0]], path[1..], name)
      case Obj(fields) =>
        path[0] < |fields| && fields[path[0]].key != "schemas" && RefAt(fields[path[0]].value, path[1..], name)
      case _ => false
  }

  lemma {:induction false} PathIsRef(node: Node, path: seq<nat>, name: string)
    requires RefAt(node, path, name)
    ensures name in Refs(node)
    decreases path
  {
    if path == [] {
      OwnRefsExactly(node.fields, name);
    } else {
      match node
      case Arr(items) =>
        PathIsRef(items[path[0]], path[1..], name);
        InItems(items, name);
      case Obj(fields) =>
        PathIsRef(fields[path[0]].value, path[1..], name);
        InFields(fields, name);
    }
  }

  lemma {:induction false} RefHasPath(node: Node, name: string) returns (path: seq<nat>)
    requires name in Refs(node)
    ensures RefAt(node, path, name)
    decreases node
  {
    if node.Arr? {
      InItems(node.items, name);
      var i :| 0 <= i < |node.items| && name in Refs(node.items[i]);
      var rest := RefHasPath(node.items[i], name);
      path := [i] + rest;
    } else if name in OwnRefs(node.fields) {
      OwnRefsExactly(node.fields, name);
      path := [];
    } else {
      InFields(node.fields, name);
      var i :| 0 <= i < |node.fields| && node.fields[i].key != "schemas" && name in Refs(node.fields[i].value);
      var rest := RefHasPath(node.fields[i].value, name);
      path := [i] + rest;
    }
  }

  ghost predicate Used(node: Node, name: string) {
    exists path: seq<nat> :: RefAt(node, path, name)
  }

  /** A name is collected exactly when some path that never enters a "schemas" entry ends at a reference to it. */
  lemma CollectedExactly(node: Node, name: string)
    ensures name in Refs(node) <==> Used(node, name)
  {
    if Used(node, name) {
      var path: seq<nat> :| RefAt(node, path, name);
      PathIsRef(node, path, name);
    }
    if name in Refs(node) {
      var path := RefHasPath(node, name);
    }
  }

  // ---- Collecting ----

  /** A set that remembers insertion order. */
  class NameSet {
    var names: seq<string>

    constructor ()
      ensures names == []
    {
      names := [];
    }

    method Add(name: string)
      modifies this
      ensures names == if name in old(names) then old(names) else old(names) + [name]
    {
      if name !in names {
        names := names + [name];
      }
    }
  }

  /** The two references a record can make itself. */
  method VisitRecord(fields: seq<Field>, refs: NameSet)
    modifies refs
    ensures Elements(refs.names) == Elements(old(refs.names)) + OwnRefs(fields)
    ensures forall name :: name in refs.names <==> name in old(refs.names) || Names(fields, name)
  {
    forall name ensures name in OwnRefs(fields) <==> Names(fields, name) {
      OwnRefsExactly(fields, name);
    }
    var ref := Text(fields, "$ref");
    if ref.Some? && SCHEMA_REF_PREFIX <= ref.value {
      refs.Add(ref.value[|SCHEMA_REF_PREFIX|..]);
    }
    var marker := Text(fields, SDK_REF_MARKER);
    if marker.Some? {
      refs.Add(marker.value);
    }
  }

  /** Adds exactly the names the node uses. */
  method Visit(node: Node, refs: NameSet)
    modifies refs
    ensures Elements(refs.names) == Elements(old(refs.names)) + Refs(node)
    ensures forall name :: name in refs.names <==> name in old(refs.names) || Used(node, name)
    decreases node
  {
    forall name ensures name in Refs(node) <==> Used(node, name) {
      CollectedExactly(node, name);
    }
    match node
    case Scalar =>
    case Str(_) =>
    case Arr(items) =>
      for i := 0 to |items|
        invariant Elements(refs.names) == Elements(old(refs.names)) + RefsOfItems(items[..i])
      {
        assert items[..i + 1][..i] == items[..i];
        Visit(items[i], refs);
      }
      assert items[..|items|] == items;
    case Obj(fields) =>
      VisitRecord(fields, refs);
      ghost var own := Elements(refs.names);
      for i := 0 to |fields|
        invariant Elements(refs.names) == own + RefsOfFields(fields[..i])
      {
        assert fields[..i + 1][..i] == fields[..i];
        if fields[i].key == "schemas" {
          continue;
        }
        Visit(fields[i].value, refs);
      }
      assert fields[..|fields|] == fields;
  }

  method CollectSchemaRefs(root: Node) returns (refs: NameSet)
    ensures fresh(refs) && Elements(refs.names) == Refs(root)
  {
    refs := new NameSet();
    Visit(root, refs);
  }

  // ---- Reachability ----

  type Schemas = map<string, Node>

  ghost predicate Edge(schemas: Schemas, from: string, to: string) {
    from in schemas && to in Refs(schemas[from])
  }

  ghost predicate Chain(schemas: Schemas, path: seq<string>) {
    path != [] && forall i :: 0 <= i < |path| - 1 ==> Edge(schemas, path[i], path[i + 1])
  }

  /** Some chain of references leads from a seed name to this one. */
  ghost predicate Reachable(schemas: Schemas, seed: set<string>, name: string) {
    exists path :: Chain(schemas, path) && path[0] in seed && path[|path| - 1] == name
  }

  lemma SeedIsReachable(schemas: Schemas, seed: set<string>, name: string)
    requires name in seed
    ensures Reachable(schemas, seed, name)
  {
    assert Chain(schemas, [name]);
  }

  lemma EdgeExtends(schemas: Schemas, seed: set<string>, from: string, to: string)
    requires Reachable(schemas, seed, from) && Edge(schemas, from, to)
    ensures Reachable(schemas, seed, to)
  {
    var path :| Chain(schemas, path) && path[0] in seed && path[|path| - 1] == from;
    assert Chain(schemas, path + [to]);
    assert (path + [to])[0] in seed;
  }

  ghost predicate Closed(schemas: Schemas, names: set<string>) {
    forall from, to :: from in names && Edge(schemas, from, to) ==> to in names
  }

  /** Reachability is the least closed set around the seeds. */
  lemma ReachableIsLeast(schemas: Schemas, seed: set<string>, names: set<string>, name: string)
    requires seed <= names && Closed(schemas, names) && Reachable(schemas, seed, name)
    ensures name in names
  {
    var path :| Chain(schemas, path) && path[0] in seed && path[|path| - 1] == name;
    ChainStaysInside(schemas, names, path, |path| - 1);
  }

  lemma {:induction false} ChainStaysInside(schemas: Schemas, names: set<string>, path: seq<string>, k: nat)
    requires Closed(schemas, names) && Chain(schemas, path) && path[0] in names && k < |path|
    ensures path[k] in names
  {
    if k > 0 {
      ChainStaysInside(schemas, names, path, k - 1);
      assert Edge(schemas, path[k - 1], path[k]);
    }
  }

  ghost function Mentioned(schemas: Schemas): set<string> {
    set n, r | n in schemas && r in Refs(schemas[n]) :: r
  }

  ghost predicate AllReachable(schemas: Schemas, seed: set<string>, names: seq<string>) {
    forall name :: name in names ==> Reachable(schemas, seed, name)
  }

  /** Every name outside the open ones has its references among the names. */
  ghost predicate ClosedBut(schemas: Schemas, names: seq<string>, open: seq<string>) {
    forall from, to :: from in names && from !in open && Edge(schemas, from, to) ==> to in names
  }

  /** Adds to the seeds exactly the names reachable from them. */
  method ExpandReachableFrontier(schemas: Schemas, reachability: NameSet)
    modifies reachability
    ensures forall name :: name in reachability.names <==> Reachable(schemas, Elements(old(reachability.names)), name)
  {
    ghost var seed := Elements(reachability.names);
    ghost var universe := seed + Mentioned(schemas);
    var frontier := reachability.names;
    forall name | name in reachability.names ensures Reachable(schemas, seed, name) {
      SeedIsReachable(schemas, seed, name);
    }
    while frontier != []
      invariant seed <= Elements(reachability.names) <= universe
      invariant Elements(frontier) <= Elements(reachability.names)
      invariant AllReachable(schemas, seed, reachability.names)
      invariant ClosedBut(schemas, reachability.names, frontier)
      decreases universe - Elements(reachability.names), |frontier|
    {
      ghost var before := reachability.names;
      var next: seq<string> := [];
      for i := 0 to |frontier|
        invariant seed <= Elements(reachability.names) <= universe
        invariant Elements(before) <= Elements(reachability.names)
        invariant Elements(next) <= Elements(reachability.names)
        invariant AllReachable(schemas, seed, reachability.names)
        invariant ClosedBut(schemas, reachability.names, frontier[i..] + next)
        invariant next != [] ==> exists n :: n in reachability.names && n !in before
      {
        next := ExpandOne(schemas, reachability, seed, frontier, i, next);
      }
      assert frontier[|frontier|..] + next == next;
      if next == [] {
        assert universe - Elements(reachability.names) <= universe - Elements(before);
      } else {
        ghost var n :| n in reachability.names && n !in before;
        assert n in universe - Elements(before);
      }
      frontier := next;
    }
    forall name | Reachable(schemas, seed, name) ensures name in reachability.names {
      ReachableIsLeast(schemas, seed, Elements(reachability.names), name);
    }
  }

  /** The loop body for one name of the frontier: its references join, the new ones for the next round. */
  method ExpandOne(schemas: Schemas, reachability: NameSet, ghost seed: set<string>, frontier: seq<string>, i: nat,
                   next: seq<string>) returns (next': seq<string>)
    requires i < |frontier| && frontier[i] in reachability.names
    requires Elements(next) <= Elements(reachability.names)
    requires AllReachable(schemas, seed, reachability.names)
    requires ClosedBut(schemas, reachability.names, frontier[i..] + next)
    modifies reachability
    ensures Elements(old(reachability.names)) <= Elements(reachability.names)
    ensures Elements(reachability.names) <= Elements(old(reachability.names)) + Mentioned(schemas)
    ensures Elements(next') <= Elements(reachability.names)
    ensures next == next' || exists n :: n in reachability.names && n !in old(reachability.names)
    ensures AllReachable(schemas, seed, reachability.names)
    ensures ClosedBut(schemas, reachability.names, frontier[i + 1..] + next')
  {
    var name := frontier[i];
    next' := next;
    assert frontier[i..] == [name] + frontier[i + 1..];
    if name !in schemas {
      return;
    }
    var refs := CollectSchemaRefs(schemas[name]);
    ghost var start := reachability.names;
    next' := AddNew(refs.names, reachability, next);
    OneExpanded(schemas, seed, start, reachability.names, frontier[i + 1..], name, next, next');
  }

  /** The inner loop: every collected name joins, and the ones that are new go to the next round. */
  method AddNew(collected: seq<string>, reachability: NameSet, next: seq<string>) returns (next': seq<string>)
    modifies reachability
    ensures Elements(reachability.names) == Elements(old(reachability.names)) + Elements(collected)
    ensures forall n :: n in next' <==> n in next || (n in collected && n !in old(reachability.names))
    ensures next == next' || exists n :: n in reachability.names && n !in old(reachability.names)
  {
    next' := next;
    for k := 0 to |collected|
      invariant Elements(reachability.names) == Elements(old(reachability.names)) + Elements(collected[..k])
      invariant forall n :: n in next' <==> n in next || (n in collected[..k] && n !in old(reachability.names))
      invariant next == next' || exists n :: n in reachability.names && n !in old(reachability.names)
    {
      var ref := collected[k];
      assert collected[..k + 1] == collected[..k] + [ref];
      if ref !in reachability.names {
        reachability.Add(ref);
        next' := next' + [ref];
      }
    }
    assert collected[..|collected|] == collected;
  }

  lemma OneExpanded(schemas: Schemas, seed: set<string>, start: seq<string>, names: seq<string>, rest: seq<string>,
                    name: string, next: seq<string>, next': seq<string>)
    requires name in schemas && name in start
    requires Elements(names) == Elements(start) + Refs(schemas[name])
    requires forall n :: n in next' <==> n in next || (n in Refs(schemas[name]) && n !in start)
    requires AllReachable(schemas, seed, start)
    requires ClosedBut(schemas, start, [name] + rest + next)
    ensures Elements(names) <= Elements(start) + Mentioned(schemas)
    ensures AllReachable(schemas, seed, names)
    ensures ClosedBut(schemas, names, rest + next')
  {
    forall n | n in names ensures Reachable(schemas, seed, n) && n in Elements(start) + Mentioned(schemas) {
      assert n in Elements(names);
      if n !in start {
        assert Edge(schemas, name, n);
        EdgeExtends(schemas, seed, name, n);
      }
    }
    forall from, to | from in names && from !in rest + next' && Edge(schemas, from, to) ensures to in names {
      assert from in Elements(names);
      if from == name {
        assert to in Refs(schemas[name]);
        assert to in Elements(names);
      } else {
        assert from in start && from !in [name] + rest + next;
        assert to in Elements(start);
        assert to in Elements(names);
      }
    }
  }

  // ---- Pruning ----

  function Kept(schemas: Schemas, names: set<string>): Schemas {
    map name | name in schemas && name in names :: schemas[name]
  }

  lemma KeepOneLess(all: Schemas, pending: set<string>, names: set<string>, name: string)
    requires name in pending && pending <= all.Keys
    ensures name in names ==> pending - {name} + names == pending + names
    ensures name !in names ==>
              && Kept(all, pending + names) - {name} == Kept(all, pending - {name} + names)
              && |all.Keys - (pending - {name} + names)| == |all.Keys - (pending + names)| + 1
  {
    if name !in names {
      assert all.Keys - (pending - {name} + names) == (all.Keys - (pending + names)) + {name};
    }
  }

  lemma KeptCount(all: Schemas, names: set<string>)
    ensures |all.Keys - names| == |all| - |Kept(all, names)|
  {
    assert all.Keys == (all.Keys - names) + Kept(all, names).Keys;
    assert |all.Keys| == |all.Keys - names| + |Kept(all, names).Keys|;
  }

  ghost function Seeds(rest: seq<Field>): set<string> {
    Refs(Obj(rest))
  }

  ghost function Pruned(schemas: Schemas, rest: seq<Field>): Schemas {
    map name | name in schemas && Reachable(schemas, Seeds(rest), name) :: schemas[name]
  }

  lemma KeptIsPruned(all: Schemas, rest: seq<Field>, names: seq<string>)
    requires forall name :: name in names <==> Reachable(all, Seeds(rest), name)
    ensures Kept(all, Elements(names)) == Pruned(all, rest)
    ensures |all.Keys - Elements(names)| == |all| - |Pruned(all, rest)|
  {
    assert forall name :: name in Elements(names) <==> Reachable(all, Seeds(rest), name);
    assert Kept(all, Elements(names)) == Pruned(all, rest);
    KeptCount(all, Elements(names));
  }

  /** The emptied `components` entry adds no reference. */
  lemma SeedRootRefs(rest: seq<Field>)
    ensures Refs(Obj(rest + [Field("components", Obj([]))])) == Seeds(rest)
  {
    var root := rest + [Field("components", Obj([]))];
    assert root[..|root| - 1] == rest;
    GetAppended(rest, Field("components", Obj([])), "$ref");
    GetAppended(rest, Field("components", Obj([])), SDK_REF_MARKER);
    assert RefsOfFields([]) == {} && Refs(Obj([])) == {};
    assert RefsOfFields(root) == RefsOfFields(rest);
  }

  lemma {:induction false} GetAppended(fields: seq<Field>, last: Field, key: string)
    requires last.key != key
    ensures Get(fields + [last], key) == Get(fields, key)
  {
    if fields != [] {
      GetAppended(fields[1..], last, key);
      assert (fields + [last])[1..] == fields[1..] + [last];
    }
  }

  /** The part of the document that pruning reads and changes. */
  class Spec {
    var rest: seq<Field>
    var otherComponents: seq<Field>
    var schemas: Option<Schemas>

    constructor (rest: seq<Field>, otherComponents: seq<Field>, schemas: Option<Schemas>)
      ensures this.rest == rest && this.otherComponents == otherComponents && this.schemas == schemas
    {
      this.rest, this.otherComponents, this.schemas := rest, otherComponents, schemas;
    }

    method DeleteUnreachableSchemas(reachability: NameSet) returns (removed: nat)
      requires schemas.Some?
      modifies this`schemas
      ensures schemas.Some? && schemas.value == Kept(old(schemas).value, Elements(reachability.names))
      ensures removed == |old(schemas).value.Keys - Elements(reachability.names)|
    {
      var pending := schemas.value.Keys;
      ghost var all, names := schemas.value, Elements(reachability.names);
      removed := 0;
      assert Kept(all, pending + names) == all;
      while pending != {}
        invariant pending <= all.Keys
        invariant schemas == Some(Kept(all, pending + names))
        invariant removed == |all.Keys - (pending + names)|
        decreases pending
      {
        var name :| name in pending;
        KeepOneLess(all, pending, names, name);
        pending := pending - {name};
        if name in reachability.names {
          continue;
        }
        schemas := Some(schemas.value - {name});
        removed := removed + 1;
      }
      assert pending + names == names;
    }

    /** Keeps exactly the schemas some chain of references reaches from outside `components`. */
    method PruneOrphanSchemas() returns (removed: nat)
      modifies this`schemas
      ensures old(schemas).None? ==> removed == 0 && schemas == None
      ensures old(schemas).Some? ==>
                && schemas == Some(Pruned(old(schemas).value, rest))
                && removed == |old(schemas).value| - |Pruned(old(schemas).value, rest)|
    {
      if schemas.None? {
        return 0;
      }
      var seedRoot := Obj(rest + [Field("components", Obj([]))]);
      SeedRootRefs(rest);
      var reachability := CollectSchemaRefs(seedRoot);
      ExpandReachableFrontier(schemas.value, reachability);
      KeptIsPruned(schemas.value, rest, reachability.names);
      removed := DeleteUnreachableSchemas(reachability);
    }
  }

  // ---- What pruning keeps ----

  /** A survivor's reference to a schema of the document is to a survivor. */
  lemma SurvivorsAreClosed(schemas: Schemas, rest: seq<Field>, from: string, to: string)
    requires from in Pruned(schemas, rest) && Edge(schemas, from, to)
    ensures to in schemas <==> to in Pruned(schemas, rest)
  {
    EdgeExtends(schemas, Seeds(rest), from, to);
  }

  /** Any selection that contains the seeds and follows its own references contains all survivors. */
  lemma SurvivorsAreLeast(schemas: Schemas, rest: seq<Field>, keep: set<string>)
    requires forall name :: name in Seeds(rest) && name in schemas ==> name in keep
    requires forall from, to :: from in keep && Edge(schemas, from, to) && to in schemas ==> to in keep
    ensures Pruned(schemas, rest).Keys <= keep
  {
    var names := keep + ((Seeds(rest) + Mentioned(schemas)) - schemas.Keys);
    forall name | name in Pruned(schemas, rest) ensures name in keep {
      ReachableIsLeast(schemas, Seeds(rest), names, name);
    }
  }

  lemma {:induction false} ChainSurvives(schemas: Schemas, rest: seq<Field>, path: seq<string>)
    requires Chain(schemas, path) && path[0] in Seeds(rest)
    ensures Chain(Pruned(schemas, rest), path)
  {
    forall i | 0 <= i < |path| - 1 ensures Edge(Pruned(schemas, rest), path[i], path[i + 1]) {
      assert Edge(schemas, path[i], path[i + 1]);
      assert Chain(schemas, path[..i + 1]) by {
        assert forall j | 0 <= j < i :: Edge(schemas, path[j], path[j + 1]);
      }
      assert path[..i + 1][0] in Seeds(rest) && path[..i + 1][|path[..i + 1]| - 1] == path[i];
      assert Reachable(schemas, Seeds(rest), path[i]);
    }
  }

  /** A second pass removes nothing. */
  lemma PruningIsIdempotent(schemas: Schemas, rest: seq<Field>)
    ensures Pruned(Pruned(schemas, rest), rest) == Pruned(schemas, rest)
  {
    var once := Pruned(schemas, rest);
    forall name | name in once ensures Reachable(once, Seeds(rest), name) {
      var path :| Chain(schemas, path) && path[0] in Seeds(rest) && path[|path| - 1] == name;
      ChainSurvives(schemas, rest, path);
    }
  }

  // ---- What it can leave dangling ----

  /** Every reference in the node, entries called "schemas" included. */
  ghost function AllRefs(node: Node): set<string>
    decreases node
  {
    match node
    case Arr(items) => AllRefsOfItems(items)
    case Obj(fields) => OwnRefs(fields) + AllRefsOfFields(fields)
    case _ => {}
  }

  ghost function AllRefsOfItems(items: seq<Node>): set<string>
    decreases items
  {
    if items == [] then {} else AllRefsOfItems(items[..|items| - 1]) + AllRefs(items[|items| - 1])
  }

  ghost function AllRefsOfFields(fields: seq<Field>): set<string>
    decreases fields
  {
    if fields == [] then {} else AllRefsOfFields(fields[..|fields| - 1]) + AllRefs(fields[|fields| - 1].value)
  }

  /** References the collector does not see: those below an entry called "schemas". */
  ghost function Unseen(node: Node): set<string> {
    AllRefs(node) - Refs(node)
  }

  /** The pruned document still refers to this schema, which it no longer holds. */
  ghost predicate Dangling(schemas: Schemas, rest: seq<Field>, otherComponents: seq<Field>, name: string) {
    && name in schemas && name !in Pruned(schemas, rest)
    && (name in AllRefs(Obj(rest)) || name in AllRefs(Obj(otherComponents))
        || exists s :: s in Pruned(schemas, rest) && name in AllRefs(schemas[s]))
  }

  /**
   * Pruning leaves a dangling reference exactly when a schema that nothing collected reaches is referred to from
   * another section of `components`, or from below an entry called "schemas" in what is kept.
   */
  lemma DanglingExactly(schemas: Schemas, rest: seq<Field>, otherComponents: seq<Field>, name: string)
    ensures Dangling(schemas, rest, otherComponents, name) <==>
              && name in schemas && !Reachable(schemas, Seeds(rest), name)
              && (name in Unseen(Obj(rest)) || name in AllRefs(Obj(otherComponents))
                  || exists s :: s in Pruned(schemas, rest) && name in Unseen(schemas[s]))
  {
    if name in schemas && !Reachable(schemas, Seeds(rest), name) {
      assert name !in Refs(Obj(rest)) by {
        if name in Refs(Obj(rest)) {
          SeedIsReachable(schemas, Seeds(rest), name);
        }
      }
      forall s | s in Pruned(schemas, rest) ensures name !in Refs(schemas[s]) {
        if name in Refs(schemas[s]) {
          assert Edge(schemas, s, name);
          SurvivorsAreClosed(schemas, rest, s, name);
        }
      }
    }
  }

  // ---- When the whole document is left whole ----

  lemma {:induction false} SeenInItems(items: seq<Node>)
    ensures RefsOfItems(items) <= AllRefsOfItems(items)
    decreases items
  {
    if items != [] {
      SeenInItems(items[..|items| - 1]);
      SeenIsUsed(items[|items| - 1]);
    }
  }

  lemma {:induction false} SeenInFields(fields: seq<Field>)
    ensures RefsOfFields(fields) <= AllRefsOfFields(fields)
    decreases fields
  {
    if fields != [] {
      SeenInFields(fields[..|fields| - 1]);
      SeenIsUsed(fields[|fields| - 1].value);
    }
  }

  /** What the collector sees in a node is used in it. */
  lemma {:induction false} SeenIsUsed(node: Node)
    ensures Refs(node) <= AllRefs(node)
    decreases node
  {
    match node
    case Scalar =>
    case Str(_) =>
    case Arr(items) => SeenInItems(items);
    case Obj(fields) => SeenInFields(fields);
  }

  ghost predicate AnyEdge(schemas: Schemas, from: string, to: string) {
    from in schemas && to in schemas && to in AllRefs(schemas[from])
  }

  /** A chain of references of any kind through schemas of the document. */
  ghost predicate AnyChain(schemas: Schemas, path: seq<string>) {
    path != [] && path[0] in schemas && forall i :: 0 <= i < |path| - 1 ==> AnyEdge(schemas, path[i], path[i + 1])
  }

  /** References of any kind, from anywhere outside the schemas, lead to this schema. */
  ghost predicate LedTo(schemas: Schemas, rest: seq<Field>, otherComponents: seq<Field>, name: string) {
    exists path :: AnyChain(schemas, path) && path[|path| - 1] == name
                   && (path[0] in AllRefs(Obj(rest)) || path[0] in AllRefs(Obj(otherComponents)))
  }

  lemma LedOn(schemas: Schemas, rest: seq<Field>, otherComponents: seq<Field>, from: string, to: string)
    requires LedTo(schemas, rest, otherComponents, from) && AnyEdge(schemas, from, to)
    ensures LedTo(schemas, rest, otherComponents, to)
  {
    var path :| AnyChain(schemas, path) && path[|path| - 1] == from
                && (path[0] in AllRefs(Obj(rest)) || path[0] in AllRefs(Obj(otherComponents)));
    var longer := path + [to];
    forall i | 0 <= i < |longer| - 1 ensures AnyEdge(schemas, longer[i], longer[i + 1]) {
      assert i < |path| - 1 ==> AnyEdge(schemas, path[i], path[i + 1]);
    }
    assert longer[0] == path[0] && AnyChain(schemas, longer);
  }

  lemma ChainPrefix(schemas: Schemas, path: seq<string>)
    requires Chain(schemas, path) && |path| > 1
    ensures Chain(schemas, path[..|path| - 1])
  {
    var init := path[..|path| - 1];
    forall i | 0 <= i < |init| - 1 ensures Edge(schemas, init[i], init[i + 1]) {
      assert Edge(schemas, path[i], path[i + 1]);
    }
  }

  lemma AnyChainPrefix(schemas: Schemas, path: seq<string>)
    requires AnyChain(schemas, path) && |path| > 1
    ensures AnyChain(schemas, path[..|path| - 1])
  {
    var init := path[..|path| - 1];
    forall i | 0 <= i < |init| - 1 ensures AnyEdge(schemas, init[i], init[i + 1]) {
      assert AnyEdge(schemas, path[i], path[i + 1]);
    }
  }

  /** A survivor is led to: what the collector sees is used. */
  lemma {:induction false} SurvivorIsLedTo(schemas: Schemas, rest: seq<Field>, otherComponents: seq<Field>,
                                           path: seq<string>)
    requires Chain(schemas, path) && path[0] in Seeds(rest) && path[|path| - 1] in schemas
    ensures LedTo(schemas, rest, otherComponents, path[|path| - 1])
  {
    if |path| == 1 {
      SeenIsUsed(Obj(rest));
      assert AnyChain(schemas, path);
    } else {
      var n := |path| - 1;
      assert Edge(schemas, path[n - 1], path[n]);
      ChainPrefix(schemas, path);
      SurvivorIsLedTo(schemas, rest, otherComponents, path[..n]);
      SeenIsUsed(schemas[path[n - 1]]);
      LedOn(schemas, rest, otherComponents, path[n - 1], path[n]);
    }
  }

  /** When nothing dangles, the end of every chain survives. */
  lemma {:induction false} ChainEndSurvives(schemas: Schemas, rest: seq<Field>, otherComponents: seq<Field>,
                                            path: seq<string>)
    requires forall name :: !Dangling(schemas, rest, otherComponents, name)
    requires AnyChain(schemas, path)
    requires path[0] in AllRefs(Obj(rest)) || path[0] in AllRefs(Obj(otherComponents))
    ensures path[|path| - 1] in Pruned(schemas, rest)
  {
    var n := |path| - 1;
    if n > 0 {
      assert AnyEdge(schemas, path[n - 1], path[n]);
      AnyChainPrefix(schemas, path);
      ChainEndSurvives(schemas, rest, otherComponents, path[..n]);
    }
    assert !Dangling(schemas, rest, otherComponents, path[n]);
  }

  /**
   * Pruning leaves no reference dangling exactly when every schema that references of any kind lead to, from
   * anywhere, is also led to from outside `components` by references the collector sees.
   */
  lemma NothingDanglesExactly(schemas: Schemas, rest: seq<Field>, otherComponents: seq<Field>)
    ensures (forall name :: !Dangling(schemas, rest, otherComponents, name)) <==>
              (forall name :: LedTo(schemas, rest, otherComponents, name) ==> Reachable(schemas, Seeds(rest), name))
  {
    if forall name :: !Dangling(schemas, rest, otherComponents, name) {
      forall name | LedTo(schemas, rest, otherComponents, name) ensures Reachable(schemas, Seeds(rest), name) {
        var path :| AnyChain(schemas, path) && path[|path| - 1] == name
                    && (path[0] in AllRefs(Obj(rest)) || path[0] in AllRefs(Obj(otherComponents)));
        ChainEndSurvives(schemas, rest, otherComponents, path);
      }
    }
    forall name | Dangling(schemas, rest, otherComponents, name)
      ensures LedTo(schemas, rest, otherComponents, name) && !Reachable(schemas, Seeds(rest), name)
    {
      DanglingIsLedTo(schemas, rest, otherComponents, name);
    }
  }

  lemma DanglingIsLedTo(schemas: Schemas, rest: seq<Field>, otherComponents: seq<Field>, name: string)
    requires Dangling(schemas, rest, otherComponents, name)
    ensures LedTo(schemas, rest, otherComponents, name) && !Reachable(schemas, Seeds(rest), name)
  {
    if name in AllRefs(Obj(rest)) || name in AllRefs(Obj(otherComponents)) {
      assert AnyChain(schemas, [name]);
    } else {
      var s :| s in Pruned(schemas, rest) && name in AllRefs(schemas[s]);
      var path :| Chain(schemas, path) && path[0] in Seeds(rest) && path[|path| - 1] == s;
      SurvivorIsLedTo(schemas, rest, otherComponents, path);
      LedOn(schemas, rest, otherComponents, s, name);
    }
  }

  // ---- Two documents that are left dangling ----

  function One(key: string, value: Node): Node {
    Obj([Field(key, value)])
  }

  function SchemaRef(name: string): Node {
    One("$ref", Str(SCHEMA_REF_PREFIX + name))
  }

  ghost predicate PlainKey(key: string) {
    key != "$ref" && key != SDK_REF_MARKER
  }

  /** An entry under an ordinary key passes on the references below it. */
  lemma WrapRefs(key: string, value: Node)
    requires PlainKey(key)
    ensures AllRefs(One(key, value)) == AllRefs(value)
    ensures Refs(One(key, value)) == if key == "schemas" then {} else Refs(value)
  {
    var fields := [Field(key, value)];
    assert fields[1..] == [] && fields[..0] == [];
    assert Get(fields, "$ref") == Get([], "$ref") == None;
    assert Get(fields, SDK_REF_MARKER) == Get([], SDK_REF_MARKER) == None;
    assert OwnRefs(fields) == {};
    assert RefsOfFields([]) == {} && AllRefsOfFields([]) == {};
    assert AllRefsOfFields(fields) == AllRefs(value);
  }

  /** A `$ref` refers to a schema or to something else. */
  lemma OneRef(text: string)
    ensures var node, names := One("$ref", Str(text)),
                               if SCHEMA_REF_PREFIX <= text then {text[|SCHEMA_REF_PREFIX|..]} else {};
            Refs(node) == AllRefs(node) == names
  {
    var fields := [Field("$ref", Str(text))];
    assert fields[1..] == [] && fields[..0] == [];
    assert Get(fields, "$ref") == Some(Str(text));
    assert "$ref"[0] != SDK_REF_MARKER[0];
    assert Get(fields, SDK_REF_MARKER) == Get([], SDK_REF_MARKER) == None;
    assert RefsOfFields([]) == {} && AllRefsOfFields([]) == {};
    assert Refs(Str(text)) == {} && AllRefs(Str(text)) == {};
    assert RefsOfFields(fields) == {} && AllRefsOfFields(fields) == {};
  }

  lemma OneSchemaRef(name: string)
    ensures Refs(SchemaRef(name)) == AllRefs(SchemaRef(name)) == {name}
  {
    OneRef(SCHEMA_REF_PREFIX + name);
    assert (SCHEMA_REF_PREFIX + name)[|SCHEMA_REF_PREFIX|..] == name;
  }

  /** The keys of the two documents are ordinary ones. */
  lemma OrdinaryKeys()
    ensures PlainKey("paths") && PlainKey("/bookings") && PlainKey("get") && PlainKey("responses")
    ensures PlainKey("404") && PlainKey("200") && PlainKey("NotFound") && PlainKey("content")
    ensures PlainKey("application/json") && PlainKey("schema") && PlainKey("properties") && PlainKey("type")
    ensures PlainKey("schemas") && "content" != "schemas"
  {
    assert "/bookings"[0] != SDK_REF_MARKER[0] && "responses"[0] != SDK_REF_MARKER[0];
    assert "content"[0] != "schemas"[0] && "type"[0] != "$ref"[0];
  }

  /** A response body in JSON. */
  function JsonBody(schema: Node): Node {
    One("content", One("application/json", One("schema", schema)))
  }

  function Operation(status: string, response: Node): Node {
    One("/bookings", One("get", One("responses", One(status, response))))
  }

  lemma JsonBodyRefs(schema: Node)
    ensures Refs(JsonBody(schema)) == Refs(schema) && AllRefs(JsonBody(schema)) == AllRefs(schema)
  {
    OrdinaryKeys();
    WrapRefs("schema", schema);
    WrapRefs("application/json", One("schema", schema));
    WrapRefs("content", One("application/json", One("schema", schema)));
  }

  lemma OperationRefs(status: string, response: Node)
    requires status == "404" || status == "200"
    ensures var paths := One("paths", Operation(status, response));
            Refs(paths) == Refs(response) && AllRefs(paths) == AllRefs(response)
  {
    OrdinaryKeys();
    WrapRefs(status, response);
    WrapRefs("responses", One(status, response));
    WrapRefs("get", One("responses", One(status, response)));
    WrapRefs("/bookings", One("get", One("responses", One(status, response))));
    WrapRefs("paths", Operation(status, response));
  }

  const ObjectSchema := One("type", Str("object"))

  /** An operation answers 404 with the shared response NotFound, whose body is the schema Problem. */
  const SharedResponse := [Field("paths", Operation("404", One("$ref", Str("#/components/responses/NotFound"))))]

  const SharedResponses := [Field("responses", One("NotFound", JsonBody(SchemaRef("Problem"))))]

  lemma SharedResponseDangles()
    ensures Dangling(map["Problem" := ObjectSchema], SharedResponse, SharedResponses, "Problem")
  {
    OrdinaryKeys();
    var text := "#/components/responses/NotFound";
    assert SCHEMA_REF_PREFIX[13] == 's' && text[13] == 'r';
    OneRef(text);
    OperationRefs("404", One("$ref", Str(text)));
    assert Seeds(SharedResponse) == {};
    OneSchemaRef("Problem");
    JsonBodyRefs(SchemaRef("Problem"));
    WrapRefs("NotFound", JsonBody(SchemaRef("Problem")));
    WrapRefs("responses", One("NotFound", JsonBody(SchemaRef("Problem"))));
    assert "Problem" in AllRefs(Obj(SharedResponses));
    forall name ensures !Reachable(map["Problem" := ObjectSchema], {}, name) {
    }
  }

  /** An operation answers with the schema Catalog, which has a property called "schemas" of type Item. */
  const CatalogPaths := [Field("paths", Operation("200", JsonBody(SchemaRef("Catalog"))))]

  const CatalogSchema := One("properties", One("schemas", SchemaRef("Item")))

  function CatalogSchemas(): Schemas {
    map["Catalog" := CatalogSchema, "Item" := ObjectSchema]
  }

  lemma CatalogRefs()
    ensures Seeds(CatalogPaths) == {"Catalog"}
    ensures Refs(CatalogSchema) == {} && AllRefs(CatalogSchema) == {"Item"}
    ensures Refs(ObjectSchema) == {}
  {
    OrdinaryKeys();
    OneSchemaRef("Catalog");
    JsonBodyRefs(SchemaRef("Catalog"));
    OperationRefs("200", JsonBody(SchemaRef("Catalog")));
    OneSchemaRef("Item");
    WrapRefs("schemas", SchemaRef("Item"));
    WrapRefs("properties", One("schemas", SchemaRef("Item")));
    WrapRefs("type", Str("object"));
    assert Refs(Str("object")) == {};
  }

  lemma TwoCatalogSchemas()
    ensures "Catalog" != "Item" && CatalogSchemas().Keys == {"Catalog", "Item"}
    ensures CatalogSchemas()["Catalog"] == CatalogSchema && CatalogSchemas()["Item"] == ObjectSchema
  {
    assert "Catalog"[0] != "Item"[0];
  }

  lemma ItemIsUnreachable()
    ensures Reachable(CatalogSchemas(), Seeds(CatalogPaths), "Catalog")
    ensures !Reachable(CatalogSchemas(), Seeds(CatalogPaths), "Item")
  {
    CatalogRefs();
    TwoCatalogSchemas();
    var schemas, seeds := CatalogSchemas(), Seeds(CatalogPaths);
    SeedIsReachable(schemas, seeds, "Catalog");
    assert Closed(schemas, {"Catalog"});
    if Reachable(schemas, seeds, "Item") {
      ReachableIsLeast(schemas, seeds, {"Catalog"}, "Item");
    }
  }

  lemma CatalogProperty()
    ensures "Catalog" in Pruned(CatalogSchemas(), CatalogPaths) && "Item" !in Pruned(CatalogSchemas(), CatalogPaths)
    ensures Dangling(CatalogSchemas(), CatalogPaths, [], "Item")
  {
    CatalogRefs();
    TwoCatalogSchemas();
    ItemIsUnreachable();
    assert "Item" in AllRefs(CatalogSchemas()["Catalog"]);
  }

  /** Both ways of dangling happen in ordinary documents. */
  lemma PruningCanDangle()
    ensures Dangling(map["Problem" := ObjectSchema], SharedResponse, SharedResponses, "Problem")
    ensures Dangling(CatalogSchemas(), CatalogPaths, [], "Item")
  {
    SharedResponseDangles();
    CatalogProperty();
  }

  // ---- A document that needs the marker ----

  /** The error schema of one status: an object marked as a variant of the shared ErrorResponse. */
  const BadRequestSchema := Obj([Field("type", Str("object")), Field("x-sdk-ref", Str("ErrorResponse"))])

  /** An operation answers 404 with it; nothing else in the document refers to ErrorResponse. */
  const ErrorPaths := [Field("paths", Operation("404", JsonBody(SchemaRef("BadRequest"))))]

  function ErrorSchemas(): Schemas {
    map["BadRequest" := BadRequestSchema, "ErrorResponse" := ObjectSchema]
  }

  lemma MarkerIsSeen()
    ensures "ErrorResponse" in Refs(BadRequestSchema)
    ensures Get(BadRequestSchema.fields, "$ref") == None
  {
    var fields := BadRequestSchema.fields;
    assert "type"[0] != "$ref"[0] && "x-sdk-ref"[0] != "$ref"[0] && "type"[0] != "x-sdk-ref"[0];
    assert fields[1..] == [Field("x-sdk-ref", Str("ErrorResponse"))] && fields[1..][1..] == [];
    assert Get(fields, "x-sdk-ref") == Get(fields[1..], "x-sdk-ref") == Some(Str("ErrorResponse"));
    assert Get(fields, "$ref") == Get(fields[1..], "$ref") == Get([], "$ref");
    OwnRefsExactly(fields, "ErrorResponse");
  }

  lemma ErrorSeeds()
    ensures Seeds(ErrorPaths) == {"BadRequest"} && AllRefs(Obj(ErrorPaths)) == {"BadRequest"}
  {
    OneSchemaRef("BadRequest");
    JsonBodyRefs(SchemaRef("BadRequest"));
    OperationRefs("404", JsonBody(SchemaRef("BadRequest")));
  }

  lemma TwoErrorSchemas()
    ensures "BadRequest" != "ErrorResponse" && ErrorSchemas().Keys == {"BadRequest", "ErrorResponse"}
    ensures ErrorSchemas()["BadRequest"] == BadRequestSchema && ErrorSchemas()["ErrorResponse"] == ObjectSchema
    ensures Get(ObjectSchema.fields, "$ref") == None
  {
    assert "BadRequest"[0] != "ErrorResponse"[0] && "type"[0] != "$ref"[0];
    assert ObjectSchema.fields[1..] == [];
    assert Get(ObjectSchema.fields, "$ref") == Get([], "$ref");
  }

  lemma MarkerReaches(schemas: Schemas, seed: set<string>)
    requires "BadRequest" in schemas && schemas["BadRequest"] == BadRequestSchema && "BadRequest" in seed
    ensures Reachable(schemas, seed, "ErrorResponse")
  {
    MarkerIsSeen();
    var path := ["BadRequest", "ErrorResponse"];
    assert Edge(schemas, path[0], path[1]);
    assert Chain(schemas, path);
  }

  /** The shared schema survives only through the marker. */
  lemma MarkerKeepsSchema()
    ensures "ErrorResponse" in Pruned(ErrorSchemas(), ErrorPaths)
    ensures "ErrorResponse" !in AllRefs(Obj(ErrorPaths))
    ensures Get(BadRequestSchema.fields, "$ref") == Get(ObjectSchema.fields, "$ref") == None
  {
    ErrorSeeds();
    TwoErrorSchemas();
    MarkerIsSeen();
    MarkerReaches(ErrorSchemas(), Seeds(ErrorPaths));
  }

  // ---- A document without such references ----

  /** No entry of this node is called "schemas". */
  ghost predicate NoSchemasEntry(node: Node)
    decreases node
  {
    match node
    case Arr(items) => forall i :: 0 <= i < |items| ==> NoSchemasEntry(items[i])
    case Obj(fields) => forall i :: 0 <= i < |fields| ==> fields[i].key != "schemas" && NoSchemasEntry(fields[i].value)
    case _ => true
  }

  lemma {:induction false} AllSeen(node: Node)
    requires NoSchemasEntry(node)
    ensures AllRefs(node) == Refs(node)
    decreases node
  {
    match node
    case Scalar =>
    case Str(_) =>
    case Arr(items) => AllSeenInItems(items);
    case Obj(fields) => AllSeenInFields(fields);
  }

  lemma {:induction false} AllSeenInItems(items: seq<Node>)
    requires forall i :: 0 <= i < |items| ==> NoSchemasEntry(items[i])
    ensures AllRefsOfItems(items) == RefsOfItems(items)
    decreases items
  {
    if items != [] {
      AllSeenInItems(items[..|items| - 1]);
      AllSeen(items[|items| - 1]);
    }
  }

  lemma {:induction false} AllSeenInFields(fields: seq<Field>)
    requires forall i :: 0 <= i < |fields| ==> fields[i].key != "schemas" && NoSchemasEntry(fields[i].value)
    ensures AllRefsOfFields(fields) == RefsOfFields(fields)
    decreases fields
  {
    if fields != [] {
      AllSeenInFields(fields[..|fields| - 1]);
      AllSeen(fields[|fields| - 1].value);
    }
  }

  /** Without entries called "schemas", only the other sections of `components` can be left dangling. */
  lemma CleanDocumentStaysWhole(schemas: Schemas, rest: seq<Field>, otherComponents: seq<Field>, name: string)
    requires NoSchemasEntry(Obj(rest)) && forall s :: s in schemas ==> NoSchemasEntry(schemas[s])
    ensures Dangling(schemas, rest, otherComponents, name) <==>
              name in schemas && name !in Pruned(schemas, rest) && name in AllRefs(Obj(otherComponents))
  {
    DanglingExactly(schemas, rest, otherComponents, name);
    AllSeen(Obj(rest));
    forall s | s in schemas ensures Unseen(schemas[s]) == {} {
      AllSeen(schemas[s]);
    }
  }
}
