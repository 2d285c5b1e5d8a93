/**
 The model-boundary projection: a finite graph of plain data, possibly cyclic and shared, becomes a
 JSON tree without environment values.

 Objects and arrays live in a heap and are known by reference. A `toJSON` method is not plain data.
 Finite numbers are represented by integers: the projection only copies them.
 */
module Redaction {
  import opened Options
  import opened Text

  const DEPTH_LIMIT := 32
  const CYCLIC_MARKER := "[cyclic]"
  const DEPTH_LIMIT_MARKER := "[depth limit]"

  datatype Value = Null | Bool(b: bool) | Num(n: int) | NotFinite | BigInt(text: string) | Text(s: string) | Nothing | Ref(r: nat)

  datatype Field = Field(key: string, value: Value)

  datatype Node = ArrayNode(items: seq<Value>) | ObjectNode(fields: seq<Field>)

  /** A reference to nothing does not occur; it reads as an empty object. */
  type Heap = map<nat, Node>

  datatype Json = JNull | JBool(b: bool) | JNum(n: int) | JText(s: string) | JArr(items: seq<Json>) | JObj(entries: seq<Entry>)

  datatype Entry = Entry(key: string, value: Json)

  function NodeAt(h: Heap, r: nat): Node {
    if r in h then h[r] else ObjectNode([])
  }

  predicate IsEnvironmentKey(key: string) {
    || SameLetters(key, "env") || SameLetters(key, "environment") || SameLetters(key, "env_vars")
    || SameLetters(key, "environment_variables") || SameLetters(key, "environment_overrides") || SameLetters(key, "environmentoverrides")
  }

  predicate CarriesText(j: Json) {
    match j
    case JText(_) => true
    case JArr(items) => exists i :: 0 <= i < |items| && CarriesText(items[i])
    case JObj(entries) => exists i :: 0 <= i < |entries| && CarriesText(entries[i].value)
    case _ => false
  }

  predicate Redacts(key: string, j: Json) {
    IsEnvironmentKey(key) && CarriesText(j)
  }

  // ---- The projection ------------------------------------------------------------------------

  /** None where the value has no JSON form. */
  function Project(h: Heap, v: Value, seen: set<nat>, depth: nat): Option<Json>
    decreases DEPTH_LIMIT + 2 - depth, 0, 0
  {
    match v
    case Null => Some(JNull)
    case Bool(b) => Some(JBool(b))
    case Num(n) => Some(JNum(n))
    case NotFinite => Some(JNull)
    case BigInt(text) => Some(JText(text))
    case Text(s) => Some(JText(s))
    case Nothing => None
    case Ref(r) =>
      if depth > DEPTH_LIMIT then Some(JText(DEPTH_LIMIT_MARKER))
      else if r in seen then Some(JText(CYCLIC_MARKER))
      else
        match NodeAt(h, r)
        case ArrayNode(items) => Some(JArr(ProjectItems(h, items, seen + {r}, depth + 1)))
        case ObjectNode(fields) => Some(JObj(ProjectFields(h, fields, seen + {r}, depth + 1)))
  }

  function ProjectItems(h: Heap, items: seq<Value>, seen: set<nat>, depth: nat): seq<Json>
    requires depth <= DEPTH_LIMIT + 1
    decreases DEPTH_LIMIT + 2 - depth, 1, |items|
  {
    if items == [] then []
    else
      var first := Project(h, items[0], seen, depth);
      [if first.Some? then first.value else JNull] + ProjectItems(h, items[1..], seen, depth)
  }

  function ProjectFields(h: Heap, fields: seq<Field>, seen: set<nat>, depth: nat): seq<Entry>
    requires depth <= DEPTH_LIMIT + 1
    decreases DEPTH_LIMIT + 2 - depth, 1, |fields|
  {
    if fields == [] then []
    else
      var first := Project(h, fields[0].value, seen, depth);
      (if first.None? || Redacts(fields[0].key, first.value) then [] else [Entry(fields[0].key, first.value)])
      + ProjectFields(h, fields[1..], seen, depth)
  }

  function ModelSafeJson(h: Heap, v: Value): Option<Json> {
    Project(h, v, {}, 0)
  }

  lemma FieldsStep(h: Heap, fields: seq<Field>, i: nat, seen: set<nat>, depth: nat)
    requires depth <= DEPTH_LIMIT + 1 && i < |fields|
    ensures var first := Project(h, fields[i].value, seen, depth);
            ProjectFields(h, fields[i..], seen, depth) ==
            (if first.None? || Redacts(fields[i].key, first.value) then [] else [Entry(fields[i].key, first.value)])
            + ProjectFields(h, fields[i + 1..], seen, depth)
  {
    assert fields[i..][1..] == fields[i + 1..];
  }

  lemma Regather(a: seq<Entry>, b: seq<Entry>, c: seq<Entry>)
    ensures (a + b) + c == a + (b + c)
  {
  }

  /** The projector, with its one mutable set of the references on the current path. */
  class Projector {
    const heap: Heap
    var seen: set<nat>

    constructor (heap: Heap)
      ensures this.heap == heap && seen == {}
    {
      this.heap := heap;
      seen := {};
    }

    method ProjectValue(v: Value, depth: nat) returns (j: Option<Json>)
      modifies this
      ensures seen == old(seen) && j == Project(heap, v, seen, depth)
      decreases DEPTH_LIMIT + 2 - depth, 0
    {
      match v
      case Null => return Some(JNull);
      case Bool(b) => return Some(JBool(b));
      case Num(n) => return Some(JNum(n));
      case NotFinite => return Some(JNull);
      case BigInt(text) => return Some(JText(text));
      case Text(s) => return Some(JText(s));
      case Nothing => return None;
      case Ref(r) =>
        if depth > DEPTH_LIMIT { return Some(JText(DEPTH_LIMIT_MARKER)); }
        if r in seen { return Some(JText(CYCLIC_MARKER)); }
        ghost var before := seen;
        seen := seen + {r};
        match NodeAt(heap, r) {
          case ArrayNode(items) =>
            var out := ProjectArray(items, depth + 1);
            j := Some(JArr(out));
          case ObjectNode(fields) =>
            var entries := ProjectObject(fields, depth + 1);
            j := Some(JObj(entries));
        }
        seen := seen - {r};
        assert seen == before;
    }

    method ProjectArray(items: seq<Value>, depth: nat) returns (out: seq<Json>)
      requires depth <= DEPTH_LIMIT + 1
      modifies this
      ensures seen == old(seen) && out == ProjectItems(heap, items, seen, depth)
      decreases DEPTH_LIMIT + 2 - depth, 1
    {
      out := [];
      for i := 0 to |items|
        invariant seen == old(seen)
        invariant out + ProjectItems(heap, items[i..], seen, depth) == ProjectItems(heap, items, seen, depth)
      {
        assert items[i..][1..] == items[i + 1..];
        var item := ProjectValue(items[i], depth);
        out := out + [if item.Some? then item.value else JNull];
      }
    }

    method ProjectObject(fields: seq<Field>, depth: nat) returns (entries: seq<Entry>)
      requires depth <= DEPTH_LIMIT + 1
      modifies this
      ensures seen == old(seen) && entries == ProjectFields(heap, fields, seen, depth)
      decreases DEPTH_LIMIT + 2 - depth, 1
    {
      entries := [];
      for i := 0 to |fields|
        invariant seen == old(seen)
        invariant entries + ProjectFields(heap, fields[i..], seen, depth) == ProjectFields(heap, fields, seen, depth)
      {
        FieldsStep(heap, fields, i, seen, depth);
        var projected := ProjectValue(fields[i].value, depth);
        ghost var rest := ProjectFields(heap, fields[i + 1..], seen, depth);
        if projected.Some? && !Redacts(fields[i].key, projected.value) {
          Regather(entries, [Entry(fields[i].key, projected.value)], rest);
          entries := entries + [Entry(fields[i].key, projected.value)];
        }
      }
    }
  }

  // ---- What comes out -----------------------------------------------------------------------------

  /** No environment key stands over a value that holds text, at any depth. */
  predicate IsClean(j: Json) {
    match j
    case JArr(items) => forall i :: 0 <= i < |items| ==> IsClean(items[i])
    case JObj(entries) => forall i :: 0 <= i < |entries| ==> !Redacts(entries[i].key, entries[i].value) && IsClean(entries[i].value)
    case _ => true
  }

  predicate AreClean(items: seq<Json>) {
    forall i :: 0 <= i < |items| ==> IsClean(items[i])
  }

  predicate EntriesAreClean(entries: seq<Entry>) {
    forall i :: 0 <= i < |entries| ==> !Redacts(entries[i].key, entries[i].value) && IsClean(entries[i].value)
  }

  /** Containers nest at most `levels` deep. */
  predicate Nests(j: Json, levels: nat) {
    match j
    case JArr(items) => levels > 0 && forall i :: 0 <= i < |items| ==> Nests(items[i], levels - 1)
    case JObj(entries) => levels > 0 && forall i :: 0 <= i < |entries| ==> Nests(entries[i].value, levels - 1)
    case _ => true
  }

  function LevelsLeft(depth: nat): nat {
    if depth > DEPTH_LIMIT then 0 else DEPTH_LIMIT + 1 - depth
  }

  /** On every graph the result is free of environment values and bounded in depth. */
  lemma {:induction false} ProjectionIsCleanAt(h: Heap, v: Value, seen: set<nat>, depth: nat)
    ensures Project(h, v, seen, depth).Some? ==> IsClean(Project(h, v, seen, depth).value) && Nests(Project(h, v, seen, depth).value, LevelsLeft(depth))
    decreases DEPTH_LIMIT + 2 - depth, 0, 0
  {
    if v.Ref? && depth <= DEPTH_LIMIT && v.r !in seen {
      match NodeAt(h, v.r)
      case ArrayNode(items) => ItemsAreClean(h, items, seen + {v.r}, depth + 1);
      case ObjectNode(fields) => FieldsAreClean(h, fields, seen + {v.r}, depth + 1);
    }
  }

  lemma {:induction false} ItemsAreClean(h: Heap, items: seq<Value>, seen: set<nat>, depth: nat)
    requires depth <= DEPTH_LIMIT + 1
    ensures forall i :: 0 <= i < |ProjectItems(h, items, seen, depth)| ==>
              IsClean(ProjectItems(h, items, seen, depth)[i]) && Nests(ProjectItems(h, items, seen, depth)[i], LevelsLeft(depth))
    decreases DEPTH_LIMIT + 2 - depth, 1, |items|
  {
    if items != [] {
      ProjectionIsCleanAt(h, items[0], seen, depth);
      ItemsAreClean(h, items[1..], seen, depth);
    }
  }

  lemma {:induction false} FieldsAreClean(h: Heap, fields: seq<Field>, seen: set<nat>, depth: nat)
    requires depth <= DEPTH_LIMIT + 1
    ensures forall i :: 0 <= i < |ProjectFields(h, fields, seen, depth)| ==>
              var e := ProjectFields(h, fields, seen, depth)[i];
              !Redacts(e.key, e.value) && IsClean(e.value) && Nests(e.value, LevelsLeft(depth))
    decreases DEPTH_LIMIT + 2 - depth, 1, |fields|
  {
    if fields != [] {
      ProjectionIsCleanAt(h, fields[0].value, seen, depth);
      FieldsAreClean(h, fields[1..], seen, depth);
    }
  }

  lemma ProjectionIsClean(h: Heap, v: Value)
    ensures ModelSafeJson(h, v).Some? ==> IsClean(ModelSafeJson(h, v).value) && Nests(ModelSafeJson(h, v).value, DEPTH_LIMIT + 1)
    ensures ModelSafeJson(h, v).None? <==> v.Nothing?
  {
    ProjectionIsCleanAt(h, v, {}, 0);
  }

  // ---- Trees, and data that unfolds to a tree -------------------------------------------------------

  /** The value unfolds to this finite tree; parts may be shared. */
  ghost predicate Unfolds(h: Heap, v: Value, j: Json)
    decreases j
  {
    match j
    case JNull => v == Null
    case JBool(b) => v == Bool(b)
    case JNum(n) => v == Num(n)
    case JText(s) => v == Text(s)
    case JArr(items) =>
      v.Ref? && NodeAt(h, v.r).ArrayNode? && |NodeAt(h, v.r).items| == |items|
      && forall i :: 0 <= i < |items| ==> Unfolds(h, NodeAt(h, v.r).items[i], items[i])
    case JObj(entries) =>
      v.Ref? && NodeAt(h, v.r).ObjectNode? && |NodeAt(h, v.r).fields| == |entries|
      && forall i :: 0 <= i < |entries| ==> NodeAt(h, v.r).fields[i].key == entries[i].key && Unfolds(h, NodeAt(h, v.r).fields[i].value, entries[i].value)
  }

  function Size(j: Json): nat
    decreases j, 0
  {
    match j
    case JArr(items) => 1 + SizeItems(items)
    case JObj(entries) => 1 + SizeEntries(entries)
    case _ => 0
  }

  function SizeItems(items: seq<Json>): nat
    decreases items, |items|
  {
    if items == [] then 0 else
      Size(items[0]) + SizeItems(items[1..])
  }

  function SizeEntries(entries: seq<Entry>): nat
    decreases entries, |entries|
  {
    if entries == [] then 0 else
      Size(entries[0].value) + SizeEntries(entries[1..])
  }

  /** What the projection makes of a tree. */
  function TreeProject(j: Json, depth: nat): Json
    decreases j, 0
  {
    match j
    case JArr(items) => if depth > DEPTH_LIMIT then JText(DEPTH_LIMIT_MARKER) else JArr(TreeItems(items, depth + 1))
    case JObj(entries) => if depth > DEPTH_LIMIT then JText(DEPTH_LIMIT_MARKER) else JObj(TreeEntries(entries, depth + 1))
    case _ => j
  }

  function TreeItems(items: seq<Json>, depth: nat): seq<Json>
    decreases items, |items|
  {
    if items == [] then [] else
      [TreeProject(items[0], depth)] + TreeItems(items[1..], depth)
  }

  function TreeEntries(entries: seq<Entry>, depth: nat): seq<Entry>
    decreases entries, |entries|
  {
    if entries == [] then [] else
      var value := TreeProject(entries[0].value, depth);
      (if Redacts(entries[0].key, value) then [] else [Entry(entries[0].key, value)]) + TreeEntries(entries[1..], depth)
  }

  lemma {:induction false} UnfoldsOneWay(h: Heap, v: Value, j: Json, k: Json)
    requires Unfolds(h, v, j) && Unfolds(h, v, k)
    ensures j == k
    decreases j
  {
    match j
    case JArr(items) =>
      forall i | 0 <= i < |items| ensures items[i] == k.items[i] {
        UnfoldsOneWay(h, NodeAt(h, v.r).items[i], items[i], k.items[i]);
      }
    case JObj(entries) =>
      forall i | 0 <= i < |entries| ensures entries[i] == k.entries[i] {
        UnfoldsOneWay(h, NodeAt(h, v.r).fields[i].value, entries[i].value, k.entries[i].value);
      }
    case _ =>
  }

  /** The references on the path unfold to larger trees, so none of them comes again. */
  ghost predicate Above(h: Heap, seen: set<nat>, size: nat) {
    forall r :: r in seen ==> exists k :: Unfolds(h, Ref(r), k) && size < Size(k)
  }

  lemma NotAgain(h: Heap, seen: set<nat>, r: nat, j: Json)
    requires Unfolds(h, Ref(r), j) && Above(h, seen, Size(j))
    ensures r !in seen
  {
    if r in seen {
      var k :| Unfolds(h, Ref(r), k) && Size(j) < Size(k);
      UnfoldsOneWay(h, Ref(r), j, k);
    }
  }

  lemma AboveMore(h: Heap, seen: set<nat>, r: nat, j: Json, size: nat)
    requires Unfolds(h, Ref(r), j) && Above(h, seen, Size(j)) && size < Size(j)
    ensures Above(h, seen + {r}, size)
  {
  }

  lemma AboveLess(h: Heap, seen: set<nat>, size: nat, less: nat)
    requires Above(h, seen, size) && less <= size
    ensures Above(h, seen, less)
  {
    forall r | r in seen ensures exists k :: Unfolds(h, Ref(r), k) && less < Size(k) {
      var k :| Unfolds(h, Ref(r), k) && size < Size(k);
    }
  }

  /**
   Data that unfolds to a finite tree, shared or not, is projected as that tree: sharing is never
   taken for a cycle.
   */
  lemma {:induction false} TreesProjectAsTrees(h: Heap, v: Value, j: Json, seen: set<nat>, depth: nat)
    requires Unfolds(h, v, j) && Above(h, seen, Size(j))
    ensures Project(h, v, seen, depth) == Some(TreeProject(j, depth))
    decreases j, 0, 1
  {
    if v.Ref? {
      NotAgain(h, seen, v.r, j);
      if depth <= DEPTH_LIMIT {
        NodesProjectAsTrees(h, v.r, j, seen, depth);
      }
    }
  }

  lemma {:induction false} NodesProjectAsTrees(h: Heap, r: nat, j: Json, seen: set<nat>, depth: nat)
    requires Unfolds(h, Ref(r), j) && Above(h, seen, Size(j)) && r !in seen && depth <= DEPTH_LIMIT
    ensures Project(h, Ref(r), seen, depth) == Some(TreeProject(j, depth))
    decreases j, 0, 0
  {
    match j
    case JArr(items) =>
      AboveMore(h, seen, r, j, SizeItems(items));
      ItemsProjectAsTrees(h, NodeAt(h, r).items, items, seen + {r}, depth + 1);
    case JObj(entries) =>
      AboveMore(h, seen, r, j, SizeEntries(entries));
      FieldsProjectAsTrees(h, NodeAt(h, r).fields, entries, seen + {r}, depth + 1);
  }

  lemma {:induction false} ItemsProjectAsTrees(h: Heap, vs: seq<Value>, items: seq<Json>, seen: set<nat>, depth: nat)
    requires depth <= DEPTH_LIMIT + 1 && |vs| == |items| && Above(h, seen, SizeItems(items))
    requires forall i :: 0 <= i < |items| ==> Unfolds(h, vs[i], items[i])
    ensures ProjectItems(h, vs, seen, depth) == TreeItems(items, depth)
    decreases items, |items|
  {
    if items != [] {
      AboveLess(h, seen, SizeItems(items), Size(items[0]));
      AboveLess(h, seen, SizeItems(items), SizeItems(items[1..]));
      TreesProjectAsTrees(h, vs[0], items[0], seen, depth);
      ItemsProjectAsTrees(h, vs[1..], items[1..], seen, depth);
    }
  }

  lemma {:induction false} FieldsProjectAsTrees(h: Heap, fields: seq<Field>, entries: seq<Entry>, seen: set<nat>, depth: nat)
    requires depth <= DEPTH_LIMIT + 1 && |fields| == |entries| && Above(h, seen, SizeEntries(entries))
    requires forall i :: 0 <= i < |entries| ==> fields[i].key == entries[i].key && Unfolds(h, fields[i].value, entries[i].value)
    ensures ProjectFields(h, fields, seen, depth) == TreeEntries(entries, depth)
    decreases entries, |entries|
  {
    if entries != [] {
      AboveLess(h, seen, SizeEntries(entries), Size(entries[0].value));
      AboveLess(h, seen, SizeEntries(entries), SizeEntries(entries[1..]));
      TreesProjectAsTrees(h, fields[0].value, entries[0].value, seen, depth);
      FieldsProjectAsTrees(h, fields[1..], entries[1..], seen, depth);
    }
  }

  lemma {:induction false} CleanTreesStay(j: Json, depth: nat)
    requires IsClean(j) && Nests(j, LevelsLeft(depth))
    ensures TreeProject(j, depth) == j
    decreases j, 0
  {
    match j
    case JArr(items) => CleanItemsStay(items, depth + 1);
    case JObj(entries) => CleanEntriesStay(entries, depth + 1);
    case _ =>
  }

  lemma {:induction false} CleanItemsStay(items: seq<Json>, depth: nat)
    requires AreClean(items) && forall i :: 0 <= i < |items| ==> Nests(items[i], LevelsLeft(depth))
    ensures TreeItems(items, depth) == items
    decreases items, |items|
  {
    if items != [] {
      CleanTreesStay(items[0], depth);
      CleanItemsStay(items[1..], depth);
    }
  }

  lemma {:induction false} CleanEntriesStay(entries: seq<Entry>, depth: nat)
    requires EntriesAreClean(entries) && forall i :: 0 <= i < |entries| ==> Nests(entries[i].value, LevelsLeft(depth))
    ensures TreeEntries(entries, depth) == entries
    decreases entries, |entries|
  {
    if entries != [] {
      CleanTreesStay(entries[0].value, depth);
      CleanEntriesStay(entries[1..], depth);
    }
  }

  /** Clean data within the limit comes out unchanged. */
  lemma CleanDataIsUnchanged(h: Heap, v: Value, j: Json)
    requires Unfolds(h, v, j) && IsClean(j) && Nests(j, DEPTH_LIMIT + 1)
    ensures ModelSafeJson(h, v) == Some(j)
  {
    TreesProjectAsTrees(h, v, j, {}, 0);
    CleanTreesStay(j, 0);
  }

  predicate IsTaskKey(key: string) {
    key in ["objective", "scope", "doneWhen", "constraints", "tier", "recoveryOf", "label", "cwd", "operatingPoint", "retention"]
  }

  lemma TaskKeyIsNoEnvironment(key: string)
    requires IsTaskKey(key)
    ensures !IsEnvironmentKey(key)
  {
    assert key[0] != 'e' && key[0] != 'E' && Lower(key[0]) != 'e';
  }

  /** A text, or a list of texts. */
  predicate IsTaskValue(j: Json) {
    j.JText? || (j.JArr? && forall i :: 0 <= i < |j.items| ==> j.items[i].JText?)
  }

  /** The projection of a launch Task, with which the task digest begins, is the Task. */
  lemma TaskIsUnchanged(h: Heap, v: Value, entries: seq<Entry>)
    requires Unfolds(h, v, JObj(entries))
    requires forall i :: 0 <= i < |entries| ==> IsTaskKey(entries[i].key) && IsTaskValue(entries[i].value)
    ensures ModelSafeJson(h, v) == Some(JObj(entries))
  {
    forall i | 0 <= i < |entries| ensures !Redacts(entries[i].key, entries[i].value) && IsClean(entries[i].value) && Nests(entries[i].value, DEPTH_LIMIT) {
      TaskKeyIsNoEnvironment(entries[i].key);
    }
    CleanDataIsUnchanged(h, v, JObj(entries));
  }

  /** Projecting a projection again, wherever its tree is laid out, changes nothing. */
  lemma ProjectionIsIdempotent(h: Heap, v: Value, again: Heap, w: Value)
    requires ModelSafeJson(h, v).Some? && Unfolds(again, w, ModelSafeJson(h, v).value)
    ensures ModelSafeJson(again, w) == ModelSafeJson(h, v)
  {
    ProjectionIsClean(h, v);
    CleanDataIsUnchanged(again, w, ModelSafeJson(h, v).value);
  }

  // ---- When a mark is made ----------------------------------------------------------------------------

  ghost function OnPath(path: seq<nat>): set<nat> {
    set r | r in path
  }

  /**
   The projection by the path that leads to the value: a reference is marked cyclic exactly when the
   path has passed it, and cut exactly when the path is longer than the limit.
   */
  ghost function Along(h: Heap, v: Value, path: seq<nat>): Option<Json>
    decreases DEPTH_LIMIT + 2 - |path|, 0, 0
  {
    if !v.Ref? then Project(h, v, {}, 0)
    else if |path| > DEPTH_LIMIT then Some(JText(DEPTH_LIMIT_MARKER))
    else if v.r in path then Some(JText(CYCLIC_MARKER))
    else
      match NodeAt(h, v.r)
      case ArrayNode(items) => Some(JArr(ItemsAlong(h, items, path + [v.r])))
      case ObjectNode(fields) => Some(JObj(FieldsAlong(h, fields, path + [v.r])))
  }

  ghost function ItemsAlong(h: Heap, items: seq<Value>, path: seq<nat>): seq<Json>
    requires |path| <= DEPTH_LIMIT + 1
    decreases DEPTH_LIMIT + 2 - |path|, 1, |items|
  {
    if items == [] then []
    else
      var first := Along(h, items[0], path);
      [if first.Some? then first.value else JNull] + ItemsAlong(h, items[1..], path)
  }

  ghost function FieldsAlong(h: Heap, fields: seq<Field>, path: seq<nat>): seq<Entry>
    requires |path| <= DEPTH_LIMIT + 1
    decreases DEPTH_LIMIT + 2 - |path|, 1, |fields|
  {
    if fields == [] then []
    else
      var first := Along(h, fields[0].value, path);
      (if first.None? || Redacts(fields[0].key, first.value) then [] else [Entry(fields[0].key, first.value)])
      + FieldsAlong(h, fields[1..], path)
  }

  /** The set that is added to and deleted from is always the path, and the depth its length. */
  lemma {:induction false} SeenIsThePath(h: Heap, v: Value, path: seq<nat>)
    ensures Project(h, v, OnPath(path), |path|) == Along(h, v, path)
    decreases DEPTH_LIMIT + 2 - |path|, 0, 0
  {
    if v.Ref? && |path| <= DEPTH_LIMIT && v.r !in path {
      assert OnPath(path + [v.r]) == OnPath(path) + {v.r};
      match NodeAt(h, v.r)
      case ArrayNode(items) => ItemsFollowThePath(h, items, path + [v.r]);
      case ObjectNode(fields) => FieldsFollowThePath(h, fields, path + [v.r]);
    }
  }

  lemma {:induction false} ItemsFollowThePath(h: Heap, items: seq<Value>, path: seq<nat>)
    requires |path| <= DEPTH_LIMIT + 1
    ensures ProjectItems(h, items, OnPath(path), |path|) == ItemsAlong(h, items, path)
    decreases DEPTH_LIMIT + 2 - |path|, 1, |items|
  {
    if items != [] {
      SeenIsThePath(h, items[0], path);
      ItemsFollowThePath(h, items[1..], path);
    }
  }

  lemma {:induction false} FieldsFollowThePath(h: Heap, fields: seq<Field>, path: seq<nat>)
    requires |path| <= DEPTH_LIMIT + 1
    ensures ProjectFields(h, fields, OnPath(path), |path|) == FieldsAlong(h, fields, path)
    decreases DEPTH_LIMIT + 2 - |path|, 1, |fields|
  {
    if fields != [] {
      SeenIsThePath(h, fields[0].value, path);
      FieldsFollowThePath(h, fields[1..], path);
    }
  }

  /** A height for every reference: the graph has no cycle. */
  ghost predicate Ranked(h: Heap, rank: nat -> nat) {
    && (forall r, i :: NodeAt(h, r).ArrayNode? && 0 <= i < |NodeAt(h, r).items| && NodeAt(h, r).items[i].Ref? ==> rank(NodeAt(h, r).items[i].r) < rank(r))
    && (forall r, i :: NodeAt(h, r).ObjectNode? && 0 <= i < |NodeAt(h, r).fields| && NodeAt(h, r).fields[i].value.Ref? ==>
          rank(NodeAt(h, r).fields[i].value.r) < rank(r))
  }

  /** Everything on the path ranks above the value. */
  ghost predicate RanksBelow(v: Value, seen: set<nat>, rank: nat -> nat) {
    v.Ref? ==> forall s :: s in seen ==> rank(v.r) < rank(s)
  }

  /** The projection without the cycle check. */
  function Unchecked(h: Heap, v: Value, depth: nat): Option<Json>
    decreases DEPTH_LIMIT + 2 - depth, 0, 0
  {
    if !v.Ref? then Project(h, v, {}, depth)
    else if depth > DEPTH_LIMIT then Some(JText(DEPTH_LIMIT_MARKER))
    else
      match NodeAt(h, v.r)
      case ArrayNode(items) => Some(JArr(UncheckedItems(h, items, depth + 1)))
      case ObjectNode(fields) => Some(JObj(UncheckedFields(h, fields, depth + 1)))
  }

  function UncheckedItems(h: Heap, items: seq<Value>, depth: nat): seq<Json>
    requires depth <= DEPTH_LIMIT + 1
    decreases DEPTH_LIMIT + 2 - depth, 1, |items|
  {
    if items == [] then []
    else
      var first := Unchecked(h, items[0], depth);
      [if first.Some? then first.value else JNull] + UncheckedItems(h, items[1..], depth)
  }

  function UncheckedFields(h: Heap, fields: seq<Field>, depth: nat): seq<Entry>
    requires depth <= DEPTH_LIMIT + 1
    decreases DEPTH_LIMIT + 2 - depth, 1, |fields|
  {
    if fields == [] then []
    else
      var first := Unchecked(h, fields[0].value, depth);
      (if first.None? || Redacts(fields[0].key, first.value) then [] else [Entry(fields[0].key, first.value)])
      + UncheckedFields(h, fields[1..], depth)
  }

  /** On a graph without cycles, however shared and however deep, the cycle check never fires. */
  lemma {:induction false} AcyclicIsNeverMarked(h: Heap, v: Value, seen: set<nat>, depth: nat, rank: nat -> nat)
    requires Ranked(h, rank) && RanksBelow(v, seen, rank)
    ensures Project(h, v, seen, depth) == Unchecked(h, v, depth)
    decreases DEPTH_LIMIT + 2 - depth, 0, 0
  {
    if v.Ref? && depth <= DEPTH_LIMIT {
      assert v.r !in seen;
      match NodeAt(h, v.r)
      case ArrayNode(items) => AcyclicItems(h, items, seen + {v.r}, depth + 1, rank);
      case ObjectNode(fields) => AcyclicFields(h, fields, seen + {v.r}, depth + 1, rank);
    }
  }

  lemma {:induction false} AcyclicItems(h: Heap, items: seq<Value>, seen: set<nat>, depth: nat, rank: nat -> nat)
    requires Ranked(h, rank) && depth <= DEPTH_LIMIT + 1 && forall i :: 0 <= i < |items| ==> RanksBelow(items[i], seen, rank)
    ensures ProjectItems(h, items, seen, depth) == UncheckedItems(h, items, depth)
    decreases DEPTH_LIMIT + 2 - depth, 1, |items|
  {
    if items != [] {
      AcyclicIsNeverMarked(h, items[0], seen, depth, rank);
      AcyclicItems(h, items[1..], seen, depth, rank);
    }
  }

  lemma {:induction false} AcyclicFields(h: Heap, fields: seq<Field>, seen: set<nat>, depth: nat, rank: nat -> nat)
    requires Ranked(h, rank) && depth <= DEPTH_LIMIT + 1 && forall i :: 0 <= i < |fields| ==> RanksBelow(fields[i].value, seen, rank)
    ensures ProjectFields(h, fields, seen, depth) == UncheckedFields(h, fields, depth)
    decreases DEPTH_LIMIT + 2 - depth, 1, |fields|
  {
    if fields != [] {
      AcyclicIsNeverMarked(h, fields[0].value, seen, depth, rank);
      AcyclicFields(h, fields[1..], seen, depth, rank);
    }
  }

  // ---- Stripping retained records -----------------------------------------------------------------------

  /** `withoutEnvironment` on a tree: the key goes when the value as it stands holds text. */
  function Strip(j: Json): Json
    decreases j, 0
  {
    match j
    case JArr(items) => JArr(StripItems(items))
    case JObj(entries) => JObj(StripEntries(entries))
    case _ => j
  }

  function StripItems(items: seq<Json>): seq<Json>
    decreases items, |items|
  {
    if items == [] then [] else
      [Strip(items[0])] + StripItems(items[1..])
  }

  function StripEntries(entries: seq<Entry>): seq<Entry>
    decreases entries, |entries|
  {
    if entries == [] then [] else
      (if Redacts(entries[0].key, entries[0].value) then [] else [Entry(entries[0].key, Strip(entries[0].value))]) + StripEntries(entries[1..])
  }

  /** Stripping removes every environment value, adds no text, and leaves a clean record alone. */
  lemma {:induction false} StrippingCleans(j: Json)
    ensures IsClean(Strip(j)) && (CarriesText(Strip(j)) ==> CarriesText(j)) && (IsClean(j) ==> Strip(j) == j)
    decreases j, 0
  {
    match j
    case JArr(items) => StrippingCleansItems(items);
    case JObj(entries) => StrippingCleansEntries(entries);
    case _ =>
  }

  lemma {:induction false} StrippingCleansItems(items: seq<Json>)
    ensures AreClean(StripItems(items)) && (CarriesText(JArr(StripItems(items))) ==> CarriesText(JArr(items)))
    ensures AreClean(items) ==> StripItems(items) == items
    decreases items, |items|
  {
    if items != [] {
      StrippingCleans(items[0]);
      StrippingCleansItems(items[1..]);
      var rest := StripItems(items[1..]);
      if CarriesText(JArr(StripItems(items))) {
        var i :| 0 <= i < |StripItems(items)| && CarriesText(StripItems(items)[i]);
        if i > 0 {
          assert rest[i - 1] == StripItems(items)[i];
          var k :| 0 <= k < |items[1..]| && CarriesText(items[1..][k]);
          assert items[k + 1] == items[1..][k];
        }
      }
    }
  }

  lemma {:induction false} StrippingCleansEntries(entries: seq<Entry>)
    ensures EntriesAreClean(StripEntries(entries)) && (CarriesText(JObj(StripEntries(entries))) ==> CarriesText(JObj(entries)))
    ensures EntriesAreClean(entries) ==> StripEntries(entries) == entries
    decreases entries, |entries|
  {
    if entries != [] {
      StrippingCleans(entries[0].value);
      StrippingCleansEntries(entries[1..]);
      StripOneMore(entries);
    }
  }

  lemma StripOneMore(entries: seq<Entry>)
    requires entries != []
    requires IsClean(Strip(entries[0].value)) && (CarriesText(Strip(entries[0].value)) ==> CarriesText(entries[0].value))
    requires CarriesText(JObj(StripEntries(entries[1..]))) ==> CarriesText(JObj(entries[1..]))
    ensures CarriesText(JObj(StripEntries(entries))) ==> CarriesText(JObj(entries))
  {
    var rest := StripEntries(entries[1..]);
    if CarriesText(JObj(StripEntries(entries))) {
      var i :| 0 <= i < |StripEntries(entries)| && CarriesText(StripEntries(entries)[i].value);
      if Redacts(entries[0].key, entries[0].value) {
        assert CarriesText(entries[0].value);
      } else if i > 0 {
        assert rest[i - 1] == StripEntries(entries)[i];
        var k :| 0 <= k < |entries[1..]| && CarriesText(entries[1..][k].value);
        assert entries[k + 1] == entries[1..][k];
      }
    }
  }

  // ---- What stands where, read without the projection's own tests ------------------------------------

  /** One turn of a path into a tree. */
  datatype Turn = ItemAt(i: nat) | EntryAt(i: nat)

  function Child(j: Json, t: Turn): Option<Json> {
    match t
    case ItemAt(i) => if j.JArr? && i < |j.items| then Some(j.items[i]) else None
    case EntryAt(i) => if j.JObj? && i < |j.entries| then Some(j.entries[i].value) else None
  }

  function Stands(j: Json, path: seq<Turn>): Option<Json>
    decreases |path|
  {
    if path == [] then Some(j)
    else
      var c := Child(j, path[0]);
      if c.None? then None else Stands(c.value, path[1..])
  }

  const WORDS: seq<string> := ["env", "environment", "env_vars", "environment_variables", "environment_overrides", "environmentoverrides"]

  /** The same letter, small or capital, or the very same character. */
  predicate InEitherCase(c: char, small: char) {
    c == small || ('a' <= small <= 'z' && c as int + 32 == small as int)
  }

  predicate InAnyCase(key: string, word: string) {
    |key| == |word| && forall i :: 0 <= i < |key| ==> InEitherCase(key[i], word[i])
  }

  /** One of the six words, in any letter case. */
  predicate IsListed(key: string) {
    exists i :: 0 <= i < |WORDS| && InAnyCase(key, WORDS[i])
  }

  lemma LettersAgree(key: string, word: string)
    requires forall i :: 0 <= i < |word| ==> 'a' <= word[i] <= 'z' || word[i] == '_'
    ensures SameLetters(key, word) <==> InAnyCase(key, word)
  {
    if |key| == |word| {
      forall i | 0 <= i < |key| ensures Lower(key[i]) == word[i] <==> InEitherCase(key[i], word[i]) {
      }
    }
  }

  lemma ListedIff(key: string)
    ensures IsListed(key) <==> IsEnvironmentKey(key)
  {
    LettersAgree(key, WORDS[0]);
    LettersAgree(key, WORDS[1]);
    LettersAgree(key, WORDS[2]);
    LettersAgree(key, WORDS[3]);
    LettersAgree(key, WORDS[4]);
    LettersAgree(key, WORDS[5]);
  }

  /** Some path ends in a text. */
  ghost predicate HoldsText(j: Json) {
    exists path :: EndsInText(j, path)
  }

  predicate EndsInText(j: Json, path: seq<Turn>) {
    Stands(j, path).Some? && Stands(j, path).value.JText?
  }

  lemma TextBelow(j: Json, t: Turn, path: seq<Turn>)
    requires Child(j, t).Some?
    ensures EndsInText(j, [t] + path) <==> EndsInText(Child(j, t).value, path)
  {
    assert ([t] + path)[1..] == path;
  }

  lemma {:induction false} CarriedTextIsHeld(j: Json)
    requires CarriesText(j)
    ensures HoldsText(j)
    decreases j
  {
    match j
    case JText(_) => assert EndsInText(j, []);
    case JArr(items) =>
      var i :| 0 <= i < |items| && CarriesText(items[i]);
      CarriedTextIsHeld(items[i]);
      var path :| EndsInText(items[i], path);
      TextBelow(j, ItemAt(i), path);
    case JObj(entries) =>
      var i :| 0 <= i < |entries| && CarriesText(entries[i].value);
      CarriedTextIsHeld(entries[i].value);
      var path :| EndsInText(entries[i].value, path);
      TextBelow(j, EntryAt(i), path);
  }

  lemma {:induction false} HeldTextIsCarried(j: Json, path: seq<Turn>)
    requires EndsInText(j, path)
    ensures CarriesText(j)
    decreases |path|
  {
    if path != [] {
      HeldTextIsCarried(Child(j, path[0]).value, path[1..]);
    }
  }

  /** A value carries text exactly when some path into it ends in one. */
  lemma CarriesTextIff(j: Json)
    ensures CarriesText(j) <==> HoldsText(j)
  {
    if CarriesText(j) {
      CarriedTextIsHeld(j);
    }
    if path :| EndsInText(j, path) {
      HeldTextIsCarried(j, path);
    }
  }

  /** The path goes through an entry under one of the listed words. */
  predicate CrossesListed(j: Json, path: seq<Turn>)
    decreases |path|
  {
    && path != [] && Child(j, path[0]).Some?
    && ((path[0].EntryAt? && IsListed(j.entries[path[0].i].key)) || CrossesListed(Child(j, path[0]).value, path[1..]))
  }

  lemma {:induction false} CleanHides(j: Json, path: seq<Turn>)
    requires IsClean(j) && CrossesListed(j, path)
    ensures !EndsInText(j, path)
    decreases |path|
  {
    var c := Child(j, path[0]).value;
    if path[0].EntryAt? && IsListed(j.entries[path[0].i].key) {
      ListedIff(j.entries[path[0].i].key);
      CarriesTextIff(c);
      assert EndsInText(j, path) ==> EndsInText(c, path[1..]);
    } else {
      CleanHides(c, path[1..]);
    }
  }

  /** On every graph: no path of the projection through a listed key ends in a text. */
  lemma ProjectionHidesEnvironment(h: Heap, v: Value, path: seq<Turn>)
    requires ModelSafeJson(h, v).Some? && CrossesListed(ModelSafeJson(h, v).value, path)
    ensures !EndsInText(ModelSafeJson(h, v).value, path)
  {
    ProjectionIsClean(h, v);
    CleanHides(ModelSafeJson(h, v).value, path);
  }

  /** And so for a stripped record. */
  lemma StrippingHidesEnvironment(j: Json, path: seq<Turn>)
    requires CrossesListed(Strip(j), path)
    ensures !EndsInText(Strip(j), path)
  {
    StrippingCleans(j);
    CleanHides(Strip(j), path);
  }

  /** The key is not listed, or no path into the value ends in a text. */
  ghost predicate MayStay(key: string, value: Json) {
    !IsListed(key) || !HoldsText(value)
  }

  lemma MayStayIff(key: string, value: Json)
    ensures MayStay(key, value) <==> !Redacts(key, value)
  {
    ListedIff(key);
    CarriesTextIff(value);
  }

  lemma {:induction false} StripOfSum(a: seq<Entry>, b: seq<Entry>)
    ensures StripEntries(a + b) == StripEntries(a) + StripEntries(b)
  {
    if a == [] {
      assert a + b == b;
    } else {
      assert (a + b)[1..] == a[1..] + b;
      StripOfSum(a[1..], b);
    }
  }

  lemma StripOfOne(e: Entry)
    ensures StripEntries([e]) == if Redacts(e.key, e.value) then [] else [Entry(e.key, Strip(e.value))]
  {
    assert [e][1..] == [];
  }

  /** Stripping goes entry by entry, in order: one that may stay is kept under its key with its value stripped, any other goes. */
  lemma StrippingKeepsTheRest(before: seq<Entry>, e: Entry, after: seq<Entry>)
    ensures Strip(JObj(before + [e] + after)) ==
            JObj(StripEntries(before) + (if MayStay(e.key, e.value) then [Entry(e.key, Strip(e.value))] else []) + StripEntries(after))
  {
    StripOfSum(before + [e], after);
    StripOfSum(before, [e]);
    StripOfOne(e);
    MayStayIff(e.key, e.value);
  }

  lemma {:induction false} StrippingKeepsItems(items: seq<Json>)
    ensures Strip(JArr(items)) == JArr(StripItems(items))
    ensures |StripItems(items)| == |items| && forall i :: 0 <= i < |items| ==> StripItems(items)[i] == Strip(items[i])
  {
    if items != [] {
      StrippingKeepsItems(items[1..]);
    }
  }

  lemma {:induction false} FieldsOfSum(h: Heap, a: seq<Field>, b: seq<Field>, seen: set<nat>, depth: nat)
    requires depth <= DEPTH_LIMIT + 1
    ensures ProjectFields(h, a + b, seen, depth) == ProjectFields(h, a, seen, depth) + ProjectFields(h, b, seen, depth)
    decreases |a|
  {
    if a == [] {
      assert a + b == b;
    } else {
      assert (a + b)[1..] == a[1..] + b;
      FieldsOfSum(h, a[1..], b, seen, depth);
    }
  }

  lemma FieldsOfOne(h: Heap, f: Field, seen: set<nat>, depth: nat)
    requires depth <= DEPTH_LIMIT + 1
    ensures var j := Project(h, f.value, seen, depth);
            ProjectFields(h, [f], seen, depth) == if j.None? || Redacts(f.key, j.value) then [] else [Entry(f.key, j.value)]
    ensures Project(h, f.value, seen, depth).None? <==> f.value == Nothing
  {
    assert [f][1..] == [];
  }

  /**
   The projection of an object goes field by field, in order: a field that has a projection which may
   stay under its key is kept with it, any other goes.
   */
  lemma ProjectionKeepsTheRest(h: Heap, before: seq<Field>, f: Field, after: seq<Field>, seen: set<nat>, depth: nat)
    requires depth <= DEPTH_LIMIT + 1
    ensures var j := Project(h, f.value, seen, depth);
            && (j.None? <==> f.value == Nothing)
            && ProjectFields(h, before + [f] + after, seen, depth) ==
               ProjectFields(h, before, seen, depth)
               + (if j.Some? && MayStay(f.key, j.value) then [Entry(f.key, j.value)] else [])
               + ProjectFields(h, after, seen, depth)
  {
    var j := Project(h, f.value, seen, depth);
    FieldsOfSum(h, before + [f], after, seen, depth);
    FieldsOfSum(h, before, [f], seen, depth);
    FieldsOfOne(h, f, seen, depth);
    if j.Some? {
      MayStayIff(f.key, j.value);
    }
  }

  /** Items keep their places; one without a JSON form is `null`. */
  lemma {:induction false} ProjectionKeepsItems(h: Heap, items: seq<Value>, seen: set<nat>, depth: nat)
    requires depth <= DEPTH_LIMIT + 1
    ensures var out := ProjectItems(h, items, seen, depth);
            && |out| == |items|
            && forall i :: 0 <= i < |items| ==>
                 if items[i] == Nothing then out[i] == JNull else Project(h, items[i], seen, depth) == Some(out[i])
  {
    if items != [] {
      ProjectionKeepsItems(h, items[1..], seen, depth);
    }
  }

  /** Values without parts project as `JSON.stringify` writes them, at any depth. */
  lemma PartlessProject(h: Heap, v: Value, seen: set<nat>, depth: nat)
    requires !v.Ref?
    ensures Project(h, v, seen, depth) ==
            if v == Nothing then None else Some(if v.Bool? then JBool(v.b) else if v.Num? then JNum(v.n) else if v.Text? then JText(v.s)
                                                else if v.BigInt? then JText(v.text) else JNull)
  {
  }
}
