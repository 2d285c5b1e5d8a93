/**
 The close planner: what closing one pane, tab or workspace takes with it.

 `nodes` is the insertion-ordered map the source builds, kept as a list with distinct keys.
 */
module Close {
  import opened Options

  datatype Kind = Pane | Tab | Workspace

  datatype Node = Node(kind: Kind, id: string, parentId: Option<string>, children: seq<string>)

  datatype Caller = Caller(paneId: Option<string>, tabId: Option<string>, workspaceId: Option<string>)

  datatype Resource = Resource(kind: Kind, id: string, parentId: Option<string>)

  function KindName(k: Kind): string {
    match k
    case Pane => "pane"
    case Tab => "tab"
    case Workspace => "workspace"
  }

  /** What a key such as `tab:t1` says; `KeyTextIsInjective` is why the text and the pair are interchangeable. */
  datatype Tag = Tag(kind: Kind, id: string)

  function KeyText(t: Tag): string {
    KindName(t.kind) + ":" + t.id
  }

  function Key(n: Node): Tag {
    Tag(n.kind, n.id)
  }

  function AsResource(n: Node): Resource {
    Resource(n.kind, n.id, n.parentId)
  }

  lemma KeyTextIsInjective(a: Tag, b: Tag)
    requires KeyText(a) == KeyText(b)
    ensures a == b
  {
    var s, t := KeyText(a), KeyText(b);
    assert s[0] == KindName(a.kind)[0] && t[0] == KindName(b.kind)[0];
    assert s[|KindName(a.kind)| + 1..] == a.id && t[|KindName(b.kind)| + 1..] == b.id;
  }

  // ---- The topology map ---------------------------------------------------------------------

  function PlaceOf(nodes: seq<Node>, key: Tag): (i: nat)
    ensures i <= |nodes|
    ensures i < |nodes| ==> Key(nodes[i]) == key
    ensures forall j :: 0 <= j < i ==> Key(nodes[j]) != key
  {
    if nodes == [] || Key(nodes[0]) == key then 0 else PlaceOf(nodes[1..], key) + 1
  }

  /** `Map.set`: a repeated key keeps its place and takes the new value. */
  function MapSet(nodes: seq<Node>, n: Node): seq<Node> {
    var i := PlaceOf(nodes, Key(n));
    if i == |nodes| then nodes + [n] else nodes[i := n]
  }

  function MapOf(input: seq<Node>): seq<Node> {
    if input == [] then [] else MapSet(MapOf(input[..|input| - 1]), input[|input| - 1])
  }

  ghost predicate DistinctKeys(nodes: seq<Node>) {
    forall i, j :: 0 <= i < j < |nodes| ==> Key(nodes[i]) != Key(nodes[j])
  }

  predicate RepeatsKey(input: seq<Node>) {
    exists i, j :: 0 <= i < j < |input| && Key(input[i]) == Key(input[j])
  }

  /** The parent id of `c` names `n`, by id or by key. */
  predicate Refers(c: Node, n: Node) {
    c.parentId == Some(n.id) || c.parentId == Some(KeyText(Key(n)))
  }

  predicate HasParentId(n: Node) {
    n.parentId.Some? && n.parentId.value != ""
  }

  function ByParentId(nodes: seq<Node>, n: Node): seq<Node> {
    if nodes == [] then []
    else (if Refers(nodes[0], n) then [nodes[0]] else []) + ByParentId(nodes[1..], n)
  }

  /** The first node with an id, if any, as a list. */
  function Find(nodes: seq<Node>, id: string): seq<Node> {
    if nodes == [] then [] else if nodes[0].id == id then [nodes[0]] else Find(nodes[1..], id)
  }

  function WithFound(found: seq<Node>, hit: seq<Node>): seq<Node> {
    if hit != [] && forall i :: 0 <= i < |found| ==> Key(found[i]) != Key(hit[0]) then found + hit else found
  }

  function WithListed(nodes: seq<Node>, found: seq<Node>, childIds: seq<string>): seq<Node>
    decreases |childIds|
  {
    if childIds == [] then found
    else
      WithListed(nodes, WithFound(found, Find(nodes, childIds[0])), childIds[1..])
  }

  function DirectChildren(nodes: seq<Node>, n: Node): seq<Node> {
    WithListed(nodes, ByParentId(nodes, n), n.children)
  }

  function FirstReferred(nodes: seq<Node>, n: Node): Option<Node> {
    if nodes == [] then None else if Refers(n, nodes[0]) then Some(nodes[0]) else FirstReferred(nodes[1..], n)
  }

  function ParentNode(nodes: seq<Node>, n: Node): Option<Node> {
    if HasParentId(n) then FirstReferred(nodes, n) else None
  }

  predicate Repeats(ids: seq<string>) {
    exists i, j :: 0 <= i < j < |ids| && ids[i] == ids[j]
  }

  /** A node with a parent that is not there, a child listed twice, or a listed child that is not there. */
  predicate FlawedNode(nodes: seq<Node>, n: Node) {
    || (HasParentId(n) && forall p :: p in nodes ==> !Refers(n, p))
    || Repeats(n.children)
    || (exists c :: c in n.children && forall m :: m in nodes ==> m.id != c)
  }

  predicate Flawed(input: seq<Node>) {
    RepeatsKey(input) || exists n :: n in MapOf(input) && FlawedNode(MapOf(input), n)
  }

  lemma {:induction false} MapIsDistinct(input: seq<Node>)
    ensures DistinctKeys(MapOf(input))
  {
    if input != [] {
      MapIsDistinct(input[..|input| - 1]);
    }
  }

  lemma {:induction false} ByParentIdHas(nodes: seq<Node>, n: Node, c: Node)
    ensures c in ByParentId(nodes, n) <==> c in nodes && Refers(c, n)
  {
    if nodes != [] {
      ByParentIdHas(nodes[1..], n, c);
    }
  }

  lemma {:induction false} FindHas(nodes: seq<Node>, id: string)
    ensures Find(nodes, id) == [] <==> forall n :: n in nodes ==> n.id != id
    ensures Find(nodes, id) != [] ==> |Find(nodes, id)| == 1 && Find(nodes, id)[0] in nodes && Find(nodes, id)[0].id == id
  {
    if nodes != [] {
      FindHas(nodes[1..], id);
    }
  }

  lemma {:induction false} ListedAreNodes(nodes: seq<Node>, found: seq<Node>, childIds: seq<string>, c: Node)
    ensures c in found ==> c in WithListed(nodes, found, childIds)
    ensures c in WithListed(nodes, found, childIds) ==> c in found || (c in nodes && c.id in childIds)
    decreases |childIds|
  {
    if childIds != [] {
      var hit := Find(nodes, childIds[0]);
      FindHas(nodes, childIds[0]);
      ListedAreNodes(nodes, WithFound(found, hit), childIds[1..], c);
    }
  }

  lemma DirectChildrenAre(nodes: seq<Node>, n: Node)
    ensures forall c :: c in DirectChildren(nodes, n) ==> c in nodes && (Refers(c, n) || c.id in n.children)
    ensures forall c :: c in nodes && Refers(c, n) ==> c in DirectChildren(nodes, n)
  {
    forall c
      ensures c in DirectChildren(nodes, n) ==> c in nodes && (Refers(c, n) || c.id in n.children)
      ensures c in nodes && Refers(c, n) ==> c in DirectChildren(nodes, n)
    {
      ByParentIdHas(nodes, n, c);
      ListedAreNodes(nodes, ByParentId(nodes, n), n.children, c);
    }
  }

  // ---- The topology as a graph of keys ------------------------------------------------------

  function KeysIn(nodes: seq<Node>): set<Tag> {
    set n | n in nodes :: Key(n)
  }

  /** The keys of each node's direct children. */
  type Graph = map<Tag, set<Tag>>

  ghost predicate Knows(nodes: seq<Node>, g: Graph, n: Node) {
    Key(n) in g && g[Key(n)] == KeysIn(DirectChildren(nodes, n))
  }

  ghost predicate KnowsAll(nodes: seq<Node>, g: Graph) {
    forall n :: n in nodes ==> Knows(nodes, g, n)
  }

  /** The root, if it is not a node itself, shares no key with a node. */
  ghost predicate GoodRoot(nodes: seq<Node>, root: Node) {
    DistinctKeys(nodes) && (forall n :: n in nodes && Key(n) == Key(root) ==> n == root)
  }

  lemma DistinctNodes(nodes: seq<Node>, root: Node, a: Node, b: Node)
    requires GoodRoot(nodes, root) && (a in nodes || a == root) && (b in nodes || b == root) && Key(a) == Key(b)
    ensures a == b
  {
    if a in nodes && b in nodes {
      var i :| 0 <= i < |nodes| && nodes[i] == a;
      var j :| 0 <= j < |nodes| && nodes[j] == b;
    }
  }

  lemma AllDistinctNodes(nodes: seq<Node>, root: Node)
    requires GoodRoot(nodes, root)
    ensures forall a, b :: a in nodes + [root] && b in nodes + [root] && Key(a) == Key(b) ==> a == b
  {
    forall a, b | a in nodes + [root] && b in nodes + [root] && Key(a) == Key(b) ensures a == b {
      DistinctNodes(nodes, root, a, b);
    }
  }

  ghost function GraphOf(nodes: seq<Node>, root: Node): Graph
    requires GoodRoot(nodes, root)
  {
    AllDistinctNodes(nodes, root);
    map n | n in nodes + [root] :: Key(n) := KeysIn(DirectChildren(nodes, n))
  }

  lemma NodeIsKnown(nodes: seq<Node>, root: Node, n: Node)
    requires GoodRoot(nodes, root) && (n in nodes || n == root)
    ensures Knows(nodes, GraphOf(nodes, root), n)
  {
    AllDistinctNodes(nodes, root);
    assert n in nodes + [root];
  }

  lemma GraphKeys(nodes: seq<Node>, root: Node)
    requires GoodRoot(nodes, root)
    ensures GraphOf(nodes, root).Keys == KeysIn(nodes) + {Key(root)}
  {
    AllDistinctNodes(nodes, root);
    assert forall n :: n in nodes + [root] <==> n in nodes || n == root;
  }

  lemma GraphKnows(nodes: seq<Node>, root: Node)
    requires GoodRoot(nodes, root)
    ensures KnowsAll(nodes, GraphOf(nodes, root)) && Knows(nodes, GraphOf(nodes, root), root)
    ensures GraphOf(nodes, root).Keys == KeysIn(nodes) + {Key(root)}
  {
    forall n | n in nodes || n == root ensures Knows(nodes, GraphOf(nodes, root), n) {
      NodeIsKnown(nodes, root, n);
    }
    GraphKeys(nodes, root);
  }

  /** Whatever is in the set takes its children with it. */
  ghost predicate ClosedDown(g: Graph, s: set<Tag>) {
    forall k :: k in s && k in g ==> g[k] <= s
  }

  /** A container (one of `boxes`) all of whose one or more children are in the set is in it too. */
  ghost predicate ClosedUp(g: Graph, boxes: set<Tag>, s: set<Tag>) {
    forall p :: p in boxes && p in g && g[p] != {} && g[p] <= s ==> p in s
  }

  /** What is new in `after` has its children there. */
  ghost predicate ClosedBeyond(g: Graph, before: set<Tag>, after: set<Tag>) {
    forall k :: k in after && k !in before && k in g ==> g[k] <= after
  }

  /** Nothing is added that a downward closed set holding `k` does not hold. */
  ghost predicate Within(g: Graph, k: Tag, before: set<Tag>, after: set<Tag>) {
    forall c: set<Tag> :: ClosedDown(g, c) && k in c ==> after <= before + c
  }

  lemma WithinHolds(g: Graph, k: Tag, before: set<Tag>, after: set<Tag>, c: set<Tag>)
    requires Within(g, k, before, after) && ClosedDown(g, c) && k in c
    ensures after <= before + c
  {
  }

  // ---- The search --------------------------------------------------------------------------------

  function RootOf(nodes: seq<Node>, target: Resource): Node {
    var i := PlaceOf(nodes, Tag(target.kind, target.id));
    if i < |nodes| then nodes[i] else Node(target.kind, target.id, target.parentId, [])
  }

  lemma RootIsGood(nodes: seq<Node>, target: Resource)
    requires DistinctKeys(nodes)
    ensures GoodRoot(nodes, RootOf(nodes, target)) && Key(RootOf(nodes, target)) == Tag(target.kind, target.id)
    ensures Tag(target.kind, target.id) in KeysIn(nodes) <==> RootOf(nodes, target) in nodes
  {
    var root := RootOf(nodes, target);
    forall n | n in nodes && Key(n) == Key(root) ensures n == root {
      var i :| 0 <= i < |nodes| && nodes[i] == n;
    }
  }

  function ResourceKeys(rs: seq<Resource>): set<Tag> {
    set r | r in rs :: Tag(r.kind, r.id)
  }

  /** A resource list with no repeats, naming exactly these keys. */
  ghost predicate Lists(rs: seq<Resource>, keys: set<Tag>) {
    ResourceKeys(rs) == keys && |rs| == |keys|
  }

  lemma SmallerSet<T>(a: set<T>, b: set<T>)
    requires a <= b
    ensures |a| <= |b| && (a != b ==> |a| < |b|)
  {
    assert b == a + (b - a);
  }

  lemma KidsAreKnown(nodes: seq<Node>, g: Graph, n: Node)
    requires KnowsAll(nodes, g) && Knows(nodes, g, n)
    ensures forall c :: c in DirectChildren(nodes, n) ==> c in nodes && Key(c) in g[Key(n)]
  {
    DirectChildrenAre(nodes, n);
  }

  ghost predicate Reached(kids: seq<Node>, i: nat, v: set<Tag>) {
    i <= |kids| && forall j :: 0 <= j < i ==> Key(kids[j]) in v
  }

  lemma ReachedMore(kids: seq<Node>, i: nat, mid: set<Tag>, v: set<Tag>)
    requires Reached(kids, i, mid) && i < |kids| && mid <= v && Key(kids[i]) in v
    ensures Reached(kids, i + 1, v)
  {
  }

  /** The depth-first search; it terminates on every topology because each key is visited once. */
  method Visit(nodes: seq<Node>, ghost g: Graph, node: Node, visited: set<Tag>, resources: seq<Resource>)
    returns (v: set<Tag>, r: seq<Resource>)
    requires KnowsAll(nodes, g) && Knows(nodes, g, node) && visited <= g.Keys && Lists(resources, visited)
    ensures visited <= v <= g.Keys && Key(node) in v && Lists(r, v) && resources <= r
    ensures Key(node) !in visited ==> |resources| < |r| && r[|resources|] == AsResource(node)
    ensures ClosedBeyond(g, visited, v) && Within(g, Key(node), visited, v)
    decreases |g.Keys - visited|, 0
  {
    if Key(node) in visited { return visited, resources; }
    SmallerSet(g.Keys - (visited + {Key(node)}), g.Keys - visited);
    var kids := DirectChildren(nodes, node);
    KidsAreKnown(nodes, g, node);
    v, r := VisitChildren(nodes, g, Key(node), kids, visited + {Key(node)}, resources + [AsResource(node)]);
  }

  method VisitChildren(nodes: seq<Node>, ghost g: Graph, ghost k: Tag, kids: seq<Node>, visited: set<Tag>, resources: seq<Resource>)
    returns (v: set<Tag>, r: seq<Resource>)
    requires KnowsAll(nodes, g) && k in g && g[k] == KeysIn(kids) && visited <= g.Keys && Lists(resources, visited)
    requires forall c :: c in kids ==> c in nodes && Key(c) in g[k]
    ensures visited <= v <= g.Keys && Lists(r, v) && g[k] <= v && resources <= r
    ensures ClosedBeyond(g, visited, v) && Within(g, k, visited, v)
    decreases |g.Keys - visited|, 2
  {
    v, r := visited, resources;
    var i := 0;
    while i < |kids|
      invariant 0 <= i <= |kids|
      invariant visited <= v <= g.Keys && Lists(r, v) && resources <= r
      invariant Reached(kids, i, v)
      invariant ClosedBeyond(g, visited, v) && Within(g, k, visited, v)
    {
      SmallerSet(g.Keys - v, g.Keys - visited);
      assert kids[i] in kids;
      ghost var mid := v;
      v, r := Visit(nodes, g, kids[i], v, r);
      ReachedMore(kids, i, mid, v);
      i := i + 1;
    }
  }

  // ---- The climb -----------------------------------------------------------------------------------

  lemma {:induction false} FirstReferredIs(nodes: seq<Node>, n: Node)
    ensures FirstReferred(nodes, n).Some? ==> FirstReferred(nodes, n).value in nodes && Refers(n, FirstReferred(nodes, n).value)
    ensures FirstReferred(nodes, n).None? <==> forall p :: p in nodes ==> !Refers(n, p)
  {
    if nodes != [] {
      FirstReferredIs(nodes[1..], n);
    }
  }

  function Unvisited(kids: seq<Node>, visited: set<Tag>): seq<Node> {
    if kids == [] then [] else (if Key(kids[0]) in visited then [] else [kids[0]]) + Unvisited(kids[1..], visited)
  }

  lemma {:induction false} UnvisitedIs(kids: seq<Node>, visited: set<Tag>)
    ensures Unvisited(kids, visited) == [] <==> KeysIn(kids) <= visited
  {
    if kids != [] {
      UnvisitedIs(kids[1..], visited);
      assert forall c :: c in kids <==> c == kids[0] || c in kids[1..];
      assert KeysIn(kids) == {Key(kids[0])} + KeysIn(kids[1..]) by {
        forall k ensures k in KeysIn(kids) <==> k in {Key(kids[0])} + KeysIn(kids[1..]) {
          if k in KeysIn(kids[1..]) {
            var c :| c in kids[1..] && Key(c) == k;
            assert c in kids;
          }
        }
      }
    }
  }

  /** Every downward closed set holding `k` holds `x`. */
  ghost predicate Below(g: Graph, k: Tag, x: Tag) {
    forall c: set<Tag> :: ClosedDown(g, c) && k in c ==> x in c
  }

  /** `k` and all that hangs below it. */
  ghost function Down(g: Graph, k: Tag): set<Tag> {
    set x | x in g.Keys && Below(g, k, x)
  }

  ghost predicate Whole(g: Graph) {
    forall k :: k in g ==> g[k] <= g.Keys
  }

  lemma DownIsClosed(g: Graph, k: Tag)
    requires Whole(g) && k in g
    ensures ClosedDown(g, Down(g, k)) && k in Down(g, k)
  {
    forall x, y | x in Down(g, k) && x in g && y in g[x] ensures y in Down(g, k) {
      assert Below(g, k, x);
    }
  }

  /** What a visit adds to a closed set is what hangs below the visited node. */
  lemma VisitAddsDown(g: Graph, k: Tag, before: set<Tag>, after: set<Tag>)
    requires Whole(g) && k in after && before <= after <= g.Keys && ClosedDown(g, after) && Within(g, k, before, after)
    ensures after == before + Down(g, k)
  {
    DownIsClosed(g, k);
    WithinHolds(g, k, before, after, Down(g, k));
    forall x | x in Down(g, k) ensures x in after {
      assert Below(g, k, x);
    }
  }

  datatype Gathered = Gathered(keys: set<Tag>, looped: bool)

  /** Up from `child`, as long as each parent is unvisited and has no unvisited child. */
  ghost function ClimbFrom(nodes: seq<Node>, g: Graph, child: Node, v: set<Tag>): Gathered
    requires KnowsAll(nodes, g) && Whole(g) && v <= g.Keys
    decreases |g.Keys - v|
  {
    FirstReferredIs(nodes, child);
    var parent := ParentNode(nodes, child);
    if parent.None? then Gathered(v, false)
    else
      assert Knows(nodes, g, parent.value);
      var p := Key(parent.value);
      if p in v then Gathered(v, true)
      else if !(g[p] <= v) then Gathered(v, false)
      else
        DownIsClosed(g, p);
        SmallerSet(g.Keys - (v + Down(g, p)), g.Keys - v);
        ClimbFrom(nodes, g, parent.value, v + Down(g, p))
  }

  lemma ParentHas(nodes: seq<Node>, g: Graph, child: Node)
    requires KnowsAll(nodes, g) && child in nodes && ParentNode(nodes, child).Some?
    ensures ParentNode(nodes, child).value in nodes && Knows(nodes, g, ParentNode(nodes, child).value)
    ensures Key(child) in g[Key(ParentNode(nodes, child).value)]
  {
    FirstReferredIs(nodes, child);
    var p := ParentNode(nodes, child).value;
    assert Knows(nodes, g, p);
    DirectChildrenAre(nodes, p);
    assert child in DirectChildren(nodes, p);
  }

  /** The upward pass: a container whose children are all visited is visited, and so on up. */
  method Climb(nodes: seq<Node>, ghost g: Graph, start: Node, visited: set<Tag>, resources: seq<Resource>)
    returns (v: set<Tag>, r: seq<Resource>, looped: bool)
    requires KnowsAll(nodes, g) && Whole(g) && start in nodes && visited <= g.Keys && Lists(resources, visited)
    requires ClosedDown(g, visited)
    ensures v <= g.Keys && Lists(r, v) && resources <= r
    ensures ClimbFrom(nodes, g, start, visited) == Gathered(v, looped)
  {
    v, r, looped := visited, resources, false;
    var child := start;
    while true
      invariant child in nodes && !looped && v <= g.Keys && Lists(r, v) && resources <= r && ClosedDown(g, v)
      invariant ClimbFrom(nodes, g, child, v) == ClimbFrom(nodes, g, start, visited)
      decreases |g.Keys - v|
    {
      var parent := ParentNode(nodes, child);
      if parent.None? { break; }
      ParentHas(nodes, g, child);
      if Key(parent.value) in v {
        looped := true;
        break;
      }
      UnvisitedIs(DirectChildren(nodes, parent.value), v);
      if |Unvisited(DirectChildren(nodes, parent.value), v)| > 0 { break; }
      ghost var before := v;
      v, r := Visit(nodes, g, parent.value, v, r);
      VisitAddsDown(g, Key(parent.value), before, v);
      SmallerSet(g.Keys - v, g.Keys - before);
      child := parent.value;
    }
  }

  /** Held by every set that holds `start` and is closed both ways. */
  ghost predicate Least(g: Graph, boxes: set<Tag>, start: set<Tag>, s: set<Tag>) {
    forall c: set<Tag> :: ClosedDown(g, c) && ClosedUp(g, boxes, c) && start <= c ==> s <= c
  }

  lemma StillLeast(g: Graph, boxes: set<Tag>, start: set<Tag>, top: Tag, s: set<Tag>)
    requires Least(g, boxes, start, s)
    requires top in boxes && top in g && g[top] != {} && g[top] <= s
    ensures Least(g, boxes, start, s + Down(g, top))
  {
    forall c: set<Tag> | ClosedDown(g, c) && ClosedUp(g, boxes, c) && start <= c ensures s + Down(g, top) <= c {
      assert top in c;
      forall x | x in Down(g, top) ensures x in c {
        assert Below(g, top, x);
      }
    }
  }

  lemma StillClosed(g: Graph, s: set<Tag>, top: Tag)
    requires Whole(g) && top in g && ClosedDown(g, s)
    ensures ClosedDown(g, s + Down(g, top))
  {
    DownIsClosed(g, top);
  }

  /** On every topology the climb gathers a closed set, and no more than every doubly closed set holds. */
  lemma {:induction false} ClimbIsLeast(nodes: seq<Node>, g: Graph, child: Node, v: set<Tag>, start: set<Tag>)
    requires KnowsAll(nodes, g) && Whole(g) && v <= g.Keys && child in nodes && Key(child) in v
    requires ClosedDown(g, v) && Least(g, KeysIn(nodes), start, v)
    ensures var a := ClimbFrom(nodes, g, child, v).keys; v <= a <= g.Keys && ClosedDown(g, a) && Least(g, KeysIn(nodes), start, a)
    decreases |g.Keys - v|
  {
    var parent := ParentNode(nodes, child);
    if parent.Some? {
      ParentHas(nodes, g, child);
      var p := Key(parent.value);
      if p !in v && g[p] <= v {
        DownIsClosed(g, p);
        SmallerSet(g.Keys - (v + Down(g, p)), g.Keys - v);
        StillClosed(g, v, p);
        StillLeast(g, KeysIn(nodes), start, p, v);
        ClimbIsLeast(nodes, g, parent.value, v + Down(g, p), start);
      }
    }
  }

  ghost predicate OneParent(g: Graph) {
    forall p, q, k :: p in g && q in g && k in g[p] && k in g[q] ==> p == q
  }

  ghost predicate Falls(depth: map<Tag, nat>, p: Tag, k: Tag) {
    p in depth && k in depth && depth[p] < depth[k]
  }

  ghost predicate Deeper(g: Graph, depth: map<Tag, nat>) {
    && g.Keys <= depth.Keys
    && forall p, k :: p in g && k in g[p] ==> Falls(depth, p, k)
  }

  /** Everything but the top has its parents in the set. */
  ghost predicate Lineage(g: Graph, s: set<Tag>, top: Tag) {
    forall k, p :: k in s && k != top && p in g && k in g[p] ==> p in s
  }

  ghost predicate Shallowest(depth: map<Tag, nat>, s: set<Tag>, top: Tag) {
    top in depth && s <= depth.Keys && forall k :: k in s ==> depth[top] <= depth[k]
  }

  lemma DownHasLineage(g: Graph, top: Tag)
    requires Whole(g) && OneParent(g) && top in g
    ensures Lineage(g, Down(g, top), top)
  {
    DownIsClosed(g, top);
    var c := set k | k in Down(g, top) && (k == top || exists p :: p in Down(g, top) && p in g && k in g[p]);
    assert ClosedDown(g, c);
    forall k | k in Down(g, top) ensures k in c {
      assert Below(g, top, k);
    }
  }

  lemma DownIsDeeper(g: Graph, depth: map<Tag, nat>, top: Tag)
    requires Whole(g) && Deeper(g, depth) && top in g
    ensures Shallowest(depth, Down(g, top), top)
  {
    DownIsClosed(g, top);
    var c := set k | k in Down(g, top) && depth[top] <= depth[k];
    assert ClosedDown(g, c);
    forall k | k in Down(g, top) ensures k in c {
      assert Below(g, top, k);
    }
  }

  lemma LineageGrows(g: Graph, child: Tag, top: Tag, s: set<Tag>)
    requires Whole(g) && OneParent(g) && top in g && child in g[top] && Lineage(g, s, child)
    ensures Lineage(g, s + Down(g, top), top)
  {
    DownIsClosed(g, top);
    DownHasLineage(g, top);
  }

  lemma ClimbedIsClosedUp(g: Graph, boxes: set<Tag>, s: set<Tag>, top: Tag)
    requires Lineage(g, s, top)
    requires forall p :: p in g && top in g[p] && g[p] <= s ==> p in s
    ensures ClosedUp(g, boxes, s)
  {
    forall p | p in boxes && p in g && g[p] != {} && g[p] <= s ensures p in s {
      var k :| k in g[p];
    }
  }

  /** The parent lookup and the children lists agree. */
  ghost predicate ParentsMatch(nodes: seq<Node>, g: Graph) {
    forall n, p :: n in nodes && p in nodes ==> Matches(g, n, p)
  }

  ghost predicate Matches(g: Graph, n: Node, p: Node) {
    Key(p) in g && Key(n) in g[Key(p)] ==> HasParentId(n) && Refers(n, p)
  }

  lemma NoParent(nodes: seq<Node>, g: Graph, child: Node)
    requires g.Keys == KeysIn(nodes) && ParentsMatch(nodes, g) && child in nodes && ParentNode(nodes, child).None?
    ensures forall p :: p in g ==> Key(child) !in g[p]
  {
    FirstReferredIs(nodes, child);
    forall p | p in g ensures Key(child) !in g[p] {
      var n :| n in nodes && Key(n) == p;
      assert Matches(g, child, n);
    }
  }

  /** Where each node has at most one parent, which the lookup finds, a climb that meets no visited parent leaves no container emptied. */
  lemma {:induction false} ClimbCloses(nodes: seq<Node>, g: Graph, child: Node, v: set<Tag>)
    requires KnowsAll(nodes, g) && Whole(g) && v <= g.Keys && child in nodes && Key(child) in v
    requires OneParent(g) && ParentsMatch(nodes, g) && g.Keys == KeysIn(nodes) && Lineage(g, v, Key(child))
    ensures var a := ClimbFrom(nodes, g, child, v); a.looped || ClosedUp(g, KeysIn(nodes), a.keys)
    decreases |g.Keys - v|
  {
    var parent := ParentNode(nodes, child);
    if parent.None? {
      NoParent(nodes, g, child);
      ClimbedIsClosedUp(g, KeysIn(nodes), v, Key(child));
    } else {
      ParentHas(nodes, g, child);
      var p := Key(parent.value);
      if p !in v && g[p] <= v {
        DownIsClosed(g, p);
        SmallerSet(g.Keys - (v + Down(g, p)), g.Keys - v);
        LineageGrows(g, Key(child), p, v);
        ClimbCloses(nodes, g, parent.value, v + Down(g, p));
      } else if p !in v {
        ClimbedIsClosedUp(g, KeysIn(nodes), v, Key(child));
      }
    }
  }

  /** Where depth grows from parents to children, the climb meets no visited parent. */
  lemma {:induction false} ClimbNeverLoops(nodes: seq<Node>, g: Graph, depth: map<Tag, nat>, child: Node, v: set<Tag>)
    requires KnowsAll(nodes, g) && Whole(g) && v <= g.Keys && child in nodes
    requires Deeper(g, depth) && Shallowest(depth, v, Key(child))
    ensures !ClimbFrom(nodes, g, child, v).looped
    decreases |g.Keys - v|
  {
    if ParentNode(nodes, child).Some? {
      ParentHas(nodes, g, child);
      var parent := ParentNode(nodes, child).value;
      var p := Key(parent);
      assert Falls(depth, p, Key(child));
      if g[p] <= v {
        DownIsClosed(g, p);
        SmallerSet(g.Keys - (v + Down(g, p)), g.Keys - v);
        DownIsDeeper(g, depth, p);
        ClimbNeverLoops(nodes, g, depth, parent, v + Down(g, p));
      }
    }
  }

  // ---- The first pass --------------------------------------------------------------------------------

  lemma MapSetKeys(nodes: seq<Node>, n: Node)
    ensures KeysIn(MapSet(nodes, n)) == KeysIn(nodes) + {Key(n)}
  {
    var i := PlaceOf(nodes, Key(n));
    var m := MapSet(nodes, n);
    forall k ensures k in KeysIn(m) <==> k in KeysIn(nodes) + {Key(n)} {
      if k in KeysIn(nodes) {
        var j :| 0 <= j < |nodes| && Key(nodes[j]) == k;
        assert j != i ==> m[j] == nodes[j] && m[j] in m;
        assert j == i ==> m[i] == n;
      }
      assert i < |m| && m[i] == n && m[i] in m;
      if k in KeysIn(m) {
        var j :| 0 <= j < |m| && Key(m[j]) == k;
        assert j < |nodes| && j != i ==> nodes[j] in nodes;
      }
    }
  }

  /** The map holds exactly the keys given. */
  lemma {:induction false} MapHasKeys(input: seq<Node>)
    ensures KeysIn(MapOf(input)) == KeysIn(input)
  {
    if input != [] {
      var init, last := input[..|input| - 1], input[|input| - 1];
      MapHasKeys(init);
      MapSetKeys(MapOf(init), last);
      assert input == init + [last];
      forall k ensures k in KeysIn(input) <==> k in KeysIn(init) + {Key(last)} {
        if k in KeysIn(init) {
          var n :| n in init && Key(n) == k;
          assert n in input;
        }
      }
    }
  }

  lemma HasIsPlaced(input: seq<Node>, n: Node)
    ensures PlaceOf(MapOf(input), Key(n)) < |MapOf(input)| <==> exists j :: 0 <= j < |input| && Key(input[j]) == Key(n)
  {
    MapHasKeys(input);
    var m := MapOf(input);
    if i :| 0 <= i < |m| && Key(m[i]) == Key(n) {
      assert m[i] in m && Key(n) in KeysIn(input);
    }
    if j :| 0 <= j < |input| && Key(input[j]) == Key(n) {
      assert input[j] in input && Key(n) in KeysIn(m);
      var x :| x in m && Key(x) == Key(n);
    }
  }

  lemma RepeatsMore(input: seq<Node>, i: nat)
    requires i < |input|
    ensures RepeatsKey(input[..i + 1]) <==> RepeatsKey(input[..i]) || PlaceOf(MapOf(input[..i]), Key(input[i])) < |MapOf(input[..i])|
  {
    HasIsPlaced(input[..i], input[i]);
    var a, b := input[..i], input[..i + 1];
    assert b == a + [input[i]];
    if RepeatsKey(a) {
      var x, y :| 0 <= x < y < |a| && Key(a[x]) == Key(a[y]);
      assert Key(b[x]) == Key(b[y]);
    }
    if x :| 0 <= x < |a| && Key(a[x]) == Key(input[i]) {
      assert Key(b[x]) == Key(b[i]);
    }
    if RepeatsKey(b) {
      var x, y :| 0 <= x < y < |b| && Key(b[x]) == Key(b[y]);
      assert y < i ==> Key(a[x]) == Key(a[y]);
      assert y == i ==> Key(a[x]) == Key(input[i]);
    }
  }

  function IdSet(ids: seq<string>): set<string> {
    set c | c in ids
  }

  lemma RepeatsLast(init: seq<string>, last: string)
    ensures Repeats(init + [last]) <==> Repeats(init) || last in init
  {
    var ids := init + [last];
    if Repeats(init) {
      var i, j :| 0 <= i < j < |init| && init[i] == init[j];
      assert ids[i] == ids[j];
    }
    if last in init {
      var i :| 0 <= i < |init| && init[i] == last;
      assert ids[i] == ids[|init|];
    }
    if Repeats(ids) {
      var i, j :| 0 <= i < j < |ids| && ids[i] == ids[j];
      assert ids[i] == init[i] && ids[j] == if j < |init| then init[j] else last;
    }
  }

  lemma IdSetLast(init: seq<string>, last: string)
    ensures IdSet(init + [last]) == IdSet(init) + {last}
  {
  }

  /** `new Set(children).size !== children.length` says that a child is listed twice. */
  lemma {:induction false} SetIsSmallerIffRepeats(ids: seq<string>)
    ensures |IdSet(ids)| <= |ids|
    ensures |IdSet(ids)| != |ids| <==> Repeats(ids)
  {
    if ids != [] {
      var init, last := ids[..|ids| - 1], ids[|ids| - 1];
      assert ids == init + [last];
      SetIsSmallerIffRepeats(init);
      RepeatsLast(init, last);
      IdSetLast(init, last);
      assert last in IdSet(init) <==> last in init;
    }
  }

  lemma {:induction false} FindMisses(nodes: seq<Node>, n: Node)
    ensures (exists c :: c in n.children && Find(nodes, c) == []) <==> (exists c :: c in n.children && forall m :: m in nodes ==> m.id != c)
  {
    forall c ensures Find(nodes, c) == [] <==> forall m :: m in nodes ==> m.id != c {
      FindHas(nodes, c);
    }
  }

  method BuildMap(input: seq<Node>) returns (nodes: seq<Node>, malformed: bool)
    ensures nodes == MapOf(input) && (malformed <==> RepeatsKey(input))
  {
    nodes, malformed := [], false;
    assert input[..0] == [];
    for i := 0 to |input|
      invariant nodes == MapOf(input[..i]) && (malformed <==> RepeatsKey(input[..i]))
    {
      RepeatsMore(input, i);
      if PlaceOf(nodes, Key(input[i])) < |nodes| {
        malformed := true;
      }
      assert input[..i + 1][..i] == input[..i];
      nodes := MapSet(nodes, input[i]);
    }
    assert input[..|input|] == input;
  }

  method FlagNode(nodes: seq<Node>, n: Node) returns (malformed: bool)
    ensures malformed <==> FlawedNode(nodes, n)
  {
    malformed := false;
    FirstReferredIs(nodes, n);
    if HasParentId(n) && FirstReferred(nodes, n).None? {
      malformed := true;
    }
    SetIsSmallerIffRepeats(n.children);
    if |IdSet(n.children)| != |n.children| {
      malformed := true;
    }
    FindMisses(nodes, n);
    if exists c :: c in n.children && Find(nodes, c) == [] {
      malformed := true;
    }
  }

  method FlagNodes(nodes: seq<Node>) returns (malformed: bool)
    ensures malformed <==> exists n :: n in nodes && FlawedNode(nodes, n)
  {
    malformed := false;
    for i := 0 to |nodes|
      invariant malformed <==> exists j :: 0 <= j < i && FlawedNode(nodes, nodes[j])
    {
      var flagged := FlagNode(nodes, nodes[i]);
      malformed := malformed || flagged;
    }
  }

  // ---- What a close takes with it ------------------------------------------------------------------

  lemma GraphIsWhole(nodes: seq<Node>, root: Node)
    requires GoodRoot(nodes, root)
    ensures Whole(GraphOf(nodes, root))
  {
    GraphKnows(nodes, root);
    var g := GraphOf(nodes, root);
    forall k | k in g ensures g[k] <= g.Keys {
      var n :| n in nodes + [root] && Key(n) == k;
      assert Knows(nodes, g, n);
      KidsAreKnown(nodes, g, n);
    }
  }

  /** What the search from the root, and the climb if the root is a node, gather. */
  ghost function Gather(nodes: seq<Node>, root: Node): Gathered
    requires GoodRoot(nodes, root)
  {
    GraphKnows(nodes, root);
    GraphIsWhole(nodes, root);
    var g := GraphOf(nodes, root);
    if root in nodes then ClimbFrom(nodes, g, root, Down(g, Key(root))) else Gathered(Down(g, Key(root)), false)
  }

  ghost function Affected(input: seq<Node>, target: Resource): Gathered {
    MapIsDistinct(input);
    RootIsGood(MapOf(input), target);
    Gather(MapOf(input), RootOf(MapOf(input), target))
  }

  /** A close is called malformed when the topology is flawed or the climb runs in a circle. */
  ghost predicate Malformed(input: seq<Node>, target: Resource) {
    Flawed(input) || Affected(input, target).looped
  }

  method CollectAffected(input: seq<Node>, target: Resource) returns (resources: seq<Resource>, malformed: bool)
    ensures Lists(resources, Affected(input, target).keys)
    ensures resources != [] && resources[0].kind == target.kind && resources[0].id == target.id
    ensures malformed <==> Malformed(input, target)
  {
    var nodes, repeated := BuildMap(input);
    var flagged := FlagNodes(nodes);
    malformed := repeated || flagged;
    MapIsDistinct(input);
    RootIsGood(nodes, target);
    var root := RootOf(nodes, target);
    ghost var g := GraphOf(nodes, root);
    GraphKnows(nodes, root);
    GraphIsWhole(nodes, root);
    var visited: set<Tag>;
    visited, resources := Visit(nodes, g, root, {}, []);
    VisitAddsDown(g, Key(root), {}, visited);
    assert visited == Down(g, Key(root));
    if PlaceOf(nodes, Key(root)) < |nodes| {
      var v, r, looped := Climb(nodes, g, root, visited, resources);
      resources := r;
      malformed := malformed || looped;
    }
  }

  /** The keys each node's children are known by, for a topology and a target. */
  ghost function LinksOf(input: seq<Node>, target: Resource): Graph {
    MapIsDistinct(input);
    RootIsGood(MapOf(input), target);
    GraphOf(MapOf(input), RootOf(MapOf(input), target))
  }

  function BoxesOf(input: seq<Node>): set<Tag> {
    KeysIn(MapOf(input))
  }

  function KeyOf(target: Resource): Tag {
    Tag(target.kind, target.id)
  }

  /**
   On every topology, cyclic ones included, the affected keys hold the target, are closed under
   children, and lie in every set that is also closed under emptied containers.
   */
  lemma AffectedIsLeast(input: seq<Node>, target: Resource)
    ensures var g, a := LinksOf(input, target), Affected(input, target).keys;
            && Whole(g) && g.Keys == BoxesOf(input) + {KeyOf(target)} && KeyOf(target) in a && a <= g.Keys
            && ClosedDown(g, a) && Least(g, BoxesOf(input), {KeyOf(target)}, a)
  {
    MapIsDistinct(input);
    var nodes := MapOf(input);
    RootIsGood(nodes, target);
    GatherIsLeast(nodes, RootOf(nodes, target));
  }

  lemma GatherIsLeast(nodes: seq<Node>, root: Node)
    requires GoodRoot(nodes, root)
    ensures var g, a := GraphOf(nodes, root), Gather(nodes, root).keys;
            && Whole(g) && g.Keys == KeysIn(nodes) + {Key(root)} && Key(root) in a && a <= g.Keys
            && ClosedDown(g, a) && Least(g, KeysIn(nodes), {Key(root)}, a)
  {
    GraphKnows(nodes, root);
    GraphIsWhole(nodes, root);
    var g := GraphOf(nodes, root);
    DownIsClosed(g, Key(root));
    forall c: set<Tag> | ClosedDown(g, c) && Key(root) in c ensures Down(g, Key(root)) <= c {
      forall x | x in Down(g, Key(root)) ensures x in c {
        assert Below(g, Key(root), x);
      }
    }
    if root in nodes {
      ClimbIsLeast(nodes, g, root, Down(g, Key(root)), {Key(root)});
    }
  }

  // ---- Topologies in which each node names one parent ------------------------------------------------

  /** Each of `nodes` names at most one of `all`, not by the empty id, and who lists it is who it names. */
  ghost predicate OneWay(nodes: seq<Node>, all: seq<Node>) {
    && (forall c, p :: c in nodes && p in all && Refers(c, p) ==> HasParentId(c))
    && (forall c, p :: c in nodes && p in all && c.id in p.children ==> Refers(c, p))
    && (forall c, p, q :: c in nodes && p in all && q in all && Refers(c, p) && Refers(c, q) ==> p == q)
  }

  lemma EdgeRefers(nodes: seq<Node>, root: Node, p: Tag, k: Tag) returns (n: Node, c: Node)
    requires GoodRoot(nodes, root) && OneWay(nodes, nodes + [root])
    requires p in GraphOf(nodes, root) && k in GraphOf(nodes, root)[p]
    ensures n in nodes + [root] && c in nodes && Key(n) == p && Key(c) == k && Refers(c, n)
  {
    GraphKnows(nodes, root);
    n :| n in nodes + [root] && Key(n) == p;
    assert Knows(nodes, GraphOf(nodes, root), n);
    DirectChildrenAre(nodes, n);
    c :| c in DirectChildren(nodes, n) && Key(c) == k;
  }

  lemma OneWayIsOneParent(nodes: seq<Node>, root: Node)
    requires GoodRoot(nodes, root) && OneWay(nodes, nodes + [root])
    ensures OneParent(GraphOf(nodes, root))
  {
    var g := GraphOf(nodes, root);
    forall p, q, k | p in g && q in g && k in g[p] && k in g[q] ensures p == q {
      var n, c := EdgeRefers(nodes, root, p, k);
      var m, d := EdgeRefers(nodes, root, q, k);
      DistinctNodes(nodes, root, c, d);
    }
  }

  lemma OneWayMatches(nodes: seq<Node>, root: Node)
    requires GoodRoot(nodes, root) && OneWay(nodes, nodes + [root])
    ensures ParentsMatch(nodes, GraphOf(nodes, root))
  {
    var g := GraphOf(nodes, root);
    forall n, p | n in nodes && p in nodes ensures Matches(g, n, p) {
      if Key(p) in g && Key(n) in g[Key(p)] {
        var q, c := EdgeRefers(nodes, root, Key(p), Key(n));
        DistinctNodes(nodes, root, p, q);
        DistinctNodes(nodes, root, n, c);
      }
    }
  }

  /** Then what is gathered without meeting a circle leaves no container emptied, cyclic topology or not. */
  lemma OneWayCloses(nodes: seq<Node>, root: Node)
    requires GoodRoot(nodes, root) && OneWay(nodes, nodes + [root])
    ensures Gather(nodes, root).looped || ClosedUp(GraphOf(nodes, root), KeysIn(nodes), Gather(nodes, root).keys)
  {
    var g := GraphOf(nodes, root);
    GraphKnows(nodes, root);
    GraphIsWhole(nodes, root);
    OneWayIsOneParent(nodes, root);
    DownIsClosed(g, Key(root));
    DownHasLineage(g, Key(root));
    if root in nodes {
      OneWayMatches(nodes, root);
      assert Key(root) in KeysIn(nodes);
      ClimbCloses(nodes, g, root, Down(g, Key(root)));
    } else {
      forall p | p in g ensures Key(root) !in g[p] {
        if Key(root) in g[p] {
          var n, c := EdgeRefers(nodes, root, p, Key(root));
          DistinctNodes(nodes, root, c, root);
        }
      }
      ClimbedIsClosedUp(g, KeysIn(nodes), Down(g, Key(root)), Key(root));
    }
  }

  /** Each node names at most one parent, and there is no cycle: `depth` grows from a parent to its children. */
  ghost predicate Forest(nodes: seq<Node>, depth: map<Tag, nat>) {
    && OneWay(nodes, nodes) && KeysIn(nodes) <= depth.Keys
    && (forall c, p :: c in nodes && p in nodes && Refers(c, p) ==> depth[Key(p)] < depth[Key(c)])
  }

  ghost predicate IsForest(nodes: seq<Node>) {
    exists depth: map<Tag, nat> :: Forest(nodes, depth)
  }

  lemma RootAddsNothing(nodes: seq<Node>, root: Node)
    requires root in nodes && OneWay(nodes, nodes)
    ensures OneWay(nodes, nodes + [root])
  {
    assert forall p :: p in nodes + [root] ==> p in nodes;
  }

  lemma ForestNeverLoops(nodes: seq<Node>, root: Node, depth: map<Tag, nat>)
    requires GoodRoot(nodes, root) && root in nodes && Forest(nodes, depth)
    ensures !Gather(nodes, root).looped
  {
    var g := GraphOf(nodes, root);
    GraphKnows(nodes, root);
    GraphIsWhole(nodes, root);
    RootAddsNothing(nodes, root);
    assert Key(root) in KeysIn(nodes);
    forall p, k | p in g && k in g[p] ensures Falls(depth, p, k) {
      var n, c := EdgeRefers(nodes, root, p, k);
    }
    DownIsClosed(g, Key(root));
    DownIsDeeper(g, depth, Key(root));
    ClimbNeverLoops(nodes, g, depth, root, Down(g, Key(root)));
  }

  /** On a forest the affected keys of a node are closed both ways, so they are the least such set, and only flaws are malformed. */
  lemma ForestAffectedIsLeast(input: seq<Node>, target: Resource)
    requires IsForest(MapOf(input)) && KeyOf(target) in BoxesOf(input)
    ensures ClosedUp(LinksOf(input, target), BoxesOf(input), Affected(input, target).keys)
    ensures Malformed(input, target) <==> Flawed(input)
  {
    MapIsDistinct(input);
    var nodes := MapOf(input);
    RootIsGood(nodes, target);
    var depth: map<Tag, nat> :| Forest(nodes, depth);
    ForestNeverLoops(nodes, RootOf(nodes, target), depth);
    RootAddsNothing(nodes, RootOf(nodes, target));
    OneWayCloses(nodes, RootOf(nodes, target));
  }

  // ---- The verdict -------------------------------------------------------------------------------------

  datatype Code = ProtectedResource | TopologyInvalid

  datatype Validation = Allowed(resourceIds: seq<string>) | Refused(code: Code, resourceIds: seq<string>)

  function Given(kind: Kind, id: Option<string>): set<Tag> {
    if id.Some? && id.value != "" then {Tag(kind, id.value)} else {}
  }

  function Protected(caller: Caller): set<Tag> {
    Given(Pane, caller.paneId) + Given(Tab, caller.tabId) + Given(Workspace, caller.workspaceId)
  }

  function Ids(rs: seq<Resource>): seq<string> {
    if rs == [] then [] else [rs[0].id] + Ids(rs[1..])
  }

  /** The ids reported are those of the affected resources, each once. */
  ghost predicate Reports(ids: seq<string>, keys: set<Tag>) {
    exists rs: seq<Resource> :: Lists(rs, keys) && ids == Ids(rs)
  }

  ghost predicate IsVerdict(input: seq<Node>, caller: Caller, target: Resource, v: Validation) {
    && Reports(v.resourceIds, Affected(input, target).keys)
    && (v.Allowed? <==> !Malformed(input, target) && Affected(input, target).keys !! Protected(caller))
    && (v.Refused? ==> (v.code.TopologyInvalid? <==> Malformed(input, target)))
  }

  method ValidateClose(input: seq<Node>, caller: Caller, target: Resource) returns (v: Validation)
    ensures IsVerdict(input, caller, target, v)
  {
    var resources, flawed := CollectAffected(input, target);
    if flawed {
      v := Refused(TopologyInvalid, Ids(resources));
    } else if exists r :: r in resources && Tag(r.kind, r.id) in Protected(caller) {
      v := Refused(ProtectedResource, Ids(resources));
    } else {
      forall k | k in Affected(input, target).keys ensures k !in Protected(caller) {
        assert k in ResourceKeys(resources);
      }
      v := Allowed(Ids(resources));
    }
  }

  // ---- Cascading removal ---------------------------------------------------------------------------------

  ghost function SetOf(order: seq<Tag>): set<Tag> {
    set k | k in order
  }

  /** The target goes, children go with their parent, and a container goes when its last child has gone. */
  ghost predicate MayGo(g: Graph, boxes: set<Tag>, target: Tag, gone: set<Tag>, k: Tag) {
    || k == target
    || (exists p :: p in gone && p in g && k in g[p])
    || (k in boxes && k in g && g[k] != {} && g[k] <= gone)
  }

  ghost predicate Removal(g: Graph, boxes: set<Tag>, target: Tag, order: seq<Tag>) {
    forall i :: 0 <= i < |order| ==> MayGo(g, boxes, target, SetOf(order[..i]), order[i])
  }

  lemma RemovalShortens(g: Graph, boxes: set<Tag>, target: Tag, order: seq<Tag>)
    requires order != [] && Removal(g, boxes, target, order)
    ensures Removal(g, boxes, target, order[..|order| - 1])
  {
    var init := order[..|order| - 1];
    forall i | 0 <= i < |init| ensures MayGo(g, boxes, target, SetOf(init[..i]), init[i]) {
      assert init[..i] == order[..i];
    }
  }

  lemma RemovalGoesOn(g: Graph, boxes: set<Tag>, target: Tag, order: seq<Tag>, k: Tag)
    requires Removal(g, boxes, target, order) && MayGo(g, boxes, target, SetOf(order), k)
    ensures Removal(g, boxes, target, order + [k]) && SetOf(order + [k]) == SetOf(order) + {k}
  {
    var longer := order + [k];
    forall i | 0 <= i < |longer| ensures MayGo(g, boxes, target, SetOf(longer[..i]), longer[i]) {
      assert longer[..i] == order[..i];
      assert order[..|order|] == order;
    }
  }

  lemma {:induction false} RemovalStaysInside(g: Graph, boxes: set<Tag>, target: Tag, order: seq<Tag>, s: set<Tag>)
    requires Removal(g, boxes, target, order) && ClosedDown(g, s) && ClosedUp(g, boxes, s) && target in s
    ensures SetOf(order) <= s
  {
    if order != [] {
      var init, last := order[..|order| - 1], order[|order| - 1];
      RemovalShortens(g, boxes, target, order);
      RemovalStaysInside(g, boxes, target, init, s);
      assert MayGo(g, boxes, target, SetOf(init), last);
      assert order == init + [last];
    }
  }

  /** A removal that can go no further. */
  ghost predicate Settled(g: Graph, boxes: set<Tag>, target: Tag, gone: set<Tag>) {
    forall k :: MayGo(g, boxes, target, gone, k) ==> k in gone
  }

  lemma SettledIsClosed(g: Graph, boxes: set<Tag>, target: Tag, gone: set<Tag>)
    requires Settled(g, boxes, target, gone)
    ensures target in gone && ClosedDown(g, gone) && ClosedUp(g, boxes, gone)
  {
    assert MayGo(g, boxes, target, gone, target);
    forall p, k | p in gone && p in g && k in g[p] ensures k in gone {
      assert MayGo(g, boxes, target, gone, k);
    }
    forall p | p in boxes && p in g && g[p] != {} && g[p] <= gone ensures p in gone {
      assert MayGo(g, boxes, target, gone, p);
    }
  }

  /** Every removal can be carried on to its end. */
  lemma {:induction false} RemovalEnds(g: Graph, boxes: set<Tag>, target: Tag, order: seq<Tag>) returns (over: seq<Tag>)
    requires Whole(g) && target in g && Removal(g, boxes, target, order)
    ensures Removal(g, boxes, target, over) && Settled(g, boxes, target, SetOf(over))
    decreases |g.Keys - SetOf(order)|
  {
    over := order;
    if k :| MayGo(g, boxes, target, SetOf(order), k) && k !in SetOf(order) {
      RemovalGoesOn(g, boxes, target, order, k);
      SmallerSet(g.Keys - SetOf(order + [k]), g.Keys - SetOf(order));
      over := RemovalEnds(g, boxes, target, order + [k]);
    }
  }

  /** Some order of removals that closing the target can set off. */
  ghost predicate Cascade(input: seq<Node>, target: Resource, order: seq<Tag>) {
    Removal(LinksOf(input, target), BoxesOf(input), KeyOf(target), order)
  }

  ghost predicate CascadeIsOver(input: seq<Node>, target: Resource, order: seq<Tag>) {
    Settled(LinksOf(input, target), BoxesOf(input), KeyOf(target), SetOf(order))
  }

  lemma CascadeEnds(input: seq<Node>, target: Resource) returns (order: seq<Tag>)
    ensures Cascade(input, target, order) && CascadeIsOver(input, target, order)
    ensures Affected(input, target).keys <= SetOf(order)
  {
    AffectedIsLeast(input, target);
    order := RemovalEnds(LinksOf(input, target), BoxesOf(input), KeyOf(target), []);
    SettledIsClosed(LinksOf(input, target), BoxesOf(input), KeyOf(target), SetOf(order));
  }

  // ---- When an affected set is all that goes --------------------------------------------------------------

  /** A container left behind with every one of its children affected. */
  ghost predicate Emptied(input: seq<Node>, target: Resource, b: Tag) {
    var g, keys := LinksOf(input, target), Affected(input, target).keys;
    b in BoxesOf(input) && b !in keys && b in g && g[b] != {} && g[b] <= keys
  }

  ghost predicate NoneEmptied(input: seq<Node>, target: Resource) {
    forall b :: !Emptied(input, target, b)
  }

  /** On every topology: no cascade removes anything unaffected exactly when no container is left behind emptied. */
  lemma CascadeStaysIff(input: seq<Node>, target: Resource)
    ensures (forall order :: Cascade(input, target, order) ==> SetOf(order) <= Affected(input, target).keys) <==> NoneEmptied(input, target)
  {
    AffectedIsLeast(input, target);
    if NoneEmptied(input, target) {
      NoneEmptiedIsClosed(input, target);
      forall order | Cascade(input, target, order) ensures SetOf(order) <= Affected(input, target).keys {
        RemovalStaysInside(LinksOf(input, target), BoxesOf(input), KeyOf(target), order, Affected(input, target).keys);
      }
    } else {
      var b :| Emptied(input, target, b);
      var order := CascadeReaches(input, target, b);
    }
  }

  lemma NoneEmptiedIsClosed(input: seq<Node>, target: Resource)
    ensures NoneEmptied(input, target) <==> ClosedUp(LinksOf(input, target), BoxesOf(input), Affected(input, target).keys)
  {
    var g, keys := LinksOf(input, target), Affected(input, target).keys;
    if NoneEmptied(input, target) {
      forall p | p in BoxesOf(input) && p in g && g[p] != {} && g[p] <= keys ensures p in keys {
        assert !Emptied(input, target, p);
      }
    }
  }

  lemma CascadeReaches(input: seq<Node>, target: Resource, b: Tag) returns (order: seq<Tag>)
    requires Emptied(input, target, b)
    ensures Cascade(input, target, order) && b in SetOf(order)
  {
    order := CascadeEnds(input, target);
    SettledIsClosed(LinksOf(input, target), BoxesOf(input), KeyOf(target), SetOf(order));
  }

  lemma {:induction false} SomeList(keys: set<Tag>) returns (rs: seq<Resource>)
    ensures Lists(rs, keys)
  {
    rs := [];
    if keys != {} {
      var k :| k in keys;
      var rest := SomeList(keys - {k});
      rs := [Resource(k.kind, k.id, None)] + rest;
      assert ResourceKeys(rs) == {k} + ResourceKeys(rest);
    }
  }

  function CallerAt(k: Tag): Caller {
    match k.kind
    case Pane => Caller(Some(k.id), None, None)
    case Tab => Caller(None, Some(k.id), None)
    case Workspace => Caller(None, None, Some(k.id))
  }

  ghost predicate Spares(input: seq<Node>, target: Resource, caller: Caller, v: Validation, order: seq<Tag>) {
    IsVerdict(input, caller, target, v) && v.Allowed? && Cascade(input, target, order) ==> SetOf(order) !! Protected(caller)
  }

  /**
   On every topology whose ids are not empty: an allowed close spares every caller, whatever cascade
   follows, exactly when the topology is malformed, so that none is allowed, or no container is left
   behind emptied.
   */
  lemma SparesEveryCallerIff(input: seq<Node>, target: Resource)
    requires forall n :: n in MapOf(input) ==> n.id != ""
    ensures (forall caller, v, order :: Spares(input, target, caller, v, order)) <==> Malformed(input, target) || NoneEmptied(input, target)
  {
    CascadeStaysIff(input, target);
    if Malformed(input, target) || NoneEmptied(input, target) {
      forall caller, v, order ensures Spares(input, target, caller, v, order) {
      }
    } else {
      var b :| Emptied(input, target, b);
      var caller, v, order := SomeCallerLost(input, target, b);
    }
  }

  lemma IsAllowed(input: seq<Node>, caller: Caller, target: Resource, rs: seq<Resource>, keys: set<Tag>)
    requires Affected(input, target) == Gathered(keys, false) && !Flawed(input) && Lists(rs, keys) && keys !! Protected(caller)
    ensures IsVerdict(input, caller, target, Allowed(Ids(rs)))
  {
  }

  lemma CallerAtIs(b: Tag)
    requires b.id != ""
    ensures Protected(CallerAt(b)) == {b}
  {
  }

  lemma NotSpared(input: seq<Node>, target: Resource, caller: Caller, v: Validation, order: seq<Tag>, b: Tag)
    requires IsVerdict(input, caller, target, v) && v.Allowed? && Cascade(input, target, order)
    requires b in SetOf(order) && b in Protected(caller)
    ensures !Spares(input, target, caller, v, order)
  {
  }

  lemma SomeCallerLost(input: seq<Node>, target: Resource, b: Tag) returns (caller: Caller, v: Validation, order: seq<Tag>)
    requires !Malformed(input, target) && Emptied(input, target, b) && b.id != ""
    ensures !Spares(input, target, caller, v, order)
  {
    var keys := Affected(input, target).keys;
    order := CascadeReaches(input, target, b);
    var rs := SomeList(keys);
    caller, v := CallerAt(b), Allowed(Ids(rs));
    CallerAtIs(b);
    IsAllowed(input, caller, target, rs, keys);
    NotSpared(input, target, caller, v, order, b);
  }

  /**
   On a forest the affected keys are exactly what closing the target and then removing emptied
   containers, in any order, takes away.
   */
  lemma AffectedIsTheCascade(input: seq<Node>, target: Resource, order: seq<Tag>)
    requires Cascade(input, target, order) && IsForest(MapOf(input)) && KeyOf(target) in BoxesOf(input)
    ensures SetOf(order) <= Affected(input, target).keys
    ensures CascadeIsOver(input, target, order) ==> SetOf(order) == Affected(input, target).keys
  {
    AffectedIsLeast(input, target);
    ForestAffectedIsLeast(input, target);
    RemovalStaysInside(LinksOf(input, target), BoxesOf(input), KeyOf(target), order, Affected(input, target).keys);
    if CascadeIsOver(input, target, order) {
      SettledIsClosed(LinksOf(input, target), BoxesOf(input), KeyOf(target), SetOf(order));
    }
  }

  /** An allowed close of a node on a forest, followed by any cascade of removals, never removes the caller's pane, tab or workspace. */
  lemma AllowedCloseSparesCaller(input: seq<Node>, caller: Caller, target: Resource, v: Validation, order: seq<Tag>)
    requires IsVerdict(input, caller, target, v) && v.Allowed? && Cascade(input, target, order)
    requires IsForest(MapOf(input)) && KeyOf(target) in BoxesOf(input)
    ensures SetOf(order) !! Protected(caller)
  {
    AffectedIsTheCascade(input, target, order);
  }

  /** On a forest a close of a node is refused exactly when the topology is flawed or the cascade can reach the caller. */
  lemma RefusedIff(input: seq<Node>, caller: Caller, target: Resource, v: Validation, order: seq<Tag>)
    requires IsVerdict(input, caller, target, v) && Cascade(input, target, order) && CascadeIsOver(input, target, order)
    requires IsForest(MapOf(input)) && KeyOf(target) in BoxesOf(input)
    ensures v.Refused? <==> Flawed(input) || !(SetOf(order) !! Protected(caller))
    ensures v.Refused? ==> (v.code.TopologyInvalid? <==> Flawed(input))
  {
    AffectedIsTheCascade(input, target, order);
    ForestAffectedIsLeast(input, target);
  }

  // ---- The topologies the daemon builds ------------------------------------------------------------------

  datatype TabRecord = TabRecord(id: string, workspaceId: string)

  datatype PaneRecord = PaneRecord(id: string, tabId: string, parentId: Option<string>)

  datatype Snapshot = Snapshot(workspaces: seq<string>, tabs: seq<TabRecord>, panes: seq<PaneRecord>)

  function WorkspaceNodes(s: Snapshot): seq<Node> {
    seq(|s.workspaces|, i requires 0 <= i < |s.workspaces| => Node(Workspace, s.workspaces[i], None, []))
  }

  function TabNodes(s: Snapshot): seq<Node> {
    seq(|s.tabs|, i requires 0 <= i < |s.tabs| => Node(Tab, s.tabs[i].id, Some(s.tabs[i].workspaceId), []))
  }

  /** A pane hangs under its parent pane when it has one (only the pane planner asks), and else under its tab. */
  function PaneNodes(s: Snapshot, nested: bool): seq<Node> {
    seq(|s.panes|, i requires 0 <= i < |s.panes| =>
      Node(Pane, s.panes[i].id, if nested && s.panes[i].parentId.Some? then s.panes[i].parentId else Some(s.panes[i].tabId), []))
  }

  function TopologyOf(s: Snapshot, nested: bool): seq<Node> {
    WorkspaceNodes(s) + TabNodes(s) + PaneNodes(s, nested)
  }

  function PaneCloseTopology(s: Snapshot): seq<Node> {
    TopologyOf(s, true)
  }

  function TabCloseTopology(s: Snapshot): seq<Node> {
    TopologyOf(s, false)
  }

  /** Ids are distinct and not empty, and no node's parent is named by a text that is also some node's key. */
  ghost predicate Plain(nodes: seq<Node>) {
    && (forall i, j :: 0 <= i < j < |nodes| ==> nodes[i].id != nodes[j].id)
    && (forall n :: n in nodes ==> n.id != "" && n.children == [])
    && (forall c, p :: c in nodes && p in nodes ==> c.parentId != Some(KeyText(Key(p))))
  }

  lemma PlainIsOneWay(nodes: seq<Node>)
    requires Plain(nodes)
    ensures OneWay(nodes, nodes)
  {
    forall c, p, q | c in nodes && p in nodes && q in nodes && Refers(c, p) && Refers(c, q) ensures p == q {
      var i :| 0 <= i < |nodes| && nodes[i] == p;
      var j :| 0 <= j < |nodes| && nodes[j] == q;
      assert p.id == q.id;
    }
  }

  lemma {:induction false} DistinctIsItsMap(input: seq<Node>)
    requires DistinctKeys(input)
    ensures MapOf(input) == input
  {
    if input != [] {
      var init := input[..|input| - 1];
      DistinctIsItsMap(init);
      assert PlaceOf(init, Key(input[|input| - 1])) == |init|;
      assert input == init + [input[|input| - 1]];
    }
  }

  /** A plain topology whose parent names lead down some depth is a forest, whatever the form of its ids. */
  lemma SnapshotIsForest(nodes: seq<Node>, depth: map<Tag, nat>)
    requires Plain(nodes) && KeysIn(nodes) <= depth.Keys
    requires forall c, p :: c in nodes && p in nodes && c.parentId == Some(p.id) ==> depth[Key(p)] < depth[Key(c)]
    ensures MapOf(nodes) == nodes && IsForest(nodes)
  {
    DistinctIsItsMap(nodes);
    PlainIsOneWay(nodes);
    assert Forest(nodes, depth);
  }

  /**
   Whatever plain topology the builders produce, panes under panes and even circles of panes
   included, an allowed close of one of its nodes spares every caller through any cascade.
   */
  lemma PlainCloseSparesCaller(nodes: seq<Node>, target: Resource, caller: Caller, v: Validation, order: seq<Tag>)
    requires Plain(nodes) && KeyOf(target) in KeysIn(nodes)
    ensures Spares(nodes, target, caller, v, order)
  {
    DistinctIsItsMap(nodes);
    RootIsGood(nodes, target);
    PlainIsOneWay(nodes);
    RootAddsNothing(nodes, RootOf(nodes, target));
    OneWayCloses(nodes, RootOf(nodes, target));
    if !Malformed(nodes, target) {
      NoneEmptiedIsClosed(nodes, target);
      SparesEveryCallerIff(nodes, target);
    }
  }

  /** Where every tab names a workspace and every pane a tab, the tab planner's topology is a forest. */
  lemma TabSnapshotIsForest(s: Snapshot)
    requires Plain(TabCloseTopology(s))
    requires forall t :: t in s.tabs ==> t.workspaceId in s.workspaces
    requires forall p :: p in s.panes ==> exists t :: t in s.tabs && t.id == p.tabId
    ensures IsForest(MapOf(TabCloseTopology(s)))
  {
    var nodes := TabCloseTopology(s);
    var depth := map k | k in KeysIn(nodes) :: match k.kind case Workspace => 0 case Tab => 1 case Pane => 2;
    forall c, p | c in nodes && p in nodes && c.parentId == Some(p.id) ensures depth[Key(p)] < depth[Key(c)] {
      var q := NamedParent(s, c);
      var i :| 0 <= i < |nodes| && nodes[i] == p;
      var j :| 0 <= j < |nodes| && nodes[j] == q;
    }
    SnapshotIsForest(nodes, depth);
  }

  lemma NamedParent(s: Snapshot, c: Node) returns (p: Node)
    requires forall t :: t in s.tabs ==> t.workspaceId in s.workspaces
    requires forall q :: q in s.panes ==> exists t :: t in s.tabs && t.id == q.tabId
    requires c in TabCloseTopology(s) && c.parentId.Some?
    ensures p in TabCloseTopology(s) && c.parentId == Some(p.id)
    ensures (c.kind == Tab && p.kind == Workspace) || (c.kind == Pane && p.kind == Tab)
  {
    var nodes := TabCloseTopology(s);
    if c in TabNodes(s) {
      var i :| 0 <= i < |s.tabs| && TabNodes(s)[i] == c;
      assert s.tabs[i] in s.tabs;
      var j :| 0 <= j < |s.workspaces| && s.workspaces[j] == s.tabs[i].workspaceId;
      p := WorkspaceNodes(s)[j];
    } else {
      var i :| 0 <= i < |s.panes| && PaneNodes(s, false)[i] == c;
      assert s.panes[i] in s.panes;
      var t :| t in s.tabs && t.id == s.panes[i].tabId;
      var j :| 0 <= j < |s.tabs| && s.tabs[j] == t;
      p := TabNodes(s)[j];
    }
  }

  // ---- Two closes that empty a container unseen ---------------------------------------------------------

  lemma OnlyBelow(g: Graph, k: Tag, s: set<Tag>)
    requires Whole(g) && k in g && ClosedDown(g, s) && k in s
    ensures Down(g, k) <= s
  {
    forall x | x in Down(g, k) ensures x in s {
      assert Below(g, k, x);
    }
  }

  /** The links and the root of a target that is a node of a map without repeats. */
  lemma LinksAre(nodes: seq<Node>, root: Node, target: Resource)
    requires DistinctKeys(nodes) && root in nodes && Key(root) == KeyOf(target)
    ensures MapOf(nodes) == nodes && GoodRoot(nodes, root)
    ensures Affected(nodes, target) == Gather(nodes, root) && LinksOf(nodes, target) == GraphOf(nodes, root)
    ensures Whole(GraphOf(nodes, root)) && KnowsAll(nodes, GraphOf(nodes, root))
  {
    DistinctIsItsMap(nodes);
    RootIsGood(nodes, target);
    DistinctNodes(nodes, RootOf(nodes, target), root, RootOf(nodes, target));
    GraphKnows(nodes, root);
    GraphIsWhole(nodes, root);
  }

  lemma NodeIsRoot(nodes: seq<Node>, root: Node)
    requires DistinctKeys(nodes) && root in nodes
    ensures GoodRoot(nodes, root) && KnowsAll(nodes, GraphOf(nodes, root))
  {
    var i :| 0 <= i < |nodes| && nodes[i] == root;
    GraphKnows(nodes, root);
  }

  lemma ListsOne(r: Resource)
    ensures Lists([r], {Tag(r.kind, r.id)})
  {
  }

  lemma ListsTwo(a: Resource, b: Resource)
    requires Tag(a.kind, a.id) != Tag(b.kind, b.id)
    ensures Lists([a, b], {Tag(a.kind, a.id), Tag(b.kind, b.id)})
  {
    assert ResourceKeys([a, b]) == {Tag(a.kind, a.id), Tag(b.kind, b.id)} by {
      assert [a, b][0] == a && [a, b][1] == b;
    }
  }

  lemma PlainName(c: Node, n: Node)
    requires c.parentId.None? || ':' !in c.parentId.value
    ensures Refers(c, n) <==> c.parentId == Some(n.id)
  {
    assert KeyText(Key(n))[|KindName(n.kind)|] == ':';
  }

  /** Where parent names are free of colons, the links of a childless node are the nodes that name its id. */
  lemma KidsAre(nodes: seq<Node>, g: Graph, n: Node, kids: set<Tag>)
    requires KnowsAll(nodes, g) && n in nodes && n.children == []
    requires forall c :: c in nodes ==> c.parentId.None? || ':' !in c.parentId.value
    requires kids <= KeysIn(nodes) && forall i :: 0 <= i < |nodes| ==> (nodes[i].parentId == Some(n.id) <==> Key(nodes[i]) in kids)
    ensures Key(n) in g && g[Key(n)] == kids
  {
    assert Knows(nodes, g, n);
    DirectChildrenAre(nodes, n);
    forall c | c in nodes ensures c in DirectChildren(nodes, n) <==> Key(c) in kids {
      PlainName(c, n);
    }
  }

  lemma AllowedThen(nodes: seq<Node>, root: Node, target: Resource, caller: Caller, rs: seq<Resource>, keys: set<Tag>, order: seq<Tag>)
    requires DistinctKeys(nodes) && !Flawed(nodes) && GoodRoot(nodes, root) && root in nodes && Key(root) == KeyOf(target)
    requires Gather(nodes, root) == Gathered(keys, false) && Lists(rs, keys) && keys !! Protected(caller)
    requires Removal(GraphOf(nodes, root), KeysIn(nodes), Key(root), order)
    ensures IsVerdict(nodes, caller, target, Allowed(Ids(rs))) && Cascade(nodes, target, order)
  {
    LinksAre(nodes, root, target);
    IsAllowed(nodes, caller, target, rs, keys);
  }

  lemma TwoGo(g: Graph, boxes: set<Tag>, a: Tag, b: Tag)
    requires b in boxes && b in g && g[b] == {a}
    ensures Removal(g, boxes, a, [a, b])
  {
    assert [a, b][..1] == [a];
    assert SetOf([a]) == {a};
  }

  lemma ThreeGo(g: Graph, boxes: set<Tag>, a: Tag, b: Tag, c: Tag)
    requires b in boxes && b in g && g[b] == {a} && c in boxes && c in g && g[c] == {b}
    ensures Removal(g, boxes, a, [a, b, c])
  {
    TwoGo(g, boxes, a, b);
    assert SetOf([a, b]) == {a, b};
    RemovalGoesOn(g, boxes, a, [a, b], c);
    assert [a, b] + [c] == [a, b, c];
  }

  /** A workspace that lists its only tab, which names no parent. */
  function ListedOnly(w: string, t: string): seq<Node> {
    [Node(Workspace, w, None, [t]), Node(Tab, t, None, [])]
  }

  lemma ListedChildIsChild(w: string, t: string)
    requires w != t
    ensures ListedOnly(w, t)[1] in DirectChildren(ListedOnly(w, t), ListedOnly(w, t)[0])
  {
    var input := ListedOnly(w, t);
    assert Find(input, t) == Find(input[1..], t) == [input[1]];
    assert ByParentId(input, input[0]) == [] by {
      assert ByParentId(input[1..], input[0]) == ByParentId(input[1..][1..], input[0]) == [];
    }
    assert WithListed(input, [], [t]) == WithListed(input, [input[1]], []);
  }

  lemma ListedOnlyLinks(w: string, t: string, g: Graph)
    requires w != t && KnowsAll(ListedOnly(w, t), g)
    ensures Tag(Tab, t) in g && g[Tag(Tab, t)] == {}
    ensures Tag(Workspace, w) in g && g[Tag(Workspace, w)] == {Tag(Tab, t)}
  {
    var nodes := ListedOnly(w, t);
    KidsAre(nodes, g, nodes[1], {});
    assert nodes[0] in nodes && Knows(nodes, g, nodes[0]);
    ListedChildIsChild(w, t);
    DirectChildrenAre(nodes, nodes[0]);
  }

  lemma ListedOnlyIsSound(w: string, t: string)
    requires w != t
    ensures DistinctKeys(ListedOnly(w, t)) && !Flawed(ListedOnly(w, t))
  {
    DistinctIsItsMap(ListedOnly(w, t));
    assert ListedOnly(w, t)[1].id == t;
  }

  lemma AloneClimbs(nodes: seq<Node>, g: Graph, root: Node)
    requires KnowsAll(nodes, g) && Whole(g) && Key(root) in g && g[Key(root)] == {} && root.parentId == None
    ensures ClimbFrom(nodes, g, root, Down(g, Key(root))) == Gathered({Key(root)}, false)
  {
    DownIsClosed(g, Key(root));
    OnlyBelow(g, Key(root), {Key(root)});
    assert ParentNode(nodes, root) == None;
  }

  lemma AloneGathers(nodes: seq<Node>, root: Node)
    requires GoodRoot(nodes, root) && root in nodes && root.parentId == None && GraphOf(nodes, root)[Key(root)] == {}
    ensures Gather(nodes, root) == Gathered({Key(root)}, false)
  {
    GraphKnows(nodes, root);
    GraphIsWhole(nodes, root);
    AloneClimbs(nodes, GraphOf(nodes, root), root);
  }

  /** Closing the tab is allowed, the climb does not see the workspace, and the close then empties it. */
  lemma ListedOnlyChildEscapes(w: string, t: string)
    requires w != t && w != ""
    ensures var target, caller := Resource(Tab, t, None), Caller(None, None, Some(w));
            && IsVerdict(ListedOnly(w, t), caller, target, Allowed([t]))
            && Cascade(ListedOnly(w, t), target, [Tag(Tab, t), Tag(Workspace, w)])
            && Tag(Workspace, w) in Protected(caller)
  {
    var nodes, target, caller := ListedOnly(w, t), Resource(Tab, t, None), Caller(None, None, Some(w));
    ListedOnlyIsSound(w, t);
    NodeIsRoot(nodes, nodes[1]);
    ListedOnlyLinks(w, t, GraphOf(nodes, nodes[1]));
    AloneGathers(nodes, nodes[1]);
    ListsOne(target);
    assert Ids([target]) == [t];
    assert nodes[0] in nodes && Key(nodes[0]) in KeysIn(nodes);
    TwoGo(GraphOf(nodes, nodes[1]), KeysIn(nodes), Tag(Tab, t), Tag(Workspace, w));
    AllowedThen(nodes, nodes[1], target, caller, [target], {Tag(Tab, t)}, [Tag(Tab, t), Tag(Workspace, w)]);
  }

  /** A workspace and a tab of another workspace share the id `a`; the only pane of that tab names it. */
  function SharedId(a: string, w: string, p: string): Snapshot {
    Snapshot([a, w], [TabRecord(a, w)], [PaneRecord(p, a, None)])
  }

  function SharedNodes(a: string, w: string, p: string): seq<Node> {
    [Node(Workspace, a, None, []), Node(Workspace, w, None, []), Node(Tab, a, Some(w), []), Node(Pane, p, Some(a), [])]
  }

  predicate ThreeIds(a: string, w: string, p: string) {
    a != w && a != p && w != p && a != "" && w != "" && ':' !in a && ':' !in w
  }

  function SharedKids(a: string, p: string, i: nat): set<Tag> {
    if i == 0 || i == 2 then {Tag(Pane, p)} else if i == 1 then {Tag(Tab, a)} else {}
  }

  lemma SharedKidsAre(a: string, w: string, p: string, i: nat)
    requires ThreeIds(a, w, p) && i < 4
    ensures var nodes, kids := SharedNodes(a, w, p), SharedKids(a, p, i);
            kids <= KeysIn(nodes) && forall j :: 0 <= j < |nodes| ==> (nodes[j].parentId == Some(nodes[i].id) <==> Key(nodes[j]) in kids)
  {
    var nodes := SharedNodes(a, w, p);
    assert nodes[2] in nodes && nodes[3] in nodes;
  }

  lemma SharedIdLinks(a: string, w: string, p: string, g: Graph, i: nat)
    requires ThreeIds(a, w, p) && KnowsAll(SharedNodes(a, w, p), g) && i < 4
    ensures var k := Key(SharedNodes(a, w, p)[i]); k in g && g[k] == SharedKids(a, p, i)
  {
    SharedKidsAre(a, w, p, i);
    KidsAre(SharedNodes(a, w, p), g, SharedNodes(a, w, p)[i], SharedKids(a, p, i));
  }

  lemma TwoClimb(nodes: seq<Node>, g: Graph, p: Node, a: Node)
    requires KnowsAll(nodes, g) && Whole(g) && Key(p) in g && Key(a) in g && Key(p) != Key(a)
    requires g[Key(p)] == {} && g[Key(a)] == {Key(p)} && ParentNode(nodes, p) == Some(a) && a.parentId == None
    ensures ClimbFrom(nodes, g, p, Down(g, Key(p))) == Gathered({Key(p), Key(a)}, false)
  {
    DownIsClosed(g, Key(p));
    OnlyBelow(g, Key(p), {Key(p)});
    assert Down(g, Key(p)) == {Key(p)};
    DownIsClosed(g, Key(a));
    OnlyBelow(g, Key(a), {Key(a), Key(p)});
    assert {Key(p)} + Down(g, Key(a)) == {Key(p), Key(a)};
    assert ParentNode(nodes, a) == None;
  }

  lemma TwoGather(nodes: seq<Node>, g: Graph, p: Node, a: Node)
    requires GoodRoot(nodes, p) && g == GraphOf(nodes, p) && p in nodes && Key(p) != Key(a)
    requires Key(p) in g && Key(a) in g && g[Key(p)] == {} && g[Key(a)] == {Key(p)} && ParentNode(nodes, p) == Some(a) && a.parentId == None
    ensures Gather(nodes, p) == Gathered({Key(p), Key(a)}, false)
  {
    GraphKnows(nodes, p);
    GraphIsWhole(nodes, p);
    TwoClimb(nodes, g, p, a);
  }

  lemma NamedIsUnflawed(nodes: seq<Node>)
    requires DistinctKeys(nodes)
    requires forall n :: n in nodes ==> n.children == [] && (HasParentId(n) ==> exists p :: p in nodes && Refers(n, p))
    ensures !Flawed(nodes)
  {
    DistinctIsItsMap(nodes);
  }

  lemma SharedIdIsSound(a: string, w: string, p: string)
    requires ThreeIds(a, w, p)
    ensures PaneCloseTopology(SharedId(a, w, p)) == SharedNodes(a, w, p)
    ensures DistinctKeys(SharedNodes(a, w, p)) && !Flawed(SharedNodes(a, w, p))
  {
    var nodes := SharedNodes(a, w, p);
    assert nodes[0] in nodes && Refers(nodes[3], nodes[0]);
    assert nodes[1] in nodes && Refers(nodes[2], nodes[1]);
    NamedIsUnflawed(nodes);
  }

  lemma SharedIdRemoves(a: string, w: string, p: string, g: Graph)
    requires ThreeIds(a, w, p) && KnowsAll(SharedNodes(a, w, p), g)
    ensures Removal(g, KeysIn(SharedNodes(a, w, p)), Tag(Pane, p), [Tag(Pane, p), Tag(Tab, a), Tag(Workspace, w)])
  {
    var nodes := SharedNodes(a, w, p);
    assert nodes[1] in nodes && nodes[2] in nodes;
    SharedIdLinks(a, w, p, g, 2);
    SharedIdLinks(a, w, p, g, 1);
    ThreeGo(g, KeysIn(nodes), Tag(Pane, p), Tag(Tab, a), Tag(Workspace, w));
  }

  lemma SharedIdGathers(a: string, w: string, p: string)
    requires ThreeIds(a, w, p) && GoodRoot(SharedNodes(a, w, p), SharedNodes(a, w, p)[3])
    requires KnowsAll(SharedNodes(a, w, p), GraphOf(SharedNodes(a, w, p), SharedNodes(a, w, p)[3]))
    ensures Gather(SharedNodes(a, w, p), SharedNodes(a, w, p)[3]) == Gathered({Tag(Pane, p), Tag(Workspace, a)}, false)
  {
    var nodes := SharedNodes(a, w, p);
    var g := GraphOf(nodes, nodes[3]);
    SharedIdLinks(a, w, p, g, 3);
    SharedIdLinks(a, w, p, g, 0);
    assert Refers(nodes[3], nodes[0]);
    TwoGather(nodes, g, nodes[3], nodes[0]);
  }

  /** Closing the pane is allowed: the climb takes the workspace for its parent, and the close empties the tab and then its workspace. */
  lemma SharedIdEscapes(a: string, w: string, p: string)
    requires ThreeIds(a, w, p)
    ensures var input, target, caller := PaneCloseTopology(SharedId(a, w, p)), Resource(Pane, p, Some(a)), Caller(None, Some(a), Some(w));
            && IsVerdict(input, caller, target, Allowed([p, a]))
            && Cascade(input, target, [Tag(Pane, p), Tag(Tab, a), Tag(Workspace, w)])
            && {Tag(Tab, a), Tag(Workspace, w)} <= Protected(caller)
  {
    SharedIdIsSound(a, w, p);
    var nodes, target, caller := SharedNodes(a, w, p), Resource(Pane, p, Some(a)), Caller(None, Some(a), Some(w));
    var other := Resource(Workspace, a, None);
    NodeIsRoot(nodes, nodes[3]);
    SharedIdGathers(a, w, p);
    SharedIdRemoves(a, w, p, GraphOf(nodes, nodes[3]));
    ListsTwo(target, other);
    TwoIds(target, other);
    AllowedThen(nodes, nodes[3], target, caller, [target, other], {Tag(Pane, p), Tag(Workspace, a)},
      [Tag(Pane, p), Tag(Tab, a), Tag(Workspace, w)]);
  }

  lemma TwoIds(a: Resource, b: Resource)
    ensures Ids([a, b]) == [a.id, b.id]
  {
    assert Ids([a, b]) == [a.id] + Ids([b]) == [a.id] + ([b.id] + Ids([]));
  }

  // ---- The tests in their own words -----------------------------------------------------------------------

  /** What is protected: the caller's own pane, tab and workspace, as far as they are known. */
  lemma ProtectedIff(caller: Caller, k: Tag)
    ensures k in Protected(caller) <==>
            && k.id != ""
            && ((k.kind == Pane && caller.paneId == Some(k.id)) || (k.kind == Tab && caller.tabId == Some(k.id))
                || (k.kind == Workspace && caller.workspaceId == Some(k.id)))
  {
  }

  /** A node names another by its id, or by its kind, a colon and its id. */
  lemma RefersIff(c: Node, n: Node)
    ensures Refers(c, n) <==>
            match c.parentId
            case None => false
            case Some(name) =>
              || name == n.id
              || name == (match n.kind case Pane => "pane:" case Tab => "tab:" case Workspace => "workspace:") + n.id
  {
    assert "pane" + ":" == "pane:" && "tab" + ":" == "tab:" && "workspace" + ":" == "workspace:";
  }

  /** The last node given under each key, at the place of the first. */
  lemma {:induction false} MapKeepsLast(input: seq<Node>, n: Node)
    ensures n in MapOf(input) <==> exists i :: 0 <= i < |input| && input[i] == n && IsLastOf(input, i)
  {
    if input != [] {
      var init, last := input[..|input| - 1], input[|input| - 1];
      assert input == init + [last];
      MapKeepsLast(init, n);
      MapIsDistinct(init);
      MapSetMembers(MapOf(init), last, n);
      assert IsLastOf(input, |init|);
      if i :| 0 <= i < |init| && init[i] == n && IsLastOf(init, i) {
        assert Key(n) != Key(last) ==> IsLastOf(input, i);
      }
      if i :| 0 <= i < |input| && input[i] == n && IsLastOf(input, i) {
        assert i < |init| ==> IsLastOf(init, i) && Key(input[i]) != Key(input[|init|]);
      }
    }
  }

  predicate IsLastOf(input: seq<Node>, i: nat) {
    i < |input| && forall j :: i < j < |input| ==> Key(input[j]) != Key(input[i])
  }

  lemma MapSetMembers(nodes: seq<Node>, x: Node, n: Node)
    requires DistinctKeys(nodes)
    ensures n in MapSet(nodes, x) <==> n == x || (n in nodes && Key(n) != Key(x))
  {
    var i, m := PlaceOf(nodes, Key(x)), MapSet(nodes, x);
    if n in nodes && Key(n) != Key(x) {
      var j :| 0 <= j < |nodes| && nodes[j] == n;
      assert m[j] == n;
    }
    if n in m {
      var j :| 0 <= j < |m| && m[j] == n;
      assert j < |nodes| && j != i ==> nodes[j] == n;
    }
    assert i < |m| && m[i] == x;
  }

  lemma {:induction false} ListedAreFound(nodes: seq<Node>, found: seq<Node>, childIds: seq<string>, id: string)
    requires id in childIds && Find(nodes, id) != []
    ensures exists c :: c in WithListed(nodes, found, childIds) && Key(c) == Key(Find(nodes, id)[0])
    decreases |childIds|
  {
    var more := WithFound(found, Find(nodes, childIds[0]));
    if id == childIds[0] {
      var hit := Find(nodes, id);
      var c :| c in more && Key(c) == Key(hit[0]);
      ListedAreNodes(nodes, more, childIds[1..], c);
    } else {
      ListedAreFound(nodes, more, childIds[1..], id);
    }
  }

  /** A child that is listed, and there, is a direct child: the first node with that id, by its key. */
  lemma ListedAreChildren(nodes: seq<Node>, n: Node, id: string)
    requires id in n.children && exists m :: m in nodes && m.id == id
    ensures Find(nodes, id) != [] && exists c :: c in DirectChildren(nodes, n) && Key(c) == Key(Find(nodes, id)[0])
  {
    FindHas(nodes, id);
    ListedAreFound(nodes, ByParentId(nodes, n), n.children, id);
  }

  /** The first node with an id is found. */
  lemma {:induction false} FindIsFirst(nodes: seq<Node>, id: string, i: nat)
    requires i < |nodes| && nodes[i].id == id && forall j :: 0 <= j < i ==> nodes[j].id != id
    ensures Find(nodes, id) == [nodes[i]]
  {
    if i > 0 {
      FindIsFirst(nodes[1..], id, i - 1);
    }
  }

  /** The lookup of a parent finds the first node it names. */
  lemma {:induction false} ParentIsFirst(nodes: seq<Node>, n: Node, i: nat)
    requires i < |nodes| && Refers(n, nodes[i]) && forall j :: 0 <= j < i ==> !Refers(n, nodes[j])
    ensures FirstReferred(nodes, n) == Some(nodes[i])
    ensures ParentNode(nodes, n) == if n.parentId == Some("") then None else Some(nodes[i])
  {
    if i > 0 {
      ParentIsFirst(nodes[1..], n, i - 1);
    }
  }

  /** What makes a topology flawed, by its nodes: a key given twice; a parent named but not there; a child listed twice, or listed but not there. */
  lemma FlawedIff(input: seq<Node>)
    ensures Flawed(input) <==>
            || (exists i, j :: 0 <= i < j < |input| && input[i].kind == input[j].kind && input[i].id == input[j].id)
            || (exists n :: n in MapOf(input) && IsFlaw(MapOf(input), n))
  {
    if i, j :| 0 <= i < j < |input| && input[i].kind == input[j].kind && input[i].id == input[j].id {
      assert Key(input[i]) == Key(input[j]);
    }
    forall n | n in MapOf(input) ensures FlawedNode(MapOf(input), n) <==> IsFlaw(MapOf(input), n) {
    }
  }

  predicate IsFlaw(nodes: seq<Node>, n: Node) {
    || (n.parentId.Some? && n.parentId.value != "" && forall p :: p in nodes ==> !Refers(n, p))
    || (exists i, j :: 0 <= i < j < |n.children| && n.children[i] == n.children[j])
    || (exists c :: c in n.children && forall m :: m in nodes ==> m.id != c)
  }

  /** A close is judged on the node given, or on the bare target if there is none under its key. */
  lemma RootIs(input: seq<Node>, target: Resource)
    ensures var nodes := MapOf(input); var root := RootOf(nodes, target);
            && root.kind == target.kind && root.id == target.id
            && (KeyOf(target) in BoxesOf(input) ==> root in nodes)
            && (KeyOf(target) !in BoxesOf(input) ==> root == Node(target.kind, target.id, target.parentId, []))
  {
    MapIsDistinct(input);
    RootIsGood(MapOf(input), target);
  }
}
