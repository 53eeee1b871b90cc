/** luci-app-bird's AS graph: one node per autonomous system on any path, one edge per pair
    of neighbours. */
module AsGraph {
  import opened Wrappers

  /** A node's id: an AS number, or this router while its own number is unknown. */
  type As = Option<nat>

  datatype Group = Local | Peer

  datatype Node = Node(id: As, group: Group)

  datatype Edge = Edge(from: As, to: As)

  /** The key of an edge is the same in both directions. */
  datatype Key = Key(a: As, b: As)

  predicate Below(a: As, b: As) {
    b.Some? && (a.None? || a.value < b.value)
  }

  function KeyOf(a: As, b: As): Key {
    if Below(a, b) then Key(a, b) else Key(b, a)
  }

  lemma KeyIff(a: As, b: As, c: As, d: As)
    ensures KeyOf(a, b) == KeyOf(c, d) <==> (a == c && b == d) || (a == d && b == c)
  {
  }

  // ----- what the graph should be

  /** Neighbours on a path. */
  predicate Adjacent(path: seq<nat>, a: As, b: As) {
    exists k | 0 < k < |path| :: a == Some(path[k - 1]) && b == Some(path[k])
  }

  /** Neighbours on a path, or this router and its first hop. */
  predicate LinkedBy(self: As, path: seq<nat>, a: As, b: As) {
    Adjacent(path, a, b) || (a == self && path != [] && b == Some(path[0]))
  }

  predicate Linked(self: As, paths: seq<seq<nat>>, a: As, b: As) {
    exists path | path in paths :: LinkedBy(self, path, a, b)
  }

  predicate Wanted(self: As, paths: seq<seq<nat>>, a: As, b: As) {
    a != b && (Linked(self, paths, a, b) || Linked(self, paths, b, a))
  }

  predicate OnPath(paths: seq<seq<nat>>, a: As) {
    a.Some? && exists path | path in paths :: a.value in path
  }

  // ----- the same, path by path

  function Pair(a: As, b: As): set<Key> {
    if a == b then {} else {KeyOf(a, b)}
  }

  function PathKeys(path: seq<nat>): set<Key> {
    if |path| < 2 then {}
    else
      var n := |path| - 1;
      PathKeys(path[..n]) + Pair(Some(path[n - 1]), Some(path[n]))
  }

  function HopKeys(self: As, path: seq<nat>): set<Key> {
    PathKeys(path) + if path == [] then {} else Pair(self, Some(path[0]))
  }

  function AllKeys(self: As, paths: seq<seq<nat>>): set<Key> {
    if paths == [] then {}
    else AllKeys(self, paths[..|paths| - 1]) + HopKeys(self, paths[|paths| - 1])
  }

  function PathIds(path: seq<nat>): set<As> {
    set x | x in path :: Some(x)
  }

  function AllIds(paths: seq<seq<nat>>): set<As> {
    if paths == [] then {} else AllIds(paths[..|paths| - 1]) + PathIds(paths[|paths| - 1])
  }

  lemma {:induction false} AllIdsIff(paths: seq<seq<nat>>, a: As)
    ensures a in AllIds(paths) <==> OnPath(paths, a)
  {
    if paths != [] {
      var n := |paths| - 1;
      AllIdsIff(paths[..n], a);
      assert paths == paths[..n] + [paths[n]];
    }
  }

  lemma {:induction false} PathKeysIff(path: seq<nat>, a: As, b: As)
    requires a != b
    ensures KeyOf(a, b) in PathKeys(path) <==> Adjacent(path, a, b) || Adjacent(path, b, a)
  {
    if |path| >= 2 {
      var n := |path| - 1;
      PathKeysIff(path[..n], a, b);
      KeyIff(a, b, Some(path[n - 1]), Some(path[n]));
      AdjacentStep(path, a, b);
      AdjacentStep(path, b, a);
    }
  }

  lemma AdjacentStep(path: seq<nat>, a: As, b: As)
    requires |path| >= 2
    ensures var n := |path| - 1;
            Adjacent(path, a, b) <==> Adjacent(path[..n], a, b) || (a == Some(path[n - 1]) && b == Some(path[n]))
  {
    var n := |path| - 1;
    if k :| 0 < k < n && a == Some(path[k - 1]) && b == Some(path[k]) {
      assert a == Some(path[..n][k - 1]) && b == Some(path[..n][k]);
    }
    if k :| 0 < k < n && a == Some(path[..n][k - 1]) && b == Some(path[..n][k]) {
      assert a == Some(path[k - 1]) && b == Some(path[k]);
    }
    assert a == Some(path[n - 1]) && b == Some(path[n]) ==> Adjacent(path, a, b);
  }

  lemma HopKeysIff(self: As, path: seq<nat>, a: As, b: As)
    requires a != b
    ensures KeyOf(a, b) in HopKeys(self, path) <==> LinkedBy(self, path, a, b) || LinkedBy(self, path, b, a)
  {
    hide Adjacent;
    hide KeyOf;
    PathKeysIff(path, a, b);
    if path != [] {
      KeyIff(a, b, self, Some(path[0]));
    }
  }

  /** The edges are exactly the wanted pairs. */
  lemma {:induction false} AllKeysIff(self: As, paths: seq<seq<nat>>, a: As, b: As)
    requires a != b
    ensures KeyOf(a, b) in AllKeys(self, paths) <==> Wanted(self, paths, a, b)
  {
    hide LinkedBy;
    hide HopKeys;
    hide KeyOf;
    if paths != [] {
      var n := |paths| - 1;
      AllKeysIff(self, paths[..n], a, b);
      HopKeysIff(self, paths[n], a, b);
      assert paths == paths[..n] + [paths[n]];
    }
  }

  // ----- building it

  function Ids(nodes: seq<Node>): set<As> {
    set x | x in nodes :: x.id
  }

  function Keys(edges: seq<Edge>): set<Key> {
    set e | e in edges :: KeyOf(e.from, e.to)
  }

  /** A simple undirected graph. */
  ghost predicate Simple(nodes: seq<Node>, edges: seq<Edge>) {
    && (forall i, j | 0 <= i < j < |nodes| :: nodes[i].id != nodes[j].id)
    && (forall i, j | 0 <= i < j < |edges| :: KeyOf(edges[i].from, edges[i].to) != KeyOf(edges[j].from, edges[j].to))
    && (forall e | e in edges :: e.from != e.to && e.from in Ids(nodes) && e.to in Ids(nodes))
  }

  class Builder {
    var nodes: seq<Node>
    var edges: seq<Edge>
    var byId: map<As, nat>
    var seen: set<Key>

    ghost predicate Valid()
      reads this
    {
      Simple(nodes, edges) && PeersAfterFirst(nodes) && byId.Keys == Ids(nodes) && seen == Keys(edges)
    }

    constructor ()
      ensures Valid() && nodes == [] && edges == []
    {
      nodes, edges, byId, seen := [], [], map[], {};
    }

    method AddNode(id: As, group: Group)
      requires Valid() && (nodes != [] ==> group == Peer)
      modifies `nodes, `byId
      ensures Valid() && Ids(nodes) == Ids(old(nodes)) + {id}
      ensures nodes == if id in Ids(old(nodes)) then old(nodes) else old(nodes) + [Node(id, group)]
    {
      if id !in byId {
        NodeJoins(nodes, Node(id, group));
        byId := byId[id := |nodes|];
        nodes := nodes + [Node(id, group)];
      }
    }

    method AddEdge(a: As, b: As)
      requires Valid() && a in Ids(nodes) && b in Ids(nodes)
      modifies `edges, `seen
      ensures Valid() && Keys(edges) == Keys(old(edges)) + Pair(a, b)
    {
      hide KeyOf;
      if a == b {
        return;
      }
      var k := KeyOf(a, b);
      if k in seen {
        return;
      }
      EdgeJoins(edges, Edge(a, b));
      seen := seen + {k};
      edges := edges + [Edge(a, b)];
    }

    method AddPath(self: As, path: seq<nat>)
      requires Valid() && self in Ids(nodes) && nodes != []
      modifies this
      ensures Valid() && nodes != [] && nodes[0] == old(nodes)[0]
      ensures Ids(nodes) == Ids(old(nodes)) + PathIds(path)
      ensures Keys(edges) == Keys(old(edges)) + HopKeys(self, path)
    {
      hide Simple;
      hide PeersAfterFirst;
      hide Ids;
      hide Keys;
      hide Pair;
      hide KeyOf;
      ghost var ids, keys := Ids(nodes), Keys(edges);
      var prev: Option<As> := None;
      for k := 0 to |path|
        invariant Valid() && nodes != [] && nodes[0] == old(nodes)[0]
        invariant Ids(nodes) == ids + PathIds(path[..k]) && Keys(edges) == keys + PathKeys(path[..k])
        invariant prev == if k == 0 then None else Some(Some(path[k - 1]))
      {
        var id := Some(path[k]);
        HopJoins(path, k);
        hide PathIds;
        hide PathKeys;
        AddNode(id, Peer);
        if prev.Some? {
          AddEdge(prev.value, id);
        }
        prev := Some(id);
      }
      assert path[..|path|] == path;
      if path != [] {
        AddEdge(self, Some(path[0]));
      }
    }
  }

  lemma HopJoins(path: seq<nat>, k: nat)
    requires k < |path|
    ensures PathIds(path[..k + 1]) == PathIds(path[..k]) + {Some(path[k])}
    ensures k > 0 ==> Some(path[k - 1]) in PathIds(path[..k])
    ensures PathKeys(path[..k + 1])
         == PathKeys(path[..k]) + if k > 0 then Pair(Some(path[k - 1]), Some(path[k])) else {}
  {
    assert path[..k + 1][..k] == path[..k] && path[..k + 1] == path[..k] + [path[k]];
    assert k > 0 ==> path[k - 1] in path[..k];
  }

  lemma PathJoins(self: As, paths: seq<seq<nat>>, p: nat)
    requires p < |paths|
    ensures AllIds(paths[..p + 1]) == AllIds(paths[..p]) + PathIds(paths[p])
    ensures AllKeys(self, paths[..p + 1]) == AllKeys(self, paths[..p]) + HopKeys(self, paths[p])
  {
    assert paths[..p + 1][..p] == paths[..p];
  }

  /** Only the first node may be this router. */
  predicate PeersAfterFirst(nodes: seq<Node>) {
    forall i | 0 < i < |nodes| :: nodes[i].group == Peer
  }

  lemma NodeJoins(nodes: seq<Node>, x: Node)
    ensures Ids(nodes + [x]) == Ids(nodes) + {x.id}
  {
  }

  lemma EdgeJoins(edges: seq<Edge>, e: Edge)
    ensures Keys(edges + [e]) == Keys(edges) + {KeyOf(e.from, e.to)}
  {
  }

  // ----- the whole graph

  /** The first known AS number of this router. */
  function LocalAs(bgp: seq<Option<nat>>): As {
    if bgp == [] then None else if bgp[0].Some? then bgp[0] else LocalAs(bgp[1..])
  }

  /** Every number before it is missing; it is missing itself only if all are. */
  lemma {:induction false} LocalAsIsFirst(bgp: seq<Option<nat>>)
    ensures LocalAs(bgp) == None <==> forall i | 0 <= i < |bgp| :: bgp[i] == None
    ensures LocalAs(bgp).Some? ==>
              exists i | 0 <= i < |bgp| :: bgp[i] == LocalAs(bgp) && forall j | 0 <= j < i :: bgp[j] == None
  {
    if bgp != [] && bgp[0] == None {
      LocalAsIsFirst(bgp[1..]);
      if i :| 0 <= i < |bgp| - 1 && bgp[1..][i] == LocalAs(bgp) && forall j | 0 <= j < i :: bgp[1..][j] == None {
        assert bgp[i + 1] == LocalAs(bgp) && forall j | 0 < j < i + 1 :: bgp[j] == bgp[1..][j - 1];
      }
    }
  }

  method FindLocalAs(bgp: seq<Option<nat>>) returns (self: As)
    ensures self == LocalAs(bgp)
  {
    self := None;
    for i := 0 to |bgp|
      invariant self == None && LocalAs(bgp) == LocalAs(bgp[i..])
    {
      assert bgp[i..][1..] == bgp[i + 1..];
      if bgp[i].Some? {
        self := bgp[i];
        break;
      }
    }
  }

  method BuildAsGraph(bgp: seq<Option<nat>>, paths: seq<seq<nat>>) returns (nodes: seq<Node>, edges: seq<Edge>)
    ensures Simple(nodes, edges)
    ensures nodes != [] && nodes[0] == Node(LocalAs(bgp), Local) && PeersAfterFirst(nodes)
    ensures Ids(nodes) == {LocalAs(bgp)} + AllIds(paths)
    ensures Keys(edges) == AllKeys(LocalAs(bgp), paths)
  {
    var self := FindLocalAs(bgp);
    var g := new Builder();
    assert Ids([]) == {} && Keys([]) == {};
    g.AddNode(self, Local);
    hide Ids;
    hide Keys;
    hide Simple;
    hide PeersAfterFirst;
    hide HopKeys;
    hide PathIds;
    hide LocalAs;
    for p := 0 to |paths|
      invariant fresh(g) && g.Valid() && g.nodes != [] && g.nodes[0] == Node(self, Local)
      invariant Ids(g.nodes) == {self} + AllIds(paths[..p]) && Keys(g.edges) == AllKeys(self, paths[..p])
    {
      PathJoins(self, paths, p);
      hide AllIds;
      hide AllKeys;
      g.AddPath(self, paths[p]);
    }
    assert paths[..|paths|] == paths;
    return g.nodes, g.edges;
  }

  // ----- every node hangs together with this router

  /** A walk along edges; it may stand still. */
  predicate Walk(keys: set<Key>, w: seq<As>) {
    forall k | 0 < k < |w| :: w[k - 1] == w[k] || KeyOf(w[k - 1], w[k]) in keys
  }

  ghost predicate Connected(keys: set<Key>, a: As, b: As) {
    exists w :: w != [] && w[0] == a && w[|w| - 1] == b && Walk(keys, w)
  }

  function Hops(self: As, path: seq<nat>): seq<As> {
    [self] + seq(|path|, i requires 0 <= i < |path| => Some(path[i]))
  }

  lemma HopsWalk(self: As, paths: seq<seq<nat>>, path: seq<nat>)
    requires path in paths
    ensures Walk(AllKeys(self, paths), Hops(self, path))
  {
    hide KeyOf;
    hide AllKeys;
    var w := Hops(self, path);
    forall k | 0 < k < |w| ensures w[k - 1] == w[k] || KeyOf(w[k - 1], w[k]) in AllKeys(self, paths) {
      if w[k - 1] != w[k] {
        AllKeysIff(self, paths, w[k - 1], w[k]);
        assert k > 1 ==> w[k - 1] == Some(path[k - 2]) && Adjacent(path, w[k - 1], w[k]);
      }
    }
  }

  /** Every node is connected to this router. */
  lemma EveryNodeIsConnected(self: As, paths: seq<seq<nat>>, a: As)
    requires a in {self} + AllIds(paths)
    ensures Connected(AllKeys(self, paths), self, a)
  {
    hide AllKeys;
    AllIdsIff(paths, a);
    if a == self {
      assert Walk(AllKeys(self, paths), [self]);
    } else {
      var path :| path in paths && a.value in path;
      var i :| 0 <= i < |path| && path[i] == a.value;
      HopsWalk(self, paths, path);
      var w := Hops(self, path)[..i + 2];
      assert w[|w| - 1] == a && Walk(AllKeys(self, paths), w);
    }
  }
}
