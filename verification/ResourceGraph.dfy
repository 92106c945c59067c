/** The blast-radius graph: frontier search over an unordered edge table. */
module ResourceGraph {
  import opened Text
  import Sorting

  datatype Node = Node(id: string, cluster: string, kind: string, namespace: string, name: string, riskLevel: string)

  datatype Edge = Edge(id: string, source: string, target: string, relation: string)

  function NodeId(cluster: string, kind: string, namespace: string, name: string): string {
    Join([cluster, kind, namespace, name], '|')
  }

  /** Two resources share a node id only when they are the same resource, unless a field contains the separator. */
  lemma NodeIdInjective(a: seq<string>, b: seq<string>)
    requires |a| == 4 && |b| == 4
    requires forall f :: f in a + b ==> '|' !in f
    requires NodeId(a[0], a[1], a[2], a[3]) == NodeId(b[0], b[1], b[2], b[3])
    ensures a == b
  {
    assert a == [a[0], a[1], a[2], a[3]] && b == [b[0], b[1], b[2], b[3]];
    forall f | f in a ensures '|' !in f { assert f in a + b; }
    forall f | f in b ensures '|' !in f { assert f in a + b; }
    JoinInjective(a, b, '|');
  }

  function EdgeId(source: string, relation: string, target: string): string {
    Join([source, relation, target], '|')
  }

  /** How ids are spelt. */
  lemma IdsSpelt(a: string, b: string, c: string, d: string)
    ensures NodeId(a, b, c, d) == a + "|" + b + "|" + c + "|" + d
    ensures EdgeId(a, b, c) == a + "|" + b + "|" + c
  {
    assert [a, b, c, d][1..] == [b, c, d] && [b, c, d][1..] == [c, d] && [c, d][1..] == [d];
    assert Join([c, d], '|') == c + ['|'] + d;
    assert Join([b, c, d], '|') == b + ['|'] + (c + ['|'] + d);
    assert [a, b, c][1..] == [b, c] && [b, c][1..] == [c];
    assert Join([b, c], '|') == b + ['|'] + c;
  }

  /** The nine fields behind an edge id: the ends are node ids and contain the separator themselves. */
  lemma EdgeIdFields(a: seq<string>, relation: string, b: seq<string>)
    requires |a| == 4 && |b| == 4
    ensures EdgeId(NodeId(a[0], a[1], a[2], a[3]), relation, NodeId(b[0], b[1], b[2], b[3]))
      == Join(a + ([relation] + b), '|')
  {
    assert a == [a[0], a[1], a[2], a[3]] && b == [b[0], b[1], b[2], b[3]];
    var ends := [Join(a, '|'), relation, Join(b, '|')];
    JoinAppend(a, [relation] + b, '|');
    JoinAppend([relation], b, '|');
    assert ends[1..] == [relation, Join(b, '|')] && ends[1..][1..] == [Join(b, '|')];
    assert Join(ends, '|') == ends[0] + ['|'] + Join(ends[1..], '|');
    assert Join(ends[1..], '|') == relation + ['|'] + Join(b, '|');
  }

  /** Separator-free fields: two edges share an id only when they have the same relation and the same ends, so
      no edge is dropped for another. */
  lemma EdgeIdInjective(a: seq<string>, r: string, b: seq<string>, a': seq<string>, r': string, b': seq<string>)
    requires |a| == 4 && |b| == 4 && |a'| == 4 && |b'| == 4
    requires forall f :: f in a + ([r] + b) ==> '|' !in f
    requires forall f :: f in a' + ([r'] + b') ==> '|' !in f
    requires EdgeId(NodeId(a[0], a[1], a[2], a[3]), r, NodeId(b[0], b[1], b[2], b[3]))
          == EdgeId(NodeId(a'[0], a'[1], a'[2], a'[3]), r', NodeId(b'[0], b'[1], b'[2], b'[3]))
    ensures a == a' && r == r' && b == b'
  {
    EdgeIdFields(a, r, b);
    EdgeIdFields(a', r', b');
    var x, y := a + ([r] + b), a' + ([r'] + b');
    JoinInjective(x, y, '|');
    assert a == x[..4] && a' == y[..4] && r == x[4] && r' == y[4] && b == x[5..] && b' == y[5..];
  }

  // ----- Building the graph -----

  /** One inventory item, as far as the graph is concerned. */
  datatype Resource = Resource(cluster: string, kind: string, namespace: string, name: string, riskLevel: string)

  function IdOf(r: Resource): string {
    NodeId(r.cluster, r.kind, r.namespace, r.name)
  }

  function NodeOf(r: Resource): Node {
    Node(IdOf(r), r.cluster, r.kind, r.namespace, r.name, r.riskLevel)
  }

  /** Nodes sit under the id of their own fields. */
  ghost predicate Keyed(nodes: map<string, Node>) {
    forall id :: id in nodes ==>
      var n := nodes[id];
      n.id == id == NodeId(n.cluster, n.kind, n.namespace, n.name)
  }

  /** One node per resource, the last one listed. */
  function NodesOf(items: seq<Resource>): map<string, Node> {
    if items == [] then map[] else NodesOf(items[..|items| - 1])[IdOf(items[|items| - 1]) := NodeOf(items[|items| - 1])]
  }

  lemma {:induction false} NodesKeyed(items: seq<Resource>)
    ensures Keyed(NodesOf(items))
    ensures forall id :: id in NodesOf(items) <==> exists i :: 0 <= i < |items| && IdOf(items[i]) == id
    decreases |items|
  {
    if items != [] {
      var n := |items| - 1;
      var front := items[..n];
      NodesKeyed(front);
      forall id ensures id in NodesOf(items) <==> exists i :: 0 <= i < |items| && IdOf(items[i]) == id {
        if i :| 0 <= i < |items| && IdOf(items[i]) == id { assert i < n ==> front[i] == items[i]; }
        if i :| 0 <= i < |front| && IdOf(front[i]) == id { assert items[i] == front[i]; }
      }
    }
  }

  /** The node is the one of the resource, under an id made of its four names. */
  ghost predicate Describes(id: string, n: Node, r: Resource) {
    && id == r.cluster + "|" + r.kind + "|" + r.namespace + "|" + r.name
    && n.id == id && n.cluster == r.cluster && n.kind == r.kind && n.namespace == r.namespace && n.name == r.name
    && n.riskLevel == r.riskLevel
  }

  ghost predicate TellsLast(id: string, n: Node, items: seq<Resource>, i: int) {
    && 0 <= i < |items| && Describes(id, n, items[i])
    && forall j :: i < j < |items| ==>
         id != items[j].cluster + "|" + items[j].kind + "|" + items[j].namespace + "|" + items[j].name
  }

  /** Every resource has a node, and a node tells of the last resource listed under its id. */
  ghost predicate NodesTell(nodes: map<string, Node>, items: seq<Resource>) {
    && (forall i :: 0 <= i < |items| ==>
          items[i].cluster + "|" + items[i].kind + "|" + items[i].namespace + "|" + items[i].name in nodes)
    && forall id :: id in nodes ==> exists i :: TellsLast(id, nodes[id], items, i)
  }

  lemma {:induction false} NodesAreLast(items: seq<Resource>)
    ensures NodesTell(NodesOf(items), items)
    decreases |items|
  {
    if items != [] {
      var n := |items| - 1;
      var front, last := items[..n], items[n];
      NodesAreLast(front);
      IdsSpelt(last.cluster, last.kind, last.namespace, last.name);
      var before, nodes := NodesOf(front), NodesOf(items);
      forall id | id in nodes ensures exists i :: TellsLast(id, nodes[id], items, i) {
        if id == IdOf(last) {
          assert TellsLast(id, nodes[id], items, n);
        } else {
          var i :| TellsLast(id, before[id], front, i);
          assert TellsLast(id, nodes[id], items, i);
        }
      }
      forall i | 0 <= i < |items|
        ensures items[i].cluster + "|" + items[i].kind + "|" + items[i].namespace + "|" + items[i].name in nodes
      {
        if i < n { assert front[i] == items[i]; }
      }
    }
  }

  ghost predicate ProperEdge(nodes: map<string, Node>, id: string, e: Edge) {
    e.id == id == EdgeId(e.source, e.relation, e.target) && e.source in nodes && e.target in nodes
      && e.source != e.target
  }

  function Fields(n: Node): seq<string> {
    [n.cluster, n.kind, n.namespace, n.name]
  }

  /** No field of a node, and no relation, contains the separator. */
  ghost predicate SeparatorFree(nodes: map<string, Node>, edges: map<string, Edge>) {
    && (forall id :: id in nodes ==> forall f :: f in Fields(nodes[id]) ==> '|' !in f)
    && (forall id :: id in edges ==> '|' !in edges[id].relation)
  }

  lemma EndsNotEmpty(nodes: map<string, Node>, source: string, target: string)
    requires Keyed(nodes) && source in nodes && target in nodes
    ensures source != "" && target != ""
  {
  }

  /** Under the id of an edge sits that edge. */
  lemma SameIdSameEdge(nodes: map<string, Node>, e: Edge, source: string, relation: string, target: string)
    requires Keyed(nodes) && SeparatorFree(nodes, map[]) && source in nodes && target in nodes
    requires ProperEdge(nodes, EdgeId(source, relation, target), e) && '|' !in e.relation && '|' !in relation
    ensures e == Edge(EdgeId(source, relation, target), source, target, relation)
  {
    var a, b := Fields(nodes[source]), Fields(nodes[target]);
    var c, d := Fields(nodes[e.source]), Fields(nodes[e.target]);
    EdgeIdInjective(a, relation, b, c, e.relation, d);
  }

  // ----- Undirected reachability -----

  ghost predicate Adjacent(edges: map<string, Edge>, u: string, v: string) {
    exists id :: id in edges
      && ((edges[id].source == u && edges[id].target == v) || (edges[id].target == u && edges[id].source == v))
  }

  /** A walk lists its nodes; consecutive ones are joined by an edge, in either direction. */
  ghost predicate IsWalk(edges: map<string, Edge>, walk: seq<string>) {
    walk != [] && forall i :: 0 <= i < |walk| - 1 ==> Adjacent(edges, walk[i], walk[i + 1])
  }

  ghost predicate WalkTo(edges: map<string, Edge>, focus: string, v: string, k: nat, walk: seq<string>) {
    IsWalk(edges, walk) && walk[0] == focus && walk[|walk| - 1] == v && |walk| <= k + 1
  }

  /** At most `k` edges away from the focus. */
  ghost predicate Near(edges: map<string, Edge>, focus: string, v: string, k: nat) {
    exists walk :: WalkTo(edges, focus, v, k, walk)
  }

  lemma NearSelf(edges: map<string, Edge>, focus: string, k: nat)
    ensures Near(edges, focus, focus, k)
  {
    assert WalkTo(edges, focus, focus, k, [focus]);
  }

  lemma NearMonotone(edges: map<string, Edge>, focus: string, v: string, k: nat, k': nat)
    requires Near(edges, focus, v, k) && k <= k'
    ensures Near(edges, focus, v, k')
  {
    var walk :| WalkTo(edges, focus, v, k, walk);
    assert WalkTo(edges, focus, v, k', walk);
  }

  lemma NearExtend(edges: map<string, Edge>, focus: string, u: string, v: string, k: nat)
    requires Near(edges, focus, u, k) && Adjacent(edges, u, v)
    ensures Near(edges, focus, v, k + 1)
  {
    var walk :| WalkTo(edges, focus, u, k, walk);
    var walk' := walk + [v];
    forall i | 0 <= i < |walk'| - 1 ensures Adjacent(edges, walk'[i], walk'[i + 1]) {
      if i < |walk| - 1 { assert walk'[i] == walk[i] && walk'[i + 1] == walk[i + 1]; }
    }
    assert WalkTo(edges, focus, v, k + 1, walk');
  }

  /** The last edge of a walk: its node was already near, or a node one step nearer is adjacent to it. */
  lemma NearLastStep(edges: map<string, Edge>, focus: string, v: string, k: nat) returns (u: string)
    requires Near(edges, focus, v, k + 1)
    ensures Near(edges, focus, v, k) || (Near(edges, focus, u, k) && Adjacent(edges, u, v))
  {
    var walk :| WalkTo(edges, focus, v, k + 1, walk);
    if |walk| <= k + 1 {
      assert WalkTo(edges, focus, v, k, walk);
      u := v;
    } else {
      var front := walk[..|walk| - 1];
      u := front[|front| - 1];
      forall i | 0 <= i < |front| - 1 ensures Adjacent(edges, front[i], front[i + 1]) {
        assert front[i] == walk[i] && front[i + 1] == walk[i + 1];
      }
      assert WalkTo(edges, focus, u, k, front);
      assert Adjacent(edges, walk[|walk| - 2], walk[|walk| - 1]);
    }
  }

  // ----- The search -----

  /** `included` is the ball of radius `k`; `frontier` is its outermost layer. */
  ghost predicate Layered(edges: map<string, Edge>, focus: string, k: nat, included: set<string>,
                          frontier: set<string>) {
    && (forall v :: v in included <==> Near(edges, focus, v, k))
    && (forall v :: v in frontier <==> Near(edges, focus, v, k) && !(k > 0 && Near(edges, focus, v, k - 1)))
  }

  /** With an empty outermost layer the ball has stopped growing. */
  lemma {:induction false} EmptyFrontier(edges: map<string, Edge>, focus: string, k: nat, included: set<string>,
                                         k': nat)
    requires Layered(edges, focus, k, included, {}) && k <= k'
    ensures Layered(edges, focus, k', included, {})
    decreases k' - k
  {
    if k < k' {
      forall v ensures Near(edges, focus, v, k + 1) <==> Near(edges, focus, v, k) {
        if Near(edges, focus, v, k + 1) {
          var u := NearLastStep(edges, focus, v, k);
          if !Near(edges, focus, v, k) {
            assert u !in {};
            assert k > 0 && Near(edges, focus, u, k - 1);
            NearExtend(edges, focus, u, v, k - 1);
          }
        }
        if Near(edges, focus, v, k) { NearMonotone(edges, focus, v, k, k + 1); }
      }
      EmptyFrontier(edges, focus, k + 1, included, k');
    }
  }

  /** The nodes one scan of the edge table adds. */
  ghost predicate AddedBy(edges: map<string, Edge>, ids: set<string>, frontier: set<string>, before: set<string>,
                          next: set<string>) {
    && (forall v :: v in next ==> v !in before && exists u :: u in frontier && Adjacent(edges, u, v))
    && (forall id :: id in ids && id in edges ==>
         (edges[id].source in frontier ==> edges[id].target in before + next) &&
         (edges[id].target in frontier ==> edges[id].source in before + next))
  }

  /** A scan of all edges, in any order, moves the layers out by one. */
  lemma ScanAdvances(edges: map<string, Edge>, focus: string, k: nat, before: set<string>, frontier: set<string>,
                     next: set<string>)
    requires Layered(edges, focus, k, before, frontier)
    requires AddedBy(edges, edges.Keys, frontier, before, next)
    ensures Layered(edges, focus, k + 1, before + next, next)
  {
    forall v ensures v in before + next <==> Near(edges, focus, v, k + 1) {
      if v in before { NearMonotone(edges, focus, v, k, k + 1); }
      if v in next {
        var u :| u in frontier && Adjacent(edges, u, v);
        NearExtend(edges, focus, u, v, k);
      }
      if Near(edges, focus, v, k + 1) && v !in before {
        var u := NearLastStep(edges, focus, v, k);
        if k > 0 && Near(edges, focus, u, k - 1) { NearExtend(edges, focus, u, v, k - 1); }
        assert u in frontier;
        var id :| id in edges
          && ((edges[id].source == u && edges[id].target == v) || (edges[id].target == u && edges[id].source == v));
        assert id in edges.Keys;
      }
    }
  }

  /** What one edge adds to the next layer. */
  ghost predicate Visited(e: Edge, frontier: set<string>, before: set<string>, next: set<string>, next': set<string>) {
    && next <= next'
    && (forall v :: v in next' - next ==>
      v !in before && ((v == e.target && e.source in frontier) || (v == e.source && e.target in frontier)))
    && (e.source in frontier ==> e.target in before + next')
    && (e.target in frontier ==> e.source in before + next')
  }

  /** One edge of a scan: each end reached from the frontier joins the included set. */
  method VisitEdge(e: Edge, frontier: set<string>, included: set<string>, next: set<string>, ghost before: set<string>)
    returns (included': set<string>, next': set<string>)
    requires included == before + next
    ensures included' == before + next'
    ensures Visited(e, frontier, before, next, next')
  {
    included', next' := included, next;
    if e.source in frontier && e.target !in included' {
      included', next' := included' + {e.target}, next' + {e.target};
    }
    if e.target in frontier && e.source !in included' {
      included', next' := included' + {e.source}, next' + {e.source};
    }
  }

  lemma VisitStep(edges: map<string, Edge>, ids: set<string>, frontier: set<string>, before: set<string>,
                  next: set<string>, next': set<string>, id: string)
    requires AddedBy(edges, ids, frontier, before, next) && id in edges
    requires Visited(edges[id], frontier, before, next, next')
    ensures AddedBy(edges, ids + {id}, frontier, before, next')
  {
    forall v | v in next' ensures v !in before && exists u :: u in frontier && Adjacent(edges, u, v) {
      if v !in next {
        assert v in next' - next;
        var u := if v == edges[id].target && edges[id].source in frontier then edges[id].source else edges[id].target;
        assert u in frontier && Adjacent(edges, u, v);
      }
    }
  }

  /** One scan of the edge table, in an arbitrary order. */
  method Scan(edges: map<string, Edge>, frontier: set<string>, before: set<string>)
    returns (included: set<string>, next: set<string>)
    ensures included == before + next
    ensures AddedBy(edges, edges.Keys, frontier, before, next)
  {
    included, next := before, {};
    var todo := edges.Keys;
    ghost var done: set<string> := {};
    while todo != {}
      invariant todo !! done && todo + done == edges.Keys
      invariant included == before + next
      invariant AddedBy(edges, done, frontier, before, next)
      decreases |todo|
    {
      var id :| id in todo;
      ghost var next0 := next;
      included, next := VisitEdge(edges[id], frontier, included, next, before);
      VisitStep(edges, done, frontier, before, next0, next, id);
      todo, done := todo - {id}, done + {id};
    }
    assert done == edges.Keys;
  }

  lemma FirstLayer(edges: map<string, Edge>, focus: string)
    ensures Layered(edges, focus, 0, {focus}, {focus})
  {
    NearSelf(edges, focus, 0);
  }

  /** The ball around the focus, layer by layer, with an early exit once a scan adds nothing. */
  method Reach(edges: map<string, Edge>, focus: string, radius: nat) returns (included: set<string>)
    ensures forall v :: v in included <==> Near(edges, focus, v, radius)
  {
    included := {focus};
    var frontier := {focus};
    FirstLayer(edges, focus);
    var step := 0;
    while step < radius
      invariant step <= radius
      invariant Layered(edges, focus, step, included, frontier)
    {
      var next;
      ghost var before := included;
      included, next := Scan(edges, frontier, included);
      ScanAdvances(edges, focus, step, before, frontier, next);
      frontier := next;
      step := step + 1;
      if frontier == {} {
        EmptyFrontier(edges, focus, step, included, radius);
        break;
      }
    }
  }

  // ----- The returned graph -----

  /** The nodes a request selects: everything without a focus, nothing for an unknown focus, else the ball. */
  ghost predicate Selected(nodes: map<string, Node>, edges: map<string, Edge>, focus: string, radius: int, id: string) {
    if focus == "" then id in nodes
    else focus in nodes && Near(edges, focus, id, if radius < 0 then 0 else radius)
  }

  ghost function SelectedNodes(nodes: map<string, Node>, edges: map<string, Edge>, focus: string,
                               radius: int): set<Node> {
    set id | id in nodes && Selected(nodes, edges, focus, radius, id) :: nodes[id]
  }

  ghost function InducedEdges(nodes: map<string, Node>, edges: map<string, Edge>, focus: string,
                              radius: int): set<Edge> {
    set id | id in edges && Selected(nodes, edges, focus, radius, edges[id].source)
                         && Selected(nodes, edges, focus, radius, edges[id].target) :: edges[id]
  }

  predicate TripleLe(a: (string, string, string), b: (string, string, string)) {
    if a.0 != b.0 then Sorting.StringLe(a.0, b.0)
    else if a.1 != b.1 then Sorting.StringLe(a.1, b.1)
    else Sorting.StringLe(a.2, b.2)
  }

  predicate NodeLe(a: Node, b: Node) {
    TripleLe((a.kind, a.namespace, a.name), (b.kind, b.namespace, b.name))
  }

  predicate EdgeLe(a: Edge, b: Edge) {
    TripleLe((a.source, a.relation, a.target), (b.source, b.relation, b.target))
  }

  lemma TripleTotal(a: (string, string, string), b: (string, string, string))
    ensures TripleLe(a, b) || TripleLe(b, a)
  {
    Sorting.StringLeTotal(a.0, b.0);
    Sorting.StringLeTotal(a.1, b.1);
    Sorting.StringLeTotal(a.2, b.2);
  }

  lemma TripleTransitive(a: (string, string, string), b: (string, string, string), c: (string, string, string))
    requires TripleLe(a, b) && TripleLe(b, c)
    ensures TripleLe(a, c)
  {
    Sorting.StringLeTotal(a.0, b.0);
    Sorting.StringLeTotal(a.1, b.1);
    if Sorting.StringLe(a.0, b.0) && Sorting.StringLe(b.0, c.0) { Sorting.StringLeTransitive(a.0, b.0, c.0); }
    if Sorting.StringLe(a.1, b.1) && Sorting.StringLe(b.1, c.1) { Sorting.StringLeTransitive(a.1, b.1, c.1); }
    if Sorting.StringLe(a.2, b.2) && Sorting.StringLe(b.2, c.2) { Sorting.StringLeTransitive(a.2, b.2, c.2); }
    Sorting.StringLeTotal(b.0, c.0);
    Sorting.StringLeTotal(b.1, c.1);
  }

  lemma NodeOrder()
    ensures Sorting.TotalPreorder(NodeLe)
  {
    forall a, b ensures NodeLe(a, b) || NodeLe(b, a) {
      TripleTotal((a.kind, a.namespace, a.name), (b.kind, b.namespace, b.name));
    }
    forall a, b, c | NodeLe(a, b) && NodeLe(b, c) ensures NodeLe(a, c) {
      TripleTransitive((a.kind, a.namespace, a.name), (b.kind, b.namespace, b.name), (c.kind, c.namespace, c.name));
    }
  }

  lemma EdgeOrder()
    ensures Sorting.TotalPreorder(EdgeLe)
  {
    forall a, b ensures EdgeLe(a, b) || EdgeLe(b, a) {
      TripleTotal((a.source, a.relation, a.target), (b.source, b.relation, b.target));
    }
    forall a, b, c | EdgeLe(a, b) && EdgeLe(b, c) ensures EdgeLe(a, c) {
      TripleTransitive((a.source, a.relation, a.target), (b.source, b.relation, b.target),
        (c.source, c.relation, c.target));
    }
  }

  /** By kind, then namespace, then name. */
  ghost predicate NodesInOrder(s: seq<Node>) {
    forall i, j :: 0 <= i < j < |s| ==>
      var a, b := s[i], s[j];
      && Sorting.StringLe(a.kind, b.kind)
      && (a.kind == b.kind ==> Sorting.StringLe(a.namespace, b.namespace))
      && (a.kind == b.kind && a.namespace == b.namespace ==> Sorting.StringLe(a.name, b.name))
  }

  /** By source, then relation, then target. */
  ghost predicate EdgesInOrder(s: seq<Edge>) {
    forall i, j :: 0 <= i < j < |s| ==>
      var a, b := s[i], s[j];
      && Sorting.StringLe(a.source, b.source)
      && (a.source == b.source ==> Sorting.StringLe(a.relation, b.relation))
      && (a.source == b.source && a.relation == b.relation ==> Sorting.StringLe(a.target, b.target))
  }

  lemma SortedInOrder(nodes: seq<Node>, edges: seq<Edge>)
    requires Sorting.Sorted(NodeLe, nodes) && Sorting.Sorted(EdgeLe, edges)
    ensures NodesInOrder(nodes) && EdgesInOrder(edges)
  {
    forall i, j | 0 <= i < j < |nodes|
      ensures Sorting.StringLe(nodes[i].kind, nodes[j].kind)
      ensures nodes[i].kind == nodes[j].kind ==> Sorting.StringLe(nodes[i].namespace, nodes[j].namespace)
      ensures nodes[i].kind == nodes[j].kind && nodes[i].namespace == nodes[j].namespace ==>
        Sorting.StringLe(nodes[i].name, nodes[j].name)
    {
      assert NodeLe(nodes[i], nodes[j]);
      Sorting.StringLeTotal(nodes[i].kind, nodes[j].kind);
      Sorting.StringLeTotal(nodes[i].namespace, nodes[j].namespace);
    }
    forall i, j | 0 <= i < j < |edges|
      ensures Sorting.StringLe(edges[i].source, edges[j].source)
      ensures edges[i].source == edges[j].source ==> Sorting.StringLe(edges[i].relation, edges[j].relation)
      ensures edges[i].source == edges[j].source && edges[i].relation == edges[j].relation ==>
        Sorting.StringLe(edges[i].target, edges[j].target)
    {
      assert EdgeLe(edges[i], edges[j]);
      Sorting.StringLeTotal(edges[i].source, edges[j].source);
      Sorting.StringLeTotal(edges[i].relation, edges[j].relation);
    }
  }

  /** The ends of every returned edge are returned nodes. */
  lemma GraphClosed(nodes: map<string, Node>, edges: map<string, Edge>, focus: string, radius: int, shown: seq<Node>,
                    links: seq<Edge>)
    requires forall id :: id in edges ==> ProperEdge(nodes, id, edges[id])
    requires multiset(shown) == multiset(SelectedNodes(nodes, edges, focus, radius))
    requires multiset(links) == multiset(InducedEdges(nodes, edges, focus, radius))
    ensures forall e :: e in links ==>
      e.source in nodes && e.target in nodes && e.source != e.target && nodes[e.source] in shown
        && nodes[e.target] in shown
  {
    forall e | e in links
      ensures e.source in nodes && e.target in nodes && e.source != e.target && nodes[e.source] in shown
        && nodes[e.target] in shown
    {
      assert e in multiset(links);
      assert e in InducedEdges(nodes, edges, focus, radius);
      assert nodes[e.source] in SelectedNodes(nodes, edges, focus, radius)
        && nodes[e.target] in SelectedNodes(nodes, edges, focus, radius);
      assert nodes[e.source] in multiset(shown) && nodes[e.target] in multiset(shown);
    }
  }

  ghost function Known(nodes: map<string, Node>, ids: set<string>): set<Node> {
    set id | id in ids && id in nodes :: nodes[id]
  }

  lemma KnownStep(nodes: map<string, Node>, ids: set<string>, id: string)
    requires forall i :: i in nodes ==> nodes[i].id == i
    requires id !in ids
    ensures multiset(Known(nodes, ids + {id})) == multiset(Known(nodes, ids)) + if id in nodes then multiset{nodes[id]}
      else multiset{}
  {
    assert Known(nodes, ids + {id}) == Known(nodes, ids) + if id in nodes then {nodes[id]} else {};
    assert id in nodes ==> nodes[id] !in Known(nodes, ids);
  }

  method CollectNodes(nodeByID: map<string, Node>, included: set<string>) returns (nodes: seq<Node>)
    requires forall id :: id in nodeByID ==> nodeByID[id].id == id
    ensures multiset(nodes) == multiset(Known(nodeByID, included))
  {
    nodes := [];
    var todo := included;
    ghost var done: set<string> := {};
    while todo != {}
      invariant todo !! done && todo + done == included
      invariant multiset(nodes) == multiset(Known(nodeByID, done))
      decreases |todo|
    {
      var id :| id in todo;
      KnownStep(nodeByID, done, id);
      todo, done := todo - {id}, done + {id};
      if id in nodeByID { nodes := nodes + [nodeByID[id]]; }
    }
    assert done == included;
  }

  /** The edges among `ids` with both ends included. */
  ghost function Induced(edges: map<string, Edge>, included: set<string>, ids: set<string>): set<Edge> {
    set id | id in ids && id in edges && edges[id].source in included && edges[id].target in included :: edges[id]
  }

  lemma InducedStep(edges: map<string, Edge>, included: set<string>, ids: set<string>, id: string)
    requires forall i :: i in edges ==> edges[i].id == i
    requires id in edges && id !in ids
    ensures multiset(Induced(edges, included, ids + {id})) == multiset(Induced(edges, included, ids)) +
            if edges[id].source in included && edges[id].target in included then multiset{edges[id]} else multiset{}
  {
    assert Induced(edges, included, ids + {id}) == Induced(edges, included, ids) +
           if edges[id].source in included && edges[id].target in included then {edges[id]} else {};
    assert edges[id] !in Induced(edges, included, ids);
  }

  method CollectEdges(edgeByID: map<string, Edge>, included: set<string>) returns (edges: seq<Edge>)
    requires forall id :: id in edgeByID ==> edgeByID[id].id == id
    ensures multiset(edges) == multiset(Induced(edgeByID, included, edgeByID.Keys))
  {
    edges := [];
    var todo := edgeByID.Keys;
    ghost var done: set<string> := {};
    while todo != {}
      invariant todo !! done && todo + done == edgeByID.Keys
      invariant multiset(edges) == multiset(Induced(edgeByID, included, done))
      decreases |todo|
    {
      var id :| id in todo;
      InducedStep(edgeByID, included, done, id);
      todo, done := todo - {id}, done + {id};
      if edgeByID[id].source in included && edgeByID[id].target in included {
        edges := edges + [edgeByID[id]];
      }
    }
    assert done == edgeByID.Keys;
  }

  /** The ball of the radius around the focus and the subgraph it induces, each element once and in
      order, whatever order the maps are walked in. */
  method MaterializeGraph(nodeByID: map<string, Node>, edgeByID: map<string, Edge>, focus: string, radius: int)
    returns (nodes: seq<Node>, edges: seq<Edge>)
    requires forall id :: id in nodeByID ==> nodeByID[id].id == id
    requires forall id :: id in edgeByID ==> edgeByID[id].id == id
    ensures multiset(nodes) == multiset(SelectedNodes(nodeByID, edgeByID, focus, radius))
    ensures multiset(edges) == multiset(InducedEdges(nodeByID, edgeByID, focus, radius))
    ensures Sorting.Sorted(NodeLe, nodes) && Sorting.Sorted(EdgeLe, edges)
  {
    var included: set<string> := {};
    if focus != "" {
      if focus in nodeByID {
        included := Reach(edgeByID, focus, if radius < 0 then 0 else radius);
      }
    } else {
      included := nodeByID.Keys;
    }
    assert forall id :: id in included <==> Selected(nodeByID, edgeByID, focus, radius, id);
    nodes := CollectNodes(nodeByID, included);
    edges := CollectEdges(edgeByID, included);
    assert Known(nodeByID, included) == SelectedNodes(nodeByID, edgeByID, focus, radius);
    assert Induced(edgeByID, included, edgeByID.Keys) == InducedEdges(nodeByID, edgeByID, focus, radius);
    NodeOrder();
    EdgeOrder();
    Sorting.SortCorrect(NodeLe, nodes);
    Sorting.SortCorrect(EdgeLe, edges);
    nodes, edges := Sorting.Sort(NodeLe, nodes), Sorting.Sort(EdgeLe, edges);
  }

  // ----- The graph of an inventory -----

  /** The node table of an inventory, filled item by item. */
  method IndexNodes(items: seq<Resource>) returns (table: map<string, Node>)
    ensures table == NodesOf(items) && Keyed(table)
    ensures NodesTell(table, items)
  {
    table := map[];
    var i := 0;
    while i < |items|
      invariant 0 <= i <= |items| && table == NodesOf(items[..i])
    {
      assert items[..i + 1][..i] == items[..i];
      table := table[IdOf(items[i]) := NodeOf(items[i])];
      i := i + 1;
    }
    assert items[..i] == items;
    NodesKeyed(items);
    NodesAreLast(items);
  }

  class EdgeTable {
    const nodes: map<string, Node>
    var edges: map<string, Edge>

    /** Edges join two different known nodes, and sit under the id of their ends and relation. */
    ghost predicate Valid()
      reads this
    {
      Keyed(nodes) && forall id :: id in edges ==> ProperEdge(nodes, id, edges[id])
    }

    constructor (items: seq<Resource>)
      ensures nodes == NodesOf(items) && edges == map[] && Valid()
    {
      var table := IndexNodes(items);
      nodes := table;
      edges := map[];
    }

    /** The first edge of an id wins; self loops and unknown ends are dropped. As long as no field contains the
        separator, the edge asked for is in the table afterwards. */
    method AddEdge(source: string, target: string, relation: string)
      requires Valid()
      modifies this`edges
      ensures Valid()
      ensures var id := EdgeId(source, relation, target);
        edges == if source != "" && target != "" && source != target && source in nodes && target in nodes
          && id !in old(edges)
                 then old(edges)[id := Edge(id, source, target, relation)] else old(edges)
      ensures SeparatorFree(nodes, old(edges)) && '|' !in relation ==>
        && SeparatorFree(nodes, edges)
        && (source != target && source in nodes && target in nodes ==>
              var id := EdgeId(source, relation, target);
              id in edges && edges[id] == Edge(id, source, target, relation))
    {
      if source in nodes && target in nodes { EndsNotEmpty(nodes, source, target); }
      if source == "" || target == "" || source == target { return; }
      if source !in nodes { return; }
      if target !in nodes { return; }
      var id := EdgeId(source, relation, target);
      if id in edges {
        if SeparatorFree(nodes, edges) && '|' !in relation {
          SameIdSameEdge(nodes, edges[id], source, relation, target);
        }
        return;
      }
      edges := edges[id := Edge(id, source, target, relation)];
    }

    /** The graph around a focus, or all of it; without a positive radius, two steps. */
    method Graph(focus: string, radius: int) returns (shown: seq<Node>, links: seq<Edge>)
      requires Valid()
      ensures multiset(shown) == multiset(SelectedNodes(nodes, edges, focus, if radius <= 0 then 2 else radius))
      ensures multiset(links) == multiset(InducedEdges(nodes, edges, focus, if radius <= 0 then 2 else radius))
      ensures NodesInOrder(shown) && EdgesInOrder(links)
      ensures forall e :: e in links ==>
        e.source in nodes && e.target in nodes && e.source != e.target && nodes[e.source] in shown
          && nodes[e.target] in shown
    {
      var steps := radius;
      if steps <= 0 { steps := 2; }
      shown, links := MaterializeGraph(nodes, edges, focus, steps);
      GraphClosed(nodes, edges, focus, steps, shown, links);
      SortedInOrder(shown, links);
    }
  }
}
