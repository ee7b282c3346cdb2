/** Blast-radius resolution (packages/policy_engine/impact.py): a breadth-first walk of the
    compliance graph that records, for every node it reaches, the least path from the root. */
module Impact {
  import opened Sorting
  import opened Lexicographic
  import Severity

  type NodeId = string
  type Path = seq<NodeId>

  datatype Kind = Change | Obligation | Control | Process | Evidence | Calendar

  datatype Node = Node(id: NodeId, kind: Kind)

  datatype Graph = Graph(nodes: seq<Node>, edges: seq<(NodeId, NodeId)>)

  datatype ImpactChange = ImpactChange(obligationId: NodeId, severity: Severity.Level)

  datatype ImpactSet = ImpactSet(
    controls: seq<NodeId>,
    processes: seq<NodeId>,
    evidence: seq<NodeId>,
    calendar: seq<NodeId>,
    severity: Severity.Level,
    named: seq<Path>)

  /** The node table; a repeated id keeps its last node. */
  function Table(nodes: seq<Node>): map<NodeId, Node> {
    if nodes == [] then map[]
    else Table(nodes[..|nodes| - 1])[nodes[|nodes| - 1].id := nodes[|nodes| - 1]]
  }

  /** Edges count only between known nodes. */
  predicate Linked(g: Graph, u: NodeId, v: NodeId) {
    (u, v) in g.edges && u in Table(g.nodes) && v in Table(g.nodes)
  }

  ghost predicate IsPath(g: Graph, root: NodeId, p: Path) {
    && p != [] && p[0] == root
    && forall i :: 0 <= i < |p| - 1 ==> Linked(g, p[i], p[i + 1])
  }

  function End(p: Path): NodeId
    requires p != []
  {
    p[|p| - 1]
  }

  predicate Before(p: Path, q: Path) {
    ShortLess(StringLess, p, q)
  }

  ghost predicate Reachable(g: Graph, root: NodeId, t: NodeId) {
    exists p :: IsPath(g, root, p) && End(p) == t
  }

  /** `p` is the path to its end that comes first: fewest hops, then smallest ids in order. */
  ghost predicate Least(g: Graph, root: NodeId, p: Path) {
    && IsPath(g, root, p)
    && forall q :: IsPath(g, root, q) && End(q) == End(p) ==> p == q || Before(p, q)
  }

  /** What the walk must return: a least path for exactly the reachable nodes other than the root. */
  ghost predicate Resolves(g: Graph, root: NodeId, paths: map<NodeId, Path>) {
    && (forall t :: t in paths <==> t != root && Reachable(g, root, t))
    && (forall t :: t in paths ==> paths[t] != [] && Least(g, root, paths[t]) && End(paths[t]) == t)
  }

  // --- adjacency ---

  /** The targets of `u` among the first `k` edges, in edge order. */
  function Targets(g: Graph, u: NodeId, k: nat): seq<NodeId>
    requires k <= |g.edges|
  {
    if k == 0 then []
    else if g.edges[k - 1].0 == u && u in Table(g.nodes) && g.edges[k - 1].1 in Table(g.nodes)
    then Targets(g, u, k - 1) + [g.edges[k - 1].1]
    else Targets(g, u, k - 1)
  }

  lemma {:induction false} TargetsMembers(g: Graph, u: NodeId, k: nat, v: NodeId)
    requires k <= |g.edges|
    ensures v in Targets(g, u, k) <==>
            (u, v) in g.edges[..k] && u in Table(g.nodes) && v in Table(g.nodes)
  {
    hide Table;
    if k == 0 {
    } else {
      TargetsMembers(g, u, k - 1, v);
      assert g.edges[..k] == g.edges[..k - 1] + [g.edges[k - 1]];
    }
  }

  /** Adjacency lists, sorted by target. */
  ghost predicate IsAdjacency(g: Graph, adjacency: map<NodeId, seq<NodeId>>) {
    forall u :: Neighbours(adjacency, u) == SortBy(StringLeq, Targets(g, u, |g.edges|))
  }

  function Neighbours(adjacency: map<NodeId, seq<NodeId>>, u: NodeId): seq<NodeId> {
    if u in adjacency then adjacency[u] else []
  }

  lemma NeighboursLinked(g: Graph, adjacency: map<NodeId, seq<NodeId>>, u: NodeId)
    requires IsAdjacency(g, adjacency)
    ensures forall v :: v in Neighbours(adjacency, u) <==> Linked(g, u, v)
    ensures Sorted(StringLeq, Neighbours(adjacency, u))
  {
    forall v ensures v in Neighbours(adjacency, u) <==> Linked(g, u, v) {
      TargetsMembers(g, u, |g.edges|, v);
      assert g.edges[..|g.edges|] == g.edges;
    }
    StringOrder();
    SortBySorted(StringLeq, Targets(g, u, |g.edges|));
  }

  method BuildAdjacency(g: Graph) returns (adjacency: map<NodeId, seq<NodeId>>)
    ensures IsAdjacency(g, adjacency)
  {
    var nodes := Table(g.nodes);
    var lists: map<NodeId, seq<NodeId>> := map[];
    for k := 0 to |g.edges|
      invariant forall u :: Neighbours(lists, u) == Targets(g, u, k)
    {
      var (source, target) := g.edges[k];
      if source in nodes && target in nodes {
        lists := lists[source := Neighbours(lists, source) + [target]];
      }
    }
    adjacency := map u | u in lists :: SortBy(StringLeq, lists[u]);
    assert SortBy(StringLeq, []) == [];
  }

  // --- the walk ---

  datatype Entry = Entry(node: NodeId, path: Path)

  /** `found` holds a path for the root and for every node visited so far. */
  ghost predicate Visits(g: Graph, root: NodeId, found: map<NodeId, Path>) {
    && root in Table(g.nodes)
    && root in found && found[root] == [root]
    && forall t :: t in found ==> t in Table(g.nodes) && IsPath(g, root, found[t]) && End(found[t]) == t
  }

  /** The queue lists the nodes visited but not yet processed, in path order, after every path
      already processed. */
  ghost predicate Queued(found: map<NodeId, Path>, done: set<NodeId>, queue: seq<Entry>) {
    && (forall u :: u in done ==> u in found)
    && (forall i :: 0 <= i < |queue| ==>
          queue[i].node in found && queue[i].node !in done && queue[i].path == found[queue[i].node])
    && (forall i, j :: 0 <= i < j < |queue| ==> Before(queue[i].path, queue[j].path))
    && (forall u, i :: u in done && 0 <= i < |queue| ==> Before(found[u], queue[i].path))
    && (forall t :: t in found && t !in done ==> exists i :: 0 <= i < |queue| && queue[i].node == t)
  }

  /** Every queued path other than the root's extends a processed one. */
  ghost predicate Extends(found: map<NodeId, Path>, done: set<NodeId>, p: Path) {
    exists u :: u in done && u in found && |p| > 0 && p == found[u] + [End(p)]
  }

  /** The links out of `u` are settled: each target is visited by a path no later than through u. */
  ghost predicate Settled(g: Graph, found: map<NodeId, Path>, u: NodeId)
    requires u in found
  {
    forall v :: Linked(g, u, v) ==> SettledBy(found, found[u], v)
  }

  ghost predicate SettledBy(found: map<NodeId, Path>, p: Path, v: NodeId) {
    v in found && (found[v] == p + [v] || Before(found[v], p + [v]))
  }

  lemma {:induction false} SettledLeast(g: Graph, root: NodeId, found: map<NodeId, Path>, q: Path)
    requires Visits(g, root, found) && forall u :: u in found ==> Settled(g, found, u)
    requires IsPath(g, root, q)
    ensures End(q) in found && (found[End(q)] == q || Before(found[End(q)], q))
  {
    StringOrder();
    if |q| > 1 {
      var t, v := q[..|q| - 1], End(q);
      assert q == t + [v];
      SettledLeast(g, root, found, t);
      var u := End(t);
      assert Linked(g, q[|q| - 2], q[|q| - 1]);
      assert SettledBy(found, found[u], v);
      if found[u] != t {
        ShortExtend(StringLess, found[u], t, v, v);
        if found[v] != found[u] + [v] {
          ShortTransitive(StringLess, found[v], found[u] + [v], q);
        }
      }
    } else {
      assert q == [root];
    }
  }

  lemma WalkResolves(g: Graph, root: NodeId, found: map<NodeId, Path>)
    requires Visits(g, root, found) && forall u :: u in found ==> Settled(g, found, u)
    ensures Resolves(g, root, found - {root})
  {
    var paths := found - {root};
    forall t | t in paths ensures Reachable(g, root, t) && Least(g, root, paths[t]) && End(paths[t]) == t {
      forall q | IsPath(g, root, q) && End(q) == t ensures paths[t] == q || Before(paths[t], q) {
        SettledLeast(g, root, found, q);
      }
    }
    forall t | t != root && Reachable(g, root, t) ensures t in paths {
      var p :| IsPath(g, root, p) && End(p) == t;
      SettledLeast(g, root, found, p);
    }
  }

  // --- the invariant of the walk ---

  /** Between two nodes: everything processed is settled, everything queued extends it. */
  ghost predicate Walking(g: Graph, root: NodeId, found: map<NodeId, Path>, done: set<NodeId>, queue: seq<Entry>) {
    && Visits(g, root, found)
    && Queued(found, done, queue)
    && (forall u :: u in done ==> Settled(g, found, u))
    && ((done == {} && queue == [Entry(root, [root])])
        || forall i :: 0 <= i < |queue| ==> Extends(found, done, queue[i].path))
  }

  /** While the links of `u` are followed, with the targets `rest` still to look at: what is queued
      comes before what those targets would add. */
  ghost predicate Expanding(g: Graph, root: NodeId, found: map<NodeId, Path>, done: set<NodeId>,
                            u: NodeId, queue: seq<Entry>, rest: seq<NodeId>)
  {
    && Visits(g, root, found)
    && u in found && u !in done
    && Queued(found, done + {u}, queue)
    && (forall w :: w in done ==> Settled(g, found, w) && Before(found[w], found[u]))
    && (forall i :: 0 <= i < |queue| ==> Extends(found, done + {u}, queue[i].path))
    && Following(g, found, u, queue, rest)
  }

  ghost predicate Following(g: Graph, found: map<NodeId, Path>, u: NodeId, queue: seq<Entry>, rest: seq<NodeId>)
    requires u in found
  {
    && (forall v :: Linked(g, u, v) ==> v in rest || SettledBy(found, found[u], v))
    && (forall v :: v in rest ==> Linked(g, u, v))
    && Sorted(StringLeq, rest)
    && (forall i, v :: 0 <= i < |queue| && v in rest && v !in found ==> Before(queue[i].path, found[u] + [v]))
  }

  lemma StartExpanding(g: Graph, root: NodeId, found: map<NodeId, Path>, done: set<NodeId>,
                       queue: seq<Entry>, targets: seq<NodeId>)
    requires Walking(g, root, found, done, queue) && queue != []
    requires Sorted(StringLeq, targets) && forall v :: v in targets <==> Linked(g, queue[0].node, v)
    ensures Expanding(g, root, found, done, queue[0].node, queue[1..], targets)
    ensures queue[0].node in found && found[queue[0].node] == queue[0].path
  {
    StringOrder();
    var u, rest := queue[0].node, queue[1..];
    forall i | 0 <= i < |rest|
      ensures Extends(found, done + {u}, rest[i].path)
      ensures forall v :: v in targets && v !in found ==> Before(rest[i].path, found[u] + [v])
    {
      assert rest[i] == queue[i + 1];
      assert Extends(found, done, queue[i + 1].path);
      var w :| w in done && w in found && queue[i + 1].path == found[w] + [End(queue[i + 1].path)];
      assert w in done + {u};
      assert Before(found[w], queue[0].path);
      forall v | v in targets && v !in found ensures Before(rest[i].path, found[u] + [v]) {
        ShortExtend(StringLess, found[w], found[u], End(queue[i + 1].path), v);
      }
    }
    StartQueued(found, done, queue);
  }

  lemma StartQueued(found: map<NodeId, Path>, done: set<NodeId>, queue: seq<Entry>)
    requires Queued(found, done, queue) && queue != []
    ensures Queued(found, done + {queue[0].node}, queue[1..])
    ensures forall w :: w in done ==> Before(found[w], found[queue[0].node])
  {
    StringOrder();
    var u, rest := queue[0].node, queue[1..];
    assert forall i :: 0 <= i < |rest| ==> rest[i] == queue[i + 1];
    forall i | 0 <= i < |rest| ensures rest[i].node !in done + {u} {
      assert Before(queue[0].path, queue[i + 1].path);
      ShortAntisymmetric(StringLess, queue[0].path, queue[i + 1].path);
    }
    forall t | t in found && t !in done + {u} ensures exists i :: 0 <= i < |rest| && rest[i].node == t {
      var i :| 0 <= i < |queue| && queue[i].node == t;
      assert rest[i - 1].node == t;
    }
  }

  /** A target seen before was reached by a path no later than the one through `u`. */
  lemma SeenSettled(found: map<NodeId, Path>, done: set<NodeId>, u: NodeId, queue: seq<Entry>, v: NodeId)
    requires u in found && u !in done && v in found
    requires Queued(found, done + {u}, queue) && forall w :: w in done ==> Before(found[w], found[u])
    requires forall i :: 0 <= i < |queue| ==> Extends(found, done + {u}, queue[i].path)
    requires forall t :: t in found ==> found[t] != [] && End(found[t]) == t
    ensures SettledBy(found, found[u], v)
  {
    if v !in done && v != u {
      var i :| 0 <= i < |queue| && queue[i].node == v;
      assert Extends(found, done + {u}, queue[i].path);
      var w :| w in done + {u} && w in found && queue[i].path == found[w] + [End(queue[i].path)];
      assert found[v] == found[w] + [v];
      hide Queued, Extends, Before;
      if w != u {
        BeforeExtend(found[w], found[u], v);
      }
    } else if v in done {
      assert Before(found[v], found[u]);
    }
  }

  lemma BeforeExtend(p: Path, q: Path, v: NodeId)
    requires Before(p, q)
    ensures Before(p + [v], q + [v])
  {
    StringOrder();
    hide StringLess;
    ShortExtend(StringLess, p, q, v, v);
  }

  lemma SkipSeen(g: Graph, root: NodeId, found: map<NodeId, Path>, done: set<NodeId>,
                 u: NodeId, queue: seq<Entry>, rest: seq<NodeId>)
    requires Expanding(g, root, found, done, u, queue, rest) && rest != [] && rest[0] in found
    ensures Expanding(g, root, found, done, u, queue, rest[1..])
  {
    SeenSettled(found, done, u, queue, rest[0]);
    assert rest == [rest[0]] + rest[1..];
  }

  lemma VisitNew(g: Graph, root: NodeId, found: map<NodeId, Path>, done: set<NodeId>,
                 u: NodeId, queue: seq<Entry>, rest: seq<NodeId>)
    requires Expanding(g, root, found, done, u, queue, rest) && rest != [] && rest[0] !in found
    ensures var v, p := rest[0], found[u] + [rest[0]];
            Expanding(g, root, found[v := p], done, u, queue + [Entry(v, p)], rest[1..])
    ensures rest[0] in Table(g.nodes)
  {
    assert forall w :: w in done ==> w in found;
    hide Settled, Queued, Extends, IsPath, Before, Table, Following;
    var v, p := rest[0], found[u] + [rest[0]];
    VisitFollowing(g, found, u, queue, rest);
    VisitPath(g, root, found[u], v);
    VisitSettled(g, found, done, v, p);
    VisitExtends(found, done, u, queue, v);
    VisitQueued(found, done, u, queue, v);
  }

  lemma VisitFollowing(g: Graph, found: map<NodeId, Path>, u: NodeId, queue: seq<Entry>, rest: seq<NodeId>)
    requires u in found && Following(g, found, u, queue, rest) && rest != [] && rest[0] !in found
    ensures var v, p := rest[0], found[u] + [rest[0]];
            Following(g, found[v := p], u, queue + [Entry(v, p)], rest[1..])
    ensures Linked(g, u, rest[0])
    ensures forall i :: 0 <= i < |queue| ==> Before(queue[i].path, found[u] + [rest[0]])
  {
    assert rest == [rest[0]] + rest[1..];
    VisitRest(found[u], rest);
    hide Before, Linked;
  }

  lemma VisitSettled(g: Graph, found: map<NodeId, Path>, done: set<NodeId>, v: NodeId, p: Path)
    requires v !in found && forall w :: w in done ==> w in found && Settled(g, found, w)
    ensures forall w :: w in done ==> Settled(g, found[v := p], w)
  {
    forall w, x | w in done && Linked(g, w, x) ensures SettledBy(found[v := p], found[w], x) {
      assert Settled(g, found, w);
      assert SettledBy(found, found[w], x);
    }
  }

  lemma VisitExtends(found: map<NodeId, Path>, done: set<NodeId>, u: NodeId, queue: seq<Entry>, v: NodeId)
    requires u in found && v !in found
    requires forall i :: 0 <= i < |queue| ==> Extends(found, done + {u}, queue[i].path)
    ensures var p := found[u] + [v];
            forall i :: 0 <= i < |queue| + 1 ==>
              Extends(found[v := p], done + {u}, (queue + [Entry(v, p)])[i].path)
  {
    var p := found[u] + [v];
    forall i | 0 <= i < |queue| ensures Extends(found[v := p], done + {u}, queue[i].path) {
      assert Extends(found, done + {u}, queue[i].path);
      var w :| w in done + {u} && w in found && queue[i].path == found[w] + [End(queue[i].path)];
      assert found[v := p][w] == found[w];
    }
    assert p == found[v := p][u] + [End(p)];
  }

  lemma VisitRest(p: Path, rest: seq<NodeId>)
    requires Sorted(StringLeq, rest) && rest != []
    ensures Sorted(StringLeq, rest[1..])
    ensures forall x :: x in rest[1..] && x != rest[0] ==> Before(p + [rest[0]], p + [x])
  {
    StringOrder();
    forall x | x in rest[1..] && x != rest[0] ensures Before(p + [rest[0]], p + [x]) {
      var k :| 0 <= k < |rest| - 1 && rest[1..][k] == x;
      assert StringLeq(rest[0], rest[k + 1]);
      ShortExtend(StringLess, p, p, rest[0], x);
    }
  }

  lemma VisitPath(g: Graph, root: NodeId, p: Path, v: NodeId)
    requires IsPath(g, root, p) && Linked(g, End(p), v)
    ensures IsPath(g, root, p + [v]) && v in Table(g.nodes)
  {
  }

  lemma VisitQueued(found: map<NodeId, Path>, done: set<NodeId>, u: NodeId, queue: seq<Entry>, v: NodeId)
    requires u in found && v !in found && Queued(found, done + {u}, queue)
    requires forall w :: w in done ==> Before(found[w], found[u])
    requires forall i :: 0 <= i < |queue| ==> Before(queue[i].path, found[u] + [v])
    ensures var p := found[u] + [v]; Queued(found[v := p], done + {u}, queue + [Entry(v, p)])
  {
    StringOrder();
    var p := found[u] + [v];
    var found', queue' := found[v := p], queue + [Entry(v, p)];
    forall w | w in done + {u} ensures Before(found'[w], p) {
      if w != u { ShortTransitive(StringLess, found[w], found[u], p); }
    }
    hide Before, StringLess;
    forall t | t in found' && t !in done + {u} ensures exists i :: 0 <= i < |queue'| && queue'[i].node == t {
      if t == v {
        assert queue'[|queue|].node == v;
      } else {
        var i :| 0 <= i < |queue| && queue[i].node == t;
        assert queue'[i].node == t;
      }
    }
  }

  lemma FinishExpanding(g: Graph, root: NodeId, found: map<NodeId, Path>, done: set<NodeId>,
                        u: NodeId, queue: seq<Entry>)
    requires Expanding(g, root, found, done, u, queue, [])
    ensures Walking(g, root, found, done + {u}, queue)
  {
  }

  lemma StartWalking(g: Graph, root: NodeId)
    requires root in Table(g.nodes)
    ensures Walking(g, root, map[root := [root]], {}, [Entry(root, [root])])
  {
    var queue := [Entry(root, [root])];
    assert queue[0].node == root;
  }

  lemma FinishWalking(g: Graph, root: NodeId, found: map<NodeId, Path>, done: set<NodeId>)
    requires Walking(g, root, found, done, [])
    ensures Resolves(g, root, found - {root})
  {
    assert forall u :: u in found ==> u in done;
    WalkResolves(g, root, found);
  }

  /** The breadth-first walk; `order` lists the recorded nodes as they were reached. */
  method Walk(g: Graph, root: NodeId) returns (paths: map<NodeId, Path>, order: seq<NodeId>)
    requires root in Table(g.nodes)
    ensures Resolves(g, root, paths)
    ensures Distinct(order) && forall t :: t in order <==> t in paths
  {
    hide Walking, Expanding, IsAdjacency, Resolves, Table;
    var adjacency := BuildAdjacency(g);
    var queue := [Entry(root, [root])];
    var visited := {root};
    paths, order := map[], [];
    ghost var done: set<NodeId> := {};
    ghost var found: map<NodeId, Path> := map[root := [root]];
    ghost var nodes := Table(g.nodes).Keys;
    StartWalking(g, root);
    while queue != []
      invariant root !in paths && found == paths[root := [root]] && visited == found.Keys <= nodes
      invariant Walking(g, root, found, done, queue)
      invariant Distinct(order) && forall t :: t in order <==> t in paths
      decreases nodes - visited, |queue|
    {
      var current, path := queue[0].node, queue[0].path;
      var targets := Neighbours(adjacency, current);
      NeighboursLinked(g, adjacency, current);
      StartExpanding(g, root, found, done, queue, targets);
      ghost var before, length := visited, |queue|;
      queue := queue[1..];
      for k := 0 to |targets|
        invariant root !in paths && found == paths[root := [root]] && before <= visited == found.Keys <= nodes
        invariant current in found && found[current] == path
        invariant Expanding(g, root, found, done, current, queue, targets[k..])
        invariant Distinct(order) && forall t :: t in order <==> t in paths
        invariant visited == before ==> |queue| < length
      {
        var target := targets[k];
        assert targets[k..][1..] == targets[k + 1..];
        if target in visited {
          SkipSeen(g, root, found, done, current, queue, targets[k..]);
          continue;
        }
        VisitNew(g, root, found, done, current, queue, targets[k..]);
        visited := visited + {target};
        paths := paths[target := path + [target]];
        found := found[target := path + [target]];
        order := order + [target];
        queue := queue + [Entry(target, path + [target])];
      }
      assert targets[|targets|..] == [];
      FinishExpanding(g, root, found, done, current, queue);
      done := done + {current};
    }
    FinishWalking(g, root, found, done);
    assert found - {root} == paths;
  }

  // --- what the recorded paths are ---

  /** Cutting out a round trip leaves a shorter path to the same end. */
  lemma Shortcut(g: Graph, root: NodeId, p: Path, i: nat, j: nat)
    requires IsPath(g, root, p) && i < j < |p| && p[i] == p[j]
    ensures var q := p[..i + 1] + p[j + 1..]; IsPath(g, root, q) && End(q) == End(p) && |q| < |p|
  {
    var q := p[..i + 1] + p[j + 1..];
    forall k | 0 <= k < |q| - 1 ensures Linked(g, q[k], q[k + 1]) {
      if k <= i {
        assert q[k] == p[k];
      }
    }
  }

  /** A least path visits no node twice and takes no more hops than any other path to its end. */
  lemma LeastSimple(g: Graph, root: NodeId, p: Path)
    requires Least(g, root, p)
    ensures Distinct(p)
    ensures forall q :: IsPath(g, root, q) && End(q) == End(p) ==> |p| <= |q|
  {
    forall i, j | 0 <= i < j < |p| ensures p[i] != p[j] {
      if p[i] == p[j] {
        Shortcut(g, root, p, i, j);
      }
    }
  }

  ghost predicate SameLinks(g: Graph, g': Graph) {
    forall u, v :: Linked(g, u, v) <==> Linked(g', u, v)
  }

  lemma PathSame(g: Graph, g': Graph, root: NodeId, p: Path)
    requires SameLinks(g, g')
    ensures IsPath(g, root, p) <==> IsPath(g', root, p)
  {
  }

  lemma LeastUnique(g: Graph, g': Graph, root: NodeId, p: Path, q: Path)
    requires SameLinks(g, g') && Least(g, root, p) && Least(g', root, q) && End(p) == End(q)
    ensures p == q
  {
    StringOrder();
    PathSame(g, g', root, p);
    PathSame(g, g', root, q);
    ShortAntisymmetric(StringLess, p, q);
  }

  lemma ReachableSame(g: Graph, g': Graph, root: NodeId, t: NodeId)
    requires SameLinks(g, g')
    ensures Reachable(g, root, t) ==> Reachable(g', root, t)
  {
    if Reachable(g, root, t) {
      var p :| IsPath(g, root, p) && End(p) == t;
      PathSame(g, g', root, p);
    }
  }

  /** The recorded paths depend only on which links there are: not on the order or repetition of
      edges, nor on the order of nodes. */
  lemma ResolvesUnique(g: Graph, g': Graph, root: NodeId, a: map<NodeId, Path>, b: map<NodeId, Path>)
    requires SameLinks(g, g') && Resolves(g, root, a) && Resolves(g', root, b)
    ensures a == b
  {
    hide Least, Reachable;
    forall t ensures t in a <==> t in b {
      ReachableSame(g, g', root, t);
      ReachableSame(g', g, root, t);
    }
    forall t | t in a ensures a[t] == b[t] {
      LeastUnique(g, g', root, a[t], b[t]);
    }
  }

  // --- the impact set ---

  predicate IsRoot(g: Graph, id: NodeId) {
    id in Table(g.nodes) && (Table(g.nodes)[id].kind == Change || Table(g.nodes)[id].kind == Obligation)
  }

  /** The ids of one kind among `order`, kept in that order. */
  function OfKind(g: Graph, order: seq<NodeId>, kind: Kind): (r: seq<NodeId>)
    ensures forall t :: t in r <==> t in order && t in Table(g.nodes) && Table(g.nodes)[t].kind == kind
    ensures Distinct(order) ==> Distinct(r)
  {
    if order == [] then []
    else
      var rest, t := OfKind(g, order[..|order| - 1], kind), order[|order| - 1];
      assert order == order[..|order| - 1] + [t];
      if t in Table(g.nodes) && Table(g.nodes)[t].kind == kind then rest + [t] else rest
  }

  ghost predicate Ascending(ids: seq<NodeId>) {
    forall i, j :: 0 <= i < j < |ids| ==> StringLess(ids[i], ids[j])
  }

  /** `ids` lists, in increasing order, exactly the reachable nodes of one kind, the root aside. */
  ghost predicate Lists(g: Graph, root: NodeId, kind: Kind, ids: seq<NodeId>) {
    && Ascending(ids)
    && forall t :: t in ids <==>
         t != root && Reachable(g, root, t) && t in Table(g.nodes) && Table(g.nodes)[t].kind == kind
  }

  /** `named` holds the least path to every reachable node but the root, by increasing end. */
  ghost predicate Names(g: Graph, root: NodeId, named: seq<Path>) {
    && (forall k :: 0 <= k < |named| ==> named[k] != [] && Least(g, root, named[k]) && End(named[k]) != root)
    && (forall i, j :: 0 <= i < j < |named| ==> StringLess(End(named[i]), End(named[j])))
    && (forall t :: t != root && Reachable(g, root, t) ==> NamedIn(named, t))
  }

  ghost predicate NamedIn(named: seq<Path>, t: NodeId) {
    exists k :: 0 <= k < |named| && named[k] != [] && End(named[k]) == t
  }

  lemma SortedStrictly(order: seq<NodeId>)
    requires Distinct(order)
    ensures Ascending(SortBy(StringLeq, order))
  {
    StringOrder();
    SortBySorted(StringLeq, order);
    SortByDistinct(StringLeq, order);
    var r := SortBy(StringLeq, order);
    forall i, j | 0 <= i < j < |r| ensures StringLess(r[i], r[j]) {
      assert StringLeq(r[i], r[j]) && r[i] != r[j];
    }
  }

  /** The impact set of a change: nothing unless it starts at a change or an obligation of the graph. */
  ghost predicate Affects(change: ImpactChange, g: Graph, r: ImpactSet) {
    var root := change.obligationId;
    && r.severity == change.severity
    && if !IsRoot(g, root) then r.controls == r.processes == r.evidence == r.calendar == [] && r.named == []
       else && Lists(g, root, Control, r.controls) && Lists(g, root, Process, r.processes)
            && Lists(g, root, Evidence, r.evidence) && Lists(g, root, Calendar, r.calendar)
            && Names(g, root, r.named)
  }

  method ResolveBlastRadius(change: ImpactChange, g: Graph) returns (r: ImpactSet)
    ensures Affects(change, g, r)
  {
    var root := change.obligationId;
    if !IsRoot(g, root) {
      return ImpactSet([], [], [], [], change.severity, []);
    }
    var paths, order := Walk(g, root);
    var controls := SortedOfKind(g, root, paths, order, Control);
    var processes := SortedOfKind(g, root, paths, order, Process);
    var evidence := SortedOfKind(g, root, paths, order, Evidence);
    var calendar := SortedOfKind(g, root, paths, order, Calendar);
    var named := NamePaths(g, root, paths, order);
    r := ImpactSet(controls, processes, evidence, calendar, change.severity, named);
  }

  method SortedOfKind(g: Graph, root: NodeId, paths: map<NodeId, Path>, order: seq<NodeId>, kind: Kind)
    returns (ids: seq<NodeId>)
    requires Resolves(g, root, paths) && Distinct(order) && forall t :: t in order <==> t in paths
    ensures Lists(g, root, kind, ids)
  {
    hide Ascending, Reachable;
    ids := SortBy(StringLeq, OfKind(g, order, kind));
    SortedStrictly(OfKind(g, order, kind));
  }

  method NamePaths(g: Graph, root: NodeId, paths: map<NodeId, Path>, order: seq<NodeId>)
    returns (named: seq<Path>)
    requires Resolves(g, root, paths) && Distinct(order) && forall t :: t in order <==> t in paths
    ensures Names(g, root, named)
  {
    hide Least, Reachable, StringLess, SortBy;
    var ids := SortBy(StringLeq, order);
    SortedStrictly(order);
    assert forall k :: 0 <= k < |ids| ==> ids[k] in ids && ids[k] in paths;
    named := seq(|ids|, k requires 0 <= k < |ids| => paths[ids[k]]);
    forall t | t != root && Reachable(g, root, t) ensures NamedIn(named, t) {
      assert t in ids;
      var k :| 0 <= k < |ids| && ids[k] == t;
      assert named[k] == paths[t] && End(named[k]) == t;
    }
  }

  // --- the impact set is determined by the graph's content ---

  lemma {:induction false} AscendingUnique(a: seq<NodeId>, b: seq<NodeId>)
    requires Ascending(a) && Ascending(b) && forall x :: x in a <==> x in b
    ensures a == b
  {
    if b != [] {
      assert b[0] in a;
    }
    if a == [] {
    } else {
      assert a[0] in b;
      AscendingFirst(a, b[0]);
      AscendingFirst(b, a[0]);
      forall x ensures x in a[1..] <==> x in b[1..] {
        AscendingTail(a, x);
        AscendingTail(b, x);
      }
      AscendingUnique(a[1..], b[1..]);
      assert a == [a[0]] + a[1..] && b == [b[0]] + b[1..];
    }
  }

  lemma AscendingFirst(a: seq<NodeId>, x: NodeId)
    requires Ascending(a) && x in a
    ensures StringLeq(a[0], x) && (StringLeq(x, a[0]) ==> x == a[0])
  {
    StringOrder();
  }

  lemma AscendingTail(a: seq<NodeId>, x: NodeId)
    requires Ascending(a) && a != []
    ensures x in a[1..] <==> x in a && x != a[0]
  {
    StringOrder();
    assert a == [a[0]] + a[1..];
    if x in a[1..] {
      var k :| 0 <= k < |a[1..]| && a[1..][k] == x;
      assert StringLess(a[0], a[k + 1]);
    }
  }

  function Ends(named: seq<Path>): (r: seq<NodeId>)
    requires forall k :: 0 <= k < |named| ==> named[k] != []
    ensures |r| == |named|
  {
    seq(|named|, k requires 0 <= k < |named| => End(named[k]))
  }

  lemma NamesEnds(g: Graph, root: NodeId, named: seq<Path>)
    requires Names(g, root, named)
    ensures Ascending(Ends(named)) && forall t :: t in Ends(named) <==> t != root && Reachable(g, root, t)
  {
    hide StringLess, IsPath;
    var ends := Ends(named);
    forall t ensures t in ends <==> t != root && Reachable(g, root, t) {
      if t != root && Reachable(g, root, t) {
        assert NamedIn(named, t);
        var k :| 0 <= k < |named| && named[k] != [] && End(named[k]) == t;
        assert ends[k] == t;
      }
    }
  }

  lemma NamesUnique(g: Graph, g': Graph, root: NodeId, a: seq<Path>, b: seq<Path>)
    requires SameLinks(g, g') && Names(g, root, a) && Names(g', root, b)
    ensures a == b
  {
    NamesEnds(g, root, a);
    NamesEnds(g', root, b);
    forall t ensures t in Ends(a) <==> t in Ends(b) {
      ReachableSame(g, g', root, t);
      ReachableSame(g', g, root, t);
    }
    AscendingUnique(Ends(a), Ends(b));
    forall k | 0 <= k < |a| ensures a[k] == b[k] {
      assert Ends(a)[k] == Ends(b)[k];
      LeastUnique(g, g', root, a[k], b[k]);
    }
  }

  lemma ListsUnique(g: Graph, g': Graph, root: NodeId, kind: Kind, a: seq<NodeId>, b: seq<NodeId>)
    requires SameLinks(g, g') && Table(g.nodes) == Table(g'.nodes)
    requires Lists(g, root, kind, a) && Lists(g', root, kind, b)
    ensures a == b
  {
    forall t ensures t in a <==> t in b {
      ReachableSame(g, g', root, t);
      ReachableSame(g', g, root, t);
    }
    AscendingUnique(a, b);
  }

  /** The whole impact set depends only on the node table and on which links there are: not on the order
      or repetition of edges, nor on the order of nodes. */
  lemma ImpactUnique(change: ImpactChange, g: Graph, g': Graph, a: ImpactSet, b: ImpactSet)
    requires SameLinks(g, g') && Table(g.nodes) == Table(g'.nodes)
    requires Affects(change, g, a) && Affects(change, g', b)
    ensures a == b
  {
    hide SameLinks, Lists, Names;
    var root := change.obligationId;
    if IsRoot(g, root) {
      ListsUnique(g, g', root, Control, a.controls, b.controls);
      ListsUnique(g, g', root, Process, a.processes, b.processes);
      ListsUnique(g, g', root, Evidence, a.evidence, b.evidence);
      ListsUnique(g, g', root, Calendar, a.calendar, b.calendar);
      NamesUnique(g, g', root, a.named, b.named);
    }
  }

  // --- the impact set, read off the lists of nodes and edges ---

  /** `n` is the last node of the list with its id. */
  ghost predicate LastNode(nodes: seq<Node>, n: Node) {
    exists k :: 0 <= k < |nodes| && LastAt(nodes, n, k)
  }

  ghost predicate LastAt(nodes: seq<Node>, n: Node, k: nat)
    requires k < |nodes|
  {
    nodes[k] == n && forall j :: k < j < |nodes| ==> nodes[j].id != n.id
  }

  predicate Named(nodes: seq<Node>, id: NodeId) {
    exists k :: 0 <= k < |nodes| && nodes[k].id == id
  }

  /** The table knows exactly the ids of the list, each with its last node. */
  lemma {:induction false} TableExactly(nodes: seq<Node>, id: NodeId)
    ensures id in Table(nodes) <==> Named(nodes, id)
    ensures id in Table(nodes) ==> Table(nodes)[id].id == id
    ensures forall n: Node :: n.id == id ==> (LastNode(nodes, n) <==> id in Table(nodes) && Table(nodes)[id] == n)
  {
    if nodes != [] {
      var t, last := nodes[..|nodes| - 1], nodes[|nodes| - 1];
      TableExactly(t, id);
      if last.id == id {
        assert LastAt(nodes, last, |nodes| - 1);
        forall n: Node | n.id == id && LastNode(nodes, n) ensures n == last {
          var k :| 0 <= k < |nodes| && LastAt(nodes, n, k);
        }
      } else {
        assert Named(nodes, id) <==> Named(t, id) by { NamedFront(nodes, id); }
        forall n: Node | n.id == id ensures LastNode(nodes, n) <==> LastNode(t, n) {
          LastFront(nodes, n);
        }
      }
    }
  }

  lemma NamedFront(nodes: seq<Node>, id: NodeId)
    requires nodes != [] && nodes[|nodes| - 1].id != id
    ensures Named(nodes, id) <==> Named(nodes[..|nodes| - 1], id)
  {
    var t := nodes[..|nodes| - 1];
    if k :| 0 <= k < |nodes| && nodes[k].id == id {
      assert t[k].id == id;
    }
    if k :| 0 <= k < |t| && t[k].id == id {
      assert nodes[k].id == id;
    }
  }

  lemma LastFront(nodes: seq<Node>, n: Node)
    requires nodes != [] && nodes[|nodes| - 1].id != n.id
    ensures LastNode(nodes, n) <==> LastNode(nodes[..|nodes| - 1], n)
  {
    var t := nodes[..|nodes| - 1];
    if k :| 0 <= k < |nodes| && LastAt(nodes, n, k) {
      assert LastAt(t, n, k);
    }
    if k :| 0 <= k < |t| && LastAt(t, n, k) {
      assert LastAt(nodes, n, k);
    }
  }

  /** A chain of edges of the graph between ids of its nodes. */
  ghost predicate Chain(g: Graph, root: NodeId, t: NodeId, p: Path) {
    && p != [] && p[0] == root && p[|p| - 1] == t
    && forall i :: 0 <= i < |p| - 1 ==> Hop(g, p[i], p[i + 1])
  }

  predicate Hop(g: Graph, u: NodeId, v: NodeId) {
    (u, v) in g.edges && Named(g.nodes, u) && Named(g.nodes, v)
  }

  lemma ChainIsPath(g: Graph, root: NodeId, t: NodeId, p: Path)
    ensures Chain(g, root, t, p) <==> IsPath(g, root, p) && End(p) == t
  {
    hide Table, Named;
    forall u, v ensures Hop(g, u, v) <==> Linked(g, u, v) {
      TableExactly(g.nodes, u);
      TableExactly(g.nodes, v);
    }
  }

  /** A change or an obligation of the graph has this id. */
  ghost predicate Starts(g: Graph, id: NodeId) {
    LastNode(g.nodes, Node(id, Change)) || LastNode(g.nodes, Node(id, Obligation))
  }

  /** The node `t` of a kind that a chain of edges leads to from the root. */
  ghost predicate Hit(g: Graph, root: NodeId, kind: Kind, t: NodeId) {
    Starts(g, root) && t != root && LastNode(g.nodes, Node(t, kind)) && exists p :: Chain(g, root, t, p)
  }

  lemma StartsIsRoot(g: Graph, id: NodeId)
    ensures Starts(g, id) <==> IsRoot(g, id)
  {
    TableExactly(g.nodes, id);
    hide Table, LastNode, Named;
    assert id in Table(g.nodes) ==> Table(g.nodes)[id] == Node(id, Table(g.nodes)[id].kind);
  }

  lemma ListsHits(g: Graph, root: NodeId, kind: Kind, ids: seq<NodeId>)
    requires Starts(g, root) && Lists(g, root, kind, ids)
    ensures Ascending(ids) && forall t :: t in ids <==> Hit(g, root, kind, t)
  {
    hide Ascending, Table, Starts, LastNode, Named, Chain, IsPath;
    forall t ensures t in ids <==> Hit(g, root, kind, t) {
      TableExactly(g.nodes, t);
      assert t in Table(g.nodes) ==> (Table(g.nodes)[t].kind == kind <==> Table(g.nodes)[t] == Node(t, kind));
      ReachesByChain(g, root, t);
    }
  }

  lemma ReachesByChain(g: Graph, root: NodeId, t: NodeId)
    ensures Reachable(g, root, t) <==> exists p :: Chain(g, root, t, p)
  {
    if p :| IsPath(g, root, p) && End(p) == t {
      ChainIsPath(g, root, t, p);
    }
    if p :| Chain(g, root, t, p) {
      ChainIsPath(g, root, t, p);
    }
  }

  /** What the impact set of a change says of the lists of nodes and edges: under each kind, in name order, the
      ids whose last node has that kind and to which a chain of edges leads from the change; and for every id
      that such a chain reaches a shortest chain, of shortest ones the first by name. */
  lemma BlastRadius(change: ImpactChange, g: Graph, r: ImpactSet)
    requires Affects(change, g, r)
    ensures var root := change.obligationId;
            && (forall t :: t in r.controls <==> Hit(g, root, Control, t))
            && (forall t :: t in r.processes <==> Hit(g, root, Process, t))
            && (forall t :: t in r.evidence <==> Hit(g, root, Evidence, t))
            && (forall t :: t in r.calendar <==> Hit(g, root, Calendar, t))
            && Ascending(r.controls) && Ascending(r.processes) && Ascending(r.evidence) && Ascending(r.calendar)
    ensures !Starts(g, change.obligationId) ==> r.named == []
    ensures Starts(g, change.obligationId) ==> ShortestNamed(g, change.obligationId, r.named)
  {
    var root := change.obligationId;
    StartsIsRoot(g, root);
    hide Starts, Lists, Names, Hit, ShortestNamed, IsRoot;
    if IsRoot(g, root) {
      ListsHits(g, root, Control, r.controls);
      ListsHits(g, root, Process, r.processes);
      ListsHits(g, root, Evidence, r.evidence);
      ListsHits(g, root, Calendar, r.calendar);
      NamesShortest(g, root, r.named);
    } else {
      NoHits(g, root);
    }
  }

  lemma NoHits(g: Graph, root: NodeId)
    requires !Starts(g, root)
    ensures Ascending([]) && forall kind, t :: !Hit(g, root, kind, t)
  {
  }

  /** A chain that no other chain to the same end undercuts: none is shorter, and none as long comes first where
      they first differ. */
  ghost predicate ShortestChain(g: Graph, root: NodeId, p: Path) {
    && p != [] && Chain(g, root, p[|p| - 1], p)
    && forall q :: Chain(g, root, p[|p| - 1], q) && q != p ==>
         |p| < |q| || (|p| == |q| && exists k: nat :: FirstAt(StringLess, p, q, k))
  }

  ghost predicate ShortestNamed(g: Graph, root: NodeId, named: seq<Path>) {
    && (forall k :: 0 <= k < |named| ==> ShortestChain(g, root, named[k]) && End(named[k]) != root)
    && (forall i, j :: 0 <= i < j < |named| ==> StringLess(End(named[i]), End(named[j])))
    && (forall t, p :: t != root && Chain(g, root, t, p) ==> NamedIn(named, t))
  }

  lemma LeastShortest(g: Graph, root: NodeId, p: Path)
    requires p != [] && Least(g, root, p)
    ensures ShortestChain(g, root, p)
  {
    hide Chain, IsPath, StringLess, FirstAt, LexLess;
    var t := End(p);
    ChainIsPath(g, root, t, p);
    StringOrder();
    forall q | Chain(g, root, t, q) && q != p
      ensures |p| < |q| || (|p| == |q| && exists k: nat :: FirstAt(StringLess, p, q, k))
    {
      ChainIsPath(g, root, t, q);
      assert Before(p, q);
      LexExactly(StringLess, p, q);
    }
  }

  lemma NamesShortest(g: Graph, root: NodeId, named: seq<Path>)
    requires Names(g, root, named)
    ensures ShortestNamed(g, root, named)
  {
    hide Least, ShortestChain, Chain, StringLess, IsPath, NamedIn;
    forall k | 0 <= k < |named| ensures ShortestChain(g, root, named[k]) {
      LeastShortest(g, root, named[k]);
    }
    forall t, p | t != root && Chain(g, root, t, p) ensures NamedIn(named, t) {
      ReachesByChain(g, root, t);
    }
  }
}
