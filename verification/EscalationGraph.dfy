/** The load-time test that procedures do not escalate into each other in a circle. */
module EscalationGraph {
  import opened Wrappers

  datatype Transition = Transition(source: string, target: string, action: Option<string>, onTimeout: Option<string>)

  datatype Procedure = Procedure(
    name: string,
    initialState: string,
    states: seq<string>,
    terminalStates: seq<string>,
    transitions: seq<Transition>,
    onTimeoutEscalate: map<string, string>)

  datatype EscalationError =
    | UndeclaredTarget(procedure: string, target: string)
    | EscalationCycle(procedure: string, reaches: string)

  type Graph = map<string, set<string>>

  /** Built as a hash map is collected: a repeated name keeps its last edges. */
  function GraphOf(procs: seq<Procedure>): Graph {
    if procs == [] then map[]
    else GraphOf(procs[..|procs| - 1])[procs[|procs| - 1].name := procs[|procs| - 1].onTimeoutEscalate.Values]
  }

  predicate Edge(g: Graph, a: string, b: string) {
    a in g && b in g[a]
  }

  predicate Declared(g: Graph) {
    forall a :: a in g ==> g[a] <= g.Keys
  }

  ghost predicate IsWalk(g: Graph, p: seq<string>) {
    p != [] && forall i :: 0 <= i < |p| - 1 ==> Edge(g, p[i], p[i + 1])
  }

  ghost predicate IsCycle(g: Graph, p: seq<string>) {
    IsWalk(g, p) && |p| >= 2 && p[0] == p[|p| - 1]
  }

  ghost predicate Cyclic(g: Graph) {
    exists p :: IsCycle(g, p)
  }

  // ------------------------------------------------------ the meaning of an order

  /** Every edge of a listed node leads to a node listed before it. */
  ghost predicate Topological(g: Graph, order: seq<string>) {
    forall i :: 0 <= i < |order| ==> order[i] in g && forall b :: b in g[order[i]] ==> b in order[..i]
  }

  lemma SuffixIsWalk(g: Graph, p: seq<string>, k: nat)
    requires IsWalk(g, p) && k < |p|
    ensures IsWalk(g, p[k..])
  {
    var rest := p[k..];
    forall j | 0 <= j < |rest| - 1
      ensures Edge(g, rest[j], rest[j + 1])
    {
      assert Edge(g, p[k + j], p[k + j + 1]);
    }
  }

  lemma {:induction false} WalkGoesDown(g: Graph, order: seq<string>, p: seq<string>, k: nat)
    requires Topological(g, order) && IsWalk(g, p) && |p| >= 2 && k <= |order| && p[0] in order[..k]
    ensures k > 0 && p[|p| - 1] in order[..k - 1]
    decreases |p|
  {
    var i :| 0 <= i < k && order[i] == p[0];
    assert Edge(g, p[0], p[1]);
    assert p[1] in order[..i];
    if |p| > 2 {
      var rest := p[1..];
      SuffixIsWalk(g, p, 1);
      WalkGoesDown(g, order, rest, i);
      assert order[..i - 1] <= order[..k - 1];
    } else {
      assert order[..i] <= order[..k - 1];
    }
  }

  lemma {:induction false} NoCycleBelow(g: Graph, order: seq<string>, p: seq<string>, k: nat)
    requires Topological(g, order) && IsCycle(g, p) && k <= |order| && p[0] in order[..k]
    ensures false
    decreases k
  {
    WalkGoesDown(g, order, p, k);
    NoCycleBelow(g, order, p, k - 1);
  }

  lemma OrderedIsAcyclic(g: Graph, order: seq<string>)
    requires Topological(g, order) && forall a :: a in g ==> a in order
    ensures !Cyclic(g)
  {
    if Cyclic(g) {
      var p :| IsCycle(g, p);
      assert Edge(g, p[0], p[1]);
      assert order[..|order|] == order;
      NoCycleBelow(g, order, p, |order|);
    }
  }

  /** An edge back to a node on the current path closes a cycle. */
  lemma BackEdge(g: Graph, path: seq<string>, next: string)
    requires IsWalk(g, path) && Edge(g, path[|path| - 1], next) && next in path
    ensures Cyclic(g)
    ensures exists p :: IsWalk(g, p) && p[0] == next && p[|p| - 1] == path[|path| - 1]
  {
    var i :| 0 <= i < |path| && path[i] == next;
    var p := path[i..];
    SuffixIsWalk(g, path, i);
    var around := p + [next];
    assert forall j :: 0 <= j < |around| - 1 ==> Edge(g, around[j], around[j + 1]);
    assert IsCycle(g, around);
  }

  // -------------------------------------------------------------- the search

  datatype Color = White | Gray | Black

  class EscalationSearch {
    const graph: Graph
    var color: map<string, Color>
    /** Nodes in the order they were finished. */
    ghost var finished: seq<string>

    constructor (graph: Graph)
      ensures this.graph == graph && Consistent([]) && Colored(White) == graph.Keys
    {
      this.graph := graph;
      color := map a | a in graph.Keys :: White;
      finished := [];
    }

    ghost function Colored(c: Color): set<string>
      reads this
    {
      set a | a in color && color[a] == c
    }

    /** Grey nodes are exactly the path being explored; black nodes are finished after all they lead to. */
    ghost predicate Consistent(path: seq<string>)
      reads this
    {
      && color.Keys == graph.Keys
      && (forall a :: a in Colored(Gray) <==> a in path)
      && (forall a :: a in Colored(Black) <==> a in finished)
      && Topological(graph, finished)
    }

    method Dfs(node: string, ghost path: seq<string>) returns (r: Result<(), EscalationError>)
      requires Declared(graph) && Consistent(path) && node in Colored(White) && IsWalk(graph, path + [node])
      modifies this`color, this`finished
      ensures r.Ok? ==>
        && Consistent(path) && node in Colored(Black)
        && Colored(White) <= old(Colored(White)) && old(Colored(Black)) <= Colored(Black)
      ensures r.Err? ==> Explains(graph, r.error)
      decreases Colored(White)
    {
      assert node !in path && node !in finished;
      color := color[node := Gray];
      ghost var here := path + [node];
      var todo := graph[node];
      while todo != {}
        invariant todo <= graph[node] && Consistent(here)
        invariant Colored(White) < old(Colored(White))
        invariant old(Colored(Black)) <= Colored(Black)
        invariant forall b :: b in graph[node] && b !in todo ==> b in Colored(Black)
        decreases todo
      {
        var next :| next in todo;
        todo := todo - {next};
        if color[next] == Gray {
          assert next in Colored(Gray);
          BackEdge(graph, here, next);
          return Err(EscalationCycle(node, next));
        } else if color[next] == White {
          ExtendWalk(graph, here, next);
          var sub := Dfs(next, here);
          if sub.Err? {
            return sub;
          }
        } else {
          assert next in Colored(Black);
        }
      }
      assert node in here;
      assert node in Colored(Gray);
      Finish(node, path);
      r := Ok(());
    }

    /** Paint a node black once all it leads to is black. */
    method Finish(node: string, ghost path: seq<string>)
      requires Consistent(path + [node]) && node !in path && node in graph
      requires forall b :: b in graph[node] ==> b in Colored(Black)
      modifies this`color, this`finished
      ensures Consistent(path) && node in Colored(Black)
      ensures Colored(White) == old(Colored(White)) && Colored(Black) == old(Colored(Black)) + {node}
    {
      assert node in path + [node];
      color := color[node := Black];
      assert Colored(White) == old(Colored(White));
      assert Colored(Black) == old(Colored(Black)) + {node};
      assert Colored(Gray) == old(Colored(Gray)) - {node};
      finished := finished + [node];
      assert forall b :: b in graph[node] ==> b in finished[..|finished| - 1];
      assert forall i :: 0 <= i < |finished| - 1 ==> finished[..i] == old(finished)[..i];
    }
  }

  lemma ExtendWalk(g: Graph, p: seq<string>, next: string)
    requires IsWalk(g, p) && Edge(g, p[|p| - 1], next)
    ensures IsWalk(g, p + [next])
  {
  }

  /** What an error claims is so. */
  ghost predicate Explains(g: Graph, e: EscalationError) {
    match e
    case UndeclaredTarget(a, b) => Edge(g, a, b) && b !in g
    case EscalationCycle(a, b) =>
      Edge(g, a, b) && Cyclic(g) && exists p :: IsWalk(g, p) && p[0] == b && p[|p| - 1] == a
  }

  /** Ok exactly when every target is declared and no procedure leads back to itself, in whatever order nodes and edges are taken. */
  method CheckGraph(g: Graph, names: seq<string>) returns (r: Result<(), EscalationError>)
    requires forall a :: a in names <==> a in g
    ensures r.Ok? <==> Declared(g) && !Cyclic(g)
    ensures r.Err? ==> Explains(g, r.error)
  {
    var froms := g.Keys;
    while froms != {}
      invariant froms <= g.Keys
      invariant forall a :: a in g && a !in froms ==> g[a] <= g.Keys
      decreases froms
    {
      var a :| a in froms;
      var edges := g[a];
      while edges != {}
        invariant edges <= g[a]
        invariant g[a] - edges <= g.Keys
        decreases edges
      {
        var b :| b in edges;
        if b !in names {
          assert Edge(g, a, b);
          return Err(UndeclaredTarget(a, b));
        }
        edges := edges - {b};
      }
      froms := froms - {a};
    }
    var search := new EscalationSearch(g);
    for i := 0 to |names|
      invariant search.graph == g && search.Consistent([])
      invariant forall j :: 0 <= j < i ==> names[j] in search.Colored(Black)
    {
      if search.color[names[i]] == White {
        assert IsWalk(g, [names[i]]);
        assert [] + [names[i]] == [names[i]];
        var sub := search.Dfs(names[i], []);
        if sub.Err? {
          return sub;
        }
      } else {
        assert names[i] !in search.Colored(Gray);
        assert names[i] in search.Colored(Black);
      }
    }
    OrderedIsAcyclic(g, search.finished);
    r := Ok(());
  }

  // --------------------------------------------------------- the configuration

  predicate UniqueProcedures(procs: seq<Procedure>) {
    forall i, j :: 0 <= i < j < |procs| ==> procs[i].name != procs[j].name
  }

  predicate Escalates(procs: seq<Procedure>, a: string, b: string) {
    exists i :: 0 <= i < |procs| && procs[i].name == a && b in procs[i].onTimeoutEscalate.Values
  }

  predicate IsName(procs: seq<Procedure>, a: string) {
    exists i :: 0 <= i < |procs| && procs[i].name == a
  }

  lemma {:induction false} GraphIsEscalation(procs: seq<Procedure>, a: string, b: string)
    requires UniqueProcedures(procs)
    ensures a in GraphOf(procs) <==> IsName(procs, a)
    ensures Edge(GraphOf(procs), a, b) <==> Escalates(procs, a, b)
  {
    if procs != [] {
      var init, last := procs[..|procs| - 1], procs[|procs| - 1];
      GraphIsEscalation(init, a, b);
      assert procs[|procs| - 1] == last && forall i :: 0 <= i < |init| ==> procs[i] == init[i];
      assert IsName(procs, a) <==> IsName(init, a) || last.name == a;
      assert Escalates(procs, a, b) <==> Escalates(init, a, b) || (last.name == a && b in last.onTimeoutEscalate.Values);
    }
  }

  ghost predicate EscalationPath(procs: seq<Procedure>, p: seq<string>) {
    p != [] && forall i :: 0 <= i < |p| - 1 ==> Escalates(procs, p[i], p[i + 1])
  }

  /** Some procedure escalates, in one step or more, into itself. */
  ghost predicate EscalatesInCircle(procs: seq<Procedure>) {
    exists p :: EscalationPath(procs, p) && |p| >= 2 && p[0] == p[|p| - 1]
  }

  ghost predicate TargetsDeclared(procs: seq<Procedure>) {
    forall a, b :: Escalates(procs, a, b) ==> IsName(procs, b)
  }

  lemma GraphMeaning(procs: seq<Procedure>)
    requires UniqueProcedures(procs)
    ensures Declared(GraphOf(procs)) <==> TargetsDeclared(procs)
    ensures Cyclic(GraphOf(procs)) <==> EscalatesInCircle(procs)
  {
    var g := GraphOf(procs);
    forall a, b
      ensures Edge(g, a, b) <==> Escalates(procs, a, b)
    {
      GraphIsEscalation(procs, a, b);
    }
    forall a
      ensures a in g <==> IsName(procs, a)
    {
      GraphIsEscalation(procs, a, a);
    }
    assert forall p :: IsWalk(g, p) <==> EscalationPath(procs, p);
    if Declared(g) {
      forall a, b | Escalates(procs, a, b)
        ensures IsName(procs, b)
      {
        assert Edge(g, a, b);
      }
    }
    if TargetsDeclared(procs) {
      forall a, b | a in g && b in g[a]
        ensures b in g
      {
        assert Edge(g, a, b);
      }
    }
    if Cyclic(g) {
      var p :| IsCycle(g, p);
      assert EscalationPath(procs, p);
    }
    if EscalatesInCircle(procs) {
      var p :| EscalationPath(procs, p) && |p| >= 2 && p[0] == p[|p| - 1];
      assert IsCycle(g, p);
    }
  }

  function Names(procs: seq<Procedure>): (names: seq<string>)
    ensures |names| == |procs| && forall i :: 0 <= i < |procs| ==> names[i] == procs[i].name
  {
    seq(|procs|, i requires 0 <= i < |procs| => procs[i].name)
  }

  lemma {:induction false} GraphKeys(procs: seq<Procedure>, a: string)
    ensures a in GraphOf(procs) <==> a in Names(procs)
  {
    if procs != [] {
      GraphKeys(procs[..|procs| - 1], a);
      assert Names(procs) == Names(procs[..|procs| - 1]) + [procs[|procs| - 1].name];
    }
  }

  /** With unique names: accepted exactly when every escalation target is declared and nothing escalates in a circle. */
  method CheckEscalationAcyclic(procs: seq<Procedure>) returns (r: Result<(), EscalationError>)
    ensures r.Ok? <==> Declared(GraphOf(procs)) && !Cyclic(GraphOf(procs))
    ensures r.Err? ==> Explains(GraphOf(procs), r.error)
    ensures UniqueProcedures(procs) ==> (r.Ok? <==> TargetsDeclared(procs) && !EscalatesInCircle(procs))
  {
    forall a
      ensures a in GraphOf(procs) <==> a in Names(procs)
    {
      GraphKeys(procs, a);
    }
    r := CheckGraph(GraphOf(procs), Names(procs));
    if UniqueProcedures(procs) {
      GraphMeaning(procs);
    }
  }
}
