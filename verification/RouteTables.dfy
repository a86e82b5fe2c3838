/**
 src/app.ts's route tables as objects: nodes linked through maps, changed in place from the root down, and
 one params map that matching writes to and cleans up. Proved to be the trie of `Trie`.
 */
module RouteTables {
  import opened Bytes
  import opened Trie
  import opened Paths
  import opened Routers

  /** The record that captures are written to. */
  class Params {
    var entries: Bindings

    constructor ()
      ensures entries == map[]
    {
      entries := map[];
    }

    method Set(key: Bytes, value: Bytes)
      modifies this
      ensures entries == old(entries)[key := value]
    {
      entries := entries[key := value];
    }

    method Delete(key: Bytes)
      modifies this
      ensures entries == old(entries) - {key}
    {
      entries := entries - {key};
    }
  }

  class RouteTable {
    var route: Option<nat>
    var staticChildren: map<Bytes, RouteTable>
    var paramChild: RouteTable?
    var paramKey: Option<Bytes>
    /** The trie below this node, and where the node hangs. */
    ghost var model: Node
    ghost var parent: RouteTable?
    ghost var edge: Option<Bytes>
    ghost var depth: nat

    constructor (ghost parent: RouteTable?, ghost edge: Option<Bytes>, ghost depth: nat)
      ensures route == None && staticChildren == map[] && paramChild == null && paramKey == None
      ensures model == EMPTY && this.parent == parent && this.edge == edge && this.depth == depth
    {
      route, staticChildren, paramChild, paramKey := None, map[], null, None;
      model := EMPTY;
      this.parent, this.edge, this.depth := parent, edge, depth;
    }
  }

  /** `c` hangs below `n`, and nowhere else: it says so itself. */
  ghost predicate Hangs(n: RouteTable, c: RouteTable, edge: Option<Bytes>, nodes: set<RouteTable>)
    reads c, n
  {
    c in nodes && c.parent == n && c.edge == edge && c.depth == n.depth + 1
  }

  /** The trie a node stands for, where `pending` is about to become `goal`. */
  ghost function ModelOf(n: RouteTable, pending: RouteTable?, goal: Node): Node
    reads n
  {
    if n == pending then goal else n.model
  }

  ghost predicate Mirrors(n: RouteTable, nodes: set<RouteTable>, pending: RouteTable?, goal: Node)
    reads nodes, n
  {
    && n.model.route == n.route
    && n.model.statics.Keys == n.staticChildren.Keys
    && (forall text :: text in n.staticChildren ==>
          var c := n.staticChildren[text];
          c in nodes && Hangs(n, c, Some(text), nodes) && n.model.statics[text] == ModelOf(c, pending, goal))
    && (n.paramChild == null <==> n.model.param.None?)
    && (n.paramChild != null ==>
          var c: RouteTable := n.paramChild;
          && c in nodes && Hangs(n, c, None, nodes) && c.paramKey.Some?
          && n.model.param == Some(Param(c.paramKey.value, ModelOf(c, pending, goal))))
  }

  /** Every node mirrors its trie, but that the nodes above `pending` already count on `goal`. */
  ghost predicate Waiting(nodes: set<RouteTable>, pending: RouteTable?, goal: Node)
    reads nodes
  {
    forall n :: n in nodes ==> Mirrors(n, nodes, pending, goal)
  }

  ghost predicate Valid(nodes: set<RouteTable>)
    reads nodes
  {
    Waiting(nodes, null, EMPTY)
  }

  /** Nothing but the pending node's own trie has changed. */
  twostate predicate OnlyGrew(nodes: set<RouteTable>, new nodes': set<RouteTable>, node: RouteTable)
    reads nodes
  {
    && nodes <= nodes' && fresh(nodes' - nodes)
    && (forall n :: n in nodes ==> n.parent == old(n.parent) && (n != node ==> n.model == old(n.model)))
  }

  // ---------------------------------------------------------------- insertion

  /** The pending node has taken its own goal on, and passed the next one down: no other node notices. */
  lemma PassOn(n: RouteTable, nodes: set<RouteTable>, nodes': set<RouteTable>, node: RouteTable, next: RouteTable,
               goal: Node, goal': Node)
    requires n in nodes && n != node && nodes <= nodes' && Mirrors(n, nodes, node, goal)
    requires node.model == goal && next.parent == node
    ensures Mirrors(n, nodes', next, goal')
  {
  }

  method StepFixed(node: RouteTable, text: Bytes, ghost rest: Pattern, ghost route: nat, ghost nodes: set<RouteTable>)
    returns (next: RouteTable, ghost nodes': set<RouteTable>)
    requires node in nodes && Waiting(nodes, node, Insert(KeepFirst, node.model, [Fixed(text)] + rest, route))
    modifies node
    ensures OnlyGrew(nodes, nodes', node) && next in nodes' && next.parent == node
    ensures node.model == Insert(KeepFirst, old(node.model), [Fixed(text)] + rest, route)
    ensures Waiting(nodes', next, Insert(KeepFirst, next.model, rest, route))
  {
    ghost var goal := Insert(KeepFirst, node.model, [Fixed(text)] + rest, route);
    assert ([Fixed(text)] + rest)[1..] == rest;
    assert Mirrors(node, nodes, node, goal);
    next, nodes' := TakeFixed(node, text, goal, Insert(KeepFirst, Child(node.model, text), rest, route), nodes);
    ghost var below := Insert(KeepFirst, next.model, rest, route);
    forall n | n in nodes && n != node ensures Mirrors(n, nodes', next, below) {
      assert old(Mirrors(n, nodes, node, goal));
      assert Mirrors(n, nodes, node, goal);
      PassOn(n, nodes, nodes', node, next, goal, below);
    }
  }

  /** The child for a fixed segment, made if there is none. */
  method TakeFixed(node: RouteTable, text: Bytes, ghost goal: Node, ghost below: Node, ghost nodes: set<RouteTable>)
    returns (next: RouteTable, ghost nodes': set<RouteTable>)
    requires node in nodes && goal == node.model.(statics := node.model.statics[text := below])
    requires Mirrors(node, nodes, node, goal)
    modifies node
    ensures nodes <= nodes' && fresh(nodes' - nodes) && next in nodes' && next.parent == node
    ensures node.model == goal && next.model == Child(old(node.model), text)
    ensures node.paramKey == old(node.paramKey) && node.parent == old(node.parent) && node.edge == old(node.edge)
            && node.depth == old(node.depth)
    ensures Mirrors(node, nodes', next, below)
    ensures forall n :: n in nodes' && n !in nodes ==> Mirrors(n, nodes', next, below)
  {
    if text in node.staticChildren {
      next, nodes' := node.staticChildren[text], nodes;
      PromiseFixed(node, text, goal, below, nodes);
    } else {
      next := new RouteTable(node, Some(text), node.depth + 1);
      HangFixed(node, text, next, goal, below, nodes);
      nodes' := nodes + {next};
    }
  }

  /** An existing child is given its goal. */
  ghost method PromiseFixed(node: RouteTable, text: Bytes, goal: Node, below: Node, nodes: set<RouteTable>)
    requires node in nodes && goal == node.model.(statics := node.model.statics[text := below])
    requires Mirrors(node, nodes, node, goal) && text in node.staticChildren
    modifies node
    ensures node.model == goal && Mirrors(node, nodes, node.staticChildren[text], below)
    ensures node.staticChildren == old(node.staticChildren) && node.paramKey == old(node.paramKey)
    ensures node.parent == old(node.parent) && node.edge == old(node.edge) && node.depth == old(node.depth)
  {
    assert forall t :: t in node.staticChildren ==> Hangs(node, node.staticChildren[t], Some(t), nodes);
    node.model := goal;
    assert forall t :: t in node.staticChildren ==> Hangs(node, node.staticChildren[t], Some(t), nodes);
  }

  method HangFixed(node: RouteTable, text: Bytes, next: RouteTable, ghost goal: Node, ghost below: Node,
                   ghost nodes: set<RouteTable>)
    requires node in nodes && goal == node.model.(statics := node.model.statics[text := below])
    requires Mirrors(node, nodes, node, goal) && text !in node.staticChildren && next !in nodes
    requires next.parent == node && next.edge == Some(text) && next.depth == node.depth + 1
    modifies node
    ensures node.model == goal && Mirrors(node, nodes + {next}, next, below)
    ensures node.paramKey == old(node.paramKey) && node.parent == old(node.parent) && node.edge == old(node.edge)
            && node.depth == old(node.depth)
  {
    node.staticChildren := node.staticChildren[text := next];
    node.model := goal;
  }

  method StepHole(node: RouteTable, name: Bytes, ghost rest: Pattern, ghost route: nat, ghost nodes: set<RouteTable>)
    returns (next: RouteTable, ghost nodes': set<RouteTable>)
    requires node in nodes && Waiting(nodes, node, Insert(KeepFirst, node.model, [Hole(name)] + rest, route))
    modifies node
    ensures OnlyGrew(nodes, nodes', node) && next in nodes' && next.parent == node
    ensures node.model == Insert(KeepFirst, old(node.model), [Hole(name)] + rest, route)
    ensures Waiting(nodes', next, Insert(KeepFirst, next.model, rest, route))
  {
    ghost var goal := Insert(KeepFirst, node.model, [Hole(name)] + rest, route);
    assert ([Hole(name)] + rest)[1..] == rest;
    assert Mirrors(node, nodes, node, goal);
    next, nodes' := TakeHole(node, name, goal, rest, route, nodes);
    ghost var below := Insert(KeepFirst, next.model, rest, route);
    forall n | n in nodes && n != node ensures Mirrors(n, nodes', next, below) {
      assert old(Mirrors(n, nodes, node, goal));
      assert Mirrors(n, nodes, node, goal);
      PassOn(n, nodes, nodes', node, next, goal, below);
    }
  }

  /** The param child, made under this route's name if there is none. */
  method TakeHole(node: RouteTable, name: Bytes, ghost goal: Node, ghost rest: Pattern, ghost route: nat,
                  ghost nodes: set<RouteTable>)
    returns (next: RouteTable, ghost nodes': set<RouteTable>)
    requires node in nodes && goal == Insert(KeepFirst, node.model, [Hole(name)] + rest, route)
    requires Mirrors(node, nodes, node, goal)
    modifies node
    ensures nodes <= nodes' && fresh(nodes' - nodes) && next in nodes' && next.parent == node
    ensures node.model == goal
    ensures node.paramKey == old(node.paramKey) && node.parent == old(node.parent) && node.edge == old(node.edge)
            && node.depth == old(node.depth)
    ensures var below := Insert(KeepFirst, next.model, rest, route);
            && Mirrors(node, nodes', next, below)
            && forall n :: n in nodes' && n !in nodes ==> Mirrors(n, nodes', next, below)
  {
    assert ([Hole(name)] + rest)[1..] == rest;
    if node.paramChild == null {
      next := new RouteTable(node, None, node.depth + 1);
      next.paramKey := Some(name);
      nodes' := nodes + {next};
      node.paramChild := next;
      node.model := goal;
    } else {
      next, nodes' := node.paramChild, nodes;
      assert Hangs(node, next, None, nodes);
      node.model := goal;
    }
  }

  /** insertParamRoute below the root: walk or build the path, then keep the first route that gets there. */
  method InsertRoute(root: RouteTable, parts: Pattern, route: nat, ghost nodes: set<RouteTable>)
    returns (ghost nodes': set<RouteTable>)
    requires root in nodes && root.parent == null && Valid(nodes)
    modifies nodes
    ensures Valid(nodes') && nodes <= nodes' && fresh(nodes' - nodes)
    ensures root.model == Insert(KeepFirst, old(root.model), parts, route)
    ensures forall n :: n in nodes ==> n.parent == old(n.parent)
    ensures forall n :: n in nodes && n.parent == null && n != root ==> n.model == old(n.model)
  {
    hide Mirrors, Insert;
    ghost var goal := Insert(KeepFirst, root.model, parts, route);
    var node := root;
    nodes' := nodes;
    RootWaits(root, nodes, goal);
    assert parts[0..] == parts;
    var i := 0;
    while i < |parts|
      invariant 0 <= i <= |parts| && nodes <= nodes' && fresh(nodes' - nodes) && node in nodes'
      invariant Waiting(nodes', node, Insert(KeepFirst, node.model, parts[i..], route))
      invariant if node == root then Insert(KeepFirst, node.model, parts[i..], route) == goal
                else root.model == goal && node.parent != null
      invariant forall n :: n in nodes ==> n.parent == old(n.parent)
      invariant forall n :: n in nodes && n.parent == null && n != root ==> n.model == old(n.model)
    {
      assert parts[i..] == [parts[i]] + parts[i + 1..];
      match parts[i] {
        case Fixed(text) => node, nodes' := StepFixed(node, text, parts[i + 1..], route, nodes');
        case Hole(name) => node, nodes' := StepHole(node, name, parts[i + 1..], route, nodes');
      }
      i := i + 1;
    }
    assert parts[i..] == [];
    KeepRoute(node, route, nodes');
  }

  /** A root has no parent to wait for it. */
  lemma RootWaits(root: RouteTable, nodes: set<RouteTable>, goal: Node)
    requires root in nodes && root.parent == null && Valid(nodes)
    ensures Waiting(nodes, root, goal)
  {
    forall n | n in nodes ensures Mirrors(n, nodes, root, goal) { assert Mirrors(n, nodes, null, EMPTY); }
  }

  method KeepRoute(node: RouteTable, route: nat, ghost nodes: set<RouteTable>)
    requires node in nodes && Waiting(nodes, node, Insert(KeepFirst, node.model, [], route))
    modifies node
    ensures Valid(nodes) && node.model == Insert(KeepFirst, old(node.model), [], route)
    ensures node.parent == old(node.parent)
  {
    ghost var goal := Insert(KeepFirst, node.model, [], route);
    assert Mirrors(node, nodes, node, goal);
    if node.route.None? {
      node.route := Some(route);
    }
    node.model := goal;
    forall n | n in nodes ensures Mirrors(n, nodes, null, EMPTY) {
      assert old(Mirrors(n, nodes, node, goal));
      assert Mirrors(n, nodes, node, goal);
      GoalReached(n, nodes, node, goal);
    }
  }

  lemma GoalReached(n: RouteTable, nodes: set<RouteTable>, node: RouteTable, goal: Node)
    requires n in nodes && node.model == goal && Mirrors(n, nodes, node, goal)
    ensures Mirrors(n, nodes, null, EMPTY)
  {
  }

  // ---------------------------------------------------------------- matching

  /** matchRouteTable: the static child, then the param child under its key; what failed is deleted again. */
  method MatchRouteTable(table: RouteTable, segs: seq<Bytes>, index: nat, decode: Bytes -> Bytes, params: Params,
                         ghost nodes: set<RouteTable>)
    returns (route: Option<nat>)
    requires index <= |segs| && table in nodes && Valid(nodes)
    modifies params
    ensures Matched(route, params.entries) == Match(table.model, segs[index..], decode, old(params.entries))
    decreases |segs| - index
  {
    assert Mirrors(table, nodes, null, EMPTY);
    if index == |segs| {
      return table.route;
    }
    var segment := segs[index];
    assert segs[index..][0] == segment && segs[index..][1..] == segs[index + 1..];
    if segment in table.staticChildren {
      var matched := MatchRouteTable(table.staticChildren[segment], segs, index + 1, decode, params, nodes);
      if matched.Some? {
        return matched;
      }
    }
    if table.paramChild == null {
      return None;
    }
    var key := table.paramChild.paramKey.value;
    params.Set(key, decode(segment));
    var matched := MatchRouteTable(table.paramChild, segs, index + 1, decode, params, nodes);
    if matched.Some? {
      return matched;
    }
    params.Delete(key);
    return None;
  }

  // ---------------------------------------------------------------- the application

  class App {
    var exactRoutes: map<(Verb, Bytes), nat>
    var paramRoutesByMethod: map<Verb, RouteTable>
    ghost var nodes: set<RouteTable>

    ghost predicate Roots() reads this, nodes {
      && (forall v :: v in paramRoutesByMethod ==>
            paramRoutesByMethod[v] in nodes && paramRoutesByMethod[v].parent == null)
      && (forall v, w :: v in paramRoutesByMethod && w in paramRoutesByMethod && v != w ==>
            paramRoutesByMethod[v] != paramRoutesByMethod[w])
    }

    ghost predicate Good() reads this, nodes {
      Roots() && Valid(nodes)
    }

    /** The tables this object stands for. */
    ghost function Tables(): Table reads this, nodes requires Roots() {
      Table(exactRoutes, map v | v in paramRoutesByMethod :: paramRoutesByMethod[v].model, map[])
    }

    constructor ()
      ensures Good() && fresh(nodes) && Tables() == NO_ROUTES
    {
      exactRoutes, paramRoutesByMethod := map[], map[];
      nodes := {};
    }

    /** The root of a method's table, made on first use. */
    method RootFor(verb: Verb) returns (root: RouteTable)
      requires Good()
      modifies this
      ensures Good() && nodes >= old(nodes) && fresh(nodes - old(nodes)) && exactRoutes == old(exactRoutes)
      ensures verb in paramRoutesByMethod && root == paramRoutesByMethod[verb] && verb in Tables().tries
      ensures Tables() == old(Tables()).(tries := old(Tables()).tries[verb := TrieOf(old(Tables()), verb)])
    {
      hide Valid;
      if verb !in paramRoutesByMethod {
        root := new RouteTable(null, None, 0);
        NewRoot(root, nodes);
        nodes := nodes + {root};
        paramRoutesByMethod := paramRoutesByMethod[verb := root];
      } else {
        root := paramRoutesByMethod[verb];
      }
    }

    method InsertParamRoute(verb: Verb, parts: Pattern, route: nat)
      requires Good()
      modifies this, nodes
      ensures Good() && nodes >= old(nodes) && fresh(nodes - old(nodes))
      ensures Tables() == old(Tables()).(tries := old(Tables()).tries[verb := Insert(KeepFirst,
                TrieOf(old(Tables()), verb), parts, route)])
    {
      hide Valid, Insert, Roots, Tables;
      var _ := RootFor(verb);
      InsertBelow(verb, parts, route);
    }

    method InsertBelow(verb: Verb, parts: Pattern, route: nat)
      requires Good() && verb in paramRoutesByMethod
      modifies nodes, this`nodes
      ensures Good() && nodes >= old(nodes) && fresh(nodes - old(nodes))
      ensures Tables() == old(Tables()).(tries := old(Tables()).tries[verb := Insert(KeepFirst,
                old(Tables()).tries[verb], parts, route)])
    {
      hide Valid, Insert;
      var root := paramRoutesByMethod[verb];
      nodes := InsertRoute(root, parts, route, nodes);
    }

    /** The next free place in the tables is decided by whether the pattern has holes. */
    method AddRoute(def: RouteDef)
      requires Good()
      modifies this, nodes
      ensures Good() && nodes >= old(nodes) && fresh(nodes - old(nodes))
      ensures Tables() == Routers.AddRoute(old(Tables()), def)
    {
      hide Valid, Insert, AnyHole, PartsOf, Normalize, SplitNormalizedPath;
      var compiled := CompilePath(def.path);
      if !compiled.hasParams {
        exactRoutes := exactRoutes[(def.verb, compiled.normalized) := def.id];
      } else {
        InsertParamRoute(def.verb, compiled.parts, def.id);
      }
    }

    method FindParamRoute(verb: Verb, path: Bytes, decode: Bytes -> Bytes, suppress: bool) returns (r: Option<Found>)
      requires Good() && IsNormal(path)
      ensures r == Routers.FindParamRoute(Tables(), verb, SplitNormalizedPath(path), decode, suppress)
    {
      if verb !in paramRoutesByMethod {
        return None;
      }
      var params := new Params();
      var segs := SplitNormalizedPath(path);
      assert segs[0..] == segs;
      var route := MatchRouteTable(paramRoutesByMethod[verb], segs, 0, decode, params, nodes);
      if route.None? {
        return None;
      }
      r := Some(Found(route.value, params.entries, suppress));
    }

    method FindRoute(verb: Verb, path: Bytes, decode: Bytes -> Bytes) returns (r: Option<Found>)
      requires Good()
      ensures r == Routers.FindRoute(Tables(), verb, path, decode)
    {
      hide Valid, Normalize, SplitNormalizedPath;
      var normalized := NormalizePath(path);
      NormalizeIsNormal(path);
      if (verb, normalized) in exactRoutes {
        return Some(Found(exactRoutes[(verb, normalized)], map[], verb == HEAD));
      }
      if verb == HEAD {
        if (GET, normalized) in exactRoutes {
          return Some(Found(exactRoutes[(GET, normalized)], map[], true));
        }
      }
      var found := FindParamRoute(verb, normalized, decode, verb == HEAD);
      if found.Some? {
        return found;
      }
      if verb != HEAD {
        return None;
      }
      r := FindParamRoute(GET, normalized, decode, true);
    }
  }

  lemma NewRoot(created: RouteTable, nodes: set<RouteTable>)
    requires Valid(nodes) && created !in nodes
    requires created.route == None && created.staticChildren == map[] && created.paramChild == null
             && created.model == EMPTY
    ensures Valid(nodes + {created})
  {
    var all := nodes + {created};
    forall n | n in all ensures Mirrors(n, all, null, EMPTY) {
      if n in nodes { assert Mirrors(n, nodes, null, EMPTY); }
    }
  }
}
