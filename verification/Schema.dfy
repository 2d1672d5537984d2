/** Clearing `required` throughout a schema graph (internal/core/schema.go): a depth-first walk that
    changes nodes in place, over a graph that may share nodes and contain cycles. */
module Schema {

  /** Every keyword that can hold a sub-schema. A nil `Properties` is an empty one. */
  datatype Keywords = Keywords(
    definitions: map<string, Schema?>,
    properties: seq<(string, Schema?)>,
    patternProperties: map<string, Schema?>,
    dependentSchemas: map<string, Schema?>,
    allOf: seq<Schema?>,
    anyOf: seq<Schema?>,
    oneOf: seq<Schema?>,
    prefixItems: seq<Schema?>,
    not: Schema?,
    if_: Schema?,
    then_: Schema?,
    else_: Schema?,
    items: Schema?,
    contains: Schema?,
    additionalProperties: Schema?,
    propertyNames: Schema?,
    contentSchema: Schema?)
  {
    function Singles(): seq<Schema?> {
      [not, if_, then_, else_, items, contains, additionalProperties, propertyNames, contentSchema]
    }

    ghost function Children(): set<Schema> {
      MapNodes(definitions) + PairNodes(properties) + MapNodes(patternProperties) + MapNodes(dependentSchemas) +
      Nodes(allOf) + Nodes(anyOf) + Nodes(oneOf) + Nodes(prefixItems) + Nodes(Singles())
    }
  }

  /** A reflected schema: the two fields the walk clears, and the sub-schemas it follows. */
  class Schema {
    var required: seq<string>
    var dependentRequired: map<string, seq<string>>
    var keywords: Keywords
  }

  ghost function Nodes(list: seq<Schema?>): set<Schema> {
    set n: Schema | n in list
  }

  ghost function MapNodes(m: map<string, Schema?>): set<Schema> {
    set n: Schema | n in m.Values
  }

  ghost function PairNodes(ps: seq<(string, Schema?)>): set<Schema> {
    Nodes(seq(|ps|, i requires 0 <= i < |ps| => ps[i].1))
  }

  /** The keywords the walk follows, one by one. */
  lemma ChildrenAre(k: Keywords, n: Schema)
    ensures n in k.Children() <==>
            || (exists name :: name in k.definitions && k.definitions[name] == n)
            || (exists i :: 0 <= i < |k.properties| && k.properties[i].1 == n)
            || (exists name :: name in k.patternProperties && k.patternProperties[name] == n)
            || (exists name :: name in k.dependentSchemas && k.dependentSchemas[name] == n)
            || n in k.allOf || n in k.anyOf || n in k.oneOf || n in k.prefixItems
            || n == k.not || n == k.if_ || n == k.then_ || n == k.else_
            || n == k.items || n == k.contains || n == k.additionalProperties || n == k.propertyNames || n == k.contentSchema
  {
    InMap(k.definitions, n);
    InMap(k.patternProperties, n);
    InMap(k.dependentSchemas, n);
    InPairs(k.properties, n);
    hide MapNodes, PairNodes;
    var singles := k.Singles();
    assert singles[0] == k.not && singles[1] == k.if_ && singles[2] == k.then_ && singles[3] == k.else_ && singles[4] == k.items
        && singles[5] == k.contains && singles[6] == k.additionalProperties && singles[7] == k.propertyNames
        && singles[8] == k.contentSchema && |singles| == 9;
  }

  lemma InMap(m: map<string, Schema?>, n: Schema)
    ensures n in MapNodes(m) <==> exists name :: name in m && m[name] == n
  {}

  lemma InPairs(ps: seq<(string, Schema?)>, n: Schema)
    ensures n in PairNodes(ps) <==> exists i :: 0 <= i < |ps| && ps[i].1 == n
  {
    var list := seq(|ps|, i requires 0 <= i < |ps| => ps[i].1);
    assert forall i :: 0 <= i < |ps| ==> list[i] == ps[i].1;
    if n in list {
      var i :| 0 <= i < |list| && list[i] == n;
      assert ps[i].1 == n;
    }
    if i :| 0 <= i < |ps| && ps[i].1 == n { assert list[i] in list; }
  }

  // ----- the graph as plain data -----

  /** Which sub-schemas each node holds; no keyword of the walk changes it. */
  type Graph = map<Schema, set<Schema>>

  ghost predicate Closed(g: Graph) {
    forall n <- g :: g[n] <= g.Keys
  }

  /** `g` is the true picture of the nodes it names. */
  ghost predicate Depicts(g: Graph)
    reads g.Keys`keywords
  {
    forall n <- g :: n.keywords.Children() == g[n]
  }

  ghost function Within(g: Graph, root: Schema, steps: nat): (r: set<Schema>)
    requires Closed(g) && root in g
    ensures r <= g.Keys
  {
    if steps == 0 then {root}
    else
      var near := Within(g, root, steps - 1);
      near + set n, c | n in near && c in g[n] :: c
  }

  ghost predicate Reachable(g: Graph, root: Schema, n: Schema)
    requires Closed(g) && root in g
  {
    exists steps: nat :: n in Within(g, root, steps)
  }

  lemma ReachableRoot(g: Graph, root: Schema)
    requires Closed(g) && root in g
    ensures Reachable(g, root, root)
  {
    assert root in Within(g, root, 0);
  }

  lemma ReachableChild(g: Graph, root: Schema, n: Schema, child: Schema)
    requires Closed(g) && root in g && Reachable(g, root, n) && n in g && child in g[n]
    ensures Reachable(g, root, child)
  {
    var steps: nat :| n in Within(g, root, steps);
    assert child in Within(g, root, steps + 1);
  }

  /** What is reachable from something reachable is reachable. */
  lemma {:induction false} WithinTransitive(g: Graph, root: Schema, mid: Schema, steps: nat)
    requires Closed(g) && root in g && mid in g && Reachable(g, root, mid)
    ensures forall n <- Within(g, mid, steps) :: Reachable(g, root, n)
  {
    if steps > 0 {
      WithinTransitive(g, root, mid, steps - 1);
      var near := Within(g, mid, steps - 1);
      forall c | c in Within(g, mid, steps)
        ensures Reachable(g, root, c)
      {
        if c !in near {
          var n :| n in near && c in g[n];
          ReachableChild(g, root, n, c);
        }
      }
    }
  }

  lemma {:induction false} WithinClosed(g: Graph, root: Schema, s: set<Schema>, steps: nat)
    requires Closed(g) && root in g && root in s && s <= g.Keys
    requires forall n <- s :: g[n] <= s
    ensures Within(g, root, steps) <= s
  {
    if steps > 0 {
      WithinClosed(g, root, s, steps - 1);
    }
  }

  // ----- the walk -----

  /** How the set of visited nodes may grow in a walk over `roots`: over the roots, closed under
      sub-schemas, and by nothing that no root leads to. */
  ghost predicate Explored(g: Graph, roots: set<Schema>, before: set<Schema>, after: set<Schema>)
    requires Closed(g) && roots <= g.Keys
  {
    && before <= after <= g.Keys
    && roots <= after
    && (forall n <- after - before :: g[n] <= after)
    && (forall n <- after - before :: exists r <- roots :: Reachable(g, r, n))
  }

  /** What the walk did to the nodes: the newly visited are cleared and no others are touched. */
  twostate predicate ClearedOnly(nodes: set<Schema>, new cleared: set<Schema>)
    reads nodes`required, nodes`dependentRequired
  {
    && (forall n <- nodes :: n in cleared ==> n.required == [] && n.dependentRequired == map[])
    && (forall n <- nodes :: n !in cleared ==>
          n.required == old(n.required) && n.dependentRequired == old(n.dependentRequired))
  }

  /** The values of a map, in whatever order ranging over it delivers them. */
  method Values(m: map<string, Schema?>) returns (list: seq<Schema?>)
    ensures Nodes(list) == MapNodes(m)
  {
    list := [];
    var todo := m.Keys;
    while todo != {}
      invariant todo <= m.Keys
      invariant forall n :: n in list <==> exists k :: k in m.Keys - todo && m[k] == n
      decreases todo
    {
      var k :| k in todo;
      todo := todo - {k};
      list := list + [m[k]];
    }
  }

  method PairValues(ps: seq<(string, Schema?)>) returns (list: seq<Schema?>)
    ensures Nodes(list) == PairNodes(ps)
  {
    list := [];
    for i := 0 to |ps|
      invariant list == seq(i, k requires 0 <= k < i => ps[k].1)
    {
      list := list + [ps[i].1];
    }
  }

  lemma NodesConcat(a: seq<Schema?>, b: seq<Schema?>)
    ensures Nodes(a + b) == Nodes(a) + Nodes(b)
  {}

  /** The sub-schemas of a node, keyword by keyword in the order the walk takes them. */
  method SubSchemas(k: Keywords) returns (list: seq<Schema?>)
    ensures Nodes(list) == k.Children()
  {
    list := Values(k.definitions);
    var more := PairValues(k.properties);
    NodesConcat(list, more);
    list := list + more;
    more := Values(k.patternProperties);
    NodesConcat(list, more);
    list := list + more;
    more := Values(k.dependentSchemas);
    NodesConcat(list, more);
    list := list + more;
    NodesConcat(list, k.allOf);
    list := list + k.allOf;
    NodesConcat(list, k.anyOf);
    list := list + k.anyOf;
    NodesConcat(list, k.oneOf);
    list := list + k.oneOf;
    NodesConcat(list, k.prefixItems);
    list := list + k.prefixItems;
    NodesConcat(list, k.Singles());
    list := list + k.Singles();
  }

  lemma ExploredNode(g: Graph, s: Schema, seen: set<Schema>, now: set<Schema>)
    requires Closed(g) && s in g && seen <= g.Keys && s !in seen
    requires Explored(g, g[s], seen + {s}, now)
    ensures Explored(g, {s}, seen, now)
  {
    ReachableRoot(g, s);
    forall n | n in now - seen && n != s
      ensures Reachable(g, s, n)
    {
      assert n in now - (seen + {s});
      var r :| r in g[s] && Reachable(g, r, n);
      ReachableChild(g, s, s, r);
      var steps: nat :| n in Within(g, r, steps);
      WithinTransitive(g, s, r, steps);
    }
  }

  lemma ExploredMore(g: Graph, done: set<Schema>, next: set<Schema>, seen: set<Schema>, mid: set<Schema>, now: set<Schema>)
    requires Closed(g) && done <= g.Keys && next <= g.Keys
    requires Explored(g, done, seen, mid) && Explored(g, next, mid, now)
    ensures Explored(g, done + next, seen, now)
  {
    hide Reachable;
    forall n | n in now - seen
      ensures g[n] <= now && exists r <- done + next :: Reachable(g, r, n)
    {
      assert n in mid - seen || n in now - mid;
    }
  }

  lemma ExploredNothing(g: Graph, roots: set<Schema>, seen: set<Schema>)
    requires Closed(g) && roots <= seen <= g.Keys
    ensures Explored(g, roots, seen, seen)
  {}

  lemma DepictsNode(g: Graph, s: Schema)
    requires Closed(g) && Depicts(g) && s in g
    ensures s.keywords.Children() == g[s] <= g.Keys
  {}

  method Relax(s: Schema?, seen: set<Schema>, ghost g: Graph) returns (now: set<Schema>)
    requires Closed(g) && Depicts(g) && (s != null ==> s in g) && seen <= g.Keys
    modifies g.Keys`required, g.Keys`dependentRequired
    ensures seen <= now <= g.Keys && Explored(g, Nodes([s]), seen, now)
    ensures ClearedOnly(g.Keys, now - seen)
    decreases g.Keys - seen, 0
  {
    hide Explored, Within, Reachable, Depicts, Closed, Keywords.Children;
    if s == null || s in seen {
      ExploredNothing(g, Nodes([s]), seen);
      return seen;
    }
    now := seen + {s};
    s.required := [];
    s.dependentRequired := map[];
    var list := SubSchemas(s.keywords);
    DepictsNode(g, s);
    now := RelaxAll(list, now, g);
    ExploredNode(g, s, seen, now);
    assert Nodes([s]) == {s};
  }

  method RelaxAll(list: seq<Schema?>, seen: set<Schema>, ghost g: Graph) returns (now: set<Schema>)
    requires Closed(g) && Depicts(g) && Nodes(list) <= g.Keys && seen <= g.Keys
    modifies g.Keys`required, g.Keys`dependentRequired
    ensures seen <= now <= g.Keys && Explored(g, Nodes(list), seen, now)
    ensures ClearedOnly(g.Keys, now - seen)
    decreases g.Keys - seen, 1
  {
    hide Explored, Within, Reachable, Depicts, Closed, Keywords.Children;
    now := seen;
    ExploredNothing(g, Nodes(list[..0]), seen);
    for i := 0 to |list|
      invariant seen <= now <= g.Keys
      invariant Nodes(list[..i]) <= g.Keys
      invariant Explored(g, Nodes(list[..i]), seen, now)
      invariant ClearedOnly(g.Keys, now - seen)
    {
      assert list[i] in list;
      assert list[..i + 1] == list[..i] + [list[i]];
      NodesConcat(list[..i], [list[i]]);
      ghost var mid := now;
      now := Relax(list[i], now, g);
      ExploredMore(g, Nodes(list[..i]), Nodes([list[i]]), seen, mid, now);
    }
    assert list[..|list|] == list;
  }

  /** The walk from the root with nothing seen: it clears exactly the nodes reachable from the root, shared or
      on a cycle as they may be, and touches no other. */
  method RelaxRoot(root: Schema, ghost g: Graph)
    requires Closed(g) && Depicts(g) && root in g
    modifies g.Keys`required, g.Keys`dependentRequired
    ensures forall n <- g.Keys :: Reachable(g, root, n) ==> n.required == [] && n.dependentRequired == map[]
    ensures forall n <- g.Keys :: !Reachable(g, root, n) ==>
              n.required == old(n.required) && n.dependentRequired == old(n.dependentRequired)
  {
    hide Explored, Within, Reachable, Depicts, Closed, Keywords.Children;
    var seen := Relax(root, {}, g);
    assert Nodes([root]) == {root};
    ExploredFromNothing(g, root, seen);
    assert seen - {} == seen;
  }

  lemma ExploredFromNothing(g: Graph, root: Schema, seen: set<Schema>)
    requires Closed(g) && root in g && Explored(g, {root}, {}, seen)
    ensures seen == set n | n in g && Reachable(g, root, n)
  {
    forall n | n in g && Reachable(g, root, n)
      ensures n in seen
    {
      var steps: nat :| n in Within(g, root, steps);
      WithinClosed(g, root, seen, steps);
    }
    forall n | n in seen
      ensures Reachable(g, root, n)
    {
      assert n in seen - {};
    }
  }
}
