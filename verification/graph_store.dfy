/**
 * The partition contract of the connector's lookups (neo4j_connector.py):
 * the neighbour query and the exact and fuzzy name searches the engine uses,
 * over an explicit store of nodes and relationships. Every lookup binds
 * `$grag_id`; a connector without a partition leaves the parameter unbound,
 * the driver raises, and `execute_query` turns that into no rows.
 */
module GraphStore {
  import opened Wrappers
  import opened Text
  import opened CypherFilter
  import ToG

  /** A node with its labels and properties; `name` and `grag_id` are properties. */
  datatype Node = Node(labels: seq<string>, props: map<string, string>)

  /** A relationship between the nodes at two positions of the store. */
  datatype Rel = Rel(start: nat, end: nat, relType: string, props: map<string, string>)

  datatype Store = Store(nodes: seq<Node>, rels: seq<Rel>)

  /** One row of the neighbour query: source name, relation type, target name, labels and properties. */
  datatype Row = Row(source: string, relation: string, target: Option<string>, labels: seq<string>, props: map<string, string>)

  const NeighborLimit: nat := 100

  function Prop(props: map<string, string>, key: string): Option<string>
  {
    if key in props then Some(props[key]) else None
  }

  predicate InPartition(props: map<string, string>, g: string)
  {
    Prop(props, "grag_id") == Some(g)
  }

  /** The row for `(n)-[r]-(m)` with `n` at `a` and `m` at `b`, when the pattern and its WHERE clause hold. */
  function Oriented(s: Store, g: string, name: string, r: Rel, a: nat, b: nat): (rows: seq<Row>)
    ensures |rows| <= 1
  {
    if a < |s.nodes| && b < |s.nodes|
       && Prop(s.nodes[a].props, "name") == Some(name)
       && InPartition(s.nodes[a].props, g) && InPartition(s.nodes[b].props, g) && InPartition(r.props, g)
    then [Row(name, r.relType, Prop(s.nodes[b].props, "name"), s.nodes[b].labels, s.nodes[b].props)]
    else []
  }

  /** The undirected pattern matches a relationship in both orientations. */
  function RelRows(s: Store, g: string, name: string, r: Rel): seq<Row>
  {
    Oriented(s, g, name, r, r.start, r.end) + Oriented(s, g, name, r, r.end, r.start)
  }

  function AllRows(s: Store, g: string, name: string, rels: seq<Rel>): seq<Row>
  {
    if rels == [] then [] else RelRows(s, g, name, rels[0]) + AllRows(s, g, name, rels[1..])
  }

  /**
   * Reference meaning of a row: some relationship of partition `g` joins a
   * node named `name` of partition `g` to a node of partition `g` that the
   * row describes.
   */
  predicate Matches(s: Store, g: string, name: string, row: Row)
  {
    exists i :: 0 <= i < |s.rels| && row in RelRows(s, g, name, s.rels[i])
  }

  lemma AllRowsMatches(s: Store, g: string, name: string)
    ensures forall row :: row in AllRows(s, g, name, s.rels) <==> Matches(s, g, name, row)
  {
    AllRowsMatch(s, g, name, 0);
    assert s.rels[0..] == s.rels;
  }

  lemma {:induction false} AllRowsMatch(s: Store, g: string, name: string, k: nat)
    requires k <= |s.rels|
    ensures forall row :: row in AllRows(s, g, name, s.rels[k..]) <==> exists i :: k <= i < |s.rels| && row in RelRows(s, g, name, s.rels[i])
    decreases |s.rels| - k
  {
    if k < |s.rels| {
      AllRowsMatch(s, g, name, k + 1);
      assert s.rels[k..][1..] == s.rels[k + 1..];
    }
  }

  /**
   * `get_entity_neighbors(name, depth=1)`: the distinct rows of the pattern,
   * at most 100 of them; none at all when the connector has no partition.
   * The database's row order is not specified; the store's order stands in for it.
   */
  function NeighborQuery(s: Store, gragId: Option<string>, name: string): (rows: seq<Row>)
    ensures !Truthy(gragId) ==> rows == []
    ensures |rows| <= NeighborLimit && NoDups(rows)
    ensures Truthy(gragId) ==> forall row :: row in rows ==> Matches(s, gragId.value, name, row)
    ensures Truthy(gragId) && |rows| < NeighborLimit ==> forall row :: Matches(s, gragId.value, name, row) ==> row in rows
  {
    if !Truthy(gragId) then []
    else
      var all := AllRows(s, gragId.value, name, s.rels);
      AllRowsMatches(s, gragId.value, name);
      var d := Dedup(all);
      var rows := SliceTo(d, NeighborLimit);
      assert forall i, j :: 0 <= i < j < |rows| ==> rows[i] == d[i] && rows[j] == d[j];
      assert forall row :: row in rows ==> row in d;
      rows
  }

  /** Names of the partition's nodes, in store order. */
  function NamesFrom(nodes: seq<Node>, g: string): seq<string>
  {
    if nodes == [] then []
    else
      var rest := NamesFrom(nodes[1..], g);
      match Prop(nodes[0].props, "name")
      case Some(n) => if InPartition(nodes[0].props, g) then [n] + rest else rest
      case None => rest
  }

  /** Some node of partition `g` is named `n`. */
  predicate NamedIn(nodes: seq<Node>, g: string, n: string)
  {
    exists i :: 0 <= i < |nodes| && InPartition(nodes[i].props, g) && Prop(nodes[i].props, "name") == Some(n)
  }

  lemma {:induction false} NamesFromSpec(nodes: seq<Node>, g: string)
    ensures forall n :: n in NamesFrom(nodes, g) <==> NamedIn(nodes, g, n)
  {
    if nodes != [] {
      NamesFromSpec(nodes[1..], g);
      forall n
        ensures n in NamesFrom(nodes, g) <==> NamedIn(nodes, g, n)
      {
        if NamedIn(nodes[1..], g, n) {
          var i :| 0 <= i < |nodes[1..]| && InPartition(nodes[1..][i].props, g) && Prop(nodes[1..][i].props, "name") == Some(n);
          assert nodes[i + 1] == nodes[1..][i];
        }
        if NamedIn(nodes, g, n) {
          var i :| 0 <= i < |nodes| && InPartition(nodes[i].props, g) && Prop(nodes[i].props, "name") == Some(n);
          if i > 0 {
            assert nodes[1..][i - 1] == nodes[i];
          }
        }
      }
    }
  }

  /** The first name of the partition satisfying `p`, if any. */
  function FirstName(names: seq<string>, p: string -> bool): (r: Option<string>)
    ensures r.Some? ==> r.value in names && p(r.value)
    ensures r.None? ==> forall n :: n in names ==> !p(n)
  {
    if names == [] then None
    else if p(names[0]) then Some(names[0])
    else FirstName(names[1..], p)
  }

  /**
   * `search_entities_exact(name)`: the distinct names equal to `name` in the
   * partition, keeping only non-empty ones — so `[name]` or nothing.
   */
  function ExactNames(s: Store, gragId: Option<string>, name: string): (r: seq<string>)
    ensures r == [] || r == [name]
    ensures r != [] <==> Truthy(gragId) && name != "" && NamedIn(s.nodes, gragId.value, name)
  {
    if !Truthy(gragId) then []
    else
      NamesFromSpec(s.nodes, gragId.value);
      if name != "" && name in NamesFrom(s.nodes, gragId.value) then [name] else []
  }

  /**
   * `search_entities_fuzzy(keyword, limit=1)`: the first partition name whose
   * lower-cased form contains the lower-cased keyword, dropped when empty.
   */
  function FuzzyNames(s: Store, gragId: Option<string>, keyword: string): (r: seq<string>)
    ensures |r| <= 1
    ensures forall n :: n in r ==> (n != "" && FuzzyHit(n, keyword) && Truthy(gragId) && NamedIn(s.nodes, gragId.value, n))
  {
    if !Truthy(gragId) then []
    else
      var names := NamesFrom(s.nodes, gragId.value);
      NamesFromSpec(s.nodes, gragId.value);
      var first := FirstName(names, n => FuzzyHit(n, keyword));
      if first.Some? && first.value != "" then [first.value] else []
  }

  /** Case-insensitive containment, as `toLower(n.name) CONTAINS toLower($keyword)`. */
  predicate FuzzyHit(n: string, keyword: string)
  {
    Contains(Lower(n), Lower(keyword))
  }

  /** A neighbour row as the engine reads it: the relation type and the target name, "" when absent. */
  function AsNeighbor(row: Row): ToG.Neighbor
  {
    ToG.Neighbor(row.relation, row.target.UnwrapOr(""))
  }

  /** The lookups a connector for partition `gragId` offers the engine. */
  function ConnectorGraph(s: Store, gragId: Option<string>): ToG.Graph
  {
    ToG.Graph(
      name => seq(|NeighborQuery(s, gragId, name)|, k requires 0 <= k < |NeighborQuery(s, gragId, name)| => AsNeighbor(NeighborQuery(s, gragId, name)[k])),
      name => ExactNames(s, gragId, name),
      keyword => FuzzyNames(s, gragId, keyword))
  }

  // ---------------------------------------------------------------- isolation

  /** The store as partition `g` sees it: other nodes stripped of every property, other relationships gone. */
  function Restrict(s: Store, g: string): Store
  {
    Store(RestrictNodes(s.nodes, g), KeepRels(s.rels, g))
  }

  function RestrictNodes(nodes: seq<Node>, g: string): (r: seq<Node>)
    ensures |r| == |nodes|
  {
    seq(|nodes|, i requires 0 <= i < |nodes| => if InPartition(nodes[i].props, g) then nodes[i] else Node([], map[]))
  }

  lemma OrientedRestrict(s: Store, g: string, name: string, r: Rel, a: nat, b: nat)
    ensures Oriented(s, g, name, r, a, b) == Oriented(Restrict(s, g), g, name, r, a, b)
  {
    var t := Restrict(s, g);
    assert !InPartition(map[], g);
    if a < |s.nodes| && b < |s.nodes| {
      assert t.nodes[a] == if InPartition(s.nodes[a].props, g) then s.nodes[a] else Node([], map[]);
      assert t.nodes[b] == if InPartition(s.nodes[b].props, g) then s.nodes[b] else Node([], map[]);
    }
  }

  function KeepRels(rels: seq<Rel>, g: string): seq<Rel>
  {
    if rels == [] then []
    else (if InPartition(rels[0].props, g) then [rels[0]] else []) + KeepRels(rels[1..], g)
  }

  lemma {:induction false} AllRowsRestrict(s: Store, g: string, name: string, rels: seq<Rel>)
    ensures AllRows(s, g, name, rels) == AllRows(Restrict(s, g), g, name, KeepRels(rels, g))
  {
    if rels != [] {
      AllRowsRestrict(s, g, name, rels[1..]);
      var r := rels[0];
      OrientedRestrict(s, g, name, r, r.start, r.end);
      OrientedRestrict(s, g, name, r, r.end, r.start);
      if InPartition(r.props, g) {
        assert KeepRels(rels, g) == [r] + KeepRels(rels[1..], g);
      } else {
        assert KeepRels(rels, g) == KeepRels(rels[1..], g);
        assert RelRows(s, g, name, r) == [];
      }
    }
  }

  lemma {:induction false} NamesRestrict(nodes: seq<Node>, g: string)
    ensures NamesFrom(nodes, g) == NamesFrom(RestrictNodes(nodes, g), g)
  {
    var t := RestrictNodes(nodes, g);
    if nodes != [] {
      NamesRestrict(nodes[1..], g);
      assert t[1..] == RestrictNodes(nodes[1..], g);
      assert !InPartition(map[], g);
    }
  }

  /** Nothing outside partition `g` influences any lookup of a connector for `g`. */
  lemma Isolation(s: Store, g: string, name: string)
    ensures NeighborQuery(s, Some(g), name) == NeighborQuery(Restrict(s, g), Some(g), name)
    ensures ExactNames(s, Some(g), name) == ExactNames(Restrict(s, g), Some(g), name)
    ensures FuzzyNames(s, Some(g), name) == FuzzyNames(Restrict(s, g), Some(g), name)
  {
    AllRowsRestrict(s, g, name, s.rels);
    NamesRestrict(s.nodes, g);
  }
}
