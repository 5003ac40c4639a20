/** The batched eager loader on objects: `sqlAll` and the three `load*` templates. Nodes are
    allocated per row, neighbours are filed under in-memory maps and attached in place. */
module EagerLoader {
  import opened Wrappers
  import opened Schema
  import opened Database
  import opened EagerPlan
  import opened EagerRuns
  import opened EagerColumns
  import opened QueryBuilder

  // ---------- Nodes ----------

  /** A loaded entity. The fields of its `Edges` struct are two maps: `one` for unique edges, whose
      absent entry is a nil pointer, and `many` for slices, whose absent entry is a nil slice. */
  class Node {
    const kind: Kind
    const vals: Row
    const loadedTypes: set<Edge>
    var one: map<Edge, Node>
    var many: map<Edge, seq<Node>>

    constructor (kind: Kind, vals: Row, loadedTypes: set<Edge>)
      ensures this.kind == kind && this.vals == vals && this.loadedTypes == loadedTypes
      ensures one == map[] && many == map[]
    {
      this.kind, this.vals, this.loadedTypes := kind, vals, loadedTypes;
      one, many := map[], map[];
    }

    ghost function Neighbours(e: Edge): seq<Node>
      reads this
    {
      if Rel(e).M2O? then (if e in one then [one[e]] else [])
      else if e in many then many[e] else []
    }
  }

  /** What a unique edge shows of a list of matches: the one assigned last. */
  function Shown<T>(e: Edge, xs: seq<T>): (ys: seq<T>)
    ensures forall j | 0 <= j < |ys| :: ys[j] in xs
  {
    if Rel(e).M2O? && |xs| > 1 then [xs[|xs| - 1]] else xs
  }

  /** The object graph at `n`, within the objects of `S`, unfolds to the tree `t`. */
  ghost predicate Represents(n: Node, t: Tree, S: set<object>)
    reads S
    decreases t
  {
    && n in S && n.vals == t.vals && n.loadedTypes == t.edges.Keys
    && n.one.Keys <= t.edges.Keys && n.many.Keys <= t.edges.Keys
    && (forall e | e in t.edges ::
          && (Rel(e).M2O? || e in n.many)
          && |n.Neighbours(e)| == |Shown(e, t.edges[e].trees)|
          && forall j | 0 <= j < |n.Neighbours(e)| :: Represents(n.Neighbours(e)[j], Shown(e, t.edges[e].trees)[j], S))
  }

  ghost predicate RepresentsAll(ns: seq<Node>, ts: seq<Tree>, S: set<object>)
    reads S
  {
    |ns| == |ts| && forall j | 0 <= j < |ns| :: Represents(ns[j], ts[j], S)
  }

  lemma {:induction false} RepresentsMore(n: Node, t: Tree, S: set<object>, S': set<object>)
    requires Represents(n, t, S) && S <= S'
    ensures Represents(n, t, S')
    decreases t
  {
    forall e, j | e in t.edges && 0 <= j < |n.Neighbours(e)|
      ensures Represents(n.Neighbours(e)[j], Shown(e, t.edges[e].trees)[j], S')
    {
      RepresentsMore(n.Neighbours(e)[j], Shown(e, t.edges[e].trees)[j], S, S');
    }
  }

  lemma RepresentsAllMore(ns: seq<Node>, ts: seq<Tree>, S: set<object>, S': set<object>)
    requires RepresentsAll(ns, ts, S) && S <= S'
    ensures RepresentsAll(ns, ts, S')
  {
    forall j | 0 <= j < |ns| ensures Represents(ns[j], ts[j], S') {
      RepresentsMore(ns[j], ts[j], S, S');
    }
  }

  lemma RepresentsFront(ns: seq<Node>, ts: seq<Tree>, S: set<object>)
    requires RepresentsAll(ns, ts, S) && ns != []
    ensures RepresentsAll(ns[..|ns| - 1], ts[..|ts| - 1], S) && Represents(ns[|ns| - 1], ts[|ts| - 1], S)
  {
  }

  lemma RepresentsSnoc(ns: seq<Node>, n: Node, ts: seq<Tree>, t: Tree, S: set<object>)
    requires RepresentsAll(ns, ts, S) && Represents(n, t, S)
    ensures RepresentsAll(ns + [n], ts + [t], S)
  {
  }

  /** Filing nodes by key and filing the trees they stand for go together. */
  lemma {:induction false} GatherRepresents(ns: seq<Node>, ts: seq<Tree>, tags: seq<set<int>>, key: Option<int>,
                                            S: set<object>)
    requires RepresentsAll(ns, ts, S) && |tags| == |ns|
    ensures RepresentsAll(Gather(ns, tags, key), Gather(ts, tags, key), S)
  {
    if ns != [] {
      var n := |ns| - 1;
      RepresentsFront(ns, ts, S);
      GatherRepresents(ns[..n], ts[..n], tags[..n], key, S);
      RepresentsSnoc(Gather(ns[..n], tags[..n], key), ns[n], Gather(ts[..n], tags[..n], key), ts[n], S);
    }
  }

  // ---------- The driver ----------

  /** The database connection: answers queries and counts them. */
  class Driver {
    const db: DB
    var queries: nat

    constructor (db: DB)
      ensures this.db == db && queries == 0
    {
      this.db, queries := db, 0;
    }

    method QueryNodes(kind: Kind, spec: Spec, cols: Option<seq<Col>>) returns (scanned: seq<Row>)
      modifies this`queries
      ensures queries == old(queries) + 1
      ensures scanned == Scans(Database.Select(db, kind, spec), cols)
    {
      queries := queries + 1;
      scanned := Scans(Database.Select(db, kind, spec), cols);
    }

    method QueryJoined(e: Edge, keys: seq<int>, spec: Spec, cols: Option<seq<Col>>) returns (scanned: seq<Joined>)
      requires Rel(e).M2M?
      modifies this`queries
      ensures queries == old(queries) + 1
      ensures scanned == JoinScans(SelectJoined(db, e, keys, spec), cols)
    {
      queries := queries + 1;
      scanned := JoinScans(SelectJoined(db, e, keys, spec), cols);
    }
  }

  function Scans(rows: seq<Row>, cols: Option<seq<Col>>): (scanned: seq<Row>)
    ensures |scanned| == |rows|
  {
    seq(|rows|, i requires 0 <= i < |rows| => Project(rows[i], cols))
  }

  function JoinScans(joined: seq<Joined>, cols: Option<seq<Col>>): (scanned: seq<Joined>)
    ensures |scanned| == |joined|
  {
    seq(|joined|, i requires 0 <= i < |joined| => Joined(joined[i].out, Project(joined[i].row, cols)))
  }

  // ---------- Attaching ----------

  /** `assign` of a unique edge, for every node filed under the neighbour's key. */
  method AssignAll(ns: seq<Node>, e: Edge, neighbour: Node)
    modifies set n | n in ns
    ensures forall n | n in ns :: n.one == old(n.one)[e := neighbour] && n.many == old(n.many)
  {
    for m := 0 to |ns|
      invariant forall n | n in ns ::
        n.many == old(n.many) && n.one == if n in ns[..m] then old(n.one)[e := neighbour] else old(n.one)
    {
      ns[m].one := ns[m].one[e := neighbour];
      assert ns[..m + 1] == ns[..m] + [ns[m]];
    }
  }

  /** `assign` of a one-to-many edge. */
  method AppendTo(node: Node, e: Edge, neighbour: Node)
    requires e in node.many
    modifies node
    ensures node.many == old(node.many)[e := old(node.many)[e] + [neighbour]] && node.one == old(node.one)
  {
    node.many := node.many[e := node.many[e] + [neighbour]];
  }

  /** `assign` of a many-to-many edge, for a set of nodes visited in no particular order. */
  method AppendAll(ns: set<Node>, e: Edge, neighbour: Node)
    requires forall n | n in ns :: e in n.many
    modifies ns
    ensures forall n | n in ns :: n.many == old(n.many)[e := old(n.many)[e] + [neighbour]] && n.one == old(n.one)
  {
    var todo := ns;
    while todo != {}
      invariant todo <= ns
      invariant forall n | n in ns :: n.one == old(n.one)
      invariant forall n | n in ns ::
        n.many == (if n in todo then old(n.many) else old(n.many)[e := old(n.many)[e] + [neighbour]])
      decreases |todo|
    {
      var kn :| kn in todo;
      kn.many := kn.many[e := kn.many[e] + [neighbour]];
      todo := todo - {kn};
    }
  }

  // ---------- Loading one edge ----------

  ghost predicate Distinct(nodes: seq<Node>) {
    forall i, j | 0 <= i < j < |nodes| :: nodes[i] != nodes[j]
  }

  /** The nodes were scanned from the rows, and read the same keys for edge `e`. */
  ghost predicate ScannedFor(e: Edge, nodes: seq<Node>, rows: seq<Row>) {
    && |nodes| == |rows| > 0 && Distinct(nodes)
    && (!Rel(e).M2O? ==> Keyed(rows))
    && forall i | 0 <= i < |nodes| :: NodeKey(e, nodes[i].vals) == NodeKey(e, rows[i])
  }

  /** Many-to-many joins have not been added to the nested builders by an earlier run. */
  ghost predicate Unjoined(p: Plan) {
    p.spec.joins == [] && forall e | e in p.with :: Unjoined(p.with[e])
  }

  /** Only the entry of edge `e` has changed in the nodes. */
  twostate predicate OnlyEdge(nodes: seq<Node>, e: Edge)
    reads nodes
  {
    forall n | n in nodes :: n.one - {e} == old(n.one) - {e} && n.many - {e} == old(n.many) - {e}
  }

  lemma SameWithout<T>(m: map<Edge, T>, m': map<Edge, T>, e: Edge)
    requires m - {e} == m' - {e}
    ensures m.Keys <= m'.Keys + {e}
    ensures forall x | x != e :: (x in m <==> x in m') && (x in m ==> m[x] == m'[x])
  {
    assert (m - {e}).Keys == (m' - {e}).Keys;
    forall x | x != e ensures (x in m <==> x in m') && (x in m ==> m[x] == m'[x]) {
      assert x in m <==> x in m - {e};
      assert x in m' <==> x in m' - {e};
      assert x in m ==> (m - {e})[x] == m[x];
      assert x in m' ==> (m' - {e})[x] == m'[x];
    }
  }

  /** Queries issued by loading edge `e` for `rows`. */
  ghost function LoadQueries(db: DB, e: Edge, rows: seq<Row>, nested: Plan): nat {
    if Keys(e, rows) == [] then 0
    else 1 + Queries(db, Target(e), Fetch(db, e, Keys(e, rows), nested.spec).rows, nested)
  }

  /** What a plan builds depends on the nested builders only, not on the root's own spec. */
  lemma SameNested(db: DB, kind: Kind, rows: seq<Row>, fields: seq<Col>, p: Plan, spec: Spec)
    ensures BatchTrees(db, kind, rows, fields, p.(spec := spec)) == BatchTrees(db, kind, rows, fields, p)
  {
    forall i | 0 <= i < |rows|
      ensures BatchTree(db, kind, rows, i, fields, p.(spec := spec)) == BatchTree(db, kind, rows, i, fields, p)
    {
    }
  }

  /** Every node shows, on edge `e`, those of the trees that are tagged with its key. */
  ghost predicate Shows(e: Edge, nodes: seq<Node>, keys: seq<Option<int>>, ts: seq<Tree>, tags: seq<set<int>>,
                        T: set<object>)
    requires |nodes| == |keys| && |ts| == |tags|
    reads nodes, T
  {
    forall i | 0 <= i < |nodes| ::
      && (Rel(e).M2O? || e in nodes[i].many)
      && RepresentsAll(nodes[i].Neighbours(e), Shown(e, Gather(ts, tags, keys[i])), T)
  }

  /** The neighbours of each node along edge `e`. */
  ghost function NeighbourLists(nodes: seq<Node>, e: Edge): seq<seq<Node>>
    reads nodes
  {
    if nodes == [] then [] else NeighbourLists(nodes[..|nodes| - 1], e) + [nodes[|nodes| - 1].Neighbours(e)]
  }

  lemma {:induction false} NeighbourListsAre(nodes: seq<Node>, e: Edge)
    ensures var lists := NeighbourLists(nodes, e);
            |lists| == |nodes| && forall i | 0 <= i < |nodes| :: lists[i] == nodes[i].Neighbours(e)
  {
    if nodes != [] {
      NeighbourListsAre(nodes[..|nodes| - 1], e);
    }
  }

  /** Two neighbours with the same ID are one object. */
  ghost predicate SameIDSameNode(a: Node, b: Node) {
    ID in a.vals && ID in b.vals && a.vals[ID] == b.vals[ID] ==> a == b
  }

  ghost predicate SameKeySameNodes(lists: seq<seq<Node>>, keys: seq<Option<int>>, i: nat, j: nat)
    requires i < |lists| == |keys| && j < |lists|
  {
    keys[i] == keys[j] ==> lists[i] == lists[j]
  }

  ghost predicate OneObjectPerID(lists: seq<seq<Node>>, i: nat, j: nat)
    requires i < |lists| && j < |lists|
  {
    forall a, b {:trigger SameIDSameNode(a, b)} | a in lists[i] && b in lists[j] :: SameIDSameNode(a, b)
  }

  /** Nodes with the same key have the very same neighbours; and where targets have an ID, those
      with the same ID are one object, whosever neighbours they are. */
  ghost predicate Shared(e: Edge, lists: seq<seq<Node>>, keys: seq<Option<int>>) {
    && |lists| == |keys|
    && (forall i, j {:trigger SameKeySameNodes(lists, keys, i, j)} | 0 <= i < |lists| && 0 <= j < |lists| ::
          SameKeySameNodes(lists, keys, i, j))
    && (forall i, j {:trigger OneObjectPerID(lists, i, j)} | 0 <= i < |lists| && 0 <= j < |lists| ::
          HasID(Target(e)) ==> OneObjectPerID(lists, i, j))
  }

  /** Where targets have an ID, no two of the nodes have the same. */
  ghost predicate OneEach(e: Edge, ns: seq<Node>) {
    HasID(Target(e)) ==> forall a, b {:trigger SameIDSameNode(a, b)} | a in ns && b in ns :: SameIDSameNode(a, b)
  }

  /** Of the nodes that have an ID, no two have the same. */
  ghost predicate OnePerID(ns: set<Node>) {
    forall a, b {:trigger SameIDSameNode(a, b)} | a in ns && b in ns :: SameIDSameNode(a, b)
  }

  /** The neighbours of all the nodes along edge `e`. */
  ghost function Along(ns: set<Node>, e: Edge): set<Node>
    reads ns
  {
    set n, m | n in ns && m in n.Neighbours(e) :: m
  }

  /** At every level below the nodes, within the objects of `T`: whatever is reached from them along
      the same edges and has the same ID is one object. */
  ghost predicate SharedBelow(p: Plan, ns: set<Node>, T: set<object>)
    reads T
    decreases p
  {
    && ns <= T
    && forall e | e in p.with ::
         && (HasID(Target(e)) ==> OnePerID(Along(ns, e)))
         && SharedBelow(p.with[e], Along(ns, e), T)
  }

  lemma {:induction false} SharedPart(p: Plan, ns: set<Node>, ms: set<Node>, T: set<object>, S: set<object>)
    requires SharedBelow(p, ms, T) && ns <= ms && T <= S
    ensures SharedBelow(p, ns, S)
    decreases p
  {
    forall e | e in p.with
      ensures HasID(Target(e)) ==> OnePerID(Along(ns, e))
      ensures SharedBelow(p.with[e], Along(ns, e), S)
    {
      assert Along(ns, e) <= Along(ms, e);
      SharedPart(p.with[e], Along(ns, e), Along(ms, e), T, S);
    }
  }

  lemma {:induction false} NothingBelow(p: Plan, T: set<object>)
    ensures SharedBelow(p, {}, T)
    decreases p
  {
    forall e | e in p.with ensures Along({}, e) == {} && SharedBelow(p.with[e], {}, T) {
      NothingBelow(p.with[e], T);
    }
  }

  /** What is below the root does not depend on the root's own spec. */
  lemma SharedSame(p: Plan, q: Plan, ns: set<Node>, T: set<object>)
    requires SharedBelow(p, ns, T) && p.with == q.with
    ensures SharedBelow(q, ns, T)
  {
  }

  ghost function Members(lists: seq<seq<Node>>): set<Node> {
    set l, n | l in lists && n in l :: n
  }

  /** The neighbours in the lists are shared, and so is everything below them. */
  ghost predicate SharedOn(e: Edge, nested: Plan, lists: seq<seq<Node>>, keys: seq<Option<int>>, T: set<object>)
    reads T
  {
    Shared(e, lists, keys) && SharedBelow(nested, Members(lists), T)
  }

  lemma SharedLists(e: Edge, lists: seq<seq<Node>>, keys: seq<Option<int>>, neighbours: seq<Node>, tags: seq<set<int>>)
    requires |lists| == |keys| && |tags| == |neighbours| && OneEach(e, neighbours)
    requires forall i | 0 <= i < |lists| :: lists[i] == Shown(e, Gather(neighbours, tags, keys[i]))
    ensures Shared(e, lists, keys)
  {
    forall i, j | 0 <= i < |lists| && 0 <= j < |lists| && HasID(Target(e)) ensures OneObjectPerID(lists, i, j) {
      GatherIn(neighbours, tags, keys[i]);
      GatherIn(neighbours, tags, keys[j]);
    }
  }

  lemma SharedAttached(e: Edge, nested: Plan, nodes: seq<Node>, keys: seq<Option<int>>, neighbours: seq<Node>,
                       tags: seq<set<int>>, T: set<object>)
    requires |nodes| == |keys| && |tags| == |neighbours| && OneEach(e, neighbours)
    requires SharedBelow(nested, SetOf(neighbours), T)
    requires forall i | 0 <= i < |nodes| :: Points(nodes[i], e, Gather(neighbours, tags, keys[i]))
    ensures SharedOn(e, nested, NeighbourLists(nodes, e), keys, T)
  {
    var lists := NeighbourLists(nodes, e);
    NeighbourListsAre(nodes, e);
    forall i | 0 <= i < |nodes| ensures lists[i] == Shown(e, Gather(neighbours, tags, keys[i])) {
      PointsShown(nodes[i], e, Gather(neighbours, tags, keys[i]));
    }
    SharedLists(e, lists, keys, neighbours, tags);
    MembersAttached(e, lists, keys, neighbours, tags);
    SharedPart(nested, Members(lists), SetOf(neighbours), T, T);
  }

  lemma MembersAttached(e: Edge, lists: seq<seq<Node>>, keys: seq<Option<int>>, neighbours: seq<Node>,
                        tags: seq<set<int>>)
    requires |lists| == |keys| && |tags| == |neighbours|
    requires forall i | 0 <= i < |lists| :: lists[i] == Shown(e, Gather(neighbours, tags, keys[i]))
    ensures Members(lists) <= SetOf(neighbours)
  {
    forall n | n in Members(lists) ensures n in SetOf(neighbours) {
      var i :| 0 <= i < |lists| && n in lists[i];
      GatherIn(neighbours, tags, keys[i]);
    }
  }

  lemma PointsShown(n: Node, e: Edge, matches: seq<Node>)
    requires Points(n, e, matches)
    ensures n.Neighbours(e) == Shown(e, matches)
  {
  }

  /** Every node shows, on edge `e`, the neighbours that batched loading files under its key, and
      shares them with every other node that shows them. */
  ghost predicate Files(db: DB, e: Edge, nodes: seq<Node>, rows: seq<Row>, nested: Plan, T: set<object>)
    requires |nodes| == |rows|
    reads nodes, T
  {
    && Shows(e, nodes, KeySeq(e, rows), EdgeTrees(db, e, rows, nested),
             Fetch(db, e, Keys(e, rows), nested.spec).tags, T)
    && SharedOn(e, nested, NeighbourLists(nodes, e), KeySeq(e, rows), T)
  }

  lemma ShowsMore(e: Edge, nodes: seq<Node>, keys: seq<Option<int>>, ts: seq<Tree>, tags: seq<set<int>>,
                  T: set<object>, S: set<object>)
    requires |nodes| == |keys| && |ts| == |tags| && Shows(e, nodes, keys, ts, tags, T) && T <= S
    ensures Shows(e, nodes, keys, ts, tags, S)
  {
    forall i | 0 <= i < |nodes| ensures RepresentsAll(nodes[i].Neighbours(e), Shown(e, Gather(ts, tags, keys[i])), S) {
      RepresentsAllMore(nodes[i].Neighbours(e), Shown(e, Gather(ts, tags, keys[i])), T, S);
    }
  }

  /** The map holds, under each key, exactly the nodes that have it. */
  ghost predicate FiledUnderKeys(nodes: seq<Node>, keys: seq<Option<int>>, nodeids: map<int, seq<Node>>) {
    && |nodes| == |keys|
    && (forall i | 0 <= i < |keys| :: keys[i].Some? ==> keys[i].value in nodeids)
    && (forall k | k in nodeids :: Some(k) in keys && forall n | n in nodeids[k] :: n in nodes)
    && (forall k, i | k in nodeids && 0 <= i < |nodes| :: nodes[i] in nodeids[k] <==> keys[i] == Some(k))
  }

  /** Each key once, in order of first appearance. */
  function DistinctKeys(keys: seq<Option<int>>): seq<int> {
    if keys == [] then []
    else
      var front, key := DistinctKeys(keys[..|keys| - 1]), keys[|keys| - 1];
      if key.None? || key.value in front then front else front + [key.value]
  }

  lemma {:induction false} KeysAreDistinctKeys(e: Edge, rows: seq<Row>)
    requires Rel(e).M2O?
    ensures Keys(e, rows) == DistinctKeys(KeySeq(e, rows))
  {
    if rows != [] {
      KeysAreDistinctKeys(e, rows[..|rows| - 1]);
      assert KeySeq(e, rows)[..|rows| - 1] == KeySeq(e, rows[..|rows| - 1]);
    }
  }

  lemma ReadsForeignKeys(e: Edge, nodes: seq<Node>, rows: seq<Row>)
    requires Rel(e).M2O? && ScannedFor(e, nodes, rows)
    ensures Keys(e, rows) == DistinctKeys(KeySeq(e, rows))
    ensures forall i | 0 <= i < |nodes| ::
              KeySeq(e, rows)[i] == if Rel(e).nullable && Rel(e).fk !in nodes[i].vals then None
                                    else Some(GetOr(nodes[i].vals, Rel(e).fk, 0))
  {
    KeysAreDistinctKeys(e, rows);
  }

  /** Files the nodes of a many-to-one edge under their foreign keys. */
  method FileByForeignKey(fkCol: Col, nullable: bool, nodes: seq<Node>, ghost keys: seq<Option<int>>)
    returns (ids: seq<int>, nodeids: map<int, seq<Node>>)
    requires |nodes| == |keys| && Distinct(nodes)
    requires forall i | 0 <= i < |nodes| ::
               keys[i] == if nullable && fkCol !in nodes[i].vals then None else Some(GetOr(nodes[i].vals, fkCol, 0))
    ensures ids == DistinctKeys(keys) && (forall k :: k in nodeids <==> k in ids)
    ensures FiledUnderKeys(nodes, keys, nodeids)
  {
    ids, nodeids := [], map[];
    for i := 0 to |nodes|
      invariant ids == DistinctKeys(keys[..i]) && (forall k :: k in nodeids <==> k in ids)
      invariant FiledUnderKeys(nodes[..i], keys[..i], nodeids)
    {
      assert keys[..i + 1][..i] == keys[..i];
      FiledUnderSnoc(nodes[..i], nodes[i], keys[..i], keys[i], nodeids);
      assert nodes[..i + 1] == nodes[..i] + [nodes[i]] && keys[..i + 1] == keys[..i] + [keys[i]];
      if nullable && fkCol !in nodes[i].vals {
        continue;
      }
      var fk := GetOr(nodes[i].vals, fkCol, 0);
      if fk !in nodeids {
        ids := ids + [fk];
      }
      nodeids := nodeids[fk := (if fk in nodeids then nodeids[fk] else []) + [nodes[i]]];
    }
    assert nodes[..|nodes|] == nodes && keys[..|nodes|] == keys;
  }

  lemma FiledUnderSnoc(nodes: seq<Node>, n: Node, keys: seq<Option<int>>, key: Option<int>,
                       nodeids: map<int, seq<Node>>)
    requires FiledUnderKeys(nodes, keys, nodeids) && n !in nodes
    ensures key.None? ==> FiledUnderKeys(nodes + [n], keys + [key], nodeids)
    ensures key.Some? ==>
              FiledUnderKeys(nodes + [n], keys + [key],
                             nodeids[key.value := (if key.value in nodeids then nodeids[key.value] else []) + [n]])
  {
    assert forall k | k in nodeids :: n !in nodeids[k];
    assert forall k :: Some(k) in keys + [key] <==> Some(k) in keys || Some(k) == key;
    if key.Some? && key.value !in nodeids {
      assert forall i | 0 <= i < |keys| :: keys[i] != key;
    }
  }

  /** Outside many-to-one edges the keys are the nodes' IDs, one each. */
  lemma {:induction false} KeysAreIds(e: Edge, rows: seq<Row>)
    requires !Rel(e).M2O? && Keyed(rows)
    ensures |Keys(e, rows)| == |rows|
    ensures forall i | 0 <= i < |rows| :: Keys(e, rows)[i] == rows[i][ID] && NodeKey(e, rows[i]) == Some(rows[i][ID])
    ensures KeySeq(e, rows) == Somes(Keys(e, rows))
  {
    if rows != [] {
      var front, last := rows[..|rows| - 1], rows[|rows| - 1];
      assert forall i | 0 <= i < |front| :: front[i] == rows[i];
      KeysAreIds(e, front);
      assert NodeKey(e, last) == Some(last[ID]);
    }
  }

  /** The map holds each node under its ID, and nothing else. */
  ghost predicate FiledUnder(nodes: seq<Node>, ids: seq<int>, nodeids: map<int, Node>) {
    && |nodes| == |ids|
    && (forall i | 0 <= i < |ids| :: ids[i] in nodeids && nodeids[ids[i]] == nodes[i])
    && (forall k | k in nodeids :: k in ids)
  }

  /** Files the nodes of a one-to-many or many-to-many edge under their IDs, and gives each an
      empty slice. */
  method FileById(e: Edge, nodes: seq<Node>, ghost keys: seq<int>) returns (ids: seq<int>, nodeids: map<int, Node>)
    requires |nodes| == |keys| && Distinct(nodes)
    requires forall i | 0 <= i < |nodes| :: GetOr(nodes[i].vals, ID, 0) == keys[i]
    requires forall i, j | 0 <= i < j < |keys| :: keys[i] != keys[j]
    modifies set n | n in nodes
    ensures ids == keys && FiledUnder(nodes, ids, nodeids)
    ensures forall n | n in nodes :: e in n.many && n.many[e] == []
    ensures forall n | n in nodes :: n.one == old(n.one) && n.many - {e} == old(n.many) - {e}
  {
    ids, nodeids := [], map[];
    for i := 0 to |nodes|
      invariant ids == keys[..i] && FiledUnder(nodes[..i], ids, nodeids)
      invariant forall j | 0 <= j < |nodes| ::
        && nodes[j].one == old(nodes[j].one)
        && nodes[j].many == (if j < i then old(nodes[j].many)[e := []] else old(nodes[j].many))
    {
      var id := GetOr(nodes[i].vals, ID, 0);
      assert id !in ids;
      ids := ids + [id];
      nodeids := nodeids[id := nodes[i]];
      nodes[i].many := nodes[i].many[e := []];
      assert id in ids;
    }
    assert nodes[..|nodes|] == nodes;
    forall n | n in nodes
      ensures e in n.many && n.many[e] == [] && n.one == old(n.one) && n.many - {e} == old(n.many) - {e}
    {
      var i :| 0 <= i < |nodes| && nodes[i] == n;
      assert n.many == old(n.many)[e := []];
      assert old(n.many)[e := []] - {e} == old(n.many) - {e};
    }
  }

  // ---------- Attaching the neighbours of one edge ----------

  /** The column `col` of each neighbour is set, and is a key of the filing map. */
  ghost predicate KeyedBy(neighbours: seq<Node>, col: Col, filed: set<int>) {
    forall j | 0 <= j < |neighbours| :: col in neighbours[j].vals && neighbours[j].vals[col] in filed
  }

  ghost function SetOf(ns: seq<Node>): set<Node> {
    set n | n in ns
  }

  /** The nodes that a neighbour with this tag is attached to are exactly the owners. */
  ghost predicate Owners(nodes: seq<Node>, keys: seq<Option<int>>, owners: set<Node>, tag: set<int>)
    requires |keys| == |nodes|
  {
    forall i | 0 <= i < |nodes| :: nodes[i] in owners <==> keys[i].Some? && keys[i].value in tag
  }

  lemma GatherStep<T>(xs: seq<T>, tags: seq<set<int>>, j: int, key: Option<int>)
    requires |xs| == |tags| && 0 <= j < |xs|
    ensures Gather(xs[..j + 1], tags[..j + 1], key) ==
            if key.Some? && key.value in tags[j] then Gather(xs[..j], tags[..j], key) + [xs[j]]
            else Gather(xs[..j], tags[..j], key)
  {
    GatherSnoc(xs[..j], xs[j], tags[..j], tags[j], key);
    assert xs[..j + 1] == xs[..j] + [xs[j]] && tags[..j + 1] == tags[..j] + [tags[j]];
  }

  lemma GatherWhole<T>(xs: seq<T>, tags: seq<set<int>>)
    requires |xs| == |tags|
    ensures xs[..|xs|] == xs && tags[..|xs|] == tags
  {
  }

  /** The unique edge `e` points at the last of the matches. */
  ghost predicate Latest(n: Node, e: Edge, matches: seq<Node>)
    reads n
  {
    if matches == [] then e !in n.one else e in n.one && n.one[e] == matches[|matches| - 1]
  }

  /** One neighbour is assigned to all nodes with its key. */
  method AttachOne(e: Edge, nodes: seq<Node>, ghost keys: seq<Option<int>>, targets: seq<Node>,
                   neighbours: seq<Node>, ghost tags: seq<set<int>>, j: nat)
    requires |nodes| == |keys| && Distinct(nodes) && |tags| == |neighbours| && j < |neighbours|
    requires (forall n | n in targets :: n in nodes) && Owners(nodes, keys, SetOf(targets), tags[j])
    requires forall i | 0 <= i < |nodes| :: Latest(nodes[i], e, Gather(neighbours[..j], tags[..j], keys[i]))
    modifies set n | n in nodes
    ensures forall i | 0 <= i < |nodes| :: Latest(nodes[i], e, Gather(neighbours[..j + 1], tags[..j + 1], keys[i]))
    ensures forall i | 0 <= i < |nodes| ::
              nodes[i].many == old(nodes[i].many) && nodes[i].one - {e} == old(nodes[i].one) - {e}
  {
    AssignAll(targets, e, neighbours[j]);
    forall i | 0 <= i < |nodes|
      ensures Latest(nodes[i], e, Gather(neighbours[..j + 1], tags[..j + 1], keys[i]))
      ensures nodes[i].many == old(nodes[i].many) && nodes[i].one - {e} == old(nodes[i].one) - {e}
    {
      GatherStep(neighbours, tags, j, keys[i]);
      assert nodes[i] in SetOf(targets) <==> nodes[i] in targets;
    }
  }

  /** The last loop of the many-to-one loaders. */
  method AttachUnique(e: Edge, nodes: seq<Node>, ghost keys: seq<Option<int>>, nodeids: map<int, seq<Node>>,
                      neighbours: seq<Node>, ghost tags: seq<set<int>>) returns (ok: bool)
    requires Rel(e).M2O? && |nodes| == |keys| && Distinct(nodes)
    requires forall k | k in nodeids :: forall n | n in nodeids[k] :: n in nodes
    requires |tags| == |neighbours| && KeyedBy(neighbours, ID, nodeids.Keys)
    requires forall j | 0 <= j < |neighbours| ::
               Owners(nodes, keys, SetOf(nodeids[neighbours[j].vals[ID]]), tags[j])
    requires forall n | n in nodes :: e !in n.one
    modifies set n | n in nodes
    ensures ok
    ensures forall i | 0 <= i < |nodes| :: Latest(nodes[i], e, Gather(neighbours, tags, keys[i]))
    ensures forall i | 0 <= i < |nodes| ::
              nodes[i].many == old(nodes[i].many) && nodes[i].one - {e} == old(nodes[i].one) - {e}
  {
    for j := 0 to |neighbours|
      invariant forall i | 0 <= i < |nodes| :: Latest(nodes[i], e, Gather(neighbours[..j], tags[..j], keys[i]))
      invariant forall i | 0 <= i < |nodes| :: nodes[i].many == old(nodes[i].many)
      invariant forall i | 0 <= i < |nodes| :: nodes[i].one - {e} == old(nodes[i].one) - {e}
    {
      var n := neighbours[j];
      var id := GetOr(n.vals, ID, 0);
      if id !in nodeids {
        return false;
      }
      AttachOne(e, nodes, keys, nodeids[id], neighbours, tags, j);
    }
    GatherWhole(neighbours, tags);
    ok := true;
  }

  lemma FiledNode(nodes: seq<Node>, ids: seq<int>, nodeids: map<int, Node>, fk: int)
    requires Distinct(nodes) && FiledUnder(nodes, ids, nodeids) && fk in nodeids
    requires forall i, j | 0 <= i < j < |ids| :: ids[i] != ids[j]
    ensures nodeids[fk] in nodes
    ensures forall i | 0 <= i < |nodes| :: nodes[i] == nodeids[fk] <==> ids[i] == fk
  {
    var m :| 0 <= m < |ids| && ids[m] == fk;
  }

  /** One neighbour is appended to the list of the node that it belongs to. */
  method AttachNext(e: Edge, nodes: seq<Node>, ghost keys: seq<Option<int>>, node: Node,
                    neighbours: seq<Node>, ghost tags: seq<set<int>>, j: nat)
    requires |nodes| == |keys| && Distinct(nodes) && |tags| == |neighbours| && j < |neighbours|
    requires node in nodes && Owners(nodes, keys, {node}, tags[j])
    requires forall i | 0 <= i < |nodes| ::
               e in nodes[i].many && nodes[i].many[e] == Gather(neighbours[..j], tags[..j], keys[i])
    modifies set n | n in nodes
    ensures forall i | 0 <= i < |nodes| ::
              e in nodes[i].many && nodes[i].many[e] == Gather(neighbours[..j + 1], tags[..j + 1], keys[i])
    ensures forall i | 0 <= i < |nodes| ::
              nodes[i].one == old(nodes[i].one) && nodes[i].many - {e} == old(nodes[i].many) - {e}
  {
    AppendTo(node, e, neighbours[j]);
    forall i | 0 <= i < |nodes|
      ensures e in nodes[i].many && nodes[i].many[e] == Gather(neighbours[..j + 1], tags[..j + 1], keys[i])
      ensures nodes[i].one == old(nodes[i].one) && nodes[i].many - {e} == old(nodes[i].many) - {e}
    {
      GatherStep(neighbours, tags, j, keys[i]);
      assert nodes[i] in {node} <==> nodes[i] == node;
    }
  }

  /** The last loop of the one-to-many loaders. A nullable foreign key is a pointer, checked
      before it is followed. */
  method AttachSlices(e: Edge, nodes: seq<Node>, ghost keys: seq<Option<int>>, nodeids: map<int, Node>,
                      fkCol: Col, nullable: bool, neighbours: seq<Node>, ghost tags: seq<set<int>>) returns (ok: bool)
    requires Distinct(nodes) && |keys| == |nodes| && |tags| == |neighbours|
    requires forall k | k in nodeids :: nodeids[k] in nodes
    requires KeyedBy(neighbours, fkCol, nodeids.Keys)
    requires forall j | 0 <= j < |neighbours| :: Owners(nodes, keys, {nodeids[neighbours[j].vals[fkCol]]}, tags[j])
    requires forall n | n in nodes :: e in n.many && n.many[e] == []
    modifies set n | n in nodes
    ensures ok
    ensures forall i | 0 <= i < |nodes| :: e in nodes[i].many && nodes[i].many[e] == Gather(neighbours, tags, keys[i])
    ensures forall i | 0 <= i < |nodes| ::
              nodes[i].one == old(nodes[i].one) && nodes[i].many - {e} == old(nodes[i].many) - {e}
  {
    for j := 0 to |neighbours|
      invariant forall i | 0 <= i < |nodes| ::
        e in nodes[i].many && nodes[i].many[e] == Gather(neighbours[..j], tags[..j], keys[i])
      invariant forall i | 0 <= i < |nodes| :: nodes[i].one == old(nodes[i].one)
      invariant forall i | 0 <= i < |nodes| :: nodes[i].many - {e} == old(nodes[i].many) - {e}
    {
      var n := neighbours[j];
      if nullable && fkCol !in n.vals {
        return false;
      }
      var fk := GetOr(n.vals, fkCol, 0);
      if fk !in nodeids {
        return false;
      }
      AttachNext(e, nodes, keys, nodeids[fk], neighbours, tags, j);
    }
    GatherWhole(neighbours, tags);
    ok := true;
  }

  /** The last loop of the many-to-many loaders. */
  method AttachJoined(e: Edge, nodes: seq<Node>, ghost keys: seq<Option<int>>, nids: map<int, set<Node>>,
                      neighbours: seq<Node>, ghost tags: seq<set<int>>) returns (ok: bool)
    requires Distinct(nodes) && |keys| == |nodes| && |tags| == |neighbours|
    requires KeyedBy(neighbours, ID, nids.Keys)
    requires forall k | k in nids :: forall n | n in nids[k] :: n in nodes
    requires forall j | 0 <= j < |neighbours| :: Owners(nodes, keys, nids[neighbours[j].vals[ID]], tags[j])
    requires forall n | n in nodes :: e in n.many && n.many[e] == []
    modifies set n | n in nodes
    ensures ok
    ensures forall i | 0 <= i < |nodes| :: e in nodes[i].many && nodes[i].many[e] == Gather(neighbours, tags, keys[i])
    ensures forall i | 0 <= i < |nodes| ::
              nodes[i].one == old(nodes[i].one) && nodes[i].many - {e} == old(nodes[i].many) - {e}
  {
    for j := 0 to |neighbours|
      invariant forall i | 0 <= i < |nodes| ::
        e in nodes[i].many && nodes[i].many[e] == Gather(neighbours[..j], tags[..j], keys[i])
      invariant forall i | 0 <= i < |nodes| :: nodes[i].one == old(nodes[i].one)
      invariant forall i | 0 <= i < |nodes| :: nodes[i].many - {e} == old(nodes[i].many) - {e}
    {
      var n := neighbours[j];
      var id := GetOr(n.vals, ID, 0);
      if id !in nids {
        return false;
      }
      AppendAll(nids[id], e, n);
      forall i | 0 <= i < |nodes| { GatherStep(neighbours, tags, j, keys[i]); }
    }
    GatherWhole(neighbours, tags);
    ok := true;
  }

  // ---------- Facts about one loader call ----------

  ghost predicate NestedUnjoined(p: Plan) {
    forall e | e in p.with :: Unjoined(p.with[e])
  }

  ghost function KeySeq(e: Edge, rows: seq<Row>): (keys: seq<Option<int>>)
    ensures |keys| == |rows|
    ensures forall i | 0 <= i < |rows| :: keys[i] == NodeKey(e, rows[i])
  {
    seq(|rows|, i requires 0 <= i < |rows| => NodeKey(e, rows[i]))
  }

  lemma PageIn<T>(xs: seq<T>, limit: Option<nat>, offset: Option<nat>)
    ensures forall x | x in Page(xs, limit, offset) :: x in xs
  {
  }

  lemma SelectFacts(db: DB, kind: Kind, spec: Spec)
    requires WellFormed(db)
    ensures forall r | r in Database.Select(db, kind, spec) :: HoldsAll(spec.preds, r)
    ensures HasID(kind) ==> Keyed(Database.Select(db, kind, spec))
  {
    FilterIn(Ordered(spec.order, Table(db, kind)), spec.preds);
    PageIn(Matching(db, kind, spec), spec.limit, spec.offset);
    if HasID(kind) {
      OrderedKeyed(spec.order, Table(db, kind));
    }
  }

  lemma SelectJoinedFacts(db: DB, e: Edge, keys: seq<int>, spec: Spec)
    requires Rel(e).M2M? && WellFormed(db)
    ensures forall p | p in SelectJoined(db, e, keys, spec) :: ID in p.row && p.out in keys
  {
    var rows, joinRows := Matching(db, Target(e), spec), Table(db, Rel(e).join);
    JoinRowsIn(rows, joinRows, Rel(e).outCol, Rel(e).inCol, keys);
    ArrangedAre(db, Join(db, e, keys, spec));
    PageIn(db.arrange(Join(db, e, keys, spec)), spec.limit, spec.offset);
  }

  lemma {:induction false} SameEdgeQueries(db: DB, rows: seq<Row>, es: seq<Edge>, p: Plan, spec: Spec)
    ensures EdgeQueries(db, rows, es, p.(spec := spec)) == EdgeQueries(db, rows, es, p)
    decreases |es|
  {
    if es != [] {
      SameEdgeQueries(db, rows, es[..|es| - 1], p, spec);
    }
  }

  /** The rows, tags and follow-up of a loader call, read off the builder after `AttachTo`. */
  lemma SameAfterAttach(db: DB, e: Edge, rows: seq<Row>, p: Plan)
    requires Keys(e, rows) != []
    ensures var attached := p.(spec := Attach(e, Keys(e, rows), p.spec));
            var found := Fetch(db, e, Keys(e, rows), p.spec).rows;
            && AfterRun(db, found, attached.spec, attached) == AfterLoad(db, e, rows, p)
            && BatchTrees(db, Target(e), found, attached.spec.fields, attached) == EdgeTrees(db, e, rows, p)
            && 1 + Queries(db, Target(e), found, attached) == LoadQueries(db, e, rows, p)
  {
    var attached := p.(spec := Attach(e, Keys(e, rows), p.spec));
    var found := Fetch(db, e, Keys(e, rows), p.spec).rows;
    SameNested(db, Target(e), found, attached.spec.fields, p, attached.spec);
    SameEdgeQueries(db, found, EdgesOf(Target(e)), p, attached.spec);
    SameAfterRun(db, found, attached.spec, attached, p);
  }

  lemma SameAfterRun(db: DB, rows: seq<Row>, spec: Spec, p: Plan, q: Plan)
    requires p.with == q.with
    ensures AfterRun(db, rows, spec, p) == AfterRun(db, rows, spec, q)
  {
    assert AfterRun(db, rows, spec, p).with == AfterRun(db, rows, spec, q).with;
  }

  /** The columns that the nested builder of edge `e` selects. */
  ghost function NestedColumns(e: Edge, nested: Plan): Option<seq<Col>> {
    Columns(Target(e), NestedFields(e, nested.spec.fields), nested.with.Keys)
  }

  /** The columns that loaded neighbours carry. */
  lemma NeighbourVals(db: DB, e: Edge, rows: seq<Row>, nested: Plan, neighbours: seq<Node>, T: set<object>)
    requires RepresentsAll(neighbours, EdgeTrees(db, e, rows, nested), T)
    ensures var found := Fetch(db, e, Keys(e, rows), nested.spec).rows;
            && |neighbours| == |found|
            && forall j | 0 <= j < |found| ::
                 neighbours[j].vals == Project(found[j], NestedColumns(e, nested))
  {
    var found := Fetch(db, e, Keys(e, rows), nested.spec).rows;
    forall j | 0 <= j < |found|
      ensures neighbours[j].vals == Project(found[j], NestedColumns(e, nested))
    {
      assert Represents(neighbours[j], EdgeTrees(db, e, rows, nested)[j], T);
      assert EdgeTrees(db, e, rows, nested)[j] ==
             BatchTree(db, Target(e), found, j, NestedFields(e, nested.spec.fields), nested);
    }
  }

  // ---------- The loaders ----------

  /** On every loaded edge, nodes share the neighbour objects that they have in common. */
  ghost predicate SharedAll(p: Plan, nodes: seq<Node>, rows: seq<Row>)
    reads nodes
  {
    forall e | e in p.with :: Shared(e, NeighbourLists(nodes, e), KeySeq(e, rows))
  }

  lemma FiledIsShared(db: DB, kind: Kind, nodes: seq<Node>, rows: seq<Row>, p: Plan, T: set<object>, S: set<object>)
    requires S == T + set n | n in nodes
    requires |nodes| == |rows| && (forall e | e in p.with :: Source(e) == kind)
    requires FilesAll(db, EdgesOf(kind), nodes, rows, p, T)
    ensures SharedAll(p, nodes, rows) && SharedBelow(p, SetOf(nodes), S)
  {
    forall e | e in p.with ensures SharedOn(e, p.with[e], NeighbourLists(nodes, e), KeySeq(e, rows), S) {
      EdgesOfComplete(e);
      assert Files(db, e, nodes, rows, p.with[e], T);
      SharedPart(p.with[e], Members(NeighbourLists(nodes, e)), Members(NeighbourLists(nodes, e)), T, S);
    }
    forall e | e in p.with
      ensures HasID(Target(e)) ==> OnePerID(Along(SetOf(nodes), e))
      ensures SharedBelow(p.with[e], Along(SetOf(nodes), e), S)
    {
      AlongNodes(nodes, e, KeySeq(e, rows));
    }
  }

  lemma AlongNodes(nodes: seq<Node>, e: Edge, keys: seq<Option<int>>)
    requires Shared(e, NeighbourLists(nodes, e), keys)
    ensures Along(SetOf(nodes), e) == Members(NeighbourLists(nodes, e))
    ensures HasID(Target(e)) ==> OnePerID(Along(SetOf(nodes), e))
  {
    var lists := NeighbourLists(nodes, e);
    NeighbourListsAre(nodes, e);
    forall m ensures m in Along(SetOf(nodes), e) <==> m in Members(lists) {
      if m in Along(SetOf(nodes), e) {
        var i :| 0 <= i < |nodes| && m in nodes[i].Neighbours(e);
        assert lists[i] in lists;
      }
      if m in Members(lists) {
        var i :| 0 <= i < |lists| && m in lists[i];
        assert nodes[i] in SetOf(nodes);
      }
    }
    if HasID(Target(e)) {
      forall a, b | a in Members(lists) && b in Members(lists) ensures SameIDSameNode(a, b) {
        var i :| 0 <= i < |lists| && a in lists[i];
        var j :| 0 <= j < |lists| && b in lists[j];
        assert OneObjectPerID(lists, i, j);
      }
    }
  }

  /** `sqlAll`: one query for the builder's own rows, then one loader call per nested builder. */
  method SqlAll(drv: Driver, q: Query) returns (nodes: seq<Node>, ghost T: set<object>, ok: bool)
    requires q.Valid() && drv !in q.Repr && WellFormed(drv.db) && Unjoined(q.plan)
    modifies drv`queries, q.Repr
    ensures q.Valid() && q.Repr == old(q.Repr)
    ensures ok && fresh(T) && Distinct(nodes)
    ensures var p, rows := old(q.plan), Database.Select(drv.db, q.kind, old(q.plan).spec);
            && RepresentsAll(nodes, BatchTrees(drv.db, q.kind, rows, p.spec.fields, p), T)
            && q.plan == AfterRun(drv.db, rows, p.spec, p)
            && drv.queries == old(drv.queries) + 1 + Queries(drv.db, q.kind, rows, p)
    ensures SharedAll(old(q.plan), nodes, Database.Select(drv.db, q.kind, old(q.plan).spec))
    ensures SharedBelow(old(q.plan), SetOf(nodes), T)
    decreases q.Repr, 6
  {
    ghost var rows := Database.Select(drv.db, q.kind, q.plan.spec);
    var spec := q.ToSpec();
    var cols := q.SelectedColumns();
    var scanned := drv.QueryNodes(q.kind, spec, cols);
    SelectFacts(drv.db, q.kind, q.plan.spec);
    nodes, T, ok := Build(drv, q, scanned, rows);
  }

  /** Allocates a node per scanned row and loads the nested builders into them. */
  method Build(drv: Driver, q: Query, scanned: seq<Row>, ghost rows: seq<Row>)
    returns (nodes: seq<Node>, ghost T: set<object>, ok: bool)
    requires q.Valid() && drv !in q.Repr && WellFormed(drv.db) && NestedUnjoined(q.plan)
    requires scanned == Scans(rows, Columns(q.kind, q.plan.spec.fields, q.plan.with.Keys))
    requires HasID(q.kind) ==> Keyed(rows)
    modifies drv`queries, q.Repr
    ensures q.Valid() && q.Repr == old(q.Repr)
    ensures ok && fresh(T) && Distinct(nodes)
    ensures var p := old(q.plan);
            && RepresentsAll(nodes, BatchTrees(drv.db, q.kind, rows, p.spec.fields, p), T)
            && q.plan == AfterRun(drv.db, rows, p.spec, p)
            && drv.queries == old(drv.queries) + Queries(drv.db, q.kind, rows, p)
    ensures SharedAll(old(q.plan), nodes, rows)
    ensures SharedBelow(old(q.plan), SetOf(nodes), T)
    decreases q.Repr, 5
  {
    nodes := MakeNodes(q.kind, scanned, q.with.Keys);
    T, ok := {}, true;
    if |nodes| > 0 {
      T, ok := Load(drv, q, nodes, rows);
    } else {
      NothingScanned(drv.db, q.kind, nodes, rows, q.plan);
    }
  }

  lemma NothingScanned(db: DB, kind: Kind, nodes: seq<Node>, rows: seq<Row>, p: Plan)
    requires nodes == [] && rows == []
    ensures RepresentsAll(nodes, BatchTrees(db, kind, rows, p.spec.fields, p), {})
    ensures p == AfterRun(db, rows, p.spec, p) && Queries(db, kind, rows, p) == 0
    ensures SharedAll(p, nodes, rows) && SharedBelow(p, SetOf(nodes), {})
  {
    assert SetOf(nodes) == {};
    NothingBelow(p, {});
  }

  /** Loads every nested builder into nodes that have just been scanned. */
  method Load(drv: Driver, q: Query, nodes: seq<Node>, ghost rows: seq<Row>) returns (ghost T: set<object>, ok: bool)
    requires q.Valid() && drv !in q.Repr && WellFormed(drv.db) && NestedUnjoined(q.plan)
    requires |nodes| == |rows| > 0 && Distinct(nodes) && (HasID(q.kind) ==> Keyed(rows))
    requires Scanned(q.kind, nodes, rows, q.plan)
    requires forall n | n in nodes :: n !in q.Repr && n.one == map[] && n.many == map[]
    modifies drv`queries, q.Repr, set n | n in nodes
    ensures q.Valid() && q.Repr == old(q.Repr)
    ensures ok && fresh(T - set n | n in nodes)
    ensures RepresentsAll(nodes, BatchTrees(drv.db, q.kind, rows, old(q.plan).spec.fields, old(q.plan)), T)
    ensures q.plan == AfterRun(drv.db, rows, old(q.plan).spec, old(q.plan))
    ensures drv.queries == old(drv.queries) + Queries(drv.db, q.kind, rows, old(q.plan))
    ensures SharedAll(old(q.plan), nodes, rows)
    ensures SharedBelow(old(q.plan), SetOf(nodes), T)
    decreases q.Repr, 4
  {
    ghost var p := q.plan;
    var es := EdgesOf(q.kind);
    EdgesOfDistinct(q.kind);
    q.EdgesFit();
    T, ok := LoadEdges(drv, q, es, nodes, rows);
    AfterEdgesWith(drv.db, rows, es, p);
    AllEdgesLoaded(drv.db, q.kind, rows, p, q.plan);
    Assemble(drv.db, q.kind, nodes, rows, p, T, T + set n | n in nodes);
    FiledIsShared(drv.db, q.kind, nodes, rows, p, T, T + set n | n in nodes);
    T := T + set n | n in nodes;
  }

  ghost predicate Scanned(kind: Kind, nodes: seq<Node>, rows: seq<Row>, p: Plan)
    requires |nodes| == |rows|
  {
    forall i | 0 <= i < |nodes| ::
      && nodes[i].vals == Project(rows[i], Columns(kind, p.spec.fields, p.with.Keys))
      && nodes[i].loadedTypes == p.with.Keys
  }

  method MakeNodes(kind: Kind, scanned: seq<Row>, loadedTypes: set<Edge>) returns (nodes: seq<Node>)
    ensures |nodes| == |scanned| && Distinct(nodes) && fresh(nodes)
    ensures forall i | 0 <= i < |nodes| ::
              && nodes[i].vals == scanned[i] && nodes[i].loadedTypes == loadedTypes
              && nodes[i].one == map[] && nodes[i].many == map[]
  {
    nodes := [];
    for i := 0 to |scanned|
      invariant |nodes| == i && Distinct(nodes) && fresh(nodes)
      invariant forall j | 0 <= j < i ::
        && nodes[j].vals == scanned[j] && nodes[j].loadedTypes == loadedTypes
        && nodes[j].one == map[] && nodes[j].many == map[]
    {
      var n := new Node(kind, scanned[i], loadedTypes);
      nodes := nodes + [n];
    }
  }

  /** The plan after all edges of the root have been loaded. */
  lemma AllEdgesLoaded(db: DB, kind: Kind, rows: seq<Row>, p: Plan, after: Plan)
    requires rows != [] && (forall e | e in p.with :: Source(e) == kind)
    requires after.spec == p.spec && after.with.Keys == p.with.Keys
    requires forall e | e in p.with && e in EdgesOf(kind) :: after.with[e] == AfterLoad(db, e, rows, p.with[e])
    ensures after == AfterRun(db, rows, p.spec, p)
  {
    forall e | e in p.with ensures after.with[e] == AfterRun(db, rows, p.spec, p).with[e] {
      EdgesOfComplete(e);
    }
    assert after.with == AfterRun(db, rows, p.spec, p).with;
  }

  /** Once every edge is loaded the nodes stand for their trees. */
  lemma Assemble(db: DB, kind: Kind, nodes: seq<Node>, rows: seq<Row>, p: Plan, T: set<object>, S: set<object>)
    requires |nodes| == |rows| && (forall e | e in p.with :: Source(e) == kind)
    requires Scanned(kind, nodes, rows, p)
    requires OnlyEdges(nodes, p.with.Keys) && FilesAll(db, EdgesOf(kind), nodes, rows, p, T)
    requires S == T + set n | n in nodes
    ensures RepresentsAll(nodes, BatchTrees(db, kind, rows, p.spec.fields, p), S)
  {
    forall e | e in p.with ensures Files(db, e, nodes, rows, p.with[e], S) {
      EdgesOfComplete(e);
      FilesMore(db, e, nodes, rows, p.with[e], T, S);
    }
    forall i | 0 <= i < |nodes| ensures Represents(nodes[i], BatchTrees(db, kind, rows, p.spec.fields, p)[i], S) {
      AssembleOne(db, kind, nodes, rows, i, p, S);
    }
  }

  lemma AssembleOne(db: DB, kind: Kind, nodes: seq<Node>, rows: seq<Row>, i: int, p: Plan, S: set<object>)
    requires |nodes| == |rows| && 0 <= i < |nodes| && nodes[i] in S
    requires Scanned(kind, nodes, rows, p)
    requires nodes[i].one.Keys <= p.with.Keys && nodes[i].many.Keys <= p.with.Keys
    requires forall e | e in p.with :: Files(db, e, nodes, rows, p.with[e], S)
    ensures Represents(nodes[i], BatchTree(db, kind, rows, i, p.spec.fields, p), S)
  {
    var n, t := nodes[i], BatchTree(db, kind, rows, i, p.spec.fields, p);
    assert t.vals == n.vals && t.edges.Keys == p.with.Keys;
    forall e | e in p.with
      ensures Rel(e).M2O? || e in n.many
      ensures RepresentsAll(n.Neighbours(e), Shown(e, t.edges[e].trees), S)
    {
      assert t.edges[e] == Branch(BatchEdge(db, e, rows, NodeKey(e, rows[i]), p.with[e]));
      assert Files(db, e, nodes, rows, p.with[e], S);
    }
  }

  /** The sequence of loader calls in `sqlAll`, one per edge that has a nested builder. */
  method LoadEdges(drv: Driver, q: Query, es: seq<Edge>, nodes: seq<Node>, ghost rows: seq<Row>)
    returns (ghost T: set<object>, ok: bool)
    requires q.Valid() && drv !in q.Repr && WellFormed(drv.db) && NestedUnjoined(q.plan)
    requires |nodes| == |rows| > 0 && Distinct(nodes) && (HasID(q.kind) ==> Keyed(rows))
    requires Scanned(q.kind, nodes, rows, q.plan)
    requires forall n | n in nodes :: n !in q.Repr && n.one == map[] && n.many == map[]
    requires forall i, j | 0 <= i < j < |es| :: es[i] != es[j]
    requires forall e | e in es :: Source(e) == q.kind
    modifies drv`queries, q.Repr, set n | n in nodes
    ensures q.Valid() && q.Repr == old(q.Repr)
    ensures ok && fresh(T)
    ensures q.plan == AfterEdges(drv.db, rows, es, old(q.plan))
    ensures FilesAll(drv.db, es, nodes, rows, old(q.plan), T) && OnlyEdges(nodes, LoadedAmong(old(q.plan), es))
    ensures drv.queries == old(drv.queries) + EdgeQueries(drv.db, rows, es, old(q.plan))
    decreases q.Repr, 3, |es|
  {
    ghost var p := q.plan;
    T, ok := {}, true;
    if |es| > 0 {
      var front, e := es[..|es| - 1], es[|es| - 1];
      T, ok := LoadEdges(drv, q, front, nodes, rows);
      AfterEdgesWith(drv.db, rows, front, p);
      T, ok := LoadStep(drv, q, front, e, nodes, rows, p, T);
      assert front + [e] == es;
    }
  }

  /** The part of `sqlAll` that concerns one edge: nothing if it has no nested builder. */
  method LoadStep(drv: Driver, q: Query, ghost done: seq<Edge>, e: Edge, nodes: seq<Node>, ghost rows: seq<Row>,
                  ghost p: Plan, ghost T: set<object>)
    returns (ghost S: set<object>, ok: bool)
    requires q.Valid() && drv !in q.Repr && WellFormed(drv.db) && NestedUnjoined(p)
    requires |nodes| == |rows| > 0 && Distinct(nodes) && (HasID(q.kind) ==> Keyed(rows))
    requires Scanned(q.kind, nodes, rows, p) && e !in done && Source(e) == q.kind
    requires forall n | n in nodes :: n !in q.Repr && n !in T
    requires drv !in T && T !! q.Repr
    requires FilesAll(drv.db, done, nodes, rows, p, T) && OnlyEdges(nodes, LoadedAmong(p, done))
    requires q.plan.with.Keys == p.with.Keys && (e in p.with ==> q.plan.with[e] == p.with[e])
    modifies drv`queries, q.Repr, set n | n in nodes
    ensures q.Valid() && q.Repr == old(q.Repr)
    ensures ok && T <= S && fresh(S - T)
    ensures q.plan == AfterEdge(drv.db, rows, e, p, old(q.plan))
    ensures FilesAll(drv.db, done + [e], nodes, rows, p, S) && OnlyEdges(nodes, LoadedAmong(p, done + [e]))
    ensures drv.queries == old(drv.queries) + if e in p.with then LoadQueries(drv.db, e, rows, p.with[e]) else 0
    decreases q.Repr, 2
  {
    S, ok := T, true;
    assert LoadedAmong(p, done + [e]) == LoadedAmong(p, done) + if e in p.with then {e} else {};
    if e in q.with {
      NodesKeyed(q.kind, e, nodes, rows, p);
      S, ok := LoadNext(drv, q, done, e, nodes, rows, p, T);
    }
  }

  ghost function AfterEdge(db: DB, rows: seq<Row>, e: Edge, p: Plan, front: Plan): Plan {
    if e in p.with then front.(with := front.with[e := AfterLoad(db, e, rows, p.with[e])]) else front
  }

  /** The plan once the edges `es` have been loaded. */
  ghost function AfterEdges(db: DB, rows: seq<Row>, es: seq<Edge>, p: Plan): Plan {
    if es == [] then p
    else
      AfterEdge(db, rows, es[|es| - 1], p, AfterEdges(db, rows, es[..|es| - 1], p))
  }

  lemma {:induction false} AfterEdgesWith(db: DB, rows: seq<Row>, es: seq<Edge>, p: Plan)
    ensures var after := AfterEdges(db, rows, es, p);
            && after.spec == p.spec && after.with.Keys == p.with.Keys
            && forall e | e in p.with ::
                 after.with[e] == if e in es then AfterLoad(db, e, rows, p.with[e]) else p.with[e]
  {
    if es != [] {
      AfterEdgesWith(db, rows, es[..|es| - 1], p);
      assert es == es[..|es| - 1] + [es[|es| - 1]];
    }
  }

  /** Every loaded edge among `es` shows its neighbours. */
  ghost predicate FilesAll(db: DB, es: seq<Edge>, nodes: seq<Node>, rows: seq<Row>, p: Plan, T: set<object>)
    requires |nodes| == |rows|
    reads nodes, T
  {
    forall e | e in p.with && e in es :: Files(db, e, nodes, rows, p.with[e], T)
  }

  ghost predicate OnlyEdges(nodes: seq<Node>, loaded: set<Edge>)
    reads nodes
  {
    forall n | n in nodes :: n.one.Keys <= loaded && n.many.Keys <= loaded
  }

  lemma NodesKeyed(kind: Kind, e: Edge, nodes: seq<Node>, rows: seq<Row>, p: Plan)
    requires |nodes| == |rows| > 0 && Distinct(nodes) && (HasID(kind) ==> Keyed(rows))
    requires Scanned(kind, nodes, rows, p) && e in p.with && Source(e) == kind
    ensures ScannedFor(e, nodes, rows)
  {
    forall i | 0 <= i < |nodes| ensures NodeKey(e, nodes[i].vals) == NodeKey(e, rows[i]) {
      NodeKeyOfScan(kind, p.spec.fields, p.with.Keys, e, rows[i]);
    }
  }

  /** The edges among `es` that the plan loads. */
  ghost function LoadedAmong(p: Plan, es: seq<Edge>): set<Edge> {
    set e | e in es && e in p.with
  }

  lemma FilesMore(db: DB, e: Edge, nodes: seq<Node>, rows: seq<Row>, nested: Plan, T: set<object>, S: set<object>)
    requires |nodes| == |rows| && Files(db, e, nodes, rows, nested, T) && T <= S
    ensures Files(db, e, nodes, rows, nested, S)
  {
    ShowsMore(e, nodes, KeySeq(e, rows), EdgeTrees(db, e, rows, nested),
              Fetch(db, e, Keys(e, rows), nested.spec).tags, T, S);
    SharedPart(nested, Members(NeighbourLists(nodes, e)), Members(NeighbourLists(nodes, e)), T, S);
  }

  /** One loader call, after those of the edges `done`. */
  method LoadNext(drv: Driver, q: Query, ghost done: seq<Edge>, e: Edge, nodes: seq<Node>, ghost rows: seq<Row>,
                  ghost p: Plan, ghost T: set<object>)
    returns (ghost S: set<object>, ok: bool)
    requires q.Valid() && drv !in q.Repr && WellFormed(drv.db) && e in q.with && Unjoined(q.plan.with[e])
    requires ScannedFor(e, nodes, rows) && e !in done
    requires forall n | n in nodes :: n !in q.Repr && e !in n.one && e !in n.many && n !in T
    requires drv !in T && T !! q.Repr
    requires FilesAll(drv.db, done, nodes, rows, p, T)
    requires e in p.with && q.plan.with[e] == p.with[e]
    modifies drv`queries, q.Repr, set n | n in nodes
    ensures q.Valid() && q.Repr == old(q.Repr)
    ensures ok && T <= S && fresh(S - T)
    ensures q.plan == old(q.plan).(with := old(q.plan).with[e := AfterLoad(drv.db, e, rows, p.with[e])])
    ensures FilesAll(drv.db, done + [e], nodes, rows, p, S)
    ensures forall n | n in nodes :: n.one.Keys <= old(n.one).Keys + {e} && n.many.Keys <= old(n.many).Keys + {e}
    ensures drv.queries == old(drv.queries) + LoadQueries(drv.db, e, rows, p.with[e])
    decreases q.Repr, 1
  {
    ghost var U;
    ghost var before := LinksOf(nodes);
    LinksShow(drv.db, done, nodes, before, rows, p, T);
    U, ok := LoadApart(drv, q, e, nodes, rows, p.with[e], before, T);
    S := T + U;
    AllShow(drv.db, done, e, nodes, before, rows, p, T, U);
  }

  /** The same loader call, which leaves alone what earlier ones brought. */
  method LoadApart(drv: Driver, q: Query, e: Edge, nodes: seq<Node>, ghost rows: seq<Row>, ghost p: Plan,
                   ghost links: seq<Links>, ghost T: set<object>) returns (ghost U: set<object>, ok: bool)
    requires q.Valid() && drv !in q.Repr && WellFormed(drv.db) && e in q.with && q.plan.with[e] == p && Unjoined(p)
    requires ScannedFor(e, nodes, rows) && links == LinksOf(nodes)
    requires forall n | n in nodes :: n !in q.Repr && e !in n.one && e !in n.many
    requires drv !in T && T !! q.Repr && T !! (set n | n in nodes)
    modifies drv`queries, q.Repr, set n | n in nodes
    ensures q.Valid() && q.Repr == old(q.Repr)
    ensures ok && fresh(U) && ChangedAt(nodes, links, e) && unchanged(T)
    ensures q.plan == old(q.plan).(with := old(q.plan).with[e := AfterLoad(drv.db, e, rows, p)])
    ensures Files(drv.db, e, nodes, rows, p, U)
    ensures drv.queries == old(drv.queries) + LoadQueries(drv.db, e, rows, p)
    decreases q.Repr, 0, 2
  {
    U, ok := LoadNoting(drv, q, e, nodes, rows, p, links);
  }

  /** The same loader call, with its effect on the nodes said of the links noted before. */
  method LoadNoting(drv: Driver, q: Query, e: Edge, nodes: seq<Node>, ghost rows: seq<Row>, ghost p: Plan,
                    ghost links: seq<Links>) returns (ghost U: set<object>, ok: bool)
    requires q.Valid() && drv !in q.Repr && WellFormed(drv.db) && e in q.with && q.plan.with[e] == p && Unjoined(p)
    requires ScannedFor(e, nodes, rows) && links == LinksOf(nodes)
    requires forall n | n in nodes :: n !in q.Repr && e !in n.one && e !in n.many
    modifies drv`queries, q.Repr, set n | n in nodes
    ensures q.Valid() && q.Repr == old(q.Repr)
    ensures ok && fresh(U) && ChangedAt(nodes, links, e)
    ensures q.plan == old(q.plan).(with := old(q.plan).with[e := AfterLoad(drv.db, e, rows, p)])
    ensures Files(drv.db, e, nodes, rows, p, U)
    ensures drv.queries == old(drv.queries) + LoadQueries(drv.db, e, rows, p)
    decreases q.Repr, 0, 1
  {
    q.NestsUnder(e);
    U, ok := LoadEdge(drv, q, e, q.with[e], nodes, rows);
    forall i | 0 <= i < |nodes|
      ensures nodes[i].one - {e} == links[i].one - {e} && nodes[i].many - {e} == links[i].many - {e}
    {
      assert nodes[i] in nodes;
    }
  }

  /** The nodes' links are those noted before, but for edge `e`. */
  ghost predicate ChangedAt(nodes: seq<Node>, links: seq<Links>, e: Edge)
    reads nodes
  {
    && |links| == |nodes|
    && forall i | 0 <= i < |nodes| ::
         nodes[i].one - {e} == links[i].one - {e} && nodes[i].many - {e} == links[i].many - {e}
  }

  /** The edges loaded before and the one just loaded. */
  lemma AllShow(db: DB, done: seq<Edge>, e: Edge, nodes: seq<Node>, links: seq<Links>, rows: seq<Row>, p: Plan,
                T: set<object>, U: set<object>)
    requires |nodes| == |rows| == |links| && ShowedAll(db, done, links, rows, p, T) && e !in done && e in p.with
    requires Files(db, e, nodes, rows, p.with[e], U)
    requires ChangedAt(nodes, links, e)
    ensures FilesAll(db, done + [e], nodes, rows, p, T + U)
    ensures forall i | 0 <= i < |nodes| ::
              nodes[i].one.Keys <= links[i].one.Keys + {e} && nodes[i].many.Keys <= links[i].many.Keys + {e}
  {
    FewNewLinks(nodes, links, e);
    StillShow(db, done, e, nodes, links, rows, p, T);
    AllFilesMore(db, done, nodes, rows, p, T, T + U);
    FilesMore(db, e, nodes, rows, p.with[e], U, T + U);
  }

  lemma AllFilesMore(db: DB, es: seq<Edge>, nodes: seq<Node>, rows: seq<Row>, p: Plan, T: set<object>, S: set<object>)
    requires |nodes| == |rows| && FilesAll(db, es, nodes, rows, p, T) && T <= S
    ensures FilesAll(db, es, nodes, rows, p, S)
  {
    forall e | e in p.with && e in es ensures Files(db, e, nodes, rows, p.with[e], S) {
      FilesMore(db, e, nodes, rows, p.with[e], T, S);
    }
  }

  /** The links of a node at some moment. */
  datatype Links = Links(one: map<Edge, Node>, many: map<Edge, seq<Node>>)

  ghost function LinksOf(nodes: seq<Node>): (links: seq<Links>)
    reads nodes
    ensures |links| == |nodes|
    ensures forall i | 0 <= i < |nodes| :: links[i] == Links(nodes[i].one, nodes[i].many)
  {
    if nodes == [] then [] else LinksOf(nodes[..|nodes| - 1]) + [Links(nodes[|nodes| - 1].one, nodes[|nodes| - 1].many)]
  }

  ghost function Linked(l: Links, e: Edge): seq<Node> {
    if Rel(e).M2O? then (if e in l.one then [l.one[e]] else []) else if e in l.many then l.many[e] else []
  }

  ghost function LinkedLists(links: seq<Links>, e: Edge): seq<seq<Node>> {
    if links == [] then [] else LinkedLists(links[..|links| - 1], e) + [Linked(links[|links| - 1], e)]
  }

  lemma {:induction false} SameLists(nodes: seq<Node>, links: seq<Links>, e: Edge)
    requires |nodes| == |links| && forall i | 0 <= i < |nodes| :: nodes[i].Neighbours(e) == Linked(links[i], e)
    ensures NeighbourLists(nodes, e) == LinkedLists(links, e)
  {
    if nodes != [] {
      SameLists(nodes[..|nodes| - 1], links[..|links| - 1], e);
    }
  }

  /** `FilesAll` said of links noted at some moment. */
  ghost predicate ShowedAll(db: DB, es: seq<Edge>, links: seq<Links>, rows: seq<Row>, p: Plan, T: set<object>)
    requires |links| == |rows|
    reads T
  {
    forall e | e in p.with && e in es :: Showed(db, e, links, rows, p.with[e], T)
  }

  ghost predicate Showed(db: DB, e: Edge, links: seq<Links>, rows: seq<Row>, nested: Plan, T: set<object>)
    requires |links| == |rows|
    reads T
  {
    var ts, tags := EdgeTrees(db, e, rows, nested), Fetch(db, e, Keys(e, rows), nested.spec).tags;
    && SharedOn(e, nested, LinkedLists(links, e), KeySeq(e, rows), T)
    && forall i | 0 <= i < |links| ::
         && (Rel(e).M2O? || e in links[i].many)
         && RepresentsAll(Linked(links[i], e), Shown(e, Gather(ts, tags, KeySeq(e, rows)[i])), T)
  }

  lemma LinkShows(db: DB, e: Edge, nodes: seq<Node>, links: seq<Links>, rows: seq<Row>, nested: Plan, T: set<object>)
    requires |nodes| == |rows| == |links| && Files(db, e, nodes, rows, nested, T)
    requires forall i | 0 <= i < |nodes| :: links[i] == Links(nodes[i].one, nodes[i].many)
    ensures Showed(db, e, links, rows, nested, T)
  {
    var ts, tags := EdgeTrees(db, e, rows, nested), Fetch(db, e, Keys(e, rows), nested.spec).tags;
    forall i | 0 <= i < |nodes|
      ensures Rel(e).M2O? || e in links[i].many
      ensures nodes[i].Neighbours(e) == Linked(links[i], e)
      ensures RepresentsAll(Linked(links[i], e), Shown(e, Gather(ts, tags, KeySeq(e, rows)[i])), T)
    {
      assert nodes[i].Neighbours(e) == Linked(links[i], e);
    }
    SameLists(nodes, links, e);
  }

  lemma LinksShow(db: DB, es: seq<Edge>, nodes: seq<Node>, links: seq<Links>, rows: seq<Row>, p: Plan, T: set<object>)
    requires |nodes| == |rows| == |links| && FilesAll(db, es, nodes, rows, p, T)
    requires forall i | 0 <= i < |nodes| :: links[i] == Links(nodes[i].one, nodes[i].many)
    ensures ShowedAll(db, es, links, rows, p, T)
  {
    forall e | e in p.with && e in es ensures Showed(db, e, links, rows, p.with[e], T) {
      LinkShows(db, e, nodes, links, rows, p.with[e], T);
    }
  }

  /** What a node whose links changed at `loaded` alone shows elsewhere. */
  lemma OtherLinks(n: Node, l: Links, loaded: Edge, e: Edge)
    requires n.one - {loaded} == l.one - {loaded} && n.many - {loaded} == l.many - {loaded} && e != loaded
    ensures n.Neighbours(e) == Linked(l, e) && (e in n.many <==> e in l.many)
  {
    SameWithout(n.one, l.one, loaded);
    SameWithout(n.many, l.many, loaded);
  }

  lemma StillShows(db: DB, e: Edge, loaded: Edge, nodes: seq<Node>, links: seq<Links>, rows: seq<Row>, nested: Plan,
                   T: set<object>)
    requires |nodes| == |rows| == |links| && Showed(db, e, links, rows, nested, T) && e != loaded
    requires ChangedAt(nodes, links, loaded)
    ensures Files(db, e, nodes, rows, nested, T)
  {
    forall i | 0 <= i < |nodes|
      ensures nodes[i].Neighbours(e) == Linked(links[i], e) && (e in nodes[i].many <==> e in links[i].many)
    {
      OtherLinks(nodes[i], links[i], loaded, e);
    }
    SameLists(nodes, links, e);
  }

  /** Nodes whose links changed at `loaded` alone still show what they showed elsewhere. */
  lemma StillShow(db: DB, es: seq<Edge>, loaded: Edge, nodes: seq<Node>, links: seq<Links>, rows: seq<Row>, p: Plan,
                  T: set<object>)
    requires |nodes| == |rows| == |links| && ShowedAll(db, es, links, rows, p, T) && loaded !in es
    requires ChangedAt(nodes, links, loaded)
    ensures FilesAll(db, es, nodes, rows, p, T)
  {
    forall e | e in p.with && e in es ensures Files(db, e, nodes, rows, p.with[e], T) {
      StillShows(db, e, loaded, nodes, links, rows, p.with[e], T);
    }
  }

  lemma FewNewLinks(nodes: seq<Node>, links: seq<Links>, loaded: Edge)
    requires ChangedAt(nodes, links, loaded)
    ensures forall i | 0 <= i < |nodes| ::
              nodes[i].one.Keys <= links[i].one.Keys + {loaded} && nodes[i].many.Keys <= links[i].many.Keys + {loaded}
  {
    forall i | 0 <= i < |nodes|
      ensures nodes[i].one.Keys <= links[i].one.Keys + {loaded} && nodes[i].many.Keys <= links[i].many.Keys + {loaded}
    {
      SameWithout(nodes[i].one, links[i].one, loaded);
      SameWithout(nodes[i].many, links[i].many, loaded);
    }
  }

  /** Runs the loader of one edge and notes what it left on the nested builder. */
  method LoadEdge(drv: Driver, q: Query, e: Edge, nested: Query, nodes: seq<Node>, ghost rows: seq<Row>)
    returns (ghost T: set<object>, ok: bool)
    requires q.Valid() && q.Nests(e, nested) && nested.Valid()
    requires drv !in q.Repr && WellFormed(drv.db) && Unjoined(nested.plan)
    requires ScannedFor(e, nodes, rows)
    requires forall n | n in nodes :: n !in q.Repr && e !in n.one && e !in n.many
    modifies drv`queries, q`plan, nested.Repr, set n | n in nodes
    ensures q.Valid() && q.Repr == old(q.Repr)
    ensures ok && fresh(T) && OnlyEdge(nodes, e)
    ensures q.plan == old(q.plan).(with := old(q.plan).with[e := AfterLoad(drv.db, e, rows, old(nested.plan))])
    ensures Files(drv.db, e, nodes, rows, old(nested.plan), T)
    ensures drv.queries == old(drv.queries) + LoadQueries(drv.db, e, rows, old(nested.plan))
    decreases q.Repr, 0, 0
  {
    T, ok := LoadUnder(drv, q, e, nested, nodes, rows);
    q.NestedChanged(e);
  }

  /** The same, said of the builder field by field. */
  method LoadUnder(drv: Driver, q: Query, e: Edge, nested: Query, nodes: seq<Node>, ghost rows: seq<Row>)
    returns (ghost T: set<object>, ok: bool)
    requires q in q.Repr && q.ctx in q.Repr && q.Nests(e, nested) && nested.Valid()
    requires drv !in q.Repr && WellFormed(drv.db) && Unjoined(nested.plan)
    requires ScannedFor(e, nodes, rows)
    requires forall n | n in nodes :: n !in q.Repr && e !in n.one && e !in n.many
    modifies drv`queries, q`plan, nested.Repr, set n | n in nodes
    ensures q.with == old(q.with) && q.ctx == old(q.ctx) && q.Repr == old(q.Repr) && q.ToSpec() == old(q.ToSpec())
    ensures unchanged(q.Repr - {q} - nested.Repr)
    ensures ok && fresh(T) && OnlyEdge(nodes, e)
    ensures q.plan == old(q.plan).(with := old(q.plan).with[e := AfterLoad(drv.db, e, rows, old(nested.plan))])
    ensures nested.Valid() && nested.Repr == old(nested.Repr) && nested.plan == q.plan.with[e]
    ensures Files(drv.db, e, nodes, rows, old(nested.plan), T)
    ensures drv.queries == old(drv.queries) + LoadQueries(drv.db, e, rows, old(nested.plan))
    decreases nested.Repr, 12
  {
    q.plan := q.plan.(with := q.plan.with[e := AfterLoad(drv.db, e, rows, nested.plan)]);
    T, ok := LoadBeside(drv, nested, e, nodes, rows, q.Repr - {q} - nested.Repr);
  }

  /** The loader template, which leaves alone what does not belong to the nested builder. */
  method LoadBeside(drv: Driver, q: Query, e: Edge, nodes: seq<Node>, ghost rows: seq<Row>, ghost others: set<object>)
    returns (ghost T: set<object>, ok: bool)
    requires q.Valid() && drv !in q.Repr && WellFormed(drv.db) && Unjoined(q.plan) && q.kind == Target(e)
    requires ScannedFor(e, nodes, rows)
    requires forall n | n in nodes :: n !in q.Repr && e !in n.one && e !in n.many
    requires drv !in others && others !! q.Repr && others !! (set n | n in nodes)
    modifies drv`queries, q.Repr, set n | n in nodes
    ensures q.Valid() && q.Repr == old(q.Repr) && unchanged(others)
    ensures ok && fresh(T) && OnlyEdge(nodes, e)
    ensures q.plan == AfterLoad(drv.db, e, rows, old(q.plan))
    ensures Files(drv.db, e, nodes, rows, old(q.plan), T)
    ensures drv.queries == old(drv.queries) + LoadQueries(drv.db, e, rows, old(q.plan))
    decreases q.Repr, 11
  {
    T, ok := LoadNested(drv, q, e, nodes, rows);
  }

  /** The loader template of the edge's relation. */
  method LoadNested(drv: Driver, q: Query, e: Edge, nodes: seq<Node>, ghost rows: seq<Row>)
    returns (ghost T: set<object>, ok: bool)
    requires q.Valid() && drv !in q.Repr && WellFormed(drv.db) && Unjoined(q.plan) && q.kind == Target(e)
    requires ScannedFor(e, nodes, rows)
    requires forall n | n in nodes :: n !in q.Repr && e !in n.one && e !in n.many
    modifies drv`queries, q.Repr, set n | n in nodes
    ensures q.Valid() && q.Repr == old(q.Repr)
    ensures ok && fresh(T) && OnlyEdge(nodes, e)
    ensures q.plan == AfterLoad(drv.db, e, rows, old(q.plan))
    ensures Files(drv.db, e, nodes, rows, old(q.plan), T)
    ensures drv.queries == old(drv.queries) + LoadQueries(drv.db, e, rows, old(q.plan))
    decreases q.Repr, 10
  {
    match Rel(e) {
      case M2O(_, _) => T, ok := LoadM2O(drv, q, e, nodes, rows);
      case O2M(_, _) => T, ok := LoadO2M(drv, q, e, nodes, rows);
      case M2M(_, _, _) => T, ok := LoadM2M(drv, q, e, nodes, rows);
    }
  }

  method LoadM2O(drv: Driver, q: Query, e: Edge, nodes: seq<Node>, ghost rows: seq<Row>)
    returns (ghost T: set<object>, ok: bool)
    requires Rel(e).M2O?
    requires q.Valid() && drv !in q.Repr && WellFormed(drv.db) && Unjoined(q.plan) && q.kind == Target(e)
    requires ScannedFor(e, nodes, rows)
    requires forall n | n in nodes :: n !in q.Repr && e !in n.one && e !in n.many
    modifies drv`queries, q.Repr, set n | n in nodes
    ensures q.Valid() && q.Repr == old(q.Repr)
    ensures ok && fresh(T) && OnlyEdge(nodes, e)
    ensures q.plan == AfterLoad(drv.db, e, rows, old(q.plan))
    ensures Files(drv.db, e, nodes, rows, old(q.plan), T)
    ensures drv.queries == old(drv.queries) + LoadQueries(drv.db, e, rows, old(q.plan))
    decreases q.Repr, 9
  {
    var ids, nodeids := FileForeignKeys(e, nodes, rows);
    if |ids| == 0 {
      NothingToLoad(drv.db, e, nodes, rows, q.plan);
      return {}, true;
    }
    T, ok := RunM2O(drv, q, e, ids, nodeids, nodes, rows);
  }

  /** Files scanned nodes under the foreign keys of their rows. */
  method FileForeignKeys(e: Edge, nodes: seq<Node>, ghost rows: seq<Row>)
    returns (ids: seq<int>, nodeids: map<int, seq<Node>>)
    requires Rel(e).M2O? && ScannedFor(e, nodes, rows)
    ensures ids == Keys(e, rows) && nodeids.Keys == Elements(ids)
    ensures FiledUnderKeys(nodes, KeySeq(e, rows), nodeids)
  {
    ReadsForeignKeys(e, nodes, rows);
    ids, nodeids := FileByForeignKey(Rel(e).fk, Rel(e).nullable, nodes, KeySeq(e, rows));
    ElementsAre(ids, nodeids.Keys);
  }

  method RunM2O(drv: Driver, q: Query, e: Edge, ids: seq<int>, nodeids: map<int, seq<Node>>, nodes: seq<Node>,
                ghost rows: seq<Row>)
    returns (ghost T: set<object>, ok: bool)
    requires Rel(e).M2O? && ids == Keys(e, rows) && ids != []
    requires |nodes| == |rows| && Distinct(nodes)
    requires FiledUnderKeys(nodes, KeySeq(e, rows), nodeids) && nodeids.Keys == Elements(ids)
    requires q.Valid() && drv !in q.Repr && WellFormed(drv.db) && Unjoined(q.plan) && q.kind == Target(e)
    requires forall n | n in nodes :: n !in q.Repr && e !in n.one
    modifies drv`queries, q.Repr, set n | n in nodes
    ensures q.Valid() && q.Repr == old(q.Repr)
    ensures ok && fresh(T) && OnlyEdge(nodes, e)
    ensures q.plan == AfterLoad(drv.db, e, rows, old(q.plan))
    ensures Files(drv.db, e, nodes, rows, old(q.plan), T)
    ensures drv.queries == old(drv.queries) + LoadQueries(drv.db, e, rows, old(q.plan))
    decreases q.Repr, 8
  {
    ghost var p := q.plan;
    var neighbours;
    neighbours, T, ok := RunBeside(drv, q, e, ids, rows, nodes);
    assert forall n | n in nodes :: n.one == old(n.one) && n.many == old(n.many);
    ok := FileM2O(q, drv.db, e, nodes, rows, p, ids, nodeids, neighbours, T);
    assert drv.queries == old(drv.queries) + LoadQueries(drv.db, e, rows, old(q.plan));
  }

  method FileM2O(ghost q: Query, ghost db: DB, e: Edge, nodes: seq<Node>, ghost rows: seq<Row>, ghost p: Plan,
                 ghost ids: seq<int>, nodeids: map<int, seq<Node>>, neighbours: seq<Node>, ghost T: set<object>)
    returns (ok: bool)
    requires Rel(e).M2O? && ids == Keys(e, rows) && |nodes| == |rows| && Distinct(nodes)
    requires FiledUnderKeys(nodes, KeySeq(e, rows), nodeids) && nodeids.Keys == Elements(ids)
    requires Brought(db, e, rows, p, neighbours, T) && WellFormed(db)
    requires forall n | n in nodes :: n !in T && e !in n.one
    requires q.Valid() && forall n | n in nodes :: n !in q.Repr
    modifies set n | n in nodes
    ensures q.Valid() && q.Repr == old(q.Repr) && q.plan == old(q.plan)
    ensures ok && OnlyEdge(nodes, e) && Files(db, e, nodes, rows, p, T)
  {
    ghost var keys, ts, tags := KeySeq(e, rows), EdgeTrees(db, e, rows, p), Fetch(db, e, Keys(e, rows), p.spec).tags;
    NeighboursOnce(db, e, rows, p, neighbours, T);
    ok := FinishM2O(e, p, nodes, keys, nodeids, neighbours, ts, tags, T);
    ShowsFiles(db, e, nodes, rows, p, keys, ts, tags, T);
    q.StaysValid();
  }

  lemma ShowsFiles(db: DB, e: Edge, nodes: seq<Node>, rows: seq<Row>, nested: Plan, keys: seq<Option<int>>,
                   ts: seq<Tree>, tags: seq<set<int>>, T: set<object>)
    requires |nodes| == |rows| && keys == KeySeq(e, rows) && ts == EdgeTrees(db, e, rows, nested)
    requires tags == Fetch(db, e, Keys(e, rows), nested.spec).tags && Shows(e, nodes, keys, ts, tags, T)
    requires SharedOn(e, nested, NeighbourLists(nodes, e), keys, T)
    ensures Files(db, e, nodes, rows, nested, T)
  {
  }

  /** Attaches what a many-to-one loader brought back. */
  method FinishM2O(e: Edge, ghost nested: Plan, nodes: seq<Node>, ghost keys: seq<Option<int>>,
                   nodeids: map<int, seq<Node>>, neighbours: seq<Node>, ghost ts: seq<Tree>,
                   ghost tags: seq<set<int>>, ghost T: set<object>)
    returns (ok: bool)
    requires Rel(e).M2O? && Distinct(nodes) && FiledUnderKeys(nodes, keys, nodeids)
    requires TaggedBy(neighbours, ID, nodeids.Keys, tags) && RepresentsAll(neighbours, ts, T) && OneEach(e, neighbours)
    requires forall n | n in nodes :: n !in T && e !in n.one
    requires SharedBelow(nested, SetOf(neighbours), T)
    modifies set n | n in nodes
    ensures ok && Shows(e, nodes, keys, ts, tags, T) && OnlyEdge(nodes, e)
    ensures SharedOn(e, nested, NeighbourLists(nodes, e), keys, T)
  {
    OwnersM2O(nodes, keys, nodeids, neighbours, tags);
    ok := AttachUnique(e, nodes, keys, nodeids, neighbours, tags);
    Attached(e, nested, nodes, keys, neighbours, ts, tags, T);
  }

  /** Each neighbour carries one of the keys in column `col`, which is its only tag. */
  ghost predicate TaggedBy(neighbours: seq<Node>, col: Col, keys: set<int>, tags: seq<set<int>>) {
    && |tags| == |neighbours|
    && forall j | 0 <= j < |neighbours| ::
         col in neighbours[j].vals && neighbours[j].vals[col] in keys && tags[j] == {neighbours[j].vals[col]}
  }

  lemma FetchedKeyed(db: DB, e: Edge, keys: seq<int>, spec: Spec)
    requires WellFormed(db) && HasID(Target(e))
    ensures Keyed(Fetch(db, e, keys, spec).rows)
  {
    if Rel(e).M2M? {
      SelectJoinedFacts(db, e, keys, spec);
      FirstAppearancesIn(SelectJoined(db, e, keys, spec));
    } else {
      SelectFacts(db, Target(e), Attach(e, keys, spec));
    }
  }

  lemma NeighboursOnce(db: DB, e: Edge, rows: seq<Row>, nested: Plan, neighbours: seq<Node>, T: set<object>)
    requires WellFormed(db) && RepresentsAll(neighbours, EdgeTrees(db, e, rows, nested), T)
    ensures OneEach(e, neighbours)
  {
    if HasID(Target(e)) {
      NeighbourVals(db, e, rows, nested, neighbours, T);
      FetchedKeyed(db, e, Keys(e, rows), nested.spec);
      KeyedNodes(Fetch(db, e, Keys(e, rows), nested.spec).rows, NestedColumns(e, nested), neighbours);
    }
  }

  lemma KeyedNodes(found: seq<Row>, cols: Option<seq<Col>>, ns: seq<Node>)
    requires Keyed(found) && |ns| == |found| && forall j | 0 <= j < |ns| :: ns[j].vals == Project(found[j], cols)
    ensures forall a, b | a in ns && b in ns :: SameIDSameNode(a, b)
  {
    forall a, b | a in ns && b in ns ensures SameIDSameNode(a, b) {
      var j :| 0 <= j < |ns| && ns[j] == a;
      var k :| 0 <= k < |ns| && ns[k] == b;
    }
  }

  lemma NothingToLoad(db: DB, e: Edge, nodes: seq<Node>, rows: seq<Row>, p: Plan)
    requires |nodes| == |rows| && Rel(e).M2O? && Keys(e, rows) == []
    requires forall n | n in nodes :: e !in n.one
    ensures Files(db, e, nodes, rows, p, {}) && AfterLoad(db, e, rows, p) == p && LoadQueries(db, e, rows, p) == 0
  {
    assert EdgeTrees(db, e, rows, p) == [];
    assert forall i | 0 <= i < |nodes| :: nodes[i] in nodes;
    NothingShared(e, p, nodes, KeySeq(e, rows));
  }

  lemma NothingShared(e: Edge, nested: Plan, nodes: seq<Node>, keys: seq<Option<int>>)
    requires |nodes| == |keys| && Rel(e).M2O? && forall n | n in nodes :: e !in n.one
    ensures SharedOn(e, nested, NeighbourLists(nodes, e), keys, {})
  {
    var lists := NeighbourLists(nodes, e);
    NeighbourListsAre(nodes, e);
    forall i | 0 <= i < |lists| ensures lists[i] == [] {
      assert nodes[i] in nodes;
    }
    assert Members(lists) == {};
    NothingBelow(nested, {});
  }

  /** What running the nested builder `p` for the rows' keys brought back. */
  ghost predicate Brought(db: DB, e: Edge, rows: seq<Row>, p: Plan, neighbours: seq<Node>, T: set<object>)
    requires !Rel(e).M2M?
    reads neighbours, T
  {
    && RepresentsAll(neighbours, EdgeTrees(db, e, rows, p), T)
    && TaggedBy(neighbours, FilingCol(e), Elements(Keys(e, rows)), Fetch(db, e, Keys(e, rows), p.spec).tags)
    && SharedBelow(p, SetOf(neighbours), T)
  }

  /** Attaches the keys to the nested builder and runs it. */
  method RunNested(drv: Driver, q: Query, e: Edge, keys: seq<int>, ghost rows: seq<Row>)
    returns (neighbours: seq<Node>, ghost T: set<object>, ok: bool)
    requires !Rel(e).M2M? && keys == Keys(e, rows) && keys != []
    requires q.Valid() && drv !in q.Repr && WellFormed(drv.db) && Unjoined(q.plan) && q.kind == Target(e)
    modifies drv`queries, q.Repr
    ensures q.Valid() && q.Repr == old(q.Repr)
    ensures ok && fresh(T) && Brought(drv.db, e, rows, old(q.plan), neighbours, T)
    ensures q.plan == AfterLoad(drv.db, e, rows, old(q.plan))
    ensures drv.queries == old(drv.queries) + LoadQueries(drv.db, e, rows, old(q.plan))
    decreases q.Repr, 7, 0
  {
    ghost var p := q.plan;
    q.AttachTo(e, keys);
    neighbours, T, ok := SqlAll(drv, q);
    SharedSame(p.(spec := Attach(e, keys, p.spec)), p, SetOf(neighbours), T);
    SameAfterAttach(drv.db, e, rows, p);
    NeighbourVals(drv.db, e, rows, p, neighbours, T);
    FetchedTags(drv.db, e, keys, p.spec);
    ScannedKeys(e, p, Fetch(drv.db, e, keys, p.spec).rows, neighbours);
  }

  /** The same, which leaves the source nodes alone. */
  method RunBeside(drv: Driver, q: Query, e: Edge, keys: seq<int>, ghost rows: seq<Row>, ghost nodes: seq<Node>)
    returns (neighbours: seq<Node>, ghost T: set<object>, ok: bool)
    requires !Rel(e).M2M? && keys == Keys(e, rows) && keys != []
    requires q.Valid() && drv !in q.Repr && WellFormed(drv.db) && Unjoined(q.plan) && q.kind == Target(e)
    requires forall n | n in nodes :: n !in q.Repr
    modifies drv`queries, q.Repr
    ensures q.Valid() && q.Repr == old(q.Repr)
    ensures ok && fresh(T) && Brought(drv.db, e, rows, old(q.plan), neighbours, T)
    ensures unchanged(nodes) && forall n | n in nodes :: n !in T && n !in q.Repr
    ensures q.plan == AfterLoad(drv.db, e, rows, old(q.plan))
    ensures drv.queries == old(drv.queries) + LoadQueries(drv.db, e, rows, old(q.plan))
    decreases q.Repr, 7, 1
  {
    neighbours, T, ok := RunNested(drv, q, e, keys, rows);
  }

  /** The neighbours were scanned from the rows through the nested builder. */
  ghost predicate HaveVals(e: Edge, nested: Plan, found: seq<Row>, neighbours: seq<Node>) {
    && |neighbours| == |found|
    && forall j | 0 <= j < |found| ::
         neighbours[j].vals == Project(found[j], NestedColumns(e, nested))
  }

  /** The column by which the neighbours of an edge are filed. */
  function FilingCol(e: Edge): Col {
    if Rel(e).O2M? then Rel(e).fk else ID
  }

  lemma ScannedKeys(e: Edge, nested: Plan, found: seq<Row>, neighbours: seq<Node>)
    requires HaveVals(e, nested, found, neighbours)
    ensures forall j | 0 <= j < |found| && FilingCol(e) in found[j] ::
              FilingCol(e) in neighbours[j].vals && neighbours[j].vals[FilingCol(e)] == found[j][FilingCol(e)]
  {
    forall j | 0 <= j < |found| && FilingCol(e) in found[j]
      ensures FilingCol(e) in neighbours[j].vals && neighbours[j].vals[FilingCol(e)] == found[j][FilingCol(e)]
    {
      NeighbourKeyOfScan(e, nested.spec.fields, nested.with.Keys, found[j]);
    }
  }

  lemma FetchedTags(db: DB, e: Edge, keys: seq<int>, spec: Spec)
    requires WellFormed(db) && !Rel(e).M2M?
    ensures var f := Fetch(db, e, keys, spec);
            forall j | 0 <= j < |f.rows| ::
              FilingCol(e) in f.rows[j] && f.rows[j][FilingCol(e)] in keys && f.tags[j] == {f.rows[j][FilingCol(e)]}
  {
    if keys != [] {
      var f, attached := Fetch(db, e, keys, spec), Attach(e, keys, spec);
      SelectFacts(db, Target(e), attached);
      forall j | 0 <= j < |f.rows| ensures FilingCol(e) in f.rows[j] && f.rows[j][FilingCol(e)] in keys {
        assert f.rows[j] in f.rows;
        assert attached.preds[|spec.preds|] == ColIn(FilingCol(e), keys);
        assert Holds(ColIn(FilingCol(e), keys), f.rows[j]);
      }
    }
  }

  lemma OwnersM2O(nodes: seq<Node>, keys: seq<Option<int>>, nodeids: map<int, seq<Node>>, neighbours: seq<Node>,
                  tags: seq<set<int>>)
    requires FiledUnderKeys(nodes, keys, nodeids) && TaggedBy(neighbours, ID, nodeids.Keys, tags)
    ensures KeyedBy(neighbours, ID, nodeids.Keys)
    ensures forall j | 0 <= j < |neighbours| :: Owners(nodes, keys, SetOf(nodeids[neighbours[j].vals[ID]]), tags[j])
  {
    forall j | 0 <= j < |neighbours| ensures Owners(nodes, keys, SetOf(nodeids[neighbours[j].vals[ID]]), tags[j]) {
      var id := neighbours[j].vals[ID];
      assert forall i | 0 <= i < |nodes| :: nodes[i] in nodeids[id] <==> keys[i] == Some(id);
    }
  }

  /** From what the last loop attached to what the nodes now show. */
  lemma ShowsAttached(e: Edge, nodes: seq<Node>, keys: seq<Option<int>>, neighbours: seq<Node>, ts: seq<Tree>,
                      tags: seq<set<int>>, T: set<object>)
    requires |nodes| == |keys| && |tags| == |neighbours| && RepresentsAll(neighbours, ts, T)
    requires forall i | 0 <= i < |nodes| :: Points(nodes[i], e, Gather(neighbours, tags, keys[i]))
    ensures Shows(e, nodes, keys, ts, tags, T)
  {
    forall i | 0 <= i < |nodes|
      ensures Rel(e).M2O? || e in nodes[i].many
      ensures RepresentsAll(nodes[i].Neighbours(e), Shown(e, Gather(ts, tags, keys[i])), T)
    {
      ShowsGathered(nodes[i], e, neighbours, ts, tags, keys[i], T);
    }
  }

  lemma Attached(e: Edge, nested: Plan, nodes: seq<Node>, keys: seq<Option<int>>, neighbours: seq<Node>, ts: seq<Tree>,
                 tags: seq<set<int>>, T: set<object>)
    requires SharedBelow(nested, SetOf(neighbours), T)
    requires |nodes| == |keys| && |tags| == |neighbours| && RepresentsAll(neighbours, ts, T) && OneEach(e, neighbours)
    requires forall i | 0 <= i < |nodes| :: Points(nodes[i], e, Gather(neighbours, tags, keys[i]))
    ensures Shows(e, nodes, keys, ts, tags, T) && SharedOn(e, nested, NeighbourLists(nodes, e), keys, T)
  {
    ShowsAttached(e, nodes, keys, neighbours, ts, tags, T);
    SharedAttached(e, nested, nodes, keys, neighbours, tags, T);
  }

  /** The node's edge holds the given matches: the last of them if it is unique. */
  ghost predicate Points(n: Node, e: Edge, matches: seq<Node>)
    reads n
  {
    if Rel(e).M2O? then Latest(n, e, matches) else e in n.many && n.many[e] == matches
  }

  lemma ShowsGathered(n: Node, e: Edge, neighbours: seq<Node>, ts: seq<Tree>, tags: seq<set<int>>, key: Option<int>,
                      T: set<object>)
    requires RepresentsAll(neighbours, ts, T) && |tags| == |neighbours|
    requires Points(n, e, Gather(neighbours, tags, key))
    ensures Rel(e).M2O? || e in n.many
    ensures RepresentsAll(n.Neighbours(e), Shown(e, Gather(ts, tags, key)), T)
  {
    GatherRepresents(neighbours, ts, tags, key, T);
    assert n.Neighbours(e) == Shown(e, Gather(neighbours, tags, key));
  }

  method LoadO2M(drv: Driver, q: Query, e: Edge, nodes: seq<Node>, ghost rows: seq<Row>)
    returns (ghost T: set<object>, ok: bool)
    requires Rel(e).O2M?
    requires q.Valid() && drv !in q.Repr && WellFormed(drv.db) && Unjoined(q.plan) && q.kind == Target(e)
    requires ScannedFor(e, nodes, rows)
    requires forall n | n in nodes :: n !in q.Repr && e !in n.one && e !in n.many
    modifies drv`queries, q.Repr, set n | n in nodes
    ensures q.Valid() && q.Repr == old(q.Repr)
    ensures ok && fresh(T) && OnlyEdge(nodes, e)
    ensures q.plan == AfterLoad(drv.db, e, rows, old(q.plan))
    ensures Files(drv.db, e, nodes, rows, old(q.plan), T)
    ensures drv.queries == old(drv.queries) + LoadQueries(drv.db, e, rows, old(q.plan))
    decreases q.Repr, 9
  {
    ghost var keys := Keys(e, rows);
    KeysAreIds(e, rows);
    var fks, nodeids := FileById(e, nodes, keys);
    T, ok := RunO2M(drv, q, e, fks, nodeids, nodes, rows);
  }

  method RunO2M(drv: Driver, q: Query, e: Edge, fks: seq<int>, nodeids: map<int, Node>, nodes: seq<Node>,
                ghost rows: seq<Row>)
    returns (ghost T: set<object>, ok: bool)
    requires Rel(e).O2M? && fks == Keys(e, rows) && fks != [] && KeySeq(e, rows) == Somes(fks)
    requires forall i, j | 0 <= i < j < |fks| :: fks[i] != fks[j]
    requires |nodes| == |rows| && Distinct(nodes) && FiledUnder(nodes, fks, nodeids)
    requires q.Valid() && drv !in q.Repr && WellFormed(drv.db) && Unjoined(q.plan) && q.kind == Target(e)
    requires forall n | n in nodes :: n !in q.Repr && e in n.many && n.many[e] == []
    modifies drv`queries, q.Repr, set n | n in nodes
    ensures q.Valid() && q.Repr == old(q.Repr)
    ensures ok && fresh(T) && OnlyEdge(nodes, e)
    ensures q.plan == AfterLoad(drv.db, e, rows, old(q.plan))
    ensures Files(drv.db, e, nodes, rows, old(q.plan), T)
    ensures drv.queries == old(drv.queries) + LoadQueries(drv.db, e, rows, old(q.plan))
    decreases q.Repr, 8
  {
    ghost var p := q.plan;
    var neighbours;
    neighbours, T, ok := RunBeside(drv, q, e, fks, rows, nodes);
    assert forall n | n in nodes :: n.one == old(n.one) && n.many == old(n.many);
    ok := FileO2M(q, drv.db, e, nodes, rows, p, fks, nodeids, neighbours, T);
    assert drv.queries == old(drv.queries) + LoadQueries(drv.db, e, rows, old(q.plan));
  }

  method FileO2M(ghost q: Query, ghost db: DB, e: Edge, nodes: seq<Node>, ghost rows: seq<Row>, ghost p: Plan,
                 ghost fks: seq<int>, nodeids: map<int, Node>, neighbours: seq<Node>, ghost T: set<object>)
    returns (ok: bool)
    requires Rel(e).O2M? && fks == Keys(e, rows) && KeySeq(e, rows) == Somes(fks)
    requires forall i, j | 0 <= i < j < |fks| :: fks[i] != fks[j]
    requires |nodes| == |rows| && Distinct(nodes) && FiledUnder(nodes, fks, nodeids)
    requires Brought(db, e, rows, p, neighbours, T) && WellFormed(db)
    requires forall n | n in nodes :: n !in T && e in n.many && n.many[e] == []
    requires q.Valid() && forall n | n in nodes :: n !in q.Repr
    modifies set n | n in nodes
    ensures q.Valid() && q.Repr == old(q.Repr) && q.plan == old(q.plan)
    ensures ok && OnlyEdge(nodes, e) && Files(db, e, nodes, rows, p, T)
  {
    ghost var ts, tags := EdgeTrees(db, e, rows, p), Fetch(db, e, fks, p.spec).tags;
    NeighboursOnce(db, e, rows, p, neighbours, T);
    ok := FinishO2M(e, p, nodes, fks, nodeids, neighbours, ts, tags, T);
    ShowsFiles(db, e, nodes, rows, p, Somes(fks), ts, tags, T);
    q.StaysValid();
  }

  /** Attaches what a one-to-many loader brought back. */
  method FinishO2M(e: Edge, ghost nested: Plan, nodes: seq<Node>, ghost keys: seq<int>, nodeids: map<int, Node>,
                   neighbours: seq<Node>, ghost ts: seq<Tree>, ghost tags: seq<set<int>>, ghost T: set<object>)
    returns (ok: bool)
    requires Rel(e).O2M? && Distinct(nodes) && FiledUnder(nodes, keys, nodeids)
    requires forall i, j | 0 <= i < j < |keys| :: keys[i] != keys[j]
    requires TaggedBy(neighbours, Rel(e).fk, Elements(keys), tags) && RepresentsAll(neighbours, ts, T)
    requires OneEach(e, neighbours)
    requires forall n | n in nodes :: n !in T && e in n.many && n.many[e] == []
    requires SharedBelow(nested, SetOf(neighbours), T)
    modifies set n | n in nodes
    ensures ok && Shows(e, nodes, Somes(keys), ts, tags, T) && OnlyEdge(nodes, e)
    ensures SharedOn(e, nested, NeighbourLists(nodes, e), Somes(keys), T)
  {
    ok := FillSlices(e, nodes, keys, nodeids, neighbours, tags, T);
    Attached(e, nested, nodes, Somes(keys), neighbours, ts, tags, T);
  }

  /** Fills the nodes' slices, which leaves everything below the neighbours alone. */
  method FillSlices(e: Edge, nodes: seq<Node>, ghost keys: seq<int>, nodeids: map<int, Node>, neighbours: seq<Node>,
                    ghost tags: seq<set<int>>, ghost T: set<object>)
    returns (ok: bool)
    requires Rel(e).O2M? && Distinct(nodes) && FiledUnder(nodes, keys, nodeids)
    requires forall i, j | 0 <= i < j < |keys| :: keys[i] != keys[j]
    requires TaggedBy(neighbours, Rel(e).fk, Elements(keys), tags)
    requires forall n | n in nodes :: n !in T && e in n.many && n.many[e] == []
    modifies set n | n in nodes
    ensures ok && OnlyEdge(nodes, e) && unchanged(T)
    ensures forall i | 0 <= i < |nodes| :: Points(nodes[i], e, Gather(neighbours, tags, Somes(keys)[i]))
  {
    OwnersO2M(nodes, keys, nodeids, Rel(e).fk, neighbours, tags);
    ok := AttachSlices(e, nodes, Somes(keys), nodeids, Rel(e).fk, Rel(e).nullable, neighbours, tags);
  }

  lemma ElementsAre(ids: seq<int>, keys: set<int>)
    requires forall k :: k in keys <==> k in ids
    ensures keys == Elements(ids)
  {
    forall k ensures k in keys <==> k in Elements(ids) {}
  }

  ghost function Elements(keys: seq<int>): set<int> {
    set k | k in keys
  }

  function Somes(keys: seq<int>): (all: seq<Option<int>>)
    ensures |all| == |keys|
  {
    seq(|keys|, i requires 0 <= i < |keys| => Some(keys[i]))
  }

  lemma OwnersO2M(nodes: seq<Node>, keys: seq<int>, nodeids: map<int, Node>, fk: Col, neighbours: seq<Node>,
                  tags: seq<set<int>>)
    requires Distinct(nodes) && FiledUnder(nodes, keys, nodeids)
    requires forall i, j | 0 <= i < j < |keys| :: keys[i] != keys[j]
    requires TaggedBy(neighbours, fk, Elements(keys), tags)
    ensures KeyedBy(neighbours, fk, nodeids.Keys)
    ensures forall k | k in nodeids :: nodeids[k] in nodes
    ensures forall j | 0 <= j < |neighbours| :: Owners(nodes, Somes(keys), {nodeids[neighbours[j].vals[fk]]}, tags[j])
  {
    forall k | k in nodeids ensures nodeids[k] in nodes && Owners(nodes, Somes(keys), {nodeids[k]}, {k}) {
      FiledNode(nodes, keys, nodeids, k);
    }
    forall j | 0 <= j < |neighbours| ensures neighbours[j].vals[fk] in nodeids {
      var id := neighbours[j].vals[fk];
      assert id in keys;
    }
  }

  method LoadM2M(drv: Driver, q: Query, e: Edge, nodes: seq<Node>, ghost rows: seq<Row>)
    returns (ghost T: set<object>, ok: bool)
    requires Rel(e).M2M?
    requires q.Valid() && drv !in q.Repr && WellFormed(drv.db) && Unjoined(q.plan) && q.kind == Target(e)
    requires ScannedFor(e, nodes, rows)
    requires forall n | n in nodes :: n !in q.Repr && e !in n.one && e !in n.many
    modifies drv`queries, q.Repr, set n | n in nodes
    ensures q.Valid() && q.Repr == old(q.Repr)
    ensures ok && fresh(T) && OnlyEdge(nodes, e)
    ensures q.plan == AfterLoad(drv.db, e, rows, old(q.plan))
    ensures Files(drv.db, e, nodes, rows, old(q.plan), T)
    ensures drv.queries == old(drv.queries) + LoadQueries(drv.db, e, rows, old(q.plan))
    decreases q.Repr, 9
  {
    ghost var keys := Keys(e, rows);
    KeysAreIds(e, rows);
    var ids, byID := FileById(e, nodes, keys);
    T, ok := RunM2M(drv, q, e, ids, byID, nodes, rows);
  }

  method RunM2M(drv: Driver, q: Query, e: Edge, ids: seq<int>, byID: map<int, Node>, nodes: seq<Node>,
                ghost rows: seq<Row>)
    returns (ghost T: set<object>, ok: bool)
    requires Rel(e).M2M? && ids == Keys(e, rows) && ids != [] && KeySeq(e, rows) == Somes(ids)
    requires forall i, j | 0 <= i < j < |ids| :: ids[i] != ids[j]
    requires |nodes| == |rows| && Distinct(nodes) && FiledUnder(nodes, ids, byID)
    requires q.Valid() && drv !in q.Repr && WellFormed(drv.db) && Unjoined(q.plan) && q.kind == Target(e)
    requires forall n | n in nodes :: n !in q.Repr && e in n.many && n.many[e] == []
    modifies drv`queries, q.Repr, set n | n in nodes
    ensures q.Valid() && q.Repr == old(q.Repr)
    ensures ok && fresh(T) && OnlyEdge(nodes, e)
    ensures q.plan == AfterLoad(drv.db, e, rows, old(q.plan))
    ensures Files(drv.db, e, nodes, rows, old(q.plan), T)
    ensures drv.queries == old(drv.queries) + LoadQueries(drv.db, e, rows, old(q.plan))
    decreases q.Repr, 8
  {
    ghost var p := q.plan;
    var neighbours, nids;
    neighbours, nids, T, ok := JoinBeside(drv, q, e, ids, byID, rows, nodes);
    assert forall n | n in nodes :: n.one == old(n.one) && n.many == old(n.many);
    ok := FinishJoined(q, drv.db, e, nodes, rows, p, ids, byID, nids, neighbours, T);
    assert drv.queries == old(drv.queries) + LoadQueries(drv.db, e, rows, old(q.plan));
  }

  method FinishJoined(ghost q: Query, ghost db: DB, e: Edge, nodes: seq<Node>, ghost rows: seq<Row>, ghost p: Plan,
                      ghost ids: seq<int>, ghost byID: map<int, Node>, nids: map<int, set<Node>>,
                      neighbours: seq<Node>, ghost T: set<object>)
    returns (ok: bool)
    requires Rel(e).M2M? && ids == Keys(e, rows) && KeySeq(e, rows) == Somes(ids)
    requires forall i, j | 0 <= i < j < |ids| :: ids[i] != ids[j]
    requires |nodes| == |rows| && Distinct(nodes) && FiledUnder(nodes, ids, byID)
    requires JoinBrought(db, e, rows, p, byID, nids, neighbours, T) && WellFormed(db)
    requires forall n | n in nodes :: n !in T && e in n.many && n.many[e] == []
    requires q.Valid() && forall n | n in nodes :: n !in q.Repr
    modifies set n | n in nodes
    ensures q.Valid() && q.Repr == old(q.Repr) && q.plan == old(q.plan)
    ensures ok && OnlyEdge(nodes, e) && Files(db, e, nodes, rows, p, T)
  {
    ghost var joined := SelectJoined(db, e, ids, p.spec);
    ghost var tags, ts := Fetch(db, e, ids, p.spec).tags, EdgeTrees(db, e, rows, p);
    NeighboursOnce(db, e, rows, p, neighbours, T);
    ok := FinishM2M(e, p, nodes, ids, byID, nids, neighbours, ts, tags, FirstAppearances(joined), joined, T);
    ShowsFiles(db, e, nodes, rows, p, Somes(ids), ts, tags, T);
    q.StaysValid();
  }

  /** Attaches what a many-to-many loader brought back. */
  method FinishM2M(e: Edge, ghost nested: Plan, nodes: seq<Node>, ghost keys: seq<int>, ghost byID: map<int, Node>,
                   nids: map<int, set<Node>>, neighbours: seq<Node>, ghost ts: seq<Tree>, ghost tags: seq<set<int>>,
                   ghost found: seq<Row>, ghost joined: seq<Joined>, ghost T: set<object>)
    returns (ok: bool)
    requires Rel(e).M2M? && Distinct(nodes) && FiledUnder(nodes, keys, byID)
    requires forall i, j | 0 <= i < j < |keys| :: keys[i] != keys[j]
    requires forall p | p in joined :: ID in p.row && p.out in keys
    requires SourcesOf(joined, byID, nids) && JoinedIDs(neighbours, found, joined, tags)
    requires RepresentsAll(neighbours, ts, T)
    requires OneEach(e, neighbours)
    requires forall n | n in nodes :: n !in T && e in n.many && n.many[e] == []
    requires SharedBelow(nested, SetOf(neighbours), T)
    modifies set n | n in nodes
    ensures ok && Shows(e, nodes, Somes(keys), ts, tags, T) && OnlyEdge(nodes, e)
    ensures SharedOn(e, nested, NeighbourLists(nodes, e), Somes(keys), T)
  {
    ok := FillJoined(e, nodes, keys, byID, nids, neighbours, tags, found, joined, T);
    Attached(e, nested, nodes, Somes(keys), neighbours, ts, tags, T);
  }

  /** Fills the nodes' slices, which leaves everything below the neighbours alone. */
  method FillJoined(e: Edge, nodes: seq<Node>, ghost keys: seq<int>, ghost byID: map<int, Node>,
                    nids: map<int, set<Node>>, neighbours: seq<Node>, ghost tags: seq<set<int>>,
                    ghost found: seq<Row>, ghost joined: seq<Joined>, ghost T: set<object>)
    returns (ok: bool)
    requires Rel(e).M2M? && Distinct(nodes) && FiledUnder(nodes, keys, byID)
    requires forall i, j | 0 <= i < j < |keys| :: keys[i] != keys[j]
    requires forall p | p in joined :: ID in p.row && p.out in keys
    requires SourcesOf(joined, byID, nids) && JoinedIDs(neighbours, found, joined, tags)
    requires forall n | n in nodes :: n !in T && e in n.many && n.many[e] == []
    modifies set n | n in nodes
    ensures ok && OnlyEdge(nodes, e) && unchanged(T)
    ensures forall i | 0 <= i < |nodes| :: Points(nodes[i], e, Gather(neighbours, tags, Somes(keys)[i]))
  {
    OwnersM2M(nodes, keys, byID, joined, nids, neighbours, found, tags);
    ok := AttachJoined(e, nodes, Somes(keys), nids, neighbours, tags);
  }

  /** The neighbours are the joined targets at their first appearance, tagged with their sources. */
  ghost predicate JoinedIDs(neighbours: seq<Node>, found: seq<Row>, joined: seq<Joined>, tags: seq<set<int>>) {
    && found == FirstAppearances(joined) && tags == JoinTags(found, joined) && |neighbours| == |found|
    && forall j | 0 <= j < |found| ::
         ID in found[j] && ID in neighbours[j].vals && neighbours[j].vals[ID] == found[j][ID]
  }

  /** What running the joined builder `p` for the rows' keys brought back. */
  ghost predicate JoinBrought(db: DB, e: Edge, rows: seq<Row>, p: Plan, byID: map<int, Node>, nids: map<int, set<Node>>,
                              neighbours: seq<Node>, T: set<object>)
    requires Rel(e).M2M?
    reads neighbours, T
  {
    var keys := Keys(e, rows);
    var joined := SelectJoined(db, e, keys, p.spec);
    && RepresentsAll(neighbours, EdgeTrees(db, e, rows, p), T)
    && (forall w | w in joined :: ID in w.row && w.out in keys)
    && SourcesOf(joined, byID, nids)
    && JoinedIDs(neighbours, FirstAppearances(joined), joined, Fetch(db, e, keys, p.spec).tags)
    && SharedBelow(p, SetOf(neighbours), T)
  }

  /** Joins the nested builder with the source keys and runs it. */
  method RunJoined(drv: Driver, q: Query, e: Edge, keys: seq<int>, byID: map<int, Node>, ghost rows: seq<Row>)
    returns (neighbours: seq<Node>, nids: map<int, set<Node>>, ghost T: set<object>, ok: bool)
    requires Rel(e).M2M? && keys == Keys(e, rows) && keys != [] && forall k | k in keys :: k in byID
    requires q.Valid() && drv !in q.Repr && WellFormed(drv.db) && Unjoined(q.plan) && q.kind == Target(e)
    modifies drv`queries, q.Repr
    ensures q.Valid() && q.Repr == old(q.Repr)
    ensures ok && fresh(T) && JoinBrought(drv.db, e, rows, old(q.plan), byID, nids, neighbours, T)
    ensures q.plan == AfterLoad(drv.db, e, rows, old(q.plan))
    ensures drv.queries == old(drv.queries) + LoadQueries(drv.db, e, rows, old(q.plan))
    decreases q.Repr, 7, 0
  {
    ghost var p := q.plan;
    q.AttachTo(e, keys);
    neighbours, nids, T, ok := SqlAllJoined(drv, q, e, keys, byID);
    SharedSame(p.(spec := Attach(e, keys, p.spec)), p, SetOf(neighbours), T);
    ghost var joined := SelectJoined(drv.db, e, keys, p.spec);
    assert SelectJoined(drv.db, e, keys, Attach(e, keys, p.spec)) == joined;
    SameAfterAttach(drv.db, e, rows, p);
    NeighbourVals(drv.db, e, rows, p, neighbours, T);
    SelectJoinedFacts(drv.db, e, keys, p.spec);
    FirstAppearancesIn(joined);
    ScannedKeys(e, p, Fetch(drv.db, e, keys, p.spec).rows, neighbours);
  }

  /** The same, which leaves the source nodes alone. */
  method JoinBeside(drv: Driver, q: Query, e: Edge, keys: seq<int>, byID: map<int, Node>, ghost rows: seq<Row>,
                    ghost nodes: seq<Node>)
    returns (neighbours: seq<Node>, nids: map<int, set<Node>>, ghost T: set<object>, ok: bool)
    requires Rel(e).M2M? && keys == Keys(e, rows) && keys != [] && forall k | k in keys :: k in byID
    requires q.Valid() && drv !in q.Repr && WellFormed(drv.db) && Unjoined(q.plan) && q.kind == Target(e)
    requires forall n | n in nodes :: n !in q.Repr
    modifies drv`queries, q.Repr
    ensures q.Valid() && q.Repr == old(q.Repr)
    ensures ok && fresh(T) && JoinBrought(drv.db, e, rows, old(q.plan), byID, nids, neighbours, T)
    ensures unchanged(nodes) && forall n | n in nodes :: n !in T && n !in q.Repr
    ensures q.plan == AfterLoad(drv.db, e, rows, old(q.plan))
    ensures drv.queries == old(drv.queries) + LoadQueries(drv.db, e, rows, old(q.plan))
    decreases q.Repr, 7, 1
  {
    neighbours, nids, T, ok := RunJoined(drv, q, e, keys, byID, rows);
  }

  /** `sqlAll` with the hook of the many-to-many loaders: joined rows are folded into one node per
      target and, per target, the set of source nodes it belongs to. */
  method SqlAllJoined(drv: Driver, q: Query, e: Edge, keys: seq<int>, byID: map<int, Node>)
    returns (neighbours: seq<Node>, nids: map<int, set<Node>>, ghost T: set<object>, ok: bool)
    requires Rel(e).M2M? && keys != [] && forall k | k in keys :: k in byID
    requires q.Valid() && drv !in q.Repr && WellFormed(drv.db) && NestedUnjoined(q.plan) && q.kind == Target(e)
    modifies drv`queries, q.Repr
    ensures q.Valid() && q.Repr == old(q.Repr)
    ensures ok && fresh(T)
    ensures var p, joined := old(q.plan), SelectJoined(drv.db, e, keys, old(q.plan).spec);
            var rows := FirstAppearances(joined);
            && RepresentsAll(neighbours, BatchTrees(drv.db, Target(e), rows, p.spec.fields, p), T)
            && q.plan == AfterRun(drv.db, rows, p.spec, p)
            && drv.queries == old(drv.queries) + 1 + Queries(drv.db, Target(e), rows, p)
            && SourcesOf(joined, byID, nids)
    ensures SharedBelow(old(q.plan), SetOf(neighbours), T)
    decreases q.Repr, 6
  {
    ghost var joined := SelectJoined(drv.db, e, keys, q.plan.spec);
    var firsts;
    firsts, nids := QueryAndFold(drv, q, e, keys, byID);
    SelectJoinedFacts(drv.db, e, keys, q.plan.spec);
    FirstAppearancesIn(joined);
    neighbours, T, ok := Build(drv, q, firsts, FirstAppearances(joined));
    assert drv.queries == old(drv.queries) + 1 + Queries(drv.db, Target(e), FirstAppearances(joined), old(q.plan));
  }

  /** The joined query, and its rows folded to targets. */
  method QueryAndFold(drv: Driver, q: Query, e: Edge, keys: seq<int>, byID: map<int, Node>)
    returns (firsts: seq<Row>, nids: map<int, set<Node>>)
    requires Rel(e).M2M? && keys != [] && forall k | k in keys :: k in byID
    requires q.Valid() && drv !in q.Repr && WellFormed(drv.db) && q.kind == Target(e)
    modifies drv`queries
    ensures q.Valid() && drv.queries == old(drv.queries) + 1
    ensures var joined := SelectJoined(drv.db, e, keys, q.plan.spec);
            && firsts == Scans(FirstAppearances(joined), Columns(q.kind, q.plan.spec.fields, q.plan.with.Keys))
            && SourcesOf(joined, byID, nids)
  {
    ghost var joined := SelectJoined(drv.db, e, keys, q.plan.spec);
    var spec := q.ToSpec();
    var cols := q.SelectedColumns();
    var scanned := drv.QueryJoined(e, keys, spec, cols);
    SelectJoinedFacts(drv.db, e, keys, q.plan.spec);
    SelectsID(e, q.plan);
    firsts, nids := FoldScanned(joined, cols, scanned, byID);
  }

  /** Folds the scan of joined rows, which keeps their IDs. */
  method FoldScanned(ghost joined: seq<Joined>, ghost cols: Option<seq<Col>>, scanned: seq<Joined>,
                     byID: map<int, Node>)
    returns (firsts: seq<Row>, nids: map<int, set<Node>>)
    requires (forall p | p in joined :: ID in p.row && p.out in byID) && (cols.None? || ID in cols.value)
    requires scanned == JoinScans(joined, cols)
    ensures firsts == Scans(FirstAppearances(joined), cols) && SourcesOf(joined, byID, nids)
  {
    ScanJoined(joined, cols);
    JoinScansIn(joined, cols);
    firsts, nids := FoldJoined(scanned, byID);
    SourcesOfScan(joined, cols, byID, nids);
  }

  lemma SelectsID(e: Edge, p: Plan)
    requires Rel(e).M2M?
    ensures var cols := Columns(Target(e), p.spec.fields, p.with.Keys); cols.None? || ID in cols.value
  {
    if p.spec.fields != [] {
      ColumnsCarryKeys(Target(e), p.spec.fields, p.with.Keys);
      var cols := Columns(Target(e), p.spec.fields, p.with.Keys).value;
      assert cols[0] == ID;
    }
  }

  ghost function OwnersOf(byID: map<int, Node>, outs: set<int>): set<Node> {
    set a | a in outs && a in byID :: byID[a]
  }

  /** `nids` holds, for each joined target, the nodes of the sources it is joined with. */
  ghost predicate SourcesOf(joined: seq<Joined>, byID: map<int, Node>, nids: map<int, set<Node>>) {
    && (forall k :: k in nids <==> k in Ids(FirstAppearances(joined)))
    && (forall k | k in nids :: nids[k] == OwnersOf(byID, OutsOf(joined, k)))
  }

  method FoldJoined(scanned: seq<Joined>, byID: map<int, Node>) returns (firsts: seq<Row>, nids: map<int, set<Node>>)
    requires forall p | p in scanned :: ID in p.row && p.out in byID
    ensures firsts == FirstAppearances(scanned) && SourcesOf(scanned, byID, nids)
  {
    firsts, nids := [], map[];
    for j := 0 to |scanned|
      invariant firsts == FirstAppearances(scanned[..j]) && SourcesOf(scanned[..j], byID, nids)
    {
      var p := scanned[j];
      assert p in scanned;
      var outValue, inValue := p.out, GetOr(p.row, ID, 0);
      SourcesOfSnoc(scanned[..j], p, byID, nids);
      assert scanned[..j + 1] == scanned[..j] + [p];
      if inValue !in nids {
        nids := nids[inValue := {byID[outValue]}];
        firsts := firsts + [p.row];
      } else {
        nids := nids[inValue := nids[inValue] + {byID[outValue]}];
      }
    }
    assert scanned[..|scanned|] == scanned;
  }

  lemma SourcesOfSnoc(joined: seq<Joined>, p: Joined, byID: map<int, Node>, nids: map<int, set<Node>>)
    requires (forall w | w in joined :: ID in w.row) && ID in p.row && p.out in byID && SourcesOf(joined, byID, nids)
    ensures var id := p.row[ID];
            && FirstAppearances(joined + [p]) ==
               (if id in nids then FirstAppearances(joined) else FirstAppearances(joined) + [p.row])
            && SourcesOf(joined + [p], byID, nids[id := (if id in nids then nids[id] else {}) + {byID[p.out]}])
  {
    var id, first := p.row[ID], FirstAppearances(joined);
    assert (joined + [p])[..|joined|] == joined;
    IdsSnoc(first, p.row);
    assert FirstAppearances(joined + [p]) == if id in nids then first else first + [p.row];
    SourcesSnoc(joined, p, byID, nids, nids[id := (if id in nids then nids[id] else {}) + {byID[p.out]}]);
  }

  lemma SourcesSnoc(joined: seq<Joined>, p: Joined, byID: map<int, Node>, nids: map<int, set<Node>>,
                    nids': map<int, set<Node>>)
    requires (forall w | w in joined :: ID in w.row) && ID in p.row && p.out in byID && SourcesOf(joined, byID, nids)
    requires nids' == nids[p.row[ID] := (if p.row[ID] in nids then nids[p.row[ID]] else {}) + {byID[p.out]}]
    requires Ids(FirstAppearances(joined + [p])) == Ids(FirstAppearances(joined)) + {p.row[ID]}
    ensures SourcesOf(joined + [p], byID, nids')
  {
    var id := p.row[ID];
    OutsOfSnoc(joined, p);
    OwnersOfAdd(byID, OutsOf(joined, id), p.out);
    if id !in nids {
      NoOuts(joined, id);
      assert OwnersOf(byID, {}) == {};
    }
    forall k | k in nids' ensures nids'[k] == OwnersOf(byID, OutsOf(joined + [p], k)) {
      assert k != id ==> nids'[k] == nids[k];
    }
  }

  lemma OwnersOfAdd(byID: map<int, Node>, outs: set<int>, a: int)
    requires a in byID
    ensures OwnersOf(byID, outs + {a}) == OwnersOf(byID, outs) + {byID[a]}
  {
  }

  lemma NoOuts(joined: seq<Joined>, id: int)
    requires forall p | p in joined :: ID in p.row
    requires id !in Ids(FirstAppearances(joined))
    ensures OutsOf(joined, id) == {}
  {
    FirstAppearancesIn(joined);
  }

  lemma JoinScansIn(joined: seq<Joined>, cols: Option<seq<Col>>)
    requires (forall p | p in joined :: ID in p.row) && (cols.None? || ID in cols.value)
    ensures forall p | p in JoinScans(joined, cols) :: ID in p.row && exists w :: w in joined && w.out == p.out
  {
    forall p | p in JoinScans(joined, cols) ensures ID in p.row && exists w :: w in joined && w.out == p.out {
      var i :| 0 <= i < |joined| && JoinScans(joined, cols)[i] == p;
      assert joined[i] in joined;
      ProjectKeeps(joined[i].row, cols, ID);
    }
  }

  lemma ScansSnoc(rows: seq<Row>, row: Row, cols: Option<seq<Col>>)
    ensures Scans(rows + [row], cols) == Scans(rows, cols) + [Project(row, cols)]
  {
  }

  /** Scanning one more joined row, whose ID the scan keeps. */
  lemma ScanOneMore(joined: seq<Joined>, p: Joined, scans: seq<Joined>, scan: Joined, cols: Option<seq<Col>>)
    requires ID in p.row && scan == Joined(p.out, Project(p.row, cols)) && ID in scan.row && scan.row[ID] == p.row[ID]
    requires FirstAppearances(scans) == Scans(FirstAppearances(joined), cols)
    requires Ids(FirstAppearances(scans)) == Ids(FirstAppearances(joined))
    ensures FirstAppearances(scans + [scan]) == Scans(FirstAppearances(joined + [p]), cols)
    ensures Ids(FirstAppearances(scans + [scan])) == Ids(FirstAppearances(joined + [p]))
  {
    FirstAppearancesSnoc(joined, p);
    FirstAppearancesSnoc(scans, scan);
    IdsSnoc(FirstAppearances(joined), p.row);
    IdsSnoc(FirstAppearances(scans), scan.row);
    ScansSnoc(FirstAppearances(joined), p.row, cols);
  }

  lemma JoinScansSnoc(joined: seq<Joined>, p: Joined, cols: Option<seq<Col>>)
    ensures JoinScans(joined + [p], cols) == JoinScans(joined, cols) + [Joined(p.out, Project(p.row, cols))]
  {
  }

  /** Scanning keeps the ID of every joined row, hence what the fold depends on. */
  lemma {:induction false} ScanJoined(joined: seq<Joined>, cols: Option<seq<Col>>)
    requires (forall p | p in joined :: ID in p.row) && (cols.None? || ID in cols.value)
    ensures FirstAppearances(JoinScans(joined, cols)) == Scans(FirstAppearances(joined), cols)
    ensures Ids(FirstAppearances(JoinScans(joined, cols))) == Ids(FirstAppearances(joined))
  {
    if joined != [] {
      var front, last := joined[..|joined| - 1], joined[|joined| - 1];
      ScanJoined(front, cols);
      assert joined == front + [last];
      ProjectKeeps(last.row, cols, ID);
      JoinScansSnoc(front, last, cols);
      ScanOneMore(front, last, JoinScans(front, cols), Joined(last.out, Project(last.row, cols)), cols);
    }
  }

  lemma SourcesOfScan(joined: seq<Joined>, cols: Option<seq<Col>>, byID: map<int, Node>, nids: map<int, set<Node>>)
    requires (forall p | p in joined :: ID in p.row) && (cols.None? || ID in cols.value)
    requires SourcesOf(JoinScans(joined, cols), byID, nids)
    ensures SourcesOf(joined, byID, nids)
  {
    ScanJoined(joined, cols);
    JoinScansIn(joined, cols);
    var scans := JoinScans(joined, cols);
    forall k ensures OutsOf(scans, k) == OutsOf(joined, k) {
      forall a ensures a in OutsOf(scans, k) <==> a in OutsOf(joined, k) {
        if a in OutsOf(joined, k) {
          var i :| 0 <= i < |joined| && ID in joined[i].row && joined[i].row[ID] == k && joined[i].out == a;
          ProjectKeeps(joined[i].row, cols, ID);
          assert scans[i] in scans;
        }
        if a in OutsOf(scans, k) {
          var i :| 0 <= i < |scans| && ID in scans[i].row && scans[i].row[ID] == k && scans[i].out == a;
          ProjectKeeps(joined[i].row, cols, ID);
          assert joined[i] in joined;
        }
      }
    }
  }

  lemma OwnersM2M(nodes: seq<Node>, keys: seq<int>, byID: map<int, Node>, joined: seq<Joined>,
                  nids: map<int, set<Node>>, neighbours: seq<Node>, found: seq<Row>, tags: seq<set<int>>)
    requires Distinct(nodes) && FiledUnder(nodes, keys, byID)
    requires forall i, j | 0 <= i < j < |keys| :: keys[i] != keys[j]
    requires forall p | p in joined :: ID in p.row && p.out in keys
    requires SourcesOf(joined, byID, nids) && JoinedIDs(neighbours, found, joined, tags)
    ensures KeyedBy(neighbours, ID, nids.Keys)
    ensures forall k | k in nids :: forall n | n in nids[k] :: n in nodes
    ensures forall j | 0 <= j < |neighbours| :: Owners(nodes, Somes(keys), nids[neighbours[j].vals[ID]], tags[j])
  {
    forall k | k in nids ensures forall n | n in nids[k] :: n in nodes {
      forall n | n in nids[k] ensures n in nodes {
        var a :| a in OutsOf(joined, k) && a in byID && byID[a] == n;
        FiledNode(nodes, keys, byID, a);
      }
    }
    forall j | 0 <= j < |neighbours|
      ensures neighbours[j].vals[ID] in nids && Owners(nodes, Somes(keys), nids[neighbours[j].vals[ID]], tags[j])
    {
      assert found[j] in found;
      OwnersJoined(nodes, keys, byID, OutsOf(joined, found[j][ID]));
    }
  }

  lemma OwnersJoined(nodes: seq<Node>, keys: seq<int>, byID: map<int, Node>, outs: set<int>)
    requires Distinct(nodes) && FiledUnder(nodes, keys, byID)
    requires forall i, j | 0 <= i < j < |keys| :: keys[i] != keys[j]
    ensures Owners(nodes, Somes(keys), OwnersOf(byID, outs), outs)
  {
    forall i | 0 <= i < |nodes| ensures nodes[i] in OwnersOf(byID, outs) <==> Somes(keys)[i].value in outs {
      assert byID[keys[i]] == nodes[i];
      forall a | a in outs && a in byID && byID[a] == nodes[i] ensures a == keys[i] {
        FiledNode(nodes, keys, byID, a);
      }
    }
  }
}
