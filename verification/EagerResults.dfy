/** The eager loader seen from its callers: what `All` returns, what a second run returns, what
    the edge accessors tell, and what each loader conserves. */
module EagerResults {
  import opened Wrappers
  import opened Schema
  import opened Database
  import opened EagerPlan
  import opened EagerRuns
  import opened EagerOrder
  import opened EagerEdges
  import opened EagerColumns
  import opened QueryBuilder
  import opened EagerLoader

  // ---------- Running a builder ----------

  /** The trees that one lookup per row, level by level, gives. */
  ghost function NaiveAll(db: DB, kind: Kind, p: Plan): (ts: seq<Tree>) {
    var rows := Database.Select(db, kind, p.spec);
    seq(|rows|, i requires 0 <= i < |rows| => NaiveTree(db, kind, rows[i], p.spec.fields, p))
  }

  /** The trees that the batched loaders give, with joined rows in the database's order. */
  ghost function BatchAll(db: DB, kind: Kind, p: Plan): (ts: seq<Tree>) {
    BatchTrees(db, kind, Database.Select(db, kind, p.spec), p.spec.fields, p)
  }

  lemma BatchAllIsNaive(db: DB, kind: Kind, p: Plan)
    requires WellFormed(db) && NoNestedPaging(p)
    ensures PairwiseAlike(BatchAll(db, kind, p), NaiveAll(db, kind, p))
    ensures Orderly(db, p) ==> BatchAll(db, kind, p) == NaiveAll(db, kind, p)
  {
    BatchIsAlike(db, kind, Database.Select(db, kind, p.spec), p.spec.fields, p);
    if Orderly(db, p) {
      BatchIsNaive(db, kind, Database.Select(db, kind, p.spec), p.spec.fields, p);
    }
  }

  lemma SelectionNarrows(db: DB, kind: Kind, p: Plan)
    ensures NarrowsAll(BatchAll(db, kind, p), BatchAll(db, kind, Wide(p)))
  {
    var rows := Database.Select(db, kind, p.spec);
    assert Database.Select(db, kind, Wide(p).spec) == rows;
    SelectionKeepsEdges(db, kind, rows, p.spec.fields, p);
  }

  /** `All`: whatever the database and the nested plan, the object graph unfolds to trees that show
      at every level, on every edge, the rows to which the edge's columns lead. They are the
      row-by-row trees but for the order of many-to-many neighbours, and exactly these if joins
      return their rows in target order or there are none; with at most one query per builder.
      Whatever columns are selected at whatever level, they are the trees without selections,
      showing some of the columns; and at every level nodes share the neighbour objects that
      they have in common. */
  method All(drv: Driver, q: Query) returns (nodes: seq<Node>, ghost T: set<object>, ok: bool)
    requires q.Valid() && drv !in q.Repr && WellFormed(drv.db) && Unjoined(q.plan) && NoNestedPaging(q.plan)
    modifies drv`queries, q.Repr
    ensures ok && fresh(T) && Distinct(nodes)
    ensures RepresentsAll(nodes, BatchAll(drv.db, q.kind, old(q.plan)), T)
    ensures PairwiseAlike(BatchAll(drv.db, q.kind, old(q.plan)), NaiveAll(drv.db, q.kind, old(q.plan)))
    ensures AllRight(drv.db, Database.Select(drv.db, q.kind, old(q.plan).spec), old(q.plan).spec.fields, old(q.plan),
                     BatchAll(drv.db, q.kind, old(q.plan)))
    ensures Orderly(drv.db, old(q.plan)) ==> RepresentsAll(nodes, NaiveAll(drv.db, q.kind, old(q.plan)), T)
    ensures NarrowsAll(BatchAll(drv.db, q.kind, old(q.plan)), BatchAll(drv.db, q.kind, Wide(old(q.plan))))
    ensures SharedAll(old(q.plan), nodes, Database.Select(drv.db, q.kind, old(q.plan).spec))
    ensures SharedBelow(old(q.plan), SetOf(nodes), T)
    ensures old(drv.queries) + 1 <= drv.queries <= old(drv.queries) + 1 + NestedBuilders(EdgesOf(q.kind), old(q.plan))
    ensures nodes == [] ==> drv.queries == old(drv.queries) + 1
    ensures q.Valid() && q.Repr == old(q.Repr)
    ensures q.plan == AfterRun(drv.db, Database.Select(drv.db, q.kind, old(q.plan).spec), old(q.plan).spec, old(q.plan))
  {
    ghost var p := q.plan;
    ghost var rows := Database.Select(drv.db, q.kind, p.spec);
    nodes, T, ok := SqlAll(drv, q);
    BatchAllIsNaive(drv.db, q.kind, p);
    BatchIsRight(drv.db, q.kind, rows, p.spec.fields, p.spec.fields, p);
    SelectionNarrows(drv.db, q.kind, p);
    QueriesBounded(drv.db, q.kind, rows, p);
  }

  lemma {:induction false} UnjoinedAfterRun(db: DB, rows: seq<Row>, spec: Spec, p: Plan)
    requires (forall e | e in p.with :: Unjoined(p.with[e])) && NoManyToMany(p) && spec.joins == []
    ensures Unjoined(AfterRun(db, rows, spec, p))
    decreases p
  {
    forall e | e in p.with && rows != [] ensures Unjoined(AfterLoad(db, e, rows, p.with[e])) {
      var keys, nested := Keys(e, rows), p.with[e];
      if keys != [] {
        UnjoinedAfterRun(db, Fetch(db, e, keys, nested.spec).rows, Attach(e, keys, nested.spec), nested);
      }
    }
  }

  /** Running a builder twice over an unchanged database gives the same trees both times. */
  method AllTwice(drv: Driver, q: Query)
    returns (first: seq<Node>, second: seq<Node>, ghost T: set<object>, ghost U: set<object>)
    requires q.Valid() && drv !in q.Repr && WellFormed(drv.db)
    requires Unjoined(q.plan) && NoNestedPaging(q.plan) && NoManyToMany(q.plan)
    modifies drv`queries, q.Repr
    ensures RepresentsAll(first, NaiveAll(drv.db, q.kind, old(q.plan)), T)
    ensures RepresentsAll(second, NaiveAll(drv.db, q.kind, old(q.plan)), U) && T !! U
  {
    ghost var p := q.plan;
    ghost var rows := Database.Select(drv.db, q.kind, p.spec);
    var ok;
    first, T, ok := All(drv, q);
    UnjoinedAfterRun(drv.db, rows, p.spec, p);
    PagingAfterRun(drv.db, rows, p.spec, p);
    RerunBuildsSameTrees(drv.db, q.kind, p.spec, p);
    NoManyAfterRun(drv.db, rows, p.spec, p);
    BatchAllIsNaive(drv.db, q.kind, p);
    BatchAllIsNaive(drv.db, q.kind, q.plan);
    second, U, ok := All(drv, q);
  }

  // ---------- Clones ----------

  /** A call made on the original builder or on its clone. */
  datatype Call = OnOriginal(op: Op) | OnClone(op: Op)

  function OpsOn(calls: seq<Call>, original: bool): seq<Op> {
    if calls == [] then []
    else
      var front, c := OpsOn(calls[..|calls| - 1], original), calls[|calls| - 1];
      if c.OnOriginal? == original then front + [c.op] else front
  }

  /** After cloning, calls on the original and on the clone do not see each other, however they
      are interleaved. */
  method CloneAndConfigure(q: Query, calls: seq<Call>) returns (c: Query)
    requires q.Valid() && forall i | 0 <= i < |calls| :: OpFits(q.kind, calls[i].op)
    modifies q.Repr
    ensures q.Valid() && c.Valid() && c.Repr !! q.Repr && c.kind == q.kind
    ensures q.plan == ApplyAll(old(q.plan), OpsOn(calls, true))
    ensures c.plan == ApplyAll(Unlocked(old(q.plan)), OpsOn(calls, false))
  {
    c := q.Clone();
    for k := 0 to |calls|
      invariant q.Valid() && c.Valid() && c.Repr !! q.Repr && c.kind == q.kind
      invariant fresh(c.Repr) && fresh(q.Repr - old(q.Repr))
      invariant q.plan == ApplyAll(old(q.plan), OpsOn(calls[..k], true))
      invariant c.plan == ApplyAll(Unlocked(old(q.plan)), OpsOn(calls[..k], false))
    {
      assert calls[..k + 1] == calls[..k] + [calls[k]];
      AfterCall(old(q.plan), calls[..k], calls[k], true);
      AfterCall(Unlocked(old(q.plan)), calls[..k], calls[k], false);
      CallOne(q, c, calls[k]);
    }
    assert calls[..|calls|] == calls;
  }

  lemma AfterCall(p: Plan, calls: seq<Call>, c: Call, original: bool)
    ensures var before := ApplyAll(p, OpsOn(calls, original));
            ApplyAll(p, OpsOn(calls + [c], original)) ==
            if c.OnOriginal? == original then Apply(before, c.op) else before
  {
    assert (calls + [c])[..|calls|] == calls;
    ApplyAllSnoc(p, OpsOn(calls, original), c.op);
  }

  method CallOne(q: Query, c: Query, call: Call)
    requires q.Valid() && c.Valid() && c.Repr !! q.Repr && c.kind == q.kind && OpFits(q.kind, call.op)
    modifies q.Repr, c.Repr
    ensures q.Valid() && c.Valid() && c.Repr !! q.Repr
    ensures fresh(q.Repr - old(q.Repr)) && fresh(c.Repr - old(c.Repr))
    ensures q.plan == if call.OnOriginal? then Apply(old(q.plan), call.op) else old(q.plan)
    ensures c.plan == if call.OnClone? then Apply(old(c.plan), call.op) else old(c.plan)
  {
    match call
    case OnOriginal(op) => q.Run(op);
    case OnClone(op) => c.Run(op);
  }

  lemma ApplyAllSnoc(p: Plan, ops: seq<Op>, op: Op)
    ensures ApplyAll(p, ops + [op]) == Apply(ApplyAll(p, ops), op)
  {
    assert (ops + [op])[..|ops|] == ops;
  }

  // ---------- Edge accessors ----------

  datatype EdgeResult<T> = Loaded(value: T) | NotFound | NotLoaded

  /** `ProxyOrErr`, `ParentOrErr`, ... */
  function UniqueOrErr(n: Node, e: Edge): EdgeResult<Node>
    reads n
  {
    if e in n.one then Loaded(n.one[e])
    else if e in n.loadedTypes then NotFound
    else NotLoaded
  }

  /** `GroupsOrErr`, `ChildrenOrErr`, ...: a nil slice reads as an empty one. */
  function SliceOrErr(n: Node, e: Edge): EdgeResult<seq<Node>>
    reads n
  {
    if e in n.loadedTypes then Loaded(if e in n.many then n.many[e] else []) else NotLoaded
  }

  /** The accessors tell an edge that was not asked for from one without neighbours, and give
      exactly the neighbours of the tree. */
  lemma AccessorsReadTree(n: Node, t: Tree, S: set<object>, e: Edge)
    requires Represents(n, t, S)
    ensures Rel(e).M2O? ==>
              match UniqueOrErr(n, e)
              case NotLoaded => e !in t.edges
              case NotFound => e in t.edges && t.edges[e].trees == []
              case Loaded(m) => e in t.edges && t.edges[e].trees != []
                                && Represents(m, t.edges[e].trees[|t.edges[e].trees| - 1], S)
    ensures !Rel(e).M2O? ==>
              match SliceOrErr(n, e)
              case NotLoaded => e !in t.edges
              case NotFound => false
              case Loaded(ms) => e in t.edges && RepresentsAll(ms, t.edges[e].trees, S)
  {
    if e in t.edges && Rel(e).M2O? && e in n.one {
      assert n.Neighbours(e) == [n.one[e]];
      assert Represents(n.Neighbours(e)[0], Shown(e, t.edges[e].trees)[0], S);
    }
  }

  lemma FirstTwoDiffer(rows: seq<Row>)
    requires Keyed(rows) && |rows| > 1
    ensures rows[0][ID] != rows[1][ID]
  {
  }

  lemma AtMostOne(rows: seq<Row>, id: int)
    requires Keyed(rows) && forall i | 0 <= i < |rows| :: rows[i][ID] == id
    ensures |rows| <= 1
  {
    if |rows| > 1 {
      FirstTwoDiffer(rows);
    }
  }

  /** A unique edge never has more than one neighbour to show. */
  lemma UniqueHasAtMostOne(db: DB, row: Row, e: Edge, nested: Plan)
    requires WellFormed(db) && Rel(e).M2O?
    ensures |NaiveEdge(db, row, e, nested)| <= 1
  {
    var key := NodeKey(e, row);
    if key.Some? {
      var spec := nested.spec.(preds := nested.spec.preds + [ColIn(ID, [key.value])]);
      var rows := Database.Select(db, Target(e), spec);
      assert rows == NaiveRows(db, row, e, nested.spec);
      SelectFacts(db, Target(e), spec);
      forall r | r in rows ensures ID in r && r[ID] == key.value {
        assert Holds(spec.preds[|nested.spec.preds|], r);
      }
      AtMostOne(rows, key.value);
    }
  }

  // ---------- Conservation ----------

  ghost predicate NoDuplicates(keys: seq<int>) {
    forall i, j | 0 <= i < j < |keys| :: keys[i] != keys[j]
  }

  /** A many-to-one loader asks for each foreign key once, and for no other key. */
  lemma {:induction false} EachKeyOnce(e: Edge, rows: seq<Row>)
    requires Rel(e).M2O?
    ensures NoDuplicates(Keys(e, rows))
    ensures forall k :: k in Keys(e, rows) <==> exists i :: 0 <= i < |rows| && NodeKey(e, rows[i]) == Some(k)
  {
    KeysIn(e, rows);
    if rows != [] {
      EachKeyOnce(e, rows[..|rows| - 1]);
    }
  }

  /** How many neighbours are filed under the given keys, all together. */
  function FiledCount<T>(xs: seq<T>, tags: seq<set<int>>, keys: seq<int>): nat
    requires |xs| == |tags|
  {
    if keys == [] then 0
    else FiledCount(xs, tags, keys[..|keys| - 1]) + |Gather(xs, tags, Some(keys[|keys| - 1]))|
  }

  lemma {:induction false} FiledCountSnoc<T>(xs: seq<T>, tags: seq<set<int>>, keys: seq<int>, x: T, key: int)
    requires |xs| == |tags| && NoDuplicates(keys)
    ensures FiledCount(xs + [x], tags + [{key}], keys) == FiledCount(xs, tags, keys) + if key in keys then 1 else 0
  {
    if keys != [] {
      var front, last := keys[..|keys| - 1], keys[|keys| - 1];
      assert keys == front + [last];
      FiledCountSnoc(xs, tags, front, x, key);
      GatherSnoc(xs, x, tags, {key}, Some(last));
    }
  }

  lemma {:induction false} FiledCountEmpty<T>(keys: seq<int>)
    ensures FiledCount<T>([], [], keys) == 0
  {
    if keys != [] {
      FiledCountEmpty<T>(keys[..|keys| - 1]);
    }
  }

  /** The tag names a single key, one of `keys`. */
  ghost predicate OneKey(tag: set<int>, keys: seq<int>) {
    exists k :: k in keys && tag == {k}
  }

  lemma {:induction false} FiledOnce<T>(xs: seq<T>, tags: seq<set<int>>, keys: seq<int>)
    requires |xs| == |tags| && NoDuplicates(keys)
    requires forall j | 0 <= j < |tags| :: OneKey(tags[j], keys)
    ensures FiledCount(xs, tags, keys) == |xs|
  {
    if xs == [] {
      FiledCountEmpty<T>(keys);
      assert tags == [];
    } else {
      var n := |xs| - 1;
      assert OneKey(tags[n], keys) && forall j | 0 <= j < n :: tags[..n][j] == tags[j];
      FiledOnce(xs[..n], tags[..n], keys);
      var key :| key in keys && tags[n] == {key};
      FiledCountSnoc(xs[..n], tags[..n], keys, xs[n], key);
      assert xs == xs[..n] + [xs[n]] && tags == tags[..n] + [{key}];
    }
  }

  /** A one-to-many loader places every row it fetches in exactly one node's slice. */
  lemma OneToManyConserves(db: DB, e: Edge, rows: seq<Row>, spec: Spec)
    requires WellFormed(db) && Rel(e).O2M? && Keyed(rows)
    ensures var f := Fetch(db, e, Keys(e, rows), spec);
            FiledCount(f.rows, f.tags, Keys(e, rows)) == |f.rows|
  {
    var f := Fetch(db, e, Keys(e, rows), spec);
    KeysAreIds(e, rows);
    FetchedTags(db, e, Keys(e, rows), spec);
    var keys, rows', tags, col := Keys(e, rows), f.rows, f.tags, FilingCol(e);
    forall j | 0 <= j < |tags| ensures OneKey(tags[j], keys) {
      assert rows'[j][col] in keys && tags[j] == {rows'[j][col]};
    }
    FiledOnce(rows', tags, keys);
  }
}
