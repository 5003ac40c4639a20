/** What an eager-loading run should produce (one lookup per row, recursively), and what the
    batched algorithm produces (one query per plan node), both as functions on values. */
module EagerPlan {
  import opened Wrappers
  import opened Schema
  import opened Database

  /** A builder together with the builders nested in it by the `With*` methods. */
  datatype Plan = Plan(spec: Spec, with: map<Edge, Plan>)

  /** A loaded node unfolded to a tree: the scanned columns and, per loaded edge, its neighbours. */
  datatype Tree = Tree(vals: Row, edges: map<Edge, Branch>)
  datatype Branch = Branch(trees: seq<Tree>)

  // ---------- Columns ----------

  function AppendOnce(cols: seq<Col>, col: Col): seq<Col> {
    if col in cols then cols else cols + [col]
  }

  function WithoutID(cols: seq<Col>): seq<Col> {
    if cols == [] then []
    else WithoutID(cols[..|cols| - 1]) + (if cols[|cols| - 1] == ID then [] else [cols[|cols| - 1]])
  }

  /** Adds the foreign key of every loaded many-to-one edge among `es`. */
  function AddForeignKeys(cols: seq<Col>, es: seq<Edge>, loaded: set<Edge>): seq<Col> {
    if es == [] then cols
    else
      var e := es[|es| - 1];
      var front := AddForeignKeys(cols, es[..|es| - 1], loaded);
      if e in loaded && Rel(e).M2O? then AppendOnce(front, Rel(e).fk) else front
  }

  /** The columns a builder selects; no list means every column of the table. */
  function Columns(kind: Kind, fields: seq<Col>, loaded: set<Edge>): (cols: Option<seq<Col>>) {
    if fields == [] then None
    else Some(AddForeignKeys(if HasID(kind) then [ID] + WithoutID(fields) else fields, EdgesOf(kind), loaded))
  }

  function Project(row: Row, cols: Option<seq<Col>>): Row {
    if cols.None? then row else map c | c in row && c in cols.value :: row[c]
  }

  // ---------- Keys ----------

  function GetOr(vals: Row, col: Col, default: int): int {
    if col in vals then vals[col] else default
  }

  /** The key under which a node files itself when edge `e` is loaded. A missing value of a
      non-pointer Go field reads as zero. */
  function NodeKey(e: Edge, vals: Row): Option<int> {
    match Rel(e)
    case M2O(fk, nullable) =>
      if fk in vals then Some(vals[fk]) else if nullable then None else Some(0)
    case O2M(_, _) => Some(GetOr(vals, ID, 0))
    case M2M(_, _, _) => Some(GetOr(vals, ID, 0))
  }

  /** The keys a loader asks for: each foreign key once for M2O, every node's ID otherwise. */
  function Keys(e: Edge, rows: seq<Row>): seq<int> {
    if rows == [] then []
    else
      var front := Keys(e, rows[..|rows| - 1]);
      var key := NodeKey(e, rows[|rows| - 1]);
      if key.None? || (Rel(e).M2O? && key.value in front) then front else front + [key.value]
  }

  // ---------- Batched loading ----------

  /** The fields a loader leaves on the nested builder. */
  function NestedFields(e: Edge, fields: seq<Col>): seq<Col> {
    if Rel(e).O2M? && fields != [] then AppendOnce(fields, Rel(e).fk) else fields
  }

  /** What a loader does to the nested builder before running it. */
  function Attach(e: Edge, keys: seq<int>, spec: Spec): Spec {
    match Rel(e)
    case M2O(_, _) => spec.(preds := spec.preds + [ColIn(ID, keys)])
    case O2M(fk, _) => spec.(fields := NestedFields(e, spec.fields), preds := spec.preds + [ColIn(fk, keys)])
    case M2M(_, _, _) => spec.(joins := spec.joins + [keys])
  }

  /** Rows returned by a loader's query, each tagged with the source keys it answers. */
  datatype Fetched = Fetched(rows: seq<Row>, tags: seq<set<int>>)

  function ColTags(rows: seq<Row>, col: Col): seq<set<int>> {
    seq(|rows|, j requires 0 <= j < |rows| => if col in rows[j] then {rows[j][col]} else {})
  }

  /** The target rows of a join, each at its first appearance. */
  function FirstAppearances(joined: seq<Joined>): seq<Row> {
    if joined == [] then []
    else
      var front := FirstAppearances(joined[..|joined| - 1]);
      var row := joined[|joined| - 1].row;
      if ID in row && row[ID] in Ids(front) then front else front + [row]
  }

  /** The source keys that a join pairs with the target `id`. */
  function OutsOf(joined: seq<Joined>, id: int): set<int> {
    set p: Joined | p in joined && ID in p.row && p.row[ID] == id :: p.out
  }

  function JoinTags(rows: seq<Row>, joined: seq<Joined>): seq<set<int>> {
    seq(|rows|, j requires 0 <= j < |rows| => OutsOf(joined, GetOr(rows[j], ID, 0)))
  }

  function Fetch(db: DB, e: Edge, keys: seq<int>, spec: Spec): (f: Fetched)
    ensures |f.rows| == |f.tags|
  {
    if keys == [] then Fetched([], [])
    else match Rel(e)
      case M2O(_, _) =>
        var rows := Select(db, Target(e), Attach(e, keys, spec));
        Fetched(rows, ColTags(rows, ID))
      case O2M(fk, _) =>
        var rows := Select(db, Target(e), Attach(e, keys, spec));
        Fetched(rows, ColTags(rows, fk))
      case M2M(_, _, _) =>
        var joined := SelectJoined(db, e, keys, spec);
        Fetched(FirstAppearances(joined), JoinTags(FirstAppearances(joined), joined))
  }

  /** The elements whose tags contain the given key, in order. */
  function Gather<T>(xs: seq<T>, tags: seq<set<int>>, key: Option<int>): (ys: seq<T>)
    requires |xs| == |tags|
  {
    if xs == [] then []
    else
      var n := |xs| - 1;
      Gather(xs[..n], tags[..n], key) +
      (if key.Some? && key.value in tags[n] then [xs[n]] else [])
  }

  /** The trees that batched loading builds over the given rows. */
  ghost function BatchTrees(db: DB, kind: Kind, rows: seq<Row>, fields: seq<Col>, p: Plan): (ts: seq<Tree>)
    ensures |ts| == |rows|
    decreases p, 1
  {
    seq(|rows|, i requires 0 <= i < |rows| => BatchTree(db, kind, rows, i, fields, p))
  }

  ghost function BatchTree(db: DB, kind: Kind, rows: seq<Row>, i: int, fields: seq<Col>, p: Plan): Tree
    requires 0 <= i < |rows|
    decreases p, 0
  {
    Tree(Project(rows[i], Columns(kind, fields, p.with.Keys)),
         map e | e in p.with :: Branch(BatchEdge(db, e, rows, NodeKey(e, rows[i]), p.with[e])))
  }

  /** The neighbours that one loader call brings back, loaded in turn. */
  ghost function EdgeTrees(db: DB, e: Edge, rows: seq<Row>, nested: Plan): (ts: seq<Tree>)
    ensures |ts| == |Fetch(db, e, Keys(e, rows), nested.spec).rows|
    decreases nested, 2
  {
    BatchTrees(db, Target(e), Fetch(db, e, Keys(e, rows), nested.spec).rows,
               NestedFields(e, nested.spec.fields), nested)
  }

  /** Those of them that are filed under `key`. */
  ghost function BatchEdge(db: DB, e: Edge, rows: seq<Row>, key: Option<int>, nested: Plan): seq<Tree>
    decreases nested, 3
  {
    Gather(EdgeTrees(db, e, rows, nested), Fetch(db, e, Keys(e, rows), nested.spec).tags, key)
  }

  // ---------- Row-by-row loading ----------

  /** The source keys of a target: which target IDs the join table pairs with `key`. */
  function JoinKeys(joinRows: seq<Row>, outCol: Col, inCol: Col, key: int): seq<int> {
    if joinRows == [] then []
    else
      var j := joinRows[|joinRows| - 1];
      JoinKeys(joinRows[..|joinRows| - 1], outCol, inCol, key) +
      (if inCol in j && outCol in j && j[outCol] == key then [j[inCol]] else [])
  }

  /** The neighbours of a single row: the nested builder's own query, narrowed to that row. */
  function NaiveRows(db: DB, row: Row, e: Edge, spec: Spec): seq<Row> {
    var key := NodeKey(e, row);
    if key.None? then []
    else match Rel(e)
      case M2O(_, _) => Select(db, Target(e), spec.(preds := spec.preds + [ColIn(ID, [key.value])]))
      case O2M(fk, _) => Select(db, Target(e), spec.(preds := spec.preds + [ColIn(fk, [key.value])]))
      case M2M(join, outCol, inCol) =>
        Select(db, Target(e),
               spec.(preds := spec.preds + [ColIn(ID, JoinKeys(Table(db, join), outCol, inCol, key.value))]))
  }

  ghost function NaiveTree(db: DB, kind: Kind, row: Row, fields: seq<Col>, p: Plan): Tree
    decreases p, 0
  {
    Tree(Project(row, Columns(kind, fields, p.with.Keys)),
         map e | e in p.with :: Branch(NaiveEdge(db, row, e, p.with[e])))
  }

  ghost function NaiveEdge(db: DB, row: Row, e: Edge, nested: Plan): (ts: seq<Tree>)
    ensures |ts| == |NaiveRows(db, row, e, nested.spec)|
    decreases nested, 1
  {
    var rows := NaiveRows(db, row, e, nested.spec);
    seq(|rows|, j requires 0 <= j < |rows| =>
      NaiveTree(db, Target(e), rows[j], NestedFields(e, nested.spec.fields), nested))
  }

  lemma NaiveTreeIs(db: DB, kind: Kind, row: Row, fields: seq<Col>, p: Plan)
    ensures var t := NaiveTree(db, kind, row, fields, p);
            && t.vals == Project(row, Columns(kind, fields, p.with.Keys)) && t.edges.Keys == p.with.Keys
            && forall e | e in p.with :: t.edges[e] == Branch(NaiveEdge(db, row, e, p.with[e]))
  {
  }

  lemma SameTrees(t: Tree, t': Tree)
    requires t.vals == t'.vals && t.edges.Keys == t'.edges.Keys && forall e | e in t.edges :: t.edges[e] == t'.edges[e]
    ensures t == t'
  {
    assert t.edges == t'.edges;
  }

  /** No builder below the root carries a limit or an offset, unless zero. */
  ghost predicate NoNestedPaging(p: Plan) {
    forall e | e in p.with ::
      Unpaged(p.with[e].spec) && NoNestedPaging(p.with[e])
  }

  /** No edge of the plan has a join table. */
  ghost predicate NoManyToMany(p: Plan) {
    forall e | e in p.with :: !Rel(e).M2M? && NoManyToMany(p.with[e])
  }

  /** The order of neighbours is settled: joins return their rows in the order of the targets, or
      there are no joins. */
  ghost predicate Orderly(db: DB, p: Plan) {
    InTargetOrder(db) || NoManyToMany(p)
  }

  // ---------- Batched loading is row-by-row loading ----------

  lemma {:induction false} FilterIn(rows: seq<Row>, preds: seq<Pred>)
    ensures forall r :: r in Filter(rows, preds) <==> r in rows && HoldsAll(preds, r)
    ensures Keyed(rows) ==> Keyed(Filter(rows, preds))
  {
    if rows != [] {
      var front, last := rows[..|rows| - 1], rows[|rows| - 1];
      FilterIn(front, preds);
      assert rows == front + [last];
      KeyedSnoc(front, last);
      KeyedSnoc(Filter(front, preds), last);
    }
  }

  lemma HoldsAllSnoc(preds: seq<Pred>, p: Pred, row: Row)
    ensures HoldsAll(preds + [p], row) <==> HoldsAll(preds, row) && Holds(p, row)
  {
    assert forall i | 0 <= i < |preds| :: (preds + [p])[i] == preds[i];
    assert (preds + [p])[|preds|] == p;
  }

  lemma GatherSnoc<T>(xs: seq<T>, x: T, tags: seq<set<int>>, tag: set<int>, key: Option<int>)
    requires |xs| == |tags|
    ensures Gather(xs + [x], tags + [tag], key) ==
            if key.Some? && key.value in tag then Gather(xs, tags, key) + [x] else Gather(xs, tags, key)
  {
    assert (xs + [x])[..|xs|] == xs && (tags + [tag])[..|xs|] == tags;
  }

  lemma FilterSnoc(rows: seq<Row>, row: Row, preds: seq<Pred>)
    ensures Filter(rows + [row], preds) ==
            if HoldsAll(preds, row) then Filter(rows, preds) + [row] else Filter(rows, preds)
  {
    assert (rows + [row])[..|rows|] == rows;
  }

  lemma HoldsKey(preds: seq<Pred>, col: Col, keys: seq<int>, row: Row)
    ensures HoldsAll(preds + [ColIn(col, keys)], row) <==> HoldsAll(preds, row) && col in row && row[col] in keys
  {
    HoldsAllSnoc(preds, ColIn(col, keys), row);
  }

  lemma GatherColTag(rows: seq<Row>, last: Row, col: Col, key: int)
    requires col in last && forall r | r in rows :: col in r
    ensures Gather(rows + [last], ColTags(rows + [last], col), Some(key)) ==
            if last[col] == key then Gather(rows, ColTags(rows, col), Some(key)) + [last]
            else Gather(rows, ColTags(rows, col), Some(key))
  {
    GatherSnoc(rows, last, ColTags(rows, col), {last[col]}, Some(key));
    assert ColTags(rows + [last], col) == ColTags(rows, col) + [{last[col]}];
  }

  /** Filing the batch by key gives, for one key, the rows that key alone selects. */
  lemma {:induction false} GatherFilter(rows: seq<Row>, preds: seq<Pred>, col: Col, keys: seq<int>, key: int)
    requires key in keys
    ensures var batch := Filter(rows, preds + [ColIn(col, keys)]);
            && (forall r | r in batch :: col in r)
            && Gather(batch, ColTags(batch, col), Some(key)) == Filter(rows, preds + [ColIn(col, [key])])
  {
    if rows != [] {
      var front, last := rows[..|rows| - 1], rows[|rows| - 1];
      var all, one := preds + [ColIn(col, keys)], preds + [ColIn(col, [key])];
      GatherFilter(front, preds, col, keys, key);
      HoldsKey(preds, col, keys, last);
      HoldsKey(preds, col, [key], last);
      if HoldsAll(all, last) {
        assert Filter(rows, all) == Filter(front, all) + [last];
        GatherColTag(Filter(front, all), last, col, key);
      } else {
        assert Filter(rows, all) == Filter(front, all) && Filter(rows, one) == Filter(front, one);
      }
    }
  }

  lemma {:induction false} GatherIn<T>(xs: seq<T>, tags: seq<set<int>>, key: Option<int>)
    requires |xs| == |tags|
    ensures key.None? ==> Gather(xs, tags, key) == []
    ensures forall x :: x in Gather(xs, tags, key) ==> x in xs
  {
    if xs != [] {
      GatherIn(xs[..|xs| - 1], tags[..|xs| - 1], key);
    }
  }

  /** Gathering commutes with loading the gathered rows. */
  lemma {:induction false} GatherTrees(rows: seq<Row>, ts: seq<Tree>, tags: seq<set<int>>, key: Option<int>,
                                       load: Row --> Tree)
    requires |rows| == |ts| == |tags|
    requires forall j | 0 <= j < |rows| :: load.requires(rows[j]) && ts[j] == load(rows[j])
    ensures |Gather(ts, tags, key)| == |Gather(rows, tags, key)|
    ensures forall j | 0 <= j < |Gather(rows, tags, key)| ::
              Gather(rows, tags, key)[j] in rows && Gather(ts, tags, key)[j] == load(Gather(rows, tags, key)[j])
  {
    if rows != [] {
      var n := |rows| - 1;
      GatherTrees(rows[..n], ts[..n], tags[..n], key, load);
    }
  }

  // ---------- Joins ----------

  lemma {:induction false} PairsOf(joinRows: seq<Row>, outCol: Col, inCol: Col, keys: seq<int>, row: Row, key: int)
    requires ID in row && key in keys
    ensures forall p :: p in Pairs(joinRows, outCol, inCol, keys, row) ==> p.row == row
    ensures Joined(key, row) in Pairs(joinRows, outCol, inCol, keys, row) <==>
            row[ID] in JoinKeys(joinRows, outCol, inCol, key)
  {
    if joinRows != [] {
      PairsOf(joinRows[..|joinRows| - 1], outCol, inCol, keys, row, key);
    }
  }

  lemma {:induction false} JoinRowsIn(rows: seq<Row>, joinRows: seq<Row>, outCol: Col, inCol: Col, keys: seq<int>)
    ensures forall p :: p in JoinRows(rows, joinRows, outCol, inCol, keys) ==>
              p.row in rows && ID in p.row && p.out in keys
  {
    if rows != [] {
      JoinRowsIn(rows[..|rows| - 1], joinRows, outCol, inCol, keys);
      PairsIn(joinRows, outCol, inCol, keys, rows[|rows| - 1]);
    }
  }

  lemma {:induction false} PairsIn(joinRows: seq<Row>, outCol: Col, inCol: Col, keys: seq<int>, row: Row)
    ensures forall p :: p in Pairs(joinRows, outCol, inCol, keys, row) ==> p.row == row && ID in row && p.out in keys
  {
    if joinRows != [] {
      PairsIn(joinRows[..|joinRows| - 1], outCol, inCol, keys, row);
    }
  }

  lemma {:induction false} FirstAppearancesIn(joined: seq<Joined>)
    requires forall p | p in joined :: ID in p.row
    ensures forall r :: r in FirstAppearances(joined) ==> exists p :: p in joined && p.row == r
    ensures forall p :: p in joined ==> p.row[ID] in Ids(FirstAppearances(joined))
    ensures Keyed(FirstAppearances(joined))
  {
    if joined != [] {
      var front, last := joined[..|joined| - 1], joined[|joined| - 1];
      FirstAppearancesIn(front);
      assert joined == front + [last];
      var first := FirstAppearances(front);
      assert Ids(first + [last.row]) == Ids(first) + {last.row[ID]};
      forall r | r in FirstAppearances(joined) ensures exists p :: p in joined && p.row == r {
        if r in first {
          var p :| p in front && p.row == r;
          assert p in joined;
        } else {
          assert last in joined;
        }
      }
      KeyedSnoc(first, last.row);
    }
  }

  lemma OutsOfSnoc(joined: seq<Joined>, p: Joined)
    requires ID in p.row
    ensures forall k :: OutsOf(joined + [p], k) ==
                        if k == p.row[ID] then OutsOf(joined, k) + {p.out} else OutsOf(joined, k)
  {
    forall k
      ensures OutsOf(joined + [p], k) == if k == p.row[ID] then OutsOf(joined, k) + {p.out} else OutsOf(joined, k)
    {
      forall a
        ensures a in OutsOf(joined + [p], k) <==> a in OutsOf(joined, k) || (k == p.row[ID] && a == p.out)
      {
        if a in OutsOf(joined, k) {
          var w :| w in joined && ID in w.row && w.row[ID] == k && w.out == a;
          assert w in joined + [p];
        }
        assert p in joined + [p];
      }
    }
  }

  lemma FirstAppearancesSnoc(joined: seq<Joined>, p: Joined)
    ensures FirstAppearances(joined + [p]) ==
            if ID in p.row && p.row[ID] in Ids(FirstAppearances(joined)) then FirstAppearances(joined)
            else FirstAppearances(joined) + [p.row]
  {
    assert (joined + [p])[..|joined|] == joined;
  }

  lemma IdsSnoc(rows: seq<Row>, row: Row)
    requires ID in row
    ensures Ids(rows + [row]) == Ids(rows) + {row[ID]}
  {
    assert row in rows + [row];
    assert forall r | r in rows :: r in rows + [row];
  }

  /** A run of joined rows of one new target adds that target once. */
  lemma {:induction false} FirstAppearancesRun(joined: seq<Joined>, run: seq<Joined>, row: Row)
    requires forall p | p in run :: p.row == row
    requires ID in row && row[ID] !in Ids(FirstAppearances(joined))
    ensures FirstAppearances(joined + run) ==
            if run == [] then FirstAppearances(joined) else FirstAppearances(joined) + [row]
  {
    if run == [] {
      assert joined + run == joined;
    } else {
      var front, last := run[..|run| - 1], run[|run| - 1];
      FirstAppearancesRun(joined, front, row);
      assert joined + run == (joined + front) + [last];
      assert last in run;
      FirstAppearancesSnoc(joined + front, last);
      IdsSnoc(FirstAppearances(joined), row);
    }
  }

  /** Filing joined rows by source key gives, for one key, the targets the join table pairs with
      it, in the order of the target table. */
  lemma {:induction false} GatherJoin(rows: seq<Row>, joinRows: seq<Row>, outCol: Col, inCol: Col, keys: seq<int>,
                                      key: int)
    requires Keyed(rows) && key in keys
    ensures var joined := JoinRows(rows, joinRows, outCol, inCol, keys);
            var first := FirstAppearances(joined);
            Gather(first, JoinTags(first, joined), Some(key)) ==
            Filter(rows, [ColIn(ID, JoinKeys(joinRows, outCol, inCol, key))])
  {
    if rows != [] {
      var front, g := rows[..|rows| - 1], rows[|rows| - 1];
      var preds := [ColIn(ID, JoinKeys(joinRows, outCol, inCol, key))];
      GatherJoin(front, joinRows, outCol, inCol, keys, key);
      PairsOf(joinRows, outCol, inCol, keys, g, key);
      assert rows == front + [g];
      JoinRowsApart(front, g, joinRows, outCol, inCol, keys);
      var joined, run := JoinRows(front, joinRows, outCol, inCol, keys), Pairs(joinRows, outCol, inCol, keys, g);
      assert JoinRows(rows, joinRows, outCol, inCol, keys) == joined + run;
      GatherRun(joined, run, g, key);
      assert HoldsAll(preds, g) <==> Holds(preds[0], g);
      assert Filter(rows, preds) == if HoldsAll(preds, g) then Filter(front, preds) + [g] else Filter(front, preds);
    }
  }

  lemma JoinRowsApart(rows: seq<Row>, g: Row, joinRows: seq<Row>, outCol: Col, inCol: Col, keys: seq<int>)
    requires Keyed(rows + [g]) && ID in g
    ensures forall p | p in JoinRows(rows, joinRows, outCol, inCol, keys) :: ID in p.row && p.row[ID] != g[ID]
  {
    JoinRowsIn(rows, joinRows, outCol, inCol, keys);
    forall p | p in JoinRows(rows, joinRows, outCol, inCol, keys) ensures p.row[ID] != g[ID] {
      var m :| 0 <= m < |rows| && rows[m] == p.row;
      assert (rows + [g])[m] == p.row && (rows + [g])[|rows|] == g;
    }
  }

  lemma GatherRun(joined: seq<Joined>, run: seq<Joined>, g: Row, key: int)
    requires forall p | p in run :: p.row == g
    requires ID in g && forall p | p in joined :: ID in p.row && p.row[ID] != g[ID]
    ensures var first, more := FirstAppearances(joined), FirstAppearances(joined + run);
            Gather(more, JoinTags(more, joined + run), Some(key)) ==
            if Joined(key, g) in run then Gather(first, JoinTags(first, joined), Some(key)) + [g]
            else Gather(first, JoinTags(first, joined), Some(key))
  {
    var first := FirstAppearances(joined);
    FirstAppearancesIn(joined);
    forall r | r in first ensures ID in r && r[ID] != g[ID] {
      var p :| p in joined && p.row == r;
    }
    FirstAppearancesRun(joined, run, g);
    JoinTagsRun(first, joined, run, g);
    if run != [] {
      var tag := OutsOf(joined + run, g[ID]);
      assert JoinTags(first + [g], joined + run) == JoinTags(first, joined + run) + [tag];
      GatherSnoc(first, g, JoinTags(first, joined), tag, Some(key));
      assert key in tag <==> Joined(key, g) in run by {
        if key in tag {
          var p :| p in joined + run && ID in p.row && p.row[ID] == g[ID] && p.out == key;
          assert p in run;
        }
      }
    }
  }

  lemma JoinTagsRun(first: seq<Row>, joined: seq<Joined>, run: seq<Joined>, row: Row)
    requires forall p | p in run :: p.row == row
    requires ID in row && forall r | r in first :: ID in r && r[ID] != row[ID]
    ensures JoinTags(first, joined + run) == JoinTags(first, joined)
  {
    forall j | 0 <= j < |first| ensures JoinTags(first, joined + run)[j] == JoinTags(first, joined)[j] {
      assert first[j] in first;
    }
  }

  lemma {:induction false} FilterFilter(rows: seq<Row>, preds: seq<Pred>, p: Pred)
    ensures Filter(Filter(rows, preds), [p]) == Filter(rows, preds + [p])
  {
    if rows != [] {
      var front, last := rows[..|rows| - 1], rows[|rows| - 1];
      FilterFilter(front, preds, p);
      assert rows == front + [last];
      FilterSnoc(front, last, preds);
      FilterSnoc(front, last, preds + [p]);
      FilterSnoc(Filter(front, preds), last, [p]);
      HoldsAllSnoc(preds, p, last);
      HoldsAllSnoc([], p, last);
      assert [] + [p] == [p];
    }
  }

  // ---------- The main theorem ----------

  lemma {:induction false} KeysIn(e: Edge, rows: seq<Row>)
    ensures forall i | 0 <= i < |rows| :: NodeKey(e, rows[i]).Some? ==> NodeKey(e, rows[i]).value in Keys(e, rows)
    ensures forall k :: k in Keys(e, rows) ==> exists i :: 0 <= i < |rows| && NodeKey(e, rows[i]) == Some(k)
  {
    if rows != [] {
      var front, last := rows[..|rows| - 1], rows[|rows| - 1];
      KeysIn(e, front);
      assert forall i | 0 <= i < |front| :: rows[i] == front[i];
      forall k | k in Keys(e, rows) ensures exists i :: 0 <= i < |rows| && NodeKey(e, rows[i]) == Some(k) {
        if k in Keys(e, front) {
          var i :| 0 <= i < |front| && NodeKey(e, front[i]) == Some(k);
          assert rows[i] == front[i];
        } else {
          assert NodeKey(e, rows[|rows| - 1]) == Some(k);
        }
      }
    }
  }

  lemma UnpagedPage<T>(xs: seq<T>, limit: Option<nat>, offset: Option<nat>)
    requires OrZero(limit) == 0 && OrZero(offset) == 0
    ensures Page(xs, limit, offset) == xs
  {
  }

  lemma SelectUnpaged(db: DB, kind: Kind, spec: Spec)
    requires Unpaged(spec)
    ensures Select(db, kind, spec) == Filter(Ordered(spec.order, Table(db, kind)), spec.preds)
  {
    UnpagedPage(Matching(db, kind, spec), spec.limit, spec.offset);
  }

  /** Without a join table: what the batch brings for one of the keys is what that key selects. */
  lemma FetchByColumn(db: DB, e: Edge, keys: seq<int>, key: int, spec: Spec)
    requires Unpaged(spec) && key in keys && !Rel(e).M2M?
    ensures var f, col := Fetch(db, e, keys, spec), if Rel(e).M2O? then ID else Rel(e).fk;
            Gather(f.rows, f.tags, Some(key)) == Select(db, Target(e), spec.(preds := spec.preds + [ColIn(col, [key])]))
  {
    var col := if Rel(e).M2O? then ID else Rel(e).fk;
    SelectUnpaged(db, Target(e), Attach(e, keys, spec));
    SelectUnpaged(db, Target(e), spec.(preds := spec.preds + [ColIn(col, [key])]));
    GatherFilter(Ordered(spec.order, Table(db, Target(e))), spec.preds, col, keys, key);
  }

  /** With a join table: the same, if the rows come back in the order of the targets. */
  lemma JoinIsLookup(db: DB, e: Edge, keys: seq<int>, key: int, spec: Spec)
    requires WellFormed(db) && Unpaged(spec) && key in keys && Rel(e).M2M?
    ensures var ids := JoinKeys(Table(db, Rel(e).join), Rel(e).outCol, Rel(e).inCol, key);
            var joined := Join(db, e, keys, spec);
            var first := FirstAppearances(joined);
            Gather(first, JoinTags(first, joined), Some(key)) ==
            Select(db, Target(e), spec.(preds := spec.preds + [ColIn(ID, ids)]))
  {
    var joinRows, outCol, inCol := Table(db, Rel(e).join), Rel(e).outCol, Rel(e).inCol;
    var ids := JoinKeys(joinRows, outCol, inCol, key);
    var scan := Ordered(spec.order, Table(db, Target(e)));
    OrderedKeyed(spec.order, Table(db, Target(e)));
    FilterIn(scan, spec.preds);
    SelectUnpaged(db, Target(e), spec.(preds := spec.preds + [ColIn(ID, ids)]));
    GatherJoin(Filter(scan, spec.preds), joinRows, outCol, inCol, keys, key);
    FilterFilter(scan, spec.preds, ColIn(ID, ids));
  }

  /** One loader call brings every row exactly the neighbours its own lookup would. */
  lemma FetchIsLookup(db: DB, e: Edge, rows: seq<Row>, row: Row, spec: Spec)
    requires WellFormed(db) && row in rows
    requires Unpaged(spec) && (Rel(e).M2M? ==> InTargetOrder(db))
    ensures var f := Fetch(db, e, Keys(e, rows), spec);
            Gather(f.rows, f.tags, NodeKey(e, row)) == NaiveRows(db, row, e, spec)
  {
    var keys, key := Keys(e, rows), NodeKey(e, row);
    KeysIn(e, rows);
    if key.None? {
      var f := Fetch(db, e, keys, spec);
      GatherIn(f.rows, f.tags, key);
    } else {
      assert key.value in keys by {
        var i :| 0 <= i < |rows| && rows[i] == row;
      }
      if Rel(e).M2M? {
        UnpagedPage(Join(db, e, keys, spec), spec.limit, spec.offset);
        JoinIsLookup(db, e, keys, key.value, spec);
      } else {
        FetchByColumn(db, e, keys, key.value, spec);
      }
    }
  }

  /** For every database and every nested plan whose nested builders carry no limit or
      offset, batched loading builds the trees of row-by-row loading. */
  lemma {:induction false} BatchIsNaive(db: DB, kind: Kind, rows: seq<Row>, fields: seq<Col>, p: Plan)
    requires WellFormed(db) && Orderly(db, p) && NoNestedPaging(p)
    ensures forall i | 0 <= i < |rows| ::
              BatchTrees(db, kind, rows, fields, p)[i] == NaiveTree(db, kind, rows[i], fields, p)
    decreases p, 1
  {
    forall i | 0 <= i < |rows|
      ensures BatchTrees(db, kind, rows, fields, p)[i] == NaiveTree(db, kind, rows[i], fields, p)
    {
      TreeIsNaive(db, kind, rows, i, fields, p);
    }
  }

  lemma {:induction false} TreeIsNaive(db: DB, kind: Kind, rows: seq<Row>, i: int, fields: seq<Col>, p: Plan)
    requires WellFormed(db) && Orderly(db, p) && NoNestedPaging(p) && 0 <= i < |rows|
    ensures BatchTree(db, kind, rows, i, fields, p) == NaiveTree(db, kind, rows[i], fields, p)
    decreases p, 0
  {
    var batch, naive := BatchTree(db, kind, rows, i, fields, p), NaiveTree(db, kind, rows[i], fields, p);
    forall e | e in p.with ensures batch.edges[e] == naive.edges[e] {
      assert batch.edges[e] == Branch(BatchEdge(db, e, rows, NodeKey(e, rows[i]), p.with[e]));
      assert naive.edges[e] == Branch(NaiveEdge(db, rows[i], e, p.with[e]));
      EdgeIsNaive(db, e, rows, i, p.with[e]);
    }
    assert batch.edges == naive.edges;
  }

  lemma {:induction false} EdgeIsNaive(db: DB, e: Edge, rows: seq<Row>, i: int, nested: Plan)
    requires WellFormed(db) && Orderly(db, nested) && 0 <= i < |rows| && (Rel(e).M2M? ==> InTargetOrder(db))
    requires Unpaged(nested.spec) && NoNestedPaging(nested)
    ensures BatchEdge(db, e, rows, NodeKey(e, rows[i]), nested) == NaiveEdge(db, rows[i], e, nested)
    decreases nested, 2
  {
    var f := Fetch(db, e, Keys(e, rows), nested.spec);
    var fields := NestedFields(e, nested.spec.fields);
    BatchIsNaive(db, Target(e), f.rows, fields, nested);
    FetchIsLookup(db, e, rows, rows[i], nested.spec);
    GatherTrees(f.rows, EdgeTrees(db, e, rows, nested), f.tags, NodeKey(e, rows[i]),
                row => NaiveTree(db, Target(e), row, fields, nested));
  }
}
