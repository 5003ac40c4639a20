/** What an eager-loading run leaves behind on the builders, and how many queries it issues. */
module EagerRuns {
  import opened Wrappers
  import opened Schema
  import opened Database
  import opened EagerPlan

  // ---------- The builders after a run ----------

  /** The plan after a run that produced `rows` at the root: every nested builder that was run
      keeps the predicates, fields and joins its loader appended. */
  ghost function AfterRun(db: DB, rows: seq<Row>, spec: Spec, p: Plan): (after: Plan)
    ensures after.spec == spec && after.with.Keys == p.with.Keys
    decreases p, 0
  {
    Plan(spec, if rows == [] then p.with else map e | e in p.with :: AfterLoad(db, e, rows, p.with[e]))
  }

  ghost function AfterLoad(db: DB, e: Edge, rows: seq<Row>, nested: Plan): Plan
    decreases nested, 1
  {
    var keys := Keys(e, rows);
    if keys == [] then nested
    else AfterRun(db, Fetch(db, e, keys, nested.spec).rows, Attach(e, keys, nested.spec), nested)
  }

  /** Narrowing by all keys first does not change what one of the keys selects. */
  lemma {:induction false} FilterNarrowed(rows: seq<Row>, preds: seq<Pred>, col: Col, keys: seq<int>, key: int)
    requires key in keys
    ensures Filter(rows, preds + [ColIn(col, keys)] + [ColIn(col, [key])]) == Filter(rows, preds + [ColIn(col, [key])])
  {
    if rows != [] {
      var front, last := rows[..|rows| - 1], rows[|rows| - 1];
      FilterNarrowed(front, preds, col, keys, key);
      HoldsAllSnoc(preds, ColIn(col, keys), last);
      HoldsAllSnoc(preds + [ColIn(col, keys)], ColIn(col, [key]), last);
      HoldsAllSnoc(preds, ColIn(col, [key]), last);
    }
  }

  lemma NarrowedBatch(scan: seq<Row>, preds: seq<Pred>, col: Col, keys: seq<int>, key: int)
    requires key in keys
    ensures forall r | r in Filter(scan, preds + [ColIn(col, [key])]) :: r in Filter(scan, preds + [ColIn(col, keys)])
  {
    FilterIn(scan, preds + [ColIn(col, [key])]);
    FilterIn(scan, preds + [ColIn(col, keys)]);
    forall r | r in Filter(scan, preds + [ColIn(col, [key])]) ensures r in Filter(scan, preds + [ColIn(col, keys)]) {
      HoldsKey(preds, col, keys, r);
      HoldsKey(preds, col, [key], r);
    }
  }

  lemma LookupAfterLoad(db: DB, e: Edge, rows: seq<Row>, row: Row, spec: Spec)
    requires row in rows && !Rel(e).M2M? && Unpaged(spec)
    ensures NaiveRows(db, row, e, Attach(e, Keys(e, rows), spec)) == NaiveRows(db, row, e, spec)
    ensures Keys(e, rows) != [] ==>
              forall r | r in NaiveRows(db, row, e, spec) :: r in Fetch(db, e, Keys(e, rows), spec).rows
  {
    var keys, key := Keys(e, rows), NodeKey(e, row);
    KeysIn(e, rows);
    if key.Some? {
      var i :| 0 <= i < |rows| && rows[i] == row;
      LookupNarrowed(db, e, keys, key.value, spec);
    }
  }

  lemma LookupNarrowed(db: DB, e: Edge, keys: seq<int>, key: int, spec: Spec)
    requires !Rel(e).M2M? && Unpaged(spec) && key in keys
    ensures var col, attached := if Rel(e).M2O? then ID else Rel(e).fk, Attach(e, keys, spec);
            var own := Select(db, Target(e), spec.(preds := spec.preds + [ColIn(col, [key])]));
            && Select(db, Target(e), attached.(preds := attached.preds + [ColIn(col, [key])])) == own
            && forall r | r in own :: r in Select(db, Target(e), attached)
  {
    var col, attached := if Rel(e).M2O? then ID else Rel(e).fk, Attach(e, keys, spec);
    var scan := Ordered(spec.order, Table(db, Target(e)));
    SelectUnpaged(db, Target(e), spec.(preds := spec.preds + [ColIn(col, [key])]));
    SelectUnpaged(db, Target(e), attached);
    SelectUnpaged(db, Target(e), attached.(preds := attached.preds + [ColIn(col, [key])]));
    FilterNarrowed(scan, spec.preds, col, keys, key);
    NarrowedBatch(scan, spec.preds, col, keys, key);
  }

  lemma SameEdges(db: DB, kind: Kind, row: Row, fields: seq<Col>, p: Plan, q: Plan)
    requires p.with.Keys == q.with.Keys
    requires forall e | e in p.with :: NaiveEdge(db, row, e, q.with[e]) == NaiveEdge(db, row, e, p.with[e])
    ensures NaiveTree(db, kind, row, fields, q) == NaiveTree(db, kind, row, fields, p)
  {
    NaiveTreeIs(db, kind, row, fields, p);
    NaiveTreeIs(db, kind, row, fields, q);
    SameTrees(NaiveTree(db, kind, row, fields, q), NaiveTree(db, kind, row, fields, p));
  }

  lemma {:induction false} TreeAfterRun(db: DB, kind: Kind, rows: seq<Row>, row: Row, fields: seq<Col>, spec: Spec,
                                        p: Plan)
    requires row in rows && NoNestedPaging(p) && NoManyToMany(p)
    ensures NaiveTree(db, kind, row, fields, AfterRun(db, rows, spec, p)) == NaiveTree(db, kind, row, fields, p)
    decreases p, 0
  {
    var after := AfterRun(db, rows, spec, p);
    forall e | e in p.with ensures NaiveEdge(db, row, e, after.with[e]) == NaiveEdge(db, row, e, p.with[e]) {
      EdgeAfterRun(db, e, rows, row, p.with[e]);
      assert after.with[e] == AfterLoad(db, e, rows, p.with[e]);
    }
    SameEdges(db, kind, row, fields, p, after);
  }

  lemma {:induction false} EdgeAfterRun(db: DB, e: Edge, rows: seq<Row>, row: Row, nested: Plan)
    requires row in rows && !Rel(e).M2M?
    requires Unpaged(nested.spec) && NoNestedPaging(nested) && NoManyToMany(nested)
    ensures NaiveEdge(db, row, e, AfterLoad(db, e, rows, nested)) == NaiveEdge(db, row, e, nested)
    decreases nested, 1
  {
    var keys := Keys(e, rows);
    if keys != [] {
      var after := AfterLoad(db, e, rows, nested);
      var fetched := Fetch(db, e, keys, nested.spec).rows;
      var fields := NestedFields(e, nested.spec.fields);
      LookupAfterLoad(db, e, rows, row, nested.spec);
      var found := NaiveRows(db, row, e, nested.spec);
      assert after.spec == Attach(e, keys, nested.spec);
      assert after.spec.fields == if Rel(e).O2M? then fields else nested.spec.fields;
      assert NestedFields(e, after.spec.fields) == fields;
      forall j | 0 <= j < |found|
        ensures NaiveTree(db, Target(e), found[j], fields, after) == NaiveTree(db, Target(e), found[j], fields, nested)
      {
        TreeAfterRun(db, Target(e), fetched, found[j], fields, after.spec, nested);
      }
    }
  }

  lemma {:induction false} PagingAfterRun(db: DB, rows: seq<Row>, spec: Spec, p: Plan)
    requires NoNestedPaging(p)
    ensures NoNestedPaging(AfterRun(db, rows, spec, p))
    decreases p
  {
    if rows != [] {
      forall e | e in p.with
        ensures var n := AfterLoad(db, e, rows, p.with[e]);
                Unpaged(n.spec) && NoNestedPaging(n)
      {
        var keys := Keys(e, rows);
        PagingAfterRun(db, Fetch(db, e, keys, p.with[e].spec).rows, Attach(e, keys, p.with[e].spec), p.with[e]);
      }
    }
  }

  lemma {:induction false} NoManyAfterRun(db: DB, rows: seq<Row>, spec: Spec, p: Plan)
    requires NoManyToMany(p)
    ensures NoManyToMany(AfterRun(db, rows, spec, p))
    decreases p
  {
    forall e | e in p.with && rows != [] ensures NoManyToMany(AfterLoad(db, e, rows, p.with[e])) {
      var keys := Keys(e, rows);
      NoManyAfterRun(db, Fetch(db, e, keys, p.with[e].spec).rows, Attach(e, keys, p.with[e].spec), p.with[e]);
    }
  }

  /** Running the same builder a second time over an unchanged database builds the same trees,
      although the first run has narrowed every nested builder. */
  lemma RerunBuildsSameTrees(db: DB, kind: Kind, spec: Spec, p: Plan)
    requires WellFormed(db) && NoNestedPaging(p) && NoManyToMany(p)
    ensures var rows := Select(db, kind, spec);
            BatchTrees(db, kind, rows, spec.fields, AfterRun(db, rows, spec, p)) ==
            BatchTrees(db, kind, rows, spec.fields, p)
  {
    var rows := Select(db, kind, spec);
    var after := AfterRun(db, rows, spec, p);
    PagingAfterRun(db, rows, spec, p);
    NoManyAfterRun(db, rows, spec, p);
    BatchIsNaive(db, kind, rows, spec.fields, p);
    BatchIsNaive(db, kind, rows, spec.fields, after);
    forall i | 0 <= i < |rows|
      ensures BatchTrees(db, kind, rows, spec.fields, after)[i] == BatchTrees(db, kind, rows, spec.fields, p)[i]
    {
      TreeAfterRun(db, kind, rows, rows[i], spec.fields, spec, p);
    }
  }

  // ---------- Queries ----------

  /** Queries issued by the loaders of the edges `es`, once `rows` are loaded. */
  ghost function EdgeQueries(db: DB, rows: seq<Row>, es: seq<Edge>, p: Plan): nat
    decreases p, 0, |es|
  {
    if es == [] then 0
    else
      var e := es[|es| - 1];
      EdgeQueries(db, rows, es[..|es| - 1], p) +
      if e in p.with && Keys(e, rows) != [] then
        1 + Queries(db, Target(e), Fetch(db, e, Keys(e, rows), p.with[e].spec).rows, p.with[e])
      else 0
  }

  ghost function Queries(db: DB, kind: Kind, rows: seq<Row>, p: Plan): nat
    decreases p, 1
  {
    if rows == [] then 0 else EdgeQueries(db, rows, EdgesOf(kind), p)
  }

  /** The number of builders nested in a plan, over the edges `es` of its root. */
  ghost function NestedBuilders(es: seq<Edge>, p: Plan): nat
    decreases p, |es|
  {
    if es == [] then 0
    else
      var e := es[|es| - 1];
      NestedBuilders(es[..|es| - 1], p) +
      if e in p.with then 1 + NestedBuilders(EdgesOf(Target(e)), p.with[e]) else 0
  }

  /** However many rows there are, the loaders issue at most one query per nested builder. */
  lemma {:induction false} OneQueryPerBuilder(db: DB, rows: seq<Row>, es: seq<Edge>, p: Plan)
    ensures EdgeQueries(db, rows, es, p) <= NestedBuilders(es, p)
    decreases p, |es|
  {
    if es != [] {
      var e := es[|es| - 1];
      OneQueryPerBuilder(db, rows, es[..|es| - 1], p);
      if e in p.with {
        OneQueryPerBuilder(db, Fetch(db, e, Keys(e, rows), p.with[e].spec).rows, EdgesOf(Target(e)), p.with[e]);
      }
    }
  }

  lemma QueriesBounded(db: DB, kind: Kind, rows: seq<Row>, p: Plan)
    ensures Queries(db, kind, rows, p) <= NestedBuilders(EdgesOf(kind), p)
    ensures rows == [] ==> Queries(db, kind, rows, p) == 0
  {
    OneQueryPerBuilder(db, rows, EdgesOf(kind), p);
  }
}
