/** Column selection and eager loading: what `querySpec` selects always carries the ID and the
    foreign keys that the loaders read. */
module EagerColumns {
  import opened Wrappers
  import opened Schema
  import opened Database
  import opened EagerPlan

  lemma {:induction false} WithoutIDIs(cols: seq<Col>)
    ensures forall c :: c in WithoutID(cols) <==> c in cols && c != ID
  {
    if cols != [] {
      WithoutIDIs(cols[..|cols| - 1]);
      assert cols == cols[..|cols| - 1] + [cols[|cols| - 1]];
    }
  }

  lemma {:induction false} AddForeignKeysExtends(cols: seq<Col>, es: seq<Edge>, loaded: set<Edge>)
    ensures var all := AddForeignKeys(cols, es, loaded);
            && cols <= all
            && (forall e | e in es && e in loaded && Rel(e).M2O? :: Rel(e).fk in all)
            && (forall c | c in all[|cols|..] ::
                  c != ID && exists e :: e in es && e in loaded && Rel(e).M2O? && Rel(e).fk == c)
  {
    if es != [] {
      var e, front := es[|es| - 1], es[..|es| - 1];
      AddForeignKeysExtends(cols, front, loaded);
      assert es == front + [e];
      var all := AddForeignKeys(cols, front, loaded);
      if e in loaded && Rel(e).M2O? {
        assert (all + [Rel(e).fk])[|cols|..] == all[|cols|..] + [Rel(e).fk];
      }
    }
  }

  /** An explicit selection keeps the caller's columns, starts with the ID, which occurs once, and
      has the foreign key of every many-to-one edge to load, and nothing else. */
  lemma ColumnsCarryKeys(kind: Kind, fields: seq<Col>, loaded: set<Edge>)
    requires fields != []
    ensures var cols := Columns(kind, fields, loaded).value;
            && (forall f | f in fields :: f in cols)
            && (HasID(kind) ==> cols != [] && cols[0] == ID && forall i | 0 < i < |cols| :: cols[i] != ID)
            && (forall e | e in loaded && Source(e) == kind && Rel(e).M2O? :: Rel(e).fk in cols)
            && (forall c | c in cols ::
                  c in fields || (HasID(kind) && c == ID) || exists e :: e in loaded && Rel(e).M2O? && Rel(e).fk == c)
  {
    var base := if HasID(kind) then [ID] + WithoutID(fields) else fields;
    WithoutIDIs(fields);
    AddForeignKeysExtends(base, EdgesOf(kind), loaded);
    var cols := AddForeignKeys(base, EdgesOf(kind), loaded);
    assert cols == base + cols[|base|..];
    forall e | e in loaded && Source(e) == kind && Rel(e).M2O? ensures Rel(e).fk in cols {
      EdgesOfComplete(e);
    }
    if HasID(kind) {
      forall i | 0 < i < |cols| ensures cols[i] != ID {
        if i < |base| {
          assert cols[i] in WithoutID(fields);
        } else {
          assert cols[i] in cols[|base|..];
        }
      }
    }
  }

  /** A scanned node reads the same key for a column that is selected. */
  lemma ProjectKeeps(row: Row, cols: Option<seq<Col>>, c: Col)
    requires cols.None? || c in cols.value
    ensures c in Project(row, cols) <==> c in row
    ensures c in row ==> Project(row, cols)[c] == row[c]
  {
  }

  /** The node scanned for a row files itself under the same key as the row. */
  lemma NodeKeyOfScan(kind: Kind, fields: seq<Col>, loaded: set<Edge>, e: Edge, row: Row)
    requires e in loaded && Source(e) == kind
    ensures NodeKey(e, Project(row, Columns(kind, fields, loaded))) == NodeKey(e, row)
  {
    var cols := Columns(kind, fields, loaded);
    if fields != [] {
      ColumnsCarryKeys(kind, fields, loaded);
      if Rel(e).M2O? {
        ProjectKeeps(row, cols, Rel(e).fk);
      } else {
        assert HasID(kind) && cols.value[0] == ID;
        ProjectKeeps(row, cols, ID);
      }
    }
  }

  /** A neighbour scanned through the nested builder carries the column it is filed by. */
  lemma NeighbourKeyOfScan(e: Edge, fields: seq<Col>, loaded: set<Edge>, row: Row)
    ensures var scanned := Project(row, Columns(Target(e), NestedFields(e, fields), loaded));
            && (Rel(e).O2M? ==> (Rel(e).fk in scanned <==> Rel(e).fk in row)
                                && (Rel(e).fk in row ==> scanned[Rel(e).fk] == row[Rel(e).fk]))
            && (!Rel(e).O2M? ==> (ID in scanned <==> ID in row) && (ID in row ==> scanned[ID] == row[ID]))
  {
    var nested := NestedFields(e, fields);
    var cols := Columns(Target(e), nested, loaded);
    if nested != [] {
      ColumnsCarryKeys(Target(e), nested, loaded);
      if Rel(e).O2M? {
        assert Rel(e).fk in nested;
        ProjectKeeps(row, cols, Rel(e).fk);
      } else {
        assert HasID(Target(e)) && cols.value[0] == ID;
        ProjectKeeps(row, cols, ID);
      }
    }
  }

  // ---------- Selection never changes what is attached ----------

  /** The plan with every column selection removed. */
  function Wide(p: Plan): Plan {
    Plan(p.spec.(fields := []), map e | e in p.with :: Wide(p.with[e]))
  }

  /** Two trees attach the same neighbours everywhere, `t` showing some of the columns of `full`. */
  ghost predicate Narrows(t: Tree, full: Tree)
    decreases t
  {
    && (forall c | c in t.vals :: c in full.vals && t.vals[c] == full.vals[c])
    && t.edges.Keys == full.edges.Keys
    && (forall e | e in t.edges ::
          && |t.edges[e].trees| == |full.edges[e].trees|
          && forall j | 0 <= j < |t.edges[e].trees| :: Narrows(t.edges[e].trees[j], full.edges[e].trees[j]))
  }

  ghost predicate NarrowsAll(ts: seq<Tree>, full: seq<Tree>) {
    |ts| == |full| && forall j | 0 <= j < |ts| :: Narrows(ts[j], full[j])
  }

  lemma NarrowsByEdges(t: Tree, full: Tree)
    requires forall c | c in t.vals :: c in full.vals && t.vals[c] == full.vals[c]
    requires t.edges.Keys == full.edges.Keys
    requires forall e | e in t.edges :: NarrowsAll(t.edges[e].trees, full.edges[e].trees)
    ensures Narrows(t, full)
  {
  }

  lemma NarrowsSnoc(ts: seq<Tree>, full: seq<Tree>)
    requires ts != [] && |full| == |ts|
    ensures NarrowsAll(ts, full) <==>
            NarrowsAll(ts[..|ts| - 1], full[..|ts| - 1]) && Narrows(ts[|ts| - 1], full[|ts| - 1])
  {
  }

  lemma {:induction false} GatherNarrows(ts: seq<Tree>, full: seq<Tree>, tags: seq<set<int>>, key: Option<int>)
    requires |ts| == |tags| && NarrowsAll(ts, full)
    ensures NarrowsAll(Gather(ts, tags, key), Gather(full, tags, key))
  {
    if ts != [] {
      var n := |ts| - 1;
      NarrowsSnoc(ts, full);
      GatherNarrows(ts[..n], full[..n], tags[..n], key);
      var xs, ys := Gather(ts[..n], tags[..n], key), Gather(full[..n], tags[..n], key);
      assert (xs + [ts[n]])[..|xs|] == xs && (ys + [full[n]])[..|ys|] == ys;
      NarrowsSnoc(xs + [ts[n]], ys + [full[n]]);
    }
  }

  lemma FetchIgnoresFields(db: DB, e: Edge, keys: seq<int>, spec: Spec)
    ensures Fetch(db, e, keys, spec.(fields := [])) == Fetch(db, e, keys, spec)
  {
  }

  /** Whatever columns are selected at whatever level, and whatever the nested builders' limits and
      offsets, the loaded trees attach exactly the neighbours they attach with no selection. */
  lemma {:induction false} SelectionKeepsEdges(db: DB, kind: Kind, rows: seq<Row>, fields: seq<Col>, p: Plan)
    ensures NarrowsAll(BatchTrees(db, kind, rows, fields, p), BatchTrees(db, kind, rows, [], Wide(p)))
    decreases p, 1
  {
    forall i | 0 <= i < |rows|
      ensures Narrows(BatchTrees(db, kind, rows, fields, p)[i], BatchTrees(db, kind, rows, [], Wide(p))[i])
    {
      SelectionKeepsTree(db, kind, rows, i, fields, p);
    }
  }

  lemma {:induction false} SelectionKeepsTree(db: DB, kind: Kind, rows: seq<Row>, i: int, fields: seq<Col>, p: Plan)
    requires 0 <= i < |rows|
    ensures Narrows(BatchTree(db, kind, rows, i, fields, p), BatchTree(db, kind, rows, i, [], Wide(p)))
    decreases p, 0
  {
    var wide := Wide(p);
    var t, full := BatchTree(db, kind, rows, i, fields, p), BatchTree(db, kind, rows, i, [], wide);
    forall e | e in p.with ensures NarrowsAll(t.edges[e].trees, full.edges[e].trees) {
      SelectionKeepsEdge(db, e, rows, NodeKey(e, rows[i]), p.with[e]);
      assert t.edges[e] == Branch(BatchEdge(db, e, rows, NodeKey(e, rows[i]), p.with[e]));
      assert full.edges[e] == Branch(BatchEdge(db, e, rows, NodeKey(e, rows[i]), wide.with[e]));
    }
    NarrowsByEdges(t, full);
  }

  lemma {:induction false} SelectionKeepsEdge(db: DB, e: Edge, rows: seq<Row>, key: Option<int>, nested: Plan)
    ensures NarrowsAll(BatchEdge(db, e, rows, key, nested), BatchEdge(db, e, rows, key, Wide(nested)))
    decreases nested, 2
  {
    var f := Fetch(db, e, Keys(e, rows), nested.spec);
    FetchIgnoresFields(db, e, Keys(e, rows), nested.spec);
    SelectionKeepsEdges(db, Target(e), f.rows, NestedFields(e, nested.spec.fields), nested);
    assert NestedFields(e, []) == [];
    GatherNarrows(EdgeTrees(db, e, rows, nested), EdgeTrees(db, e, rows, Wide(nested)), f.tags, key);
  }
}
