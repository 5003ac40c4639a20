/** Limits and offsets on nested builders. The nested query is shared by all rows, so what a limit
    or an offset cuts off is cut off for all of them together: the exact condition under which
    batched loading still gives every row what its own lookup would. */
module EagerPaging {
  import opened Wrappers
  import opened Schema
  import opened Database
  import opened EagerPlan
  import opened EagerOrder
  import opened QueryBuilder
  import opened EagerResults

  /** A builder whose only options are a limit and an offset. */
  function Paged(limit: Option<nat>, offset: Option<nat>): Spec {
    EMPTY_SPEC.(limit := limit, offset := offset)
  }

  /** A plan that loads one edge, with no options but the nested builder's limit and offset. */
  function PagedPlan(e: Edge, limit: Option<nat>, offset: Option<nat>): Plan {
    Plan(EMPTY_SPEC, map[e := Plan(Paged(limit, offset), map[])])
  }

  /** On this database, a run of the plan builds what row-by-row loading would. */
  ghost predicate RunIsExact(db: DB, kind: Kind, p: Plan) {
    BatchAll(db, kind, p) == NaiveAll(db, kind, p)
  }

  /** The same, but for the order of many-to-many neighbours. */
  ghost predicate RunIsAlike(db: DB, kind: Kind, p: Plan) {
    PairwiseAlike(BatchAll(db, kind, p), NaiveAll(db, kind, p))
  }

  // ---------- A database in which each source has one target ----------

  /** The column that links sources and targets, unless a join table does. */
  function LinkCol(e: Edge): Col {
    if Rel(e).M2M? then ID else Rel(e).fk
  }

  /** The column of a target by which it is filed. */
  function FiledCol(e: Edge): Col {
    if Rel(e).O2M? then Rel(e).fk else ID
  }

  function EntityRow(col: Col, i: int): Row {
    map[ID := i][col := i]
  }

  function LinkRow(outCol: Col, inCol: Col, i: int): Row {
    map[outCol := i][inCol := i]
  }

  function Numbers(n: nat): (keys: seq<int>)
    ensures |keys| == n && forall i | 0 <= i < n :: keys[i] == i + 1
  {
    if n == 0 then [] else Numbers(n - 1) + [n]
  }

  function Entities(col: Col, n: nat): (rows: seq<Row>)
    ensures |rows| == n && forall i | 0 <= i < n :: rows[i] == EntityRow(col, i + 1)
  {
    if n == 0 then [] else Entities(col, n - 1) + [EntityRow(col, n)]
  }

  function Links(outCol: Col, inCol: Col, n: nat): (rows: seq<Row>)
    ensures |rows| == n && forall i | 0 <= i < n :: rows[i] == LinkRow(outCol, inCol, i + 1)
  {
    if n == 0 then [] else Links(outCol, inCol, n - 1) + [LinkRow(outCol, inCol, n)]
  }

  /** Sources and targets 1 to `n`, target i belonging to source i alone. Where an entity has an
      edge to itself, each row is its own neighbour. */
  function PairDB(e: Edge, n: nat): DB {
    var entities := Entities(LinkCol(e), n);
    var tables: map<Kind, seq<Row>> := map[Source(e) := entities][Target(e) := entities];
    DB(if Rel(e).M2M? then tables[Rel(e).join := Links(Rel(e).outCol, Rel(e).inCol, n)] else tables, joined => joined)
  }

  lemma RelFacts(e: Edge)
    ensures Rel(e).M2M? ==> Rel(e).join != Target(e) && Rel(e).join != Source(e)
    ensures Rel(e).M2M? ==> !HasID(Rel(e).join) && Rel(e).outCol != Rel(e).inCol
  {
  }

  lemma EntitiesKeyed(col: Col, n: nat)
    ensures Keyed(Entities(col, n))
  {
    assert forall i | 0 <= i < n :: Entities(col, n)[i][ID] == i + 1;
  }

  lemma PairTables(e: Edge, n: nat)
    ensures Table(PairDB(e, n), Source(e)) == Entities(LinkCol(e), n) == Table(PairDB(e, n), Target(e))
    ensures Rel(e).M2M? ==> Table(PairDB(e, n), Rel(e).join) == Links(Rel(e).outCol, Rel(e).inCol, n)
    ensures WellFormed(PairDB(e, n)) && InTargetOrder(PairDB(e, n))
  {
    RelFacts(e);
    EntitiesKeyed(LinkCol(e), n);
  }

  lemma KeyOf(e: Edge, i: int)
    ensures NodeKey(e, EntityRow(LinkCol(e), i)) == Some(i)
  {
  }

  lemma {:induction false} NumberedKeys(e: Edge, rows: seq<Row>)
    requires forall i | 0 <= i < |rows| :: NodeKey(e, rows[i]) == Some(i + 1)
    ensures |Keys(e, rows)| == |rows| && forall i | 0 <= i < |rows| :: Keys(e, rows)[i] == i + 1
  {
    if rows != [] {
      NumberedKeys(e, rows[..|rows| - 1]);
    }
  }

  lemma PairKeys(e: Edge, n: nat)
    ensures Keys(e, Entities(LinkCol(e), n)) == Numbers(n)
  {
    forall i | 0 <= i < n ensures NodeKey(e, Entities(LinkCol(e), n)[i]) == Some(i + 1) {
      KeyOf(e, i + 1);
    }
    NumberedKeys(e, Entities(LinkCol(e), n));
  }

  // ---------- What its queries give before paging ----------

  lemma {:induction false} OrderedByNothing(rows: seq<Row>)
    ensures Ordered([], rows) == rows
  {
    if rows != [] {
      OrderedByNothing(rows[..|rows| - 1]);
    }
  }

  lemma {:induction false} FilterAll(rows: seq<Row>, preds: seq<Pred>)
    requires forall r | r in rows :: HoldsAll(preds, r)
    ensures Filter(rows, preds) == rows
  {
    if rows != [] {
      FilterAll(rows[..|rows| - 1], preds);
    }
  }

  lemma {:induction false} FilterNone(rows: seq<Row>, preds: seq<Pred>)
    requires forall r | r in rows :: !HoldsAll(preds, r)
    ensures Filter(rows, preds) == []
  {
    if rows != [] {
      FilterNone(rows[..|rows| - 1], preds);
    }
  }

  lemma {:induction false} GatherNone<T>(xs: seq<T>, tags: seq<set<int>>, key: int)
    requires |xs| == |tags| && forall j | 0 <= j < |tags| :: key !in tags[j]
    ensures Gather(xs, tags, Some(key)) == []
  {
    if xs != [] {
      GatherNone(xs[..|xs| - 1], tags[..|xs| - 1], key);
    }
  }

  lemma OnePred(p: Pred, row: Row)
    ensures HoldsAll([] + [p], row) <==> Holds(p, row)
  {
    assert ([] + [p])[0] == p;
  }

  /** All keys together select all targets. */
  lemma FilterTargets(col: Col, n: nat, filed: Col, preds: seq<Pred>)
    requires preds == [] + [ColIn(filed, Numbers(n))] && filed in {ID, col}
    ensures Filter(Entities(col, n), preds) == Entities(col, n)
  {
    forall r | r in Entities(col, n) ensures HoldsAll(preds, r) {
      var i :| 0 <= i < n && Entities(col, n)[i] == r;
      OnePred(ColIn(filed, Numbers(n)), r);
      assert Numbers(n)[i] == i + 1;
    }
    FilterAll(Entities(col, n), preds);
  }

  /** The last key alone selects the last target. */
  lemma FilterLastTarget(col: Col, n: nat, filed: Col, preds: seq<Pred>)
    requires n > 0 && preds == [] + [ColIn(filed, [n])] && filed in {ID, col}
    ensures Filter(Entities(col, n), preds) == [EntityRow(col, n)]
  {
    forall r | r in Entities(col, n - 1) ensures !HoldsAll(preds, r) {
      var i :| 0 <= i < n - 1 && Entities(col, n - 1)[i] == r;
      OnePred(ColIn(filed, [n]), r);
    }
    FilterNone(Entities(col, n - 1), preds);
    OnePred(ColIn(filed, [n]), EntityRow(col, n));
    assert Entities(col, n)[..n - 1] == Entities(col, n - 1);
  }

  function Pairings(n: nat): (joined: seq<Joined>)
    ensures |joined| == n && forall i | 0 <= i < n :: joined[i] == Joined(i + 1, EntityRow(ID, i + 1))
  {
    if n == 0 then [] else Pairings(n - 1) + [Joined(n, EntityRow(ID, n))]
  }

  lemma {:induction false} PairsNone(links: seq<Row>, keys: seq<int>, row: Row, outCol: Col, inCol: Col)
    requires ID in row && forall l | l in links :: inCol in l && l[inCol] != row[ID]
    ensures Pairs(links, outCol, inCol, keys, row) == []
  {
    if links != [] {
      PairsNone(links[..|links| - 1], keys, row, outCol, inCol);
      assert links[|links| - 1] in links;
    }
  }

  /** One link alone leads to the target. */
  lemma {:induction false} PairsOne(links: seq<Row>, i: nat, keys: seq<int>, row: Row, outCol: Col, inCol: Col)
    requires ID in row && i < |links| && inCol in links[i] && links[i][inCol] == row[ID]
    requires outCol in links[i] && links[i][outCol] in keys
    requires forall k | 0 <= k < |links| && k != i :: inCol in links[k] && links[k][inCol] != row[ID]
    ensures Pairs(links, outCol, inCol, keys, row) == [Joined(links[i][outCol], row)]
  {
    var front := links[..|links| - 1];
    if i == |links| - 1 {
      PairsNone(front, keys, row, outCol, inCol);
    } else {
      PairsOne(front, i, keys, row, outCol, inCol);
    }
  }

  lemma PairsOfTarget(n: nat, keys: seq<int>, i: nat, outCol: Col, inCol: Col)
    requires outCol != inCol && i < n && i + 1 in keys
    ensures Pairs(Links(outCol, inCol, n), outCol, inCol, keys, EntityRow(ID, i + 1)) ==
            [Joined(i + 1, EntityRow(ID, i + 1))]
  {
    var links := Links(outCol, inCol, n);
    assert forall k | 0 <= k < n :: links[k][outCol] == k + 1 && links[k][inCol] == k + 1;
    PairsOne(links, i, keys, EntityRow(ID, i + 1), outCol, inCol);
  }

  lemma JoinRowsSnoc(front: seq<Row>, row: Row, joinRows: seq<Row>, outCol: Col, inCol: Col, keys: seq<int>)
    ensures JoinRows(front + [row], joinRows, outCol, inCol, keys) ==
            JoinRows(front, joinRows, outCol, inCol, keys) + Pairs(joinRows, outCol, inCol, keys, row)
  {
    assert (front + [row])[..|front|] == front;
  }

  lemma {:induction false} JoinAll(n: nat, outCol: Col, inCol: Col, joinRows: seq<Row>, keys: seq<int>)
    requires outCol != inCol
    requires forall i | 1 <= i <= n ::
               Pairs(joinRows, outCol, inCol, keys, EntityRow(ID, i)) == [Joined(i, EntityRow(ID, i))]
    ensures JoinRows(Entities(ID, n), joinRows, outCol, inCol, keys) == Pairings(n)
  {
    if n > 0 {
      JoinAll(n - 1, outCol, inCol, joinRows, keys);
      JoinRowsSnoc(Entities(ID, n - 1), EntityRow(ID, n), joinRows, outCol, inCol, keys);
    }
  }

  lemma JoinPairs(n: nat, outCol: Col, inCol: Col)
    requires outCol != inCol
    ensures JoinRows(Entities(ID, n), Links(outCol, inCol, n), outCol, inCol, Numbers(n)) == Pairings(n)
  {
    var links, keys := Links(outCol, inCol, n), Numbers(n);
    forall i | 1 <= i <= n
      ensures Pairs(links, outCol, inCol, keys, EntityRow(ID, i)) == [Joined(i, EntityRow(ID, i))]
    {
      assert keys[i - 1] == i;
      PairsOfTarget(n, keys, i - 1, outCol, inCol);
    }
    JoinAll(n, outCol, inCol, links, keys);
  }

  lemma OneMoreLink(front: seq<Row>, n: nat, key: int, outCol: Col, inCol: Col)
    requires outCol != inCol && n > 0
    requires JoinKeys(front, outCol, inCol, key) == if 1 <= key < n then [key] else []
    ensures JoinKeys(front + [LinkRow(outCol, inCol, n)], outCol, inCol, key) == if 1 <= key <= n then [key] else []
  {
    var j := LinkRow(outCol, inCol, n);
    assert (front + [j])[..|front|] == front;
    assert j[outCol] == n && j[inCol] == n;
  }

  lemma {:induction false} JoinKeysOne(links: seq<Row>, key: int, outCol: Col, inCol: Col)
    requires outCol != inCol && forall i | 0 <= i < |links| :: links[i] == LinkRow(outCol, inCol, i + 1)
    ensures JoinKeys(links, outCol, inCol, key) == if 1 <= key <= |links| then [key] else []
  {
    if links != [] {
      var front := links[..|links| - 1];
      JoinKeysOne(front, key, outCol, inCol);
      OneMoreLink(front, |links|, key, outCol, inCol);
      assert links == front + [LinkRow(outCol, inCol, |links|)];
    }
  }

  // ---------- Paging them ----------

  lemma SelectLast(e: Edge, n: nat, spec: Spec)
    requires n > 0 && spec.order == [] && spec.preds == [] + [ColIn(FiledCol(e), [n])]
    ensures Database.Select(PairDB(e, n), Target(e), spec) == Page([EntityRow(LinkCol(e), n)], spec.limit, spec.offset)
  {
    PairTables(e, n);
    OrderedByNothing(Entities(LinkCol(e), n));
    FilterLastTarget(LinkCol(e), n, FiledCol(e), spec.preds);
  }

  lemma LookupByColumn(db: DB, e: Edge, row: Row, key: int, spec: Spec)
    requires NodeKey(e, row) == Some(key) && !Rel(e).M2M?
    ensures NaiveRows(db, row, e, spec) ==
            Database.Select(db, Target(e), spec.(preds := spec.preds + [ColIn(FiledCol(e), [key])]))
  {
  }

  lemma LookupByJoin(db: DB, e: Edge, row: Row, key: int, spec: Spec)
    requires NodeKey(e, row) == Some(key) && Rel(e).M2M?
    requires JoinKeys(Table(db, Rel(e).join), Rel(e).outCol, Rel(e).inCol, key) == [key]
    ensures NaiveRows(db, row, e, spec) ==
            Database.Select(db, Target(e), spec.(preds := spec.preds + [ColIn(FiledCol(e), [key])]))
  {
  }

  /** The last source's own lookup pages its single target. */
  lemma OwnLookup(e: Edge, n: nat, limit: Option<nat>, offset: Option<nat>)
    requires n > 0
    ensures NaiveRows(PairDB(e, n), EntityRow(LinkCol(e), n), e, Paged(limit, offset)) ==
            Page([EntityRow(LinkCol(e), n)], limit, offset)
  {
    var db, spec := PairDB(e, n), Paged(limit, offset);
    KeyOf(e, n);
    if Rel(e).M2M? {
      RelFacts(e);
      PairTables(e, n);
      JoinKeysOne(Links(Rel(e).outCol, Rel(e).inCol, n), n, Rel(e).outCol, Rel(e).inCol);
      LookupByJoin(db, e, EntityRow(LinkCol(e), n), n, spec);
    } else {
      LookupByColumn(db, e, EntityRow(LinkCol(e), n), n, spec);
    }
    SelectLast(e, n, spec.(preds := spec.preds + [ColIn(FiledCol(e), [n])]));
  }

  lemma SelectTargets(e: Edge, n: nat, spec: Spec)
    requires spec.order == [] && spec.preds == [] + [ColIn(FiledCol(e), Numbers(n))]
    ensures Database.Select(PairDB(e, n), Target(e), spec) == Page(Entities(LinkCol(e), n), spec.limit, spec.offset)
  {
    PairTables(e, n);
    OrderedByNothing(Entities(LinkCol(e), n));
    FilterTargets(LinkCol(e), n, FiledCol(e), spec.preds);
  }

  /** The batch pages the targets of all sources together. */
  lemma BatchOfMany(e: Edge, n: nat, limit: Option<nat>, offset: Option<nat>)
    requires n > 0 && !Rel(e).M2M?
    ensures var f := Fetch(PairDB(e, n), e, Numbers(n), Paged(limit, offset));
            f.rows == Page(Entities(LinkCol(e), n), limit, offset) && f.tags == ColTags(f.rows, FiledCol(e))
  {
    SelectTargets(e, n, Attach(e, Numbers(n), Paged(limit, offset)));
  }

  lemma BatchOfJoined(e: Edge, n: nat, limit: Option<nat>, offset: Option<nat>)
    requires n > 0 && Rel(e).M2M?
    ensures var f, joined := Fetch(PairDB(e, n), e, Numbers(n), Paged(limit, offset)), Page(Pairings(n), limit, offset);
            f.rows == FirstAppearances(joined) && f.tags == JoinTags(f.rows, joined)
  {
    RelFacts(e);
    PairTables(e, n);
    OrderedByNothing(Entities(ID, n));
    FilterAll(Entities(ID, n), []);
    JoinPairs(n, Rel(e).outCol, Rel(e).inCol);
  }

  lemma PageOfLast<T>(xs: seq<T>, limit: Option<nat>, skip: nat)
    requires |xs| == skip + 1
    ensures Page(xs, limit, Some(skip)) == [xs[skip]]
  {
  }

  lemma PageOfOne<T>(x: T, limit: nat, offset: Option<nat>)
    requires limit > 0 && OrZero(offset) == 0
    ensures Page([x], Some(limit), offset) == [x]
  {
  }

  lemma PageOfFirsts<T>(xs: seq<T>, n: nat, offset: Option<nat>)
    requires 0 < n < |xs| && OrZero(offset) == 0
    ensures Page(xs, Some(n), offset) == xs[..n]
  {
  }

  lemma SkippedMany(e: Edge, n: nat, limit: Option<nat>)
    requires n > 0 && !Rel(e).M2M?
    ensures Fetch(PairDB(e, n), e, Numbers(n), Paged(limit, Some(n - 1))) == Fetched([EntityRow(LinkCol(e), n)], [{n}])
  {
    BatchOfMany(e, n, limit, Some(n - 1));
    PageOfLast(Entities(LinkCol(e), n), limit, n - 1);
  }

  lemma SkippedJoined(e: Edge, n: nat, limit: Option<nat>)
    requires n > 0 && Rel(e).M2M?
    ensures Fetch(PairDB(e, n), e, Numbers(n), Paged(limit, Some(n - 1))) == Fetched([EntityRow(LinkCol(e), n)], [{n}])
  {
    BatchOfJoined(e, n, limit, Some(n - 1));
    PageOfLast(Pairings(n), limit, n - 1);
    OneJoined(Joined(n, EntityRow(LinkCol(e), n)));
  }

  /** With an offset, the batch gives the last source its target: the others' are skipped. */
  lemma SkippedBatch(e: Edge, n: nat, limit: Option<nat>)
    requires n > 0
    ensures var f := Fetch(PairDB(e, n), e, Numbers(n), Paged(limit, Some(n - 1)));
            Gather(f.rows, f.tags, Some(n)) == [EntityRow(LinkCol(e), n)]
  {
    if Rel(e).M2M? {
      SkippedJoined(e, n, limit);
    } else {
      SkippedMany(e, n, limit);
    }
    OneGathered(EntityRow(LinkCol(e), n), [{n}], n);
  }

  lemma OneJoined(p: Joined)
    requires ID in p.row
    ensures FirstAppearances([p]) == [p.row] && JoinTags([p.row], [p]) == [{p.out}]
  {
    assert [p][..0] == [];
    assert p in [p];
    assert OutsOf([p], p.row[ID]) == {p.out};
  }

  lemma OneGathered(row: Row, tags: seq<set<int>>, key: int)
    requires tags == [{key}]
    ensures Gather([row], tags, Some(key)) == [row]
  {
  }

  /** No row is tagged with the key. */
  ghost predicate Untagged(f: Fetched, key: int) {
    |f.rows| == |f.tags| && forall j | 0 <= j < |f.tags| :: key !in f.tags[j]
  }

  lemma LimitedMany(e: Edge, n: nat, offset: Option<nat>)
    requires n > 1 && OrZero(offset) == 0 && !Rel(e).M2M?
    ensures Untagged(Fetch(PairDB(e, n), e, Numbers(n), Paged(Some(n - 1), offset)), n)
  {
    var f := Fetch(PairDB(e, n), e, Numbers(n), Paged(Some(n - 1), offset));
    BatchOfMany(e, n, Some(n - 1), offset);
    PageOfFirsts(Entities(LinkCol(e), n), n - 1, offset);
    FirstTags(LinkCol(e), n, FiledCol(e), f.rows);
  }

  /** None of the first targets is tagged with the last key. */
  lemma FirstTags(col: Col, n: nat, filed: Col, rows: seq<Row>)
    requires n > 0 && rows == Entities(col, n)[..n - 1] && filed in {ID, col}
    ensures forall j | 0 <= j < n - 1 :: n !in ColTags(rows, filed)[j]
  {
    forall j | 0 <= j < n - 1 ensures ColTags(rows, filed)[j] == {j + 1} {
      assert rows[j] == EntityRow(col, j + 1);
    }
  }

  lemma NoJoinTag(rows: seq<Row>, joined: seq<Joined>, key: int)
    requires forall p | p in joined :: p.out != key
    ensures forall j | 0 <= j < |rows| :: key !in JoinTags(rows, joined)[j]
  {
  }

  lemma LimitedJoined(e: Edge, n: nat, offset: Option<nat>)
    requires n > 1 && OrZero(offset) == 0 && Rel(e).M2M?
    ensures Untagged(Fetch(PairDB(e, n), e, Numbers(n), Paged(Some(n - 1), offset)), n)
  {
    var joined := Pairings(n)[..n - 1];
    BatchOfJoined(e, n, Some(n - 1), offset);
    PageOfFirsts(Pairings(n), n - 1, offset);
    assert forall j | 0 <= j < n - 1 :: joined[j] == Pairings(n)[j];
    NoJoinTag(FirstAppearances(joined), joined, n);
  }

  lemma GatherUntagged(f: Fetched, key: int)
    requires Untagged(f, key)
    ensures Gather(f.rows, f.tags, Some(key)) == []
  {
    GatherNone(f.rows, f.tags, key);
  }

  /** With a limit, the batch gives the last source nothing: the others' targets use it up. */
  lemma LimitedBatch(e: Edge, n: nat, offset: Option<nat>)
    requires n > 1 && OrZero(offset) == 0
    ensures var f := Fetch(PairDB(e, n), e, Numbers(n), Paged(Some(n - 1), offset));
            Gather(f.rows, f.tags, Some(n)) == []
  {
    if Rel(e).M2M? {
      LimitedJoined(e, n, offset);
    } else {
      LimitedMany(e, n, offset);
    }
    GatherUntagged(Fetch(PairDB(e, n), e, Numbers(n), Paged(Some(n - 1), offset)), n);
  }

  /** What the loader of a run that selects every source files under the key of the `i`-th, and what
      that source's own lookup finds. */
  ghost predicate SourceGets(db: DB, e: Edge, i: nat, spec: Spec, batch: seq<Row>, own: seq<Row>) {
    var rows := Table(db, Source(e));
    var f := Fetch(db, e, Keys(e, rows), spec);
    i < |rows| && Gather(f.rows, f.tags, NodeKey(e, rows[i])) == batch && NaiveRows(db, rows[i], e, spec) == own
  }

  lemma LastGets(e: Edge, n: nat, spec: Spec, batch: seq<Row>, own: seq<Row>)
    requires n > 0 && NaiveRows(PairDB(e, n), EntityRow(LinkCol(e), n), e, spec) == own
    requires var f := Fetch(PairDB(e, n), e, Numbers(n), spec); Gather(f.rows, f.tags, Some(n)) == batch
    ensures SourceGets(PairDB(e, n), e, n - 1, spec, batch, own)
  {
    PairTables(e, n);
    PairKeys(e, n);
    KeyOf(e, n);
  }

  /** Whatever the edge, an offset on the nested builder that skips something gives the last of
      the sources a neighbour that its own lookup skips. */
  lemma NestedOffsetLoses(e: Edge, skip: nat, limit: Option<nat>)
    requires skip > 0
    ensures var last := EntityRow(LinkCol(e), skip + 1);
            SourceGets(PairDB(e, skip + 1), e, skip, Paged(limit, Some(skip)), [last], [])
  {
    var n := skip + 1;
    SkippedBatch(e, n, limit);
    OwnLookup(e, n, limit, Some(skip));
    assert Page([EntityRow(LinkCol(e), n)], limit, Some(skip)) == [];
    LastGets(e, n, Paged(limit, Some(skip)), [EntityRow(LinkCol(e), n)], []);
  }

  /** Whatever the edge and the limit on the nested builder, the last of the sources loses its
      only neighbour. */
  lemma NestedLimitLoses(e: Edge, limit: nat, offset: Option<nat>)
    requires limit > 0 && OrZero(offset) == 0
    ensures var last := EntityRow(LinkCol(e), limit + 1);
            SourceGets(PairDB(e, limit + 1), e, limit, Paged(Some(limit), offset), [], [last])
  {
    var n := limit + 1;
    LimitedBatch(e, n, offset);
    OwnLookup(e, n, Some(limit), offset);
    PageOfOne(EntityRow(LinkCol(e), n), limit, offset);
    LastGets(e, n, Paged(Some(limit), offset), [], [EntityRow(LinkCol(e), n)]);
  }

  // ---------- Whole runs ----------

  lemma {:induction false} GatherLength<T, U>(xs: seq<T>, ys: seq<U>, tags: seq<set<int>>, key: Option<int>)
    requires |xs| == |ys| == |tags|
    ensures |Gather(xs, tags, key)| == |Gather(ys, tags, key)|
  {
    if xs != [] {
      var n := |xs| - 1;
      GatherLength(xs[..n], ys[..n], tags[..n], key);
    }
  }

  lemma SelectEverything(db: DB, kind: Kind)
    ensures Database.Select(db, kind, EMPTY_SPEC) == Table(db, kind)
  {
    OrderedByNothing(Table(db, kind));
    FilterAll(Table(db, kind), []);
  }

  lemma BatchEdgeLength(db: DB, e: Edge, rows: seq<Row>, key: Option<int>, nested: Plan)
    ensures var f := Fetch(db, e, Keys(e, rows), nested.spec);
            |BatchEdge(db, e, rows, key, nested)| == |Gather(f.rows, f.tags, key)|
  {
    var f := Fetch(db, e, Keys(e, rows), nested.spec);
    GatherLength(f.rows, EdgeTrees(db, e, rows, nested), f.tags, key);
  }

  /** Trees with different numbers of neighbours along an edge are not alike. */
  lemma TreesDiffer(db: DB, kind: Kind, rows: seq<Row>, i: nat, fields: seq<Col>, p: Plan, e: Edge)
    requires i < |rows| && e in p.with
    requires |BatchEdge(db, e, rows, NodeKey(e, rows[i]), p.with[e])| != |NaiveEdge(db, rows[i], e, p.with[e])|
    ensures BatchTree(db, kind, rows, i, fields, p) != NaiveTree(db, kind, rows[i], fields, p)
    ensures !Alike(BatchTree(db, kind, rows, i, fields, p), NaiveTree(db, kind, rows[i], fields, p))
  {
    NaiveTreeIs(db, kind, rows[i], fields, p);
    var built, naive := BatchTree(db, kind, rows, i, fields, p), NaiveTree(db, kind, rows[i], fields, p);
    assert built.edges[e].trees == BatchEdge(db, e, rows, NodeKey(e, rows[i]), p.with[e]);
    assert naive.edges[e].trees == NaiveEdge(db, rows[i], e, p.with[e]);
    if Alike(built, naive) {
      AlikeLengths(built, naive, e);
    }
  }

  lemma BatchTreeAt(db: DB, kind: Kind, rows: seq<Row>, fields: seq<Col>, p: Plan, i: nat)
    requires i < |rows|
    ensures BatchTrees(db, kind, rows, fields, p)[i] == BatchTree(db, kind, rows, i, fields, p)
  {
  }

  lemma NaiveTreeAt(db: DB, kind: Kind, rows: seq<Row>, p: Plan, i: nat)
    requires rows == Database.Select(db, kind, p.spec) && i < |rows|
    ensures |NaiveAll(db, kind, p)| == |rows|
    ensures NaiveAll(db, kind, p)[i] == NaiveTree(db, kind, rows[i], p.spec.fields, p)
  {
  }

  lemma RunDiffers(db: DB, kind: Kind, rows: seq<Row>, p: Plan, i: nat)
    requires rows == Database.Select(db, kind, p.spec) && i < |rows|
    requires BatchTree(db, kind, rows, i, p.spec.fields, p) != NaiveTree(db, kind, rows[i], p.spec.fields, p)
    requires !Alike(BatchTree(db, kind, rows, i, p.spec.fields, p), NaiveTree(db, kind, rows[i], p.spec.fields, p))
    ensures !RunIsExact(db, kind, p) && !RunIsAlike(db, kind, p)
  {
    BatchTreeAt(db, kind, rows, p.spec.fields, p, i);
    NaiveTreeAt(db, kind, rows, p, i);
  }

  /** A row that gets another number of neighbours than its own lookup finds makes the run inexact. */
  lemma NeighboursDiffer(db: DB, e: Edge, rows: seq<Row>, p: Plan, i: nat)
    requires rows == Database.Select(db, Source(e), p.spec) && i < |rows| && e in p.with
    requires var f := Fetch(db, e, Keys(e, rows), p.with[e].spec);
             |Gather(f.rows, f.tags, NodeKey(e, rows[i]))| != |NaiveRows(db, rows[i], e, p.with[e].spec)|
    ensures !RunIsExact(db, Source(e), p) && !RunIsAlike(db, Source(e), p)
  {
    BatchEdgeLength(db, e, rows, NodeKey(e, rows[i]), p.with[e]);
    TreesDiffer(db, Source(e), rows, i, p.spec.fields, p, e);
    RunDiffers(db, Source(e), rows, p, i);
  }

  lemma SourceDecides(db: DB, e: Edge, i: nat, p: Plan, batch: seq<Row>, own: seq<Row>)
    requires p.spec == EMPTY_SPEC && e in p.with && SourceGets(db, e, i, p.with[e].spec, batch, own)
    requires |batch| != |own|
    ensures !RunIsExact(db, Source(e), p) && !RunIsAlike(db, Source(e), p)
  {
    SelectEverything(db, Source(e));
    NeighboursDiffer(db, e, Table(db, Source(e)), p, i);
  }

  /** A run of the plan is exact on every database that returns joined rows in target order. */
  ghost predicate AlwaysExact(kind: Kind, p: Plan) {
    forall db | WellFormed(db) && InTargetOrder(db) :: RunIsExact(db, kind, p)
  }

  /** A run of the plan is exact on every database, but for the order of many-to-many neighbours. */
  ghost predicate AlwaysAlike(kind: Kind, p: Plan) {
    forall db | WellFormed(db) :: RunIsAlike(db, kind, p)
  }

  lemma InexactOn(db: DB, kind: Kind, p: Plan)
    requires WellFormed(db) && InTargetOrder(db) && !RunIsExact(db, kind, p) && !RunIsAlike(db, kind, p)
    ensures !AlwaysExact(kind, p) && !AlwaysAlike(kind, p)
  {
  }

  lemma OffsetIsInexact(e: Edge, limit: Option<nat>, skip: nat)
    requires skip > 0
    ensures var p := PagedPlan(e, limit, Some(skip)); !AlwaysExact(Source(e), p) && !AlwaysAlike(Source(e), p)
  {
    var p, n := PagedPlan(e, limit, Some(skip)), skip + 1;
    PairTables(e, n);
    NestedOffsetLoses(e, skip, limit);
    SourceDecides(PairDB(e, n), e, skip, p, [EntityRow(LinkCol(e), n)], []);
    InexactOn(PairDB(e, n), Source(e), p);
  }

  lemma LimitIsInexact(e: Edge, limit: nat, offset: Option<nat>)
    requires limit > 0 && OrZero(offset) == 0
    ensures var p := PagedPlan(e, Some(limit), offset); !AlwaysExact(Source(e), p) && !AlwaysAlike(Source(e), p)
  {
    var p, n := PagedPlan(e, Some(limit), offset), limit + 1;
    PairTables(e, n);
    NestedLimitLoses(e, limit, offset);
    SourceDecides(PairDB(e, n), e, limit, p, [], [EntityRow(LinkCol(e), n)]);
    InexactOn(PairDB(e, n), Source(e), p);
  }

  /** For every edge, limit and offset: runs that load the edge are exact on every database exactly
      when the nested builder has neither a limit nor an offset, other than zero; and likewise if
      the order of many-to-many neighbours is left to the database. */
  lemma ExactWithoutPagingOnly(e: Edge, limit: Option<nat>, offset: Option<nat>)
    ensures AlwaysExact(Source(e), PagedPlan(e, limit, offset)) <==> OrZero(limit) == 0 && OrZero(offset) == 0
    ensures AlwaysAlike(Source(e), PagedPlan(e, limit, offset)) <==> OrZero(limit) == 0 && OrZero(offset) == 0
  {
    if OrZero(offset) > 0 {
      OffsetIsInexact(e, limit, offset.value);
    } else if OrZero(limit) > 0 {
      LimitIsInexact(e, limit.value, offset);
    } else {
      UnpagedIsExact(e, limit, offset);
    }
  }

  lemma UnpagedIsExact(e: Edge, limit: Option<nat>, offset: Option<nat>)
    requires OrZero(limit) == 0 && OrZero(offset) == 0
    ensures AlwaysExact(Source(e), PagedPlan(e, limit, offset)) && AlwaysAlike(Source(e), PagedPlan(e, limit, offset))
  {
    var p := PagedPlan(e, limit, offset);
    assert NoNestedPaging(p.with[e]);
    forall db | WellFormed(db)
      ensures RunIsAlike(db, Source(e), p) && (InTargetOrder(db) ==> RunIsExact(db, Source(e), p))
    {
      BatchAllIsNaive(db, Source(e), p);
    }
  }
}
