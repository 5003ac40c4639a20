/** What each edge means in the columns of the stored rows: the neighbours that a run attaches, edge
    by edge and level by level, and which edges are inverse to each other. */
module EagerEdges {
  import opened Wrappers
  import opened Schema
  import opened Database
  import opened EagerPlan
  import opened EagerRuns
  import opened EagerColumns
  import opened EagerOrder
  import opened EagerQueries
  import opened QueryBuilder

  // ---------- The edges ----------

  /** The number in a column; a NULL reads as zero where the field is no pointer. */
  function Num(row: Row, col: Col): int {
    if col in row then row[col] else 0
  }

  /** The rows of the entity to which the edge leads. */
  function Candidates(db: DB, e: Edge): seq<Row> {
    match e
    case AccountToGroups => Table(db, Group)
    case AccountToProxy => Table(db, Proxy)
    case AccountToParent => Table(db, Account)
    case AccountToChildren => Table(db, Account)
    case AccountToUsageLogs => Table(db, UsageLog)
    case AccountToAccountGroups => Table(db, AccountGroup)
    case GroupToAccounts => Table(db, Account)
    case ProxyToAccounts => Table(db, Account)
    case ProxyToBackupProxy => Table(db, Proxy)
    case AccountGroupToAccount => Table(db, Account)
    case AccountGroupToGroup => Table(db, Group)
    case APIKeyToUser => Table(db, User)
    case APIKeyToGroup => Table(db, Group)
    case APIKeyToUsageLogs => Table(db, UsageLog)
    case AuthIdentityToUser => Table(db, User)
    case AuthIdentityToChannels => Table(db, AuthIdentityChannel)
    case AuthIdentityToAdoptionDecisions => Table(db, IdentityAdoptionDecision)
  }

  /** A row of the join table of accounts and groups names both. */
  ghost predicate Joins(db: DB, account: int, group: int) {
    exists j :: j in Table(db, AccountGroup) && AccountID in j && GroupID in j
                && j[AccountID] == account && j[GroupID] == group
  }

  /** The edge leads from `row` to `r`. */
  ghost predicate Linked(db: DB, e: Edge, row: Row, r: Row) {
    match e
    case AccountToGroups => ID in r && Joins(db, Num(row, ID), r[ID])
    case AccountToProxy => ProxyID in row && ID in r && r[ID] == row[ProxyID]
    case AccountToParent => ParentAccountID in row && ID in r && r[ID] == row[ParentAccountID]
    case AccountToChildren => ParentAccountID in r && r[ParentAccountID] == Num(row, ID)
    case AccountToUsageLogs => AccountID in r && r[AccountID] == Num(row, ID)
    case AccountToAccountGroups => AccountID in r && r[AccountID] == Num(row, ID)
    case GroupToAccounts => ID in r && Joins(db, r[ID], Num(row, ID))
    case ProxyToAccounts => ProxyID in r && r[ProxyID] == Num(row, ID)
    case ProxyToBackupProxy => BackupProxyID in row && ID in r && r[ID] == row[BackupProxyID]
    case AccountGroupToAccount => ID in r && r[ID] == Num(row, AccountID)
    case AccountGroupToGroup => ID in r && r[ID] == Num(row, GroupID)
    case APIKeyToUser => ID in r && r[ID] == Num(row, UserID)
    case APIKeyToGroup => GroupID in row && ID in r && r[ID] == row[GroupID]
    case APIKeyToUsageLogs => APIKeyID in r && r[APIKeyID] == Num(row, ID)
    case AuthIdentityToUser => ID in r && r[ID] == Num(row, UserID)
    case AuthIdentityToChannels => IdentityID in r && r[IdentityID] == Num(row, ID)
    case AuthIdentityToAdoptionDecisions => IdentityID in r && r[IdentityID] == Num(row, ID)
  }

  /** How often `r` is among the neighbours of `row`: as often as it is stored, if the edge leads
      there and the nested builder's predicates admit it. */
  ghost function Expected(db: DB, e: Edge, row: Row, spec: Spec, r: Row): nat {
    if Linked(db, e, row, r) && Admits(spec.preds, r) then multiset(Candidates(db, e))[r] else 0
  }

  lemma {:induction false} JoinKeysAre(joinRows: seq<Row>, outCol: Col, inCol: Col, key: int, id: int)
    ensures id in JoinKeys(joinRows, outCol, inCol, key) <==>
            exists j :: j in joinRows && outCol in j && inCol in j && j[outCol] == key && j[inCol] == id
  {
    if joinRows != [] {
      var front, last := joinRows[..|joinRows| - 1], joinRows[|joinRows| - 1];
      assert joinRows == front + [last];
      JoinKeysAre(front, outCol, inCol, key, id);
    }
  }

  /** The filter by which the row's own lookup finds its neighbours. */
  function KeyPred(db: DB, e: Edge, key: int): Pred {
    match Rel(e)
    case M2O(_, _) => ColIn(ID, [key])
    case O2M(fk, _) => ColIn(fk, [key])
    case M2M(join, outCol, inCol) => ColIn(ID, JoinKeys(Table(db, join), outCol, inCol, key))
  }

  lemma LookupFilters(db: DB, e: Edge, row: Row, spec: Spec)
    requires NodeKey(e, row).Some?
    ensures NaiveRows(db, row, e, spec) ==
            Database.Select(db, Target(e), spec.(preds := spec.preds + [KeyPred(db, e, NodeKey(e, row).value)]))
  {
  }

  lemma KeyIsLink(db: DB, e: Edge, row: Row, r: Row)
    ensures Linked(db, e, row, r) <==> NodeKey(e, row).Some? && Holds(KeyPred(db, e, NodeKey(e, row).value), r)
  {
    if Rel(e).M2M? && ID in r {
      JoinKeysAre(Table(db, AccountGroup), Rel(e).outCol, Rel(e).inCol, Num(row, ID), r[ID]);
    }
  }

  lemma CandidatesAre(db: DB, e: Edge)
    ensures Candidates(db, e) == Table(db, Target(e))
  {
  }

  lemma FilteredBy(db: DB, kind: Kind, spec: Spec, pred: Pred, r: Row)
    requires Unpaged(spec)
    ensures multiset(Database.Select(db, kind, spec.(preds := spec.preds + [pred])))[r] ==
            if Admits(spec.preds, r) && Holds(pred, r) then multiset(Table(db, kind))[r] else 0
  {
    var own := spec.(preds := spec.preds + [pred]);
    UnpagedPage(Matching(db, kind, own), own.limit, own.offset);
    MatchingExactly(db, kind, own, r);
    AdmitsExactly(spec.preds, r);
    AdmitsExactly(own.preds, r);
    HoldsAllSnoc(spec.preds, pred, r);
  }

  /** A row's own lookup finds exactly the rows to which the edge leads and that the nested
      builder's predicates admit, each as often as it is stored. */
  lemma LookupExactly(db: DB, e: Edge, row: Row, spec: Spec, r: Row)
    requires Unpaged(spec)
    ensures multiset(NaiveRows(db, row, e, spec))[r] == Expected(db, e, row, spec, r)
  {
    KeyIsLink(db, e, row, r);
    CandidatesAre(db, e);
    if NodeKey(e, row).Some? {
      LookupFilters(db, e, row, spec);
      FilteredBy(db, Target(e), spec, KeyPred(db, e, NodeKey(e, row).value), r);
    }
  }

  // ---------- Inverse edges ----------

  /** The two edges are the two directions of one relation. */
  predicate Inverse(e: Edge, back: Edge) {
    || (e == AccountToParent && back == AccountToChildren)
    || (e == AccountToProxy && back == ProxyToAccounts)
    || (e == AccountToGroups && back == GroupToAccounts)
    || (e == AccountGroupToAccount && back == AccountToAccountGroups)
  }

  /** The columns that may not be NULL have values. */
  ghost predicate KeysPresent(db: DB) {
    forall j | j in Table(db, AccountGroup) :: AccountID in j && GroupID in j
  }

  lemma StoredHasID(db: DB, kind: Kind, row: Row)
    requires WellFormed(db) && kind != AccountGroup && row in Table(db, kind)
    ensures ID in row
  {
    assert HasID(kind);
    var i :| 0 <= i < |Table(db, kind)| && Table(db, kind)[i] == row;
  }

  lemma LookupHas(db: DB, e: Edge, row: Row, r: Row)
    ensures r in NaiveRows(db, row, e, EMPTY_SPEC) <==> Linked(db, e, row, r) && r in Candidates(db, e)
  {
    LookupExactly(db, e, row, EMPTY_SPEC, r);
    assert r in NaiveRows(db, row, e, EMPTY_SPEC) <==> multiset(NaiveRows(db, row, e, EMPTY_SPEC))[r] > 0;
    assert r in Candidates(db, e) <==> multiset(Candidates(db, e))[r] > 0;
  }

  lemma LinksInverse(db: DB, e: Edge, back: Edge, a: Row, b: Row)
    requires Inverse(e, back) && ID in b && (if e == AccountGroupToAccount then AccountID in a else ID in a)
    ensures Linked(db, e, a, b) <==> Linked(db, back, b, a)
  {
  }

  /** A row is among another's neighbours exactly if that is among its own in the other direction:
      an account is a child of its parent, belongs to its proxy, and is in its groups. */
  lemma InverseEdges(db: DB, e: Edge, back: Edge, a: Row, b: Row)
    requires WellFormed(db) && KeysPresent(db) && Inverse(e, back)
    requires a in Candidates(db, back) && b in Candidates(db, e)
    ensures b in NaiveRows(db, a, e, EMPTY_SPEC) <==> a in NaiveRows(db, b, back, EMPTY_SPEC)
  {
    LookupHas(db, e, a, b);
    LookupHas(db, back, b, a);
    CandidatesAre(db, e);
    CandidatesAre(db, back);
    StoredHasID(db, Target(e), b);
    if e != AccountGroupToAccount {
      StoredHasID(db, Target(back), a);
    }
    LinksInverse(db, e, back, a, b);
  }

  // ---------- The loaded trees ----------

  /** The tree shows columns of its row: all of them, or the chosen ones and some keys. */
  ghost predicate ShowsRow(row: Row, chosen: seq<Col>, vals: Row) {
    && (forall c | c in vals :: c in row && vals[c] == row[c])
    && (forall c | c in row && (chosen == [] || c in chosen) :: c in vals)
    && (forall c | c in vals && c.Attr? :: chosen == [] || c in chosen)
  }

  /** The fields are the chosen ones and perhaps some keys, or none if none are chosen. */
  ghost predicate Carries(fields: seq<Col>, chosen: seq<Col>) {
    && (forall c | c in chosen :: c in fields) && (forall c | c in fields && c.Attr? :: c in chosen)
    && (chosen == [] ==> fields == [])
  }

  /** The rows are the neighbours of `row`, in some order. */
  ghost predicate AreNeighbours(db: DB, e: Edge, row: Row, spec: Spec, rs: seq<Row>) {
    forall r :: multiset(rs)[r] == Expected(db, e, row, spec, r)
  }

  /** The tree shows its row and, on every loaded edge, the neighbours of the row, each in turn with
      its own neighbours. */
  ghost predicate Right(db: DB, row: Row, chosen: seq<Col>, p: Plan, t: Tree)
    decreases p
  {
    && ShowsRow(row, chosen, t.vals) && t.edges.Keys == p.with.Keys
    && forall e | e in p.with ::
         exists rs: seq<Row> | AreNeighbours(db, e, row, p.with[e].spec, rs) :: |rs| == |t.edges[e].trees|
           && forall j | 0 <= j < |rs| :: Right(db, rs[j], p.with[e].spec.fields, p.with[e], t.edges[e].trees[j])
  }

  ghost predicate AllRight(db: DB, rows: seq<Row>, chosen: seq<Col>, p: Plan, ts: seq<Tree>) {
    |rows| == |ts| && forall j | 0 <= j < |rows| :: Right(db, rows[j], chosen, p, ts[j])
  }

  lemma RightByEdges(db: DB, row: Row, chosen: seq<Col>, p: Plan, t: Tree)
    requires ShowsRow(row, chosen, t.vals) && t.edges.Keys == p.with.Keys
    requires forall e | e in p.with ::
               exists rs: seq<Row> | AreNeighbours(db, e, row, p.with[e].spec, rs) ::
                 AllRight(db, rs, p.with[e].spec.fields, p.with[e], t.edges[e].trees)
    ensures Right(db, row, chosen, p, t)
  {
    forall e | e in p.with
      ensures exists rs: seq<Row> | AreNeighbours(db, e, row, p.with[e].spec, rs) :: |rs| == |t.edges[e].trees|
                && forall j | 0 <= j < |rs| :: Right(db, rs[j], p.with[e].spec.fields, p.with[e], t.edges[e].trees[j])
    {
      var rs: seq<Row> :| AreNeighbours(db, e, row, p.with[e].spec, rs)
                          && AllRight(db, rs, p.with[e].spec.fields, p.with[e], t.edges[e].trees);
    }
  }

  lemma AllRightSnoc(db: DB, rows: seq<Row>, chosen: seq<Col>, p: Plan, ts: seq<Tree>)
    requires rows != [] && |rows| == |ts|
    ensures var n := |rows| - 1;
            AllRight(db, rows, chosen, p, ts) <==>
            AllRight(db, rows[..n], chosen, p, ts[..n]) && Right(db, rows[n], chosen, p, ts[n])
  {
  }

  lemma {:induction false} GatherRight(db: DB, rows: seq<Row>, chosen: seq<Col>, p: Plan, ts: seq<Tree>,
                                       tags: seq<set<int>>, key: Option<int>)
    requires |tags| == |rows| && AllRight(db, rows, chosen, p, ts)
    ensures AllRight(db, Gather(rows, tags, key), chosen, p, Gather(ts, tags, key))
  {
    if rows != [] {
      var n := |rows| - 1;
      AllRightSnoc(db, rows, chosen, p, ts);
      GatherRight(db, rows[..n], chosen, p, ts[..n], tags[..n], key);
      var xs, ys := Gather(rows[..n], tags[..n], key), Gather(ts[..n], tags[..n], key);
      assert (xs + [rows[n]])[..|xs|] == xs && (ys + [ts[n]])[..|ys|] == ys;
      AllRightSnoc(db, xs + [rows[n]], chosen, p, ys + [ts[n]]);
    }
  }

  lemma KeysAreNoAttributes(e: Edge)
    ensures Rel(e).M2O? || Rel(e).O2M? ==> !Rel(e).fk.Attr?
  {
  }

  lemma ScanShowsRow(kind: Kind, row: Row, chosen: seq<Col>, fields: seq<Col>, loaded: set<Edge>)
    requires Carries(fields, chosen)
    ensures ShowsRow(row, chosen, Project(row, Columns(kind, fields, loaded)))
  {
    assert chosen != [] ==> chosen[0] in fields;
    if fields != [] {
      ColumnsCarryKeys(kind, fields, loaded);
      var vals := Project(row, Columns(kind, fields, loaded));
      forall c | c in vals && c.Attr? ensures chosen == [] || c in chosen {
        assert c in Columns(kind, fields, loaded).value;
        if e: Edge :| e in loaded && Rel(e).M2O? && Rel(e).fk == c {
          KeysAreNoAttributes(e);
        }
      }
    }
  }

  /** Whatever the plan and the order of joined rows: the loaded trees show the right rows at every
      level. */
  lemma {:induction false} BatchIsRight(db: DB, kind: Kind, rows: seq<Row>, chosen: seq<Col>, fields: seq<Col>, p: Plan)
    requires WellFormed(db) && NoNestedPaging(p)
    requires Carries(fields, chosen)
    ensures AllRight(db, rows, chosen, p, BatchTrees(db, kind, rows, fields, p))
    decreases p, 1
  {
    forall i | 0 <= i < |rows| ensures Right(db, rows[i], chosen, p, BatchTrees(db, kind, rows, fields, p)[i]) {
      TreeIsRight(db, kind, rows, i, chosen, fields, p);
    }
  }

  lemma {:induction false} TreeIsRight(db: DB, kind: Kind, rows: seq<Row>, i: int, chosen: seq<Col>, fields: seq<Col>,
                                       p: Plan)
    requires WellFormed(db) && NoNestedPaging(p) && 0 <= i < |rows|
    requires Carries(fields, chosen)
    ensures Right(db, rows[i], chosen, p, BatchTree(db, kind, rows, i, fields, p))
    decreases p, 0
  {
    var t := BatchTree(db, kind, rows, i, fields, p);
    ScanShowsRow(kind, rows[i], chosen, fields, p.with.Keys);
    forall e | e in p.with
      ensures exists rs: seq<Row> | AreNeighbours(db, e, rows[i], p.with[e].spec, rs) ::
                AllRight(db, rs, p.with[e].spec.fields, p.with[e], t.edges[e].trees)
    {
      assert t.edges[e] == Branch(BatchEdge(db, e, rows, NodeKey(e, rows[i]), p.with[e]));
      var rs := EdgeIsRight(db, e, rows, i, p.with[e]);
    }
    RightByEdges(db, rows[i], chosen, p, t);
  }

  lemma {:induction false} EdgeIsRight(db: DB, e: Edge, rows: seq<Row>, i: int, nested: Plan) returns (rs: seq<Row>)
    requires WellFormed(db) && 0 <= i < |rows| && Unpaged(nested.spec) && NoNestedPaging(nested)
    ensures AreNeighbours(db, e, rows[i], nested.spec, rs)
    ensures AllRight(db, rs, nested.spec.fields, nested, BatchEdge(db, e, rows, NodeKey(e, rows[i]), nested))
    decreases nested, 2
  {
    var f, key := Fetch(db, e, Keys(e, rows), nested.spec), NodeKey(e, rows[i]);
    rs := Gather(f.rows, f.tags, key);
    BatchIsRight(db, Target(e), f.rows, nested.spec.fields, NestedFields(e, nested.spec.fields), nested);
    GatherRight(db, f.rows, nested.spec.fields, nested, EdgeTrees(db, e, rows, nested), f.tags, key);
    FetchExactly(db, e, rows, rows[i], nested.spec);
  }

  /** One loader call brings each row exactly the rows to which the edge leads. */
  lemma FetchExactly(db: DB, e: Edge, rows: seq<Row>, row: Row, spec: Spec)
    requires WellFormed(db) && row in rows && Unpaged(spec)
    ensures var f := Fetch(db, e, Keys(e, rows), spec);
            AreNeighbours(db, e, row, spec, Gather(f.rows, f.tags, NodeKey(e, row)))
  {
    FetchUpToOrder(db, e, rows, row, spec);
    forall r ensures multiset(NaiveRows(db, row, e, spec))[r] == Expected(db, e, row, spec, r) {
      LookupExactly(db, e, row, spec, r);
    }
  }

  // ---------- What a run leaves behind ----------

  /** The edge leads from one of the rows to `r`. */
  ghost predicate LinkedToSome(db: DB, e: Edge, rows: seq<Row>, r: Row) {
    exists i :: 0 <= i < |rows| && Linked(db, e, rows[i], r)
  }

  lemma KeysAreLinks(db: DB, e: Edge, rows: seq<Row>, r: Row)
    requires !Rel(e).M2M?
    ensures Holds(ColIn(if Rel(e).M2O? then ID else Rel(e).fk, Keys(e, rows)), r) <==> LinkedToSome(db, e, rows, r)
  {
    var col, keys := if Rel(e).M2O? then ID else Rel(e).fk, Keys(e, rows);
    KeysIn(e, rows);
    forall i | 0 <= i < |rows|
      ensures Linked(db, e, rows[i], r) <==> col in r && NodeKey(e, rows[i]) == Some(r[col])
    {
      KeyIsLink(db, e, rows[i], r);
    }
    if col in r && r[col] in keys {
      var i :| 0 <= i < |rows| && NodeKey(e, rows[i]) == Some(r[col]);
      assert Linked(db, e, rows[i], r);
    }
  }

  /** A nested builder that was run selects from then on, without a join table, those of its rows to
      which the edge leads from some of the loaded rows; with one, it is joined once more. */
  lemma RunNarrows(db: DB, e: Edge, rows: seq<Row>, nested: Plan, r: Row)
    requires Keys(e, rows) != []
    ensures var spec := AfterLoad(db, e, rows, nested).spec;
            && (Rel(e).M2M? ==> spec == nested.spec.(joins := nested.spec.joins + [Keys(e, rows)]))
            && (!Rel(e).M2M? ==>
                  && spec.joins == nested.spec.joins && spec.order == nested.spec.order
                  && multiset(Matching(db, Target(e), spec))[r] ==
                     if LinkedToSome(db, e, rows, r) then multiset(Matching(db, Target(e), nested.spec))[r] else 0)
  {
    var spec := AfterLoad(db, e, rows, nested).spec;
    if !Rel(e).M2M? {
      KeysAreLinks(db, e, rows, r);
      MatchingExactly(db, Target(e), nested.spec, r);
      MatchingExactly(db, Target(e), spec, r);
      AdmitsExactly(nested.spec.preds, r);
      AdmitsExactly(spec.preds, r);
      HoldsAllSnoc(nested.spec.preds, ColIn(if Rel(e).M2O? then ID else Rel(e).fk, Keys(e, rows)), r);
    }
  }
}
