/** What a query returns, stated of the stored rows: which rows, how many times, in which order; and
    what each builder call changes about it. */
module EagerQueries {
  import opened Wrappers
  import opened Schema
  import opened Database
  import opened EagerPlan
  import opened EagerColumns
  import opened QueryBuilder

  // ---------- Which rows ----------

  /** All predicates hold: the caller's own, and for those of the loaders the column has a value,
      one of the given keys. */
  ghost predicate Admits(preds: seq<Pred>, row: Row) {
    forall i | 0 <= i < |preds| ::
      match preds[i]
      case Custom(f) => f(row)
      case ColIn(col, keys) => exists k :: 0 <= k < |keys| && col in row && row[col] == keys[k]
  }

  lemma AdmitsExactly(preds: seq<Pred>, row: Row)
    ensures Admits(preds, row) <==> HoldsAll(preds, row)
  {
    if HoldsAll(preds, row) {
      forall i | 0 <= i < |preds| && preds[i].ColIn?
        ensures exists k :: 0 <= k < |preds[i].keys| && preds[i].col in row && row[preds[i].col] == preds[i].keys[k]
      {
        assert Holds(preds[i], row);
        var k :| 0 <= k < |preds[i].keys| && preds[i].keys[k] == row[preds[i].col];
      }
    }
    if Admits(preds, row) {
      forall i | 0 <= i < |preds| ensures Holds(preds[i], row) {
      }
    }
  }

  lemma {:induction false} InsertPermutes(order: seq<OrderOption>, rows: seq<Row>, row: Row)
    ensures multiset(Insert(order, rows, row)) == multiset(rows) + multiset{row}
  {
    if rows != [] && !Precedes(order, rows[|rows| - 1], row) {
      var front, last := rows[..|rows| - 1], rows[|rows| - 1];
      assert rows == front + [last];
      InsertPermutes(order, front, row);
    }
  }

  lemma {:induction false} OrderedPermutes(order: seq<OrderOption>, rows: seq<Row>)
    ensures multiset(Ordered(order, rows)) == multiset(rows)
  {
    if rows != [] {
      var front, last := rows[..|rows| - 1], rows[|rows| - 1];
      assert rows == front + [last];
      OrderedPermutes(order, front);
      InsertPermutes(order, Ordered(order, front), last);
    }
  }

  lemma {:induction false} FilterCounts(rows: seq<Row>, preds: seq<Pred>, row: Row)
    ensures multiset(Filter(rows, preds))[row] == if HoldsAll(preds, row) then multiset(rows)[row] else 0
  {
    if rows != [] {
      var front, last := rows[..|rows| - 1], rows[|rows| - 1];
      assert rows == front + [last];
      FilterCounts(front, preds, row);
      FilterSnoc(front, last, preds);
    }
  }

  /** Without paging, a query returns each row as often as it is stored if its predicates admit it,
      and else not at all. */
  lemma MatchingExactly(db: DB, kind: Kind, spec: Spec, row: Row)
    ensures multiset(Matching(db, kind, spec))[row] ==
            if Admits(spec.preds, row) then multiset(Table(db, kind))[row] else 0
  {
    AdmitsExactly(spec.preds, row);
    OrderedPermutes(spec.order, Table(db, kind));
    FilterCounts(Ordered(spec.order, Table(db, kind)), spec.preds, row);
  }

  /** With paging, it returns a stretch of these rows: those after the offset, up to the limit. */
  lemma PagedExactly(db: DB, kind: Kind, spec: Spec)
    ensures var all, rows := Matching(db, kind, spec), Database.Select(db, kind, spec);
            var skipped := if spec.offset.None? then 0 else spec.offset.value;
            && (|all| <= skipped ==> rows == [])
            && (|all| > skipped ==>
                  && |rows| == (if spec.limit.None? || spec.limit.value == 0 || spec.limit.value > |all| - skipped
                                then |all| - skipped else spec.limit.value)
                  && forall i | 0 <= i < |rows| :: rows[i] == all[skipped + i])
  {
  }

  // ---------- In which order ----------

  /** Every option compares any two rows, and consistently. */
  ghost predicate Comparable(order: seq<OrderOption>) {
    forall i | 0 <= i < |order| :: Total(order[i]) && Transitive(order[i])
  }

  ghost predicate Total(option: OrderOption) {
    forall a, b :: option.le(a, b) || option.le(b, a)
  }

  ghost predicate Transitive(option: OrderOption) {
    forall a, b, c :: option.le(a, b) && option.le(b, c) ==> option.le(a, c)
  }

  /** No option tells the rows apart. */
  ghost predicate Tied(order: seq<OrderOption>, a: Row, b: Row) {
    forall i | 0 <= i < |order| :: order[i].le(a, b) && order[i].le(b, a)
  }

  /** The first option that tells the rows apart puts `a` first. */
  ghost predicate Before(order: seq<OrderOption>, a: Row, b: Row) {
    exists k :: 0 <= k < |order| && order[k].le(a, b) && !order[k].le(b, a) && Tied(order[..k], a, b)
  }

  lemma BeforeFirst(order: seq<OrderOption>, a: Row, b: Row)
    requires order != []
    ensures Before(order, a, b) <==>
            || (order[0].le(a, b) && !order[0].le(b, a))
            || (order[0].le(a, b) && order[0].le(b, a) && Before(order[1..], a, b))
  {
    var rest := order[1..];
    if Before(order, a, b) {
      var k :| 0 <= k < |order| && order[k].le(a, b) && !order[k].le(b, a) && Tied(order[..k], a, b);
      if k > 0 {
        assert order[..k][0] == order[0];
        assert rest[k - 1] == order[k] && rest[..k - 1] == order[..k][1..];
        assert Tied(rest[..k - 1], a, b);
      }
    }
    if order[0].le(a, b) && !order[0].le(b, a) {
      assert Tied(order[..0], a, b);
    } else if order[0].le(a, b) && order[0].le(b, a) && Before(rest, a, b) {
      var k :| 0 <= k < |rest| && rest[k].le(a, b) && !rest[k].le(b, a) && Tied(rest[..k], a, b);
      assert order[k + 1] == rest[k];
      var front := order[..k + 1];
      forall i | 0 <= i < |front| ensures front[i].le(a, b) && front[i].le(b, a) {
        assert i > 0 ==> front[i] == rest[..k][i - 1];
      }
    }
  }

  lemma {:induction false} PrecedesExactly(order: seq<OrderOption>, a: Row, b: Row)
    requires Comparable(order)
    ensures Precedes(order, a, b) <==> !Before(order, b, a)
    decreases |order|
  {
    if order != [] {
      var rest := order[1..];
      assert Comparable(rest) by {
        assert forall i | 0 <= i < |rest| :: rest[i] == order[i + 1];
      }
      PrecedesExactly(rest, a, b);
      BeforeFirst(order, b, a);
      assert Total(order[0]);
    }
  }

  lemma {:induction false} PrecedesTransitive(order: seq<OrderOption>, a: Row, b: Row, c: Row)
    requires Comparable(order) && Precedes(order, a, b) && Precedes(order, b, c)
    ensures Precedes(order, a, c)
    decreases |order|
  {
    if order != [] {
      var rest := order[1..];
      assert forall i | 0 <= i < |rest| :: rest[i] == order[i + 1];
      assert Transitive(order[0]);
      if order[0].le(a, b) && order[0].le(b, a) && order[0].le(b, c) && order[0].le(c, b) {
        PrecedesTransitive(rest, a, b, c);
      }
    }
  }

  ghost predicate Sorted(order: seq<OrderOption>, rows: seq<Row>) {
    forall i, j | 0 <= i < j < |rows| :: !Before(order, rows[j], rows[i])
  }

  lemma SortedSnoc(order: seq<OrderOption>, rows: seq<Row>, row: Row)
    requires Sorted(order, rows) && forall r | r in rows :: !Before(order, row, r)
    ensures Sorted(order, rows + [row])
  {
    var all := rows + [row];
    forall i, j | 0 <= i < j < |all| ensures !Before(order, all[j], all[i]) {
      if j == |rows| {
        assert all[i] in rows;
      } else {
        assert all[i] == rows[i] && all[j] == rows[j];
      }
    }
  }

  lemma SortedFront(order: seq<OrderOption>, rows: seq<Row>)
    requires Sorted(order, rows) && rows != []
    ensures var front, last := rows[..|rows| - 1], rows[|rows| - 1];
            Sorted(order, front) && forall r | r in front :: !Before(order, last, r)
  {
    var front := rows[..|rows| - 1];
    forall r | r in front ensures !Before(order, rows[|rows| - 1], r) {
      var i :| 0 <= i < |front| && front[i] == r;
      assert rows[i] == r;
    }
  }

  lemma {:induction false} InsertSorted(order: seq<OrderOption>, rows: seq<Row>, row: Row)
    requires Comparable(order) && Sorted(order, rows)
    ensures Sorted(order, Insert(order, rows, row))
  {
    if rows != [] {
      var front, last := rows[..|rows| - 1], rows[|rows| - 1];
      assert rows == front + [last];
      SortedFront(order, rows);
      PrecedesExactly(order, last, row);
      if Precedes(order, last, row) {
        forall r | r in rows ensures !Before(order, row, r) {
          AfterLast(order, r, last, row);
        }
        SortedSnoc(order, rows, row);
      } else {
        InsertSorted(order, front, row);
        InsertPermutes(order, front, row);
        NotBoth(order, row, last);
        forall r | r in Insert(order, front, row) ensures !Before(order, last, r) {
          assert r in multiset(front) + multiset{row};
        }
        SortedSnoc(order, Insert(order, front, row), last);
      }
    } else {
      assert Insert(order, rows, row) == [row];
    }
  }

  lemma AfterLast(order: seq<OrderOption>, r: Row, last: Row, row: Row)
    requires Comparable(order) && Precedes(order, last, row) && (r == last || !Before(order, last, r))
    ensures !Before(order, row, r)
  {
    PrecedesExactly(order, r, last);
    PrecedesExactly(order, r, row);
    if r != last {
      PrecedesTransitive(order, r, last, row);
    }
  }

  lemma {:induction false} NotBoth(order: seq<OrderOption>, a: Row, b: Row)
    requires Before(order, a, b)
    ensures !Before(order, b, a)
    decreases |order|
  {
    BeforeFirst(order, a, b);
    BeforeFirst(order, b, a);
    if order[0].le(a, b) && order[0].le(b, a) {
      NotBoth(order[1..], a, b);
    }
  }

  lemma {:induction false} OrderedSorted(order: seq<OrderOption>, rows: seq<Row>)
    requires Comparable(order)
    ensures Sorted(order, Ordered(order, rows))
  {
    if rows != [] {
      OrderedSorted(order, rows[..|rows| - 1]);
      InsertSorted(order, Ordered(order, rows[..|rows| - 1]), rows[|rows| - 1]);
    }
  }

  lemma {:induction false} FilterSorted(order: seq<OrderOption>, rows: seq<Row>, preds: seq<Pred>)
    requires Sorted(order, rows)
    ensures Sorted(order, Filter(rows, preds))
  {
    if rows != [] {
      var front, last := rows[..|rows| - 1], rows[|rows| - 1];
      SortedFront(order, rows);
      FilterSorted(order, front, preds);
      FilterIn(front, preds);
      if HoldsAll(preds, last) {
        SortedSnoc(order, Filter(front, preds), last);
      }
    }
  }

  // ---------- Stability ----------

  /** The rows tied with `r`, in their order. */
  ghost function TiedWith(order: seq<OrderOption>, rows: seq<Row>, r: Row): seq<Row> {
    if rows == [] then []
    else
      var front, last := TiedWith(order, rows[..|rows| - 1], r), rows[|rows| - 1];
      if Tied(order, r, last) then front + [last] else front
  }

  lemma TiedWithSnoc(order: seq<OrderOption>, rows: seq<Row>, row: Row, r: Row)
    ensures TiedWith(order, rows + [row], r) ==
            if Tied(order, r, row) then TiedWith(order, rows, r) + [row] else TiedWith(order, rows, r)
  {
    assert (rows + [row])[..|rows|] == rows;
  }

  lemma {:induction false} TiedPrecedes(order: seq<OrderOption>, r: Row, a: Row, b: Row)
    requires Comparable(order) && Tied(order, r, a) && Tied(order, r, b)
    ensures Precedes(order, a, b)
    decreases |order|
  {
    if order != [] {
      var rest := order[1..];
      assert forall i | 0 <= i < |rest| :: rest[i] == order[i + 1];
      assert Transitive(order[0]);
      assert order[0].le(a, r) && order[0].le(r, b) && order[0].le(b, r) && order[0].le(r, a);
      TiedPrecedes(rest, r, a, b);
    }
  }

  lemma {:induction false} InsertStable(order: seq<OrderOption>, rows: seq<Row>, row: Row, r: Row)
    requires Comparable(order)
    ensures TiedWith(order, Insert(order, rows, row), r) == TiedWith(order, rows + [row], r)
  {
    if rows != [] && !Precedes(order, rows[|rows| - 1], row) {
      var front, last := rows[..|rows| - 1], rows[|rows| - 1];
      assert rows == front + [last];
      InsertStable(order, front, row, r);
      TiedWithSnoc(order, front, row, r);
      TiedWithSnoc(order, front, last, r);
      TiedWithSnoc(order, rows, row, r);
      TiedWithSnoc(order, Insert(order, front, row), last, r);
      if Tied(order, r, last) && Tied(order, r, row) {
        TiedPrecedes(order, r, last, row);
      }
    }
  }

  lemma {:induction false} OrderedStable(order: seq<OrderOption>, rows: seq<Row>, r: Row)
    requires Comparable(order)
    ensures TiedWith(order, Ordered(order, rows), r) == TiedWith(order, rows, r)
  {
    if rows != [] {
      var front, last := rows[..|rows| - 1], rows[|rows| - 1];
      assert rows == front + [last];
      OrderedStable(order, front, r);
      InsertStable(order, Ordered(order, front), last, r);
      TiedWithSnoc(order, Ordered(order, front), last, r);
      TiedWithSnoc(order, front, last, r);
    }
  }

  lemma {:induction false} TiedThenFilter(order: seq<OrderOption>, rows: seq<Row>, preds: seq<Pred>, r: Row)
    ensures TiedWith(order, Filter(rows, preds), r) == Filter(TiedWith(order, rows, r), preds)
  {
    if rows != [] {
      var front, last := rows[..|rows| - 1], rows[|rows| - 1];
      assert rows == front + [last];
      TiedThenFilter(order, front, preds, r);
      FilterSnoc(front, last, preds);
      TiedWithSnoc(order, front, last, r);
      TiedWithSnoc(order, Filter(front, preds), last, r);
      FilterSnoc(TiedWith(order, front, r), last, preds);
    }
  }

  /** The rows come back sorted by the options in call order, and rows that no option tells apart in
      the order in which they are stored. */
  lemma SortedAndStable(db: DB, kind: Kind, spec: Spec)
    requires Comparable(spec.order)
    ensures Sorted(spec.order, Matching(db, kind, spec))
    ensures forall r :: TiedWith(spec.order, Matching(db, kind, spec), r) ==
                        Filter(TiedWith(spec.order, Table(db, kind), r), spec.preds)
  {
    OrderedSorted(spec.order, Table(db, kind));
    FilterSorted(spec.order, Ordered(spec.order, Table(db, kind)), spec.preds);
    forall r ensures TiedWith(spec.order, Matching(db, kind, spec), r) ==
                     Filter(TiedWith(spec.order, Table(db, kind), r), spec.preds)
    {
      TiedThenFilter(spec.order, Ordered(spec.order, Table(db, kind)), spec.preds, r);
      OrderedStable(spec.order, Table(db, kind), r);
    }
  }

  // ---------- What the builder calls change ----------

  lemma {:induction false} FilterTwice(rows: seq<Row>, preds: seq<Pred>, more: seq<Pred>)
    ensures Filter(rows, preds + more) == Filter(Filter(rows, preds), more)
    decreases |more|
  {
    if more == [] {
      assert preds + more == preds;
      FilterNothing(Filter(rows, preds));
    } else {
      var front, last := more[..|more| - 1], more[|more| - 1];
      assert more == front + [last] && preds + more == (preds + front) + [last];
      FilterTwice(rows, preds, front);
      FilterFilter(rows, preds + front, last);
      FilterFilter(Filter(rows, preds), front, last);
    }
  }

  lemma {:induction false} FilterNothing(rows: seq<Row>)
    ensures Filter(rows, []) == rows
  {
    if rows != [] {
      FilterNothing(rows[..|rows| - 1]);
    }
  }

  /** `Where` keeps of the rows those that satisfy its predicates, in their order. */
  lemma WhereNarrows(db: DB, kind: Kind, p: Plan, preds: seq<Pred>)
    ensures Matching(db, kind, Apply(p, Op.Where(preds)).spec) == Filter(Matching(db, kind, p.spec), preds)
  {
    FilterTwice(Ordered(p.spec.order, Table(db, kind)), p.spec.preds, preds);
  }

  lemma TiedConcat(order: seq<OrderOption>, more: seq<OrderOption>, a: Row, b: Row)
    ensures Tied(order + more, a, b) <==> Tied(order, a, b) && Tied(more, a, b)
  {
    var all := order + more;
    assert forall i | 0 <= i < |order| :: all[i] == order[i];
    assert forall i | 0 <= i < |more| :: all[|order| + i] == more[i];
  }

  lemma BeforeConcat(order: seq<OrderOption>, more: seq<OrderOption>, a: Row, b: Row)
    ensures Before(order + more, a, b) <==> Before(order, a, b) || (Tied(order, a, b) && Before(more, a, b))
  {
    var all := order + more;
    assert forall i | 0 <= i < |order| :: all[i] == order[i] && all[..i] == order[..i];
    forall i | 0 <= i < |more|
      ensures all[|order| + i] == more[i]
      ensures Tied(all[..|order| + i], a, b) <==> Tied(order, a, b) && Tied(more[..i], a, b)
    {
      assert all[..|order| + i] == order + more[..i];
      TiedConcat(order, more[..i], a, b);
    }
    if k :| 0 <= k < |more| && more[k].le(a, b) && !more[k].le(b, a) && Tied(more[..k], a, b) && Tied(order, a, b) {
      assert all[|order| + k] == more[k];
    }
    if k :| 0 <= k < |order| && order[k].le(a, b) && !order[k].le(b, a) && Tied(order[..k], a, b) {
      assert all[k] == order[k];
    }
    if k :| 0 <= k < |all| && all[k].le(a, b) && !all[k].le(b, a) && Tied(all[..k], a, b) && k >= |order| {
      assert all[|order| + (k - |order|)] == more[k - |order|];
    }
  }

  lemma ComparableConcat(order: seq<OrderOption>, more: seq<OrderOption>)
    requires Comparable(order) && Comparable(more)
    ensures Comparable(order + more)
  {
    var all := order + more;
    forall i | 0 <= i < |all| ensures Total(all[i]) && Transitive(all[i]) {
      assert all[i] == if i < |order| then order[i] else more[i - |order|];
    }
  }

  lemma SortedConcat(order: seq<OrderOption>, more: seq<OrderOption>, rows: seq<Row>)
    requires Sorted(order + more, rows)
    ensures Sorted(order, rows)
    ensures forall i, j | 0 <= i < j < |rows| && Tied(order, rows[j], rows[i]) :: !Before(more, rows[j], rows[i])
  {
    forall i, j | 0 <= i < j < |rows|
      ensures !Before(order, rows[j], rows[i])
      ensures Tied(order, rows[j], rows[i]) ==> !Before(more, rows[j], rows[i])
    {
      BeforeConcat(order, more, rows[j], rows[i]);
    }
  }

  /** `Order` keeps the rows, sorted as before, and sorts by its own options those that the earlier
      ones do not tell apart. */
  lemma OrderRefines(db: DB, kind: Kind, p: Plan, options: seq<OrderOption>)
    requires Comparable(p.spec.order) && Comparable(options)
    ensures var rows := Matching(db, kind, Apply(p, Op.Order(options)).spec);
            && multiset(rows) == multiset(Matching(db, kind, p.spec)) && Sorted(p.spec.order, rows)
            && forall i, j | 0 <= i < j < |rows| && Tied(p.spec.order, rows[j], rows[i]) ::
                 !Before(options, rows[j], rows[i])
  {
    var spec := Apply(p, Op.Order(options)).spec;
    ComparableConcat(p.spec.order, options);
    SortedAndStable(db, kind, spec);
    SortedConcat(p.spec.order, options, Matching(db, kind, spec));
    SamePreds(db, kind, spec, p.spec);
  }

  lemma SamePreds(db: DB, kind: Kind, spec: Spec, other: Spec)
    requires spec.preds == other.preds
    ensures multiset(Matching(db, kind, spec)) == multiset(Matching(db, kind, other))
  {
    forall r ensures multiset(Matching(db, kind, spec))[r] == multiset(Matching(db, kind, other))[r] {
      MatchingExactly(db, kind, spec, r);
      MatchingExactly(db, kind, other, r);
    }
  }

  /** `Limit` and `Offset` cut the rows as they stand at the end: of either, the last call counts. */
  lemma LimitsCut(db: DB, kind: Kind, p: Plan, limit: nat, offset: nat)
    ensures var rows := Matching(db, kind, p.spec);
            var q := Apply(Apply(p, Op.Offset(offset)), Op.Limit(limit));
            Database.Select(db, kind, q.spec) ==
            if |rows| <= offset then []
            else if limit == 0 || |rows| <= offset + limit then rows[offset..]
            else rows[offset..offset + limit]
    ensures Apply(Apply(p, Op.Limit(limit)), Op.Offset(offset)) == Apply(Apply(p, Op.Offset(offset)), Op.Limit(limit))
    ensures forall n :: Apply(Apply(p, Op.Limit(n)), Op.Limit(limit)) == Apply(p, Op.Limit(limit))
                        && Apply(Apply(p, Op.Offset(n)), Op.Offset(offset)) == Apply(p, Op.Offset(offset))
  {
  }

  lemma SameRows(db: DB, kind: Kind, spec: Spec, other: Spec)
    requires other.preds == spec.preds && other.order == spec.order
    requires other.limit == spec.limit && other.offset == spec.offset
    ensures Database.Select(db, kind, other) == Database.Select(db, kind, spec)
  {
  }

  /** `Select` adds its columns to those that are scanned, and changes no row. */
  lemma SelectAdds(db: DB, kind: Kind, p: Plan, fields: seq<Col>)
    requires fields != []
    ensures var q := Apply(p, Op.Select(fields));
            && Database.Select(db, kind, q.spec) == Database.Select(db, kind, p.spec)
            && var cols := Columns(kind, q.spec.fields, q.with.Keys);
               && cols.Some? && (forall c | c in p.spec.fields || c in fields :: c in cols.value)
               && forall c | c in cols.value :: c in p.spec.fields || c in fields || (c == ID && HasID(kind))
                                                || exists e :: e in p.with && Rel(e).M2O? && Rel(e).fk == c
  {
    SameRows(db, kind, p.spec, Apply(p, Op.Select(fields)).spec);
    ColumnsCarryKeys(kind, p.spec.fields + fields, p.with.Keys);
  }

  /** `Unique`, `ForUpdate` and `ForShare` leave the rows and the columns alone; on Postgres a lock
      takes `Unique` back. */
  lemma FlagsLeaveRows(db: DB, kind: Kind, p: Plan, on: bool, lock: Lock, postgres: bool)
    ensures var q := Apply(p, Op.Unique(on));
            && Database.Select(db, kind, q.spec) == Database.Select(db, kind, p.spec) && q.spec.fields == p.spec.fields
            && q.spec.unique == Some(on) && q.spec.locks == p.spec.locks && q.with == p.with
    ensures var q := Apply(p, Op.LockRows(lock, postgres));
            && Database.Select(db, kind, q.spec) == Database.Select(db, kind, p.spec) && q.spec.fields == p.spec.fields
            && q.spec.unique == (if postgres then Some(false) else p.spec.unique)
            && q.spec.locks == p.spec.locks + [lock] && q.with == p.with
  {
    SameRows(db, kind, p.spec, Apply(p, Op.Unique(on)).spec);
    SameRows(db, kind, p.spec, Apply(p, Op.LockRows(lock, postgres)).spec);
  }

  /** `With` leaves the builder's own query alone, and the builders of all other edges. */
  lemma WithReplacesOne(p: Plan, edge: Edge, calls: seq<Op>)
    ensures var q := Apply(p, Op.With(edge, calls));
            && q.spec == p.spec && edge in q.with
            && forall e | e != edge :: (e in q.with <==> e in p.with) && (e in p.with ==> q.with[e] == p.with[e])
  {
  }
}
