/** The database as the loaders see it: tables of rows, predicates that filter them, and the
    one shape of SELECT that a query builder issues. */
module Database {
  import opened Wrappers
  import opened Schema

  /** A row maps each non-NULL column to its value. */
  type Row = map<Col, int>

  /** A row of a joined SELECT: the source key taken from the join table, then the target row. */
  datatype Joined = Joined(out: int, row: Row)

  /** The tables, and the order in which the database returns the rows of a join. */
  datatype DB = DB(tables: map<Kind, seq<Row>>, arrange: seq<Joined> -> seq<Joined>)

  function Table(db: DB, kind: Kind): seq<Row> {
    if kind in db.tables then db.tables[kind] else []
  }

  /** A predicate passed by the caller to `Where`, or the `IN` filter that a loader appends. */
  datatype Pred =
    | Custom(f: Row -> bool)
    | ColIn(col: Col, keys: seq<int>)

  predicate Holds(p: Pred, row: Row) {
    match p
    case Custom(f) => f(row)
    case ColIn(col, keys) => col in row && row[col] in keys
  }

  predicate HoldsAll(preds: seq<Pred>, row: Row) {
    forall i | 0 <= i < |preds| :: Holds(preds[i], row)
  }

  /** An option of `Order`, as the comparison it stands for. */
  datatype OrderOption = OrderOption(le: (Row, Row) -> bool)

  datatype Lock = ForUpdate | ForShare

  /** What a builder asks of the database. `joins` holds the key lists of the many-to-many
      joins that loaders have added to it. */
  datatype Spec = Spec(
    fields: seq<Col>,
    preds: seq<Pred>,
    order: seq<OrderOption>,
    limit: Option<nat>,
    offset: Option<nat>,
    unique: Option<bool>,
    joins: seq<seq<int>>,
    locks: seq<Lock>)

  // ---------- Selecting ----------

  /** Lexicographic comparison by the given order options. */
  predicate Precedes(order: seq<OrderOption>, a: Row, b: Row) {
    if order == [] then true
    else if order[0].le(a, b) && !order[0].le(b, a) then true
    else order[0].le(a, b) && Precedes(order[1..], a, b)
  }

  /** Stable insertion: `row` goes after every row it does not have to precede. */
  function Insert(order: seq<OrderOption>, rows: seq<Row>, row: Row): seq<Row> {
    if rows == [] || Precedes(order, rows[|rows| - 1], row) then rows + [row]
    else Insert(order, rows[..|rows| - 1], row) + [rows[|rows| - 1]]
  }

  function Ordered(order: seq<OrderOption>, rows: seq<Row>): seq<Row> {
    if rows == [] then [] else Insert(order, Ordered(order, rows[..|rows| - 1]), rows[|rows| - 1])
  }

  function Filter(rows: seq<Row>, preds: seq<Pred>): seq<Row> {
    if rows == [] then []
    else Filter(rows[..|rows| - 1], preds) +
         (if HoldsAll(preds, rows[|rows| - 1]) then [rows[|rows| - 1]] else [])
  }

  /** The value of an option whose absence and whose zero a query specification cannot tell apart. */
  function OrZero(n: Option<nat>): nat {
    if n.Some? then n.value else 0
  }

  /** The rows kept by an optional offset and an optional limit; zero is as good as none. */
  function Page<T>(xs: seq<T>, limit: Option<nat>, offset: Option<nat>): seq<T> {
    var rest := if OrZero(offset) <= |xs| then xs[OrZero(offset)..] else [];
    if OrZero(limit) == 0 || |rest| <= OrZero(limit) then rest else rest[..OrZero(limit)]
  }

  /** Neither a limit nor an offset, unless zero. */
  predicate Unpaged(spec: Spec) {
    OrZero(spec.limit) == 0 && OrZero(spec.offset) == 0
  }

  /** All rows of a table that a builder's predicates admit, in the builder's order. */
  function Matching(db: DB, kind: Kind, spec: Spec): seq<Row> {
    Filter(Ordered(spec.order, Table(db, kind)), spec.preds)
  }

  function Select(db: DB, kind: Kind, spec: Spec): seq<Row> {
    Page(Matching(db, kind, spec), spec.limit, spec.offset)
  }

  // ---------- Many-to-many joins ----------

  /** The joined rows of one target row. */
  function Pairs(joinRows: seq<Row>, outCol: Col, inCol: Col, keys: seq<int>, row: Row): seq<Joined> {
    if joinRows == [] then []
    else
      var j := joinRows[|joinRows| - 1];
      Pairs(joinRows[..|joinRows| - 1], outCol, inCol, keys, row) +
      (if inCol in j && outCol in j && ID in row && j[inCol] == row[ID] && j[outCol] in keys
       then [Joined(j[outCol], row)] else [])
  }

  function JoinRows(rows: seq<Row>, joinRows: seq<Row>, outCol: Col, inCol: Col, keys: seq<int>): seq<Joined> {
    if rows == [] then []
    else JoinRows(rows[..|rows| - 1], joinRows, outCol, inCol, keys) +
         Pairs(joinRows, outCol, inCol, keys, rows[|rows| - 1])
  }

  /** The builder's own rows, joined with the join table and restricted to the given source keys. */
  function Join(db: DB, e: Edge, keys: seq<int>, spec: Spec): seq<Joined>
    requires Rel(e).M2M?
  {
    JoinRows(Matching(db, Target(e), spec), Table(db, Rel(e).join), Rel(e).outCol, Rel(e).inCol, keys)
  }

  /** The SELECT of a many-to-many loader, in whatever order the database returns it. */
  function SelectJoined(db: DB, e: Edge, keys: seq<int>, spec: Spec): seq<Joined>
    requires Rel(e).M2M?
  {
    Page(db.arrange(Join(db, e, keys, spec)), spec.limit, spec.offset)
  }

  // ---------- Keys ----------

  function Ids(rows: seq<Row>): set<int> {
    set r | r in rows && ID in r :: r[ID]
  }

  /** The rows carry distinct, non-NULL IDs. */
  predicate Keyed(rows: seq<Row>) {
    && (forall i | 0 <= i < |rows| :: ID in rows[i])
    && (forall i, j | 0 <= i < j < |rows| :: rows[i][ID] != rows[j][ID])
  }

  /** The database returns the rows of a join, each of them once, in some order. */
  ghost predicate Permutes(arrange: seq<Joined> -> seq<Joined>) {
    forall joined {:trigger arrange(joined)} :: multiset(arrange(joined)) == multiset(joined)
  }

  /** Primary keys are unique and not NULL, and joins neither lose nor invent rows. */
  ghost predicate WellFormed(db: DB) {
    Permutes(db.arrange) && forall kind | HasID(kind) :: Keyed(Table(db, kind))
  }

  /** Joins return their rows in the order of the targets. */
  ghost predicate InTargetOrder(db: DB) {
    forall joined {:trigger db.arrange(joined)} :: db.arrange(joined) == joined
  }

  lemma ArrangedAre(db: DB, joined: seq<Joined>)
    requires WellFormed(db)
    ensures forall p :: p in db.arrange(joined) <==> p in joined
  {
    forall p ensures p in db.arrange(joined) <==> p in joined {
      assert p in joined <==> p in multiset(joined);
      assert p in db.arrange(joined) <==> p in multiset(db.arrange(joined));
    }
  }

  predicate Apart(rows: seq<Row>, row: Row)
    requires ID in row
  {
    forall r | r in rows :: ID in r && r[ID] != row[ID]
  }

  lemma KeyedSnoc(rows: seq<Row>, row: Row)
    ensures Keyed(rows + [row]) <==> Keyed(rows) && ID in row && Apart(rows, row)
  {
    var all := rows + [row];
    assert all[|rows|] == row && forall i | 0 <= i < |rows| :: all[i] == rows[i];
    if Keyed(all) {
      forall r | r in rows ensures ID in r && r[ID] != row[ID] {
        var m :| 0 <= m < |rows| && rows[m] == r;
        assert all[m] == r;
      }
    }
  }

  lemma {:induction false} InsertKeyed(order: seq<OrderOption>, rows: seq<Row>, row: Row)
    requires Keyed(rows) && ID in row && Apart(rows, row)
    ensures Keyed(Insert(order, rows, row))
    ensures forall r :: r in Insert(order, rows, row) <==> r in rows || r == row
  {
    if rows == [] || Precedes(order, rows[|rows| - 1], row) {
      KeyedSnoc(rows, row);
    } else {
      var front, last := rows[..|rows| - 1], rows[|rows| - 1];
      assert rows == front + [last];
      KeyedSnoc(front, last);
      InsertKeyed(order, front, row);
      KeyedSnoc(Insert(order, front, row), last);
    }
  }

  lemma {:induction false} OrderedKeyed(order: seq<OrderOption>, rows: seq<Row>)
    requires Keyed(rows)
    ensures Keyed(Ordered(order, rows))
    ensures forall r :: r in Ordered(order, rows) <==> r in rows
  {
    if rows != [] {
      var front, last := rows[..|rows| - 1], rows[|rows| - 1];
      assert rows == front + [last];
      KeyedSnoc(front, last);
      OrderedKeyed(order, front);
      InsertKeyed(order, Ordered(order, front), last);
    }
  }
}
