/** The mutable query builders: objects whose methods configure them in place, nested through
    the edges to load. Its `plan` is the value a builder stands for. */
module QueryBuilder {
  import opened Wrappers
  import opened Schema
  import opened Database
  import opened EagerPlan

  // ---------- What the builder methods do, on values ----------

  /** A call of one of the builder methods. The options of a `With` call are the calls its
      callbacks make on the new nested builder. */
  datatype Op =
    | Where(preds: seq<Pred>)
    | Limit(n: nat)
    | Offset(n: nat)
    | Unique(on: bool)
    | Order(options: seq<OrderOption>)
    | Select(fields: seq<Col>)
    | With(edge: Edge, calls: seq<Op>)
    | LockRows(lock: Lock, postgres: bool)

  const EMPTY_SPEC := Spec([], [], [], None, None, None, [], [])

  predicate OpFits(kind: Kind, op: Op)
    decreases op
  {
    op.With? ==> Source(op.edge) == kind && forall i | 0 <= i < |op.calls| :: OpFits(Target(op.edge), op.calls[i])
  }

  function Apply(p: Plan, op: Op): Plan
    decreases op, 0
  {
    match op
    case Where(ps) => p.(spec := p.spec.(preds := p.spec.preds + ps))
    case Limit(n) => p.(spec := p.spec.(limit := Some(n)))
    case Offset(n) => p.(spec := p.spec.(offset := Some(n)))
    case Unique(on) => p.(spec := p.spec.(unique := Some(on)))
    case Order(os) => p.(spec := p.spec.(order := p.spec.order + os))
    case Select(fs) => p.(spec := p.spec.(fields := p.spec.fields + fs))
    case With(e, ops) => p.(with := p.with[e := ApplyAll(Plan(EMPTY_SPEC, map[]), ops)])
    case LockRows(lock, postgres) =>
      p.(spec := p.spec.(unique := if postgres then Some(false) else p.spec.unique, locks := p.spec.locks + [lock]))
  }

  function ApplyAll(p: Plan, ops: seq<Op>): Plan
    decreases ops, 1
  {
    if ops == [] then p else Apply(ApplyAll(p, ops[..|ops| - 1]), ops[|ops| - 1])
  }

  /** The plan of a clone: everything but the lock modifiers, at every level. */
  function Unlocked(p: Plan): Plan {
    Plan(p.spec.(locks := []), map e | e in p.with :: Unlocked(p.with[e]))
  }

  ghost predicate NoLocks(p: Plan) {
    p.spec.locks == [] && forall e | e in p.with :: NoLocks(p.with[e])
  }

  /** The clones of the builders nested under the edges `es`. */
  function UnlockedOn(p: Plan, es: seq<Edge>): map<Edge, Plan> {
    if es == [] then map[]
    else
      var m, e := UnlockedOn(p, es[..|es| - 1]), es[|es| - 1];
      if e in p.with then m[e := Unlocked(p.with[e])] else m
  }

  lemma {:induction false} UnlockedOnAll(p: Plan, es: seq<Edge>)
    ensures UnlockedOn(p, es) == map e | e in p.with && e in es :: Unlocked(p.with[e])
  {
    if es != [] {
      UnlockedOnAll(p, es[..|es| - 1]);
      assert es == es[..|es| - 1] + [es[|es| - 1]];
    }
  }

  /** A clone denotes the very same query exactly when no builder in it takes a lock. */
  lemma {:induction false} UnlockedIsSame(p: Plan)
    ensures Unlocked(p) == p <==> NoLocks(p)
  {
    forall e | e in p.with ensures Unlocked(p.with[e]) == p.with[e] <==> NoLocks(p.with[e]) {
      UnlockedIsSame(p.with[e]);
    }
    if NoLocks(p) {
      assert Unlocked(p).with == p.with;
    }
  }

  /** A builder that takes a lock is not duplicated by its clone. */
  lemma LockIsLost(p: Plan, lock: Lock, postgres: bool)
    ensures Unlocked(Apply(p, Op.LockRows(lock, postgres))) != Apply(p, Op.LockRows(lock, postgres))
  {
    UnlockedIsSame(Apply(p, Op.LockRows(lock, postgres)));
    assert Apply(p, Op.LockRows(lock, postgres)).spec.locks != [];
  }

  // ---------- The builder objects ----------

  /** The query context that a builder points to. */
  class QueryContext {
    var fields: seq<Col>
    var limit: Option<nat>
    var offset: Option<nat>
    var unique: Option<bool>

    constructor ()
      ensures fields == [] && limit == None && offset == None && unique == None
    {
      fields, limit, offset, unique := [], None, None, None;
    }

    method Clone() returns (c: QueryContext)
      ensures fresh(c)
      ensures c.fields == fields && c.limit == limit && c.offset == offset && c.unique == unique
    {
      c := new QueryContext();
      c.fields, c.limit, c.offset, c.unique := fields, limit, offset, unique;
    }

    method AppendFieldOnce(f: Col)
      modifies this`fields
      ensures fields == AppendOnce(old(fields), f)
    {
      if f !in fields {
        fields := fields + [f];
      }
    }
  }

  /** A query builder. The `with*` pointers of the generated builders are one map here: an edge
      that is absent is a nil pointer. */
  class Query {
    const kind: Kind
    var ctx: QueryContext
    var order: seq<OrderOption>
    var predicates: seq<Pred>
    var joins: seq<seq<int>>
    var with: map<Edge, Query>
    var modifiers: seq<Lock>
    ghost var Repr: set<object>
    ghost var plan: Plan

    /** Nested builders form a tree, no object being reachable along two paths, and `plan` is the
        value of that tree. */
    ghost predicate Valid()
      reads this, Repr
      decreases Repr, 1
    {
      && this in Repr && ctx in Repr
      && plan.spec == ToSpec() && plan.with.Keys == with.Keys
      && (forall e {:trigger Owns(e)} | e in with :: Owns(e))
      && (forall e, e' {:trigger Apart(e, e')} | e in with && e' in with && e != e' :: Apart(e, e'))
    }

    /** The builder nested under `e` is a valid one of its own, inside this one. */
    ghost predicate Owns(e: Edge)
      requires e in with && this in Repr
      reads this, Repr
      decreases Repr, 0
    {
      var q := with[e];
      && q in Repr && q.Repr <= Repr && this !in q.Repr && ctx !in q.Repr
      && Source(e) == kind && q.kind == Target(e)
      && e in plan.with && plan.with[e] == q.plan
      && q.Valid()
    }

    ghost predicate Apart(e: Edge, e': Edge)
      requires e in with && e' in with
      reads this, Repr
    {
      with[e] in Repr && with[e'] in Repr && with[e].Repr !! with[e'].Repr
    }

    /** `q` is the builder nested under `e`. */
    ghost predicate Nests(e: Edge, q: Query)
      reads this, Repr
    {
      && e in with && with[e] == q && q in Repr && q.Repr < Repr && this !in q.Repr && ctx !in q.Repr
      && Source(e) == kind && q.kind == Target(e) && e in plan.with && plan.with[e] == q.plan
    }

    lemma NestsUnder(e: Edge)
      requires Valid() && e in with
      ensures Nests(e, with[e]) && with[e].Valid()
    {
      assert Owns(e);
    }

    lemma EdgesFit()
      requires Valid()
      ensures forall e | e in plan.with :: Source(e) == kind
    {
      forall e | e in plan.with ensures Source(e) == kind {
        assert Owns(e);
      }
    }

    function ToSpec(): Spec
      reads this, ctx
    {
      Spec(ctx.fields, predicates, order, ctx.limit, ctx.offset, ctx.unique, joins, modifiers)
    }

    constructor (kind: Kind)
      ensures Valid() && fresh(Repr) && this.kind == kind
      ensures plan == Plan(EMPTY_SPEC, map[])
    {
      this.kind := kind;
      var c := new QueryContext();
      ctx := c;
      order, predicates, joins, with, modifiers := [], [], [], map[], [];
      Repr, plan := {this, c}, Plan(EMPTY_SPEC, map[]);
    }

    /** Nothing the builder depends on has changed. */
    twostate lemma StaysValid()
      requires old(Valid()) && forall o: object | o in old(Repr) :: unchanged(o)
      ensures Valid() && Repr == old(Repr) && plan == old(plan)
    {
      assert unchanged(this);
    }

    /** A change to a builder's own fields leaves the builders nested in it valid. */
    twostate lemma KeepsNested()
      requires old(Valid()) && with == old(with) && ctx == old(ctx) && Repr == old(Repr)
      requires plan.with == old(plan).with
      requires forall o: object | o in Repr && o != this && o != ctx :: unchanged(o)
      ensures forall e {:trigger Owns(e)} | e in with :: Owns(e)
      ensures forall e, e' {:trigger Apart(e, e')} | e in with && e' in with && e != e' :: Apart(e, e')
    {
      forall e | e in with ensures Owns(e) {
        assert old(Owns(e));
      }
      forall e, e' | e in with && e' in with && e != e' ensures Apart(e, e') {
        assert old(Owns(e)) && old(Owns(e')) && old(Apart(e, e'));
      }
    }

    /** After a change to the builder nested under `e`, noted in the plan, and to nothing else. */
    twostate lemma NestedChanged(e: Edge)
      requires old(Valid()) && e in with && with == old(with) && ctx == old(ctx) && Repr == old(Repr)
      requires with[e].Valid() && with[e].Repr == old(with[e].Repr)
      requires ToSpec() == old(ToSpec()) && plan == old(plan).(with := old(plan).with[e := with[e].plan])
      requires forall o: object | o in Repr && o != this && o !in with[e].Repr :: unchanged(o)
      ensures Valid()
    {
      assert old(Owns(e));
      forall x | x in with && x != e ensures Owns(x) && with[x].Repr == old(with[x].Repr) {
        assert old(Owns(x)) && old(Apart(x, e));
        var q := with[x];
        assert old(q.Valid());
        assert unchanged(q);
        assert old(Apart(e, x));
      }
      forall x, y | x in with && y in with && x != y ensures Apart(x, y) {
        assert old(Apart(x, y));
        assert x != e ==> Owns(x) && with[x].Repr == old(with[x].Repr);
        assert y != e ==> Owns(y) && with[y].Repr == old(with[y].Repr);
      }
    }

    /** The nested builders other than that of edge `e`, when only the latter is replaced. */
    twostate lemma OthersStay(e: Edge)
      requires old(Valid()) && this in Repr && old(Repr) <= Repr && ctx == old(ctx)
      requires plan.with.Keys == with.Keys && with.Keys == old(with.Keys) + {e}
      requires forall x | x in with && x != e :: with[x] == old(with[x]) && plan.with[x] == old(plan.with[x])
      requires forall o: object | o in old(Repr) && o != this :: unchanged(o)
      ensures forall x | x in with && x != e :: Owns(x) && with[x].Repr <= old(Repr)
      ensures forall x, y | x in with && y in with && x != y && x != e && y != e :: Apart(x, y)
    {
      forall x | x in with && x != e ensures Owns(x) && with[x].Repr == old(with[x].Repr) <= old(Repr) {
        assert old(Owns(x));
      }
      forall x, y | x in with && y in with && x != y && x != e && y != e ensures Apart(x, y) {
        assert old(Owns(x)) && old(Owns(y)) && old(Apart(x, y));
      }
    }

    lemma ApartFrom(x: Edge, e: Edge, others: set<object>)
      requires x in with && e in with && with[x] in Repr && with[e] in Repr
      requires with[x].Repr <= others && with[e].Repr !! others
      ensures Apart(x, e) && Apart(e, x)
    {
    }

    lemma AllApart(e: Edge)
      requires forall x | x in with && x != e && e in with :: Apart(x, e) && Apart(e, x)
      requires forall x, y | x in with && y in with && x != y && x != e && y != e :: Apart(x, y)
      ensures forall x, y {:trigger Apart(x, y)} | x in with && y in with && x != y :: Apart(x, y)
    {
    }

    /** Makes `query`, a builder of its own, the nested builder of edge `e`. */
    method SetEdge(e: Edge, query: Query)
      requires Valid() && query.Valid() && query.Repr !! Repr
      requires Source(e) == kind && query.kind == Target(e)
      modifies this`with, this`Repr, this`plan
      ensures Valid() && Repr == old(Repr) + query.Repr
      ensures plan == old(plan).(with := old(plan).with[e := query.plan])
    {
      ghost var others := Repr;
      with, Repr := with[e := query], Repr + query.Repr;
      plan := plan.(with := plan.with[e := query.plan]);
      OthersStay(e);
      assert Owns(e);
      forall x | x in with && x != e ensures Apart(x, e) && Apart(e, x) {
        assert Owns(x);
        ApartFrom(x, e, others);
      }
      AllApart(e);
      assert forall x {:trigger Owns(x)} | x in with :: Owns(x);
    }

    /** A duplicate of this builder's own state, with its own context and no nested builders. */
    method CloneOwn() returns (c: Query)
      requires Valid()
      ensures fresh(c.Repr) && c.Valid() && c.kind == kind
      ensures c.plan == Plan(plan.spec.(locks := []), map[])
    {
      c := new Query(kind);
      var ctx' := ctx.Clone();
      c.ctx, c.Repr := ctx', {c, ctx'};
      c.order, c.predicates, c.joins := order, predicates, joins;
      c.plan := Plan(c.ToSpec(), map[]);
    }

    /** A duplicate of the builder and of every builder nested in it; lock modifiers are not
        copied. */
    method Clone() returns (c: Query)
      requires Valid()
      ensures fresh(c.Repr) && c.Valid() && c.kind == kind
      ensures c.plan == Unlocked(plan)
      decreases Repr, 2
    {
      c := CloneOwn();
      CloneEdges(c, EdgesOf(kind));
      UnlockedOnAll(plan, EdgesOf(kind));
      forall e | e in plan.with ensures e in EdgesOf(kind) {
        assert Owns(e);
        EdgesOfComplete(e);
      }
    }

    method CloneEdges(c: Query, es: seq<Edge>)
      requires Valid() && c.Valid() && c.Repr !! Repr && c.kind == kind && c.plan.with == map[]
      modifies c`with, c`Repr, c`plan
      ensures c.Valid() && fresh(c.Repr - old(c.Repr))
      ensures c.plan == old(c.plan).(with := UnlockedOn(plan, es))
      decreases Repr, 1
    {
      for k := 0 to |es|
        invariant c.Valid() && fresh(c.Repr - old(c.Repr))
        invariant c.plan == old(c.plan).(with := UnlockedOn(plan, es[..k]))
      {
        assert es[..k + 1][..k] == es[..k];
        if es[k] in with {
          CloneEdge(c, es[k]);
        }
      }
      assert es[..|es|] == es;
    }

    /** Gives `c` a duplicate of the builder nested here under edge `e`. */
    method CloneEdge(c: Query, e: Edge)
      requires Valid() && c.Valid() && c.Repr !! Repr && c.kind == kind && e in with
      modifies c`with, c`Repr, c`plan
      ensures c.Valid() && fresh(c.Repr - old(c.Repr))
      ensures c.plan == old(c.plan).(with := old(c.plan).with[e := Unlocked(plan.with[e])])
      decreases Repr, 0
    {
      assert Owns(e);
      var n := with[e].Clone();
      c.SetEdge(e, n);
    }

    method Where(ps: seq<Pred>)
      requires Valid()
      modifies this`predicates, this`plan
      ensures Valid() && plan == Apply(old(plan), Op.Where(ps))
    {
      predicates := predicates + ps;
      plan := plan.(spec := ToSpec());
      KeepsNested();
    }

    method Limit(n: nat)
      requires Valid()
      modifies ctx`limit, this`plan
      ensures Valid() && plan == Apply(old(plan), Op.Limit(n))
    {
      ctx.limit := Some(n);
      plan := plan.(spec := ToSpec());
      KeepsNested();
    }

    method Offset(n: nat)
      requires Valid()
      modifies ctx`offset, this`plan
      ensures Valid() && plan == Apply(old(plan), Op.Offset(n))
    {
      ctx.offset := Some(n);
      plan := plan.(spec := ToSpec());
      KeepsNested();
    }

    method Unique(on: bool)
      requires Valid()
      modifies ctx`unique, this`plan
      ensures Valid() && plan == Apply(old(plan), Op.Unique(on))
    {
      ctx.unique := Some(on);
      plan := plan.(spec := ToSpec());
      KeepsNested();
    }

    method Order(os: seq<OrderOption>)
      requires Valid()
      modifies this`order, this`plan
      ensures Valid() && plan == Apply(old(plan), Op.Order(os))
    {
      order := order + os;
      plan := plan.(spec := ToSpec());
      KeepsNested();
    }

    method Select(fs: seq<Col>)
      requires Valid()
      modifies ctx`fields, this`plan
      ensures Valid() && plan == Apply(old(plan), Op.Select(fs))
    {
      ctx.fields := ctx.fields + fs;
      plan := plan.(spec := ToSpec());
      KeepsNested();
    }

    method LockRows(lock: Lock, postgres: bool)
      requires Valid()
      modifies this`modifiers, ctx`unique, this`plan
      ensures Valid() && plan == Apply(old(plan), Op.LockRows(lock, postgres))
    {
      if postgres {
        Unique(false);
      }
      AppendModifier(lock);
    }

    method AppendModifier(lock: Lock)
      requires Valid()
      modifies this`modifiers, this`plan
      ensures Valid() && plan == old(plan).(spec := old(plan).spec.(locks := old(plan).spec.locks + [lock]))
    {
      modifiers := modifiers + [lock];
      plan := plan.(spec := ToSpec());
      KeepsNested();
    }

    /** The columns that `querySpec` puts into the SELECT. */
    method SelectedColumns() returns (cols: Option<seq<Col>>)
      requires Valid()
      ensures cols == Columns(kind, plan.spec.fields, plan.with.Keys)
    {
      var fields := ctx.fields;
      if |fields| == 0 {
        return None;
      }
      var columns := fields;
      if HasID(kind) {
        columns := [ID];
        for i := 0 to |fields|
          invariant columns == [ID] + WithoutID(fields[..i])
        {
          assert fields[..i + 1][..i] == fields[..i];
          if fields[i] != ID {
            columns := columns + [fields[i]];
          }
        }
        assert fields[..|fields|] == fields;
      }
      columns := AddEdgeColumns(columns, EdgesOf(kind));
      cols := Some(columns);
    }

    method AddEdgeColumns(base: seq<Col>, es: seq<Edge>) returns (columns: seq<Col>)
      ensures columns == AddForeignKeys(base, es, with.Keys)
    {
      columns := base;
      for k := 0 to |es|
        invariant columns == AddForeignKeys(base, es[..k], with.Keys)
      {
        assert es[..k + 1][..k] == es[..k];
        if es[k] in with && Rel(es[k]).M2O? {
          columns := AppendOnce(columns, Rel(es[k]).fk);
        }
      }
      assert es[..|es|] == es;
    }

    /** What the loader of edge `e` does to its nested builder, this one, before running it. */
    method AttachTo(e: Edge, keys: seq<int>)
      requires Valid()
      modifies this`predicates, this`joins, ctx`fields, this`plan
      ensures Valid() && plan == old(plan).(spec := Attach(e, keys, old(plan).spec))
    {
      match Rel(e)
      case M2O(_, _) =>
        Where([ColIn(ID, keys)]);
      case O2M(fk, _) =>
        AppendFieldOnce(fk);
        Where([ColIn(fk, keys)]);
      case M2M(_, _, _) =>
        Join(keys);
    }

    /** Adds a field to an explicit selection; an empty selection already means every column. */
    method AppendFieldOnce(f: Col)
      requires Valid()
      modifies ctx`fields, this`plan
      ensures Valid()
      ensures plan == old(plan).(spec := old(plan).spec.(fields :=
                if old(plan).spec.fields == [] then [] else AppendOnce(old(plan).spec.fields, f)))
    {
      if |ctx.fields| > 0 {
        ctx.AppendFieldOnce(f);
      }
      plan := plan.(spec := ToSpec());
      KeepsNested();
    }

    method Join(keys: seq<int>)
      requires Valid()
      modifies this`joins, this`plan
      ensures Valid() && plan == old(plan).(spec := old(plan).spec.(joins := old(plan).spec.joins + [keys]))
    {
      joins := joins + [keys];
      plan := plan.(spec := ToSpec());
      KeepsNested();
    }

    /** Loads edge `e` through a new nested builder, configured by the given calls. */
    method With(e: Edge, calls: seq<Op>)
      requires Valid() && OpFits(kind, Op.With(e, calls))
      modifies this`with, this`Repr, this`plan
      ensures Valid() && fresh(Repr - old(Repr))
      ensures plan == Apply(old(plan), Op.With(e, calls))
      decreases calls, 1
    {
      var query := new Query(Target(e));
      query.RunAll(calls);
      SetEdge(e, query);
    }

    /** Calls one builder method. */
    method Run(op: Op)
      requires Valid() && OpFits(kind, op)
      modifies Repr
      ensures Valid() && fresh(Repr - old(Repr))
      ensures plan == Apply(old(plan), op)
      decreases op, 0
    {
      match op
      case Where(ps) => Where(ps);
      case Limit(n) => Limit(n);
      case Offset(n) => Offset(n);
      case Unique(on) => Unique(on);
      case Order(os) => Order(os);
      case Select(fs) => Select(fs);
      case LockRows(lock, postgres) => LockRows(lock, postgres);
      case With(e, calls) => With(e, calls);
    }

    method RunAll(ops: seq<Op>)
      requires Valid() && forall i | 0 <= i < |ops| :: OpFits(kind, ops[i])
      modifies Repr
      ensures Valid() && fresh(Repr - old(Repr))
      ensures plan == ApplyAll(old(plan), ops)
      decreases ops, 0
    {
      for k := 0 to |ops|
        invariant Valid() && fresh(Repr - old(Repr))
        invariant plan == ApplyAll(old(plan), ops[..k])
      {
        assert ops[..k + 1][..k] == ops[..k];
        Run(ops[k]);
      }
      assert ops[..|ops|] == ops;
    }
  }
}
