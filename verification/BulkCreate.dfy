/** Creating many accounts at once. Every builder is wrapped in its hooks, builder i calls builder
    i + 1 from inside its own chain, and the last one issues the single batch insert.

    A hook does something before it calls the next mutator, calls it exactly once, hands its error
    on, and does something afterwards. */
module BulkCreate {
  import opened Wrappers
  import opened AccountFields

  /** `pre` may change the content of the mutation, and tells whether the next mutator is called;
      `post` looks at the created node, and tells whether the hook succeeds. */
  datatype Hook = Hook(pre: Content -> (Content, bool), post: Option<Fields> -> bool)

  /** The batch insert fails as a whole, or says which IDs it assigned to the specs. */
  type Batch = seq<Option<CreateSpec>> -> Option<nat -> Option<int>>

  /** The hooks of each builder, and what surrounds the run. The default times are read anew for
      every builder, so each finds package variables of its own. */
  datatype Env = Env(hooks: seq<seq<Hook>>, rt: nat -> Runtime, batch: Batch)

  // ---------- The run as a straight-line program ----------

  datatype Event =
    | Default(i: nat)
    | Pre(i: nat, h: nat)
    | Verify(i: nat)
    | Build(i: nat)
    | Insert
    | Done(i: nat)
    | Post(i: nat, h: nat)

  /** Per builder: the content of its mutation; its spec, its node and its assigned ID, if any;
      whether the mutation is done, and whether its ID is that of the node. */
  datatype World = World(contents: seq<Content>, specs: seq<Option<CreateSpec>>, nodes: seq<Option<Fields>>,
                         ids: seq<Option<int>>, done: seq<bool>, linked: seq<bool>)

  predicate Fits(env: Env, w: World) {
    |w.contents| == |w.specs| == |w.nodes| == |w.ids| == |w.done| == |w.linked| == |env.hooks|
  }

  predicate InRange(env: Env, e: Event) {
    match e
    case Insert => true
    case Pre(i, h) => i < |env.hooks| && h < |env.hooks[i]|
    case Post(i, h) => i < |env.hooks| && h < |env.hooks[i]|
    case _ => e.i < |env.hooks|
  }

  function Defaulted(c: Content, rt: Runtime): Content {
    c.(fields := WithDefaults(c.fields, rt, DEFAULTED).0)
  }

  /** The node once the ID of its own spec is known. */
  function Named(node: Option<Fields>, id: Option<int>): Option<Fields> {
    if node.Some? && id.Some? then Some(node.value[ID := IntV(id.value)]) else node
  }

  function Step(env: Env, w: World, e: Event): (next: World)
    requires Fits(env, w) && InRange(env, e)
    ensures Fits(env, next)
  {
    match e
    case Default(i) => w.(contents := w.contents[i := Defaulted(w.contents[i], env.rt(i))])
    case Pre(i, h) => w.(contents := w.contents[i := env.hooks[i][h].pre(w.contents[i]).0])
    case Build(i) => w.(specs := w.specs[i := Some(SpecOf(w.contents[i], env.rt(i)))],
                       nodes := w.nodes[i := Some(NodeOf(w.contents[i]))], linked := w.linked[i := false])
    case Insert =>
      var given := env.batch(w.specs);
      if given.None? then w else w.(ids := seq(|env.hooks|, j requires 0 <= j => given.value(j)))
    case Done(i) => w.(nodes := w.nodes[i := Named(w.nodes[i], w.ids[i])], done := w.done[i := true],
                       linked := w.linked[i := true])
    case _ => w
  }

  /** The event does not end the run. */
  predicate Succeeds(env: Env, w: World, e: Event)
    requires Fits(env, w) && InRange(env, e)
  {
    match e
    case Pre(i, h) => env.hooks[i][h].pre(w.contents[i]).1
    case Verify(i) => Passes(w.contents[i].fields, env.rt(i))
    case Insert => env.batch(w.specs).Some?
    case Post(i, h) => env.hooks[i][h].post(w.nodes[i])
    case _ => true
  }

  datatype Outcome = Outcome(world: World, trace: seq<Event>, ok: bool)

  ghost predicate AllInRange(env: Env, es: seq<Event>) {
    forall e | e in es :: InRange(env, e)
  }

  /** The events in turn, up to and including the first that is not accepted. */
  ghost function Run(env: Env, w: World, es: seq<Event>): (r: Outcome)
    requires Fits(env, w) && AllInRange(env, es)
    ensures Fits(env, r.world)
    decreases |es|
  {
    if es == [] then Outcome(w, [], true)
    else if !Succeeds(env, w, es[0]) then Outcome(Step(env, w, es[0]), [es[0]], false)
    else
      var rest := Run(env, Step(env, w, es[0]), es[1..]);
      rest.(trace := [es[0]] + rest.trace)
  }

  /** What one mutator does from its `h`-th hook on, everything it calls included. */
  ghost function Stations(hooks: seq<seq<Hook>>, i: nat, h: nat): seq<Event>
    requires i < |hooks| && h <= |hooks[i]|
    decreases |hooks| - i, |hooks[i]| - h
  {
    if h < |hooks[i]| then [Pre(i, h)] + Stations(hooks, i, h + 1) + [Post(i, h)]
    else [Verify(i), Build(i)] + (if i + 1 < |hooks| then Stations(hooks, i + 1, 0) else [Insert]) + [Done(i)]
  }

  function AllDefaults(n: nat): seq<Event> {
    seq(n, i requires 0 <= i => Default(i))
  }

  ghost function Program(hooks: seq<seq<Hook>>): seq<Event> {
    AllDefaults(|hooks|) + if hooks == [] then [] else Stations(hooks, 0, 0)
  }

  lemma {:induction false} StationsInRange(env: Env, i: nat, h: nat)
    requires i < |env.hooks| && h <= |env.hooks[i]|
    ensures AllInRange(env, Stations(env.hooks, i, h))
    decreases |env.hooks| - i, |env.hooks[i]| - h
  {
    if h < |env.hooks[i]| {
      StationsInRange(env, i, h + 1);
    } else if i + 1 < |env.hooks| {
      StationsInRange(env, i + 1, 0);
    }
  }

  /** Runs one after the other, the second only if the first is accepted throughout. */
  ghost function Then(env: Env, r: Outcome, es: seq<Event>): Outcome
    requires Fits(env, r.world) && AllInRange(env, es)
  {
    if !r.ok then r
    else
      var rest := Run(env, r.world, es);
      rest.(trace := r.trace + rest.trace)
  }

  lemma RunFirst(env: Env, w: World, es: seq<Event>)
    requires Fits(env, w) && es != [] && AllInRange(env, es)
    ensures Run(env, w, es) == Then(env, Outcome(Step(env, w, es[0]), [es[0]], Succeeds(env, w, es[0])), es[1..])
  {
  }

  lemma {:induction false} RunConcat(env: Env, w: World, es: seq<Event>, more: seq<Event>)
    requires Fits(env, w) && AllInRange(env, es) && AllInRange(env, more)
    ensures AllInRange(env, es + more)
    ensures Run(env, w, es + more) == Then(env, Run(env, w, es), more)
    decreases |es|
  {
    if es == [] {
      assert es + more == more;
      assert Run(env, w, es) == Outcome(w, [], true) && [] + Run(env, w, more).trace == Run(env, w, more).trace;
    } else {
      var e, rest, next := es[0], es[1..], Step(env, w, es[0]);
      RunFirst(env, w, es);
      RunFirst(env, w, es + more);
      assert (es + more)[1..] == rest + more && (es + more)[0] == e;
      if Succeeds(env, w, e) {
        RunConcat(env, next, rest, more);
        var r, all := Run(env, next, rest), Run(env, next, rest + more);
        assert all == Then(env, r, more);
        assert Run(env, w, es + more) == all.(trace := [e] + all.trace);
        assert Run(env, w, es) == r.(trace := [e] + r.trace);
        if r.ok {
          var tail := Run(env, r.world, more).trace;
          assert [e] + (r.trace + tail) == [e] + r.trace + tail;
        }
      }
    }
  }

  /** What the innermost function of builder `i` calls. */
  ghost function Inner(hooks: seq<seq<Hook>>, i: nat): seq<Event>
    requires i < |hooks|
  {
    if i + 1 < |hooks| then Stations(hooks, i + 1, 0) else [Insert]
  }

  lemma StationsCore(env: Env, i: nat)
    requires i < |env.hooks|
    ensures Stations(env.hooks, i, |env.hooks[i]|) == [Verify(i)] + ([Build(i)] + Inner(env.hooks, i) + [Done(i)])
    ensures AllInRange(env, Inner(env.hooks, i))
  {
    StationsInRange(env, i, |env.hooks[i]|);
    if i + 1 < |env.hooks| {
      StationsInRange(env, i + 1, 0);
    }
  }

  lemma {:induction false} RunKeepsNode(env: Env, w: World, es: seq<Event>, i: nat)
    requires Fits(env, w) && AllInRange(env, es) && i < |env.hooks| && w.nodes[i].Some?
    ensures Run(env, w, es).world.nodes[i].Some?
    decreases |es|
  {
    if es != [] && Succeeds(env, w, es[0]) {
      RunKeepsNode(env, Step(env, w, es[0]), es[1..], i);
    }
  }

  /** Running the events from `w` leads to `w'`, and appends to the trace `t`. */
  ghost predicate Yields(env: Env, w: World, t: seq<Event>, es: seq<Event>, w': World, t': seq<Event>, ok: bool) {
    && Fits(env, w) && AllInRange(env, es)
    && var r := Run(env, w, es);
       w' == r.world && t' == t + r.trace && ok == r.ok
  }

  lemma YieldsOne(env: Env, w: World, t: seq<Event>, e: Event)
    requires Fits(env, w) && InRange(env, e)
    ensures Yields(env, w, t, [e], Step(env, w, e), t + [e], Succeeds(env, w, e))
  {
    var next := Step(env, w, e);
    assert Run(env, next, []) == Outcome(next, [], true);
    assert [e][1..] == [] && [e] + [] == [e];
  }

  lemma YieldsThen(env: Env, w: World, t: seq<Event>, es: seq<Event>, w1: World, t1: seq<Event>,
                   more: seq<Event>, w2: World, t2: seq<Event>, ok: bool)
    requires Yields(env, w, t, es, w1, t1, true) && Yields(env, w1, t1, more, w2, t2, ok)
    ensures Yields(env, w, t, es + more, w2, t2, ok)
  {
    RunConcat(env, w, es, more);
  }

  lemma YieldsStop(env: Env, w: World, t: seq<Event>, es: seq<Event>, w1: World, t1: seq<Event>, more: seq<Event>)
    requires Yields(env, w, t, es, w1, t1, false) && AllInRange(env, more)
    ensures Yields(env, w, t, es + more, w1, t1, false)
  {
    RunConcat(env, w, es, more);
  }

  // ---------- The run itself ----------

  /** The ID of a mutation is that of its node, once it is done. */
  class Mutation {
    var content: Content
    var done: bool
    var node: Account?

    constructor (content: Content)
      ensures this.content == content && !done && node == null
    {
      this.content, done, node := content, false, null;
    }
  }

  class AccountCreate {
    const hooks: seq<Hook>
    const mutation: Mutation

    constructor (hooks: seq<Hook>, mutation: Mutation)
      ensures this.hooks == hooks && this.mutation == mutation
    {
      this.hooks, this.mutation := hooks, mutation;
    }
  }

  ghost function Mutations(builders: seq<AccountCreate>): set<object> {
    set b <- builders :: b.mutation
  }

  ghost function HooksOf(builders: seq<AccountCreate>): seq<seq<Hook>> {
    seq(|builders|, i requires 0 <= i < |builders| => builders[i].hooks)
  }

  /** The contents and completion flags are those of the builders' mutations. */
  ghost predicate Shown(builders: seq<AccountCreate>, w: World)
    reads Mutations(builders)
  {
    && |w.contents| == |w.done| == |builders|
    && forall i {:trigger builders[i]} | 0 <= i < |builders| ::
         builders[i].mutation.content == w.contents[i] && builders[i].mutation.done == w.done[i]
  }

  /** Nothing was built yet. */
  ghost predicate Blank(w: World) {
    && |w.specs| == |w.nodes| == |w.ids| == |w.linked| == |w.contents|
    && forall i | 0 <= i < |w.contents| :: w.specs[i] == None && w.nodes[i] == None && w.ids[i] == None && !w.linked[i]
  }

  /** The functions that `Save` wraps around each other. */
  datatype Mutator = Core(i: nat) | Wrapped(i: nat, h: nat, next: Mutator)

  function Chain(hooks: seq<Hook>, i: nat, h: nat): Mutator
    requires h <= |hooks|
    decreases |hooks| - h
  {
    if h == |hooks| then Core(i) else Wrapped(i, h, Chain(hooks, i, h + 1))
  }

  /** The variables that the mutators of one `Save` share. */
  class Saving {
    const builders: seq<AccountCreate>
    const rt: nat -> Runtime
    const batch: Batch
    var specs: seq<Option<CreateSpec>>
    var nodes: seq<Account?>
    var ids: seq<Option<int>>
    var mutators: seq<Mutator>
    ghost const env: Env
    ghost var world: World
    ghost var trace: seq<Event>
    ghost var Repr: set<object>

    ghost predicate Owns(i: int)
      reads this, Repr
      requires 0 <= i < |builders| && |nodes| == |builders|
    {
      builders[i].mutation in Repr && (nodes[i] != null ==> nodes[i] in Repr)
    }

    ghost predicate Apart(i: int, j: int)
      reads this
      requires 0 <= i < |builders| && 0 <= j < |builders| && |nodes| == |builders|
    {
      i != j ==> builders[i].mutation != builders[j].mutation && (nodes[i] != null ==> nodes[i] != nodes[j])
    }

    ghost predicate Shows(i: int)
      reads this, Repr
      requires 0 <= i < |builders| && |nodes| == |builders| && Owns(i) && Fits(env, world) && |env.hooks| == |builders|
    {
      var m := builders[i].mutation;
      && m.content == world.contents[i]
      && m.done == world.done[i]
      && (nodes[i] == null <==> world.nodes[i].None?)
      && (nodes[i] != null ==> nodes[i].fields == world.nodes[i].value)
      && (world.linked[i] <==> m.node != null && m.node == nodes[i])
    }

    ghost predicate Valid()
      reads this, Repr
    {
      && this in Repr
      && Fits(env, world) && env.rt == rt && env.batch == batch
      && |env.hooks| == |builders| == |nodes|
      && specs == world.specs && ids == world.ids
      && (forall i {:trigger builders[i]} {:trigger env.hooks[i]} | 0 <= i < |builders| ::
            env.hooks[i] == builders[i].hooks)
      && (forall i {:trigger Owns(i)} | 0 <= i < |builders| :: Owns(i))
      && (forall i {:trigger Shows(i)} | 0 <= i < |builders| :: Shows(i))
      && (forall i, j {:trigger Apart(i, j)} | 0 <= i < |builders| && 0 <= j < |builders| :: Apart(i, j))
    }

    constructor (builders: seq<AccountCreate>, rt: nat -> Runtime, batch: Batch)
      requires forall i, j | 0 <= i < j < |builders| :: builders[i].mutation != builders[j].mutation
      ensures Valid() && fresh(Repr - Mutations(builders)) && mutators == [] && trace == []
      ensures this.builders == builders && env == Env(HooksOf(builders), rt, batch)
      ensures Shown(builders, world) && Blank(world)
    {
      this.builders, this.rt, this.batch := builders, rt, batch;
      specs := seq(|builders|, _ => None);
      nodes := seq(|builders|, _ => null);
      ids := seq(|builders|, _ => None);
      mutators := [];
      env := Env(HooksOf(builders), rt, batch);
      world := World(seq(|builders|, i requires 0 <= i < |builders| reads Mutations(builders) =>
                       builders[i].mutation.content),
                     seq(|builders|, _ => None), seq(|builders|, _ => None), seq(|builders|, _ => None),
                     seq(|builders|, i requires 0 <= i < |builders| reads Mutations(builders) =>
                       builders[i].mutation.done),
                     seq(|builders|, _ => false));
      trace := [];
      Repr := {this} + Mutations(builders);
    }

    /** Builder `j` looks the same before and after. */
    twostate predicate SameBuilder(j: int)
      reads this, builders[j].mutation, nodes[j]
      requires 0 <= j < |builders| && |nodes| == old(|nodes|) == |builders|
      requires Fits(env, world) && old(Fits(env, world)) && |env.hooks| == |builders|
    {
      && unchanged(builders[j].mutation) && nodes[j] == old(nodes[j])
      && (nodes[j] != null ==> old(allocated(nodes[j])) && unchanged(nodes[j]))
      && world.contents[j] == old(world.contents[j]) && world.nodes[j] == old(world.nodes[j])
      && world.done[j] == old(world.done[j]) && world.linked[j] == old(world.linked[j])
    }

    twostate lemma StaysValid(i: int)
      requires old(Valid()) && 0 <= i < |builders| && old(Repr) <= Repr && |nodes| == |builders|
      requires Fits(env, world) && specs == world.specs && ids == world.ids
      requires forall j | 0 <= j < |builders| && j != i :: SameBuilder(j)
      requires Owns(i) && Shows(i) && (nodes[i] == old(nodes[i]) || nodes[i] !in old(Repr))
      ensures Valid()
    {
      forall j | 0 <= j < |builders| ensures Owns(j) && Shows(j) {
        assert old(Owns(j)) && old(Shows(j));
        if j != i {
          assert SameBuilder(j);
        }
      }
      forall j, k | 0 <= j < |builders| && 0 <= k < |builders| ensures Apart(j, k) {
        assert old(Apart(j, k));
        assert j != i ==> SameBuilder(j) && old(Owns(j));
        assert k != i ==> SameBuilder(k) && old(Owns(k));
      }
    }

    twostate lemma UnchangedValid()
      requires old(Valid()) && old(Repr) <= Repr && nodes == old(nodes)
      requires Fits(env, world) && specs == world.specs && ids == world.ids
      requires forall j | 0 <= j < |builders| :: SameBuilder(j)
      ensures Valid()
    {
      forall j | 0 <= j < |builders| ensures Owns(j) && Shows(j) {
        assert old(Owns(j)) && old(Shows(j)) && SameBuilder(j);
      }
      forall j, k | 0 <= j < |builders| && 0 <= k < |builders| ensures Apart(j, k) {
        assert old(Apart(j, k));
      }
    }

    ghost method Note(e: Event)
      requires Valid()
      modifies this`trace
      ensures Valid() && trace == old(trace) + [e]
    {
      trace := trace + [e];
      assert forall j | 0 <= j < |builders| :: old(Owns(j)) && old(Shows(j));
      UnchangedValid();
    }

    method SetContent(i: nat, c: Content, ghost e: Event)
      requires Valid() && i < |builders|
      modifies Repr
      ensures Valid() && Repr == old(Repr) && mutators == old(mutators)
      ensures trace == old(trace) + [e]
      ensures world == old(world).(contents := old(world).contents[i := c])
    {
      assert Owns(i) && Shows(i);
      var m := builders[i].mutation;
      m.content := c;
      world, trace := world.(contents := world.contents[i := c]), trace + [e];
      forall j | 0 <= j < |builders| && j != i ensures SameBuilder(j) {
        assert old(Owns(j)) && old(Shows(j)) && old(Apart(i, j)) && old(Apart(j, i));
      }
      StaysValid(i);
    }

    method Defaults(i: nat)
      requires Valid() && i < |builders|
      modifies Repr
      ensures Valid() && Repr == old(Repr) && mutators == old(mutators)
      ensures world == Step(env, old(world), Default(i)) && trace == old(trace) + [Default(i)]
    {
      assert Owns(i) && Shows(i);
      var content := builders[i].mutation.content;
      var fields, err := ApplyDefaults(content.fields, rt(i));
      SetContent(i, content.(fields := fields), Default(i));
    }

    /** What hook `h` does before it calls the next mutator. */
    method Before(i: nat, h: nat) returns (ok: bool)
      requires Valid() && i < |builders| && h < |env.hooks[i]|
      modifies Repr
      ensures Valid() && Repr == old(Repr) && mutators == old(mutators)
      ensures world == Step(env, old(world), Pre(i, h)) && trace == old(trace) + [Pre(i, h)]
      ensures ok == Succeeds(env, old(world), Pre(i, h))
    {
      assert Owns(i) && Shows(i);
      var (content, accepted) := builders[i].hooks[h].pre(builders[i].mutation.content);
      SetContent(i, content, Pre(i, h));
      ok := accepted;
    }

    method After(i: nat, h: nat) returns (ok: bool)
      requires Valid() && i < |builders| && h < |env.hooks[i]|
      modifies this`trace
      ensures Valid() && trace == old(trace) + [Post(i, h)] && ok == Succeeds(env, world, Post(i, h))
    {
      assert Owns(i) && Shows(i);
      ok := builders[i].hooks[h].post(if nodes[i] == null then None else Some(nodes[i].fields));
      Note(Post(i, h));
    }

    method Checked(i: nat) returns (ok: bool)
      requires Valid() && i < |builders|
      modifies this`trace
      ensures Valid() && trace == old(trace) + [Verify(i)] && ok == Succeeds(env, world, Verify(i))
    {
      assert Owns(i) && Shows(i);
      var err := Check(builders[i].mutation.content.fields, rt(i));
      ok := err == None;
      Note(Verify(i));
    }

    method SetNode(i: nat, node: Account, spec: CreateSpec, ghost e: Event)
      requires Valid() && i < |builders| && node !in Repr && builders[i].mutation.node != node
      modifies this
      ensures Valid() && Repr == old(Repr) + {node} && mutators == old(mutators)
      ensures trace == old(trace) + [e]
      ensures world == old(world).(specs := old(world).specs[i := Some(spec)],
                                   nodes := old(world).nodes[i := Some(node.fields)],
                                   linked := old(world).linked[i := false])
    {
      assert Owns(i) && Shows(i);
      nodes, specs, Repr := nodes[i := node], specs[i := Some(spec)], Repr + {node};
      world := world.(specs := specs, nodes := world.nodes[i := Some(node.fields)], linked := world.linked[i := false]);
      trace := trace + [e];
      forall j | 0 <= j < |builders| && j != i ensures SameBuilder(j) {
        assert old(Owns(j)) && old(Shows(j)) && old(Apart(i, j)) && old(Apart(j, i));
      }
      StaysValid(i);
    }

    method CreateNode(i: nat)
      requires Valid() && i < |builders|
      modifies this
      ensures Valid() && fresh(Repr - old(Repr)) && old(Repr) <= Repr && mutators == old(mutators)
      ensures world == Step(env, old(world), Build(i)) && trace == old(trace) + [Build(i)]
    {
      assert Owns(i) && Shows(i);
      var node, spec := MakeSpec(builders[i].mutation.content, rt(i));
      SetNode(i, node, spec, Build(i));
    }

    method BatchInsert() returns (ok: bool)
      requires Valid()
      modifies this
      ensures Valid() && Repr == old(Repr) && mutators == old(mutators)
      ensures world == Step(env, old(world), Insert) && trace == old(trace) + [Insert]
      ensures ok == Succeeds(env, old(world), Insert)
    {
      assert forall j | 0 <= j < |builders| :: Owns(j) && Shows(j);
      var inserted := batch(specs);
      ok := inserted.Some?;
      if ok {
        ids := seq(|builders|, j requires 0 <= j => inserted.value(j));
      }
      world, trace := Step(env, world, Insert), trace + [Insert];
      UnchangedValid();
    }

    method SetFields(i: nat, fields: Fields)
      requires Valid() && i < |builders| && nodes[i] != null
      modifies Repr
      ensures Valid() && Repr == old(Repr) && mutators == old(mutators) && trace == old(trace)
      ensures world == old(world).(nodes := old(world).nodes[i := Some(fields)]) && nodes == old(nodes)
    {
      assert Owns(i) && Shows(i);
      nodes[i].fields := fields;
      world := world.(nodes := world.nodes[i := Some(fields)]);
      forall j | 0 <= j < |builders| && j != i ensures SameBuilder(j) {
        assert old(Owns(j)) && old(Shows(j)) && old(Apart(i, j)) && old(Apart(j, i));
      }
      StaysValid(i);
    }

    /** The mutation's ID is from now on that of the node, and the mutation is done. */
    method MarkDone(i: nat, ghost e: Event)
      requires Valid() && i < |builders| && nodes[i] != null
      modifies Repr
      ensures Valid() && Repr == old(Repr) && mutators == old(mutators) && trace == old(trace) + [e]
      ensures world == old(world).(done := old(world).done[i := true], linked := old(world).linked[i := true])
    {
      assert Owns(i) && Shows(i);
      var m := builders[i].mutation;
      m.node, m.done := nodes[i], true;
      world := world.(done := world.done[i := true], linked := world.linked[i := true]);
      trace := trace + [e];
      forall j | 0 <= j < |builders| && j != i ensures SameBuilder(j) {
        assert old(Owns(j)) && old(Shows(j)) && old(Apart(i, j)) && old(Apart(j, i));
      }
      StaysValid(i);
    }

    method Finish(i: nat)
      requires Valid() && i < |builders| && nodes[i] != null
      modifies Repr
      ensures Valid() && Repr == old(Repr) && mutators == old(mutators)
      ensures world == Step(env, old(world), Done(i)) && trace == old(trace) + [Done(i)]
    {
      assert Shows(i);
      if ids[i].Some? {
        SetFields(i, nodes[i].fields[ID := IntV(ids[i].value)]);
      }
      MarkDone(i, Done(i));
    }

    /** Every mutator in the slice is the complete chain of its builder. */
    ghost predicate Chained()
      reads this
    {
      && |mutators| == |env.hooks|
      && forall j {:trigger mutators[j]} | 0 <= j < |mutators| :: mutators[j] == Chain(env.hooks[j], j, 0)
    }

    /** One mutator is called, and from inside it the rest of its chain and those of later builders. */
    method Call(mut: Mutator, ghost i: nat, ghost h: nat) returns (ok: bool)
      requires Valid() && Chained() && i < |builders| && h <= |env.hooks[i]| && mut == Chain(env.hooks[i], i, h)
      modifies Repr
      ensures Valid() && fresh(Repr - old(Repr)) && old(Repr) <= Repr && mutators == old(mutators)
      ensures Yields(env, old(world), old(trace), Stations(env.hooks, i, h), world, trace, ok)
      decreases |builders| - i, |env.hooks[i]| - h + 1, 0
    {
      if mut.Core? {
        ok := CallCore(mut.i);
        return;
      }
      ghost var w, t, rest := world, trace, Stations(env.hooks, i, h + 1) + [Post(i, h)];
      StationsInRange(env, i, h + 1);
      assert Stations(env.hooks, i, h) == [Pre(i, h)] + rest;
      ok := Before(mut.i, mut.h);
      ghost var w1, t1 := world, trace;
      YieldsOne(env, w, t, Pre(i, h));
      if !ok {
        YieldsStop(env, w, t, [Pre(i, h)], w1, t1, rest);
        return;
      }
      ok := CallNext(mut, i, h);
      YieldsThen(env, w, t, [Pre(i, h)], w1, t1, rest, world, trace, ok);
    }

    /** A hook calls the next mutator, and hands its error on. */
    method CallNext(mut: Mutator, ghost i: nat, ghost h: nat) returns (ok: bool)
      requires Valid() && Chained() && i < |builders| && h < |env.hooks[i]| && mut == Chain(env.hooks[i], i, h)
      modifies Repr
      ensures Valid() && fresh(Repr - old(Repr)) && old(Repr) <= Repr && mutators == old(mutators)
      ensures Yields(env, old(world), old(trace), Stations(env.hooks, i, h + 1) + [Post(i, h)], world, trace, ok)
      decreases |builders| - i, |env.hooks[i]| - h, 1
    {
      ghost var w, t, inner := world, trace, Stations(env.hooks, i, h + 1);
      ok := Call(mut.next, i, h + 1);
      ghost var w1, t1 := world, trace;
      if !ok {
        YieldsStop(env, w, t, inner, w1, t1, [Post(i, h)]);
        return;
      }
      ok := After(mut.i, mut.h);
      YieldsOne(env, w1, t1, Post(i, h));
      YieldsThen(env, w, t, inner, w1, t1, [Post(i, h)], world, trace, ok);
    }

    /** The innermost function of builder `i`. */
    method CallCore(i: nat) returns (ok: bool)
      requires Valid() && Chained() && i < |builders|
      modifies Repr
      ensures Valid() && fresh(Repr - old(Repr)) && old(Repr) <= Repr && mutators == old(mutators)
      ensures Yields(env, old(world), old(trace), Stations(env.hooks, i, |env.hooks[i]|), world, trace, ok)
      decreases |builders| - i, 0, 1
    {
      ghost var w, t, inner := world, trace, Inner(env.hooks, i);
      StationsCore(env, i);
      ok := Checked(i);
      YieldsOne(env, w, t, Verify(i));
      if !ok {
        YieldsStop(env, w, t, [Verify(i)], world, trace, [Build(i)] + inner + [Done(i)]);
        return;
      }
      ok := BuildAndGoOn(i);
      YieldsThen(env, w, t, [Verify(i)], w, t + [Verify(i)], [Build(i)] + inner + [Done(i)], world, trace, ok);
    }

    method BuildAndGoOn(i: nat) returns (ok: bool)
      requires Valid() && Chained() && i < |builders|
      modifies Repr
      ensures Valid() && fresh(Repr - old(Repr)) && old(Repr) <= Repr && mutators == old(mutators)
      ensures Yields(env, old(world), old(trace), [Build(i)] + Inner(env.hooks, i) + [Done(i)], world, trace, ok)
      decreases |builders| - i, 0, 0
    {
      ghost var w, t, inner := world, trace, Inner(env.hooks, i);
      CreateNode(i);
      ghost var w1, t1 := world, trace;
      YieldsOne(env, w, t, Build(i));
      ok := GoOn(i);
      ghost var w2, t2 := world, trace;
      YieldsThen(env, w, t, [Build(i)], w1, t1, inner, w2, t2, ok);
      if !ok {
        YieldsStop(env, w, t, [Build(i)] + inner, w2, t2, [Done(i)]);
        return;
      }
      RunKeepsNode(env, w1, inner, i);
      assert Shows(i);
      Finish(i);
      YieldsOne(env, w2, t2, Done(i));
      YieldsThen(env, w, t, [Build(i)] + inner, w2, t2, [Done(i)], world, trace, true);
    }

    /** The next builder's mutator, or the batch insert after the last. */
    method GoOn(i: nat) returns (ok: bool)
      requires Valid() && Chained() && i < |builders|
      modifies Repr
      ensures Valid() && fresh(Repr - old(Repr)) && old(Repr) <= Repr && mutators == old(mutators)
      ensures Yields(env, old(world), old(trace), Inner(env.hooks, i), world, trace, ok)
      decreases |builders| - i - 1, |if i + 1 < |env.hooks| then env.hooks[i + 1] else []| + 2, 0
    {
      if i < |mutators| - 1 {
        ok := Call(mutators[i + 1], i + 1, 0);
      } else {
        ghost var w, t := world, trace;
        ok := BatchInsert();
        YieldsOne(env, w, t, Insert);
      }
    }

    /** The hooks of builder `i` are wrapped around its function, the last one first. */
    method Wrap(i: nat) returns (mut: Mutator)
      requires i < |builders|
      ensures mut == Chain(builders[i].hooks, i, 0)
    {
      mut := Core(i);
      for h := |builders[i].hooks| downto 0
        invariant mut == Chain(builders[i].hooks, i, h)
      {
        mut := Wrapped(i, h, mut);
      }
    }

    /** All defaults are applied, and all chains built, before any of them runs. */
    method SetUp()
      requires Valid() && mutators == []
      modifies Repr
      ensures Valid() && Repr == old(Repr) && Chained()
      ensures Yields(env, old(world), old(trace), AllDefaults(|env.hooks|), world, trace, true)
    {
      assert AllDefaults(0) == [];
      for i := 0 to |builders|
        invariant Valid() && Repr == old(Repr) && |mutators| == i
        invariant forall j {:trigger mutators[j]} | 0 <= j < i :: mutators[j] == Chain(env.hooks[j], j, 0)
        invariant Yields(env, old(world), old(trace), AllDefaults(i), world, trace, true)
      {
        SetUpOne(i, old(world), old(trace));
      }
    }

    method SetUpOne(i: nat, ghost w: World, ghost t: seq<Event>)
      requires Valid() && i < |builders| && Yields(env, w, t, AllDefaults(i), world, trace, true)
      modifies Repr
      ensures Valid() && Repr == old(Repr) && mutators == old(mutators) + [Chain(env.hooks[i], i, 0)]
      ensures Yields(env, w, t, AllDefaults(i + 1), world, trace, true)
    {
      ghost var w1, t1 := world, trace;
      Defaults(i);
      YieldsOne(env, w1, t1, Default(i));
      YieldsThen(env, w, t, AllDefaults(i), w1, t1, [Default(i)], world, trace, true);
      assert AllDefaults(i + 1) == AllDefaults(i) + [Default(i)];
      var mut := Wrap(i);
      AddMutator(mut);
    }

    method AddMutator(mut: Mutator)
      requires Valid()
      modifies this`mutators
      ensures Valid() && mutators == old(mutators) + [mut]
    {
      mutators := mutators + [mut];
      assert forall j | 0 <= j < |builders| :: old(Owns(j)) && old(Shows(j));
      UnchangedValid();
    }

    /** The whole run, once nothing went wrong before. */
    method Launch() returns (ok: bool)
      requires Valid() && mutators == []
      modifies Repr
      ensures Valid() && fresh(Repr - old(Repr))
      ensures Yields(env, old(world), old(trace), Program(env.hooks), world, trace, ok)
    {
      SetUp();
      ghost var w, t := world, trace;
      ok := true;
      if |mutators| > 0 {
        ok := Call(mutators[0], 0, 0);
        YieldsThen(env, old(world), old(trace), AllDefaults(|env.hooks|), w, t,
                   Stations(env.hooks, 0, 0), world, trace, ok);
      } else {
        assert Program(env.hooks) == AllDefaults(|env.hooks|);
      }
    }

    lemma Results()
      requires Valid()
      ensures Shown(builders, world) && Returned(builders, nodes, world)
    {
      forall i | 0 <= i < |builders|
        ensures builders[i].mutation.content == world.contents[i] && builders[i].mutation.done == world.done[i]
        ensures world.nodes[i] == (if nodes[i] == null then None else Some(nodes[i].fields))
        ensures world.linked[i] ==> nodes[i] != null && builders[i].mutation.node == nodes[i]
      {
        assert Owns(i) && Shows(i);
      }
    }
  }

  /** The returned nodes are those of the world, and the IDs of linked mutations are theirs. */
  ghost predicate Returned(builders: seq<AccountCreate>, nodes: seq<Account?>, w: World)
    reads Mutations(builders), set n <- nodes | n != null
  {
    && |nodes| == |builders| == |w.nodes| == |w.linked|
    && forall i | 0 <= i < |nodes| ::
         && w.nodes[i] == (if nodes[i] == null then None else Some(nodes[i].fields))
         && (w.linked[i] ==> nodes[i] != null && builders[i].mutation.node == nodes[i])
  }

  class AccountCreateBulk {
    const builders: seq<AccountCreate>
    /** An earlier call on the bulk builder went wrong. */
    const err: bool

    constructor (builders: seq<AccountCreate>, err: bool)
      ensures this.builders == builders && this.err == err
    {
      this.builders, this.err := builders, err;
    }

    /** `first` and `last` are the worlds before and after. */
    method Save(rt: nat -> Runtime, batch: Batch)
      returns (ok: bool, nodes: seq<Account?>, ghost first: World, ghost last: World, ghost trace: seq<Event>)
      requires forall i, j | 0 <= i < j < |builders| :: builders[i].mutation != builders[j].mutation
      modifies Mutations(builders)
      ensures err ==> !ok && nodes == [] && trace == [] && unchanged(Mutations(builders))
      ensures !err ==> old(Shown(builders, first)) && Blank(first) && Shown(builders, last)
      ensures !err ==> Yields(Env(HooksOf(builders), rt, batch), first, [], Program(HooksOf(builders)), last, trace, ok)
      ensures !ok ==> nodes == []
      ensures ok ==> Returned(builders, nodes, last)
    {
      if err {
        first, last, trace := World([], [], [], [], [], []), World([], [], [], [], [], []), [];
        return false, [], first, last, trace;
      }
      var saving := new Saving(builders, rt, batch);
      first := saving.world;
      ok := saving.Launch();
      last, trace := saving.world, saving.trace;
      nodes := if ok then saving.nodes else [];
      saving.Results();
    }
  }
}