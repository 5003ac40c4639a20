/** What a bulk creation does, whatever its builders and hooks: the order of its events, when the
    batch insert happens and with what, and which mutations are done at the end. */
module BulkResults {
  import opened Wrappers
  import opened AccountFields
  import opened BulkCreate

  // ---------- The order of events ----------

  /** Builder by builder: the hooks from the outermost in, then the check and the spec. */
  ghost function Descent(hooks: seq<seq<Hook>>, i: nat, h: nat): seq<Event>
    requires i < |hooks| && h <= |hooks[i]|
    decreases |hooks| - i
  {
    seq(|hooks[i]| - h, k requires 0 <= k => Pre(i, h + k)) + [Verify(i), Build(i)] +
    (if i + 1 < |hooks| then Descent(hooks, i + 1, 0) else [])
  }

  /** The events backwards, with the second half of each step for its first half. */
  function Mirror(es: seq<Event>): seq<Event> {
    if es == [] then []
    else
      Mirror(es[1..]) + match es[0]
        case Pre(i, h) => [Post(i, h)]
        case Build(i) => [Done(i)]
        case _ => []
  }

  lemma DescentPre(hooks: seq<seq<Hook>>, i: nat, h: nat)
    requires i < |hooks| && h < |hooks[i]|
    ensures Descent(hooks, i, h) == [Pre(i, h)] + Descent(hooks, i, h + 1)
    ensures Mirror(Descent(hooks, i, h)) == Mirror(Descent(hooks, i, h + 1)) + [Post(i, h)]
  {
  }

  ghost function Below(hooks: seq<seq<Hook>>, i: nat): seq<Event>
    requires i < |hooks|
  {
    if i + 1 < |hooks| then Descent(hooks, i + 1, 0) else []
  }

  lemma DescentCore(hooks: seq<seq<Hook>>, i: nat)
    requires i < |hooks|
    ensures Descent(hooks, i, |hooks[i]|) == [Verify(i), Build(i)] + Below(hooks, i)
    ensures Mirror(Descent(hooks, i, |hooks[i]|)) == Mirror(Below(hooks, i)) + [Done(i)]
  {
    var es := [Verify(i)] + ([Build(i)] + Below(hooks, i));
    assert Descent(hooks, i, |hooks[i]|) == es;
    assert es[1..] == [Build(i)] + Below(hooks, i) && es[1..][1..] == Below(hooks, i);
  }

  /** Down to the insert and up again. */
  ghost function DownAndUp(down: seq<Event>): seq<Event> {
    down + [Insert] + Mirror(down)
  }

  lemma {:induction false} StationsShape(hooks: seq<seq<Hook>>, i: nat, h: nat)
    requires i < |hooks| && h <= |hooks[i]|
    ensures Stations(hooks, i, h) == DownAndUp(Descent(hooks, i, h))
    decreases |hooks| - i, |hooks[i]| - h
  {
    if h < |hooks[i]| {
      StationsShape(hooks, i, h + 1);
      DescentPre(hooks, i, h);
      var down := Descent(hooks, i, h + 1);
      assert DownAndUp(Descent(hooks, i, h)) == [Pre(i, h)] + DownAndUp(down) + [Post(i, h)];
    } else {
      CoreShape(hooks, i);
    }
  }

  lemma {:induction false} CoreShape(hooks: seq<seq<Hook>>, i: nat)
    requires i < |hooks|
    ensures Stations(hooks, i, |hooks[i]|) == DownAndUp(Descent(hooks, i, |hooks[i]|))
    decreases |hooks| - i, 0, 0
  {
    DescentCore(hooks, i);
    if i + 1 < |hooks| {
      StationsShape(hooks, i + 1, 0);
    }
    var down := Below(hooks, i);
    assert DownAndUp(down) == Inner(hooks, i);
    assert DownAndUp(Descent(hooks, i, |hooks[i]|)) == [Verify(i), Build(i)] + DownAndUp(down) + [Done(i)];
  }

  /** All defaults first; then down through the builders and up again in exactly the reverse order,
      with the one batch insert in between. */
  lemma ProgramShape(hooks: seq<seq<Hook>>)
    requires hooks != []
    ensures Program(hooks) == AllDefaults(|hooks|) + (Descent(hooks, 0, 0) + [Insert] + Mirror(Descent(hooks, 0, 0)))
  {
    StationsShape(hooks, 0, 0);
  }

  /** A run does the events of its program in order, all of them if it succeeds. */
  lemma {:induction false} TraceIsPrefix(env: Env, w: World, es: seq<Event>)
    requires Fits(env, w) && AllInRange(env, es)
    ensures var r := Run(env, w, es); r.trace <= es && (r.ok ==> r.trace == es)
    decreases |es|
  {
    if es != [] && Succeeds(env, w, es[0]) {
      TraceIsPrefix(env, Step(env, w, es[0]), es[1..]);
    }
  }

  // ---------- Down to the insert ----------

  /** The content with which builder `i` reaches its spec, if no hook from the `h`-th on rejects it
      and the check passes. */
  function Prepare(env: Env, i: nat, h: nat, c: Content): Option<Content>
    requires i < |env.hooks| && h <= |env.hooks[i]|
    decreases |env.hooks[i]| - h
  {
    if h == |env.hooks[i]| then if Passes(c.fields, env.rt(i)) then Some(c) else None
    else
      var (next, accepted) := env.hooks[i][h].pre(c);
      if accepted then Prepare(env, i, h + 1, next) else None
  }

  /** Builder `i` from hook `h` on, and all builders after it, reach their specs. */
  predicate Ready(env: Env, w: World, i: nat, h: nat)
    requires Fits(env, w) && i < |env.hooks| && h <= |env.hooks[i]|
  {
    && Prepare(env, i, h, w.contents[i]).Some?
    && forall j | i < j < |env.hooks| :: Prepare(env, j, 0, w.contents[j]).Some?
  }

  ghost predicate BuiltFrom(rt: Runtime, c: Content, w: World, j: nat)
    requires j < |w.contents| == |w.specs| == |w.nodes|
  {
    w.contents[j] == c && w.specs[j] == Some(SpecOf(c, rt)) && w.nodes[j] == Some(NodeOf(c))
  }

  ghost predicate Untouched(w: World, w': World, j: nat)
    requires j < |w.contents| == |w.specs| == |w.nodes| == |w'.contents| == |w'.specs| == |w'.nodes|
  {
    w'.contents[j] == w.contents[j] && w'.specs[j] == w.specs[j] && w'.nodes[j] == w.nodes[j]
  }

  /** The world in which builder `i` from hook `h` on, and all after it, have their specs. */
  ghost predicate Descended(env: Env, w: World, i: nat, h: nat, w': World)
    requires Fits(env, w) && Fits(env, w') && i < |env.hooks| && h <= |env.hooks[i]| && Ready(env, w, i, h)
  {
    && (forall j {:trigger Untouched(w, w', j)} | 0 <= j < i :: Untouched(w, w', j))
    && BuiltFrom(env.rt(i), Prepare(env, i, h, w.contents[i]).value, w', i)
    && forall j | i < j < |env.hooks| :: BuiltFrom(env.rt(j), Prepare(env, j, 0, w.contents[j]).value, w', j)
  }

  lemma {:induction false} DescentInRange(env: Env, i: nat, h: nat)
    requires i < |env.hooks| && h <= |env.hooks[i]|
    ensures AllInRange(env, Descent(env.hooks, i, h)) && AllInRange(env, Mirror(Descent(env.hooks, i, h)))
  {
    StationsInRange(env, i, h);
    StationsShape(env.hooks, i, h);
  }

  lemma ReadyPre(env: Env, w: World, i: nat, h: nat)
    requires Fits(env, w) && i < |env.hooks| && h < |env.hooks[i]|
    ensures var next := Step(env, w, Pre(i, h));
            Ready(env, w, i, h) == (Succeeds(env, w, Pre(i, h)) && Ready(env, next, i, h + 1))
  {
    var next := Step(env, w, Pre(i, h));
    assert forall j | i < j < |env.hooks| :: next.contents[j] == w.contents[j];
  }

  lemma DescendedPre(env: Env, w: World, i: nat, h: nat, w': World)
    requires Fits(env, w) && Fits(env, w') && i < |env.hooks| && h < |env.hooks[i]| && Ready(env, w, i, h)
    requires Succeeds(env, w, Pre(i, h)) && Ready(env, Step(env, w, Pre(i, h)), i, h + 1)
    requires Descended(env, Step(env, w, Pre(i, h)), i, h + 1, w')
    ensures Descended(env, w, i, h, w')
  {
    var next := Step(env, w, Pre(i, h));
    forall j | 0 <= j < i ensures Untouched(w, w', j) {
      assert Untouched(next, w', j);
    }
    forall j | i < j < |env.hooks| ensures BuiltFrom(env.rt(j), Prepare(env, j, 0, w.contents[j]).value, w', j) {
      assert next.contents[j] == w.contents[j];
    }
  }

  lemma ReadyCore(env: Env, w: World, i: nat)
    requires Fits(env, w) && i < |env.hooks|
    ensures Ready(env, w, i, |env.hooks[i]|) ==
            (Succeeds(env, w, Verify(i)) && (i + 1 < |env.hooks| ==> Ready(env, Step(env, w, Build(i)), i + 1, 0)))
  {
    var built := Step(env, w, Build(i));
    assert built.contents == w.contents;
  }

  lemma DescendedCore(env: Env, w: World, i: nat, w': World)
    requires Fits(env, w) && Fits(env, w') && i < |env.hooks| && Ready(env, w, i, |env.hooks[i]|)
    requires var built := Step(env, w, Build(i));
             if i + 1 < |env.hooks| then Ready(env, built, i + 1, 0) && Descended(env, built, i + 1, 0, w')
             else w' == built
    ensures Descended(env, w, i, |env.hooks[i]|, w')
  {
    var built := Step(env, w, Build(i));
    assert Untouched(built, w', i);
    forall j | 0 <= j < i ensures Untouched(w, w', j) {
      assert Untouched(built, w', j);
    }
  }

  /** What going down from hook `h` of builder `i` comes to. */
  ghost predicate DescentResult(env: Env, w: World, i: nat, h: nat, r: Outcome)
    requires Fits(env, w) && i < |env.hooks| && h <= |env.hooks[i]|
  {
    && Fits(env, r.world) && r.ok == Ready(env, w, i, h)
    && r.world.done == w.done && r.world.ids == w.ids
    && (r.ok ==> Descended(env, w, i, h, r.world))
  }

  lemma {:induction false} DescentRuns(env: Env, w: World, i: nat, h: nat)
    requires Fits(env, w) && i < |env.hooks| && h <= |env.hooks[i]|
    ensures AllInRange(env, Descent(env.hooks, i, h))
    ensures DescentResult(env, w, i, h, Run(env, w, Descent(env.hooks, i, h)))
    decreases |env.hooks| - i, |env.hooks[i]| - h
  {
    DescentInRange(env, i, h);
    var es := Descent(env.hooks, i, h);
    if h < |env.hooks[i]| {
      DescentPre(env.hooks, i, h);
      assert es[0] == Pre(i, h) && es[1..] == Descent(env.hooks, i, h + 1);
      ReadyPre(env, w, i, h);
      if Succeeds(env, w, Pre(i, h)) {
        var next := Step(env, w, Pre(i, h));
        DescentRuns(env, next, i, h + 1);
        var r := Run(env, next, Descent(env.hooks, i, h + 1));
        if r.ok {
          DescendedPre(env, w, i, h, r.world);
        }
      }
    } else {
      DescentCoreRuns(env, w, i);
    }
  }

  lemma {:induction false} DescentCoreRuns(env: Env, w: World, i: nat)
    requires Fits(env, w) && i < |env.hooks|
    ensures AllInRange(env, Descent(env.hooks, i, |env.hooks[i]|))
    ensures DescentResult(env, w, i, |env.hooks[i]|, Run(env, w, Descent(env.hooks, i, |env.hooks[i]|)))
    decreases |env.hooks| - i, 0, 0
  {
    DescentInRange(env, i, |env.hooks[i]|);
    var es := Descent(env.hooks, i, |env.hooks[i]|);
    DescentCore(env.hooks, i);
    ReadyCore(env, w, i);
    assert es[0] == Verify(i) && es[1..][0] == Build(i) && es[1..][1..] == Below(env.hooks, i);
    if Succeeds(env, w, Verify(i)) {
      var built := Step(env, w, Build(i));
      if i + 1 < |env.hooks| {
        DescentRuns(env, built, i + 1, 0);
      }
      var r := Run(env, built, Below(env.hooks, i));
      if r.ok {
        DescendedCore(env, w, i, r.world);
      }
    }
  }

  // ---------- Up from the insert ----------

  /** The hooks of builder `i` from the `h`-th on accept the node. */
  ghost predicate PostsAccept(env: Env, i: nat, h: nat, node: Option<Fields>)
    requires i < |env.hooks|
  {
    forall k | h <= k < |env.hooks[i]| :: env.hooks[i][k].post(node)
  }

  /** The node of builder `j` once its assigned ID is known. */
  ghost function Settled(env: Env, w: World, j: nat): Option<Fields>
    requires Fits(env, w) && j < |env.hooks|
  {
    Named(w.nodes[j], w.ids[j])
  }

  /** Builder `i` and all after it have all their hooks accept. */
  ghost predicate Accepted(env: Env, w: World, i: nat)
    requires Fits(env, w)
  {
    forall j {:trigger Settled(env, w, j)} | i <= j < |env.hooks| :: PostsAccept(env, j, 0, Settled(env, w, j))
  }

  /** How going up from builder `i` leaves builder `j`: done if all later builders succeed. */
  ghost predicate Climbed(env: Env, w: World, i: nat, w': World, j: nat)
    requires Fits(env, w) && Fits(env, w') && j < |env.hooks|
  {
    if i <= j && Accepted(env, w, j + 1)
    then w'.done[j] && w'.linked[j] && w'.nodes[j] == Settled(env, w, j)
    else w'.done[j] == w.done[j] && w'.linked[j] == w.linked[j] && w'.nodes[j] == w.nodes[j]
  }

  /** What going up to hook `h` of builder `i` comes to. */
  ghost predicate AscentResult(env: Env, w: World, i: nat, h: nat, r: Outcome)
    requires Fits(env, w) && i < |env.hooks|
  {
    && Fits(env, r.world)
    && r.ok == (PostsAccept(env, i, h, Settled(env, w, i)) && Accepted(env, w, i + 1))
    && r.world.contents == w.contents && r.world.specs == w.specs && r.world.ids == w.ids
    && forall j {:trigger Climbed(env, w, i, r.world, j)} | 0 <= j < |env.hooks| :: Climbed(env, w, i, r.world, j)
  }

  lemma RunOne(env: Env, w: World, e: Event)
    requires Fits(env, w) && InRange(env, e)
    ensures Run(env, w, [e]) == Outcome(Step(env, w, e), [e], Succeeds(env, w, e))
  {
    YieldsOne(env, w, [], e);
  }

  lemma AscentPost(env: Env, w: World, i: nat, h: nat, r: Outcome)
    requires Fits(env, w) && i < |env.hooks| && h < |env.hooks[i]| && AscentResult(env, w, i, h + 1, r)
    ensures AscentResult(env, w, i, h, Then(env, r, [Post(i, h)]))
  {
    if r.ok {
      RunOne(env, r.world, Post(i, h));
      assert Climbed(env, w, i, r.world, i);
    }
  }

  lemma AscentDone(env: Env, w: World, i: nat, r: Outcome)
    requires Fits(env, w) && i < |env.hooks|
    requires if i + 1 < |env.hooks| then AscentResult(env, w, i + 1, 0, r) else r.world == w && r.ok
    ensures AscentResult(env, w, i, |env.hooks[i]|, Then(env, r, [Done(i)]))
  {
    assert r.ok == Accepted(env, w, i + 1);
    if r.ok {
      RunOne(env, r.world, Done(i));
    }
    var w' := Then(env, r, [Done(i)]).world;
    forall j | 0 <= j < |env.hooks| ensures Climbed(env, w, i, w', j) {
      if i + 1 < |env.hooks| {
        assert Climbed(env, w, i + 1, r.world, j);
      }
    }
  }

  lemma {:induction false} AscentRuns(env: Env, w: World, i: nat, h: nat)
    requires Fits(env, w) && i < |env.hooks| && h <= |env.hooks[i]|
    ensures AllInRange(env, Mirror(Descent(env.hooks, i, h)))
    ensures AscentResult(env, w, i, h, Run(env, w, Mirror(Descent(env.hooks, i, h))))
    decreases |env.hooks| - i, |env.hooks[i]| - h
  {
    DescentInRange(env, i, h);
    if h < |env.hooks[i]| {
      DescentPre(env.hooks, i, h);
      AscentRuns(env, w, i, h + 1);
      var up := Mirror(Descent(env.hooks, i, h + 1));
      RunConcat(env, w, up, [Post(i, h)]);
      AscentPost(env, w, i, h, Run(env, w, up));
    } else {
      DescentCore(env.hooks, i);
      var up := Mirror(Below(env.hooks, i));
      if i + 1 < |env.hooks| {
        AscentRuns(env, w, i + 1, 0);
      }
      RunConcat(env, w, up, [Done(i)]);
      AscentDone(env, w, i, Run(env, w, up));
    }
  }

  // ---------- The whole run ----------

  ghost function AfterDefaults(env: Env, w: World): World
    requires Fits(env, w)
  {
    w.(contents := seq(|env.hooks|, j requires 0 <= j < |env.hooks| => Defaulted(w.contents[j], env.rt(j))))
  }

  lemma {:induction false} DefaultsRun(env: Env, w: World, n: nat)
    requires Fits(env, w) && n <= |env.hooks|
    ensures AllInRange(env, AllDefaults(n))
    ensures var r := Run(env, w, AllDefaults(n));
            && r.ok && r.world == w.(contents := r.world.contents)
            && forall j | 0 <= j < |env.hooks| ::
                 r.world.contents[j] == if j < n then Defaulted(w.contents[j], env.rt(j)) else w.contents[j]
  {
    if n > 0 {
      DefaultsRun(env, w, n - 1);
      RunConcat(env, w, AllDefaults(n - 1), [Default(n - 1)]);
      RunOne(env, Run(env, w, AllDefaults(n - 1)).world, Default(n - 1));
      assert AllDefaults(n) == AllDefaults(n - 1) + [Default(n - 1)];
    }
  }

  /** No builder is rejected by its hooks or its check. */
  ghost predicate AllReady(env: Env, w: World)
    requires Fits(env, w)
  {
    forall j | 0 <= j < |env.hooks| :: Prepare(env, j, 0, AfterDefaults(env, w).contents[j]).Some?
  }

  /** The content from which the spec of builder `j` is made. */
  ghost function Final(env: Env, w: World, j: nat): Content
    requires Fits(env, w) && AllReady(env, w) && j < |env.hooks|
  {
    Prepare(env, j, 0, AfterDefaults(env, w).contents[j]).value
  }

  ghost function FinalSpecs(env: Env, w: World): seq<Option<CreateSpec>>
    requires Fits(env, w) && AllReady(env, w)
  {
    seq(|env.hooks|, j requires 0 <= j < |env.hooks| => Some(SpecOf(Final(env, w, j), env.rt(j))))
  }

  ghost predicate Inserted(env: Env, w: World)
    requires Fits(env, w)
  {
    AllReady(env, w) && env.batch(FinalSpecs(env, w)).Some?
  }

  /** The node of builder `j`, with the ID that the insert assigned to its own spec. */
  ghost function FinalNode(env: Env, w: World, j: nat): Option<Fields>
    requires Fits(env, w) && Inserted(env, w) && j < |env.hooks|
  {
    Named(Some(NodeOf(Final(env, w, j))), env.batch(FinalSpecs(env, w)).value(j))
  }

  /** All hooks of builder `i` and of those after it accept their nodes. */
  ghost predicate AllAccept(env: Env, w: World, i: nat)
    requires Fits(env, w) && Inserted(env, w)
  {
    forall j {:trigger FinalNode(env, w, j)} | i <= j < |env.hooks| :: PostsAccept(env, j, 0, FinalNode(env, w, j))
  }

  /** The world in which the specs of all builders, and nothing else, are ready for the insert. */
  ghost predicate AtInsert(env: Env, w: World, w2: World)
    requires Fits(env, w) && AllReady(env, w) && Fits(env, w2)
  {
    && w2.done == w.done && w2.ids == w.ids && w2.specs == FinalSpecs(env, w)
    && forall j | 0 <= j < |env.hooks| ::
         w2.contents[j] == Final(env, w, j) && w2.nodes[j] == Some(NodeOf(Final(env, w, j)))
  }

  lemma ReachInsert(env: Env, w: World, r: Outcome)
    requires Fits(env, w) && env.hooks != []
    requires r.ok && DescentResult(env, AfterDefaults(env, w), 0, 0, r)
    ensures AllReady(env, w) && AtInsert(env, w, r.world)
  {
    var w1, w2 := AfterDefaults(env, w), r.world;
    assert Ready(env, w1, 0, 0);
    forall j | 0 <= j < |env.hooks|
      ensures Prepare(env, j, 0, w1.contents[j]).Some?
      ensures BuiltFrom(env.rt(j), Prepare(env, j, 0, w1.contents[j]).value, w2, j)
    {
      assert Descended(env, w1, 0, 0, w2);
    }
  }

  lemma ReadyIsAllReady(env: Env, w: World)
    requires Fits(env, w) && env.hooks != []
    ensures Ready(env, AfterDefaults(env, w), 0, 0) == AllReady(env, w)
  {
    var w1 := AfterDefaults(env, w);
    if Ready(env, w1, 0, 0) {
      forall j | 0 <= j < |env.hooks| ensures Prepare(env, j, 0, w1.contents[j]).Some? {
        assert j > 0 ==> Prepare(env, j, 0, w1.contents[j]).Some?;
      }
    }
  }

  lemma SettledIsFinal(env: Env, w: World, w2: World)
    requires Fits(env, w) && Inserted(env, w) && Fits(env, w2) && AtInsert(env, w, w2)
    ensures var w3 := Step(env, w2, Insert);
            && (forall j | 0 <= j < |env.hooks| :: Settled(env, w3, j) == FinalNode(env, w, j))
            && (forall i: nat :: Accepted(env, w3, i) == AllAccept(env, w, i))
  {
    var w3 := Step(env, w2, Insert);
    forall j | 0 <= j < |env.hooks| ensures Settled(env, w3, j) == FinalNode(env, w, j) {
    }
    forall i: nat ensures Accepted(env, w3, i) == AllAccept(env, w, i) {
      if Accepted(env, w3, i) {
        forall j | i <= j < |env.hooks| ensures PostsAccept(env, j, 0, FinalNode(env, w, j)) {
          assert PostsAccept(env, j, 0, Settled(env, w3, j));
        }
      }
    }
  }

  /** How the mutation and the node of builder `j` end up: they are finished if the insert succeeded
      and so did all hooks of the later builders, which finish before. */
  ghost predicate EndsWell(env: Env, w: World, end: World, j: nat)
    requires Fits(env, w) && Fits(env, end) && j < |env.hooks|
  {
    if Inserted(env, w) && AllAccept(env, w, j + 1)
    then end.done[j] && end.linked[j] && end.nodes[j] == FinalNode(env, w, j)
    else end.done[j] == w.done[j]
  }

  ghost predicate BulkOutcome(env: Env, w: World, end: World, ok: bool)
    requires Fits(env, w)
  {
    && Fits(env, end)
    && (ok <==> Inserted(env, w) && AllAccept(env, w, 0))
    && (AllReady(env, w) ==> end.specs == FinalSpecs(env, w)
                             && forall j | 0 <= j < |env.hooks| :: end.contents[j] == Final(env, w, j))
    && (Inserted(env, w) ==> forall j | 0 <= j < |env.hooks| :: end.ids[j] == env.batch(FinalSpecs(env, w)).value(j))
    && (!Inserted(env, w) ==> end.ids == w.ids)
    && forall j {:trigger EndsWell(env, w, end, j)} | 0 <= j < |env.hooks| :: EndsWell(env, w, end, j)
  }

  /** From the insert on. */
  lemma InsertAndAscend(env: Env, w: World, w2: World, r: Outcome)
    requires Fits(env, w) && AllReady(env, w) && env.hooks != [] && Fits(env, w2) && AtInsert(env, w, w2)
    requires AllInRange(env, Mirror(Descent(env.hooks, 0, 0)))
    requires r == Run(env, w2, [Insert] + Mirror(Descent(env.hooks, 0, 0)))
    ensures BulkOutcome(env, w, r.world, r.ok)
  {
    var up := Mirror(Descent(env.hooks, 0, 0));
    RunConcat(env, w2, [Insert], up);
    RunOne(env, w2, Insert);
    if Inserted(env, w) {
      var w3 := Step(env, w2, Insert);
      AscentRuns(env, w3, 0, 0);
      SettledIsFinal(env, w, w2);
      Climbs(env, w, w2, Run(env, w3, up), r);
    }
  }

  lemma Climbs(env: Env, w: World, w2: World, up: Outcome, r: Outcome)
    requires Fits(env, w) && Inserted(env, w) && env.hooks != [] && Fits(env, w2) && AtInsert(env, w, w2)
    requires var w3 := Step(env, w2, Insert);
             && AscentResult(env, w3, 0, 0, up)
             && (forall j | 0 <= j < |env.hooks| :: Settled(env, w3, j) == FinalNode(env, w, j))
             && (forall i: nat :: Accepted(env, w3, i) == AllAccept(env, w, i))
    requires r.world == up.world && r.ok == up.ok
    ensures BulkOutcome(env, w, r.world, r.ok)
  {
    var w3 := Step(env, w2, Insert);
    forall j | 0 <= j < |env.hooks| ensures EndsWell(env, w, r.world, j) {
      assert Climbed(env, w3, 0, up.world, j);
    }
    assert r.ok == (PostsAccept(env, 0, 0, FinalNode(env, w, 0)) && AllAccept(env, w, 1));
  }

  lemma StopsBeforeInsert(env: Env, w: World, r: Outcome)
    requires Fits(env, w) && env.hooks != []
    requires !r.ok && DescentResult(env, AfterDefaults(env, w), 0, 0, r)
    ensures !AllReady(env, w) && BulkOutcome(env, w, r.world, r.ok)
  {
    ReadyIsAllReady(env, w);
  }

  lemma AfterDefaultsRuns(env: Env, w: World, down: seq<Event>, rest: seq<Event>)
    requires Fits(env, w) && env.hooks != []
    requires down == Descent(env.hooks, 0, 0) && rest == [Insert] + Mirror(down)
    ensures AllInRange(env, down + rest)
    ensures var r := Run(env, AfterDefaults(env, w), down + rest); BulkOutcome(env, w, r.world, r.ok)
  {
    var w1 := AfterDefaults(env, w);
    DescentInRange(env, 0, 0);
    RunConcat(env, w1, down, rest);
    DescentRuns(env, w1, 0, 0);
    var r2 := Run(env, w1, down);
    if r2.ok {
      ReachInsert(env, w, r2);
      InsertAndAscend(env, w, r2.world, Run(env, r2.world, rest));
    } else {
      StopsBeforeInsert(env, w, r2);
    }
  }

  /** The outcome of every bulk creation. The batch insert happens exactly when no hook rejects a
      builder on the way down and every check passes, and with the specs in builder order; the
      creation succeeds exactly when the insert does and all hooks accept the nodes; mutations are
      done from the last builder back. */
  lemma BulkRuns(env: Env, w: World)
    requires Fits(env, w) && env.hooks != []
    ensures AllInRange(env, Program(env.hooks))
    ensures var r := Run(env, w, Program(env.hooks)); BulkOutcome(env, w, r.world, r.ok)
  {
    var n, down := |env.hooks|, Descent(env.hooks, 0, 0);
    var rest := [Insert] + Mirror(down);
    ProgramShape(env.hooks);
    assert down + rest == down + [Insert] + Mirror(down);
    AfterDefaultsRuns(env, w, down, rest);
    DefaultsRun(env, w, n);
    RunConcat(env, w, AllDefaults(n), down + rest);
    assert Run(env, w, AllDefaults(n)).world == AfterDefaults(env, w);
  }

  // ---------- Consequences ----------

  lemma ProgramInRange(env: Env)
    ensures AllInRange(env, Program(env.hooks))
  {
    if env.hooks != [] {
      StationsInRange(env, 0, 0);
    }
  }

  function CountInserts(es: seq<Event>): nat {
    if es == [] then 0 else CountInserts(es[1..]) + if es[0] == Insert then 1 else 0
  }

  lemma {:induction false} CountConcat(es: seq<Event>, more: seq<Event>)
    ensures CountInserts(es + more) == CountInserts(es) + CountInserts(more)
  {
    if es == [] {
      assert es + more == more;
    } else {
      assert (es + more)[1..] == es[1..] + more;
      CountConcat(es[1..], more);
    }
  }

  lemma {:induction false} CountNone(es: seq<Event>)
    requires Insert !in es
    ensures CountInserts(es) == 0 && Insert !in Mirror(es)
  {
    if es != [] {
      CountNone(es[1..]);
    }
  }

  lemma {:induction false} DescentHasNoInsert(hooks: seq<seq<Hook>>, i: nat)
    requires i < |hooks|
    ensures Insert !in Descent(hooks, i, 0)
    decreases |hooks| - i
  {
    if i + 1 < |hooks| {
      DescentHasNoInsert(hooks, i + 1);
    }
  }

  /** The insert happens once if all builders are ready for it, after all of them and before
      anything on the way up; and else not at all. */
  lemma InsertOnceOrNever(env: Env, w: World)
    requires Fits(env, w) && env.hooks != []
    ensures AllInRange(env, Program(env.hooks))
    ensures var r, down := Run(env, w, Program(env.hooks)), AllDefaults(|env.hooks|) + Descent(env.hooks, 0, 0);
            if AllReady(env, w) then down + [Insert] <= r.trace && CountInserts(r.trace) == 1
            else r.trace <= down && CountInserts(r.trace) == 0
  {
    ProgramInRange(env);
    var n, down := |env.hooks|, Descent(env.hooks, 0, 0);
    var defaults, up := AllDefaults(n), Mirror(down);
    ProgramShape(env.hooks);
    DescentInRange(env, 0, 0);
    ReachesInsertIfReady(env, w, defaults, down);
    NoInsertAround(env.hooks, defaults, down);
    Regroup(defaults, down, [Insert], up);
    TraceThroughInsert(env, w, defaults + down, up);
  }

  lemma Regroup(a: seq<Event>, b: seq<Event>, c: seq<Event>, d: seq<Event>)
    ensures a + (b + c + d) == a + b + (c + d)
  {
  }

  lemma NoInsertAround(hooks: seq<seq<Hook>>, defaults: seq<Event>, down: seq<Event>)
    requires hooks != [] && defaults == AllDefaults(|hooks|) && down == Descent(hooks, 0, 0)
    ensures Insert !in defaults + down && Insert !in Mirror(down)
  {
    DescentHasNoInsert(hooks, 0);
    CountNone(down);
  }

  lemma ReachesInsertIfReady(env: Env, w: World, defaults: seq<Event>, down: seq<Event>)
    requires Fits(env, w) && env.hooks != [] && defaults == AllDefaults(|env.hooks|) && down == Descent(env.hooks, 0, 0)
    ensures AllInRange(env, defaults + down) && Run(env, w, defaults + down).ok == AllReady(env, w)
  {
    DescentInRange(env, 0, 0);
    DefaultsRun(env, w, |env.hooks|);
    DescentRuns(env, AfterDefaults(env, w), 0, 0);
    ReadyIsAllReady(env, w);
    RunConcat(env, w, defaults, down);
    assert Run(env, w, defaults).world == AfterDefaults(env, w);
  }

  lemma TraceThroughInsert(env: Env, w: World, down: seq<Event>, up: seq<Event>)
    requires Fits(env, w) && AllInRange(env, down) && AllInRange(env, up) && Insert !in down && Insert !in up
    ensures AllInRange(env, down + ([Insert] + up))
    ensures var r, r1 := Run(env, w, down + ([Insert] + up)), Run(env, w, down);
            if r1.ok then down + [Insert] <= r.trace && CountInserts(r.trace) == 1
            else r.trace <= down && CountInserts(r.trace) == 0
  {
    var r1 := Run(env, w, down);
    RunConcat(env, w, down, [Insert] + up);
    TraceIsPrefix(env, w, down);
    CountNone(r1.trace);
    if r1.ok {
      TraceFromInsert(env, r1.world, up);
      SplitAtInsert(down, Run(env, r1.world, [Insert] + up).trace);
    }
  }

  lemma SplitAtInsert(down: seq<Event>, trace: seq<Event>)
    requires Insert !in down && trace != [] && trace[0] == Insert
    ensures down + [Insert] <= down + trace && CountInserts(down + trace) == CountInserts(trace)
  {
    CountNone(down);
    CountConcat(down, trace);
  }

  lemma TraceFromInsert(env: Env, w: World, up: seq<Event>)
    requires Fits(env, w) && AllInRange(env, up) && Insert !in up
    ensures AllInRange(env, [Insert] + up)
    ensures var trace := Run(env, w, [Insert] + up).trace; trace != [] && trace[0] == Insert && CountInserts(trace) == 1
  {
    RunConcat(env, w, [Insert], up);
    RunOne(env, w, Insert);
    CountNone([]);
    if Succeeds(env, w, Insert) {
      TraceIsPrefix(env, Step(env, w, Insert), up);
      CountNone(Run(env, Step(env, w, Insert), up).trace);
    }
  }

  /** All or nothing: if one hook rejects a builder on the way down, or one check fails, then the
      insert is not issued, the creation fails, and no mutation becomes done. */
  lemma OneRejectionStopsAll(env: Env, w: World, j: nat)
    requires Fits(env, w) && j < |env.hooks|
    requires Prepare(env, j, 0, Defaulted(w.contents[j], env.rt(j))) == None
    ensures AllInRange(env, Program(env.hooks))
    ensures var r := Run(env, w, Program(env.hooks));
            !r.ok && Insert !in r.trace && r.world.done == w.done && r.world.ids == w.ids
  {
    ProgramInRange(env);
    var r := Run(env, w, Program(env.hooks));
    assert !AllReady(env, w) by {
      assert AfterDefaults(env, w).contents[j] == Defaulted(w.contents[j], env.rt(j));
    }
    BulkRuns(env, w);
    NothingDone(env, w, r.world, r.ok);
    InsertOnceOrNever(env, w);
    if Insert in r.trace {
      CountSome(r.trace);
    }
  }

  lemma NothingDone(env: Env, w: World, end: World, ok: bool)
    requires Fits(env, w) && !Inserted(env, w) && BulkOutcome(env, w, end, ok)
    ensures !ok && end.done == w.done && end.ids == w.ids
  {
    forall j | 0 <= j < |env.hooks| ensures end.done[j] == w.done[j] {
      assert EndsWell(env, w, end, j);
    }
  }

  lemma {:induction false} CountSome(es: seq<Event>)
    requires Insert in es
    ensures CountInserts(es) > 0
  {
    if es[0] != Insert {
      CountSome(es[1..]);
    }
  }

  /** The mutations that are done on return are those of the last so many builders; they are all
      done exactly when the insert succeeded and the hooks of all builders but the first accept. */
  lemma DoneIsSuffix(env: Env, w: World)
    requires Fits(env, w) && env.hooks != []
    requires forall j | 0 <= j < |w.done| :: !w.done[j]
    ensures AllInRange(env, Program(env.hooks))
    ensures var done := Run(env, w, Program(env.hooks)).world.done;
            && (forall i, j | 0 <= i <= j < |env.hooks| && done[i] :: done[j])
            && ((forall j | 0 <= j < |env.hooks| :: done[j]) <==> Inserted(env, w) && AllAccept(env, w, 1))
  {
    ProgramInRange(env);
    BulkRuns(env, w);
    var end := Run(env, w, Program(env.hooks)).world;
    forall i, j | 0 <= i <= j < |env.hooks| && end.done[i] ensures end.done[j] {
      assert EndsWell(env, w, end, i) && EndsWell(env, w, end, j);
    }
    assert EndsWell(env, w, end, 0);
  }

  /** A hook never sets a field that the mutation lacks. */
  ghost predicate FillsNothing(h: Hook) {
    forall c: Content :: h.pre(c).0.fields.Keys <= c.fields.Keys
  }

  lemma {:induction false} PrepareFillsNothing(env: Env, i: nat, h: nat, c: Content)
    requires i < |env.hooks| && h <= |env.hooks[i]|
    requires forall k | h <= k < |env.hooks[i]| :: FillsNothing(env.hooks[i][k])
    ensures var prepared := Prepare(env, i, h, c);
            prepared.Some? ==> prepared.value.fields.Keys <= c.fields.Keys && Passes(prepared.value.fields, env.rt(i))
    decreases |env.hooks[i]| - h
  {
    if h < |env.hooks[i]| {
      assert FillsNothing(env.hooks[i][h]);
      PrepareFillsNothing(env, i, h + 1, env.hooks[i][h].pre(c).0);
    }
  }

  /** The bulk creation throws the error of `defaults` away. All the same, if `defaults` gave up on
      a builder and its hooks do not fill in what is missing, nothing is inserted. */
  lemma DefaultsErrorStopsAll(env: Env, w: World, j: nat)
    requires Fits(env, w) && j < |env.hooks|
    requires WithDefaults(w.contents[j].fields, env.rt(j), DEFAULTED).1.Some?
    requires forall k | 0 <= k < |env.hooks[j]| :: FillsNothing(env.hooks[j][k])
    ensures AllInRange(env, Program(env.hooks))
    ensures var r := Run(env, w, Program(env.hooks));
            !r.ok && Insert !in r.trace && r.world.done == w.done && r.world.ids == w.ids
  {
    ProgramInRange(env);
    var c := Defaulted(w.contents[j], env.rt(j));
    PrepareFillsNothing(env, j, 0, c);
    if Prepare(env, j, 0, c).Some? {
      UnsetDefaultFailsCheck(w.contents[j].fields, env.rt(j), Prepare(env, j, 0, c).value.fields);
      assert false;
    }
    OneRejectionStopsAll(env, w, j);
  }

  /** A created node is the one that reading the row of its own spec gives: through hooks, spec,
      insert, ID, scan and assignment. */
  lemma CreatedNodesReadBack(env: Env, w: World, j: nat, id: int, columns: seq<Field>)
    requires Fits(env, w) && j < |env.hooks|
    requires Inserted(env, w) && AllAccept(env, w, j + 1) && env.batch(FinalSpecs(env, w)).value(j) == Some(id)
    requires WellTyped(Final(env, w, j).fields)
    requires forall f | f in RowOf(SpecOf(Final(env, w, j), env.rt(j)), id) :: f in columns
    ensures AllInRange(env, Program(env.hooks))
    ensures var end, spec := Run(env, w, Program(env.hooks)).world, SpecOf(Final(env, w, j), env.rt(j));
            var read := AssignAll(map[], map[], columns, Scan(RowOf(spec, id), columns));
            end.specs[j] == Some(spec) && read.err == None && end.nodes[j] == Some(read.fields)
  {
    ProgramInRange(env);
    BulkRuns(env, w);
    CreateThenRead(Final(env, w, j), env.rt(j), id, columns);
    assert EndsWell(env, w, Run(env, w, Program(env.hooks)).world, j);
  }

  // ---------- Defaults in every run ----------

  /** A hook that leaves the fields of the mutation as they are. */
  ghost predicate LeavesFields(h: Hook) {
    forall c: Content :: h.pre(c).0.fields == c.fields
  }

  ghost predicate NoDefaults(es: seq<Event>) {
    forall e | e in es :: !e.Default?
  }

  lemma {:induction false} StationsHaveNoDefaults(hooks: seq<seq<Hook>>, i: nat, h: nat)
    requires i < |hooks| && h <= |hooks[i]|
    ensures NoDefaults(Stations(hooks, i, h))
    decreases |hooks| - i, |hooks[i]| - h
  {
    if h < |hooks[i]| {
      StationsHaveNoDefaults(hooks, i, h + 1);
    } else if i + 1 < |hooks| {
      StationsHaveNoDefaults(hooks, i + 1, 0);
    }
  }

  lemma {:induction false} RunKeepsFields(env: Env, w: World, es: seq<Event>, j: nat)
    requires Fits(env, w) && AllInRange(env, es) && j < |env.hooks| && NoDefaults(es)
    requires forall h | 0 <= h < |env.hooks[j]| :: LeavesFields(env.hooks[j][h])
    ensures Run(env, w, es).world.contents[j].fields == w.contents[j].fields
    decreases |es|
  {
    if es != [] {
      var next := Step(env, w, es[0]);
      assert es[0] in es;
      assert next.contents[j].fields == w.contents[j].fields by {
        if es[0].Pre? && es[0].i == j {
          assert LeavesFields(env.hooks[j][es[0].h]);
        }
      }
      if Succeeds(env, w, es[0]) {
        RunKeepsFields(env, next, es[1..], j);
      }
    }
  }

  /** However a run ends, a builder whose hooks leave its fields alone has the values that were set
      before and the defaults of its unset fields. */
  lemma DefaultsInEveryRun(env: Env, w: World, j: nat)
    requires Fits(env, w) && j < |env.hooks|
    requires forall h | 0 <= h < |env.hooks[j]| :: LeavesFields(env.hooks[j][h])
    ensures AllInRange(env, Program(env.hooks))
    ensures Completed(w.contents[j].fields, env.rt(j), Run(env, w, Program(env.hooks)).world.contents[j].fields)
  {
    var n := |env.hooks|;
    var rest := Stations(env.hooks, 0, 0);
    ProgramInRange(env);
    DefaultsRun(env, w, n);
    StationsInRange(env, 0, 0);
    StationsHaveNoDefaults(env.hooks, 0, 0);
    RunConcat(env, w, AllDefaults(n), rest);
    RunKeepsFields(env, Run(env, w, AllDefaults(n)).world, rest, j);
    DefaultsExactly(w.contents[j].fields, env.rt(j));
  }

  /** A hook that leaves the fields alone and calls the next mutator. */
  ghost predicate Passive(h: Hook) {
    forall c: Content :: h.pre(c).0.fields == c.fields && h.pre(c).1
  }

  /** The name, the platform and the type are set, every other required field is set or has a
      default, and what will then be checked is valid. */
  ghost predicate Sound(fields: Fields, rt: Runtime) {
    && {Name, Platform, Type} <= fields.Keys
    && {CreatedAt, UpdatedAt, Credentials, Extra, Concurrency, Priority, RateMultiplier, Status, AutoPauseOnExpired,
        Schedulable, QuotaDimension} <= fields.Keys + rt.defaults.Keys
    && (forall f | f in {Name, Platform, Type, Status, SessionWindowStatus, QuotaDimension} && f in fields ::
          rt.valid(f, fields[f]))
    && (forall f | f in {Status, QuotaDimension} && f !in fields :: rt.valid(f, rt.defaults[f]))
  }

  lemma SoundPasses(fields: Fields, rt: Runtime)
    requires Sound(fields, rt)
    ensures Passes(WithDefaults(fields, rt, DEFAULTED).0, rt)
  {
    DefaultsSetOnlyUnset(fields, rt, DEFAULTED);
    var (after, err) := WithDefaults(fields, rt, DEFAULTED);
    if err.Some? {
      DefaultedAre(err.value);
      assert false;
    }
    OnlyThreeCanBeMissing(fields, rt);
    forall f | f in {Name, Platform, Type, Status, SessionWindowStatus, QuotaDimension} && f in after
      ensures rt.valid(f, after[f])
    {
      DefaultedAre(f);
    }
  }

  lemma DefaultedAre(f: Field)
    ensures f in DEFAULTED <==>
            f in {CreatedAt, UpdatedAt, Credentials, Extra, Concurrency, Priority, RateMultiplier, Status,
                  AutoPauseOnExpired, Schedulable, QuotaDimension}
  {
  }

  lemma {:induction false} PassivePrepares(env: Env, i: nat, h: nat, c: Content)
    requires i < |env.hooks| && h <= |env.hooks[i]| && Passes(c.fields, env.rt(i))
    requires forall k | 0 <= k < |env.hooks[i]| :: Passive(env.hooks[i][k])
    ensures Prepare(env, i, h, c).Some?
    decreases |env.hooks[i]| - h
  {
    if h < |env.hooks[i]| {
      assert Passive(env.hooks[i][h]);
      PassivePrepares(env, i, h + 1, env.hooks[i][h].pre(c).0);
    }
  }

  lemma SoundBuildersAreReady(env: Env, w: World)
    requires Fits(env, w)
    requires forall j | 0 <= j < |env.hooks| :: Sound(w.contents[j].fields, env.rt(j))
    requires forall j, h | 0 <= j < |env.hooks| && 0 <= h < |env.hooks[j]| :: Passive(env.hooks[j][h])
    ensures AllReady(env, w)
  {
    forall j | 0 <= j < |env.hooks| ensures Prepare(env, j, 0, AfterDefaults(env, w).contents[j]).Some? {
      SoundPasses(w.contents[j].fields, env.rt(j));
      PassivePrepares(env, j, 0, Defaulted(w.contents[j], env.rt(j)));
    }
  }

  lemma SpecsOfAll(env: Env, w: World, end: World, ok: bool)
    requires Fits(env, w) && AllReady(env, w) && BulkOutcome(env, w, end, ok)
    ensures forall j | 0 <= j < |env.hooks| :: end.specs[j].Some?
  {
  }

  /** If all builders are sound and no hook interferes on the way down, the insert is issued, once,
      with a spec of every builder. */
  lemma SoundBuildersAreInserted(env: Env, w: World)
    requires Fits(env, w) && env.hooks != []
    requires forall j | 0 <= j < |env.hooks| :: Sound(w.contents[j].fields, env.rt(j))
    requires forall j, h | 0 <= j < |env.hooks| && 0 <= h < |env.hooks[j]| :: Passive(env.hooks[j][h])
    ensures AllInRange(env, Program(env.hooks))
    ensures var r := Run(env, w, Program(env.hooks));
            && Insert in r.trace && CountInserts(r.trace) == 1
            && forall j | 0 <= j < |env.hooks| :: r.world.specs[j].Some?
  {
    ProgramInRange(env);
    SoundBuildersAreReady(env, w);
    BulkRuns(env, w);
    SpecsOfAll(env, w, Run(env, w, Program(env.hooks)).world, Run(env, w, Program(env.hooks)).ok);
    InsertOnceOrNever(env, w);
    var trace := Run(env, w, Program(env.hooks)).trace;
    if Insert !in trace {
      CountNone(trace);
    }
  }

  /** If then the insert succeeds, and no hook rejects its node, all accounts are created. */
  lemma SoundBuildersSucceed(env: Env, w: World)
    requires Fits(env, w) && env.hooks != []
    requires forall j | 0 <= j < |env.hooks| :: Sound(w.contents[j].fields, env.rt(j))
    requires forall j, h | 0 <= j < |env.hooks| && 0 <= h < |env.hooks[j]| :: Passive(env.hooks[j][h])
    requires forall j, h | 0 <= j < |env.hooks| && 0 <= h < |env.hooks[j]| :: forall n :: env.hooks[j][h].post(n)
    requires forall specs :: env.batch(specs).Some?
    ensures AllInRange(env, Program(env.hooks))
    ensures var r := Run(env, w, Program(env.hooks)); r.ok && forall j | 0 <= j < |env.hooks| :: r.world.done[j]
  {
    ProgramInRange(env);
    SoundBuildersAreReady(env, w);
    BulkRuns(env, w);
    assert Inserted(env, w) && forall i: nat :: AllAccept(env, w, i);
    var end := Run(env, w, Program(env.hooks)).world;
    forall j | 0 <= j < |env.hooks| ensures end.done[j] {
      assert EndsWell(env, w, end, j);
    }
  }

  /** When all builders are ready, the row that is inserted for each holds every field and foreign
      key of its mutation as the hooks left it, and its spec every edge. */
  lemma InsertLosesNothing(env: Env, w: World, j: nat, id: int)
    requires Fits(env, w) && j < |env.hooks| && AllReady(env, w)
    ensures AllInRange(env, Program(env.hooks))
    ensures var end := Run(env, w, Program(env.hooks)).world;
            && end.specs[j].Some? && HoldsContent(RowOf(end.specs[j].value, id), end.contents[j])
            && HoldsEdges(end.specs[j].value.edges, end.contents[j], env.rt(j))
  {
    ProgramInRange(env);
    BulkRuns(env, w);
    SpecLosesNothing(Final(env, w, j), env.rt(j), id);
  }
}
