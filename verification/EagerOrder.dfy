/** Many-to-many neighbours and their order: what the loader makes of joined rows that come back in
    an arbitrary order. */
module EagerOrder {
  import opened Wrappers
  import opened Schema
  import opened Database
  import opened EagerPlan

  // ---------- Many-to-many exactness, for any order of joined rows ----------

  /** Target `a` has come in at a point where `b` has not. */
  ghost predicate AppearsBefore(joined: seq<Joined>, a: int, b: int) {
    exists n :: 0 <= n <= |joined| && a in Targets(joined[..n]) && b !in Targets(joined[..n])
  }

  /** The IDs of the targets that occur in a join. */
  ghost function Targets(joined: seq<Joined>): set<int> {
    set p: Joined | p in joined && ID in p.row :: p.row[ID]
  }

  /** Whatever order the join returns its rows in, the loader keeps each target once, in order of
      first appearance, and files it under a source exactly if the join pairs the two. */
  lemma {:induction false} JoinedTargetsExact(joined: seq<Joined>)
    requires forall p | p in joined :: ID in p.row
    requires forall p, p' | p in joined && p' in joined && p.row[ID] == p'.row[ID] :: p.row == p'.row
    ensures var first := FirstAppearances(joined);
            && Keyed(first) && Ids(first) == Targets(joined)
            && (forall i, j | 0 <= i < j < |first| :: AppearsBefore(joined, first[i][ID], first[j][ID]))
            && (forall key, r | r in first ::
                  r in Gather(first, JoinTags(first, joined), Some(key)) <==> Joined(key, r) in joined)
  {
    FirstAppearancesIn(joined);
    FirstInOrder(joined);
    var first := FirstAppearances(joined);
    forall key, r | r in first
      ensures r in Gather(first, JoinTags(first, joined), Some(key)) <==> Joined(key, r) in joined
    {
      var j :| 0 <= j < |first| && first[j] == r;
      GatherMember(first, JoinTags(first, joined), key, j);
      if key in OutsOf(joined, r[ID]) {
        var p: Joined :| p in joined && ID in p.row && p.row[ID] == r[ID] && p.out == key;
        var w :| w in joined && w.row == r;
        assert p == Joined(key, r);
      }
    }
  }

  lemma {:induction false} GatherMember(rows: seq<Row>, tags: seq<set<int>>, key: int, j: int)
    requires Keyed(rows) && |tags| == |rows| && 0 <= j < |rows|
    ensures rows[j] in Gather(rows, tags, Some(key)) <==> key in tags[j]
  {
    var n := |rows| - 1;
    var front := Gather(rows[..n], tags[..n], Some(key));
    if j < n {
      GatherMember(rows[..n], tags[..n], key, j);
      assert rows[j] != rows[n];
    } else {
      GatherIn(rows[..n], tags[..n], Some(key));
      assert rows[n] !in rows[..n];
    }
  }

  /** Different targets, in the order in which the join brings them. */
  ghost predicate InOrder(joined: seq<Joined>, rows: seq<Row>) {
    && Keyed(rows)
    && (forall i, j | 0 <= i < j < |rows| :: AppearsBefore(joined, rows[i][ID], rows[j][ID]))
  }

  lemma InOrderMore(joined: seq<Joined>, p: Joined, rows: seq<Row>)
    requires InOrder(joined, rows)
    ensures InOrder(joined + [p], rows)
  {
    forall i, j | 0 <= i < j < |rows| ensures AppearsBefore(joined + [p], rows[i][ID], rows[j][ID]) {
      AppearsBeforeMore(joined, p, rows[i][ID], rows[j][ID]);
    }
  }

  lemma InOrderNew(joined: seq<Joined>, p: Joined, rows: seq<Row>)
    requires InOrder(joined, rows) && Ids(rows) == Targets(joined) && ID in p.row && p.row[ID] !in Targets(joined)
    ensures InOrder(joined + [p], rows + [p.row])
  {
    InOrderMore(joined, p, rows);
    forall i | 0 <= i < |rows|
      ensures rows[i][ID] != p.row[ID] && AppearsBefore(joined + [p], rows[i][ID], p.row[ID])
    {
      assert rows[i] in rows && rows[i][ID] in Ids(rows);
      LastAppears(joined, p, rows[i][ID]);
    }
  }

  /** Targets are kept in order of first appearance. */
  lemma {:induction false} FirstInOrder(joined: seq<Joined>)
    requires forall p | p in joined :: ID in p.row
    ensures InOrder(joined, FirstAppearances(joined)) && Ids(FirstAppearances(joined)) == Targets(joined)
  {
    if joined != [] {
      var front, last := joined[..|joined| - 1], joined[|joined| - 1];
      assert joined == front + [last];
      FirstInOrder(front);
      TargetsSnoc(front, last);
      FirstAppearancesSnoc(front, last);
      IdsSnoc(FirstAppearances(front), last.row);
      if last.row[ID] in Targets(front) {
        InOrderMore(front, last, FirstAppearances(front));
      } else {
        InOrderNew(front, last, FirstAppearances(front));
      }
    }
  }

  lemma TargetsSnoc(joined: seq<Joined>, p: Joined)
    requires ID in p.row
    ensures Targets(joined + [p]) == Targets(joined) + {p.row[ID]}
  {
    assert p in joined + [p];
  }

  lemma LastAppears(joined: seq<Joined>, p: Joined, a: int)
    requires a in Targets(joined) && ID in p.row && p.row[ID] !in Targets(joined)
    ensures AppearsBefore(joined + [p], a, p.row[ID])
  {
    assert (joined + [p])[..|joined|] == joined;
  }

  lemma AppearsBeforeMore(joined: seq<Joined>, p: Joined, a: int, b: int)
    requires AppearsBefore(joined, a, b)
    ensures AppearsBefore(joined + [p], a, b)
  {
    var n :| 0 <= n <= |joined| && a in Targets(joined[..n]) && b !in Targets(joined[..n]);
    assert (joined + [p])[..n] == joined[..n];
  }

  /** The rows of a join that belong to one source. */
  function OnlyOut(joined: seq<Joined>, key: int): seq<Joined> {
    if joined == [] then []
    else
      var front, last := OnlyOut(joined[..|joined| - 1], key), joined[|joined| - 1];
      if last.out == key then front + [last] else front
  }

  /** The rows of each target stand together. */
  ghost predicate TargetMajor(joined: seq<Joined>)
    requires forall p | p in joined :: ID in p.row
  {
    joined == [] ||
    (var front, last := joined[..|joined| - 1], joined[|joined| - 1];
     TargetMajor(front) && ((front != [] && front[|front| - 1].row == last.row) || last.row[ID] !in Targets(front)))
  }

  lemma {:induction false} LastTarget(joined: seq<Joined>)
    requires (forall p | p in joined :: ID in p.row) && TargetMajor(joined) && joined != []
    ensures var first := FirstAppearances(joined); first != [] && first[|first| - 1] == joined[|joined| - 1].row
  {
    var front, last := joined[..|joined| - 1], joined[|joined| - 1];
    FirstInOrder(front);
    if front != [] && front[|front| - 1].row == last.row {
      LastTarget(front);
      var first := FirstAppearances(front);
      assert first[|first| - 1] in first;
    }
  }

  lemma OnlyOutSnoc(joined: seq<Joined>, p: Joined, key: int)
    ensures OnlyOut(joined + [p], key) == if p.out == key then OnlyOut(joined, key) + [p] else OnlyOut(joined, key)
  {
    assert (joined + [p])[..|joined|] == joined;
  }

  lemma {:induction false} OnlyOutIn(joined: seq<Joined>, key: int)
    ensures forall p :: p in OnlyOut(joined, key) <==> p in joined && p.out == key
  {
    if joined != [] {
      OnlyOutIn(joined[..|joined| - 1], key);
      assert joined == joined[..|joined| - 1] + [joined[|joined| - 1]];
    }
  }

  /** A target is among those of a source exactly if the join pairs the two. */
  lemma OwnTargets(joined: seq<Joined>, key: int, id: int)
    requires forall p | p in joined :: ID in p.row
    ensures id in Ids(FirstAppearances(OnlyOut(joined, key))) <==> key in OutsOf(joined, id)
  {
    OnlyOutIn(joined, key);
    FirstInOrder(OnlyOut(joined, key));
  }

  lemma NewTarget(joined: seq<Joined>, p: Joined, key: int)
    requires (forall w | w in joined :: ID in w.row) && ID in p.row && p.row[ID] !in Targets(joined)
    ensures var first, all := FirstAppearances(joined), joined + [p];
            && FirstAppearances(all) == first + [p.row]
            && Gather(first + [p.row], JoinTags(first + [p.row], all), Some(key)) ==
               if p.out == key then Gather(first, JoinTags(first, joined), Some(key)) + [p.row]
               else Gather(first, JoinTags(first, joined), Some(key))
  {
    var first, all := FirstAppearances(joined), joined + [p];
    FirstInOrder(joined);
    FirstAppearancesSnoc(joined, p);
    OutsOfSnoc(joined, p);
    assert OutsOf(joined, p.row[ID]) == {};
    var tags := JoinTags(first + [p.row], all);
    forall j | 0 <= j < |first| ensures tags[j] == JoinTags(first, joined)[j] {
      assert first[j] in first;
    }
    assert tags[|first|] == {p.out};
    assert tags == JoinTags(first, joined) + [{p.out}];
    GatherSnoc(first, p.row, JoinTags(first, joined), {p.out}, Some(key));
  }

  /** One more joined row of the last target adds its source to that target's tag. */
  lemma LastTagTakes(first: seq<Row>, joined: seq<Joined>, p: Joined)
    requires Keyed(first) && first != [] && ID in p.row && first[|first| - 1] == p.row
    ensures var tags, more := JoinTags(first, joined), JoinTags(first, joined + [p]);
            && (forall j | 0 <= j < |first| - 1 :: more[j] == tags[j])
            && more[|first| - 1] == tags[|first| - 1] + {p.out}
  {
    OutsOfSnoc(joined, p);
    var n := |first| - 1;
    forall j | 0 <= j < n ensures JoinTags(first, joined + [p])[j] == JoinTags(first, joined)[j] {
      assert first[j][ID] != first[n][ID];
    }
  }

  lemma SameTarget(joined: seq<Joined>, p: Joined, key: int)
    requires (forall w | w in joined :: ID in w.row) && ID in p.row
    requires TargetMajor(joined) && joined != [] && joined[|joined| - 1].row == p.row
    ensures var first, all := FirstAppearances(joined), joined + [p];
            && FirstAppearances(all) == first
            && Gather(first, JoinTags(first, all), Some(key)) ==
               var before := Gather(first, JoinTags(first, joined), Some(key));
               if p.out == key && key !in OutsOf(joined, p.row[ID]) then before + [p.row] else before
  {
    var first := FirstAppearances(joined);
    FirstInOrder(joined);
    LastTarget(joined);
    assert first[|first| - 1] in first;
    FirstAppearancesSnoc(joined, p);
    LastTagTakes(first, joined, p);
    LastTagGrows(first, JoinTags(first, joined), JoinTags(first, joined + [p]), p.out, key);
  }

  lemma LastTagGrows(xs: seq<Row>, tags: seq<set<int>>, more: seq<set<int>>, out: int, key: int)
    requires |xs| == |tags| == |more| > 0
    requires (forall j | 0 <= j < |xs| - 1 :: more[j] == tags[j]) && more[|xs| - 1] == tags[|xs| - 1] + {out}
    ensures Gather(xs, more, Some(key)) ==
            if out == key && key !in tags[|xs| - 1] then Gather(xs, tags, Some(key)) + [xs[|xs| - 1]]
            else Gather(xs, tags, Some(key))
  {
    var n := |xs| - 1;
    assert more[..n] == tags[..n];
    var front := Gather(xs[..n], tags[..n], Some(key));
    assert Gather(xs, tags, Some(key)) == if key in tags[n] then front + [xs[n]] else front;
    assert Gather(xs, more, Some(key)) == if key in more[n] then front + [xs[n]] else front;
  }

  /** If the join returns the rows of each target together, the order of a source's targets is that
      of its own joined rows. */
  lemma {:induction false} TargetMajorKeepsOrder(joined: seq<Joined>, key: int)
    requires (forall p | p in joined :: ID in p.row) && TargetMajor(joined)
    ensures var first := FirstAppearances(joined);
            Gather(first, JoinTags(first, joined), Some(key)) == FirstAppearances(OnlyOut(joined, key))
  {
    if joined != [] {
      var front, p := joined[..|joined| - 1], joined[|joined| - 1];
      assert joined == front + [p];
      TargetMajorKeepsOrder(front, key);
      OnlyOutSnoc(front, p, key);
      OnlyOutIn(front, key);
      FirstAppearancesSnoc(OnlyOut(front, key), p);
      OwnTargets(front, key, p.row[ID]);
      if p.row[ID] !in Targets(front) {
        NewTarget(front, p, key);
        assert OutsOf(front, p.row[ID]) == {};
      } else {
        SameTarget(front, p, key);
      }
    }
  }

  const G1: Row := map[ID := 1]
  const G2: Row := map[ID := 2]

  /** Group 1 is joined with accounts 20 and 10, group 2 with account 10, in this order. */
  const SHARED_JOIN := [Joined(20, G1), Joined(10, G2), Joined(10, G1)]

  lemma FirstsOfTwo(p: Joined, p': Joined)
    requires ID in p.row && ID in p'.row && p.row[ID] != p'.row[ID]
    ensures FirstAppearances([p, p']) == [p.row, p'.row]
  {
    FirstAppearancesSnoc([], p);
    FirstAppearancesSnoc([p], p');
    IdsOfTwo(p.row, p'.row);
    assert [] + [p] == [p] && [p] + [p'] == [p, p'] && [] + [p.row] == [p.row];
  }

  lemma SharedJoinFirsts()
    ensures FirstAppearances(SHARED_JOIN) == [G1, G2]
    ensures FirstAppearances([Joined(10, G2), Joined(10, G1)]) == [G2, G1]
  {
    var a, b, c := Joined(20, G1), Joined(10, G2), Joined(10, G1);
    FirstsOfTwo(a, b);
    FirstsOfTwo(b, c);
    IdsOfTwo(G1, G2);
    FirstAppearancesSnoc([a, b], c);
    assert [a, b] + [c] == SHARED_JOIN;
  }

  lemma SharedJoinOfAccount()
    ensures OnlyOut(SHARED_JOIN, 10) == [Joined(10, G2), Joined(10, G1)]
  {
    var a, b, c := Joined(20, G1), Joined(10, G2), Joined(10, G1);
    assert SHARED_JOIN[..2] == [a, b] && [a, b][..1] == [a] && [a][..0] == [];
    assert OnlyOut([a], 10) == [];
    assert OnlyOut([a, b], 10) == [b];
  }

  /** The order of a source's targets is that of the whole join, not of its own joined rows: an
      input for which the two differ. */
  lemma JoinOrderIsShared()
    ensures var first := FirstAppearances(SHARED_JOIN);
            && Gather(first, JoinTags(first, SHARED_JOIN), Some(10)) == [G1, G2]
            && FirstAppearances(OnlyOut(SHARED_JOIN, 10)) == [G2, G1]
  {
    SharedJoinFirsts();
    SharedJoinOfAccount();
    var tags := JoinTags([G1, G2], SHARED_JOIN);
    assert SHARED_JOIN[1] in SHARED_JOIN && SHARED_JOIN[2] in SHARED_JOIN;
    assert 10 in tags[0] && 10 in tags[1];
    GatherBoth(G1, G2, tags, 10);
  }

  lemma IdsOfTwo(r: Row, r': Row)
    requires ID in r && ID in r'
    ensures Ids([]) == {} && Ids([r]) == {r[ID]} && Ids([r, r']) == {r[ID], r'[ID]}
  {
    assert r in [r] && r in [r, r'] && r' in [r, r'];
  }

  lemma GatherBoth(r: Row, r': Row, tags: seq<set<int>>, key: int)
    requires |tags| == 2 && key in tags[0] && key in tags[1]
    ensures Gather([r, r'], tags, Some(key)) == [r, r']
  {
    GatherSnoc([], r, [], tags[0], Some(key));
    GatherSnoc([r], r', [tags[0]], tags[1], Some(key));
    assert [] + [r] == [r] && [r] + [r'] == [r, r'] && [] + [tags[0]] == [tags[0]] && [tags[0]] + [tags[1]] == tags;
  }

  // ---------- Exactly when a source's own order is kept ----------

  ghost predicate Identified(joined: seq<Joined>) {
    && (forall p | p in joined :: ID in p.row)
    && (forall p, p' | p in joined && p' in joined && p.row[ID] == p'.row[ID] :: p.row == p'.row)
  }

  /** `x` occurs in front of `y`. */
  ghost predicate Follows(xs: seq<Row>, x: Row, y: Row) {
    exists i, j :: 0 <= i < j < |xs| && xs[i] == x && xs[j] == y
  }

  ghost predicate KeepsOrder(xs: seq<Row>, ys: seq<Row>) {
    forall i, j {:trigger ys[i], ys[j]} | 0 <= i < j < |ys| :: Follows(xs, ys[i], ys[j])
  }

  lemma FollowsMore(xs: seq<Row>, x: Row, y: Row)
    requires xs != [] && Follows(xs[..|xs| - 1], x, y)
    ensures Follows(xs, x, y)
  {
    var front := xs[..|xs| - 1];
    var i, j :| 0 <= i < j < |front| && front[i] == x && front[j] == y;
    assert xs[i] == x && xs[j] == y;
  }

  lemma FollowsLast(xs: seq<Row>, x: Row)
    requires xs != [] && x in xs[..|xs| - 1]
    ensures Follows(xs, x, xs[|xs| - 1])
  {
    var i :| 0 <= i < |xs| - 1 && xs[..|xs| - 1][i] == x;
    assert xs[i] == x && xs[|xs| - 1] == xs[|xs| - 1];
  }

  lemma {:induction false} GatherFollows(xs: seq<Row>, tags: seq<set<int>>, key: Option<int>)
    requires |xs| == |tags|
    ensures KeepsOrder(xs, Gather(xs, tags, key))
  {
    if xs != [] {
      var n := |xs| - 1;
      GatherFollows(xs[..n], tags[..n], key);
      GatherIn(xs[..n], tags[..n], key);
      var front, ys := Gather(xs[..n], tags[..n], key), Gather(xs, tags, key);
      forall i, j {:trigger ys[i], ys[j]} | 0 <= i < j < |ys| ensures Follows(xs, ys[i], ys[j]) {
        assert ys[i] == front[i] && front[i] in front;
        if j < |front| {
          FollowsMore(xs, front[i], front[j]);
        } else {
          FollowsLast(xs, ys[i]);
        }
      }
    }
  }

  lemma GatherInOrder(joined: seq<Joined>, rows: seq<Row>, tags: seq<set<int>>, key: Option<int>)
    requires InOrder(joined, rows) && |tags| == |rows|
    ensures InOrder(joined, Gather(rows, tags, key))
  {
    var ys := Gather(rows, tags, key);
    GatherIn(rows, tags, key);
    GatherFollows(rows, tags, key);
    forall i | 0 <= i < |ys| ensures ID in ys[i] {
      assert ys[i] in rows;
    }
    forall i, j | 0 <= i < j < |ys|
      ensures ys[i][ID] != ys[j][ID] && AppearsBefore(joined, ys[i][ID], ys[j][ID])
    {
      assert KeepsOrder(rows, ys) && Follows(rows, ys[i], ys[j]);
      var k, m :| 0 <= k < m < |rows| && rows[k] == ys[i] && rows[m] == ys[j];
    }
  }

  lemma TargetsGrow(joined: seq<Joined>)
    ensures forall n, m | 0 <= n <= m <= |joined| :: Targets(joined[..n]) <= Targets(joined[..m])
  {
    forall n, m | 0 <= n <= m <= |joined| ensures Targets(joined[..n]) <= Targets(joined[..m]) {
      assert joined[..m][..n] == joined[..n];
    }
  }

  lemma OneWay(joined: seq<Joined>, a: int, b: int)
    ensures !AppearsBefore(joined, a, b) || !AppearsBefore(joined, b, a)
  {
    TargetsGrow(joined);
  }

  lemma {:induction false} EitherWay(joined: seq<Joined>, a: int, b: int)
    requires a in Targets(joined) && b in Targets(joined) && a != b
    ensures AppearsBefore(joined, a, b) || AppearsBefore(joined, b, a)
  {
    var front, last := joined[..|joined| - 1], joined[|joined| - 1];
    assert joined == front + [last];
    if a in Targets(front) && b in Targets(front) {
      EitherWay(front, a, b);
      if AppearsBefore(front, a, b) {
        AppearsBeforeMore(front, last, a, b);
      } else {
        AppearsBeforeMore(front, last, b, a);
      }
    } else {
      assert joined[..|front|] == front;
      assert a in Targets(front) || b in Targets(front);
    }
  }

  lemma KeyedFront(rows: seq<Row>)
    requires Keyed(rows) && rows != []
    ensures Keyed(rows[..|rows| - 1]) && rows == rows[..|rows| - 1] + [rows[|rows| - 1]]
  {
  }

  lemma InFront(rows: seq<Row>, r: Row)
    requires Keyed(rows) && rows != []
    ensures r in rows[..|rows| - 1] <==> r in rows && r != rows[|rows| - 1]
  {
    KeyedFront(rows);
  }

  lemma NoMembers(xs: seq<Row>)
    ensures xs == [] <==> forall r :: r !in xs
  {
    if xs != [] { assert xs[0] in xs; }
  }

  /** The order of appearance settles the sequence. */
  lemma {:induction false} OneOrder(joined: seq<Joined>, xs: seq<Row>, ys: seq<Row>)
    requires InOrder(joined, xs) && InOrder(joined, ys) && forall r :: r in xs <==> r in ys
    ensures xs == ys
  {
    NoMembers(xs);
    NoMembers(ys);
    if xs != [] {
      var n, m := |xs| - 1, |ys| - 1;
      SameLast(joined, xs, ys);
      KeyedFront(xs);
      KeyedFront(ys);
      forall r ensures r in xs[..n] <==> r in ys[..m] {
        InFront(xs, r);
        InFront(ys, r);
      }
      OneOrder(joined, xs[..n], ys[..m]);
    }
  }

  lemma SameLast(joined: seq<Joined>, xs: seq<Row>, ys: seq<Row>)
    requires InOrder(joined, xs) && InOrder(joined, ys) && (forall r :: r in xs <==> r in ys) && xs != [] && ys != []
    ensures xs[|xs| - 1] == ys[|ys| - 1]
  {
    var x, y := xs[|xs| - 1], ys[|ys| - 1];
    assert x in xs && y in ys;
    var i :| 0 <= i < |ys| && ys[i] == x;
    var j :| 0 <= j < |xs| && xs[j] == y;
    OneWay(joined, x[ID], y[ID]);
  }

  /** No two targets of a source come in one order among its own joined rows, and in the opposite
      order in the whole join. */
  ghost predicate KeepsOwnOrder(joined: seq<Joined>, key: int) {
    var own := OnlyOut(joined, key);
    forall a, b | a in Targets(own) && b in Targets(own) && AppearsBefore(own, a, b) :: !AppearsBefore(joined, b, a)
  }

  lemma OwnRows(joined: seq<Joined>, key: int)
    requires Identified(joined)
    ensures var first, own := FirstAppearances(joined), OnlyOut(joined, key);
            && Identified(own) && InOrder(joined, Gather(first, JoinTags(first, joined), Some(key)))
            && InOrder(own, FirstAppearances(own)) && Ids(FirstAppearances(own)) == Targets(own)
            && forall r :: r in Gather(first, JoinTags(first, joined), Some(key)) <==> r in FirstAppearances(own)
  {
    var first, own := FirstAppearances(joined), OnlyOut(joined, key);
    OnlyOutIn(joined, key);
    JoinedTargetsExact(joined);
    JoinedTargetsExact(own);
    GatherInOrder(joined, first, JoinTags(first, joined), Some(key));
    forall r ensures r in Gather(first, JoinTags(first, joined), Some(key)) <==> r in FirstAppearances(own) {
      RowsOf(joined, r);
      RowsOf(own, r);
      GatherIn(first, JoinTags(first, joined), Some(key));
      if Joined(key, r) in joined {
        assert r in first;
      }
      if r in FirstAppearances(own) {
        var p :| p in own && p.row == r;
        assert p == Joined(key, r);
      }
    }
  }

  lemma RowsOf(joined: seq<Joined>, r: Row)
    requires Identified(joined)
    ensures r in FirstAppearances(joined) <==> exists p :: p in joined && p.row == r
  {
    FirstAppearancesIn(joined);
    if p :| p in joined && p.row == r {
      assert r[ID] in Ids(FirstAppearances(joined));
      var r' :| r' in FirstAppearances(joined) && ID in r' && r'[ID] == r[ID];
      var p' :| p' in joined && p'.row == r';
    }
  }

  /** A source's targets come in the order of its own joined rows if and only if no two of them
      first appear in the whole join in the opposite order. */
  lemma OwnOrderExactly(joined: seq<Joined>, key: int)
    requires Identified(joined)
    ensures var first := FirstAppearances(joined);
            Gather(first, JoinTags(first, joined), Some(key)) == FirstAppearances(OnlyOut(joined, key)) <==>
            KeepsOwnOrder(joined, key)
  {
    var first, own := FirstAppearances(joined), OnlyOut(joined, key);
    var xs, ys := Gather(first, JoinTags(first, joined), Some(key)), FirstAppearances(own);
    OwnRows(joined, key);
    if xs == ys {
      SameOrderKeeps(joined, own, ys);
    } else if KeepsOwnOrder(joined, key) {
      OnlyOutIn(joined, key);
      forall i, j | 0 <= i < j < |ys| ensures AppearsBefore(joined, ys[i][ID], ys[j][ID]) {
        var a, b := ys[i][ID], ys[j][ID];
        assert ys[i] in ys && ys[j] in ys;
        assert a in Targets(own) && b in Targets(own) && AppearsBefore(own, a, b);
        EitherWay(joined, a, b);
      }
      OneOrder(joined, xs, ys);
    }
  }

  lemma SameOrderKeeps(joined: seq<Joined>, own: seq<Joined>, ys: seq<Row>)
    requires InOrder(joined, ys) && InOrder(own, ys) && Ids(ys) == Targets(own)
    ensures forall a, b | a in Targets(own) && b in Targets(own) && AppearsBefore(own, a, b) ::
              !AppearsBefore(joined, b, a)
  {
    forall a, b | a in Targets(own) && b in Targets(own) && AppearsBefore(own, a, b)
      ensures !AppearsBefore(joined, b, a)
    {
      OneWay(own, a, b);
      var i :| 0 <= i < |ys| && ys[i][ID] == a;
      var j :| 0 <= j < |ys| && ys[j][ID] == b;
      assert i < j;
      OneWay(joined, a, b);
    }
  }

  // ---------- Loading many-to-many neighbours, whatever the order ----------

  /** The same trees, or for a many-to-many edge the same trees in some order. */
  ghost predicate UpToOrder<T>(e: Edge, xs: seq<T>, ys: seq<T>) {
    if Rel(e).M2M? then multiset(xs) == multiset(ys) else xs == ys
  }

  /** The same tree, but for the order of many-to-many neighbours at any level. */
  ghost predicate Alike(t: Tree, u: Tree)
    decreases t
  {
    && t.vals == u.vals && t.edges.Keys == u.edges.Keys
    && forall e | e in t.edges ::
         exists us: seq<Tree> | UpToOrder(e, us, u.edges[e].trees) :: |us| == |t.edges[e].trees|
           && forall i | 0 <= i < |us| :: Alike(t.edges[e].trees[i], us[i])
  }

  ghost predicate AlikeAll(e: Edge, ts: seq<Tree>, us: seq<Tree>) {
    exists vs: seq<Tree> | UpToOrder(e, vs, us) :: PairwiseAlike(ts, vs)
  }

  ghost predicate PairwiseAlike(ts: seq<Tree>, us: seq<Tree>) {
    |us| == |ts| && forall i | 0 <= i < |us| :: Alike(ts[i], us[i])
  }

  lemma AlikeTrees(t: Tree, u: Tree)
    requires t.vals == u.vals && t.edges.Keys == u.edges.Keys
    requires forall e | e in t.edges :: AlikeAll(e, t.edges[e].trees, u.edges[e].trees)
    ensures Alike(t, u)
  {
    forall e | e in t.edges
      ensures exists us: seq<Tree> | UpToOrder(e, us, u.edges[e].trees) :: |us| == |t.edges[e].trees|
                && forall i | 0 <= i < |us| :: Alike(t.edges[e].trees[i], us[i])
    {
      assert AlikeAll(e, t.edges[e].trees, u.edges[e].trees);
      var us :| UpToOrder(e, us, u.edges[e].trees) && PairwiseAlike(t.edges[e].trees, us);
    }
  }

  /** In trees that are alike, each edge has as many neighbours in the one as in the other. */
  lemma AlikeLengths(t: Tree, u: Tree, e: Edge)
    requires Alike(t, u) && e in t.edges
    ensures |t.edges[e].trees| == |u.edges[e].trees|
  {
    var us: seq<Tree> :| UpToOrder(e, us, u.edges[e].trees) && |us| == |t.edges[e].trees|;
    assert |multiset(us)| == |us| && |multiset(u.edges[e].trees)| == |u.edges[e].trees|;
  }

  lemma {:induction false} KeyedOnce(rows: seq<Row>, r: Row)
    requires Keyed(rows)
    ensures multiset(rows)[r] == if r in rows then 1 else 0
  {
    if rows != [] {
      KeyedFront(rows);
      InFront(rows, r);
      KeyedOnce(rows[..|rows| - 1], r);
    }
  }

  lemma SameElements(xs: seq<Row>, ys: seq<Row>)
    requires Keyed(xs) && Keyed(ys) && forall r :: r in xs <==> r in ys
    ensures multiset(xs) == multiset(ys)
  {
    forall r ensures multiset(xs)[r] == multiset(ys)[r] {
      KeyedOnce(xs, r);
      KeyedOnce(ys, r);
    }
  }

  lemma JoinIdentified(db: DB, e: Edge, keys: seq<int>, spec: Spec)
    requires WellFormed(db) && Rel(e).M2M?
    ensures Identified(Join(db, e, keys, spec)) && Identified(db.arrange(Join(db, e, keys, spec)))
  {
    var rows, joined := Matching(db, Target(e), spec), Join(db, e, keys, spec);
    OrderedKeyed(spec.order, Table(db, Target(e)));
    FilterIn(Ordered(spec.order, Table(db, Target(e))), spec.preds);
    JoinRowsIn(rows, Table(db, Rel(e).join), Rel(e).outCol, Rel(e).inCol, keys);
    ArrangedAre(db, joined);
    assert Identified(joined) by {
      forall p, p' | p in joined && p' in joined && p.row[ID] == p'.row[ID] ensures p.row == p'.row {
        var i :| 0 <= i < |rows| && rows[i] == p.row;
        var j :| 0 <= j < |rows| && rows[j] == p'.row;
      }
    }
  }

  /** What is filed under a key does not depend on the order of the joined rows, only its order does. */
  lemma FiledAreSame(xs: seq<Joined>, ys: seq<Joined>, key: int)
    requires Identified(xs) && Identified(ys) && forall p :: p in xs <==> p in ys
    ensures var first, first' := FirstAppearances(xs), FirstAppearances(ys);
            multiset(Gather(first, JoinTags(first, xs), Some(key))) ==
            multiset(Gather(first', JoinTags(first', ys), Some(key)))
  {
    OwnRows(xs, key);
    OwnRows(ys, key);
    FiledExactly(xs, key);
    FiledExactly(ys, key);
    var first, first' := FirstAppearances(xs), FirstAppearances(ys);
    SameElements(Gather(first, JoinTags(first, xs), Some(key)), Gather(first', JoinTags(first', ys), Some(key)));
  }

  lemma FiledExactly(joined: seq<Joined>, key: int)
    requires Identified(joined)
    ensures var first := FirstAppearances(joined);
            forall r :: r in Gather(first, JoinTags(first, joined), Some(key)) <==> Joined(key, r) in joined
  {
    var first := FirstAppearances(joined);
    JoinedTargetsExact(joined);
    GatherIn(first, JoinTags(first, joined), Some(key));
    forall r ensures r in Gather(first, JoinTags(first, joined), Some(key)) <==> Joined(key, r) in joined {
      RowsOf(joined, r);
      if Joined(key, r) in joined {
        assert r in first;
      }
    }
  }

  /** Whatever the order in which joined rows come back, one loader call brings every row the
      neighbours its own lookup would, many-to-many ones in some order. */
  lemma FetchUpToOrder(db: DB, e: Edge, rows: seq<Row>, row: Row, spec: Spec)
    requires WellFormed(db) && row in rows && Unpaged(spec)
    ensures var f := Fetch(db, e, Keys(e, rows), spec);
            UpToOrder(e, Gather(f.rows, f.tags, NodeKey(e, row)), NaiveRows(db, row, e, spec))
  {
    if Rel(e).M2M? {
      var keys, key := Keys(e, rows), NodeKey(e, row).value;
      KeysIn(e, rows);
      assert key in keys by {
        var i :| 0 <= i < |rows| && rows[i] == row;
      }
      var joined := Join(db, e, keys, spec);
      UnpagedPage(db.arrange(joined), spec.limit, spec.offset);
      JoinIsLookup(db, e, keys, key, spec);
      JoinIdentified(db, e, keys, spec);
      ArrangedAre(db, joined);
      FiledAreSame(db.arrange(joined), joined, key);
    } else {
      FetchIsLookup(db, e, rows, row, spec);
    }
  }

  /** The row-by-row trees of neighbours. */
  ghost function Loaded(db: DB, e: Edge, rows: seq<Row>, nested: Plan): (ts: seq<Tree>)
    ensures |ts| == |rows|
  {
    seq(|rows|, j requires 0 <= j < |rows| =>
      NaiveTree(db, Target(e), rows[j], NestedFields(e, nested.spec.fields), nested))
  }

  lemma LoadedConcat(db: DB, e: Edge, xs: seq<Row>, ys: seq<Row>, nested: Plan)
    ensures Loaded(db, e, xs + ys, nested) == Loaded(db, e, xs, nested) + Loaded(db, e, ys, nested)
  {
  }

  lemma Remove(ys: seq<Row>, x: Row) returns (front: seq<Row>, back: seq<Row>)
    requires x in multiset(ys)
    ensures ys == front + [x] + back && multiset(ys) == multiset(front + back) + multiset{x}
  {
    assert x in ys;
    var k :| 0 <= k < |ys| && ys[k] == x;
    front, back := ys[..k], ys[k + 1..];
    assert ys == front + [x] + back;
  }

  lemma {:induction false} LoadedUpToOrder(db: DB, e: Edge, xs: seq<Row>, ys: seq<Row>, nested: Plan)
    requires multiset(xs) == multiset(ys)
    ensures multiset(Loaded(db, e, xs, nested)) == multiset(Loaded(db, e, ys, nested))
  {
    if xs == [] {
      NoElements(ys);
    } else {
      var init, x := xs[..|xs| - 1], xs[|xs| - 1];
      assert xs == init + [x];
      var front, back := Remove(ys, x);
      assert multiset(xs) == multiset(init) + multiset{x};
      Cancel(multiset(init), multiset(front + back), multiset{x});
      LoadedUpToOrder(db, e, init, front + back, nested);
      LoadedConcat(db, e, init, [x], nested);
      LoadedConcat(db, e, front, back, nested);
      LoadedConcat(db, e, front + [x], back, nested);
      LoadedConcat(db, e, front, [x], nested);
      SameBesides(Loaded(db, e, init, nested), Loaded(db, e, front, nested), Loaded(db, e, back, nested),
                  Loaded(db, e, [x], nested));
    }
  }

  lemma Cancel(a: multiset<Row>, b: multiset<Row>, c: multiset<Row>)
    requires a + c == b + c
    ensures a == b
  {
    assert a == (a + c) - c && b == (b + c) - c;
  }

  lemma SameBesides<T>(init: seq<T>, front: seq<T>, back: seq<T>, xs: seq<T>)
    requires multiset(init) == multiset(front + back)
    ensures multiset(init + xs) == multiset(front + xs + back)
  {
  }

  lemma NoElements(ys: seq<Row>)
    requires multiset(ys) == multiset{}
    ensures ys == []
  {
    assert |multiset(ys)| == |ys|;
  }

  lemma PairwiseSnoc(ts: seq<Tree>, us: seq<Tree>)
    requires ts != [] && |us| == |ts|
    ensures PairwiseAlike(ts, us) <==>
            PairwiseAlike(ts[..|ts| - 1], us[..|ts| - 1]) && Alike(ts[|ts| - 1], us[|ts| - 1])
  {
  }

  lemma {:induction false} GatherAlike(ts: seq<Tree>, us: seq<Tree>, tags: seq<set<int>>, key: Option<int>)
    requires |ts| == |tags| && PairwiseAlike(ts, us)
    ensures PairwiseAlike(Gather(ts, tags, key), Gather(us, tags, key))
  {
    if ts != [] {
      var n := |ts| - 1;
      PairwiseSnoc(ts, us);
      GatherAlike(ts[..n], us[..n], tags[..n], key);
      var xs, ys := Gather(ts[..n], tags[..n], key), Gather(us[..n], tags[..n], key);
      assert (xs + [ts[n]])[..|xs|] == xs && (ys + [us[n]])[..|ys|] == ys;
      PairwiseSnoc(xs + [ts[n]], ys + [us[n]]);
    }
  }

  lemma GatherLoaded(db: DB, e: Edge, rows: seq<Row>, tags: seq<set<int>>, key: Option<int>, nested: Plan)
    requires |tags| == |rows|
    ensures Gather(Loaded(db, e, rows, nested), tags, key) == Loaded(db, e, Gather(rows, tags, key), nested)
  {
    GatherTrees(rows, Loaded(db, e, rows, nested), tags, key,
                row => NaiveTree(db, Target(e), row, NestedFields(e, nested.spec.fields), nested));
  }

  /** For every database, whatever the order in which it returns joined rows, and every nested plan
      whose nested builders carry no limit or offset: batched loading builds the trees of
      row-by-row loading, but for the order of many-to-many neighbours. */
  lemma {:induction false} BatchIsAlike(db: DB, kind: Kind, rows: seq<Row>, fields: seq<Col>, p: Plan)
    requires WellFormed(db) && NoNestedPaging(p)
    ensures forall i | 0 <= i < |rows| ::
              Alike(BatchTrees(db, kind, rows, fields, p)[i], NaiveTree(db, kind, rows[i], fields, p))
    decreases p, 1
  {
    forall i | 0 <= i < |rows|
      ensures Alike(BatchTrees(db, kind, rows, fields, p)[i], NaiveTree(db, kind, rows[i], fields, p))
    {
      TreeIsAlike(db, kind, rows, i, fields, p);
    }
  }

  lemma {:induction false} TreeIsAlike(db: DB, kind: Kind, rows: seq<Row>, i: int, fields: seq<Col>, p: Plan)
    requires WellFormed(db) && NoNestedPaging(p) && 0 <= i < |rows|
    ensures Alike(BatchTree(db, kind, rows, i, fields, p), NaiveTree(db, kind, rows[i], fields, p))
    decreases p, 0
  {
    var batch, naive := BatchTree(db, kind, rows, i, fields, p), NaiveTree(db, kind, rows[i], fields, p);
    forall e | e in p.with ensures AlikeAll(e, batch.edges[e].trees, naive.edges[e].trees) {
      assert batch.edges[e] == Branch(BatchEdge(db, e, rows, NodeKey(e, rows[i]), p.with[e]));
      assert naive.edges[e] == Branch(NaiveEdge(db, rows[i], e, p.with[e]));
      EdgeIsAlike(db, e, rows, i, p.with[e]);
    }
    AlikeTrees(batch, naive);
  }

  lemma {:induction false} EdgeIsAlike(db: DB, e: Edge, rows: seq<Row>, i: int, nested: Plan)
    requires WellFormed(db) && 0 <= i < |rows| && Unpaged(nested.spec) && NoNestedPaging(nested)
    ensures AlikeAll(e, BatchEdge(db, e, rows, NodeKey(e, rows[i]), nested), NaiveEdge(db, rows[i], e, nested))
    decreases nested, 2
  {
    var f, key := Fetch(db, e, Keys(e, rows), nested.spec), NodeKey(e, rows[i]);
    BatchIsAlike(db, Target(e), f.rows, NestedFields(e, nested.spec.fields), nested);
    assert PairwiseAlike(EdgeTrees(db, e, rows, nested), Loaded(db, e, f.rows, nested));
    GatherAlike(EdgeTrees(db, e, rows, nested), Loaded(db, e, f.rows, nested), f.tags, key);
    GatherLoaded(db, e, f.rows, f.tags, key, nested);
    FetchUpToOrder(db, e, rows, rows[i], nested.spec);
    var own := NaiveRows(db, rows[i], e, nested.spec);
    assert NaiveEdge(db, rows[i], e, nested) == Loaded(db, e, own, nested);
    if Rel(e).M2M? {
      LoadedUpToOrder(db, e, Gather(f.rows, f.tags, key), own, nested);
    }
  }
}
