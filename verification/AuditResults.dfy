/** What the verdict of the gate depends on, and on what it does not: further vulnerabilities, the
    date, the `seen` set, the order of the report, and entries without an identifier. */
module AuditResults {
  import opened Wrappers
  import opened AuditParser
  import opened AuditGate
  import opened AuditVerdict

  // ---------- More vulnerabilities, later dates ----------

  lemma PassesFront(env: Env, excs: seq<Record>, today: int, vulns: seq<Vuln>, more: seq<Vuln>)
    requires Passes(env, excs, today, vulns + more)
    ensures Passes(env, excs, today, vulns)
  {
    var all := vulns + more;
    forall i | 0 <= i < |vulns| ensures Excused(env, excs, today, vulns, i) {
      assert Excused(env, excs, today, all, i) && all[i] == vulns[i];
      assert forall k | 0 <= k < i :: all[k] == vulns[k];
      assert First(env, all, i) <==> First(env, vulns, i);
    }
  }

  /** Vulnerabilities added at the end of a report never turn failure into success. */
  lemma MonotoneInVulns(env: Env, audit: Json, larger: Json, lines: seq<string>, today: int,
                        vulns: seq<Vuln>, more: seq<Vuln>)
    requires Vulns(env, audit) == Ok(vulns) && Vulns(env, larger) == Ok(vulns + more)
    requires GatePasses(env, larger, lines, today)
    ensures GatePasses(env, audit, lines, today)
  {
    PassesFront(env, Records(lines).value, today, vulns, more);
  }

  lemma ListedEarlier(env: Env, excs: seq<Record>, today: int, earlier: int, v: Vuln)
    requires Listed(env, excs, today, v) && earlier <= today
    ensures Listed(env, excs, earlier, v)
  {
    var j :| 0 <= j < |excs| && ListedAt(env, excs, today, v, j);
    assert ListedAt(env, excs, earlier, v, j);
  }

  /** What passes on some day passed on every day before. */
  lemma MonotoneInDate(env: Env, audit: Json, lines: seq<string>, today: int, earlier: int)
    requires GatePasses(env, audit, lines, today) && earlier <= today
    ensures GatePasses(env, audit, lines, earlier)
  {
    var excs, vulns := Records(lines).value, Vulns(env, audit).value;
    forall i | 0 <= i < |vulns| ensures Excused(env, excs, earlier, vulns, i) {
      assert Excused(env, excs, today, vulns, i);
      if Listed(env, excs, today, vulns[i]) {
        ListedEarlier(env, excs, today, earlier, vulns[i]);
      }
    }
  }

  ghost predicate KeysDistinct(env: Env, vulns: seq<Vuln>) {
    forall i, j | 0 <= i < j < |vulns| :: VulnKey(env, vulns[i]) != VulnKey(env, vulns[j])
  }

  ghost predicate KeysSeen(env: Env, vulns: seq<Vuln>, seen: set<Key>) {
    forall i | 0 <= i < |vulns| :: VulnKey(env, vulns[i]) in seen
  }

  /** Neither the missing nor the expired exceptions are reported twice for a key. */
  lemma {:induction false} FindingsDistinct(env: Env, entries: map<Key, Entry>, today: int, vulns: seq<Vuln>)
    ensures var r := Scanned(env, entries, today, true, vulns);
            r.Ok? ==> && KeysDistinct(env, r.value.missing) && KeysSeen(env, r.value.missing, r.value.seen)
                      && KeysDistinct(env, r.value.expired) && KeysSeen(env, r.value.expired, r.value.seen)
  {
    if vulns != [] {
      FindingsDistinct(env, entries, today, vulns[..|vulns| - 1]);
    }
  }

  // ---------- Any order ----------

  /** Some vulnerability of the report with this key is covered by a listed exception. */
  ghost predicate SomeListed(env: Env, excs: seq<Record>, today: int, vulns: seq<Vuln>, key: Key) {
    exists w :: w in vulns && Keyed(env, w) && VulnKey(env, w) == key && Listed(env, excs, today, w)
  }

  ghost predicate Acceptable(env: Env, excs: seq<Record>, today: int, vulns: seq<Vuln>, v: Vuln) {
    && NormalizeSeverity(env, v.severity).Ok?
    && (Counts(env, v) ==> HasAdvisory(env, v) && SomeListed(env, excs, today, vulns, VulnKey(env, v)))
  }

  /** The exceptions are good, every severity is a string, every vulnerability that counts has an
      advisory, and each key has a vulnerability that is covered. */
  ghost predicate Passable(env: Env, excs: seq<Record>, today: int, vulns: seq<Vuln>) {
    GoodExceptions(env, excs) && forall v | v in vulns :: Acceptable(env, excs, today, vulns, v)
  }

  ghost predicate Fits(env: Env, excs: seq<Record>, v: Vuln) {
    forall j | 0 <= j < |excs| && Usable(env, excs[j]) && ExceptionKey(env, excs[j]) == VulnKey(env, v) ::
      FitsSeverity(env, EntryOf(env, excs[j]), v)
  }

  /** No vulnerability that counts has another severity than the exception with its key asks for. */
  ghost predicate AllFit(env: Env, excs: seq<Record>, vulns: seq<Vuln>) {
    forall v | v in vulns && Keyed(env, v) :: Fits(env, excs, v)
  }

  /** For a key that is covered at all, a vulnerability is covered exactly if its severity fits. */
  lemma CoveredIfFits(env: Env, excs: seq<Record>, today: int, v: Vuln, w: Vuln)
    requires GoodExceptions(env, excs) && Listed(env, excs, today, w) && VulnKey(env, v) == VulnKey(env, w)
    ensures Listed(env, excs, today, v) <==> Fits(env, excs, v)
  {
    var j :| 0 <= j < |excs| && ListedAt(env, excs, today, w, j);
    forall k | 0 <= k < |excs| && Usable(env, excs[k]) && ExceptionKey(env, excs[k]) == VulnKey(env, v) ensures k == j {
      assert Fresh(env, excs, k) && Fresh(env, excs, j);
    }
    if Fits(env, excs, v) {
      assert ListedAt(env, excs, today, v, j);
    }
  }

  lemma PassingIsPassable(env: Env, excs: seq<Record>, today: int, vulns: seq<Vuln>)
    requires Passes(env, excs, today, vulns)
    ensures Passable(env, excs, today, vulns)
  {
    forall v | v in vulns ensures Acceptable(env, excs, today, vulns, v) {
      var i :| 0 <= i < |vulns| && vulns[i] == v;
      assert Excused(env, excs, today, vulns, i);
      if Counts(env, v) {
        var k := FirstExists(env, vulns, i);
        assert Excused(env, excs, today, vulns, k);
        assert vulns[k] in vulns;
      }
    }
  }

  /** The earliest vulnerability with the key of the `i`-th. */
  lemma {:induction false} FirstExists(env: Env, vulns: seq<Vuln>, i: nat) returns (k: nat)
    requires i < |vulns| && Keyed(env, vulns[i])
    ensures k <= i && First(env, vulns, k) && Keyed(env, vulns[k]) && VulnKey(env, vulns[k]) == VulnKey(env, vulns[i])
  {
    if First(env, vulns, i) {
      k := i;
    } else {
      var j :| 0 <= j < i && Keyed(env, vulns[j]) && VulnKey(env, vulns[j]) == VulnKey(env, vulns[i]);
      k := FirstExists(env, vulns, j);
    }
  }

  /** What is passable depends on which vulnerabilities there are, not on their order. */
  lemma SamePassable(env: Env, excs: seq<Record>, today: int, vulns: seq<Vuln>, others: seq<Vuln>)
    requires Passable(env, excs, today, vulns) && forall v :: v in vulns <==> v in others
    ensures Passable(env, excs, today, others)
  {
    forall v | v in others ensures Acceptable(env, excs, today, others, v) {
      assert Acceptable(env, excs, today, vulns, v);
    }
  }

  lemma FitIsPassing(env: Env, excs: seq<Record>, today: int, vulns: seq<Vuln>)
    requires Passable(env, excs, today, vulns) && AllFit(env, excs, vulns)
    ensures Passes(env, excs, today, vulns)
  {
    forall i | 0 <= i < |vulns| ensures Excused(env, excs, today, vulns, i) {
      var v := vulns[i];
      assert v in vulns && Acceptable(env, excs, today, vulns, v);
      if Counts(env, v) {
        FittingIsListed(env, excs, today, vulns, v);
      }
    }
  }

  /** The vulnerabilities that fit their exceptions, or those that do not, in order. */
  ghost function Select(env: Env, excs: seq<Record>, vulns: seq<Vuln>, fit: bool): seq<Vuln> {
    if vulns == [] then []
    else
      var front, last := Select(env, excs, vulns[..|vulns| - 1], fit), vulns[|vulns| - 1];
      if Fits(env, excs, last) == fit then front + [last] else front
  }

  /** The fitting vulnerabilities first. */
  ghost function FitsFirst(env: Env, excs: seq<Record>, vulns: seq<Vuln>): seq<Vuln> {
    Select(env, excs, vulns, true) + Select(env, excs, vulns, false)
  }

  lemma {:induction false} SelectedAre(env: Env, excs: seq<Record>, vulns: seq<Vuln>)
    ensures multiset(FitsFirst(env, excs, vulns)) == multiset(vulns)
    ensures forall v | v in Select(env, excs, vulns, true) :: Fits(env, excs, v)
    ensures forall v | v in Select(env, excs, vulns, false) :: !Fits(env, excs, v)
  {
    if vulns != [] {
      var front, last := vulns[..|vulns| - 1], vulns[|vulns| - 1];
      SelectedAre(env, excs, front);
      assert vulns == front + [last];
    }
  }

  lemma SameElements(vulns: seq<Vuln>, others: seq<Vuln>)
    requires multiset(vulns) == multiset(others)
    ensures forall v :: v in vulns <==> v in others
  {
    forall v ensures v in vulns <==> v in others {
      assert v in vulns <==> v in multiset(vulns);
      assert v in others <==> v in multiset(others);
    }
  }

  /** A vulnerability that does not fit comes after one with its key that is covered. */
  lemma MisfitIsLater(env: Env, excs: seq<Record>, today: int, vulns: seq<Vuln>, i: nat)
    requires Passable(env, excs, today, vulns) && i < |FitsFirst(env, excs, vulns)|
    requires var v := FitsFirst(env, excs, vulns)[i]; v in vulns && Keyed(env, v) && !Fits(env, excs, v)
    ensures !First(env, FitsFirst(env, excs, vulns), i)
  {
    var fits, misfits := Select(env, excs, vulns, true), Select(env, excs, vulns, false);
    var v := FitsFirst(env, excs, vulns)[i];
    SelectedAre(env, excs, vulns);
    assert Acceptable(env, excs, today, vulns, v);
    var w :| w in vulns && Keyed(env, w) && VulnKey(env, w) == VulnKey(env, v) && Listed(env, excs, today, w);
    CoveredIfFits(env, excs, today, w, w);
    SameElements(vulns, fits + misfits);
    LaterNotFirst(env, fits, misfits, i, w);
  }

  lemma LaterNotFirst(env: Env, fits: seq<Vuln>, misfits: seq<Vuln>, i: nat, w: Vuln)
    requires i < |fits + misfits| && (fits + misfits)[i] !in fits
    requires w in fits && Keyed(env, w) && VulnKey(env, w) == VulnKey(env, (fits + misfits)[i])
    ensures !First(env, fits + misfits, i)
  {
    var k :| 0 <= k < |fits| && fits[k] == w;
    assert (fits + misfits)[k] == w;
  }

  /** With the fitting vulnerabilities first, what is passable passes. */
  lemma FitsFirstPasses(env: Env, excs: seq<Record>, today: int, vulns: seq<Vuln>)
    requires Passable(env, excs, today, vulns)
    ensures Passes(env, excs, today, FitsFirst(env, excs, vulns))
  {
    var all := FitsFirst(env, excs, vulns);
    SelectedAre(env, excs, vulns);
    SameElements(vulns, all);
    forall i | 0 <= i < |all| ensures Excused(env, excs, today, all, i) {
      var v := all[i];
      assert v in all && Acceptable(env, excs, today, vulns, v);
      if Counts(env, v) && !Fits(env, excs, v) {
        MisfitIsLater(env, excs, today, vulns, i);
      } else if Counts(env, v) {
        FittingIsListed(env, excs, today, vulns, v);
      }
    }
  }

  lemma FittingIsListed(env: Env, excs: seq<Record>, today: int, vulns: seq<Vuln>, v: Vuln)
    requires Passable(env, excs, today, vulns) && v in vulns && Keyed(env, v)
    ensures Listed(env, excs, today, v) <==> Fits(env, excs, v)
  {
    assert Acceptable(env, excs, today, vulns, v);
    var w :| w in vulns && Keyed(env, w) && VulnKey(env, w) == VulnKey(env, v) && Listed(env, excs, today, w);
    CoveredIfFits(env, excs, today, v, w);
  }

  /** With a vulnerability first that does not fit, what is passable fails. */
  lemma MisfitFirstFails(env: Env, excs: seq<Record>, today: int, vulns: seq<Vuln>, v: Vuln, others: seq<Vuln>)
    requires Passable(env, excs, today, vulns) && v in vulns && Keyed(env, v) && !Fits(env, excs, v)
    requires |others| > 0 && others[0] == v
    ensures !Passes(env, excs, today, others)
  {
    FittingIsListed(env, excs, today, vulns, v);
    assert First(env, others, 0);
    assert !Excused(env, excs, today, others, 0);
  }

  /** Some order of the report passes exactly if it is passable. */
  lemma SomeOrderPasses(env: Env, excs: seq<Record>, today: int, vulns: seq<Vuln>)
    ensures (exists others :: multiset(others) == multiset(vulns) && Passes(env, excs, today, others)) <==>
            Passable(env, excs, today, vulns)
  {
    if others :| multiset(others) == multiset(vulns) && Passes(env, excs, today, others) {
      PassingIsPassable(env, excs, today, others);
      SameElements(others, vulns);
      SamePassable(env, excs, today, others, vulns);
    }
    if Passable(env, excs, today, vulns) {
      SelectedAre(env, excs, vulns);
      FitsFirstPasses(env, excs, today, vulns);
    }
  }

  /** Every order of the report passes exactly if it is passable and all its severities fit. */
  lemma EveryOrderPasses(env: Env, excs: seq<Record>, today: int, vulns: seq<Vuln>)
    ensures (forall others | multiset(others) == multiset(vulns) :: Passes(env, excs, today, others)) <==>
            Passable(env, excs, today, vulns) && AllFit(env, excs, vulns)
  {
    if Passable(env, excs, today, vulns) && AllFit(env, excs, vulns) {
      forall others | multiset(others) == multiset(vulns) ensures Passes(env, excs, today, others) {
        SameElements(vulns, others);
        SamePassable(env, excs, today, vulns, others);
        FitIsPassing(env, excs, today, others);
      }
    } else if Passable(env, excs, today, vulns) {
      var others := SomeOrderFails(env, excs, today, vulns);
    } else if Passes(env, excs, today, vulns) {
      PassingIsPassable(env, excs, today, vulns);
    }
  }

  lemma SomeOrderFails(env: Env, excs: seq<Record>, today: int, vulns: seq<Vuln>) returns (others: seq<Vuln>)
    requires Passable(env, excs, today, vulns) && !AllFit(env, excs, vulns)
    ensures multiset(others) == multiset(vulns) && !Passes(env, excs, today, others)
  {
    var v :| v in vulns && Keyed(env, v) && !Fits(env, excs, v);
    var i :| 0 <= i < |vulns| && vulns[i] == v;
    others := [v] + (vulns[..i] + vulns[i + 1..]);
    MovedToFront(vulns, i);
    MisfitFirstFails(env, excs, today, vulns, v, others);
  }

  lemma MovedToFront<T>(xs: seq<T>, i: nat)
    requires i < |xs|
    ensures multiset([xs[i]] + (xs[..i] + xs[i + 1..])) == multiset(xs)
  {
    assert xs == xs[..i] + [xs[i]] + xs[i + 1..];
  }

  /** The order of the report does not matter exactly if it is not passable in any order, or all
      its severities fit the exceptions. */
  lemma OrderHarmlessExactly(env: Env, excs: seq<Record>, today: int, vulns: seq<Vuln>)
    ensures (forall others | multiset(others) == multiset(vulns) ::
               Passes(env, excs, today, others) <==> Passes(env, excs, today, vulns)) <==>
            (Passable(env, excs, today, vulns) ==> AllFit(env, excs, vulns))
  {
    SomeOrderPasses(env, excs, today, vulns);
    EveryOrderPasses(env, excs, today, vulns);
    if Passes(env, excs, today, vulns) {
      PassingIsPassable(env, excs, today, vulns);
    }
  }

  // ---------- The seen set ----------

  /** The gate with a loop that does not pass over keys already seen. */
  ghost predicate GatePassesUnseen(env: Env, audit: Json, lines: seq<string>, today: int) {
    && Records(lines).Ok? && Vulns(env, audit).Ok?
    && LoopsPass(env, Records(lines).value, today, false, Vulns(env, audit).value)
  }

  ghost predicate CoveredItself(env: Env, excs: seq<Record>, today: int, v: Vuln) {
    && NormalizeSeverity(env, v.severity).Ok?
    && (Counts(env, v) ==> HasAdvisory(env, v) && Listed(env, excs, today, v))
  }

  lemma UnseenPasses(env: Env, excs: seq<Record>, today: int, vulns: seq<Vuln>)
    ensures LoopsPass(env, excs, today, false, vulns) <==>
            GoodExceptions(env, excs) && forall v | v in vulns :: CoveredItself(env, excs, today, v)
  {
    var entries := Indexed(env, excs).entries;
    IndexedExactly(env, excs);
    ScannedExactly(env, entries, today, false, vulns);
    if GoodExceptions(env, excs) {
      forall i | 0 <= i < |vulns|
        ensures Fine(env, entries, today, false, vulns, i) <==> CoveredItself(env, excs, today, vulns[i])
      {
        CoveredIsListed(env, excs, entries, today, vulns[i]);
      }
      if GoodVulns(env, entries, today, false, vulns) {
        forall v | v in vulns ensures CoveredItself(env, excs, today, v) {
          var i :| 0 <= i < |vulns| && vulns[i] == v;
          assert Fine(env, entries, today, false, vulns, i);
        }
      }
    }
  }

  /** Without the `seen` set, the loops pass exactly if they pass with it in every order. */
  lemma UnseenIsEveryOrder(env: Env, excs: seq<Record>, today: int, vulns: seq<Vuln>)
    ensures LoopsPass(env, excs, today, false, vulns) <==> Passable(env, excs, today, vulns) && AllFit(env, excs, vulns)
  {
    UnseenPasses(env, excs, today, vulns);
    if LoopsPass(env, excs, today, false, vulns) {
      forall v | v in vulns ensures Acceptable(env, excs, today, vulns, v) && (Keyed(env, v) ==> Fits(env, excs, v)) {
        assert CoveredItself(env, excs, today, v);
        if Counts(env, v) {
          CoveredIfFits(env, excs, today, v, v);
        }
      }
    }
    if Passable(env, excs, today, vulns) && AllFit(env, excs, vulns) {
      forall v | v in vulns ensures CoveredItself(env, excs, today, v) {
        assert Acceptable(env, excs, today, vulns, v);
        if Counts(env, v) {
          FittingIsListed(env, excs, today, vulns, v);
        }
      }
    }
  }

  /** What the `seen` set hides: exactly the severities that do not fit, of keys that are covered by
      an earlier vulnerability. */
  lemma SeenHides(env: Env, audit: Json, lines: seq<string>, today: int)
    ensures GatePassesUnseen(env, audit, lines, today) <==>
            GatePasses(env, audit, lines, today) && AllFit(env, Records(lines).value, Vulns(env, audit).value)
  {
    if Records(lines).Ok? && Vulns(env, audit).Ok? {
      var excs, vulns := Records(lines).value, Vulns(env, audit).value;
      UnseenIsEveryOrder(env, excs, today, vulns);
      if Passes(env, excs, today, vulns) {
        PassingIsPassable(env, excs, today, vulns);
      }
      if Passable(env, excs, today, vulns) && AllFit(env, excs, vulns) {
        FitIsPassing(env, excs, today, vulns);
      }
    }
  }

  // ---------- One severity per key ----------

  /** Wherever the key of a vulnerability occurs again, so does its severity. */
  ghost predicate OneSeverityPerKey(env: Env, vulns: seq<Vuln>) {
    forall v, w | v in vulns && w in vulns && Keyed(env, v) && Keyed(env, w) && VulnKey(env, v) == VulnKey(env, w) ::
      NormalizeSeverity(env, v.severity) == NormalizeSeverity(env, w.severity)
  }

  lemma OneSeverityFits(env: Env, excs: seq<Record>, today: int, vulns: seq<Vuln>)
    requires OneSeverityPerKey(env, vulns) && Passable(env, excs, today, vulns)
    ensures AllFit(env, excs, vulns)
  {
    forall v | v in vulns && Keyed(env, v) ensures Fits(env, excs, v) {
      assert Acceptable(env, excs, today, vulns, v);
      var w :| w in vulns && Keyed(env, w) && VulnKey(env, w) == VulnKey(env, v) && Listed(env, excs, today, w);
      CoveredIfFits(env, excs, today, w, w);
      assert NormalizeSeverity(env, v.severity) == NormalizeSeverity(env, w.severity);
    }
  }

  /** If the audit gives one severity per key, the verdict is that of the gate without the `seen`
      set. */
  lemma SeenIsHarmless(env: Env, audit: Json, lines: seq<string>, today: int)
    requires Vulns(env, audit).Ok? ==> OneSeverityPerKey(env, Vulns(env, audit).value)
    ensures GatePasses(env, audit, lines, today) <==> GatePassesUnseen(env, audit, lines, today)
  {
    SeenHides(env, audit, lines, today);
    if GatePasses(env, audit, lines, today) {
      PassingIsPassable(env, Records(lines).value, today, Vulns(env, audit).value);
      OneSeverityFits(env, Records(lines).value, today, Vulns(env, audit).value);
    }
  }

  /** Two audits with the same vulnerabilities, in whatever order and number, have the same verdict
      if what is passable fits; and so if they give one severity per key. */
  lemma OrderIsHarmless(env: Env, audit: Json, other: Json, lines: seq<string>, today: int)
    requires Vulns(env, audit).Ok? && Vulns(env, other).Ok?
    requires forall v :: v in Vulns(env, audit).value <==> v in Vulns(env, other).value
    requires var vulns := Vulns(env, audit).value;
             || OneSeverityPerKey(env, vulns)
             || (Records(lines).Ok? && Passable(env, Records(lines).value, today, vulns) ==>
                   AllFit(env, Records(lines).value, vulns))
    ensures GatePasses(env, audit, lines, today) <==> GatePasses(env, other, lines, today)
  {
    if Records(lines).Ok? {
      var excs, vulns, others := Records(lines).value, Vulns(env, audit).value, Vulns(env, other).value;
      if Passes(env, excs, today, others) {
        PassingIsPassable(env, excs, today, others);
        SamePassable(env, excs, today, others, vulns);
      } else if Passes(env, excs, today, vulns) {
        PassingIsPassable(env, excs, today, vulns);
      }
      if Passable(env, excs, today, vulns) {
        if OneSeverityPerKey(env, vulns) {
          OneSeverityFits(env, excs, today, vulns);
        }
        SamePassable(env, excs, today, vulns, others);
        FitIsPassing(env, excs, today, vulns);
        FitIsPassing(env, excs, today, others);
      }
    }
  }

  lemma PlainVuln(env: Env, v: Vuln, severity: string)
    requires (forall s | s in {"a", "high", "critical"} :: env.lower(s) == s) && severity in {"high", "critical"}
    requires v == Vuln(Str("p"), Str(severity), Str("a"), Null)
    ensures NormalizeSeverity(env, v.severity) == Ok(severity) && Keyed(env, v) && VulnKey(env, v) == ("p", "a")
  {
    forall s | s in {"p", "a", "high", "critical"} ensures Strip(s) == s {
      StripPadded("", s, "");
      assert "" + s + "" == s;
    }
  }

  const HIGH_VULN := Vuln(Str("p"), Str("high"), Str("a"), Null)
  const CRITICAL_VULN := Vuln(Str("p"), Str("critical"), Str("a"), Null)

  const HIGH_FIELDS: seq<AuditParser.Field> :=
    [AuditParser.Field("package", "p", NoQuotes), AuditParser.Field("advisory", "a", DoubleQuotes),
     AuditParser.Field("severity", "high", NoQuotes), AuditParser.Field("mitigation", "m", SingleQuotes),
     AuditParser.Field("expires_on", "2099-12-31", DoubleQuotes)]
  const HIGH_EXCEPTION: Record :=
    map["package" := "p", "advisory" := "a", "severity" := "high", "mitigation" := "m", "expires_on" := "2099-12-31"]

  lemma HighException(env: Env)
    requires (forall s | s in {"a", "high", "critical"} :: env.lower(s) == s) && env.parseDate("2099-12-31").Some?
    ensures Usable(env, HIGH_EXCEPTION) && ExceptionKey(env, HIGH_EXCEPTION) == ("p", "a")
    ensures EntryOf(env, HIGH_EXCEPTION) == Entry("high", env.parseDate("2099-12-31").value)
  {
    forall s | s in {"p", "a", "high"} ensures Strip(s) == s {
      StripPadded("", s, "");
      assert "" + s + "" == s;
    }
  }

  lemma OrderMattersInLists(env: Env, today: int)
    requires forall s | s in {"a", "high", "critical"} :: env.lower(s) == s
    requires env.parseDate("2099-12-31").Some? && today <= env.parseDate("2099-12-31").value
    ensures Passes(env, [HIGH_EXCEPTION], today, [HIGH_VULN, CRITICAL_VULN])
    ensures !Passes(env, [HIGH_EXCEPTION], today, [CRITICAL_VULN, HIGH_VULN])
  {
    var excs := [HIGH_EXCEPTION];
    PlainVuln(env, HIGH_VULN, "high");
    PlainVuln(env, CRITICAL_VULN, "critical");
    HighException(env);
    assert ListedAt(env, excs, today, HIGH_VULN, 0);
    assert !Listed(env, excs, today, CRITICAL_VULN);
    var vulns := [HIGH_VULN, CRITICAL_VULN];
    assert vulns[0] == HIGH_VULN;
    forall i | 0 <= i < 2 ensures Excused(env, excs, today, vulns, i) {
    }
    assert !Excused(env, excs, today, [CRITICAL_VULN, HIGH_VULN], 0);
  }

  /** The exception list with the one exception, as a file. */
  const HIGH_LINES := Print([HIGH_FIELDS])

  lemma PlainKey(key: string)
    requires key != "" && ':' !in key && !IsSpace(key[0]) && !IsSpace(key[|key| - 1])
    requires key[0] != '#' && key[0] != '-' && key[0] != 'v' && key[0] != 'e'
    ensures LaterKey(key)
  {
    assert "version"[0] == 'v' && "exceptions"[0] == 'e';
  }

  lemma HighFieldsPrintable()
    ensures Printable(HIGH_FIELDS)
  {
    LaterKeys();
    PlainValues();
  }

  lemma LaterKeys()
    ensures PrintableKey("package") && forall i | 1 <= i < |HIGH_FIELDS| :: LaterKey(HIGH_FIELDS[i].key)
  {
    PlainKey("package");
    PlainKey("advisory");
    PlainKey("severity");
    MitigationKey();
    ExpiryKey();
  }

  lemma MitigationKey()
    ensures LaterKey("mitigation")
  {
    PlainKey("mitigation");
  }

  lemma ExpiryKey()
    ensures LaterKey("expires_on")
  {
    var key := "expires_on";
    assert key[0] == 'e' && key[2] == 'p' && "exceptions"[2] == 'c' && "version"[0] == 'v';
  }

  lemma PlainValues()
    ensures forall i | 0 <= i < |HIGH_FIELDS| :: PrintableValue(HIGH_FIELDS[i])
  {
    assert "high"[0] == 'h' && "high"[3] == 'h' && !IsSpace('h') && !IsSpace('p');
  }

  lemma LastField(fields: seq<AuditParser.Field>, field: AuditParser.Field)
    ensures RecordOf(fields + [field]) == RecordOf(fields)[field.key := field.value]
  {
    assert (fields + [field])[..|fields|] == fields;
  }

  lemma HighRecord()
    ensures RecordOf(HIGH_FIELDS) == HIGH_EXCEPTION
  {
    var one := [] + [HIGH_FIELDS[0]];
    var two := one + [HIGH_FIELDS[1]];
    var three := two + [HIGH_FIELDS[2]];
    var four := three + [HIGH_FIELDS[3]];
    LastField([], HIGH_FIELDS[0]);
    LastField(one, HIGH_FIELDS[1]);
    LastField(two, HIGH_FIELDS[2]);
    LastField(three, HIGH_FIELDS[3]);
    LastField(four, HIGH_FIELDS[4]);
    assert four + [HIGH_FIELDS[4]] == HIGH_FIELDS;
  }

  lemma HighLinesParse()
    ensures Records(HIGH_LINES) == Ok([HIGH_EXCEPTION])
  {
    HighFieldsPrintable();
    ParsePrint([HIGH_FIELDS]);
    HighRecord();
    assert Dictionaries([HIGH_FIELDS]) == [HIGH_EXCEPTION];
  }

  function Advisory(severity: string): Json {
    Obj([("module_name", Str("p")), ("severity", Str(severity)), ("github_advisory_id", Str("a"))])
  }

  /** An audit report with two advisories. */
  function Report(first: string, second: string): Json {
    Obj([("advisories", Obj([("1", Advisory(first)), ("2", Advisory(second))]))])
  }

  lemma GetFirst(field: (string, Json), rest: seq<(string, Json)>, key: string)
    ensures Get([field] + rest, key) == if field.0 == key then field.1 else Get(rest, key)
  {
    assert ([field] + rest)[1..] == rest;
  }

  lemma GetOfOne(a: (string, Json), key: string)
    ensures Get([a], key) == if a.0 == key then a.1 else Null
  {
    GetFirst(a, [], key);
    assert [a] + [] == [a];
  }

  lemma GetOfThree(a: (string, Json), b: (string, Json), c: (string, Json), key: string)
    ensures Get([a, b, c], key) ==
            if a.0 == key then a.1 else if b.0 == key then b.1 else if c.0 == key then c.1 else Null
  {
    GetFirst(a, [b, c], key);
    GetFirst(b, [c], key);
    GetOfOne(c, key);
    assert [a] + [b, c] == [a, b, c] && [b] + [c] == [b, c];
  }

  lemma AdvisoryRead(env: Env, severity: string)
    ensures AdvisoryVuln(env, Advisory(severity)) == Ok(Vuln(Str("p"), Str(severity), Str("a"), Null))
  {
    var name, sev, id := ("module_name", Str("p")), ("severity", Str(severity)), ("github_advisory_id", Str("a"));
    GetOfThree(name, sev, id, "module_name");
    GetOfThree(name, sev, id, "severity");
    GetOfThree(name, sev, id, "github_advisory_id");
    GetOfThree(name, sev, id, "title");
    GetOfThree(name, sev, id, "advisory");
    GetOfThree(name, sev, id, "overview");
    GetOfThree(name, sev, id, "url");
  }

  lemma ReportRead(env: Env, first: string, second: string)
    ensures Vulns(env, Report(first, second)) ==
            Ok([Vuln(Str("p"), Str(first), Str("a"), Null), Vuln(Str("p"), Str(second), Str("a"), Null)])
  {
    var entries := [("1", Advisory(first)), ("2", Advisory(second))];
    GetOfOne(("advisories", Obj(entries)), "advisories");
    GetOfOne(("advisories", Obj(entries)), "vulnerabilities");
    AdvisoryRead(env, first);
    AdvisoryRead(env, second);
    AdvisoriesAreExact(env, entries);
    var r := AdvisoryVulns(env, entries);
    forall i | 0 <= i < 2 ensures AdvisoryVuln(env, entries[i].1).Ok? {}
    assert r.value == [AdvisoryVuln(env, entries[0].1).value, AdvisoryVuln(env, entries[1].1).value];
    BothLaws(r, Ok([]), Ok([]));
  }

  /** With two severities for one key the order can matter: the later one is not compared. */
  lemma OrderMatters(env: Env, today: int)
    requires forall s | s in {"a", "high", "critical"} :: env.lower(s) == s
    requires env.parseDate("2099-12-31").Some? && today <= env.parseDate("2099-12-31").value
    ensures GatePasses(env, Report("high", "critical"), HIGH_LINES, today)
    ensures !GatePasses(env, Report("critical", "high"), HIGH_LINES, today)
  {
    HighLinesParse();
    ReportRead(env, "high", "critical");
    ReportRead(env, "critical", "high");
    OrderMattersInLists(env, today);
  }

  // ---------- What an entry stands for ----------

  /** Where an advisory's identifier is looked for, the most stable place first. */
  function Candidates(env: Env, a: seq<(string, Json)>): seq<Json> {
    var cve := FirstCve(Get(a, "cves"));
    [Get(a, "github_advisory_id"), Get(a, "url"), if cve.Ok? then cve.value else Null,
     if Get(a, "id") != Null then Str(ToStr(env, Get(a, "id"))) else Null,
     Get(a, "title"), Get(a, "advisory"), Get(a, "overview")]
  }

  /** The identifier is the first candidate that is not empty, or the last one if all are. A
      malformed list of CVEs crashes exactly if no stable identifier comes before it. */
  lemma PickIsFirst(env: Env, a: seq<(string, Json)>)
    ensures var c, picked := Candidates(env, a), PickAdvisoryId(env, a);
            && (picked.Crash? <==> FirstCve(Get(a, "cves")).Crash? && !Truthy(c[0]) && !Truthy(c[1]))
            && (picked.Ok? ==> exists k :: 0 <= k < |c| && c[k] == picked.value && (Truthy(c[k]) || k == |c| - 1)
                                           && forall j | 0 <= j < k :: !Truthy(c[j]))
  {
    var c, picked := Candidates(env, a), PickAdvisoryId(env, a);
    if picked.Ok? {
      var k := if Truthy(c[0]) then 0 else if Truthy(c[1]) then 1 else if Truthy(c[2]) then 2
               else if Truthy(c[3]) then 3 else if Truthy(c[4]) then 4 else if Truthy(c[5]) then 5 else 6;
      assert c[k] == picked.value;
    }
  }

  /** Every advisory stands for exactly one vulnerability, in the order of the report; one that is
      malformed crashes the gate. */
  lemma {:induction false} AdvisoriesAreExact(env: Env, fields: seq<(string, Json)>)
    ensures var r := AdvisoryVulns(env, fields);
            && (r.Crash? <==> exists i :: 0 <= i < |fields| && AdvisoryVuln(env, fields[i].1).Crash?)
            && (r.Ok? ==>
                  && |r.value| == |fields|
                  && forall i | 0 <= i < |fields| :: AdvisoryVuln(env, fields[i].1) == Ok(r.value[i]))
  {
    if fields != [] {
      var front := fields[..|fields| - 1];
      AdvisoriesAreExact(env, front);
      if i :| 0 <= i < |front| && AdvisoryVuln(env, front[i].1).Crash? {
        assert AdvisoryVuln(env, fields[i].1).Crash?;
      }
      if i :| 0 <= i < |fields| && AdvisoryVuln(env, fields[i].1).Crash? {
        assert i < |front| ==> AdvisoryVuln(env, front[i].1).Crash?;
      }
    }
  }

  // ---------- Entries without an identifier ----------

  /** None of the causes of an entry has an identifier. */
  predicate Idless(vuln: Json)
    requires vuln.Obj?
  {
    forall item | item in ViaItems(GetOr(vuln.fields, "via", List([]))) :: Relevant(item) ==> !Truthy(ViaAdvisory(item))
  }

  lemma {:induction false} NoAdvisories(items: seq<Json>)
    requires forall item | item in items :: Relevant(item) ==> !Truthy(ViaAdvisory(item))
    ensures Advisories(items) == []
  {
    if items != [] {
      NoAdvisories(items[..|items| - 1]);
    }
  }

  /** The cause has this identifier. */
  predicate Identifies(item: Json, id: Json) {
    Relevant(item) && Truthy(ViaAdvisory(item)) && ViaAdvisory(item) == id
  }

  lemma {:induction false} AdvisoriesAre(items: seq<Json>, id: Json)
    ensures id in Advisories(items) <==>
            exists i :: 0 <= i < |items| && Identifies(items[i], id)
  {
    if items != [] {
      var front, last := items[..|items| - 1], items[|items| - 1];
      AdvisoriesAre(front, id);
      if id in Advisories(front) {
        var i :| 0 <= i < |front| && Identifies(front[i], id);
        assert items[i] == front[i];
      }
      if i :| 0 <= i < |items| && Identifies(items[i], id) {
        assert i < |front| ==> front[i] == items[i];
      }
    }
  }

  /** An entry under `vulnerabilities` stands for exactly the identifiers of its causes: one
      vulnerability for each, with the entry's name and severity, and no other. */
  lemma EntryIsExact(name: string, vuln: Json, v: Vuln)
    requires vuln.Obj? && EntryVulns(name, vuln).Ok?
    ensures var items := ViaItems(GetOr(vuln.fields, "via", List([])));
            v in EntryVulns(name, vuln).value <==>
            && v.name == Str(name) && v.severity == Get(vuln.fields, "severity")
            && v.title.Str? && Ok(v.title.s) == Join(Titles(items))
            && exists i :: 0 <= i < |items| && Identifies(items[i], v.advisory)
  {
    var items := ViaItems(GetOr(vuln.fields, "via", List([])));
    AdvisoriesAre(items, v.advisory);
    NamedAre(name, Get(vuln.fields, "severity"), Advisories(items), Str(Join(Titles(items)).value), v);
  }

  lemma NamedAre(name: string, severity: Json, ids: seq<Json>, title: Json, v: Vuln)
    ensures v in Named(name, severity, ids, title) <==>
            v.name == Str(name) && v.severity == severity && v.title == title && v.advisory in ids
  {
    var vulns := Named(name, severity, ids, title);
    if v in vulns {
      var k :| 0 <= k < |vulns| && vulns[k] == v;
      assert v.advisory == ids[k];
    }
    if v.name == Str(name) && v.severity == severity && v.title == title && v.advisory in ids {
      var k :| 0 <= k < |ids| && ids[k] == v.advisory;
      assert vulns[k] == v;
    }
  }

  lemma BothLaws<T>(a: Result<seq<T>>, b: Result<seq<T>>, c: Result<seq<T>>)
    ensures Both(Both(a, b), c) == Both(a, Both(b, c)) && Both(a, Ok([])) == a && Both(Ok([]), a) == a
  {
    if a.Ok? {
      assert a.value + [] == a.value && [] + a.value == a.value;
      if b.Ok? && c.Ok? {
        assert a.value + b.value + c.value == a.value + (b.value + c.value);
      }
    }
  }

  lemma EntriesSnoc(fields: seq<(string, Json)>, field: (string, Json))
    ensures EntriesVulns(fields + [field]) == Both(EntriesVulns(fields), EntryVulns(field.0, field.1))
  {
    assert (fields + [field])[..|fields|] == fields;
  }

  lemma {:induction false} EntriesConcat(fields: seq<(string, Json)>, more: seq<(string, Json)>)
    ensures EntriesVulns(fields + more) == Both(EntriesVulns(fields), EntriesVulns(more))
  {
    if more == [] {
      assert fields + more == fields;
      BothLaws(EntriesVulns(fields), Ok([]), Ok([]));
    } else {
      var front, last := more[..|more| - 1], more[|more| - 1];
      assert more == front + [last] && fields + more == (fields + front) + [last];
      EntriesConcat(fields, front);
      EntriesSnoc(front, last);
      EntriesSnoc(fields + front, last);
      BothLaws(EntriesVulns(fields), EntriesVulns(front), EntryVulns(last.0, last.1));
    }
  }

  lemma OneEntry(name: string, vuln: Json)
    ensures EntriesVulns([(name, vuln)]) == EntryVulns(name, vuln)
  {
    var entry := [(name, vuln)];
    assert entry[..|entry| - 1] == [] && entry[|entry| - 1] == (name, vuln);
    BothLaws(EntryVulns(name, vuln), Ok([]), Ok([]));
  }

  /** Under `vulnerabilities`, an entry without any identifier is as good as absent, however high
      its severity. */
  lemma IdlessEntryIsSilent(before: seq<(string, Json)>, name: string, vuln: Json, after: seq<(string, Json)>)
    requires vuln.Obj? && Idless(vuln) && EntryVulns(name, vuln).Ok?
    ensures EntriesVulns(before + [(name, vuln)] + after) == EntriesVulns(before + after)
  {
    NoAdvisories(ViaItems(GetOr(vuln.fields, "via", List([]))));
    EntriesConcat(before + [(name, vuln)], after);
    EntriesConcat(before, [(name, vuln)]);
    EntriesConcat(before, after);
    OneEntry(name, vuln);
    BothLaws(EntriesVulns(before), Ok([]), Ok([]));
  }

  lemma {:induction false} AdvisoryListed(env: Env, fields: seq<(string, Json)>, i: nat)
    requires i < |fields| && AdvisoryVulns(env, fields).Ok?
    ensures var v := AdvisoryVuln(env, fields[i].1); v.Ok? && v.value in AdvisoryVulns(env, fields).value
  {
    if i < |fields| - 1 {
      AdvisoryListed(env, fields[..|fields| - 1], i);
    }
  }

  lemma IdlessVulnFails(env: Env, excs: seq<Record>, today: int, vulns: seq<Vuln>, v: Vuln)
    requires v in vulns && Counts(env, v) && !HasAdvisory(env, v)
    ensures !Passes(env, excs, today, vulns)
  {
    var k :| 0 <= k < |vulns| && vulns[k] == v;
    assert !Excused(env, excs, today, vulns, k);
  }

  /** Under `advisories`, one without an identifier makes the gate fail if it counts, whatever the
      exceptions. */
  lemma IdlessAdvisoryFails(env: Env, audit: Json, lines: seq<string>, today: int, i: nat)
    requires audit.Obj? && i < |Section(audit.fields, "advisories")|
    requires var v := AdvisoryVuln(env, Section(audit.fields, "advisories")[i].1);
             v.Ok? && Counts(env, v.value) && !HasAdvisory(env, v.value)
    ensures !GatePasses(env, audit, lines, today)
  {
    var section := Section(audit.fields, "advisories");
    if Records(lines).Ok? && Vulns(env, audit).Ok? {
      AdvisoryListed(env, section, i);
      IdlessVulnFails(env, Records(lines).value, today, Vulns(env, audit).value, AdvisoryVuln(env, section[i].1).value);
    }
  }
}
