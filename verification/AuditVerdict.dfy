/** The verdict of the gate: the two loops over exceptions and vulnerabilities, and the declarative
    statement of what passes. */
module AuditVerdict {
  import opened Wrappers
  import opened AuditParser
  import opened AuditGate

  type Key = (string, string)

  const HIGH_SEVERITIES: set<string> := {"high", "critical"}
  const REQUIRED_FIELDS: set<string> := {"package", "advisory", "severity", "mitigation", "expires_on"}

  datatype Entry = Entry(severity: string, expires: int)

  datatype Error =
    | MissingFields(exc: Record)
    | InvalidDate(exc: Record)
    | BlankKey(exc: Record)
    | Duplicate(key: Key)
    | NoAdvisory(vuln: Vuln)
    | SeverityMismatch(vuln: Vuln)

  function NormalizeSeverity(env: Env, severity: Json): Result<string> {
    if !Truthy(severity) then Ok(env.lower(Strip("")))
    else if severity.Str? then Ok(env.lower(Strip(severity.s))) else Crash
  }

  function NormalizePackage(env: Env, name: Json): string {
    if name.Null? then "" else Strip(ToStr(env, name))
  }

  function NormalizeAdvisory(env: Env, advisory: Json): string {
    if advisory.Null? then "" else env.lower(Strip(ToStr(env, advisory)))
  }

  // ---------- The loop over the exceptions ----------

  function Field(exc: Record, name: string): string {
    if name in exc then exc[name] else ""
  }

  predicate Complete(exc: Record) {
    forall name | name in REQUIRED_FIELDS :: Field(exc, name) != ""
  }

  function ExceptionDate(env: Env, exc: Record): Option<int> {
    env.parseDate(Field(exc, "expires_on"))
  }

  function ExceptionKey(env: Env, exc: Record): Key {
    (NormalizePackage(env, Str(Field(exc, "package"))), NormalizeAdvisory(env, Str(Field(exc, "advisory"))))
  }

  function ExceptionSeverity(env: Env, exc: Record): string {
    env.lower(Strip(Field(exc, "severity")))
  }

  datatype Index = Index(entries: map<Key, Entry>, errors: seq<Error>)

  function IndexStep(env: Env, st: Index, exc: Record): Index {
    var key := ExceptionKey(env, exc);
    if !Complete(exc) then st.(errors := st.errors + [MissingFields(exc)])
    else if ExceptionDate(env, exc).None? then st.(errors := st.errors + [InvalidDate(exc)])
    else if key.0 == "" || key.1 == "" then st.(errors := st.errors + [BlankKey(exc)])
    else if key in st.entries then st.(errors := st.errors + [Duplicate(key)])
    else st.(entries := st.entries[key := Entry(ExceptionSeverity(env, exc), ExceptionDate(env, exc).value)])
  }

  function Indexed(env: Env, excs: seq<Record>): Index {
    if excs == [] then Index(map[], []) else IndexStep(env, Indexed(env, excs[..|excs| - 1]), excs[|excs| - 1])
  }

  /** An exception that can be indexed. */
  predicate Usable(env: Env, exc: Record) {
    Complete(exc) && ExceptionDate(env, exc).Some? && ExceptionKey(env, exc).0 != "" && ExceptionKey(env, exc).1 != ""
  }

  function EntryOf(env: Env, exc: Record): Entry
    requires Usable(env, exc)
  {
    Entry(ExceptionSeverity(env, exc), ExceptionDate(env, exc).value)
  }

  /** A usable exception whose key no earlier one has. */
  ghost predicate Fresh(env: Env, excs: seq<Record>, i: nat)
    requires i < |excs|
  {
    && Usable(env, excs[i])
    && forall k | 0 <= k < i && Usable(env, excs[k]) :: ExceptionKey(env, excs[k]) != ExceptionKey(env, excs[i])
  }

  /** All exceptions are usable, and no key repeats. */
  ghost predicate GoodExceptions(env: Env, excs: seq<Record>) {
    forall i {:trigger Fresh(env, excs, i)} | 0 <= i < |excs| :: Fresh(env, excs, i)
  }

  ghost predicate HasEntry(env: Env, exc: Record, entries: map<Key, Entry>) {
    Usable(env, exc) && ExceptionKey(env, exc) in entries && entries[ExceptionKey(env, exc)] == EntryOf(env, exc)
  }

  ghost predicate IsEntryKey(env: Env, excs: seq<Record>, i: nat, key: Key)
    requires i < |excs|
  {
    Fresh(env, excs, i) && ExceptionKey(env, excs[i]) == key
  }

  /** No key of a usable exception is missing. */
  ghost predicate IndexHasAll(env: Env, excs: seq<Record>, entries: map<Key, Entry>) {
    forall i | 0 <= i < |excs| && Usable(env, excs[i]) :: ExceptionKey(env, excs[i]) in entries
  }

  /** The entries are those of the fresh exceptions. */
  ghost predicate IndexIsRight(env: Env, excs: seq<Record>, entries: map<Key, Entry>) {
    forall i {:trigger Fresh(env, excs, i)} | 0 <= i < |excs| && Fresh(env, excs, i) :: HasEntry(env, excs[i], entries)
  }

  /** Every key is that of a fresh exception. */
  ghost predicate IndexHasOnly(env: Env, excs: seq<Record>, entries: map<Key, Entry>) {
    forall key | key in entries ::
      exists i {:trigger IsEntryKey(env, excs, i, key)} :: 0 <= i < |excs| && IsEntryKey(env, excs, i, key)
  }

  /** The index holds exactly the fresh exceptions. */
  ghost predicate IndexHolds(env: Env, excs: seq<Record>, entries: map<Key, Entry>) {
    IndexHasAll(env, excs, entries) && IndexIsRight(env, excs, entries) && IndexHasOnly(env, excs, entries)
  }

  /** The first loop complains about nothing exactly in good exceptions, and indexes each key's
      first usable exception in any case. */
  lemma {:induction false} IndexedExactly(env: Env, excs: seq<Record>)
    ensures Indexed(env, excs).errors == [] <==> GoodExceptions(env, excs)
    ensures IndexHolds(env, excs, Indexed(env, excs).entries)
  {
    if excs != [] {
      var front, last := excs[..|excs| - 1], excs[|excs| - 1];
      IndexedExactly(env, front);
      assert excs == front + [last];
      var entries := Indexed(env, front).entries;
      FreshFront(env, front, last, entries);
      IndexFront(env, front, last, entries);
      IndexStepIs(env, Indexed(env, front), last);
      assert GoodExceptions(env, excs) ==> Fresh(env, excs, |front|);
    }
  }

  lemma IndexStepIs(env: Env, st: Index, last: Record)
    ensures var next := IndexStep(env, st, last);
            if Usable(env, last) && ExceptionKey(env, last) !in st.entries
            then next == st.(entries := st.entries[ExceptionKey(env, last) := EntryOf(env, last)])
            else next.entries == st.entries && next.errors != []
  {
  }

  lemma FreshFront(env: Env, front: seq<Record>, last: Record, entries: map<Key, Entry>)
    requires IndexHolds(env, front, entries)
    ensures forall i | 0 <= i < |front| :: Fresh(env, front + [last], i) <==> Fresh(env, front, i)
    ensures Fresh(env, front + [last], |front|) <==> Usable(env, last) && ExceptionKey(env, last) !in entries
    ensures GoodExceptions(env, front + [last]) <==> GoodExceptions(env, front) && Fresh(env, front + [last], |front|)
  {
    var excs := front + [last];
    assert forall i | 0 <= i < |front| :: excs[i] == front[i];
    assert excs[|front|] == last;
    forall i | 0 <= i < |front| ensures Fresh(env, excs, i) <==> Fresh(env, front, i) {
    }
    if ExceptionKey(env, last) in entries {
      var i :| 0 <= i < |front| && IsEntryKey(env, front, i, ExceptionKey(env, last));
      assert Usable(env, excs[i]);
    }
    forall i | 0 <= i < |excs| && GoodExceptions(env, front) && Fresh(env, excs, |front|) ensures Fresh(env, excs, i) {
      assert i < |front| ==> Fresh(env, front, i);
    }
  }

  lemma IndexFront(env: Env, front: seq<Record>, last: Record, entries: map<Key, Entry>)
    requires IndexHolds(env, front, entries)
    requires forall i | 0 <= i < |front| :: Fresh(env, front + [last], i) <==> Fresh(env, front, i)
    requires Fresh(env, front + [last], |front|) <==> Usable(env, last) && ExceptionKey(env, last) !in entries
    ensures IndexHolds(env, front + [last],
                       if Usable(env, last) && ExceptionKey(env, last) !in entries
                       then entries[ExceptionKey(env, last) := EntryOf(env, last)] else entries)
  {
    var excs, key := front + [last], ExceptionKey(env, last);
    var now := if Usable(env, last) && key !in entries then entries[key := EntryOf(env, last)] else entries;
    assert IndexHasAll(env, excs, now) by {
      assert forall i | 0 <= i < |excs| :: excs[i] == if i < |front| then front[i] else last;
    }
    forall i | 0 <= i < |excs| && Fresh(env, excs, i) ensures HasEntry(env, excs[i], now) {
      EntryKept(env, front, last, entries, now, i);
    }
    forall k | k in now
      ensures exists i {:trigger IsEntryKey(env, excs, i, k)} :: 0 <= i < |excs| && IsEntryKey(env, excs, i, k)
    {
      if k in entries {
        var i :| 0 <= i < |front| && IsEntryKey(env, front, i, k);
        assert IsEntryKey(env, excs, i, k);
      } else {
        assert IsEntryKey(env, excs, |front|, k);
      }
    }
  }

  lemma EntryKept(env: Env, front: seq<Record>, last: Record, entries: map<Key, Entry>, now: map<Key, Entry>, i: nat)
    requires IndexIsRight(env, front, entries) && i < |front| + 1 && Fresh(env, front + [last], i)
    requires i < |front| ==> Fresh(env, front, i)
    requires i == |front| ==> ExceptionKey(env, last) !in entries
    requires now == if Usable(env, last) && ExceptionKey(env, last) !in entries
                    then entries[ExceptionKey(env, last) := EntryOf(env, last)] else entries
    ensures HasEntry(env, (front + [last])[i], now)
  {
    if i < |front| {
      assert Fresh(env, front, i) && HasEntry(env, front[i], entries);
    }
  }

  method IndexExceptions(env: Env, excs: seq<Record>) returns (entries: map<Key, Entry>, errors: seq<Error>)
    ensures Index(entries, errors) == Indexed(env, excs)
  {
    entries, errors := map[], [];
    for n := 0 to |excs|
      invariant Index(entries, errors) == Indexed(env, excs[..n])
    {
      assert excs[..n + 1][..n] == excs[..n];
      var exc := excs[n];
      if !Complete(exc) {
        errors := errors + [MissingFields(exc)];
        continue;
      }
      var severity := ExceptionSeverity(env, exc);
      var package := NormalizePackage(env, Str(Field(exc, "package")));
      var advisory := NormalizeAdvisory(env, Str(Field(exc, "advisory")));
      var date := ExceptionDate(env, exc);
      if date == None {
        errors := errors + [InvalidDate(exc)];
        continue;
      }
      if package == "" || advisory == "" {
        errors := errors + [BlankKey(exc)];
        continue;
      }
      var key := (package, advisory);
      if key in entries {
        errors := errors + [Duplicate(key)];
        continue;
      }
      entries := entries[key := Entry(severity, date.value)];
    }
    assert excs[..|excs|] == excs;
  }

  // ---------- The loop over the vulnerabilities ----------

  datatype Findings = Findings(errors: seq<Error>, missing: seq<Vuln>, expired: seq<Vuln>, seen: set<Key>)

  function VulnKey(env: Env, v: Vuln): Key {
    (NormalizePackage(env, v.name), NormalizeAdvisory(env, v.advisory))
  }

  /** A high or critical vulnerability with a name. */
  predicate Counts(env: Env, v: Vuln) {
    var severity := NormalizeSeverity(env, v.severity);
    severity.Ok? && severity.value in HIGH_SEVERITIES && Truthy(v.name)
  }

  predicate HasAdvisory(env: Env, v: Vuln) {
    NormalizeAdvisory(env, v.advisory) != ""
  }

  predicate FitsSeverity(env: Env, entry: Entry, v: Vuln) {
    entry.severity == "" || Ok(entry.severity) == NormalizeSeverity(env, v.severity)
  }

  /** The loop's body for a vulnerability that counts and has an advisory. */
  function Judge(env: Env, entries: map<Key, Entry>, today: int, st: Findings, v: Vuln): Findings {
    var key := VulnKey(env, v);
    var seen := st.(seen := st.seen + {key});
    if key !in entries then seen.(missing := st.missing + [v])
    else
      var errors := if FitsSeverity(env, entries[key], v) then st.errors else st.errors + [SeverityMismatch(v)];
      seen.(errors := errors, expired := if entries[key].expires < today then st.expired + [v] else st.expired)
  }

  /** One round of the loop; `dedup` tells whether keys already seen are passed over. */
  function ScanStep(env: Env, entries: map<Key, Entry>, today: int, dedup: bool, st: Findings, v: Vuln)
    : Result<Findings>
  {
    if NormalizeSeverity(env, v.severity).Crash? then Crash
    else if !Counts(env, v) then Ok(st)
    else if !HasAdvisory(env, v) then Ok(st.(errors := st.errors + [NoAdvisory(v)]))
    else if dedup && VulnKey(env, v) in st.seen then Ok(st)
    else Ok(Judge(env, entries, today, st, v))
  }

  function Scanned(env: Env, entries: map<Key, Entry>, today: int, dedup: bool, vulns: seq<Vuln>): Result<Findings> {
    if vulns == [] then Ok(Findings([], [], [], {}))
    else
      var front := Scanned(env, entries, today, dedup, vulns[..|vulns| - 1]);
      if front.Crash? then Crash else ScanStep(env, entries, today, dedup, front.value, vulns[|vulns| - 1])
  }

  predicate Clean(st: Findings) {
    st.errors == [] && st.missing == [] && st.expired == []
  }

  /** There is an exception for the vulnerability that fits and has not expired. */
  predicate Covered(env: Env, entries: map<Key, Entry>, today: int, v: Vuln) {
    var key := VulnKey(env, v);
    key in entries && FitsSeverity(env, entries[key], v) && entries[key].expires >= today
  }

  /** The vulnerability has a key that counts. */
  predicate Keyed(env: Env, v: Vuln) {
    Counts(env, v) && HasAdvisory(env, v)
  }

  /** No earlier vulnerability has the same key. */
  ghost predicate First(env: Env, vulns: seq<Vuln>, i: nat)
    requires i < |vulns|
  {
    forall k | 0 <= k < i :: Keyed(env, vulns[k]) ==> VulnKey(env, vulns[k]) != VulnKey(env, vulns[i])
  }

  ghost predicate Fine(env: Env, entries: map<Key, Entry>, today: int, dedup: bool, vulns: seq<Vuln>, i: nat)
    requires i < |vulns|
  {
    && NormalizeSeverity(env, vulns[i].severity).Ok?
    && (Counts(env, vulns[i]) ==>
          && HasAdvisory(env, vulns[i])
          && ((dedup ==> First(env, vulns, i)) ==> Covered(env, entries, today, vulns[i])))
  }

  /** All vulnerabilities that count are named, and covered where their key first occurs. */
  ghost predicate GoodVulns(env: Env, entries: map<Key, Entry>, today: int, dedup: bool, vulns: seq<Vuln>) {
    forall i {:trigger Fine(env, entries, today, dedup, vulns, i)} | 0 <= i < |vulns| ::
      Fine(env, entries, today, dedup, vulns, i)
  }

  ghost predicate SeenAre(env: Env, vulns: seq<Vuln>, seen: set<Key>) {
    forall key :: key in seen <==> exists i :: 0 <= i < |vulns| && Keyed(env, vulns[i]) && VulnKey(env, vulns[i]) == key
  }

  lemma FineFront(env: Env, entries: map<Key, Entry>, today: int, dedup: bool, front: seq<Vuln>, last: Vuln)
    ensures GoodVulns(env, entries, today, dedup, front + [last]) <==>
            GoodVulns(env, entries, today, dedup, front) && Fine(env, entries, today, dedup, front + [last], |front|)
  {
    var vulns := front + [last];
    forall i | 0 <= i < |front|
      ensures Fine(env, entries, today, dedup, front, i) <==> Fine(env, entries, today, dedup, vulns, i)
    {
      assert vulns[i] == front[i];
      assert forall k | 0 <= k < i :: vulns[k] == front[k];
    }
    forall i | 0 <= i < |vulns| && GoodVulns(env, entries, today, dedup, front) &&
               Fine(env, entries, today, dedup, vulns, |front|)
      ensures Fine(env, entries, today, dedup, vulns, i)
    {
      if i < |front| {
        assert Fine(env, entries, today, dedup, front, i);
      }
    }
  }

  lemma SeenFront(env: Env, front: seq<Vuln>, last: Vuln, seen: set<Key>)
    requires SeenAre(env, front, seen)
    ensures SeenAre(env, front + [last], if Keyed(env, last) then seen + {VulnKey(env, last)} else seen)
    ensures First(env, front + [last], |front|) <==> VulnKey(env, last) !in seen
  {
    var vulns := front + [last];
    assert forall i | 0 <= i < |front| :: vulns[i] == front[i];
    assert vulns[|front|] == last;
    if VulnKey(env, last) in seen {
      var i :| 0 <= i < |front| && Keyed(env, front[i]) && VulnKey(env, front[i]) == VulnKey(env, last);
      assert Keyed(env, vulns[i]);
    }
    var now := if Keyed(env, last) then seen + {VulnKey(env, last)} else seen;
    forall key
      ensures key in now <==> exists i :: 0 <= i < |vulns| && Keyed(env, vulns[i]) && VulnKey(env, vulns[i]) == key
    {
      if key in seen {
        var i :| 0 <= i < |front| && Keyed(env, front[i]) && VulnKey(env, front[i]) == key;
        assert Keyed(env, vulns[i]);
      }
      if i :| 0 <= i < |vulns| && Keyed(env, vulns[i]) && VulnKey(env, vulns[i]) == key {
        assert i < |front| ==> Keyed(env, front[i]);
      }
    }
  }

  /** The second loop finds nothing to complain about exactly in good vulnerabilities. */
  lemma {:induction false} ScannedExactly(env: Env, entries: map<Key, Entry>, today: int, dedup: bool, vulns: seq<Vuln>)
    ensures var r := Scanned(env, entries, today, dedup, vulns);
            && (r.Ok? && Clean(r.value) <==> GoodVulns(env, entries, today, dedup, vulns))
            && (r.Ok? ==> SeenAre(env, vulns, r.value.seen))
  {
    if vulns != [] {
      var front, last := vulns[..|vulns| - 1], vulns[|vulns| - 1];
      assert vulns == front + [last];
      ScannedExactly(env, entries, today, dedup, front);
      FineFront(env, entries, today, dedup, front, last);
      var r := Scanned(env, entries, today, dedup, front);
      if r.Ok? {
        SeenFront(env, front, last, r.value.seen);
        ScanStepFine(env, entries, today, dedup, front, last, r.value);
      }
    }
  }

  lemma ScanStepFine(env: Env, entries: map<Key, Entry>, today: int, dedup: bool, front: seq<Vuln>, last: Vuln,
                     st: Findings)
    requires First(env, front + [last], |front|) <==> VulnKey(env, last) !in st.seen
    ensures var r := ScanStep(env, entries, today, dedup, st, last);
            && (r.Ok? && Clean(r.value) <==> Clean(st) && Fine(env, entries, today, dedup, front + [last], |front|))
            && (r.Ok? ==> r.value.seen == if Keyed(env, last) then st.seen + {VulnKey(env, last)} else st.seen)
  {
    assert (front + [last])[|front|] == last;
  }

  lemma {:induction false} ScanCrashStays(env: Env, entries: map<Key, Entry>, today: int, vulns: seq<Vuln>, n: nat)
    requires n <= |vulns| && Scanned(env, entries, today, true, vulns[..n]).Crash?
    ensures Scanned(env, entries, today, true, vulns).Crash?
    decreases |vulns| - n
  {
    if n < |vulns| {
      assert vulns[..n + 1][..n] == vulns[..n];
      ScanCrashStays(env, entries, today, vulns, n + 1);
    } else {
      assert vulns[..n] == vulns;
    }
  }

  method ScanVulns(env: Env, entries: map<Key, Entry>, today: int, vulns: seq<Vuln>) returns (r: Result<Findings>)
    ensures r == Scanned(env, entries, today, true, vulns)
  {
    var errors, missing, expired, seen: set<Key> := [], [], [], {};
    for i := 0 to |vulns|
      invariant Scanned(env, entries, today, true, vulns[..i]) == Ok(Findings(errors, missing, expired, seen))
    {
      assert vulns[..i + 1][..i] == vulns[..i];
      var v := vulns[i];
      var severity := NormalizeSeverity(env, v.severity);
      if severity == Crash {
        ScanCrashStays(env, entries, today, vulns, i + 1);
        return Crash;
      }
      if severity.value !in HIGH_SEVERITIES || !Truthy(v.name) {
        continue;
      }
      var advisory := NormalizeAdvisory(env, v.advisory);
      if advisory == "" {
        errors := errors + [NoAdvisory(v)];
        continue;
      }
      var key := (NormalizePackage(env, v.name), advisory);
      if key in seen {
        continue;
      }
      seen := seen + {key};
      if key !in entries {
        missing := missing + [v];
        continue;
      }
      var exc := entries[key];
      if exc.severity != "" && exc.severity != severity.value {
        errors := errors + [SeverityMismatch(v)];
      }
      if exc.expires < today {
        expired := expired + [v];
      }
    }
    assert vulns[..|vulns|] == vulns;
    r := Ok(Findings(errors, missing, expired, seen));
  }

  // ---------- The gate ----------

  ghost predicate ListedAt(env: Env, excs: seq<Record>, today: int, v: Vuln, j: nat)
    requires j < |excs|
  {
    && Usable(env, excs[j]) && ExceptionKey(env, excs[j]) == VulnKey(env, v)
    && FitsSeverity(env, EntryOf(env, excs[j]), v) && today <= EntryOf(env, excs[j]).expires
  }

  /** A listed exception has the vulnerability's key, fits its severity, and has not expired. */
  ghost predicate Listed(env: Env, excs: seq<Record>, today: int, v: Vuln) {
    exists j :: 0 <= j < |excs| && ListedAt(env, excs, today, v, j)
  }

  /** What the gate demands of the `i`-th vulnerability. */
  ghost predicate Excused(env: Env, excs: seq<Record>, today: int, vulns: seq<Vuln>, i: nat)
    requires i < |vulns|
  {
    && NormalizeSeverity(env, vulns[i].severity).Ok?
    && (Counts(env, vulns[i]) ==>
          HasAdvisory(env, vulns[i]) && (First(env, vulns, i) ==> Listed(env, excs, today, vulns[i])))
  }

  ghost predicate Passes(env: Env, excs: seq<Record>, today: int, vulns: seq<Vuln>) {
    && GoodExceptions(env, excs)
    && forall i {:trigger Excused(env, excs, today, vulns, i)} | 0 <= i < |vulns| :: Excused(env, excs, today, vulns, i)
  }

  ghost predicate GatePasses(env: Env, audit: Json, lines: seq<string>, today: int) {
    && Records(lines).Ok? && Vulns(env, audit).Ok?
    && Passes(env, Records(lines).value, today, Vulns(env, audit).value)
  }

  lemma CoveredIsListed(env: Env, excs: seq<Record>, entries: map<Key, Entry>, today: int, v: Vuln)
    requires GoodExceptions(env, excs) && IndexHolds(env, excs, entries)
    ensures Covered(env, entries, today, v) <==> Listed(env, excs, today, v)
  {
    var key := VulnKey(env, v);
    if Covered(env, entries, today, v) {
      var i :| 0 <= i < |excs| && IsEntryKey(env, excs, i, key);
      assert HasEntry(env, excs[i], entries);
      assert ListedAt(env, excs, today, v, i);
    }
    if Listed(env, excs, today, v) {
      var j :| 0 <= j < |excs| && ListedAt(env, excs, today, v, j);
      assert Fresh(env, excs, j) && HasEntry(env, excs[j], entries);
    }
  }

  lemma GoodIsPassing(env: Env, excs: seq<Record>, entries: map<Key, Entry>, today: int, vulns: seq<Vuln>)
    requires GoodExceptions(env, excs) && IndexHolds(env, excs, entries)
    ensures GoodVulns(env, entries, today, true, vulns) <==> Passes(env, excs, today, vulns)
  {
    forall i | 0 <= i < |vulns|
      ensures Fine(env, entries, today, true, vulns, i) <==> Excused(env, excs, today, vulns, i)
    {
      CoveredIsListed(env, excs, entries, today, vulns[i]);
    }
    if Passes(env, excs, today, vulns) {
      forall i | 0 <= i < |vulns| ensures Fine(env, entries, today, true, vulns, i) {
        assert Excused(env, excs, today, vulns, i);
      }
    }
  }

  /** Neither loop complains; `dedup` tells whether the second passes over keys already seen. */
  predicate LoopsPass(env: Env, excs: seq<Record>, today: int, dedup: bool, vulns: seq<Vuln>) {
    var index := Indexed(env, excs);
    var r := Scanned(env, index.entries, today, dedup, vulns);
    index.errors == [] && r.Ok? && Clean(r.value)
  }

  lemma VerdictIsPassing(env: Env, excs: seq<Record>, today: int, vulns: seq<Vuln>)
    ensures LoopsPass(env, excs, today, true, vulns) <==> Passes(env, excs, today, vulns)
  {
    var entries := Indexed(env, excs).entries;
    IndexedExactly(env, excs);
    ScannedExactly(env, entries, today, true, vulns);
    if GoodExceptions(env, excs) {
      GoodIsPassing(env, excs, entries, today, vulns);
    }
  }

  /** The exit code of the tool; an uncaught exception exits with 1 too. */
  method Run(env: Env, audit: Json, lines: seq<string>, today: int) returns (code: int)
    ensures code == if GatePasses(env, audit, lines, today) then 0 else 1
  {
    var excs := ParseExceptions(lines);
    if excs.Crash? {
      return 1;
    }
    var entries, errors := IndexExceptions(env, excs.value);
    var vulns := IterVulns(env, audit);
    if vulns.Crash? {
      return 1;
    }
    var findings := ScanVulns(env, entries, today, vulns.value);
    VerdictIsPassing(env, excs.value, today, vulns.value);
    if findings.Crash? {
      return 1;
    }
    if errors == [] && findings.value.errors == [] && findings.value.missing == [] && findings.value.expired == [] {
      return 0;
    }
    code := 1;
  }
}
