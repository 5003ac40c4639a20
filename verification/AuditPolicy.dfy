/** What the gate reads and demands, stated of the report and of the exception records themselves:
    by the keys and words they contain, and without the functions that the gate is built from. */
module AuditPolicy {
  import opened Wrappers
  import opened AuditParser
  import opened AuditGate
  import opened AuditVerdict
  import opened AuditResults

  // ---------- Reading an object ----------

  /** What Python counts as false. */
  predicate Empty(j: Json) {
    j == Null || j == Bool(false) || j == Num(0.0) || j == Str("") || j == List([]) || j == Obj([])
  }

  lemma TruthyExactly(j: Json)
    ensures Truthy(j) <==> !Empty(j)
  {
  }

  /** The object has the value under the key, which is null if the key is missing. */
  ghost predicate Maps(fields: seq<(string, Json)>, key: string, v: Json) {
    || (v == Null && forall i | 0 <= i < |fields| :: fields[i].0 != key)
    || exists i :: 0 <= i < |fields| && fields[i] == (key, v) && forall k | 0 <= k < i :: fields[k].0 != key
  }

  lemma {:induction false} GetIsThere(fields: seq<(string, Json)>, key: string, default: Json)
    ensures var v := AuditGate.GetOr(fields, key, default);
            || (v == default && forall i | 0 <= i < |fields| :: fields[i].0 != key)
            || exists i :: 0 <= i < |fields| && fields[i] == (key, v) && forall k | 0 <= k < i :: fields[k].0 != key
    decreases |fields|
  {
    var v := AuditGate.GetOr(fields, key, default);
    if fields != [] {
      if fields[0].0 == key {
        assert fields[0] == (key, v);
      } else {
        var rest := fields[1..];
        GetIsThere(rest, key, default);
        assert forall i | 1 <= i < |fields| :: fields[i] == rest[i - 1];
        if i :| 0 <= i < |rest| && rest[i] == (key, v) && forall k | 0 <= k < i :: rest[k].0 != key {
          assert fields[i + 1] == (key, v);
        }
      }
    }
  }

  lemma GetExactly(fields: seq<(string, Json)>, key: string, v: Json)
    ensures Maps(fields, key, v) <==> v == Get(fields, key)
  {
    GetIsThere(fields, key, Null);
  }

  /** Under this key the object has nothing, or something empty. */
  ghost predicate HasNone(fields: seq<(string, Json)>, key: string) {
    exists w :: Maps(fields, key, w) && Empty(w)
  }

  lemma NoneExactly(fields: seq<(string, Json)>, key: string)
    ensures HasNone(fields, key) <==> Empty(Get(fields, key))
  {
    GetExactly(fields, key, Get(fields, key));
    if w :| Maps(fields, key, w) && Empty(w) {
      GetExactly(fields, key, w);
    }
  }

  /** The first value under these keys that is not empty. */
  ghost predicate FirstAmong(fields: seq<(string, Json)>, keys: seq<string>, v: Json) {
    !Empty(v) && exists k :: 0 <= k < |keys| && FirstAt(fields, keys, k, v)
  }

  ghost predicate FirstAt(fields: seq<(string, Json)>, keys: seq<string>, k: nat, v: Json)
    requires k < |keys|
  {
    Maps(fields, keys[k], v) && forall j | 0 <= j < k :: HasNone(fields, keys[j])
  }

  /** The value of a chain of Python's `or` over these keys. */
  function Chain(fields: seq<(string, Json)>, keys: seq<string>): Json
    requires keys != []
  {
    if |keys| == 1 then Get(fields, keys[0]) else Or(Get(fields, keys[0]), Chain(fields, keys[1..]))
  }

  lemma {:induction false} ChainIsFirst(fields: seq<(string, Json)>, keys: seq<string>, v: Json)
    requires keys != []
    ensures FirstAmong(fields, keys, v) <==> !Empty(v) && v == Chain(fields, keys)
    ensures Empty(Chain(fields, keys)) <==> forall k | 0 <= k < |keys| :: HasNone(fields, keys[k])
    ensures Empty(Chain(fields, keys)) ==> Chain(fields, keys) == Get(fields, keys[|keys| - 1])
    decreases |keys|
  {
    NoneExactly(fields, keys[0]);
    GetExactly(fields, keys[0], v);
    TruthyExactly(Get(fields, keys[0]));
    if |keys| > 1 {
      ChainIsFirst(fields, keys[1..], v);
      assert forall k | 1 <= k < |keys| :: keys[k] == keys[1..][k - 1];
      FirstAmongRest(fields, keys, v);
    } else {
      assert Maps(fields, keys[0], v) ==> FirstAt(fields, keys, 0, v);
    }
  }

  lemma FirstAmongRest(fields: seq<(string, Json)>, keys: seq<string>, v: Json)
    requires |keys| > 1
    ensures FirstAmong(fields, keys, v) <==>
            if HasNone(fields, keys[0]) then FirstAmong(fields, keys[1..], v) else Maps(fields, keys[0], v)
  {
    NoneExactly(fields, keys[0]);
    GetExactly(fields, keys[0], v);
    TruthyExactly(v);
    if FirstAmong(fields, keys, v) {
      var k :| 0 <= k < |keys| && FirstAt(fields, keys, k, v);
      if HasNone(fields, keys[0]) {
        FirstAtRest(fields, keys, k, v);
        assert FirstAt(fields, keys[1..], k - 1, v);
      }
    } else if HasNone(fields, keys[0]) {
      if FirstAmong(fields, keys[1..], v) {
        var k :| 0 <= k < |keys[1..]| && FirstAt(fields, keys[1..], k, v);
        FirstAtRest(fields, keys, k + 1, v);
      }
    } else {
      assert Maps(fields, keys[0], v) ==> FirstAt(fields, keys, 0, v);
    }
  }

  lemma FirstAtRest(fields: seq<(string, Json)>, keys: seq<string>, k: nat, v: Json)
    requires k < |keys| && HasNone(fields, keys[0]) && !Empty(v)
    ensures FirstAt(fields, keys, k, v) <==> k > 0 && FirstAt(fields, keys[1..], k - 1, v)
  {
    var rest := keys[1..];
    assert forall j | 1 <= j < |keys| :: keys[j] == rest[j - 1];
    NoneExactly(fields, keys[0]);
    GetExactly(fields, keys[0], v);
    if k > 0 && FirstAt(fields, rest, k - 1, v) {
      forall j | 0 <= j < k ensures HasNone(fields, keys[j]) {
        assert j > 0 ==> HasNone(fields, rest[j - 1]);
      }
    }
    if FirstAt(fields, keys, k, v) {
      forall j | 0 <= j < k - 1 ensures HasNone(fields, rest[j]) {
        assert HasNone(fields, keys[j + 1]);
      }
    }
  }

  // ---------- Entries under `vulnerabilities` ----------

  /** A cause is a text, or an object with an identifier in one of five places. */
  ghost predicate NamesCause(item: Json, id: Json) {
    || (item.Str? && item.s != "" && id == item)
    || (item.Obj? && FirstAmong(item.fields, ["github_advisory_id", "url", "source", "title", "name"], id))
  }

  ghost predicate NamesTitle(item: Json, title: Json) {
    || (item.Str? && item.s != "" && title == item)
    || (item.Obj? && FirstAmong(item.fields, ["title", "url", "advisory", "source"], title))
  }

  lemma CauseIsIdentified(item: Json, id: Json)
    ensures NamesCause(item, id) <==> Identifies(item, id)
  {
    TruthyExactly(ViaAdvisory(item));
    if item.Obj? {
      ChainIsFirst(item.fields, ["github_advisory_id", "url", "source", "title", "name"], id);
      ChainOfFive(item.fields, "github_advisory_id", "url", "source", "title", "name");
    }
  }

  lemma ChainOfFive(fields: seq<(string, Json)>, a: string, b: string, c: string, d: string, e: string)
    ensures Chain(fields, [a, b, c, d, e]) ==
            Or(Get(fields, a), Or(Get(fields, b), Or(Get(fields, c), Or(Get(fields, d), Get(fields, e)))))
  {
    ChainOfFour(fields, b, c, d, e);
    assert [a, b, c, d, e][1..] == [b, c, d, e];
  }

  lemma ChainOfFour(fields: seq<(string, Json)>, a: string, b: string, c: string, d: string)
    ensures Chain(fields, [a, b, c, d]) ==
            Or(Get(fields, a), Or(Get(fields, b), Or(Get(fields, c), Get(fields, d))))
  {
    ChainOfThree(fields, b, c, d);
    assert [a, b, c, d][1..] == [b, c, d];
  }

  lemma ChainOfThree(fields: seq<(string, Json)>, a: string, b: string, c: string)
    ensures Chain(fields, [a, b, c]) == Or(Get(fields, a), Or(Get(fields, b), Get(fields, c)))
  {
    ChainOfTwo(fields, b, c);
    assert [a, b, c][1..] == [b, c];
  }

  lemma ChainOfTwo(fields: seq<(string, Json)>, a: string, b: string)
    ensures Chain(fields, [a, b]) == Or(Get(fields, a), Get(fields, b))
  {
    assert [a, b][1..] == [b];
  }

  lemma TitleIsNamed(item: Json, title: Json)
    ensures NamesTitle(item, title) <==> Relevant(item) && Truthy(ViaTitle(item)) && ViaTitle(item) == title
  {
    TruthyExactly(ViaTitle(item));
    if item.Obj? {
      ChainIsFirst(item.fields, ["title", "url", "advisory", "source"], title);
      ChainOfFour(item.fields, "title", "url", "advisory", "source");
    }
  }

  /** The causes of an entry: a list, a single text, or nothing that is either. */
  ghost predicate Causes(fields: seq<(string, Json)>, items: seq<Json>) {
    || Maps(fields, "via", List(items))
    || (exists s :: Maps(fields, "via", Str(s)) && items == [Str(s)])
    || (items == [] && exists v :: Maps(fields, "via", v) && !v.List? && !v.Str?)
  }

  lemma CausesAre(fields: seq<(string, Json)>, items: seq<Json>)
    requires Causes(fields, items)
    ensures ViaItems(AuditGate.GetOr(fields, "via", List([]))) == items
  {
    GetIsThere(fields, "via", List([]));
    GetIsThere(fields, "via", Null);
    if Maps(fields, "via", List(items)) {
      GetExactly(fields, "via", List(items));
    } else if s :| Maps(fields, "via", Str(s)) && items == [Str(s)] {
      GetExactly(fields, "via", Str(s));
    } else {
      var v :| Maps(fields, "via", v) && !v.List? && !v.Str?;
      GetExactly(fields, "via", v);
    }
  }

  /** The titles of the causes that have one, in order. */
  ghost predicate TitlesOf(items: seq<Json>, titles: seq<Json>)
    decreases |items|
  {
    if items == [] then titles == []
    else if exists t :: NamesTitle(items[0], t)
    then titles != [] && NamesTitle(items[0], titles[0]) && TitlesOf(items[1..], titles[1..])
    else TitlesOf(items[1..], titles)
  }

  /** The texts with a semicolon between any two. */
  function Listed(texts: seq<Json>): string
    requires forall t | t in texts :: t.Str?
    decreases |texts|
  {
    if texts == [] then "" else if |texts| == 1 then texts[0].s else texts[0].s + "; " + Listed(texts[1..])
  }

  lemma {:induction false} TitlesConcat(items: seq<Json>, more: seq<Json>)
    ensures Titles(items + more) == Titles(items) + Titles(more)
  {
    if more == [] {
      assert items + more == items;
    } else {
      TitlesConcat(items, more[..|more| - 1]);
      assert (items + more)[..|items + more| - 1] == items + more[..|more| - 1];
    }
  }

  lemma {:induction false} TitlesExactly(items: seq<Json>, titles: seq<Json>)
    ensures TitlesOf(items, titles) <==> titles == Titles(items)
    decreases |items|
  {
    if items != [] {
      var first, rest := items[0], items[1..];
      assert items == [first] + rest && [first][..0] == [];
      TitlesConcat([first], rest);
      TitleIsNamed(first, ViaTitle(first));
      if t :| NamesTitle(first, t) {
        TitleIsNamed(first, t);
        assert Titles([first]) == [t];
        if titles != [] {
          TitleIsNamed(first, titles[0]);
          TitlesExactly(rest, titles[1..]);
          assert titles == [titles[0]] + titles[1..];
        }
      } else {
        assert Titles([first]) == [];
        TitlesExactly(rest, titles);
      }
    }
  }

  lemma {:induction false} JoinExactly(texts: seq<Json>)
    ensures Join(texts).Crash? <==> exists t :: t in texts && !t.Str?
    ensures Join(texts).Ok? ==> Join(texts).value == Listed(texts)
  {
    if texts != [] {
      var front, last := texts[..|texts| - 1], texts[|texts| - 1];
      JoinExactly(front);
      assert texts == front + [last];
      if last.Str? && front != [] && Join(front).Ok? {
        ListedSnoc(front, last);
      }
    }
  }

  lemma {:induction false} ListedSnoc(texts: seq<Json>, last: Json)
    requires texts != [] && last.Str? && forall t | t in texts :: t.Str?
    ensures Listed(texts + [last]) == Listed(texts) + "; " + last.s
    decreases |texts|
  {
    assert (texts + [last])[1..] == texts[1..] + [last];
    if |texts| > 1 {
      ListedSnoc(texts[1..], last);
    }
  }

  /** The causes that have an identifier. */
  ghost function Identified(items: seq<Json>): set<int> {
    set i | 0 <= i < |items| && exists id :: NamesCause(items[i], id)
  }

  lemma {:induction false} OnePerCause(items: seq<Json>)
    ensures |Advisories(items)| == |Identified(items)|
  {
    if items != [] {
      var n := |items| - 1;
      var front := items[..n];
      OnePerCause(front);
      CauseIsIdentified(items[n], ViaAdvisory(items[n]));
      assert Identified(items) - {n} == Identified(front);
      if id :| NamesCause(items[n], id) {
        CauseIsIdentified(items[n], id);
        assert Identified(items) == Identified(front) + {n};
      } else {
        assert Identified(items) == Identified(front);
      }
    }
  }

  /** An entry yields one vulnerability for each cause with an identifier, and nothing else. It
      crashes exactly if one of its titles is no text. */
  lemma EntryExactly(name: string, fields: seq<(string, Json)>, items: seq<Json>, titles: seq<Json>)
    requires Causes(fields, items) && TitlesOf(items, titles)
    ensures var r := EntryVulns(name, Obj(fields));
            && (r.Crash? <==> exists t :: t in titles && !t.Str?)
            && (r.Ok? ==> |r.value| == |Identified(items)|)
            && (r.Ok? ==> forall v ::
                  v in r.value <==>
                  && v.name == Str(name) && Maps(fields, "severity", v.severity) && v.title == Str(Listed(titles))
                  && exists i :: 0 <= i < |items| && NamesCause(items[i], v.advisory))
  {
    var vuln := Obj(fields);
    CausesAre(fields, items);
    TitlesExactly(items, titles);
    JoinExactly(titles);
    OnePerCause(items);
    var r := EntryVulns(name, vuln);
    if r.Ok? {
      forall v ensures v in r.value <==>
                       && v.name == Str(name) && Maps(fields, "severity", v.severity)
                       && v.title == Str(Listed(titles))
                       && exists i :: 0 <= i < |items| && NamesCause(items[i], v.advisory)
      {
        EntryIsExact(name, vuln, v);
        GetExactly(fields, "severity", v.severity);
        forall i | 0 <= i < |items| ensures NamesCause(items[i], v.advisory) <==> Identifies(items[i], v.advisory) {
          CauseIsIdentified(items[i], v.advisory);
        }
      }
    }
  }

  // ---------- Entries under `advisories` ----------

  /** The value of the first of these keys that is not empty, or else that of the last key. */
  ghost predicate FirstOrLast(fields: seq<(string, Json)>, keys: seq<string>, v: Json)
    requires keys != []
  {
    || FirstAmong(fields, keys, v)
    || ((forall k | 0 <= k < |keys| :: HasNone(fields, keys[k])) && Maps(fields, keys[|keys| - 1], v))
  }

  lemma ChainExactly(fields: seq<(string, Json)>, keys: seq<string>, v: Json)
    requires keys != []
    ensures FirstOrLast(fields, keys, v) <==> v == Chain(fields, keys)
  {
    ChainIsFirst(fields, keys, v);
    GetExactly(fields, keys[|keys| - 1], v);
    if FirstAmong(fields, keys, v) {
      var k :| 0 <= k < |keys| && FirstAt(fields, keys, k, v);
    }
  }

  /** The first of the advisory's CVEs, or null if it lists none. */
  ghost predicate FirstOfCves(a: seq<(string, Json)>, v: Json) {
    exists cves :: Maps(a, "cves", cves) &&
                   if Empty(cves) then v == Null
                   else (cves.List? && v == cves.items[0]) || (cves.Str? && v == Str([cves.s[0]]))
  }

  /** The advisory's number as a text, or null if it has none. */
  ghost predicate NumberText(env: Env, a: seq<(string, Json)>, v: Json) {
    exists id :: Maps(a, "id", id) && v == match id
                                           case Null => Null
                                           case Str(s) => id
                                           case _ => Str(env.render(id))
  }

  /** What an advisory is identified by: a stable identifier, else its first CVE, else its number,
      else one of its texts. */
  ghost predicate IdentifiedBy(env: Env, a: seq<(string, Json)>, v: Json) {
    || FirstAmong(a, ["github_advisory_id", "url"], v)
    || (&& HasNone(a, "github_advisory_id") && HasNone(a, "url")
        && exists cve :: FirstOfCves(a, cve) &&
             if !Empty(cve) then v == cve
             else exists number :: NumberText(env, a, number) &&
                    if !Empty(number) then v == number else FirstOrLast(a, ["title", "advisory", "overview"], v))
  }

  lemma CvesExactly(a: seq<(string, Json)>, v: Json)
    ensures FirstOfCves(a, v) <==> FirstCve(Get(a, "cves")) == Ok(v)
  {
    var cves := Get(a, "cves");
    GetExactly(a, "cves", cves);
    TruthyExactly(cves);
    if FirstOfCves(a, v) {
      var c :| Maps(a, "cves", c) && if Empty(c) then v == Null
                                     else (c.List? && v == c.items[0]) || (c.Str? && v == Str([c.s[0]]));
      GetExactly(a, "cves", c);
    }
  }

  lemma NumberExactly(env: Env, a: seq<(string, Json)>, v: Json)
    ensures NumberText(env, a, v) <==> v == if Get(a, "id") != Null then Str(ToStr(env, Get(a, "id"))) else Null
  {
    var id := Get(a, "id");
    GetExactly(a, "id", id);
    if NumberText(env, a, v) {
      var j :| Maps(a, "id", j) && v == match j case Null => Null case Str(s) => j case _ => Str(env.render(j));
      GetExactly(a, "id", j);
    }
  }

  lemma PickExactly(env: Env, a: seq<(string, Json)>, v: Json)
    ensures IdentifiedBy(env, a, v) <==> PickAdvisoryId(env, a) == Ok(v)
  {
    ChainIsFirst(a, ["github_advisory_id", "url"], v);
    ChainOfTwo(a, "github_advisory_id", "url");
    NoneExactly(a, "github_advisory_id");
    NoneExactly(a, "url");
    TruthyExactly(Get(a, "github_advisory_id"));
    TruthyExactly(Get(a, "url"));
    LaterIdExactly(env, a, v);
  }

  /** The identifier if there is no stable one. */
  function LaterId(env: Env, a: seq<(string, Json)>): Result<Json> {
    var cve := FirstCve(Get(a, "cves"));
    if cve.Crash? || Truthy(cve.value) then cve
    else
      var id := if Get(a, "id") != Null then Str(ToStr(env, Get(a, "id"))) else Null;
      Ok(Or(id, Or(Get(a, "title"), Or(Get(a, "advisory"), Get(a, "overview")))))
  }

  lemma LaterIdExactly(env: Env, a: seq<(string, Json)>, v: Json)
    ensures LaterId(env, a) == Ok(v) <==>
            exists cve :: FirstOfCves(a, cve) &&
              if !Empty(cve) then v == cve
              else exists number :: NumberText(env, a, number) &&
                     if !Empty(number) then v == number else FirstOrLast(a, ["title", "advisory", "overview"], v)
  {
    var cve := FirstCve(Get(a, "cves"));
    var number := if Get(a, "id") != Null then Str(ToStr(env, Get(a, "id"))) else Null;
    ChainExactly(a, ["title", "advisory", "overview"], v);
    ChainOfThree(a, "title", "advisory", "overview");
    NumberExactly(env, a, number);
    TruthyExactly(number);
    if cve.Ok? {
      CvesExactly(a, cve.value);
      TruthyExactly(cve.value);
    }
    forall c | FirstOfCves(a, c) ensures cve == Ok(c) {
      CvesExactly(a, c);
    }
    forall n | NumberText(env, a, n) ensures n == number {
      NumberExactly(env, a, n);
    }
  }

  /** An advisory stands for the vulnerability with its module name, severity, identifier and
      title. */
  lemma AdvisoryExactly(env: Env, a: seq<(string, Json)>, v: Vuln)
    ensures AdvisoryVuln(env, Obj(a)) == Ok(v) <==>
            && FirstOrLast(a, ["module_name", "name"], v.name) && Maps(a, "severity", v.severity)
            && IdentifiedBy(env, a, v.advisory) && FirstOrLast(a, ["title", "advisory", "overview", "url"], v.title)
  {
    ChainExactly(a, ["module_name", "name"], v.name);
    ChainOfTwo(a, "module_name", "name");
    GetExactly(a, "severity", v.severity);
    PickExactly(env, a, v.advisory);
    ChainExactly(a, ["title", "advisory", "overview", "url"], v.title);
    ChainOfFour(a, "title", "advisory", "overview", "url");
  }

  // ---------- The report ----------

  /** The entries of a section, none if there is no such object. */
  ghost predicate HasSection(data: seq<(string, Json)>, key: string, entries: seq<(string, Json)>) {
    || Maps(data, key, Obj(entries))
    || (entries == [] && exists v :: Maps(data, key, v) && !v.Obj?)
  }

  lemma SectionExactly(data: seq<(string, Json)>, key: string, entries: seq<(string, Json)>)
    requires HasSection(data, key, entries)
    ensures Section(data, key) == entries
  {
    if Maps(data, key, Obj(entries)) {
      GetExactly(data, key, Obj(entries));
    } else {
      var v :| Maps(data, key, v) && !v.Obj?;
      GetExactly(data, key, v);
    }
  }

  ghost predicate EntryYields(entry: (string, Json), v: Vuln) {
    EntryVulns(entry.0, entry.1).Ok? && v in EntryVulns(entry.0, entry.1).value
  }

  ghost predicate OneYields(entries: seq<(string, Json)>, v: Vuln) {
    exists i :: 0 <= i < |entries| && EntryYields(entries[i], v)
  }

  lemma OneYieldsSnoc(entries: seq<(string, Json)>, last: (string, Json), v: Vuln)
    ensures OneYields(entries + [last], v) <==> OneYields(entries, v) || EntryYields(last, v)
  {
    var all := entries + [last];
    assert all[|entries|] == last && forall i | 0 <= i < |entries| :: all[i] == entries[i];
  }

  lemma {:induction false} EntryOfReport(entries: seq<(string, Json)>, v: Vuln)
    requires EntriesVulns(entries).Ok?
    ensures v in EntriesVulns(entries).value <==> OneYields(entries, v)
  {
    if entries != [] {
      var front, last := entries[..|entries| - 1], entries[|entries| - 1];
      assert entries == front + [last];
      EntriesSnoc(front, last);
      EntryOfReport(front, v);
      OneYieldsSnoc(front, last, v);
      BothIn(EntriesVulns(front), EntryVulns(last.0, last.1), v);
    }
  }

  lemma BothIn(a: Result<seq<Vuln>>, b: Result<seq<Vuln>>, v: Vuln)
    requires Both(a, b).Ok?
    ensures a.Ok? && b.Ok? && (v in Both(a, b).value <==> v in a.value || v in b.value)
  {
  }

  /** A report yields the vulnerabilities of both its sections, those of the advisories first. */
  lemma ReportExactly(env: Env, data: seq<(string, Json)>, advisories: seq<(string, Json)>,
                      entries: seq<(string, Json)>, v: Vuln)
    requires HasSection(data, "advisories", advisories) && HasSection(data, "vulnerabilities", entries)
    requires Vulns(env, Obj(data)).Ok?
    ensures var vulns := Vulns(env, Obj(data)).value;
            && |advisories| <= |vulns|
            && (forall i | 0 <= i < |advisories| :: AdvisoryVuln(env, advisories[i].1) == Ok(vulns[i]))
            && (v in vulns[|advisories|..] <==> OneYields(entries, v))
  {
    SectionExactly(data, "advisories", advisories);
    SectionExactly(data, "vulnerabilities", entries);
    AdvisoriesAreExact(env, advisories);
    EntryOfReport(entries, v);
    var first, second := AdvisoryVulns(env, advisories).value, EntriesVulns(entries).value;
    assert Vulns(env, Obj(data)).value[|advisories|..] == second;
  }

  // ---------- The policy ----------

  /** A word as it is compared: in lower case, without blanks around. */
  function Word(env: Env, s: string): string {
    env.lower(Strip(s))
  }

  /** A name or an identifier as a text without blanks around. */
  function Text(env: Env, j: Json): string {
    match j
    case Null => ""
    case Str(s) => Strip(s)
    case _ => Strip(env.render(j))
  }

  /** The identifier of a vulnerability as it is compared. */
  function Id(env: Env, v: Vuln): string {
    if v.advisory == Null then "" else env.lower(Text(env, v.advisory))
  }

  function SeverityWord(env: Env, v: Vuln): string {
    if v.severity.Str? then Word(env, v.severity.s) else Word(env, "")
  }

  /** The exception has all five fields, a real date, and neither a blank package nor a blank
      advisory. */
  ghost predicate InForm(env: Env, exc: Record) {
    && (forall key | key in {"package", "advisory", "severity", "mitigation", "expires_on"} ::
          key in exc && exc[key] != "")
    && env.parseDate(exc["expires_on"]).Some?
    && Strip(exc["package"]) != "" && Word(env, exc["advisory"]) != ""
  }

  /** The two are for the same package, written alike, and the same advisory. */
  ghost predicate SameSubject(env: Env, exc: Record, other: Record)
    requires InForm(env, exc) && InForm(env, other)
  {
    Strip(exc["package"]) == Strip(other["package"]) && Word(env, exc["advisory"]) == Word(env, other["advisory"])
  }

  /** The vulnerability has a name, and its severity is high or critical. */
  ghost predicate Grave(env: Env, v: Vuln) {
    && !Empty(v.name) && (Empty(v.severity) || v.severity.Str?)
    && SeverityWord(env, v) in {"high", "critical"}
  }

  /** The exception is for this package, in the same case, and this advisory, in whatever case; it
      is for this severity; and it has not expired. */
  ghost predicate Excuses(env: Env, exc: Record, today: int, v: Vuln)
    requires InForm(env, exc)
  {
    && Strip(exc["package"]) == Text(env, v.name) && Word(env, exc["advisory"]) == Id(env, v)
    && (Word(env, exc["severity"]) == "" || Word(env, exc["severity"]) == SeverityWord(env, v))
    && today <= env.parseDate(exc["expires_on"]).value
  }

  /** A grave vulnerability of the report comes earlier with the same name and identifier. */
  ghost predicate NamedBefore(env: Env, vulns: seq<Vuln>, i: nat)
    requires i < |vulns|
  {
    exists k :: 0 <= k < i && Grave(env, vulns[k]) && Id(env, vulns[k]) == Id(env, vulns[i]) != ""
                && Text(env, vulns[k].name) == Text(env, vulns[i].name)
  }

  /** The exceptions are in form and each for another subject; every severity is a text, or empty;
      and every grave vulnerability has an identifier and, where it is first named, an exception
      that excuses it. */
  ghost predicate Policy(env: Env, excs: seq<Record>, today: int, vulns: seq<Vuln>) {
    && (forall i | 0 <= i < |excs| :: InForm(env, excs[i]))
    && (forall i, j | 0 <= i < j < |excs| :: !SameSubject(env, excs[i], excs[j]))
    && (forall i | 0 <= i < |vulns| :: Empty(vulns[i].severity) || vulns[i].severity.Str?)
    && forall i | 0 <= i < |vulns| && Grave(env, vulns[i]) ::
         && Id(env, vulns[i]) != ""
         && (NamedBefore(env, vulns, i) || exists j :: 0 <= j < |excs| && Excuses(env, excs[j], today, vulns[i]))
  }

  lemma FormExactly(env: Env, exc: Record)
    ensures InForm(env, exc) <==> Usable(env, exc)
    ensures InForm(env, exc) ==> ExceptionKey(env, exc) == (Strip(exc["package"]), Word(env, exc["advisory"]))
  {
    if Usable(env, exc) {
      forall key | key in {"package", "advisory", "severity", "mitigation", "expires_on"}
        ensures key in exc && exc[key] != ""
      {
        assert AuditVerdict.Field(exc, key) != "";
      }
    }
  }

  lemma GraveExactly(env: Env, v: Vuln)
    ensures Grave(env, v) <==> Counts(env, v)
    ensures (Empty(v.severity) || v.severity.Str?) <==> NormalizeSeverity(env, v.severity).Ok?
    ensures Empty(v.severity) || v.severity.Str? ==> NormalizeSeverity(env, v.severity) == Ok(SeverityWord(env, v))
    ensures VulnKey(env, v) == (Text(env, v.name), Id(env, v))
  {
    TruthyExactly(v.name);
    TruthyExactly(v.severity);
  }

  lemma ExcusesExactly(env: Env, excs: seq<Record>, today: int, v: Vuln, j: nat)
    requires j < |excs| && InForm(env, excs[j]) && NormalizeSeverity(env, v.severity).Ok?
    ensures Excuses(env, excs[j], today, v) <==> ListedAt(env, excs, today, v, j)
  {
    FormExactly(env, excs[j]);
    GraveExactly(env, v);
  }

  lemma SubjectsExactly(env: Env, excs: seq<Record>)
    ensures GoodExceptions(env, excs) <==>
            && (forall i | 0 <= i < |excs| :: InForm(env, excs[i]))
            && (forall i, j | 0 <= i < j < |excs| :: !SameSubject(env, excs[i], excs[j]))
  {
    forall i | 0 <= i < |excs|
      ensures InForm(env, excs[i]) <==> Usable(env, excs[i])
      ensures InForm(env, excs[i]) ==>
                ExceptionKey(env, excs[i]) == (Strip(excs[i]["package"]), Word(env, excs[i]["advisory"]))
    {
      FormExactly(env, excs[i]);
    }
    if GoodExceptions(env, excs) {
      forall i | 0 <= i < |excs| ensures InForm(env, excs[i]) {
        assert Fresh(env, excs, i);
      }
      forall i, j | 0 <= i < j < |excs| ensures !SameSubject(env, excs[i], excs[j]) {
        assert Fresh(env, excs, j);
      }
    }
  }

  lemma NamedExactly(env: Env, vulns: seq<Vuln>, i: nat)
    requires i < |vulns| && Id(env, vulns[i]) != ""
    ensures NamedBefore(env, vulns, i) <==> !First(env, vulns, i)
  {
    GraveExactly(env, vulns[i]);
    forall k | 0 <= k < i
      ensures Keyed(env, vulns[k]) <==> Grave(env, vulns[k]) && Id(env, vulns[k]) != ""
      ensures VulnKey(env, vulns[k]) == (Text(env, vulns[k].name), Id(env, vulns[k]))
    {
      GraveExactly(env, vulns[k]);
    }
  }

  /** The gate passes exactly under the policy. */
  lemma PolicyExactly(env: Env, excs: seq<Record>, today: int, vulns: seq<Vuln>)
    ensures Passes(env, excs, today, vulns) <==> Policy(env, excs, today, vulns)
  {
    SubjectsExactly(env, excs);
    if GoodExceptions(env, excs) {
      forall i | 0 <= i < |vulns|
        ensures Excused(env, excs, today, vulns, i) <==>
                && (Empty(vulns[i].severity) || vulns[i].severity.Str?)
                && (Grave(env, vulns[i]) ==>
                      && Id(env, vulns[i]) != ""
                      && (|| NamedBefore(env, vulns, i)
                          || exists j :: 0 <= j < |excs| && Excuses(env, excs[j], today, vulns[i])))
      {
        DemandExactly(env, excs, today, vulns, i);
      }
    }
  }

  lemma DemandExactly(env: Env, excs: seq<Record>, today: int, vulns: seq<Vuln>, i: nat)
    requires i < |vulns| && forall j | 0 <= j < |excs| :: InForm(env, excs[j])
    ensures Excused(env, excs, today, vulns, i) <==>
            && (Empty(vulns[i].severity) || vulns[i].severity.Str?)
            && (Grave(env, vulns[i]) ==>
                  && Id(env, vulns[i]) != ""
                  && (|| NamedBefore(env, vulns, i)
                      || exists j :: 0 <= j < |excs| && Excuses(env, excs[j], today, vulns[i])))
  {
    var v := vulns[i];
    GraveExactly(env, v);
    assert HasAdvisory(env, v) <==> Id(env, v) != "";
    if NormalizeSeverity(env, v.severity).Ok? && Id(env, v) != "" {
      NamedExactly(env, vulns, i);
      forall j | 0 <= j < |excs| ensures Excuses(env, excs[j], today, v) <==> ListedAt(env, excs, today, v, j) {
        ExcusesExactly(env, excs, today, v, j);
      }
    }
  }

  /** The exit code is 0 exactly if the file and the report can be read and the policy holds. */
  lemma GateExactly(env: Env, audit: Json, lines: seq<string>, today: int)
    ensures GatePasses(env, audit, lines, today) <==>
            && Records(lines).Ok? && Vulns(env, audit).Ok?
            && Policy(env, Records(lines).value, today, Vulns(env, audit).value)
  {
    if Records(lines).Ok? && Vulns(env, audit).Ok? {
      PolicyExactly(env, Records(lines).value, today, Vulns(env, audit).value);
    }
  }

  /** The vulnerability that an entry yields for one of its causes is in the report. */
  lemma EntryIsReported(env: Env, data: seq<(string, Json)>, entries: seq<(string, Json)>, i: nat,
                        fields: seq<(string, Json)>, items: seq<Json>, id: Json)
    returns (v: Vuln)
    requires HasSection(data, "vulnerabilities", entries) && i < |entries| && entries[i].1 == Obj(fields)
    requires Causes(fields, items) && (exists k :: 0 <= k < |items| && NamesCause(items[k], id))
    requires Vulns(env, Obj(data)).Ok?
    ensures v in Vulns(env, Obj(data)).value && v.name == Str(entries[i].0) && v.advisory == id
    ensures Maps(fields, "severity", v.severity)
  {
    var titles := Titles(items);
    TitlesExactly(items, titles);
    SectionExactly(data, "vulnerabilities", entries);
    EntryIsRead(entries, i);
    EntryExactly(entries[i].0, fields, items, titles);
    GetExactly(fields, "severity", Get(fields, "severity"));
    v := Vuln(Str(entries[i].0), Get(fields, "severity"), id, Str(Listed(titles)));
    assert EntryYields(entries[i], v);
    EntryOfReport(entries, v);
    BothIn(AdvisoryVulns(env, Section(data, "advisories")), EntriesVulns(entries), v);
  }

  lemma {:induction false} EntryIsRead(entries: seq<(string, Json)>, i: nat)
    requires EntriesVulns(entries).Ok? && i < |entries|
    ensures EntryVulns(entries[i].0, entries[i].1).Ok?
  {
    if i < |entries| - 1 {
      EntryIsRead(entries[..|entries| - 1], i);
    }
  }

  lemma {:induction false} NeverExcused(env: Env, excs: seq<Record>, today: int, vulns: seq<Vuln>, i: nat)
    requires i < |vulns| && Grave(env, vulns[i])
    requires forall exc | exc in excs && InForm(env, exc) ::
               Strip(exc["package"]) != Text(env, vulns[i].name) || Word(env, exc["advisory"]) != Id(env, vulns[i])
    ensures !Policy(env, excs, today, vulns)
    decreases i
  {
    if Policy(env, excs, today, vulns) && NamedBefore(env, vulns, i) {
      var k :| 0 <= k < i && Grave(env, vulns[k]) && Id(env, vulns[k]) == Id(env, vulns[i]) != ""
               && Text(env, vulns[k].name) == Text(env, vulns[i].name);
      NeverExcused(env, excs, today, vulns, k);
    }
  }

  /** A high or critical entry with an identified cause fails the gate if no exception is for its
      name and that identifier. */
  lemma UnlistedEntryFails(env: Env, data: seq<(string, Json)>, lines: seq<string>, today: int,
                           entries: seq<(string, Json)>, i: nat, fields: seq<(string, Json)>, severity: string,
                           items: seq<Json>, id: Json)
    requires HasSection(data, "vulnerabilities", entries) && i < |entries| && entries[i].1 == Obj(fields)
    requires entries[i].0 != ""
    requires Maps(fields, "severity", Str(severity)) && severity != "" && Word(env, severity) in {"high", "critical"}
    requires Causes(fields, items) && (exists k :: 0 <= k < |items| && NamesCause(items[k], id))
    requires Records(lines).Ok? ==>
               forall exc | exc in Records(lines).value && InForm(env, exc) ::
                 Strip(exc["package"]) != Strip(entries[i].0) || Word(env, exc["advisory"]) != env.lower(Text(env, id))
    ensures !GatePasses(env, Obj(data), lines, today)
  {
    var r := Vulns(env, Obj(data));
    if Records(lines).Ok? && r.Ok? {
      var v := EntryIsReported(env, data, entries, i, fields, items, id);
      GetExactly(fields, "severity", Str(severity));
      GetExactly(fields, "severity", v.severity);
      var j :| 0 <= j < |r.value| && r.value[j] == v;
      NeverExcused(env, Records(lines).value, today, r.value, j);
      PolicyExactly(env, Records(lines).value, today, r.value);
    }
  }
}
