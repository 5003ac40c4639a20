/** The gate that a dependency audit has to pass: every high or critical vulnerability needs a
    listed exception that fits and has not expired. */
module AuditGate {
  import opened Wrappers
  import opened AuditParser

  // ---------- Values ----------

  /** What `json.load` returns; an object's keys are distinct and in the order of the file. */
  datatype Json =
    | Null | Bool(b: bool) | Num(r: real) | Str(s: string)
    | List(items: seq<Json>) | Obj(fields: seq<(string, Json)>)

  /** What the gate does not compute itself: lower case, how a value that is no string prints, and
      the ISO dates, as day numbers. */
  datatype Env = Env(lower: string -> string, render: Json -> string, parseDate: string -> Option<int>)

  predicate Truthy(j: Json) {
    match j
    case Null => false
    case Bool(b) => b
    case Num(r) => r != 0.0
    case Str(s) => s != ""
    case List(items) => items != []
    case Obj(fields) => fields != []
  }

  function Or(a: Json, b: Json): Json {
    if Truthy(a) then a else b
  }

  /** `get` of an object: null for a missing key, or the given default. */
  function GetOr(fields: seq<(string, Json)>, key: string, default: Json): Json {
    if fields == [] then default else if fields[0].0 == key then fields[0].1 else GetOr(fields[1..], key, default)
  }

  function Get(fields: seq<(string, Json)>, key: string): Json {
    GetOr(fields, key, Null)
  }

  function ToStr(env: Env, j: Json): string {
    if j.Str? then j.s else env.render(j)
  }

  // ---------- The vulnerabilities of an audit ----------

  datatype Vuln = Vuln(name: Json, severity: Json, advisory: Json, title: Json)

  /** `(cves or [None])[0]` */
  function FirstCve(cves: Json): Result<Json> {
    if !Truthy(cves) then Ok(Null)
    else match cves
      case List(items) => Ok(items[0])
      case Str(s) => Ok(Str([s[0]]))
      case _ => Crash
  }

  function PickAdvisoryId(env: Env, a: seq<(string, Json)>): Result<Json> {
    var stable := Or(Get(a, "github_advisory_id"), Get(a, "url"));
    if Truthy(stable) then Ok(stable)
    else
      var cve := FirstCve(Get(a, "cves"));
      if cve.Crash? || Truthy(cve.value) then cve
      else
        var id := if Get(a, "id") != Null then Str(ToStr(env, Get(a, "id"))) else Null;
        Ok(Or(id, Or(Get(a, "title"), Or(Get(a, "advisory"), Get(a, "overview")))))
  }

  function AdvisoryVuln(env: Env, advisory: Json): Result<Vuln> {
    if !advisory.Obj? then Crash
    else
      var a := advisory.fields;
      var id := PickAdvisoryId(env, a);
      if id.Crash? then Crash
      else Ok(Vuln(Or(Get(a, "module_name"), Get(a, "name")), Get(a, "severity"), id.value,
                   Or(Get(a, "title"), Or(Get(a, "advisory"), Or(Get(a, "overview"), Get(a, "url"))))))
  }

  function AdvisoryVulns(env: Env, fields: seq<(string, Json)>): Result<seq<Vuln>> {
    if fields == [] then Ok([])
    else
      var front, last := AdvisoryVulns(env, fields[..|fields| - 1]), AdvisoryVuln(env, fields[|fields| - 1].1);
      if front.Crash? || last.Crash? then Crash else Ok(front.value + [last.value])
  }

  predicate Relevant(item: Json) {
    item.Obj? || item.Str?
  }

  function ViaAdvisory(item: Json): Json {
    if !item.Obj? then item
    else Or(Get(item.fields, "github_advisory_id"), Or(Get(item.fields, "url"), Or(Get(item.fields, "source"),
            Or(Get(item.fields, "title"), Get(item.fields, "name")))))
  }

  function ViaTitle(item: Json): Json {
    if !item.Obj? then item
    else Or(Get(item.fields, "title"), Or(Get(item.fields, "url"),
            Or(Get(item.fields, "advisory"), Get(item.fields, "source"))))
  }

  /** The causes to look at: a list, or a single string. */
  function ViaItems(via: Json): seq<Json> {
    if via.List? then via.items else if via.Str? then [via] else []
  }

  function Titles(items: seq<Json>): seq<Json> {
    if items == [] then []
    else
      var front, last := Titles(items[..|items| - 1]), items[|items| - 1];
      if Relevant(last) && Truthy(ViaTitle(last)) then front + [ViaTitle(last)] else front
  }

  function Advisories(items: seq<Json>): seq<Json> {
    if items == [] then []
    else
      var front, last := Advisories(items[..|items| - 1]), items[|items| - 1];
      if Relevant(last) && Truthy(ViaAdvisory(last)) then front + [ViaAdvisory(last)] else front
  }

  /** `"; ".join(titles)` */
  function Join(titles: seq<Json>): Result<string> {
    if titles == [] then Ok("")
    else
      var front, last := Join(titles[..|titles| - 1]), titles[|titles| - 1];
      if front.Crash? || !last.Str? then Crash
      else if |titles| == 1 then Ok(last.s) else Ok(front.value + "; " + last.s)
  }

  /** One entry under `vulnerabilities`: nothing at all if none of its causes has an identifier. */
  function EntryVulns(name: string, vuln: Json): Result<seq<Vuln>> {
    if !vuln.Obj? then Crash
    else
      var items := ViaItems(GetOr(vuln.fields, "via", List([])));
      var title, ids := Join(Titles(items)), Advisories(items);
      if title.Crash? then Crash
      else Ok(Named(name, Get(vuln.fields, "severity"), ids, Str(title.value)))
  }

  /** One vulnerability per identifier. */
  function Named(name: string, severity: Json, ids: seq<Json>, title: Json): (vulns: seq<Vuln>)
    ensures |vulns| == |ids| && forall i | 0 <= i < |ids| :: vulns[i] == Vuln(Str(name), severity, ids[i], title)
  {
    if ids == [] then []
    else Named(name, severity, ids[..|ids| - 1], title) + [Vuln(Str(name), severity, ids[|ids| - 1], title)]
  }

  function Both<T>(a: Result<seq<T>>, b: Result<seq<T>>): Result<seq<T>> {
    if a.Crash? || b.Crash? then Crash else Ok(a.value + b.value)
  }

  function EntriesVulns(fields: seq<(string, Json)>): Result<seq<Vuln>> {
    if fields == [] then Ok([])
    else
      var (name, vuln) := fields[|fields| - 1];
      var front, last := EntriesVulns(fields[..|fields| - 1]), EntryVulns(name, vuln);
      Both(front, last)
  }

  function Section(data: seq<(string, Json)>, key: string): seq<(string, Json)> {
    var section := Get(data, key);
    if section.Obj? then section.fields else []
  }

  function Vulns(env: Env, data: Json): Result<seq<Vuln>> {
    if !data.Obj? then Crash
    else
      var advisories := AdvisoryVulns(env, Section(data.fields, "advisories"));
      var entries := EntriesVulns(Section(data.fields, "vulnerabilities"));
      Both(advisories, entries)
  }

  method IterVulns(env: Env, data: Json) returns (r: Result<seq<Vuln>>)
    ensures r == Vulns(env, data)
  {
    if !data.Obj? {
      return Crash;
    }
    var vulns: seq<Vuln> := [];
    var advisories := Get(data.fields, "advisories");
    if advisories.Obj? {
      r := IterAdvisories(env, advisories.fields);
      if r.Crash? {
        return;
      }
      vulns := r.value;
    }
    var vulnerabilities := Get(data.fields, "vulnerabilities");
    if vulnerabilities.Obj? {
      r := IterEntries(vulnerabilities.fields);
      if r.Crash? {
        return;
      }
      assert r.value + [] == r.value && [] + r.value == r.value;
      vulns := vulns + r.value;
    }
    assert vulns + [] == vulns;
    r := Ok(vulns);
  }

  method IterAdvisories(env: Env, fields: seq<(string, Json)>) returns (r: Result<seq<Vuln>>)
    ensures r == AdvisoryVulns(env, fields)
  {
    var vulns: seq<Vuln> := [];
    for i := 0 to |fields|
      invariant AdvisoryVulns(env, fields[..i]) == Ok(vulns)
    {
      assert fields[..i + 1][..i] == fields[..i];
      var v := AdvisoryVuln(env, fields[i].1);
      if v.Crash? {
        CrashStays(env, fields, i + 1);
        return Crash;
      }
      vulns := vulns + [v.value];
    }
    assert fields[..|fields|] == fields;
    r := Ok(vulns);
  }

  lemma {:induction false} CrashStays(env: Env, fields: seq<(string, Json)>, n: nat)
    requires n <= |fields|
    ensures AdvisoryVulns(env, fields[..n]).Crash? ==> AdvisoryVulns(env, fields).Crash?
    decreases |fields| - n
  {
    if n < |fields| {
      assert fields[..n + 1][..n] == fields[..n];
      CrashStays(env, fields, n + 1);
    } else {
      assert fields[..n] == fields;
    }
  }

  lemma {:induction false} EntriesCrashStays(fields: seq<(string, Json)>, n: nat)
    requires n <= |fields|
    ensures EntriesVulns(fields[..n]).Crash? ==> EntriesVulns(fields).Crash?
    decreases |fields| - n
  {
    if n < |fields| {
      assert fields[..n + 1][..n] == fields[..n];
      EntriesCrashStays(fields, n + 1);
    } else {
      assert fields[..n] == fields;
    }
  }

  method IterEntries(fields: seq<(string, Json)>) returns (r: Result<seq<Vuln>>)
    ensures r == EntriesVulns(fields)
  {
    var vulns: seq<Vuln> := [];
    for i := 0 to |fields|
      invariant EntriesVulns(fields[..i]) == Ok(vulns)
    {
      assert fields[..i + 1][..i] == fields[..i];
      var entry := IterEntry(fields[i].0, fields[i].1);
      if entry.Crash? {
        EntriesCrashStays(fields, i + 1);
        return Crash;
      }
      vulns := vulns + entry.value;
    }
    assert fields[..|fields|] == fields;
    r := Ok(vulns);
  }

  method IterEntry(name: string, vuln: Json) returns (r: Result<seq<Vuln>>)
    ensures r == EntryVulns(name, vuln)
  {
    if !vuln.Obj? {
      return Crash;
    }
    var severity := Get(vuln.fields, "severity");
    var via := GetOr(vuln.fields, "via", List([]));
    var titles, advisories := [], [];
    var items := ViaItems(via);
    for i := 0 to |items|
      invariant titles == Titles(items[..i]) && advisories == Advisories(items[..i])
    {
      assert items[..i + 1][..i] == items[..i];
      if Relevant(items[i]) {
        titles := titles + if Truthy(ViaTitle(items[i])) then [ViaTitle(items[i])] else [];
        advisories := advisories + if Truthy(ViaAdvisory(items[i])) then [ViaAdvisory(items[i])] else [];
      }
    }
    assert items[..|items|] == items;
    var title := Join(titles);
    if title.Crash? {
      return Crash;
    }
    var vulns: seq<Vuln> := [];
    for i := 0 to |advisories|
      invariant |vulns| == i
      invariant forall j | 0 <= j < i :: vulns[j] == Vuln(Str(name), severity, advisories[j], Str(title.value))
    {
      vulns := vulns + [Vuln(Str(name), severity, advisories[i], Str(title.value))];
    }
    assert vulns == Named(name, severity, advisories, Str(title.value));
    r := Ok(vulns);
  }
}
