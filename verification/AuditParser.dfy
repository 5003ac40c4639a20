/** The list of audit exceptions: a line-oriented parser of one simple YAML shape. */
module AuditParser {
  import opened Wrappers

  // ---------- Strings ----------

  /** Exactly the characters that Python's `strip` removes. */
  predicate IsSpace(c: char) {
    var u := c as int;
    || 0x09 <= u <= 0x0D || 0x1C <= u <= 0x20 || u == 0x85 || u == 0xA0 || u == 0x1680 || 0x2000 <= u <= 0x200A
    || u == 0x2028 || u == 0x2029 || u == 0x202F || u == 0x205F || u == 0x3000
  }

  lemma SpaceExactly(c: char)
    ensures IsSpace(c) <==>
            c in {'\t', '\n', '\U{0B}', '\U{0C}', '\r', '\U{1C}', '\U{1D}', '\U{1E}', '\U{1F}', ' ', '\U{85}', '\U{A0}',
                  '\U{1680}', '\U{2000}', '\U{2001}', '\U{2002}', '\U{2003}', '\U{2004}', '\U{2005}', '\U{2006}',
                  '\U{2007}', '\U{2008}', '\U{2009}', '\U{200A}', '\U{2028}', '\U{2029}', '\U{202F}', '\U{205F}',
                  '\U{3000}'}
  {
  }

  predicate Blank(s: string) {
    forall i | 0 <= i < |s| :: IsSpace(s[i])
  }

  /** Nothing to strip off. */
  predicate Trimmed(s: string) {
    s != "" ==> !IsSpace(s[0]) && !IsSpace(s[|s| - 1])
  }

  function StripLeft(s: string): string {
    if s != "" && IsSpace(s[0]) then StripLeft(s[1..]) else s
  }

  function StripRight(s: string): string {
    if s != "" && IsSpace(s[|s| - 1]) then StripRight(s[..|s| - 1]) else s
  }

  function Strip(s: string): string {
    StripRight(StripLeft(s))
  }

  predicate StartsWith(s: string, prefix: string) {
    prefix <= s
  }

  lemma {:induction false} StripLeftPadded(pad: string, s: string)
    requires Blank(pad) && (s == "" || !IsSpace(s[0]))
    ensures StripLeft(pad + s) == s
  {
    if pad == "" {
      assert pad + s == s;
    } else {
      assert (pad + s)[1..] == pad[1..] + s;
      StripLeftPadded(pad[1..], s);
    }
  }

  lemma {:induction false} StripRightPadded(s: string, pad: string)
    requires Blank(pad) && (s == "" || !IsSpace(s[|s| - 1]))
    ensures StripRight(s + pad) == s
  {
    if pad == "" {
      assert s + pad == s;
    } else {
      assert (s + pad)[..|s + pad| - 1] == s + pad[..|pad| - 1];
      StripRightPadded(s, pad[..|pad| - 1]);
    }
  }

  /** Stripping finds the trimmed text between any blanks. */
  lemma StripPadded(before: string, s: string, after: string)
    requires Blank(before) && Blank(after) && Trimmed(s)
    ensures Strip(before + s + after) == s
  {
    if s == "" {
      StripLeftPadded(before + after, "");
      assert before + s + after == (before + after) + "";
    } else {
      StripLeftPadded(before, s + after);
      assert before + s + after == before + (s + after);
      StripRightPadded(s, after);
    }
  }

  lemma {:induction false} StripLeftTrims(s: string)
    ensures var t := StripLeft(s);
            (t != "" ==> !IsSpace(t[0])) && exists pad :: s == pad + t && Blank(pad)
  {
    if s != "" && IsSpace(s[0]) {
      StripLeftTrims(s[1..]);
      var pad :| s[1..] == pad + StripLeft(s[1..]) && Blank(pad);
      assert s == ([s[0]] + pad) + StripLeft(s);
    } else {
      assert s == "" + s && Blank("");
    }
  }

  lemma {:induction false} StripRightTrims(s: string)
    ensures var t := StripRight(s);
            t <= s && (t != "" ==> !IsSpace(t[|t| - 1])) && exists pad :: s == t + pad && Blank(pad)
  {
    if s != "" && IsSpace(s[|s| - 1]) {
      var front := s[..|s| - 1];
      StripRightTrims(front);
      var pad :| front == StripRight(front) + pad && Blank(pad);
      assert s == StripRight(s) + (pad + [s[|s| - 1]]);
    } else {
      assert s == s + "" && Blank("");
    }
  }

  lemma StripTrims(s: string)
    ensures Trimmed(Strip(s)) && Strip(Strip(s)) == Strip(s)
  {
    StripLeftTrims(s);
    StripRightTrims(StripLeft(s));
    StripPadded("", Strip(s), "");
    assert "" + Strip(s) + "" == Strip(s);
  }

  // ---------- One line ----------

  /** The position of the first colon, or the length without one. */
  function Colon(line: string): (k: nat)
    ensures k <= |line| && ':' !in line[..k] && (k < |line| ==> line[k] == ':')
  {
    if line == "" || line[0] == ':' then 0 else 1 + Colon(line[1..])
  }

  predicate Quoted(value: string, quote: char) {
    value != "" && value[0] == quote && value[|value| - 1] == quote
  }

  /** Without one pair of quotes around; a single quote mark is both of the pair. */
  function Unquote(value: string): string {
    if Quoted(value, '\"') || Quoted(value, '\'') then
      if |value| == 1 then "" else value[1..|value| - 1]
    else value
  }

  function SplitKv(line: string): (string, string)
    requires ':' in line
  {
    var k := Colon(line);
    assert line[..|line|] == line;
    (Strip(line[..k]), Unquote(Strip(line[k + 1..])))
  }

  predicate Ignored(line: string) {
    || line == "" || StartsWith(line, "#") || StartsWith(line, "version:") || StartsWith(line, "exceptions:")
  }

  predicate StartsRecord(line: string) {
    !Ignored(line) && StartsWith(line, "- ")
  }

  // ---------- The parser ----------

  type Record = map<string, string>

  datatype State = State(records: seq<Record>, current: Option<Record>)

  /** The current record is filed unless it is missing or empty. */
  function Filed(st: State): seq<Record> {
    if st.current.Some? && st.current.value != map[] then st.records + [st.current.value] else st.records
  }

  /** What one line does to the parser's state. */
  function Step(st: State, raw: string): Result<State> {
    var line := Strip(raw);
    if Ignored(line) then Ok(st)
    else if StartsWith(line, "- ") then
      var rest := Strip(line[2..]);
      if rest == "" then Ok(State(Filed(st), Some(map[])))
      else if ':' !in rest then Crash
      else var (key, value) := SplitKv(rest); Ok(State(Filed(st), Some(map[key := value])))
    else if st.current.Some? && ':' in line then
      var (key, value) := SplitKv(line); Ok(State(st.records, Some(st.current.value[key := value])))
    else Ok(st)
  }

  function Fold(st: State, lines: seq<string>): Result<State>
    decreases |lines|
  {
    if lines == [] then Ok(st)
    else
      var next := Step(st, lines[0]);
      if next.Crash? then Crash else Fold(next.value, lines[1..])
  }

  const START := State([], None)

  /** What is filed in the end if the parser goes on from `st`. */
  function RecordsFrom(st: State, lines: seq<string>): Result<seq<Record>> {
    var end := Fold(st, lines);
    if end.Crash? then Crash else Ok(Filed(end.value))
  }

  function Records(lines: seq<string>): Result<seq<Record>> {
    RecordsFrom(START, lines)
  }

  method SplitKeyValue(line: string) returns (r: Result<(string, string)>)
    ensures r == if ':' in line then Ok(SplitKv(line)) else Crash
  {
    var k := 0;
    while k < |line| && line[k] != ':'
      invariant 0 <= k <= |line| && ':' !in line[..k]
    {
      k := k + 1;
    }
    if k == |line| {
      assert line == line[..k];
      return Crash;
    }
    ColonAt(line, k);
    var value := Strip(line[k + 1..]);
    if Quoted(value, '\"') || Quoted(value, '\'') {
      value := if |value| == 1 then "" else value[1..|value| - 1];
    }
    r := Ok((Strip(line[..k]), value));
  }

  lemma {:induction false} ColonAt(line: string, k: nat)
    requires k < |line| && line[k] == ':' && ':' !in line[..k]
    ensures Colon(line) == k
  {
    if k > 0 {
      assert line[0] == line[..k][0];
      assert line[1..][..k - 1] == line[..k][1..];
      ColonAt(line[1..], k - 1);
    }
  }

  lemma ColonFirst(key: string, rest: string)
    requires ':' !in key
    ensures var line := key + ":" + rest; ':' in line && Colon(line) == |key| && line[..|key|] == key
    ensures (key + ":" + rest)[|key| + 1..] == rest
  {
    var line := key + ":" + rest;
    assert line[..|key|] == key && line[|key|] == ':';
    ColonAt(line, |key|);
  }

  /** Whatever stands between two quote marks of a kind is the value, colons, quotes and blanks
      included. */
  lemma SplitQuoted(key: string, before: string, value: string, after: string, quote: char)
    requires ':' !in key && Blank(before) && Blank(after) && (quote == '\"' || quote == '\'')
    ensures var line := key + ":" + (before + ([quote] + value + [quote]) + after);
            ':' in line && SplitKv(line) == (Strip(key), value)
  {
    var quoted := [quote] + value + [quote];
    ColonFirst(key, before + quoted + after);
    StripPadded(before, quoted, after);
    assert quoted[1..|quoted| - 1] == value;
  }

  /** A value that is not between two quote marks of a kind is taken as it is; one that is a single
      quote mark is lost. */
  lemma SplitPlain(key: string, before: string, value: string, after: string)
    requires ':' !in key && Blank(before) && Blank(after) && Trimmed(value)
    requires value == "" || (value[0] != '\"' && value[0] != '\'') || value[|value| - 1] != value[0] || |value| == 1
    ensures var line := key + ":" + (before + value + after);
            ':' in line && SplitKv(line) == (Strip(key), if value == "\"" || value == "'" then "" else value)
  {
    ColonFirst(key, before + value + after);
    StripPadded(before, value, after);
  }

  method ParseExceptions(lines: seq<string>) returns (r: Result<seq<Record>>)
    ensures r == Records(lines)
  {
    var exceptions: seq<Record> := [];
    var current: Option<Record> := None;
    for i := 0 to |lines|
      invariant Fold(State(exceptions, current), lines[i..]) == Fold(START, lines)
    {
      assert lines[i..][1..] == lines[i + 1..];
      var line := Strip(lines[i]);
      if Ignored(line) {
        continue;
      }
      if StartsWith(line, "- ") {
        if current.Some? && current.value != map[] {
          exceptions := exceptions + [current.value];
        }
        current := Some(map[]);
        line := Strip(line[2..]);
        if line != "" {
          var kv := SplitKeyValue(line);
          if kv.Crash? {
            return Crash;
          }
          current := Some(map[kv.value.0 := kv.value.1]);
        }
        continue;
      }
      if current.Some? && ':' in line {
        var kv := SplitKeyValue(line);
        current := Some(current.value[kv.value.0 := kv.value.1]);
      }
    }
    if current.Some? && current.value != map[] {
      exceptions := exceptions + [current.value];
    }
    r := Ok(exceptions);
  }

  // ---------- Noise ----------

  lemma {:induction false} FoldConcat(st: State, lines: seq<string>, more: seq<string>)
    ensures Fold(st, lines + more) == var mid := Fold(st, lines); if mid.Crash? then Crash else Fold(mid.value, more)
    decreases |lines|
  {
    if lines == [] {
      assert lines + more == more;
    } else {
      assert (lines + more)[1..] == lines[1..] + more;
      var next := Step(st, lines[0]);
      if next.Ok? {
        FoldConcat(next.value, lines[1..], more);
      }
    }
  }

  /** A stripped line that the parser passes over wherever it stands. A lone dash is one: it does
      not start a record. */
  predicate Noise(line: string) {
    Ignored(line) || (!StartsWith(line, "- ") && ':' !in line)
  }

  /** The stripped lines that matter. */
  function Essence(lines: seq<string>): seq<string> {
    if lines == [] then []
    else
      var line := Strip(lines[0]);
      (if Noise(line) then [] else [line]) + Essence(lines[1..])
  }

  lemma {:induction false} EssenceDecides(st: State, lines: seq<string>)
    ensures Fold(st, lines) == Fold(st, Essence(lines))
    decreases |lines|
  {
    if lines != [] {
      var line := Strip(lines[0]);
      StripTrims(lines[0]);
      var next := Step(st, lines[0]);
      if Noise(line) {
        assert next == Ok(st) && Essence(lines) == Essence(lines[1..]);
        EssenceDecides(st, lines[1..]);
      } else {
        assert Step(st, line) == next;
        assert Essence(lines)[1..] == Essence(lines[1..]);
        if next.Ok? {
          EssenceDecides(next.value, lines[1..]);
        }
      }
    }
  }

  /** Blank lines, comments, `version:` and `exceptions:` lines, lone dashes, lines without a colon
      that start no record, and all indentation make no difference, wherever they are. */
  lemma NoiseIsIgnored(lines: seq<string>, others: seq<string>)
    requires Essence(lines) == Essence(others)
    ensures Records(lines) == Records(others)
  {
    EssenceDecides(START, lines);
    EssenceDecides(START, others);
  }

  /** A blank line, a comment, or one that begins with `version:` or `exceptions:`. */
  lemma LineIsSkipped(lines: seq<string>, before: string, line: string, more: seq<string>)
    requires Blank(before)
    requires line == "" || "#" <= line || "version:" <= line || "exceptions:" <= line
    ensures Records(lines + [before + line] + more) == Records(lines + more)
  {
    if line == "" {
      StripPadded(before, "", "");
      assert before + line == before + "" + "";
    } else {
      StripHead(before, line);
    }
    NoiseIsSkipped(lines, before + line, more);
  }

  lemma NoiseIsSkipped(lines: seq<string>, raw: string, more: seq<string>)
    requires Noise(Strip(raw))
    ensures Records(lines + [raw] + more) == Records(lines + more)
  {
    assert [raw][1..] == [] && Essence([raw]) == [];
    EssenceConcat(lines + [raw], more);
    EssenceConcat(lines, [raw]);
    EssenceConcat(lines, more);
    NoiseIsIgnored(lines + [raw] + more, lines + more);
  }

  /** Blanks in front of a word are stripped off, and the word stays. */
  lemma StripHead(before: string, line: string)
    requires Blank(before)
    requires "#" <= line || "version:" <= line || "exceptions:" <= line
    ensures var t := Strip(before + line); "#" <= t || "version:" <= t || "exceptions:" <= t
  {
    StripLeftPadded(before, line);
    StripRightTrims(line);
    var word := if "#" <= line then "#" else if "version:" <= line then "version:" else "exceptions:";
    assert line[|word| - 1] == word[|word| - 1] && !IsSpace(line[|word| - 1]);
    var pad :| line == StripRight(line) + pad && Blank(pad);
    assert forall k | |StripRight(line)| <= k < |line| :: line[k] == pad[k - |StripRight(line)|] && IsSpace(line[k]);
    assert StripRight(line) == line[..|StripRight(line)|];
    assert word == line[..|word|];
  }

  lemma {:induction false} EssenceConcat(lines: seq<string>, more: seq<string>)
    ensures Essence(lines + more) == Essence(lines) + Essence(more)
  {
    if lines == [] {
      assert lines + more == more;
    } else {
      assert (lines + more)[1..] == lines[1..] + more;
      EssenceConcat(lines[1..], more);
    }
  }

  /** The fields after a dash that stands alone end up in the record before it. */
  lemma LoneDashMerges(lines: seq<string>, before: string, after: string, more: seq<string>)
    requires Blank(before) && Blank(after)
    ensures Records(lines + [before + "-" + after] + more) == Records(lines + more)
  {
    StripPadded(before, "-", after);
    NoiseIsSkipped(lines, before + "-" + after, more);
  }

  // ---------- No entry is lost ----------

  lemma StripKeeps(s: string, c: char)
    requires c in s && !IsSpace(c)
    ensures c in Strip(s)
  {
    StripLeftTrims(s);
    StripRightTrims(StripLeft(s));
    var before :| s == before + StripLeft(s) && Blank(before);
    var after :| StripLeft(s) == Strip(s) + after && Blank(after);
  }

  lemma {:induction false} StripWithin(s: string, c: char)
    requires c in Strip(s)
    ensures c in s
  {
    StripLeftTrims(s);
    StripRightTrims(StripLeft(s));
    assert c in StripLeft(s);
  }

  /** A line that starts a record has a first field, or the parser crashes. */
  lemma RecordLine(line: string)
    requires Trimmed(line) && StartsWith(line, "- ")
    ensures Strip(line[2..]) != "" && (':' in Strip(line[2..]) <==> ':' in line)
  {
    assert line[0] == '-' && line[1] == ' ' && |line| > 2;
    var last := line[|line| - 1];
    assert line[2..][|line| - 3] == last;
    StripKeeps(line[2..], last);
    if ':' in line {
      var i :| 0 <= i < |line| && line[i] == ':';
      assert line[2..][i - 2] == ':';
      StripKeeps(line[2..], ':');
    }
    if ':' in Strip(line[2..]) {
      StripWithin(line[2..], ':');
    }
  }

  function Starts(lines: seq<string>): nat {
    if lines == [] then 0 else (if StartsRecord(Strip(lines[0])) then 1 else 0) + Starts(lines[1..])
  }

  ghost predicate MissesColon(lines: seq<string>) {
    exists i :: 0 <= i < |lines| && StartsRecord(Strip(lines[i])) && ':' !in Strip(lines[i])
  }

  predicate NonEmpty(st: State) {
    st.current.Some? ==> st.current.value != map[]
  }

  lemma StepCounts(st: State, raw: string)
    requires NonEmpty(st)
    ensures var line, next := Strip(raw), Step(st, raw);
            && (next.Crash? <==> StartsRecord(line) && ':' !in line)
            && (next.Ok? ==>
                  && NonEmpty(next.value)
                  && |Filed(next.value)| == |Filed(st)| + if StartsRecord(line) then 1 else 0)
  {
    var line, next := Strip(raw), Step(st, raw);
    StripTrims(raw);
    if StartsRecord(line) {
      RecordLine(line);
      if next.Ok? {
        var key := SplitKv(Strip(line[2..])).0;
        assert key in next.value.current.value;
      }
    } else if next.Ok? && next.value != st {
      assert SplitKv(line).0 in next.value.current.value;
    }
  }

  lemma MissesColonStep(lines: seq<string>)
    requires lines != []
    ensures MissesColon(lines) <==>
            MissesColon(lines[1..]) || (StartsRecord(Strip(lines[0])) && ':' !in Strip(lines[0]))
  {
    if MissesColon(lines[1..]) {
      var i :| 0 <= i < |lines[1..]| && StartsRecord(Strip(lines[1..][i])) && ':' !in Strip(lines[1..][i]);
      assert lines[i + 1] == lines[1..][i];
    }
    if MissesColon(lines) {
      var i :| 0 <= i < |lines| && StartsRecord(Strip(lines[i])) && ':' !in Strip(lines[i]);
      assert i > 0 ==> lines[1..][i - 1] == lines[i];
    }
  }

  lemma {:induction false} FoldCounts(st: State, lines: seq<string>)
    requires NonEmpty(st)
    ensures Fold(st, lines).Crash? <==> MissesColon(lines)
    ensures Fold(st, lines).Ok? ==> |Filed(Fold(st, lines).value)| == |Filed(st)| + Starts(lines)
    decreases |lines|
  {
    if lines != [] {
      StepCounts(st, lines[0]);
      MissesColonStep(lines);
      var next := Step(st, lines[0]);
      if next.Ok? {
        FoldCounts(next.value, lines[1..]);
      }
    }
  }

  /** The parser crashes exactly when an entry has no colon in its first line; otherwise it returns
      one record for each line that starts with a dash and a space. */
  lemma NoEntryIsLost(lines: seq<string>)
    ensures Records(lines) == Crash <==> MissesColon(lines)
    ensures Records(lines).Ok? ==> |Records(lines).value| == Starts(lines)
  {
    FoldCounts(START, lines);
  }

  // ---------- Print, then parse ----------

  /** How a value is written. */
  datatype Quotes = DoubleQuotes | SingleQuotes | NoQuotes

  /** An entry of a dictionary, and how its value is written. */
  datatype Field = Field(key: string, value: string, quotes: Quotes)

  predicate PrintableKey(key: string) {
    key != "" && Trimmed(key) && ':' !in key
  }

  /** A key that may also stand at the beginning of a line. */
  predicate LaterKey(key: string) {
    && PrintableKey(key) && key != "version" && key != "exceptions"
    && !StartsWith(key, "#") && !StartsWith(key, "- ")
  }

  /** A value may be written without quotes if it has no blanks around and does not look quoted. */
  predicate PrintableValue(field: Field) {
    var value := field.value;
    field.quotes.NoQuotes? ==>
      && Trimmed(value)
      && !(value != "" && value[0] == value[|value| - 1] && (value[0] == '\"' || value[0] == '\''))
  }

  ghost predicate Printable(fields: seq<Field>) {
    && fields != [] && PrintableKey(fields[0].key)
    && (forall i | 0 <= i < |fields| :: PrintableValue(fields[i]))
    && forall i | 1 <= i < |fields| :: LaterKey(fields[i].key)
  }

  /** What stands after the colon. */
  function PrintValue(field: Field): string {
    match field.quotes
    case DoubleQuotes => " \"" + field.value + "\""
    case SingleQuotes => " '" + field.value + "'"
    case NoQuotes => if field.value == "" then "" else " " + field.value
  }

  function PrintField(field: Field): string {
    field.key + ":" + PrintValue(field)
  }

  function PrintRecord(fields: seq<Field>): seq<string> {
    if fields == [] then []
    else PrintRecord(fields[..|fields| - 1]) +
         [(if |fields| == 1 then "- " else "  ") + PrintField(fields[|fields| - 1])]
  }

  function Print(records: seq<seq<Field>>): seq<string> {
    if records == [] then [] else PrintRecord(records[0]) + Print(records[1..])
  }

  /** The dictionary with these items. */
  function RecordOf(fields: seq<Field>): Record {
    if fields == [] then map[]
    else RecordOf(fields[..|fields| - 1])[fields[|fields| - 1].key := fields[|fields| - 1].value]
  }

  function Dictionaries(records: seq<seq<Field>>): (dicts: seq<Record>)
    ensures |dicts| == |records|
    ensures forall i | 0 <= i < |records| :: dicts[i] == RecordOf(records[i])
  {
    if records == [] then [] else [RecordOf(records[0])] + Dictionaries(records[1..])
  }

  /** No later field has the same key. */
  predicate LastOfKey(fields: seq<Field>, i: nat)
    requires i < |fields|
  {
    forall j | i < j < |fields| :: fields[j].key != fields[i].key
  }

  lemma {:induction false} RecordHolds(fields: seq<Field>)
    ensures forall k :: k in RecordOf(fields) <==> exists i :: 0 <= i < |fields| && fields[i].key == k
    ensures forall i | 0 <= i < |fields| && LastOfKey(fields, i) :: RecordOf(fields)[fields[i].key] == fields[i].value
  {
    if fields != [] {
      var front := fields[..|fields| - 1];
      RecordHolds(front);
      forall k ensures k in RecordOf(fields) <==> exists i :: 0 <= i < |fields| && fields[i].key == k {
        if k in RecordOf(front) {
          var i :| 0 <= i < |front| && front[i].key == k;
          assert fields[i].key == k;
        }
        if i :| 0 <= i < |fields| && fields[i].key == k {
          assert i < |front| ==> front[i].key == k;
        }
      }
      forall i | 0 <= i < |fields| && LastOfKey(fields, i)
        ensures RecordOf(fields)[fields[i].key] == fields[i].value
      {
        if i < |front| {
          assert front[i] == fields[i] && LastOfKey(front, i);
        }
      }
    }
  }

  /** Any value survives in quotes, even one with colons, quotes or blanks at its ends; and one
      without blanks or quotes around survives as it is. */
  lemma SplitPrinted(field: Field)
    requires PrintableKey(field.key) && PrintableValue(field)
    ensures Trimmed(PrintField(field)) && ':' in PrintField(field)
    ensures SplitKv(PrintField(field)) == (field.key, field.value)
  {
    StripPadded("", field.key, "");
    assert "" + field.key + "" == field.key;
    PrintedEnds(field);
    if field.quotes.NoQuotes? {
      SplitUnquoted(field);
    } else {
      SplitWrapped(field, if field.quotes.DoubleQuotes? then '\"' else '\'');
    }
  }

  lemma SplitWrapped(field: Field, quote: char)
    requires ':' !in field.key && quote == (if field.quotes.DoubleQuotes? then '\"' else '\'')
    requires !field.quotes.NoQuotes?
    ensures ':' in PrintField(field) && SplitKv(PrintField(field)) == (Strip(field.key), field.value)
  {
    SplitQuoted(field.key, " ", field.value, "", quote);
    WrappedValue(field, quote);
  }

  lemma WrappedValue(field: Field, quote: char)
    requires quote == (if field.quotes.DoubleQuotes? then '\"' else '\'') && !field.quotes.NoQuotes?
    ensures PrintValue(field) == " " + ([quote] + field.value + [quote]) + ""
  {
    assert [quote] == if field.quotes.DoubleQuotes? then "\"" else "'";
    assert " " + ([quote] + field.value + [quote]) + "" == " " + [quote] + field.value + [quote];
  }

  lemma SplitUnquoted(field: Field)
    requires PrintableKey(field.key) && PrintableValue(field) && field.quotes.NoQuotes?
    ensures ':' in PrintField(field) && SplitKv(PrintField(field)) == (Strip(field.key), field.value)
  {
    var pad := if field.value == "" then "" else " ";
    SplitPlain(field.key, pad, field.value, "");
    assert PrintValue(field) == pad + field.value + "";
  }

  lemma PrintedEnds(field: Field)
    requires PrintableKey(field.key) && PrintableValue(field)
    ensures Trimmed(PrintField(field))
  {
    var line, rest := PrintField(field), PrintValue(field);
    assert line[0] == field.key[0];
    if rest == "" {
      assert line[|line| - 1] == ':';
    } else {
      assert line[|line| - 1] == rest[|rest| - 1];
    }
  }

  lemma KeyBeforeColon(key: string, rest: string, word: string)
    requires ':' !in key && ':' !in word && StartsWith(key + ":" + rest, word + ":")
    ensures key == word
  {
    var line := key + ":" + rest;
    assert line[..|word| + 1] == word + ":";
    assert line[..|key|] == key && line[..|word|] == word && line[|word|] == ':';
    ColonAt(line, |key|);
    ColonAt(line, |word|);
  }

  lemma LaterLine(field: Field)
    requires LaterKey(field.key)
    ensures !Ignored(PrintField(field)) && !StartsWith(PrintField(field), "- ")
  {
    var key, line, rest := field.key, PrintField(field), PrintValue(field);
    if StartsWith(line, "version:") {
      assert "version:" == "version" + ":";
      KeyBeforeColon(key, rest, "version");
    }
    if StartsWith(line, "exceptions:") {
      assert "exceptions:" == "exceptions" + ":";
      KeyBeforeColon(key, rest, "exceptions");
    }
    assert line[0] == key[0];
    assert if |key| == 1 then line[1] == ':' else line[..2] == key[..2];
  }

  lemma FirstLineStep(st: State, line: string)
    requires Trimmed(line) && line != "" && ':' in line
    ensures Step(st, "- " + line) == Ok(State(Filed(st), Some(map[SplitKv(line).0 := SplitKv(line).1])))
  {
    StripDash(line);
    assert ("- " + line)[0] == '-' && ("- " + line)[..2] == "- ";
  }

  lemma FirstStep(st: State, field: Field)
    requires PrintableKey(field.key) && PrintableValue(field)
    ensures Step(st, "- " + PrintField(field)) == Ok(State(Filed(st), Some(map[field.key := field.value])))
  {
    SplitPrinted(field);
    FirstLineStep(st, PrintField(field));
  }

  lemma StripDash(line: string)
    requires Trimmed(line) && line != ""
    ensures Strip("- " + line) == "- " + line && Strip(("- " + line)[2..]) == line
  {
    StripPadded("", "- " + line, "");
    assert "" + ("- " + line) + "" == "- " + line;
    StripPadded("", line, "");
    assert "" + line + "" == line && ("- " + line)[2..] == line;
  }

  lemma LaterLineStep(st: State, line: string)
    requires Trimmed(line) && ':' in line && !Ignored(line) && !StartsWith(line, "- ") && st.current.Some?
    ensures Step(st, "  " + line) ==
            Ok(State(st.records, Some(st.current.value[SplitKv(line).0 := SplitKv(line).1])))
  {
    StripPadded("  ", line, "");
    assert "  " + line + "" == "  " + line;
  }

  lemma LaterStep(st: State, field: Field)
    requires LaterKey(field.key) && PrintableValue(field) && st.current.Some?
    ensures Step(st, "  " + PrintField(field)) ==
            Ok(State(st.records, Some(st.current.value[field.key := field.value])))
  {
    SplitPrinted(field);
    LaterLine(field);
    LaterLineStep(st, PrintField(field));
  }

  lemma {:induction false} ParsePrintedRecord(st: State, fields: seq<Field>)
    requires Printable(fields)
    ensures Fold(st, PrintRecord(fields)) == Ok(State(Filed(st), Some(RecordOf(fields))))
  {
    var front, last := fields[..|fields| - 1], fields[|fields| - 1];
    var mid := if front == [] then st else State(Filed(st), Some(RecordOf(front)));
    if front != [] {
      ParsePrintedRecord(st, front);
      LaterStep(mid, last);
    } else {
      FirstStep(st, last);
    }
    var line := (if |fields| == 1 then "- " else "  ") + PrintField(last);
    FoldConcat(st, PrintRecord(front), [line]);
    assert [line][1..] == [];
    assert Fold(mid, [line]) == Step(mid, line);
  }

  lemma ParsePrintedThen(st: State, fields: seq<Field>, lines: seq<string>)
    requires Printable(fields)
    ensures var next := State(Filed(st), Some(RecordOf(fields)));
            && RecordsFrom(st, PrintRecord(fields) + lines) == RecordsFrom(next, lines)
            && NonEmpty(next) && Filed(next) == Filed(st) + [RecordOf(fields)]
  {
    ParsePrintedRecord(st, fields);
    FoldConcat(st, PrintRecord(fields), lines);
    assert fields[|fields| - 1].key in RecordOf(fields);
  }

  ghost predicate AllPrintable(records: seq<seq<Field>>) {
    forall r | r in records :: Printable(r)
  }

  lemma {:induction false} ParsePrinted(st: State, records: seq<seq<Field>>)
    requires NonEmpty(st) && AllPrintable(records)
    ensures RecordsFrom(st, Print(records)) == Ok(Filed(st) + Dictionaries(records))
    decreases |records|
  {
    if records == [] {
      assert Filed(st) + [] == Filed(st);
    } else {
      var next, rest := State(Filed(st), Some(RecordOf(records[0]))), records[1..];
      ParsePrintedThen(st, records[0], Print(rest));
      ParsePrinted(next, rest);
      Regroup(Filed(st), RecordOf(records[0]), Dictionaries(rest));
    }
  }

  lemma Regroup<T>(xs: seq<T>, y: T, zs: seq<T>)
    ensures xs + [y] + zs == xs + ([y] + zs)
  {
  }

  /** Printing records, each value in quotes of either kind or in none, and parsing them returns the
      dictionaries with exactly the printed items; of several with the same key, the last counts. */
  lemma ParsePrint(records: seq<seq<Field>>)
    requires forall r | r in records :: Printable(r)
    ensures Records(Print(records)) == Ok(Dictionaries(records))
    ensures forall i, j | 0 <= i < |records| && 0 <= j < |records[i]| && LastOfKey(records[i], j) ::
              var field, dict := records[i][j], Dictionaries(records)[i];
              field.key in dict && dict[field.key] == field.value
    ensures forall i, k | 0 <= i < |records| && k in Dictionaries(records)[i] ::
              exists j :: 0 <= j < |records[i]| && records[i][j].key == k
  {
    ParsePrinted(START, records);
    assert [] + Dictionaries(records) == Dictionaries(records);
    forall i | 0 <= i < |records|
      ensures forall j | 0 <= j < |records[i]| && LastOfKey(records[i], j) ::
                records[i][j].key in RecordOf(records[i]) &&
                RecordOf(records[i])[records[i][j].key] == records[i][j].value
      ensures forall k | k in RecordOf(records[i]) :: exists j :: 0 <= j < |records[i]| && records[i][j].key == k
    {
      RecordHolds(records[i]);
    }
  }
}
