/** The create side of the Account entity: defaults, checks and the insert spec of a mutation, and
    the scanning of a stored row back into a node. The generated one-block-per-field code is
    driven here by tables that list the fields in the order of those blocks. */
module AccountFields {
  import opened Wrappers

  datatype Field =
    | ID | CreatedAt | UpdatedAt | DeletedAt | Name | Notes | Platform | Type
    | Credentials | Extra | ProxyID | ProxyFallbackOriginID | Concurrency | LoadFactor
    | Priority | RateMultiplier | Status | ErrorMessage | LastUsedAt | ExpiresAt
    | AutoPauseOnExpired | Schedulable | RateLimitedAt | RateLimitResetAt | OverloadUntil
    | TempUnschedulableUntil | TempUnschedulableReason | SessionWindowStart | SessionWindowEnd
    | SessionWindowStatus | ParentAccountID | QuotaDimension
    | Other(name: string)

  /** A Go value of a field. JSON documents and times are abstract; `GarbageV` stands for stored
      bytes that are no JSON document. */
  datatype Value =
    | TimeV(t: int) | StringV(s: string) | IntV(n: int) | FloatV(r: real) | BoolV(b: bool) | JsonV(doc: int)
    | GarbageV

  /** The fields of a struct; one that is absent has Go's zero value, or is a nil pointer. */
  type Fields = map<Field, Value>

  /** The fields and edges that a mutation has been given. */
  datatype Content = Content(fields: Fields, groups: seq<int>, proxy: Option<int>, parent: Option<int>,
                             children: seq<int>, usageLogs: seq<int>)

  // ---------- Defaults and checks ----------

  /** The package variables that the runtime package initializes. A default that is absent is a
      nil function, possible for the first four only. The last two are the defaults of the
      AccountGroup entity. */
  datatype Runtime = Runtime(defaults: Fields, valid: (Field, Value) -> bool, groupPriority: int, groupCreatedAt: int)

  const DEFAULTED := [CreatedAt, UpdatedAt, Credentials, Extra, Concurrency, Priority, RateMultiplier,
                      Status, AutoPauseOnExpired, Schedulable, QuotaDimension]

  /** One block of `check`. */
  datatype Rule = Rule(field: Field, required: bool, validated: bool)

  const RULES := [Rule(CreatedAt, true, false), Rule(UpdatedAt, true, false), Rule(Name, true, true),
                  Rule(Platform, true, true), Rule(Type, true, true), Rule(Credentials, true, false),
                  Rule(Extra, true, false), Rule(Concurrency, true, false), Rule(Priority, true, false),
                  Rule(RateMultiplier, true, false), Rule(Status, true, true), Rule(AutoPauseOnExpired, true, false),
                  Rule(Schedulable, true, false), Rule(SessionWindowStatus, false, true),
                  Rule(QuotaDimension, true, true)]

  /** The fields after `defaults`, and the field at which it gave up, if any. */
  function WithDefaults(fields: Fields, rt: Runtime, todo: seq<Field>): (Fields, Option<Field>)
    decreases |todo|
  {
    if todo == [] then (fields, None)
    else if todo[0] in fields then WithDefaults(fields, rt, todo[1..])
    else if todo[0] !in rt.defaults then (fields, Some(todo[0]))
    else WithDefaults(fields[todo[0] := rt.defaults[todo[0]]], rt, todo[1..])
  }

  predicate Violates(fields: Fields, rt: Runtime, rule: Rule) {
    if rule.field !in fields then rule.required else rule.validated && !rt.valid(rule.field, fields[rule.field])
  }

  predicate Passes(fields: Fields, rt: Runtime) {
    forall i | 0 <= i < |RULES| :: !Violates(fields, rt, RULES[i])
  }

  /** What was set stays, and what is added is a default of a field that was unset; all of them are
      added unless one is missing. */
  lemma {:induction false} DefaultsSetOnlyUnset(fields: Fields, rt: Runtime, todo: seq<Field>)
    ensures var (after, err) := WithDefaults(fields, rt, todo);
            && fields.Keys <= after.Keys
            && (forall f | f in after :: if f in fields then after[f] == fields[f]
                                         else f in todo && f in rt.defaults && after[f] == rt.defaults[f])
            && (err.Some? ==> err.value in todo && err.value !in rt.defaults && err.value !in after)
            && (err.None? ==> forall f | f in todo :: f in after)
    decreases |todo|
  {
    if todo != [] && (todo[0] in fields || todo[0] in rt.defaults) {
      var next := if todo[0] in fields then fields else fields[todo[0] := rt.defaults[todo[0]]];
      DefaultsSetOnlyUnset(next, rt, todo[1..]);
      assert todo == [todo[0]] + todo[1..];
    }
  }

  /** The rule for each of the fields with a default. */
  const DEFAULTED_RULES := [0, 1, 5, 6, 7, 8, 9, 10, 11, 12, 14]

  lemma DefaultedAreRequired(f: Field)
    requires f in DEFAULTED
    ensures exists i :: 0 <= i < |RULES| && RULES[i].field == f && RULES[i].required
  {
    var k :| 0 <= k < |DEFAULTED| && DEFAULTED[k] == f;
    assert RULES[DEFAULTED_RULES[k]].field == f;
  }

  /** Bulk creation ignores the error of `defaults`, but what `defaults` could not set, `check`
      misses: a mutation that still lacks it is rejected. */
  lemma UnsetDefaultFailsCheck(fields: Fields, rt: Runtime, later: Fields)
    requires var (after, err) := WithDefaults(fields, rt, DEFAULTED); err.Some? && later.Keys <= after.Keys
    ensures !Passes(later, rt)
  {
    DefaultsSetOnlyUnset(fields, rt, DEFAULTED);
    var err := WithDefaults(fields, rt, DEFAULTED).1;
    DefaultedAreRequired(err.value);
    var i :| 0 <= i < |RULES| && RULES[i].field == err.value && RULES[i].required;
    assert Violates(later, rt, RULES[i]);
  }

  // ---------- Defaults and checks, by the fields ----------

  /** `after` has what was set before, and of the fields with a default those that were unset, up to
      the first without one; and nothing else. */
  ghost predicate Completed(before: Fields, rt: Runtime, after: Fields) {
    var order := [CreatedAt, UpdatedAt, Credentials, Extra, Concurrency, Priority, RateMultiplier,
                  Status, AutoPauseOnExpired, Schedulable, QuotaDimension];
    && (forall f | f in before :: f in after && after[f] == before[f])
    && (forall k | 0 <= k < |order| && order[k] !in before ::
          if forall m | 0 <= m <= k :: order[m] in before || order[m] in rt.defaults
          then order[k] in after && after[order[k]] == rt.defaults[order[k]]
          else order[k] !in after)
    && forall f | f in after && f !in before :: f in order
  }

  /** A field of the list is set afterwards if none before it, nor itself, lacks both a value and a
      default; and is else as it was. */
  lemma {:induction false} DefaultedUpTo(fields: Fields, rt: Runtime, todo: seq<Field>, k: nat)
    requires k < |todo| && forall i, j | 0 <= i < j < |todo| :: todo[i] != todo[j]
    ensures todo[k] in WithDefaults(fields, rt, todo).0 <==>
            todo[k] in fields || forall m | 0 <= m <= k :: todo[m] in fields || todo[m] in rt.defaults
    decreases |todo|
  {
    var rest := todo[1..];
    assert forall m | 1 <= m < |todo| :: todo[m] == rest[m - 1];
    if todo[0] in fields || todo[0] in rt.defaults {
      var next := if todo[0] in fields then fields else fields[todo[0] := rt.defaults[todo[0]]];
      DefaultsSetOnlyUnset(next, rt, rest);
      if k > 0 {
        DefaultedUpTo(next, rt, rest, k - 1);
      }
    }
  }

  /** What `defaults` adds, field by field. */
  lemma DefaultsExactly(fields: Fields, rt: Runtime)
    ensures Completed(fields, rt, WithDefaults(fields, rt, DEFAULTED).0)
  {
    DefaultsSetOnlyUnset(fields, rt, DEFAULTED);
    DefaultedOnce();
    forall k | 0 <= k < |DEFAULTED|
      ensures DEFAULTED[k] in WithDefaults(fields, rt, DEFAULTED).0 <==>
              DEFAULTED[k] in fields || forall m | 0 <= m <= k :: DEFAULTED[m] in fields || DEFAULTED[m] in rt.defaults
    {
      DefaultedUpTo(fields, rt, DEFAULTED, k);
    }
  }

  lemma DefaultedOnce()
    ensures forall i, j | 0 <= i < j < |DEFAULTED| :: DEFAULTED[i] != DEFAULTED[j]
  {
  }

  /** Every validated field that is set has a valid value. */
  ghost predicate Valid(fields: Fields, rt: Runtime) {
    forall f | f in {Name, Platform, Type, Status, SessionWindowStatus, QuotaDimension} && f in fields ::
      rt.valid(f, fields[f])
  }

  /** The check demands these fourteen fields, and valid values of six. */
  lemma PassesExactly(fields: Fields, rt: Runtime)
    ensures Passes(fields, rt) <==>
            && {CreatedAt, UpdatedAt, Name, Platform, Type, Credentials, Extra, Concurrency, Priority, RateMultiplier,
                Status, AutoPauseOnExpired, Schedulable, QuotaDimension} <= fields.Keys
            && Valid(fields, rt)
  {
    if Passes(fields, rt) {
      forall i | 0 <= i < |RULES| ensures !Violates(fields, rt, RULES[i]) {
      }
      RuleSays(fields, rt);
    }
  }

  lemma RuleSays(fields: Fields, rt: Runtime)
    requires Passes(fields, rt)
    ensures {CreatedAt, UpdatedAt, Name, Platform, Type, Credentials, Extra, Concurrency, Priority, RateMultiplier,
             Status, AutoPauseOnExpired, Schedulable, QuotaDimension} <= fields.Keys
    ensures Valid(fields, rt)
  {
    assert !Violates(fields, rt, RULES[0]) && !Violates(fields, rt, RULES[1]) && !Violates(fields, rt, RULES[2]);
    assert !Violates(fields, rt, RULES[3]) && !Violates(fields, rt, RULES[4]) && !Violates(fields, rt, RULES[5]);
    assert !Violates(fields, rt, RULES[6]) && !Violates(fields, rt, RULES[7]) && !Violates(fields, rt, RULES[8]);
    assert !Violates(fields, rt, RULES[9]) && !Violates(fields, rt, RULES[10]) && !Violates(fields, rt, RULES[11]);
    assert !Violates(fields, rt, RULES[12]) && !Violates(fields, rt, RULES[13]) && !Violates(fields, rt, RULES[14]);
  }

  /** A required field is missing, or a validated one has an invalid value. */
  ghost predicate Faulty(fields: Fields, rt: Runtime, f: Field) {
    if f !in fields then f != SessionWindowStatus
    else f in {Name, Platform, Type, Status, SessionWindowStatus, QuotaDimension} && !rt.valid(f, fields[f])
  }

  /** The field is the first that is at fault, in the order in which they are checked. */
  ghost predicate FirstFault(fields: Fields, rt: Runtime, f: Field) {
    var order := [CreatedAt, UpdatedAt, Name, Platform, Type, Credentials, Extra, Concurrency, Priority,
                  RateMultiplier, Status, AutoPauseOnExpired, Schedulable, SessionWindowStatus, QuotaDimension];
    exists i :: 0 <= i < |order| && order[i] == f && Faulty(fields, rt, f)
                && forall j | 0 <= j < i :: !Faulty(fields, rt, order[j])
  }

  lemma ViolatesExactly(fields: Fields, rt: Runtime, i: nat)
    requires i < |RULES|
    ensures Violates(fields, rt, RULES[i]) <==> Faulty(fields, rt, RULES[i].field)
  {
  }

  lemma FirstViolated(fields: Fields, rt: Runtime, i: nat)
    requires i < |RULES| && Violates(fields, rt, RULES[i]) && forall j | 0 <= j < i :: !Violates(fields, rt, RULES[j])
    ensures FirstFault(fields, rt, RULES[i].field)
  {
    var order := [CreatedAt, UpdatedAt, Name, Platform, Type, Credentials, Extra, Concurrency, Priority,
                  RateMultiplier, Status, AutoPauseOnExpired, Schedulable, SessionWindowStatus, QuotaDimension];
    forall j | 0 <= j <= i ensures order[j] == RULES[j].field && (Violates(fields, rt, RULES[j]) <==>
                                                                  Faulty(fields, rt, order[j])) {
      ViolatesExactly(fields, rt, j);
    }
    assert order[i] == RULES[i].field;
  }

  /** After `defaults` succeeded, only the name, the platform and the type can be missing. */
  lemma OnlyThreeCanBeMissing(fields: Fields, rt: Runtime)
    requires WithDefaults(fields, rt, DEFAULTED).1.None?
    ensures var after := WithDefaults(fields, rt, DEFAULTED).0;
            Passes(after, rt) <==> {Name, Platform, Type} <= fields.Keys && Valid(after, rt)
  {
    DefaultsSetOnlyUnset(fields, rt, DEFAULTED);
    var after := WithDefaults(fields, rt, DEFAULTED).0;
    PassesExactly(after, rt);
    ThreeAreLeft(fields, after);
  }

  lemma ThreeAreLeft(fields: Fields, after: Fields)
    requires fields.Keys <= after.Keys && forall f | f in DEFAULTED :: f in after
    requires forall f | f in after && f !in fields :: f in DEFAULTED
    ensures {CreatedAt, UpdatedAt, Name, Platform, Type, Credentials, Extra, Concurrency, Priority, RateMultiplier,
             Status, AutoPauseOnExpired, Schedulable, QuotaDimension} <= after.Keys <==>
            {Name, Platform, Type} <= fields.Keys
  {
    ElevenAreSet(after);
    SameIfUndefaulted(fields, after, Name);
    SameIfUndefaulted(fields, after, Platform);
    SameIfUndefaulted(fields, after, Type);
  }

  lemma SameIfUndefaulted(fields: Fields, after: Fields, f: Field)
    requires fields.Keys <= after.Keys && (forall g | g in after && g !in fields :: g in DEFAULTED) && f !in DEFAULTED
    ensures f in after <==> f in fields
  {
  }

  lemma ElevenAreSet(fields: Fields)
    requires forall f | f in DEFAULTED :: f in fields
    ensures {CreatedAt, UpdatedAt, Credentials, Extra, Concurrency, Priority, RateMultiplier,
             Status, AutoPauseOnExpired, Schedulable, QuotaDimension} <= fields.Keys
    ensures Name !in DEFAULTED && Platform !in DEFAULTED && Type !in DEFAULTED
  {
    assert forall i | 0 <= i < |DEFAULTED| :: DEFAULTED[i] in fields;
    assert DEFAULTED[0] in fields && DEFAULTED[1] in fields && DEFAULTED[2] in fields && DEFAULTED[3] in fields;
    assert DEFAULTED[4] in fields && DEFAULTED[5] in fields && DEFAULTED[6] in fields && DEFAULTED[7] in fields;
    assert DEFAULTED[8] in fields && DEFAULTED[9] in fields && DEFAULTED[10] in fields;
  }

  // ---------- The insert spec ----------

  datatype FieldType = TypeTime | TypeString | TypeJSON | TypeInt64 | TypeInt | TypeFloat64 | TypeBool | TypeEnum

  datatype FieldSpec = FieldSpec(column: Field, typ: FieldType, value: Value)

  datatype EdgeKind = GroupsEdge | ProxyEdge | ParentEdge | ChildrenEdge | UsageLogsEdge

  /** `fields` are those of the rows that the edge adds to its join table. */
  datatype EdgeSpec = EdgeSpec(kind: EdgeKind, nodes: seq<int>, fields: seq<FieldSpec>)

  datatype CreateSpec = CreateSpec(fields: seq<FieldSpec>, edges: seq<EdgeSpec>)

  const SPEC_FIELDS := [CreatedAt, UpdatedAt, DeletedAt, Name, Notes, Platform, Type, Credentials, Extra,
                        ProxyFallbackOriginID, Concurrency, LoadFactor, Priority, RateMultiplier, Status, ErrorMessage,
                        LastUsedAt, ExpiresAt, AutoPauseOnExpired, Schedulable, RateLimitedAt, RateLimitResetAt,
                        OverloadUntil, TempUnschedulableUntil, TempUnschedulableReason, SessionWindowStart,
                        SessionWindowEnd, SessionWindowStatus, QuotaDimension]

  /** The type under which `createSpec` stores a field or a foreign key. */
  function SpecType(f: Field): FieldType {
    match f
    case ID | ProxyID | ParentAccountID => TypeInt64
    case Credentials | Extra => TypeJSON
    case ProxyFallbackOriginID => TypeInt64
    case Concurrency | LoadFactor | Priority => TypeInt
    case RateMultiplier => TypeFloat64
    case AutoPauseOnExpired | Schedulable => TypeBool
    case QuotaDimension => TypeEnum
    case Name | Notes | Platform | Type | Status | ErrorMessage | TempUnschedulableReason
       | SessionWindowStatus => TypeString
    case _ => TypeTime
  }

  /** The Go type of the field's setter. */
  predicate HasType(v: Value, typ: FieldType) {
    match typ
    case TypeTime => v.TimeV?
    case TypeString | TypeEnum => v.StringV?
    case TypeJSON => v.JsonV?
    case TypeInt64 | TypeInt => v.IntV?
    case TypeFloat64 => v.FloatV?
    case TypeBool => v.BoolV?
  }

  ghost predicate WellTyped(fields: Fields) {
    forall f | f in fields :: HasType(fields[f], SpecType(f))
  }

  function SpecFields(fields: Fields, todo: seq<Field>): seq<FieldSpec> {
    if todo == [] then []
    else
      var front, f := SpecFields(fields, todo[..|todo| - 1]), todo[|todo| - 1];
      if f in fields then front + [FieldSpec(f, SpecType(f), fields[f])] else front
  }

  function EdgeIf(present: bool, kind: EdgeKind, nodes: seq<int>, fields: seq<FieldSpec>): seq<EdgeSpec> {
    if present then [EdgeSpec(kind, nodes, fields)] else []
  }

  /** What a fresh AccountGroup builder's own `createSpec` stores after its `defaults`. */
  function MembershipFields(rt: Runtime): seq<FieldSpec> {
    [FieldSpec(Priority, TypeInt, IntV(rt.groupPriority)), FieldSpec(CreatedAt, TypeTime, TimeV(rt.groupCreatedAt))]
  }

  function Single(id: Option<int>): seq<int> {
    if id.Some? then [id.value] else []
  }

  function SpecEdges(c: Content, rt: Runtime): seq<EdgeSpec> {
    EdgeIf(|c.groups| > 0, GroupsEdge, c.groups, MembershipFields(rt)) +
    EdgeIf(c.proxy.Some?, ProxyEdge, Single(c.proxy), []) + EdgeIf(c.parent.Some?, ParentEdge, Single(c.parent), []) +
    EdgeIf(|c.children| > 0, ChildrenEdge, c.children, []) + EdgeIf(|c.usageLogs| > 0, UsageLogsEdge, c.usageLogs, [])
  }

  function SpecOf(c: Content, rt: Runtime): CreateSpec {
    CreateSpec(SpecFields(c.fields, SPEC_FIELDS), SpecEdges(c, rt))
  }

  function Restrict(fields: Fields, to: seq<Field>): Fields {
    map f | f in fields && f in to :: fields[f]
  }

  /** A foreign key, as the node's fields hold it. */
  function KeyIf(id: Option<int>, f: Field): Fields {
    if id.Some? then map[f := IntV(id.value)] else map[]
  }

  /** The fields of the node that `createSpec` returns with the spec; it has no ID yet. */
  function NodeOf(c: Content): Fields {
    Restrict(c.fields, SPEC_FIELDS) + KeyIf(c.proxy, ProxyID) + KeyIf(c.parent, ParentAccountID)
  }

  // ---------- The stored row ----------

  /** The columns that a spec's own fields set. */
  function FieldColumns(fs: seq<FieldSpec>): Fields {
    if fs == [] then map[] else FieldColumns(fs[..|fs| - 1])[fs[|fs| - 1].column := fs[|fs| - 1].value]
  }

  /** The foreign-key columns that a spec's many-to-one edges set; the other edges are stored in
      other tables. */
  function EdgeColumns(es: seq<EdgeSpec>): Fields {
    if es == [] then map[]
    else
      var front, e := EdgeColumns(es[..|es| - 1]), es[|es| - 1];
      if e.nodes == [] then front
      else match e.kind
        case ProxyEdge => front[ProxyID := IntV(e.nodes[0])]
        case ParentEdge => front[ParentAccountID := IntV(e.nodes[0])]
        case _ => front
  }

  /** The row that inserting a spec stores, with the ID the database assigned. */
  function RowOf(spec: CreateSpec, id: int): Fields {
    (FieldColumns(spec.fields) + EdgeColumns(spec.edges))[ID := IntV(id)]
  }

  // ---------- Scanning ----------

  /** The kinds of destination that `scanValues` allocates. */
  datatype Slot = NullTime | NullString | NullInt64 | NullFloat64 | NullBool | Bytes | UnknownType

  /** A destination after scanning: NULL, or a value. */
  datatype Cell = Cell(slot: Slot, value: Option<Value>)

  function SlotOf(column: Field): Slot {
    match column
    case Credentials | Extra => Bytes
    case AutoPauseOnExpired | Schedulable => NullBool
    case RateMultiplier => NullFloat64
    case ID | ProxyID | ProxyFallbackOriginID | Concurrency | LoadFactor | Priority | ParentAccountID => NullInt64
    case Name | Notes | Platform | Type | Status | ErrorMessage | TempUnschedulableReason | SessionWindowStatus
       | QuotaDimension => NullString
    case CreatedAt | UpdatedAt | DeletedAt | LastUsedAt | ExpiresAt | RateLimitedAt | RateLimitResetAt | OverloadUntil
       | TempUnschedulableUntil | SessionWindowStart | SessionWindowEnd => NullTime
    case Other(_) => UnknownType
  }

  /** The database value can be scanned into the destination. */
  predicate Accepts(slot: Slot, v: Value) {
    match slot
    case NullTime => v.TimeV?
    case NullString => v.StringV?
    case NullInt64 => v.IntV?
    case NullFloat64 => v.FloatV?
    case NullBool => v.BoolV?
    case Bytes => v.JsonV? || v.GarbageV?
    case UnknownType => true
  }

  /** The destination that `assignValues` demands of a column; none for a column it does not know. */
  function Demanded(column: Field): Option<Slot> {
    match column
    case ID => Some(NullInt64)
    case CreatedAt => Some(NullTime)
    case UpdatedAt => Some(NullTime)
    case DeletedAt => Some(NullTime)
    case Name => Some(NullString)
    case Notes => Some(NullString)
    case Platform => Some(NullString)
    case Type => Some(NullString)
    case Credentials => Some(Bytes)
    case Extra => Some(Bytes)
    case ProxyID => Some(NullInt64)
    case ProxyFallbackOriginID => Some(NullInt64)
    case Concurrency => Some(NullInt64)
    case LoadFactor => Some(NullInt64)
    case Priority => Some(NullInt64)
    case RateMultiplier => Some(NullFloat64)
    case Status => Some(NullString)
    case ErrorMessage => Some(NullString)
    case LastUsedAt => Some(NullTime)
    case ExpiresAt => Some(NullTime)
    case AutoPauseOnExpired => Some(NullBool)
    case Schedulable => Some(NullBool)
    case RateLimitedAt => Some(NullTime)
    case RateLimitResetAt => Some(NullTime)
    case OverloadUntil => Some(NullTime)
    case TempUnschedulableUntil => Some(NullTime)
    case TempUnschedulableReason => Some(NullString)
    case SessionWindowStart => Some(NullTime)
    case SessionWindowEnd => Some(NullTime)
    case SessionWindowStatus => Some(NullString)
    case ParentAccountID => Some(NullInt64)
    case QuotaDimension => Some(NullString)
    case Other(_) => None
  }

  /** One block of `assignValues`: a NULL leaves the field alone, except that the ID is read
      without looking at its validity. */
  function AssignOne(fields: Fields, column: Field, cell: Cell): Fields {
    if Demanded(column).None? then fields
    else if column == ID then fields[ID := if cell.value.Some? then cell.value.value else IntV(0)]
    else if cell.value.Some? then fields[column := cell.value.value]
    else fields
  }

  /** A column that is demanded of another type, or holds bytes that do not unmarshal. */
  predicate Fails(column: Field, cell: Cell) {
    && Demanded(column).Some?
    && (cell.slot != Demanded(column).value || (cell.slot == Bytes && cell.value == Some(GarbageV)))
  }

  /** A node's fields and dynamically selected values, and the column at which assigning stopped. */
  datatype Assigned = Assigned(fields: Fields, selected: map<Field, Cell>, err: Option<Field>)

  /** The node after assigning the columns in turn; a column it does not know is kept aside. */
  function AssignAll(fields: Fields, selected: map<Field, Cell>, columns: seq<Field>, cells: seq<Cell>): Assigned
    requires |columns| <= |cells|
    decreases |columns|
  {
    if columns == [] then Assigned(fields, selected, None)
    else if Fails(columns[0], cells[0]) then Assigned(fields, selected, Some(columns[0]))
    else
      AssignAll(AssignOne(fields, columns[0], cells[0]),
                if Demanded(columns[0]).None? then selected[columns[0] := cells[0]] else selected,
                columns[1..], cells[1..])
  }

  function Slots(columns: seq<Field>): (slots: seq<Slot>)
    ensures |slots| == |columns|
  {
    seq(|columns|, i requires 0 <= i < |columns| => SlotOf(columns[i]))
  }

  /** What the database driver puts into the destinations for a stored row. */
  function Fill(slots: seq<Slot>, row: Fields, columns: seq<Field>): (cells: seq<Cell>)
    requires |slots| == |columns|
    ensures |cells| == |columns|
  {
    seq(|columns|, i requires 0 <= i < |columns| =>
      Cell(slots[i], if columns[i] in row then Some(row[columns[i]]) else None))
  }

  /** The cells of a stored row, in the destinations that `scanValues` allocates. */
  function Scan(row: Fields, columns: seq<Field>): (cells: seq<Cell>)
    ensures |cells| == |columns|
  {
    Fill(Slots(columns), row, columns)
  }

  // ---------- The node object ----------

  class Account {
    var fields: Fields
    var selectValues: map<Field, Cell>

    constructor (fields: Fields)
      ensures this.fields == fields && selectValues == map[]
    {
      this.fields, selectValues := fields, map[];
    }

    static method ScanValues(columns: seq<Field>) returns (slots: seq<Slot>)
      ensures slots == Slots(columns)
    {
      slots := [];
      for i := 0 to |columns|
        invariant |slots| == i && forall j | 0 <= j < i :: slots[j] == SlotOf(columns[j])
      {
        slots := slots + [SlotOf(columns[i])];
      }
    }

    /** `mismatch` reports too few values, `err` a value of an unexpected type or one that does not
        unmarshal. */
    method AssignValues(columns: seq<Field>, values: seq<Cell>) returns (mismatch: bool, err: Option<Field>)
      modifies this
      ensures mismatch <==> |values| < |columns|
      ensures mismatch ==> err.None? && fields == old(fields) && selectValues == old(selectValues)
      ensures !mismatch ==>
                Assigned(fields, selectValues, err) == AssignAll(old(fields), old(selectValues), columns, values)
    {
      if |values| < |columns| {
        return true, None;
      }
      mismatch, err := false, None;
      for i := 0 to |columns|
        invariant AssignAll(old(fields), old(selectValues), columns, values) ==
                  AssignAll(fields, selectValues, columns[i..], values[i..])
      {
        assert columns[i..][1..] == columns[i + 1..] && values[i..][1..] == values[i + 1..];
        if Fails(columns[i], values[i]) {
          return false, Some(columns[i]);
        }
        if Demanded(columns[i]).None? {
          selectValues := selectValues[columns[i] := values[i]];
        }
        fields := AssignOne(fields, columns[i], values[i]);
      }
    }
  }

  /** Reads a stored row into a new node. */
  method ReadRow(row: Fields, columns: seq<Field>) returns (node: Account, err: Option<Field>)
    ensures fresh(node)
    ensures Assigned(node.fields, node.selectValues, err) == AssignAll(map[], map[], columns, Scan(row, columns))
  {
    node := new Account(map[]);
    var slots := Account.ScanValues(columns);
    var mismatch;
    mismatch, err := node.AssignValues(columns, Fill(slots, row, columns));
  }

  /** The mutation builder's side: `defaults`, `check` and `createSpec` over its content. */
  method ApplyDefaults(fields: Fields, rt: Runtime) returns (after: Fields, err: Option<Field>)
    ensures (after, err) == WithDefaults(fields, rt, DEFAULTED)
  {
    after := fields;
    for i := 0 to |DEFAULTED|
      invariant WithDefaults(fields, rt, DEFAULTED) == WithDefaults(after, rt, DEFAULTED[i..])
    {
      assert DEFAULTED[i..][1..] == DEFAULTED[i + 1..];
      var f := DEFAULTED[i];
      if f !in after {
        if f !in rt.defaults {
          return after, Some(f);
        }
        after := after[f := rt.defaults[f]];
      }
    }
    err := None;
  }

  /** The first field at fault, if any. */
  method Check(fields: Fields, rt: Runtime) returns (err: Option<Field>)
    ensures err.None? <==> Passes(fields, rt)
    ensures err.Some? ==> FirstFault(fields, rt, err.value)
  {
    for i := 0 to |RULES|
      invariant forall j | 0 <= j < i :: !Violates(fields, rt, RULES[j])
    {
      if Violates(fields, rt, RULES[i]) {
        FirstViolated(fields, rt, i);
        return Some(RULES[i].field);
      }
    }
    err := None;
  }

  method MakeFields(fields: Fields, todo: seq<Field>) returns (specs: seq<FieldSpec>, own: Fields)
    ensures specs == SpecFields(fields, todo) && own == Restrict(fields, todo)
  {
    specs, own := [], map[];
    for i := 0 to |todo|
      invariant specs == SpecFields(fields, todo[..i]) && own == Restrict(fields, todo[..i])
    {
      var f := todo[i];
      assert todo[..i + 1] == todo[..i] + [f] && todo[..i + 1][..i] == todo[..i];
      if f in fields {
        specs := specs + [FieldSpec(f, SpecType(f), fields[f])];
        own := own[f := fields[f]];
      }
    }
    assert todo[..|todo|] == todo;
  }

  /** One block of `createSpec` for an edge. */
  method AddEdge(edges: seq<EdgeSpec>, kind: EdgeKind, nodes: seq<int>, fields: seq<FieldSpec>)
    returns (all: seq<EdgeSpec>)
    ensures all == edges + EdgeIf(|nodes| > 0, kind, nodes, fields)
  {
    all := edges;
    if |nodes| > 0 {
      all := all + [EdgeSpec(kind, nodes, fields)];
    }
  }

  /** A block for a many-to-one edge also sets the node's foreign key. */
  method AddKeyEdge(edges: seq<EdgeSpec>, fields: Fields, kind: EdgeKind, id: Option<int>, f: Field)
    returns (all: seq<EdgeSpec>, own: Fields)
    ensures all == edges + EdgeIf(id.Some?, kind, Single(id), []) && own == fields + KeyIf(id, f)
  {
    all, own := edges, fields;
    if id.Some? {
      own := own[f := IntV(id.value)];
      all := all + [EdgeSpec(kind, [id.value], [])];
    }
  }

  method MakeSpec(c: Content, rt: Runtime) returns (node: Account, spec: CreateSpec)
    ensures fresh(node) && node.fields == NodeOf(c) && spec == SpecOf(c, rt)
    ensures HoldsContent(node.fields, c) && ID !in node.fields && HoldsEdges(spec.edges, c, rt)
    ensures forall id :: HoldsContent(RowOf(spec, id), c) && RowOf(spec, id)[ID] == IntV(id)
  {
    var specs, fields := MakeFields(c.fields, SPEC_FIELDS);
    var edges := AddEdge([], GroupsEdge, c.groups, MembershipFields(rt));
    ghost var first := EdgeIf(|c.groups| > 0, GroupsEdge, c.groups, MembershipFields(rt));
    assert [] + first == first;
    edges, fields := AddKeyEdge(edges, fields, ProxyEdge, c.proxy, ProxyID);
    edges, fields := AddKeyEdge(edges, fields, ParentEdge, c.parent, ParentAccountID);
    edges := AddEdge(edges, ChildrenEdge, c.children, []);
    edges := AddEdge(edges, UsageLogsEdge, c.usageLogs, []);
    node := new Account(fields);
    spec := CreateSpec(specs, edges);
    forall id ensures HoldsContent(RowOf(spec, id), c) && RowOf(spec, id)[ID] == IntV(id) {
      SpecLosesNothing(c, rt, id);
    }
    SpecLosesNothing(c, rt, 0);
  }

  // ---------- The spec, by the fields ----------

  /** The fields are those of the mutation, and the foreign keys are those of its edges. */
  ghost predicate HoldsContent(fields: Fields, c: Content) {
    && (forall f | f in c.fields && !f.Other? && f !in {ID, ProxyID, ParentAccountID} ::
          f in fields && fields[f] == c.fields[f])
    && (forall f | f in fields && f !in {ID, ProxyID, ParentAccountID} :: f in c.fields && !f.Other?)
    && (if c.proxy.Some? then ProxyID in fields && fields[ProxyID] == IntV(c.proxy.value) else ProxyID !in fields)
    && (if c.parent.Some? then ParentAccountID in fields && fields[ParentAccountID] == IntV(c.parent.value)
        else ParentAccountID !in fields)
  }

  /** Of this kind there is one edge, to these nodes, or none if there are no nodes. */
  ghost predicate HasEdge(es: seq<EdgeSpec>, kind: EdgeKind, nodes: seq<int>, fields: seq<FieldSpec>) {
    if nodes == [] then forall i | 0 <= i < |es| :: es[i].kind != kind
    else exists i :: 0 <= i < |es| && es[i] == EdgeSpec(kind, nodes, fields)
                     && forall j | 0 <= j < |es| && j != i :: es[j].kind != kind
  }

  /** The edges of the mutation are all there, and the rows that join it with its groups have the
      priority and the creation time of the AccountGroup entity's defaults. */
  ghost predicate HoldsEdges(es: seq<EdgeSpec>, c: Content, rt: Runtime) {
    && HasEdge(es, GroupsEdge, c.groups, [FieldSpec(Priority, TypeInt, IntV(rt.groupPriority)),
                                          FieldSpec(CreatedAt, TypeTime, TimeV(rt.groupCreatedAt))])
    && HasEdge(es, ProxyEdge, if c.proxy.Some? then [c.proxy.value] else [], [])
    && HasEdge(es, ParentEdge, if c.parent.Some? then [c.parent.value] else [], [])
    && HasEdge(es, ChildrenEdge, c.children, []) && HasEdge(es, UsageLogsEdge, c.usageLogs, [])
  }

  lemma SpecFieldsHave(f: Field)
    requires f in {CreatedAt, UpdatedAt, DeletedAt, Name, Notes, Platform, Type, Credentials, Extra,
                   ProxyFallbackOriginID, Concurrency, LoadFactor, Priority, RateMultiplier, Status, ErrorMessage,
                   LastUsedAt, ExpiresAt, AutoPauseOnExpired, Schedulable, RateLimitedAt, RateLimitResetAt,
                   OverloadUntil, TempUnschedulableUntil, TempUnschedulableReason, SessionWindowStart,
                   SessionWindowEnd, SessionWindowStatus, QuotaDimension}
    ensures f in SPEC_FIELDS
  {
  }

  lemma SpecFieldsLack()
    ensures ID !in SPEC_FIELDS && ProxyID !in SPEC_FIELDS && ParentAccountID !in SPEC_FIELDS
  {
  }

  lemma SpecFieldsComplete(f: Field)
    ensures f in SPEC_FIELDS <==> !f.Other? && f !in {ID, ProxyID, ParentAccountID}
  {
    SpecFieldsKnown();
    SpecFieldsLack();
    if !f.Other? && f !in {ID, ProxyID, ParentAccountID} {
      SpecFieldsHave(f);
    }
  }

  lemma NodeHoldsContent(c: Content)
    ensures HoldsContent(NodeOf(c), c) && ID !in NodeOf(c)
  {
    var own := Restrict(c.fields, SPEC_FIELDS);
    forall f ensures f in own <==> f in c.fields && !f.Other? && f !in {ID, ProxyID, ParentAccountID} {
      SpecFieldsComplete(f);
    }
    KeysAdded(own, c);
  }

  lemma KeysAdded(own: Fields, c: Content)
    requires forall f :: f in own <==> f in c.fields && !f.Other? && f !in {ID, ProxyID, ParentAccountID}
    requires forall f | f in own :: own[f] == c.fields[f]
    ensures var fields := own + KeyIf(c.proxy, ProxyID) + KeyIf(c.parent, ParentAccountID);
            HoldsContent(fields, c) && ID !in fields
  {
  }

  ghost predicate Lacks(es: seq<EdgeSpec>, kind: EdgeKind) {
    forall i | 0 <= i < |es| :: es[i].kind != kind
  }

  lemma LacksConcat(a: seq<EdgeSpec>, b: seq<EdgeSpec>, kind: EdgeKind)
    requires Lacks(a, kind) && Lacks(b, kind)
    ensures Lacks(a + b, kind)
  {
  }

  lemma HasBetween(a: seq<EdgeSpec>, b: seq<EdgeSpec>, kind: EdgeKind, nodes: seq<int>, fields: seq<FieldSpec>)
    requires Lacks(a, kind) && Lacks(b, kind)
    ensures HasEdge(a + EdgeIf(nodes != [], kind, nodes, fields) + b, kind, nodes, fields)
  {
    var own := EdgeIf(nodes != [], kind, nodes, fields);
    if nodes == [] {
      LacksConcat(a, b, kind);
      assert a + own + b == a + b;
    } else {
      var es := a + own + b;
      assert es[|a|] == own[0];
      forall j | 0 <= j < |es| && j != |a| ensures es[j].kind != kind {
        assert es[j] == if j < |a| then a[j] else b[j - |a| - 1];
      }
    }
  }

  /** Of five groups of edges, each of another kind, every one is found whole. */
  lemma EdgeAmong(es: seq<EdgeSpec>, a: seq<EdgeSpec>, a': seq<EdgeSpec>, kind: EdgeKind, nodes: seq<int>,
                  fields: seq<FieldSpec>, b: seq<EdgeSpec>, b': seq<EdgeSpec>)
    requires es == (a + a') + EdgeIf(nodes != [], kind, nodes, fields) + (b + b')
    requires Lacks(a, kind) && Lacks(a', kind) && Lacks(b, kind) && Lacks(b', kind)
    ensures HasEdge(es, kind, nodes, fields)
  {
    LacksConcat(a, a', kind);
    LacksConcat(b, b', kind);
    HasBetween(a + a', b + b', kind, nodes, fields);
  }

  /** Each of the five edges lacks the kinds of the others. */
  ghost predicate OnlyOfKind(es: seq<EdgeSpec>, kind: EdgeKind) {
    forall k: EdgeKind | k != kind :: Lacks(es, k)
  }

  lemma EdgeIfOfKind(present: bool, kind: EdgeKind, nodes: seq<int>, fields: seq<FieldSpec>)
    ensures OnlyOfKind(EdgeIf(present, kind, nodes, fields), kind)
  {
  }

  lemma EdgesAreHeld(c: Content, rt: Runtime)
    ensures HoldsEdges(SpecEdges(c, rt), c, rt)
  {
    var groups := EdgeIf(c.groups != [], GroupsEdge, c.groups, MembershipFields(rt));
    var proxy := EdgeIf(Single(c.proxy) != [], ProxyEdge, Single(c.proxy), []);
    var parent := EdgeIf(Single(c.parent) != [], ParentEdge, Single(c.parent), []);
    var children := EdgeIf(c.children != [], ChildrenEdge, c.children, []);
    var logs := EdgeIf(c.usageLogs != [], UsageLogsEdge, c.usageLogs, []);
    EdgeIfOfKind(c.groups != [], GroupsEdge, c.groups, MembershipFields(rt));
    EdgeIfOfKind(Single(c.proxy) != [], ProxyEdge, Single(c.proxy), []);
    EdgeIfOfKind(Single(c.parent) != [], ParentEdge, Single(c.parent), []);
    EdgeIfOfKind(c.children != [], ChildrenEdge, c.children, []);
    EdgeIfOfKind(c.usageLogs != [], UsageLogsEdge, c.usageLogs, []);
    assert SpecEdges(c, rt) == groups + proxy + parent + children + logs;
    FirstHeld(c.groups, MembershipFields(rt), proxy, parent, children, logs);
    SecondHeld(groups, Single(c.proxy), parent, children, logs);
    ThirdHeld(groups, proxy, Single(c.parent), children, logs);
    FourthHeld(groups, proxy, parent, c.children, logs);
    FifthHeld(groups, proxy, parent, children, c.usageLogs);
  }

  lemma FirstHeld(nodes: seq<int>, fields: seq<FieldSpec>, b: seq<EdgeSpec>, c: seq<EdgeSpec>, d: seq<EdgeSpec>,
                  e: seq<EdgeSpec>)
    requires Lacks(b, GroupsEdge) && Lacks(c, GroupsEdge) && Lacks(d, GroupsEdge) && Lacks(e, GroupsEdge)
    ensures HasEdge(EdgeIf(nodes != [], GroupsEdge, nodes, fields) + b + c + d + e, GroupsEdge, nodes, fields)
  {
    var own := EdgeIf(nodes != [], GroupsEdge, nodes, fields);
    Regrouped(own, b, c, d, e);
    LacksConcat(b, c, GroupsEdge);
    LacksConcat(d, e, GroupsEdge);
    EdgeAmong(own + b + c + d + e, [], [], GroupsEdge, nodes, fields, b + c, d + e);
  }

  lemma SecondHeld(a: seq<EdgeSpec>, nodes: seq<int>, c: seq<EdgeSpec>, d: seq<EdgeSpec>, e: seq<EdgeSpec>)
    requires Lacks(a, ProxyEdge) && Lacks(c, ProxyEdge) && Lacks(d, ProxyEdge) && Lacks(e, ProxyEdge)
    ensures HasEdge(a + EdgeIf(nodes != [], ProxyEdge, nodes, []) + c + d + e, ProxyEdge, nodes, [])
  {
    var own := EdgeIf(nodes != [], ProxyEdge, nodes, []);
    Regrouped(a, own, c, d, e);
    LacksConcat(d, e, ProxyEdge);
    EdgeAmong(a + own + c + d + e, a, [], ProxyEdge, nodes, [], c, d + e);
  }

  lemma ThirdHeld(a: seq<EdgeSpec>, b: seq<EdgeSpec>, nodes: seq<int>, d: seq<EdgeSpec>, e: seq<EdgeSpec>)
    requires Lacks(a, ParentEdge) && Lacks(b, ParentEdge) && Lacks(d, ParentEdge) && Lacks(e, ParentEdge)
    ensures HasEdge(a + b + EdgeIf(nodes != [], ParentEdge, nodes, []) + d + e, ParentEdge, nodes, [])
  {
    var own := EdgeIf(nodes != [], ParentEdge, nodes, []);
    Regrouped(a, b, own, d, e);
    EdgeAmong(a + b + own + d + e, a, b, ParentEdge, nodes, [], d, e);
  }

  lemma FourthHeld(a: seq<EdgeSpec>, b: seq<EdgeSpec>, c: seq<EdgeSpec>, nodes: seq<int>, e: seq<EdgeSpec>)
    requires Lacks(a, ChildrenEdge) && Lacks(b, ChildrenEdge) && Lacks(c, ChildrenEdge) && Lacks(e, ChildrenEdge)
    ensures HasEdge(a + b + c + EdgeIf(nodes != [], ChildrenEdge, nodes, []) + e, ChildrenEdge, nodes, [])
  {
    var own := EdgeIf(nodes != [], ChildrenEdge, nodes, []);
    Regrouped(a, b, c, own, e);
    LacksConcat(a, b, ChildrenEdge);
    EdgeAmong(a + b + c + own + e, a + b, c, ChildrenEdge, nodes, [], e, []);
  }

  lemma FifthHeld(a: seq<EdgeSpec>, b: seq<EdgeSpec>, c: seq<EdgeSpec>, d: seq<EdgeSpec>, nodes: seq<int>)
    requires Lacks(a, UsageLogsEdge) && Lacks(b, UsageLogsEdge) && Lacks(c, UsageLogsEdge) && Lacks(d, UsageLogsEdge)
    ensures HasEdge(a + b + c + d + EdgeIf(nodes != [], UsageLogsEdge, nodes, []), UsageLogsEdge, nodes, [])
  {
    var own := EdgeIf(nodes != [], UsageLogsEdge, nodes, []);
    Regrouped(a, b, c, d, own);
    LacksConcat(a, b, UsageLogsEdge);
    LacksConcat(c, d, UsageLogsEdge);
    EdgeAmong(a + b + c + d + own, a + b, c + d, UsageLogsEdge, nodes, [], [], []);
  }

  lemma Regrouped(a: seq<EdgeSpec>, b: seq<EdgeSpec>, c: seq<EdgeSpec>, d: seq<EdgeSpec>, e: seq<EdgeSpec>)
    ensures var es := a + b + c + d + e;
            && es == ([] + []) + a + ((b + c) + (d + e)) && es == (a + []) + b + (c + (d + e))
            && es == (a + b) + c + (d + e) && es == ((a + b) + c) + d + (e + [])
            && es == ((a + b) + (c + d)) + e + ([] + [])
  {
  }

  /** `createSpec` loses nothing: the node and the stored row have every field of the mutation and
      the keys of its many-to-one edges, and the spec has all its edges. */
  lemma SpecLosesNothing(c: Content, rt: Runtime, id: int)
    ensures HoldsContent(NodeOf(c), c) && ID !in NodeOf(c)
    ensures HoldsContent(RowOf(SpecOf(c, rt), id), c) && RowOf(SpecOf(c, rt), id)[ID] == IntV(id)
    ensures HoldsEdges(SpecOf(c, rt).edges, c, rt)
  {
    NodeHoldsContent(c);
    RowIsNode(c, rt, id);
    EdgesAreHeld(c, rt);
  }

  // ---------- Create, then read back ----------

  lemma {:induction false} FieldColumnsAre(fields: Fields, todo: seq<Field>)
    ensures FieldColumns(SpecFields(fields, todo)) == Restrict(fields, todo)
  {
    if todo != [] {
      var front, f := todo[..|todo| - 1], todo[|todo| - 1];
      FieldColumnsAre(fields, front);
      assert todo == front + [f];
      if f in fields {
        var spec := FieldSpec(f, SpecType(f), fields[f]);
        assert (SpecFields(fields, front) + [spec])[..|SpecFields(fields, front)|] == SpecFields(fields, front);
      }
    }
  }

  lemma {:induction false} EdgeColumnsConcat(es: seq<EdgeSpec>, more: seq<EdgeSpec>)
    ensures EdgeColumns(es + more) == EdgeColumns(es) + EdgeColumns(more)
  {
    if more == [] {
      assert es + more == es;
    } else {
      var front := more[..|more| - 1];
      EdgeColumnsConcat(es, front);
      assert (es + more)[..|es + more| - 1] == es + front;
    }
  }

  lemma KeyEdge(kind: EdgeKind, id: Option<int>, f: Field)
    requires (kind == ProxyEdge && f == ProxyID) || (kind == ParentEdge && f == ParentAccountID)
    ensures EdgeColumns(EdgeIf(id.Some?, kind, Single(id), [])) == KeyIf(id, f)
  {
    assert EdgeColumns([]) == map[];
  }

  lemma OtherEdge(kind: EdgeKind, nodes: seq<int>, fields: seq<FieldSpec>)
    requires kind != ProxyEdge && kind != ParentEdge
    ensures EdgeColumns(EdgeIf(|nodes| > 0, kind, nodes, fields)) == map[]
  {
    assert EdgeColumns([]) == map[];
  }

  lemma EdgeColumnsAre(c: Content, rt: Runtime)
    ensures EdgeColumns(SpecEdges(c, rt)) == KeyIf(c.proxy, ProxyID) + KeyIf(c.parent, ParentAccountID)
  {
    OtherEdge(GroupsEdge, c.groups, MembershipFields(rt));
    KeyEdge(ProxyEdge, c.proxy, ProxyID);
    KeyEdge(ParentEdge, c.parent, ParentAccountID);
    OtherEdge(ChildrenEdge, c.children, []);
    OtherEdge(UsageLogsEdge, c.usageLogs, []);
    FiveEdges(EdgeIf(|c.groups| > 0, GroupsEdge, c.groups, MembershipFields(rt)),
              EdgeIf(c.proxy.Some?, ProxyEdge, Single(c.proxy), []),
              EdgeIf(c.parent.Some?, ParentEdge, Single(c.parent), []),
              EdgeIf(|c.children| > 0, ChildrenEdge, c.children, []),
              EdgeIf(|c.usageLogs| > 0, UsageLogsEdge, c.usageLogs, []));
  }

  lemma FiveEdges(a: seq<EdgeSpec>, b: seq<EdgeSpec>, c: seq<EdgeSpec>, d: seq<EdgeSpec>, e: seq<EdgeSpec>)
    requires EdgeColumns(a) == EdgeColumns(d) == EdgeColumns(e) == map[]
    ensures EdgeColumns(a + b + c + d + e) == EdgeColumns(b) + EdgeColumns(c)
  {
    EdgeColumnsConcat(a, b);
    EdgeColumnsConcat(a + b, c);
    EdgeColumnsConcat(a + b + c, d);
    EdgeColumnsConcat(a + b + c + d, e);
  }

  /** The stored row holds exactly the fields of the returned node, and the ID. */
  lemma RowIsNode(c: Content, rt: Runtime, id: int)
    ensures RowOf(SpecOf(c, rt), id) == NodeOf(c)[ID := IntV(id)]
  {
    FieldColumnsAre(c.fields, SPEC_FIELDS);
    EdgeColumnsAre(c, rt);
  }

  /** Scanning allocates for every column the destination that assigning demands. */
  lemma DemandIsMet(f: Field)
    ensures Demanded(f) == if f.Other? then None else Some(SlotOf(f))
  {
  }

  /** The destination takes whatever the spec stores in the column. */
  lemma SlotAccepts(f: Field, v: Value)
    requires HasType(v, SpecType(f)) && !f.Other?
    ensures Accepts(SlotOf(f), v)
  {
  }

  /** The fields after assigning every column of a stored row. */
  function Overlay(fields: Fields, row: Fields, columns: seq<Field>): Fields {
    fields + Restrict(row, columns)
  }

  /** The columns that are no fields of the entity, all of them empty. */
  function Unknown(columns: seq<Field>): map<Field, Cell> {
    map f | f in columns && f.Other? :: Cell(UnknownType, None)
  }

  /** The row has the entity's columns only, and no bytes that do not unmarshal. */
  ghost predicate Readable(row: Fields) {
    ID in row && forall f | f in row :: !f.Other? && !row[f].GarbageV?
  }

  function CellOf(row: Fields, f: Field): Cell {
    Cell(SlotOf(f), if f in row then Some(row[f]) else None)
  }

  lemma AssignOneScanned(fields: Fields, row: Fields, f: Field)
    requires Readable(row)
    ensures AssignOne(fields, f, CellOf(row, f)) == if f in row then fields[f := row[f]] else fields
    ensures !Fails(f, CellOf(row, f)) && (Demanded(f).None? <==> f.Other?)
    ensures f.Other? ==> CellOf(row, f) == Cell(UnknownType, None)
  {
    DemandIsMet(f);
  }

  /** The cell is not what `scanValues` allocates for the column, or holds bytes that are no JSON. */
  ghost predicate Unreadable(column: Field, cell: Cell) {
    !column.Other? && (cell.slot != SlotOf(column) || cell == Cell(Bytes, Some(GarbageV)))
  }

  /** Assigning stops at the first column that cannot be read, if there is one. */
  lemma {:induction false} StopsExactly(fields: Fields, selected: map<Field, Cell>, columns: seq<Field>,
                                        cells: seq<Cell>)
    requires |columns| == |cells|
    ensures var r := AssignAll(fields, selected, columns, cells);
            && (r.err == None <==> forall i | 0 <= i < |columns| :: !Unreadable(columns[i], cells[i]))
            && (r.err.Some? ==> exists i :: 0 <= i < |columns| && columns[i] == r.err.value
                                            && Unreadable(columns[i], cells[i])
                                            && forall j | 0 <= j < i :: !Unreadable(columns[j], cells[j]))
    decreases |columns|
  {
    if columns != [] {
      DemandIsMet(columns[0]);
      var rest, cells' := columns[1..], cells[1..];
      assert forall i | 1 <= i < |columns| :: columns[i] == rest[i - 1] && cells[i] == cells'[i - 1];
      if !Fails(columns[0], cells[0]) {
        var selected' := if Demanded(columns[0]).None? then selected[columns[0] := cells[0]] else selected;
        StopsExactly(AssignOne(fields, columns[0], cells[0]), selected', rest, cells');
        var err := AssignAll(fields, selected, columns, cells).err;
        if err.Some? {
          var i :| 0 <= i < |rest| && rest[i] == err.value && Unreadable(rest[i], cells'[i])
                   && forall j | 0 <= j < i :: !Unreadable(rest[j], cells'[j]);
          assert columns[i + 1] == err.value && Unreadable(columns[i + 1], cells[i + 1]);
        }
      }
    }
  }

  lemma OverlayStep(fields: Fields, row: Fields, f: Field, rest: seq<Field>)
    ensures Overlay(if f in row then fields[f := row[f]] else fields, row, rest) == Overlay(fields, row, [f] + rest)
  {
  }

  lemma UnknownStep(selected: map<Field, Cell>, f: Field, rest: seq<Field>)
    ensures (if f.Other? then selected[f := Cell(UnknownType, None)] else selected) + Unknown(rest) ==
            selected + Unknown([f] + rest)
  {
  }

  lemma {:induction false} AssignScanned(fields: Fields, selected: map<Field, Cell>, row: Fields, columns: seq<Field>)
    requires Readable(row)
    ensures AssignAll(fields, selected, columns, Scan(row, columns)) ==
            Assigned(Overlay(fields, row, columns), selected + Unknown(columns), None)
    decreases |columns|
  {
    if columns == [] {
      assert Overlay(fields, row, columns) == fields && selected + Unknown(columns) == selected;
    } else {
      var f, rest := columns[0], columns[1..];
      assert columns == [f] + rest;
      assert Scan(row, columns)[0] == CellOf(row, f) && Scan(row, columns)[1..] == Scan(row, rest);
      AssignOneScanned(fields, row, f);
      AssignScanned(if f in row then fields[f := row[f]] else fields,
                    if f.Other? then selected[f := Cell(UnknownType, None)] else selected, row, rest);
      OverlayStep(fields, row, f, rest);
      UnknownStep(selected, f, rest);
    }
  }

  lemma TypedPlus(fields: Fields, more: Fields)
    requires WellTyped(fields) && WellTyped(more)
    ensures WellTyped(fields + more)
  {
  }

  lemma KeyTyped(f: Field, id: int)
    requires f == ID || f == ProxyID || f == ParentAccountID
    ensures WellTyped(map[f := IntV(id)])
  {
  }

  lemma KeyIfTyped(id: Option<int>, f: Field)
    requires f == ID || f == ProxyID || f == ParentAccountID
    ensures WellTyped(KeyIf(id, f))
  {
    if id.Some? {
      KeyTyped(f, id.value);
    }
  }

  lemma RowTyped(own: Fields, proxy: Fields, parent: Fields, id: int)
    requires WellTyped(own) && WellTyped(proxy) && WellTyped(parent)
    ensures WellTyped((own + proxy + parent)[ID := IntV(id)])
  {
    KeyTyped(ID, id);
    TypedPlus(own, proxy);
    TypedPlus(own + proxy, parent);
    TypedPlus(own + proxy + parent, map[ID := IntV(id)]);
    assert (own + proxy + parent)[ID := IntV(id)] == own + proxy + parent + map[ID := IntV(id)];
  }

  lemma NodeWellTyped(c: Content, id: int)
    requires WellTyped(c.fields)
    ensures WellTyped(NodeOf(c)[ID := IntV(id)])
  {
    KeyIfTyped(c.proxy, ProxyID);
    KeyIfTyped(c.parent, ParentAccountID);
    RowTyped(Restrict(c.fields, SPEC_FIELDS), KeyIf(c.proxy, ProxyID), KeyIf(c.parent, ParentAccountID), id);
  }

  /** Every stored value can be scanned into the destination of its column. */
  ghost predicate Scannable(row: Fields, columns: seq<Field>) {
    forall f | f in columns && f in row :: Accepts(SlotOf(f), row[f])
  }

  lemma WellTypedScans(row: Fields, columns: seq<Field>)
    requires WellTyped(row) && Readable(row)
    ensures Scannable(row, columns)
  {
    forall f | f in columns && f in row ensures Accepts(SlotOf(f), row[f]) {
      SlotAccepts(f, row[f]);
    }
  }

  lemma SpecFieldsKnown()
    ensures forall f | f in SPEC_FIELDS :: !f.Other?
  {
  }

  lemma NodeReadable(c: Content, id: int)
    requires WellTyped(c.fields)
    ensures Readable(NodeOf(c)[ID := IntV(id)]) && WellTyped(NodeOf(c)[ID := IntV(id)])
  {
    NodeWellTyped(c, id);
    SpecFieldsKnown();
    var row := NodeOf(c)[ID := IntV(id)];
    forall f | f in row ensures !f.Other? && !row[f].GarbageV? {
      assert HasType(row[f], SpecType(f));
    }
  }

  lemma OverlayAll(row: Fields, columns: seq<Field>)
    requires forall f | f in row :: f in columns
    ensures Overlay(map[], row, columns) == row
  {
  }

  /** A created node equals the node read back from its row: whatever the content of the mutation
      and in whatever order the columns are selected, every value fits its destination, no column
      has the wrong type, and all fields and both foreign keys come back. Columns that the entity
      does not have are kept aside, and change nothing. */
  lemma CreateThenRead(c: Content, rt: Runtime, id: int, columns: seq<Field>)
    requires WellTyped(c.fields)
    requires forall f | f in RowOf(SpecOf(c, rt), id) :: f in columns
    ensures Scannable(RowOf(SpecOf(c, rt), id), columns)
    ensures AssignAll(map[], map[], columns, Scan(RowOf(SpecOf(c, rt), id), columns)) ==
            Assigned(NodeOf(c)[ID := IntV(id)], Unknown(columns), None)
  {
    var row := RowOf(SpecOf(c, rt), id);
    RowIsNode(c, rt, id);
    NodeReadable(c, id);
    WellTypedScans(row, columns);
    AssignScanned(map[], map[], row, columns);
    OverlayAll(row, columns);
    assert map[] + Unknown(columns) == Unknown(columns);
  }
}
