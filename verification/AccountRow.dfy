/** The columns of an account: defaults and checks of a create, the row it
    describes, and the scan that reads a row back
    (backend/ent/account_create.go:605-1026, backend/ent/account.go:201-477). */
module AccountRow {
  import opened Wrappers

  datatype Column =
    | Id | CreatedAt | UpdatedAt | DeletedAt | Name | Notes | Platform | Type | Credentials | Extra
    | ProxyId | ProxyFallbackOriginId | Concurrency | LoadFactor | Priority | RateMultiplier | Status | ErrorMessage
    | LastUsedAt | ExpiresAt | AutoPauseOnExpired | Schedulable | RateLimitedAt | RateLimitResetAt | OverloadUntil
    | TempUnschedulableUntil | TempUnschedulableReason | SessionWindowStart | SessionWindowEnd | SessionWindowStatus
    | ParentAccountId | QuotaDimension | ConnectionId | Protocol | EndpointPath | ConfigVersion
    | Unknown(name: string)

  /** A database value; a JSON document is never the empty text. */
  datatype Value = Int(i: int) | Str(s: string) | Flag(b: bool) | Float(r: real) | Time(at: int) | Doc(json: string)

  /** The fields of an entity that are set; a missing one is nil or zero. */
  type Fields = map<Column, Value>

  // ------------------------------------------------------------ scan and assign

  /** What a column is scanned into. */
  datatype Kind = Bytes | NullBool | NullFloat64 | NullInt64 | NullString | NullTime | UnknownType

  /** A holder after the driver has filled it: None for SQL NULL. */
  datatype Holder = Holder(kind: Kind, value: Option<Value>)

  /** The switch of scanValues. */
  function ScanKind(c: Column): Kind {
    match c
    case Credentials | Extra => Bytes
    case AutoPauseOnExpired | Schedulable => NullBool
    case RateMultiplier => NullFloat64
    case Id | ProxyId | ProxyFallbackOriginId | Concurrency | LoadFactor | Priority | ParentAccountId | ConnectionId
       | ConfigVersion => NullInt64
    case Name | Notes | Platform | Type | Status | ErrorMessage | TempUnschedulableReason | SessionWindowStatus
       | QuotaDimension | Protocol | EndpointPath => NullString
    case CreatedAt | UpdatedAt | DeletedAt | LastUsedAt | ExpiresAt | RateLimitedAt | RateLimitResetAt | OverloadUntil
       | TempUnschedulableUntil | SessionWindowStart | SessionWindowEnd => NullTime
    case Unknown(_) => UnknownType
  }

  /** The type each case of assignValues asserts; None in the default case. */
  function AssertedKind(c: Column): Option<Kind> {
    match c
    case Id => Some(NullInt64)
    case CreatedAt => Some(NullTime)
    case UpdatedAt => Some(NullTime)
    case DeletedAt => Some(NullTime)
    case Name => Some(NullString)
    case Notes => Some(NullString)
    case Platform => Some(NullString)
    case Type => Some(NullString)
    case Credentials => Some(Bytes)
    case Extra => Some(Bytes)
    case ProxyId => Some(NullInt64)
    case ProxyFallbackOriginId => Some(NullInt64)
    case Concurrency => Some(NullInt64)
    case LoadFactor => Some(NullInt64)
    case Priority => Some(NullInt64)
    case RateMultiplier => Some(NullFloat64)
    case Status => Some(NullString)
    case ErrorMessage => Some(NullString)
    case LastUsedAt => Some(NullTime)
    case ExpiresAt => Some(NullTime)
    case AutoPauseOnExpired => Some(NullBool)
    case Schedulable => Some(NullBool)
    case RateLimitedAt => Some(NullTime)
    case RateLimitResetAt => Some(NullTime)
    case OverloadUntil => Some(NullTime)
    case TempUnschedulableUntil => Some(NullTime)
    case TempUnschedulableReason => Some(NullString)
    case SessionWindowStart => Some(NullTime)
    case SessionWindowEnd => Some(NullTime)
    case SessionWindowStatus => Some(NullString)
    case ParentAccountId => Some(NullInt64)
    case QuotaDimension => Some(NullString)
    case ConnectionId => Some(NullInt64)
    case Protocol => Some(NullString)
    case EndpointPath => Some(NullString)
    case ConfigVersion => Some(NullInt64)
    case Unknown(_) => None
  }

  method ScanValues(columns: seq<Column>) returns (kinds: seq<Kind>)
    ensures |kinds| == |columns| && forall i :: 0 <= i < |columns| ==> kinds[i] == ScanKind(columns[i])
  {
    kinds := [];
    for i := 0 to |columns|
      invariant |kinds| == i && forall j :: 0 <= j < i ==> kinds[j] == ScanKind(columns[j])
    {
      kinds := kinds + [ScanKind(columns[i])];
    }
  }

  /** The driver fills holders of the given kinds from a row. */
  function Fill(kinds: seq<Kind>, columns: seq<Column>, row: Fields): seq<Holder>
    requires |kinds| == |columns|
  {
    seq(|columns|, i requires 0 <= i < |columns| =>
      Holder(kinds[i], Lookup(row, columns[i])))
  }

  /** A fetched entity: its known fields, and the dynamically selected values. */
  datatype Entity = Entity(fields: Fields, selected: map<string, Option<Value>>)

  /** The columns of a row that a column list fetches, split into known and dynamic. */
  function FetchedFields(columns: seq<Column>, row: Fields): Fields {
    map c | c in row && c in columns && !c.Unknown? :: row[c]
  }

  function Lookup(row: Fields, c: Column): Option<Value> {
    if c in row then Some(row[c]) else None
  }

  function FetchedSelected(columns: seq<Column>, row: Fields): map<string, Option<Value>> {
    map c | c in columns && c.Unknown? :: c.name := Lookup(row, c)
  }

  function Fetched(columns: seq<Column>, row: Fields): Entity {
    Entity(FetchedFields(columns, row), FetchedSelected(columns, row))
  }

  /** The bytes of a document column can be unmarshalled; `parses` stands for
      json.Unmarshal into the field. */
  predicate Readable(v: Value, parses: string -> bool) {
    v.Doc? ==> parses(v.json)
  }

  /** One case of assignValues: a type assertion, then the field is set unless
      the value is NULL; a document is unmarshalled. The default case keeps the
      value under its name. */
  function AssignOne(e: Entity, c: Column, asserted: Option<Kind>, h: Holder, parses: string -> bool): Result<Entity, string> {
    if asserted.None? then
      Ok(if c.Unknown? then e.(selected := e.selected[c.name := h.value]) else e)
    else if asserted.value != h.kind then Err("unexpected type")
    else if asserted.value == Bytes && h.value.Some? && !Readable(h.value.value, parses) then Err("unmarshal field")
    else Ok(if h.value.Some? then e.(fields := e.fields[c := h.value.value]) else e)
  }

  function AssignAll(columns: seq<Column>, values: seq<Holder>, parses: string -> bool): Result<Entity, string>
    requires |values| >= |columns|
    decreases |columns|
  {
    if columns == [] then Ok(Entity(map[], map[])) else
      var k := |columns| - 1;
      match AssignAll(columns[..k], values, parses)
      case Err(m) => Err(m)
      case Ok(e) => AssignOne(e, columns[k], AssertedKind(columns[k]), values[k], parses)
  }

  /** assignValues: a loop over the columns that ends at the first error. */
  method AssignValues(columns: seq<Column>, values: seq<Holder>, parses: string -> bool) returns (r: Result<Entity, string>)
    ensures |values| < |columns| ==> r.Err?
    ensures |values| >= |columns| ==> r == AssignAll(columns, values, parses)
  {
    if |values| < |columns| {
      return Err("mismatch number of scan values");
    }
    r := Ok(Entity(map[], map[]));
    for i := 0 to |columns|
      invariant r == AssignAll(columns[..i], values, parses) && r.Ok?
    {
      assert columns[..i + 1][..i] == columns[..i];
      r := AssignOne(r.value, columns[i], AssertedKind(columns[i]), values[i], parses);
      if r.Err? {
        AssignAllStops(columns, values, parses, i + 1);
        return;
      }
    }
    assert columns[..|columns|] == columns;
  }

  lemma {:induction false} AssignAllStops(columns: seq<Column>, values: seq<Holder>, parses: string -> bool, i: nat)
    requires i <= |columns| <= |values| && AssignAll(columns[..i], values, parses).Err?
    ensures AssignAll(columns, values, parses) == AssignAll(columns[..i], values, parses)
    decreases |columns|
  {
    if i == |columns| {
      assert columns[..i] == columns;
    } else {
      var k := |columns| - 1;
      assert columns[..k][..i] == columns[..i];
      AssignAllStops(columns[..k], values, parses, i);
    }
  }

  /** Holder `i` does not fit its column: it is of another type than the column is
      read as, or holds a document that cannot be unmarshalled. */
  ghost predicate Misfits(c: Column, h: Holder, parses: string -> bool) {
    && !c.Unknown?
    && (h.kind != ScanKind(c)
        || ((c == Credentials || c == Extra) && h.value.Some? && h.value.value.Doc? && !parses(h.value.value.json)))
  }

  lemma AssignOneExactly(e: Entity, c: Column, h: Holder, parses: string -> bool)
    ensures var r := AssignOne(e, c, AssertedKind(c), h, parses);
            && (r.Err? <==> Misfits(c, h, parses))
            && (r.Ok? ==> r.value == (if c.Unknown? then e.(selected := e.selected[c.name := h.value])
                                      else if h.value.Some? then e.(fields := e.fields[c := h.value.value]) else e))
  {
    KindsAgree(c);
  }

  /** Whatever holders it is given, assignValues fails exactly when one of them does
      not fit; otherwise each known column has the last value given for it, if any
      was not NULL, and exactly the unknown columns are kept under their names. */
  lemma {:induction false} AssignAllExactly(columns: seq<Column>, values: seq<Holder>, parses: string -> bool)
    requires |values| >= |columns|
    ensures var r := AssignAll(columns, values, parses);
            && (r.Err? <==> exists i :: 0 <= i < |columns| && Misfits(columns[i], values[i], parses))
            && (r.Ok? ==> forall c: Column :: !c.Unknown? ==> Lookup(r.value.fields, c) == LastValue(columns, values, c))
            && (r.Ok? ==> forall c: Column :: c in r.value.fields ==> !c.Unknown?)
            && (r.Ok? ==> forall name :: name in r.value.selected <==> Unknown(name) in columns)
    decreases |columns|
  {
    if columns != [] {
      var k := |columns| - 1;
      AssignAllExactly(columns[..k], values, parses);
      var r := AssignAll(columns[..k], values, parses);
      if r.Ok? {
        AssignOneExactly(r.value, columns[k], values[k], parses);
      }
    }
  }

  /** The last value other than NULL that the holders give a column. */
  function LastValue(columns: seq<Column>, values: seq<Holder>, c: Column): Option<Value>
    requires |values| >= |columns|
    decreases |columns|
  {
    if columns == [] then None else
      var k := |columns| - 1;
      if columns[k] == c && values[k].value.Some? then values[k].value else LastValue(columns[..k], values, c)
  }

  /** The two switches agree column by column: a holder made for a known column
      passes that column's assertion. */
  lemma KindsAgree(c: Column)
    ensures AssertedKind(c) == if c.Unknown? then None else Some(ScanKind(c))
  {}

  function ScanKinds(columns: seq<Column>): seq<Kind> {
    seq(|columns|, i requires 0 <= i < |columns| => ScanKind(columns[i]))
  }

  lemma FetchedFieldsSnoc(columns: seq<Column>, c: Column, row: Fields)
    ensures FetchedFields(columns + [c], row) ==
            if !c.Unknown? && c in row then FetchedFields(columns, row)[c := row[c]] else FetchedFields(columns, row)
  {
    assert forall x :: x in columns + [c] <==> x in columns || x == c;
  }

  lemma FetchedSelectedSnoc(columns: seq<Column>, c: Column, row: Fields)
    ensures FetchedSelected(columns + [c], row) ==
            if c.Unknown? then FetchedSelected(columns, row)[c.name := Lookup(row, c)] else FetchedSelected(columns, row)
  {
    var before, after := FetchedSelected(columns, row), FetchedSelected(columns + [c], row);
    assert forall x :: x in columns + [c] <==> x in columns || x == c;
    forall n ensures n in after <==> n in before || (c.Unknown? && n == c.name) {
      assert n in before <==> Unknown(n) in columns;
      assert n in after <==> Unknown(n) in columns + [c];
    }
  }

  /** Every document the columns fetch from a row can be unmarshalled. */
  ghost predicate AllReadable(columns: seq<Column>, row: Fields, parses: string -> bool) {
    forall c :: c in columns && c in row && (c == Credentials || c == Extra) && row[c].Doc? ==> parses(row[c].json)
  }

  lemma AllReadableSnoc(columns: seq<Column>, c: Column, row: Fields, parses: string -> bool)
    ensures AllReadable(columns + [c], row, parses) <==>
            AllReadable(columns, row, parses)
            && (c in row && (c == Credentials || c == Extra) && row[c].Doc? ==> parses(row[c].json))
  {
    assert forall x :: x in columns + [c] <==> x in columns || x == c;
  }

  lemma AssignAllSnoc(rest: seq<Column>, c: Column, values: seq<Holder>, parses: string -> bool)
    requires |values| > |rest|
    ensures AssignAll(rest + [c], values, parses) ==
            match AssignAll(rest, values, parses)
            case Err(m) => Err(m)
            case Ok(e) => AssignOne(e, c, AssertedKind(c), values[|rest|], parses)
  {
    assert (rest + [c])[..|rest|] == rest;
  }

  /** What reading a row gives: the fetched columns, unless a fetched document
      cannot be unmarshalled. */
  ghost predicate ReadsRow(columns: seq<Column>, row: Fields, parses: string -> bool, r: Result<Entity, string>) {
    r == if AllReadable(columns, row, parses) then Ok(Fetched(columns, row)) else Err("unmarshal field")
  }

  lemma OneMoreColumn(rest: seq<Column>, c: Column, row: Fields, parses: string -> bool, r: Result<Entity, string>)
    requires ReadsRow(rest, row, parses, r)
    ensures ReadsRow(rest + [c], row, parses,
                     match r
                     case Err(m) => Err(m)
                     case Ok(e) => AssignOne(e, c, AssertedKind(c), Holder(ScanKind(c), Lookup(row, c)), parses))
  {
    KindsAgree(c);
    AllReadableSnoc(rest, c, row, parses);
    AssignFetched(rest, c, row, if c.Unknown? then None else Some(ScanKind(c)), ScanKind(c), parses);
  }

  /** For any column list (any order, repetitions, unknown names) and any row,
      the holders of scanValues pass every assertion of assignValues: the entity
      gets exactly the fetched columns of the row, unless a fetched document
      cannot be unmarshalled, which is the only error. */
  lemma {:induction false} ScanThenAssign(columns: seq<Column>, row: Fields, parses: string -> bool)
    ensures AssignAll(columns, Fill(ScanKinds(columns), columns, row), parses) ==
            if AllReadable(columns, row, parses) then Ok(Fetched(columns, row)) else Err("unmarshal field")
    decreases |columns|
  {
    if columns != [] {
      var rest, c := columns[..|columns| - 1], columns[|columns| - 1];
      assert columns == rest + [c];
      var values := Fill(ScanKinds(columns), columns, row);
      ScanThenAssign(rest, row, parses);
      AssignAllPrefix(rest, values, Fill(ScanKinds(rest), rest, row), parses);
      AssignAllSnoc(rest, c, values, parses);
      OneMoreColumn(rest, c, row, parses, AssignAll(rest, values, parses));
    }
  }

  /** One more column of a row, scanned into a holder of the asserted kind. */
  lemma AssignFetched(rest: seq<Column>, c: Column, row: Fields, asserted: Option<Kind>, kind: Kind, parses: string -> bool)
    requires asserted == if c.Unknown? then None else Some(kind)
    ensures AssignOne(Fetched(rest, row), c, asserted, Holder(kind, Lookup(row, c)), parses) ==
            if !c.Unknown? && kind == Bytes && c in row && row[c].Doc? && !parses(row[c].json) then Err("unmarshal field")
            else Ok(Fetched(rest + [c], row))
  {
    FetchedSelectedSnoc(rest, c, row);
    FetchedFieldsSnoc(rest, c, row);
  }

  lemma {:induction false} AssignAllPrefix(columns: seq<Column>, values: seq<Holder>, other: seq<Holder>,
                                           parses: string -> bool)
    requires |values| >= |columns| && |other| >= |columns|
    requires forall i :: 0 <= i < |columns| ==> values[i] == other[i]
    ensures AssignAll(columns, values, parses) == AssignAll(columns, other, parses)
    decreases |columns|
  {
    if columns != [] {
      AssignAllPrefix(columns[..|columns| - 1], values, other, parses);
    }
  }

  // ------------------------------------------------------- defaults and checks

  datatype ManyEdge = Groups | EndpointProbes | Children | UsageLogs

  /** A pending create: the set fields, the foreign keys of its to-one edges, and
      the ids added to its to-many edges. */
  datatype Mutation = Mutation(fields: Fields, proxy: Option<int>, connection: Option<int>, parent: Option<int>,
                               many: map<ManyEdge, set<int>>)

  function ManyIds(m: Mutation, e: ManyEdge): set<int> {
    if e in m.many then m.many[e] else {}
  }

  /** The defaults taken from functions, which may be missing at run time, and
      the constant ones, in the order of `defaults`. */
  const COMPUTED: seq<Column> := [CreatedAt, UpdatedAt, Credentials, Extra]
  const CONSTANT: seq<Column> := [Concurrency, Priority, RateMultiplier, Status, AutoPauseOnExpired, Schedulable,
                                  QuotaDimension, ConfigVersion]

  predicate IsRequired(c: Column) {
    match c
    case CreatedAt | UpdatedAt | Name | Platform | Type | Credentials | Extra | Concurrency | Priority
       | RateMultiplier | Status | AutoPauseOnExpired | Schedulable | QuotaDimension | ConfigVersion => true
    case _ => false
  }

  predicate IsValidated(c: Column) {
    match c
    case Name | Platform | Type | Status | SessionWindowStatus | QuotaDimension | Protocol => true
    case _ => false
  }

  /** check: every required field is set, every validator accepts the value it
      is given. `accepts` stands for the validators. */
  predicate Checks(f: Fields, accepts: (Column, Value) -> bool) {
    && CreatedAt in f && UpdatedAt in f
    && Name in f && accepts(Name, f[Name])
    && Platform in f && accepts(Platform, f[Platform])
    && Type in f && accepts(Type, f[Type])
    && Credentials in f && Extra in f && Concurrency in f && Priority in f && RateMultiplier in f
    && Status in f && accepts(Status, f[Status])
    && AutoPauseOnExpired in f && Schedulable in f
    && (SessionWindowStatus in f ==> accepts(SessionWindowStatus, f[SessionWindowStatus]))
    && QuotaDimension in f && accepts(QuotaDimension, f[QuotaDimension])
    && (Protocol in f ==> accepts(Protocol, f[Protocol]))
    && ConfigVersion in f
  }

  lemma CheckedRequired(f: Fields, accepts: (Column, Value) -> bool, c: Column)
    requires Checks(f, accepts) && IsRequired(c)
    ensures c in f
  {}

  lemma CheckedValidated(f: Fields, accepts: (Column, Value) -> bool, c: Column)
    requires Checks(f, accepts) && IsValidated(c) && c in f
    ensures accepts(c, f[c])
  {}

  ghost predicate RequiredSet(f: Fields) {
    forall c :: IsRequired(c) ==> c in f
  }

  ghost predicate ValidatedOk(f: Fields, accepts: (Column, Value) -> bool) {
    forall c :: IsValidated(c) && c in f ==> accepts(c, f[c])
  }

  lemma HasRequired(f: Fields)
    requires RequiredSet(f)
    ensures CreatedAt in f && UpdatedAt in f && Name in f && Platform in f && Type in f && Credentials in f && Extra in f
    ensures Concurrency in f && Priority in f && RateMultiplier in f && Status in f && AutoPauseOnExpired in f
    ensures Schedulable in f && QuotaDimension in f && ConfigVersion in f
  {
    assert IsRequired(CreatedAt) && IsRequired(UpdatedAt) && IsRequired(Name) && IsRequired(Platform) && IsRequired(Type);
    assert IsRequired(Credentials) && IsRequired(Extra) && IsRequired(Concurrency) && IsRequired(Priority);
    assert IsRequired(RateMultiplier) && IsRequired(Status) && IsRequired(AutoPauseOnExpired) && IsRequired(Schedulable);
    assert IsRequired(QuotaDimension) && IsRequired(ConfigVersion);
  }

  /** The chain of checks passes exactly when every required field is set and
      every validated field that is set is accepted. */
  lemma ChecksExactly(f: Fields, accepts: (Column, Value) -> bool)
    ensures Checks(f, accepts) <==> RequiredSet(f) && ValidatedOk(f, accepts)
  {
    if Checks(f, accepts) {
      forall c | IsRequired(c) ensures c in f {
        CheckedRequired(f, accepts, c);
      }
      forall c | IsValidated(c) && c in f ensures accepts(c, f[c]) {
        CheckedValidated(f, accepts, c);
      }
    } else if RequiredSet(f) {
      HasRequired(f);
      assert IsValidated(Name) && IsValidated(Platform) && IsValidated(Type) && IsValidated(Status);
      assert IsValidated(SessionWindowStatus) && IsValidated(QuotaDimension) && IsValidated(Protocol);
    }
  }

  /** What defaults leaves in the mutation, and whether it ended without error. */
  ghost predicate Defaulted(f: Fields, given: Fields, g: Fields, ok: bool) {
    && (forall c :: c in f ==> c in g && g[c] == f[c])
    && (forall c :: c in g && c !in f ==> c in given && g[c] == given[c])
    && (ok ==> forall c :: c in g <==> c in f || c in COMPUTED || c in CONSTANT)
    && (!ok ==> exists c :: c in COMPUTED && c !in g && c !in given)
  }

  /** The unset fields of `order`, one after the other, get their default; the
      first one without a default ends the loop. */
  method FillDefaults(f: Fields, given: Fields, order: seq<Column>) returns (g: Fields, ok: bool)
    ensures forall c :: c in f ==> c in g && g[c] == f[c]
    ensures forall c :: c in g && c !in f ==> c in given && g[c] == given[c]
    ensures ok ==> forall c :: c in g <==> c in f || c in order
    ensures !ok ==> exists c :: c in order && c !in g && c !in given
  {
    g := f;
    for i := 0 to |order|
      invariant forall c :: c in f ==> c in g && g[c] == f[c]
      invariant forall c :: c in g && c !in f ==> c in given && g[c] == given[c]
      invariant forall c :: c in g <==> c in f || c in order[..i]
    {
      var c := order[i];
      assert order[..i + 1] == order[..i] + [c];
      if c !in g {
        if c !in given {
          assert c in order;
          return g, false;
        }
        g := g[c := given[c]];
      }
    }
    assert order[..|order|] == order;
    ok := true;
  }

  /** defaults: unset fields get their default; a missing default function ends
      it with an error, the fields set so far staying set. */
  method Defaults(f: Fields, given: Fields) returns (g: Fields, ok: bool)
    requires forall c :: c in CONSTANT ==> c in given
    ensures Defaulted(f, given, g, ok)
  {
    var computed, complete := FillDefaults(f, given, COMPUTED);
    if !complete {
      return computed, false;
    }
    g, ok := FillDefaults(computed, given, CONSTANT);
  }

  lemma InComputed(c: Column)
    ensures c in COMPUTED <==> c == CreatedAt || c == UpdatedAt || c == Credentials || c == Extra
  {
    assert COMPUTED[0] == CreatedAt && COMPUTED[1] == UpdatedAt && COMPUTED[2] == Credentials && COMPUTED[3] == Extra;
  }

  lemma InConstant(c: Column)
    ensures c in CONSTANT <==>
            || c == Concurrency || c == Priority || c == RateMultiplier || c == Status || c == AutoPauseOnExpired
            || c == Schedulable || c == QuotaDimension || c == ConfigVersion
  {
    assert CONSTANT[0] == Concurrency && CONSTANT[1] == Priority && CONSTANT[2] == RateMultiplier && CONSTANT[3] == Status;
    assert CONSTANT[4] == AutoPauseOnExpired && CONSTANT[5] == Schedulable && CONSTANT[6] == QuotaDimension;
    assert CONSTANT[7] == ConfigVersion;
  }

  lemma RequiredOrDefaulted(c: Column)
    ensures IsRequired(c) <==> c in COMPUTED || c in CONSTANT || c == Name || c == Platform || c == Type
  {
    InComputed(c);
    InConstant(c);
  }

  /** After defaults the check passes exactly when defaults reported no error,
      name, platform and type were set, and all validators accept. A bulk save
      drops the error of defaults; its check reports the same builders. */
  lemma ChecksAfterDefaults(f: Fields, given: Fields, g: Fields, ok: bool, accepts: (Column, Value) -> bool)
    requires Defaulted(f, given, g, ok)
    requires Name !in given && Platform !in given && Type !in given
    ensures Checks(g, accepts) <==> ok && Name in f && Platform in f && Type in f && ValidatedOk(g, accepts)
  {
    ChecksExactly(g, accepts);
    if RequiredSet(g) {
      HasRequired(g);
      if !ok {
        var c :| c in COMPUTED && c !in g && c !in given;
        RequiredOrDefaulted(c);
      }
    } else if ok && Name in f && Platform in f && Type in f {
      var c :| IsRequired(c) && c !in g;
      RequiredOrDefaulted(c);
    }
  }

  // ------------------------------------------------------------------ createSpec

  /** The scalar fields in the order in which createSpec visits them. */
  const SETTABLE: seq<Column> := [
    CreatedAt, UpdatedAt, DeletedAt, Name, Notes, Platform, Type, Credentials, Extra, ProxyFallbackOriginId,
    Concurrency, LoadFactor, Priority, RateMultiplier, Status, ErrorMessage, LastUsedAt, ExpiresAt,
    AutoPauseOnExpired, Schedulable, RateLimitedAt, RateLimitResetAt, OverloadUntil, TempUnschedulableUntil,
    TempUnschedulableReason, SessionWindowStart, SessionWindowEnd, SessionWindowStatus, QuotaDimension,
    Protocol, EndpointPath, ConfigVersion
  ]

  /** The insert a spec describes: the fields, the to-one edges by column, and the
      to-many edges with the rows at their other end. */
  datatype Spec = Spec(fields: Fields, edges: map<Column, int>, many: map<ManyEdge, set<int>>)

  method CopyScalars(f: Fields, order: seq<Column>) returns (node: Fields, fields: Fields)
    ensures node == fields == Restricted(f, order)
  {
    node, fields := map[], map[];
    for i := 0 to |order|
      invariant node == fields == Restricted(f, order[..i])
    {
      var c := order[i];
      assert order[..i + 1] == order[..i] + [c];
      if c in f {
        fields := fields[c := f[c]];
        node := node[c := f[c]];
      }
    }
    assert order[..|order|] == order;
  }

  function Restricted(f: Fields, order: seq<Column>): Fields {
    map c | c in f && c in order :: f[c]
  }

  function WithKey(f: Fields, c: Column, key: Option<int>): Fields {
    if key.Some? then f[c := Int(key.value)] else f
  }

  function WithKeys(f: Fields, m: Mutation): Fields {
    WithKey(WithKey(WithKey(f, ProxyId, m.proxy), ConnectionId, m.connection), ParentAccountId, m.parent)
  }

  /** The node a mutation describes. */
  function NodeOf(m: Mutation): Fields {
    WithKeys(Restricted(m.fields, SETTABLE), m)
  }

  function EdgesOf(m: Mutation): map<Column, int> {
    var e0 := map[];
    var e1 := if m.proxy.Some? then e0[ProxyId := m.proxy.value] else e0;
    var e2 := if m.connection.Some? then e1[ConnectionId := m.connection.value] else e1;
    if m.parent.Some? then e2[ParentAccountId := m.parent.value] else e2
  }

  function SpecOf(m: Mutation): Spec {
    Spec(Restricted(m.fields, SETTABLE), EdgesOf(m), ManyOf(m))
  }

  /** An edge without ids is not part of the spec. */
  function WithMany(many: map<ManyEdge, set<int>>, e: ManyEdge, ids: set<int>): map<ManyEdge, set<int>> {
    if ids == {} then many else many[e := ids]
  }

  function ManyOf(m: Mutation): map<ManyEdge, set<int>> {
    var m1 := WithMany(map[], Groups, ManyIds(m, Groups));
    var m2 := WithMany(m1, EndpointProbes, ManyIds(m, EndpointProbes));
    var m3 := WithMany(m2, Children, ManyIds(m, Children));
    WithMany(m3, UsageLogs, ManyIds(m, UsageLogs))
  }

  lemma ManyExactly(m: Mutation, e: ManyEdge)
    ensures e in ManyOf(m) <==> e in m.many && m.many[e] != {}
    ensures e in ManyOf(m) ==> ManyOf(m)[e] == m.many[e]
  {}

  /** Every known column but the id and the foreign keys of the to-one edges. */
  predicate IsScalar(c: Column) {
    !c.Unknown? && c != Id && c != ProxyId && c != ConnectionId && c != ParentAccountId
  }

  /** createSpec visits every scalar column, and only those. */
  lemma SettableExactly(c: Column)
    ensures c in SETTABLE <==> IsScalar(c)
  {
    assert forall i :: 0 <= i < |SETTABLE| ==> IsScalar(SETTABLE[i]);
    match c
    case CreatedAt => assert SETTABLE[0] == c;
    case UpdatedAt => assert SETTABLE[1] == c;
    case DeletedAt => assert SETTABLE[2] == c;
    case Name => assert SETTABLE[3] == c;
    case Notes => assert SETTABLE[4] == c;
    case Platform => assert SETTABLE[5] == c;
    case Type => assert SETTABLE[6] == c;
    case Credentials => assert SETTABLE[7] == c;
    case Extra => assert SETTABLE[8] == c;
    case ProxyFallbackOriginId => assert SETTABLE[9] == c;
    case Concurrency => assert SETTABLE[10] == c;
    case LoadFactor => assert SETTABLE[11] == c;
    case Priority => assert SETTABLE[12] == c;
    case RateMultiplier => assert SETTABLE[13] == c;
    case Status => assert SETTABLE[14] == c;
    case ErrorMessage => assert SETTABLE[15] == c;
    case LastUsedAt => assert SETTABLE[16] == c;
    case ExpiresAt => assert SETTABLE[17] == c;
    case AutoPauseOnExpired => assert SETTABLE[18] == c;
    case Schedulable => assert SETTABLE[19] == c;
    case RateLimitedAt => assert SETTABLE[20] == c;
    case RateLimitResetAt => assert SETTABLE[21] == c;
    case OverloadUntil => assert SETTABLE[22] == c;
    case TempUnschedulableUntil => assert SETTABLE[23] == c;
    case TempUnschedulableReason => assert SETTABLE[24] == c;
    case SessionWindowStart => assert SETTABLE[25] == c;
    case SessionWindowEnd => assert SETTABLE[26] == c;
    case SessionWindowStatus => assert SETTABLE[27] == c;
    case QuotaDimension => assert SETTABLE[28] == c;
    case Protocol => assert SETTABLE[29] == c;
    case EndpointPath => assert SETTABLE[30] == c;
    case ConfigVersion => assert SETTABLE[31] == c;
    case _ =>
  }

  function KeyValue(key: Option<int>): Option<Value> {
    if key.Some? then Some(Int(key.value)) else None
  }

  /** The fields hold what the mutation sets and nothing else: its scalars and
      the keys of its edges. */
  ghost predicate Describes(f: Fields, m: Mutation) {
    && (forall c :: IsScalar(c) ==> Lookup(f, c) == Lookup(m.fields, c))
    && Lookup(f, ProxyId) == KeyValue(m.proxy)
    && Lookup(f, ConnectionId) == KeyValue(m.connection)
    && Lookup(f, ParentAccountId) == KeyValue(m.parent)
  }

  /** A list of exactly the scalar columns. */
  ghost predicate ListsScalars(order: seq<Column>) {
    forall c :: c in order <==> IsScalar(c)
  }

  lemma SettableLists()
    ensures ListsScalars(SETTABLE)
  {
    forall c ensures c in SETTABLE <==> IsScalar(c) {
      SettableExactly(c);
    }
  }

  lemma RestrictedHolds(f: Fields, order: seq<Column>)
    requires ListsScalars(order)
    ensures forall c :: Lookup(Restricted(f, order), c) == if IsScalar(c) then Lookup(f, c) else None
  {}

  lemma WithKeysDescribes(f: Fields, m: Mutation)
    requires forall c :: Lookup(f, c) == if IsScalar(c) then Lookup(m.fields, c) else None
    ensures Describes(WithKeys(f, m), m)
  {
    assert Lookup(f, ProxyId) == Lookup(f, ConnectionId) == Lookup(f, ParentAccountId) == None;
  }

  lemma NodeDescribes(m: Mutation)
    ensures Describes(NodeOf(m), m)
    ensures forall c :: IsScalar(c) ==> Lookup(SpecOf(m).fields, c) == Lookup(m.fields, c)
  {
    SettableLists();
    RestrictedHolds(m.fields, SETTABLE);
    WithKeysDescribes(Restricted(m.fields, SETTABLE), m);
  }

  /** The to-many edges of createSpec. */
  method CollectMany(m: Mutation) returns (many: map<ManyEdge, set<int>>)
    ensures many == ManyOf(m)
    ensures forall e :: e in many <==> e in m.many && m.many[e] != {}
    ensures forall e :: e in many ==> many[e] == m.many[e]
  {
    many := map[];
    if ManyIds(m, Groups) != {} {
      many := many[Groups := ManyIds(m, Groups)];
    }
    if ManyIds(m, EndpointProbes) != {} {
      many := many[EndpointProbes := ManyIds(m, EndpointProbes)];
    }
    if ManyIds(m, Children) != {} {
      many := many[Children := ManyIds(m, Children)];
    }
    if ManyIds(m, UsageLogs) != {} {
      many := many[UsageLogs := ManyIds(m, UsageLogs)];
    }
    forall e ensures e in many <==> e in m.many && m.many[e] != {} ensures e in many ==> many[e] == m.many[e] {
      ManyExactly(m, e);
    }
  }

  /** createSpec: the node and the spec are filled side by side, and both hold
      every field the mutation sets. */
  method CreateSpec(m: Mutation) returns (node: Fields, spec: Spec)
    ensures node == NodeOf(m) && spec == SpecOf(m)
    ensures Describes(node, m)
    ensures forall c :: IsScalar(c) ==> Lookup(spec.fields, c) == Lookup(m.fields, c)
    ensures forall e :: e in spec.many <==> e in m.many && m.many[e] != {}
    ensures forall e :: e in spec.many ==> spec.many[e] == m.many[e]
  {
    NodeDescribes(m);
    var fields;
    node, fields := CopyScalars(m.fields, SETTABLE);
    var edges: map<Column, int> := map[];
    if m.proxy.Some? {
      node := node[ProxyId := Int(m.proxy.value)];
      edges := edges[ProxyId := m.proxy.value];
    }
    if m.connection.Some? {
      node := node[ConnectionId := Int(m.connection.value)];
      edges := edges[ConnectionId := m.connection.value];
    }
    if m.parent.Some? {
      node := node[ParentAccountId := Int(m.parent.value)];
      edges := edges[ParentAccountId := m.parent.value];
    }
    var many := CollectMany(m);
    spec := Spec(fields, edges, many);
  }

  /** The row the database stores for a spec: a to-one edge is stored in its
      foreign key column, whatever is not given is NULL; the to-many edges are
      stored in other tables. */
  function StoredRow(spec: Spec, id: int): Fields {
    RowOf(spec.fields, spec.edges)[Id := Int(id)]
  }

  function RowOf(f: Fields, edges: map<Column, int>): Fields {
    f + map c | c in edges :: Int(edges[c])
  }

  lemma StoredIsNode(f: Fields, m: Mutation)
    ensures RowOf(f, EdgesOf(m)) == WithKeys(f, m)
  {}

  lemma FetchedWhole(columns: seq<Column>, row: Fields)
    requires forall c: Column :: !c.Unknown? ==> c in columns
    requires forall c: Column :: c in row ==> !c.Unknown?
    ensures Fetched(columns, row).fields == row
  {}

  /** The documents a mutation sets were marshalled, so they can be read. */
  ghost predicate Marshalled(m: Mutation, parses: string -> bool) {
    forall c :: c in m.fields && m.fields[c].Doc? ==> parses(m.fields[c].json)
  }

  lemma StoredRowReadable(m: Mutation, id: int, columns: seq<Column>, parses: string -> bool)
    requires Marshalled(m, parses)
    ensures AllReadable(columns, StoredRow(SpecOf(m), id), parses)
  {}

  lemma StoredRowKnown(f: Fields, order: seq<Column>, m: Mutation, id: int)
    requires ListsScalars(order)
    ensures forall c: Column :: c in RowOf(Restricted(f, order), EdgesOf(m))[Id := Int(id)] ==> !c.Unknown?
  {}

  /** Reading back the row of a spec, with any column list that has all known
      columns, gives the node createSpec returned, with its id. */
  lemma ReadIsNode(m: Mutation, id: int, columns: seq<Column>, parses: string -> bool)
    requires (forall c: Column :: !c.Unknown? ==> c in columns) && Marshalled(m, parses)
    ensures var read := AssignAll(columns, Fill(ScanKinds(columns), columns, StoredRow(SpecOf(m), id)), parses);
            read.Ok? && read.value.fields == NodeOf(m)[Id := Int(id)]
  {
    var row := StoredRow(SpecOf(m), id);
    ScanThenAssign(columns, row, parses);
    StoredIsNode(Restricted(m.fields, SETTABLE), m);
    StoredRowReadable(m, id, columns, parses);
    SettableLists();
    StoredRowKnown(m.fields, SETTABLE, m, id);
    FetchedWhole(columns, row);
  }

  /** Creating and reading back: the entity is the node createSpec returned with
      its id, it holds exactly the fields and foreign keys the mutation set, and
      no required column reads as NULL when the mutation passed its check. */
  lemma CreateThenRead(m: Mutation, id: int, columns: seq<Column>, parses: string -> bool, accepts: (Column, Value) -> bool)
    requires (forall c: Column :: !c.Unknown? ==> c in columns) && Marshalled(m, parses)
    ensures var read := AssignAll(columns, Fill(ScanKinds(columns), columns, StoredRow(SpecOf(m), id)), parses);
            && read.Ok?
            && read.value.fields == NodeOf(m)[Id := Int(id)]
            && Describes(read.value.fields, m)
            && (Checks(m.fields, accepts) ==> forall c :: IsRequired(c) ==> c in read.value.fields)
  {
    ReadIsNode(m, id, columns, parses);
    NodeDescribes(m);
    DescribedWithId(NodeOf(m), m, id, accepts);
  }

  lemma DescribedWithId(node: Fields, m: Mutation, id: int, accepts: (Column, Value) -> bool)
    requires Describes(node, m)
    ensures Describes(node[Id := Int(id)], m)
    ensures Checks(m.fields, accepts) ==> forall c :: IsRequired(c) ==> c in node[Id := Int(id)]
  {
    var read := node[Id := Int(id)];
    assert forall c :: IsScalar(c) ==> Lookup(read, c) == Lookup(node, c);
    if Checks(m.fields, accepts) {
      forall c | IsRequired(c) ensures c in read {
        CheckedRequired(m.fields, accepts, c);
        assert IsScalar(c) && Lookup(read, c) == Lookup(m.fields, c);
      }
    }
  }
}
