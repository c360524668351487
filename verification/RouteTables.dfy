/** The five tables the cloned-route transaction works on, the SQL predicates
    it evaluates over them, and the row it clones
    (deploy/configure_official_cloud_routes.py:18-117). */
module RouteTables {
  import opened Wrappers
  import Ascending
  import OutboxEncoding

  // --------------------------------------------------------------- group rows

  datatype Column =
    | Id | Name | Description | Platform | Status | SubscriptionType
    | RateMultiplier | RateMultiplierUsd | RateMultiplierCny
    | PeakRateEnabled | PeakRateMultiplier | IsExclusive | RequireOauthOnly
    | FallbackGroupId | FallbackGroupIdOnInvalidRequest | DuplicateOperationId
    | CreatedAt | UpdatedAt | DeletedAt
    | Other(name: string)

  datatype Value = Null | Text(text: string) | Num(num: real) | Bool(flag: bool) | Time(at: int) | Json(doc: string)

  /** A row of `groups` without its id: the id is the key of the table. */
  type Row = map<Column, Value>

  function Col(r: Row, c: Column): Value {
    if c in r then r[c] else Null
  }

  datatype Target = Target(source: nat, platform: string, name: string, marker: string)

  const DESCRIPTION := "Official list-price route served by the existing cloud upstream"
  const ACTIVE := "active"
  const DISABLED := "disabled"
  const STANDARD := "standard"

  /** The columns the comparison of a clone with its source leaves out. */
  const IGNORED: set<Column> := {
    Id, Name, Description, RateMultiplier, RateMultiplierUsd, RateMultiplierCny,
    PeakRateEnabled, PeakRateMultiplier, IsExclusive, Status, SubscriptionType,
    FallbackGroupId, FallbackGroupIdOnInvalidRequest, DuplicateOperationId,
    CreatedAt, UpdatedAt, DeletedAt
  }

  /** One entry of the select list that apply assembles from the schema. */
  datatype Expr = Constant(value: Value) | CurrentTime | Source(column: Column)

  function ExprFor(c: Column, t: Target): Expr {
    match c
    case Name => Constant(Text(t.name))
    case Description => Constant(Text(DESCRIPTION))
    case DuplicateOperationId => Constant(Text(t.marker))
    case RateMultiplier => Constant(Num(1.0))
    case RateMultiplierUsd => Constant(Num(1.0))
    case RateMultiplierCny => Constant(Num(1.0))
    case PeakRateMultiplier => Constant(Num(1.0))
    case PeakRateEnabled => Constant(Bool(false))
    case IsExclusive => Constant(Bool(false))
    case Status => Constant(Text(ACTIVE))
    case SubscriptionType => Constant(Text(STANDARD))
    case FallbackGroupId => Constant(Null)
    case FallbackGroupIdOnInvalidRequest => Constant(Null)
    case DeletedAt => Constant(Null)
    case CreatedAt => CurrentTime
    case UpdatedAt => CurrentTime
    case _ => Source(c)
  }

  function Eval(e: Expr, src: Row, now: int): Value {
    match e
    case Constant(v) => v
    case CurrentTime => Time(now)
    case Source(c) => Col(src, c)
  }

  /** The row a clone of `src` gets. */
  function CloneRow(src: Row, t: Target, now: int): Row {
    map c | c in src :: Eval(ExprFor(c, t), src, now)
  }

  /** INSERT INTO groups(names) SELECT exprs FROM groups s WHERE id = source */
  function InsertSelect(names: seq<Column>, exprs: seq<Expr>, src: Row, now: int): Row
    requires |names| == |exprs|
  {
    if names == [] then map[] else
      var k := |names| - 1;
      InsertSelect(names[..k], exprs[..k], src, now)[names[k] := Eval(exprs[k], src, now)]
  }

  /** The overridden columns, together with the id, are exactly the ignored
      ones: a column is taken from the source if and only if it is compared. */
  lemma OverriddenAreIgnored(c: Column, t: Target)
    requires c != Id
    ensures ExprFor(c, t) == Source(c) <==> c !in IGNORED
  {}

  // ------------------------------------------------------------------- tables

  datatype Binding = Binding(priority: int, createdAt: int)
  datatype AccountRow = AccountRow(
    platform: string, kind: string, status: string, schedulable: bool,
    deletedAt: Option<int>, expiresAt: Option<int>, credentials: string)
  datatype Pricing = Pricing(channel: nat, row: Row)
  datatype Event = Event(kind: string, account: Option<nat>, group: Option<nat>,
                         payload: Option<string>, key: Option<string>)

  /** The database. Bindings are keyed by (account, group) and by
      (channel, group); outbox rows carry no meaning in their order. An outbox
      row is pending while it holds a dedup key: the consumer clears the key
      when it picks the row up. */
  datatype Db = Db(
    columns: seq<Column>,
    groups: map<nat, Row>,
    accountGroups: map<(nat, nat), Binding>,
    channelGroups: map<(nat, nat), int>,
    accounts: map<nat, AccountRow>,
    channels: map<nat, Row>,
    pricing: map<nat, Pricing>,
    outbox: multiset<Event>,
    nextGroupId: nat)

  function AccountsOf(db: Db, g: nat): set<nat> {
    set k | k in db.accountGroups && k.1 == g :: k.0
  }

  function GroupsOf(db: Db, a: nat): set<nat> {
    set k | k in db.accountGroups && k.0 == a :: k.1
  }

  function ChannelsOf(db: Db, g: nat): set<nat> {
    set k | k in db.channelGroups && k.1 == g :: k.0
  }

  /** jsonb_agg([account_id, priority] ORDER BY account_id) */
  function AccountList(db: Db, g: nat): seq<(nat, int)> {
    var accounts := Ascending.Sorted(AccountsOf(db, g));
    seq(|accounts|, i requires 0 <= i < |accounts| =>
      assert accounts[i] in accounts;
      (accounts[i], db.accountGroups[(accounts[i], g)].priority))
  }

  /** jsonb_agg(channel_id ORDER BY channel_id) */
  function ChannelList(db: Db, g: nat): seq<nat> {
    Ascending.Sorted(ChannelsOf(db, g))
  }

  // ----------------------------------------------------------------- snapshot

  /** What the baseline digest is taken from. Its arrays have explicit orders
      on unique keys and MD5 is taken to be injective, so two digests are
      equal exactly when these values are. */
  datatype Snapshot = Snapshot(
    groups: map<nat, Row>,
    accountGroups: map<(nat, nat), Binding>,
    accounts: map<nat, AccountRow>,
    channelGroups: map<(nat, nat), int>,
    channels: map<nat, Row>,
    pricing: map<nat, Pricing>)

  function Sources(ts: seq<Target>): set<nat> {
    set t | t in ts :: t.source
  }

  function Restrict<V>(m: map<nat, V>, ids: set<nat>): map<nat, V> {
    map i | i in m && i in ids :: m[i]
  }

  /** The bindings of the groups in `gs`, and the other ends of them. */
  function Under<V>(m: map<(nat, nat), V>, gs: set<nat>): map<(nat, nat), V> {
    map k | k in m && k.1 in gs :: m[k]
  }

  function Ends<V>(m: map<(nat, nat), V>, gs: set<nat>): set<nat> {
    set k | k in m && k.1 in gs :: k.0
  }

  function PricesOf(pricing: map<nat, Pricing>, channels: set<nat>): map<nat, Pricing> {
    map p | p in pricing && pricing[p].channel in channels :: pricing[p]
  }

  function SnapshotOf(db: Db, ts: seq<Target>): Snapshot {
    var gs := Sources(ts);
    Snapshot(
      Restrict(db.groups, gs),
      Under(db.accountGroups, gs),
      Restrict(db.accounts, Ends(db.accountGroups, gs)),
      Under(db.channelGroups, gs),
      Restrict(db.channels, Ends(db.channelGroups, gs)),
      PricesOf(db.pricing, Ends(db.channelGroups, gs)))
  }

  // --------------------------------------------------------------- validation

  /** `v <> w` is true: neither side is NULL and they differ. An IF over a
      chain of ORs takes its branch exactly when one disjunct is true, so
      unknown counts as false. */
  predicate IsTrueNe(v: Value, w: Value) {
    v != Null && w != Null && v != w
  }

  predicate RateOutOfRange(v: Value) {
    v.Num? && (v.num <= 0.0 || v.num >= 1.0)
  }

  predicate SourceRowRejected(src: Row, t: Target) {
    || Col(src, DeletedAt) != Null
    || IsTrueNe(Col(src, Status), Text(ACTIVE))
    || IsTrueNe(Col(src, Platform), Text(t.platform))
    || IsTrueNe(Col(src, SubscriptionType), Text(STANDARD))
    || Col(src, IsExclusive) == Bool(true)
    || RateOutOfRange(Col(src, RateMultiplier))
  }

  predicate HasIneligibleAccount(db: Db, g: nat, row: Row) {
    exists k | k in db.accountGroups && k.1 == g ::
      k.0 in db.accounts &&
      (db.accounts[k.0].deletedAt.Some? ||
       (Col(row, RequireOauthOnly) == Bool(true) && db.accounts[k.0].kind == "apikey"))
  }

  predicate Usable(a: AccountRow, now: int) {
    && a.status == ACTIVE
    && a.schedulable
    && a.deletedAt.None?
    && (a.expiresAt.None? || a.expiresAt.value > now)
  }

  predicate HasUsableAccount(db: Db, g: nat, now: int) {
    exists k | k in db.accountGroups && k.1 == g ::
      k.0 in db.accounts && Usable(db.accounts[k.0], now)
  }

  predicate HasInactiveChannel(db: Db, g: nat) {
    exists k | k in db.channelGroups && k.1 == g ::
      k.0 in db.channels && IsTrueNe(Col(db.channels[k.0], Status), Text(ACTIVE))
  }

  predicate SourceOk(db: Db, t: Target, now: int) {
    && t.source in db.groups
    && !SourceRowRejected(db.groups[t.source], t)
    && !HasIneligibleAccount(db, t.source, db.groups[t.source])
    && HasUsableAccount(db, t.source, now)
    && !HasInactiveChannel(db, t.source)
  }

  predicate Carries(r: Row, marker: string) {
    Col(r, DuplicateOperationId) == Text(marker) && Col(r, DeletedAt) == Null
  }

  /** The live groups with a marker. */
  function LiveIds(db: Db, marker: string): set<nat> {
    set g | g in db.groups && Carries(db.groups[g], marker)
  }

  /** Soft-deleted groups keep their names taken. */
  predicate NameTaken(db: Db, name: string) {
    exists g | g in db.groups :: Col(db.groups[g], Name) == Text(name)
  }

  predicate CloneRejected(dst: Row, src: Row, t: Target) {
    || IsTrueNe(Col(dst, Name), Text(t.name))
    || Col(dst, Description) != Text(DESCRIPTION)
    || Col(dst, RateMultiplier) != Num(1.0)
    || Col(dst, RateMultiplierUsd) != Num(1.0)
    || Col(dst, RateMultiplierCny) != Num(1.0)
    || Col(dst, PeakRateEnabled) == Bool(true)
    || Col(dst, PeakRateMultiplier) != Num(1.0)
    || Col(dst, IsExclusive) == Bool(true)
    || IsTrueNe(Col(dst, Status), Text(ACTIVE))
    || IsTrueNe(Col(dst, SubscriptionType), Text(STANDARD))
    || Col(dst, FallbackGroupId) != Null
    || Col(dst, FallbackGroupIdOnInvalidRequest) != Null
    || dst - IGNORED != src - IGNORED
  }

  predicate CloneMatches(db: Db, d: nat, t: Target)
    requires d in db.groups && t.source in db.groups
  {
    && !CloneRejected(db.groups[d], db.groups[t.source], t)
    && AccountList(db, t.source) == AccountList(db, d)
    && ChannelList(db, t.source) == ChannelList(db, d)
  }

  /** The body of the validation loop for one target does not raise. */
  predicate TargetOk(db: Db, t: Target, now: int, allowMissing: bool) {
    && SourceOk(db, t, now)
    && if LiveIds(db, t.marker) == {} then allowMissing && !NameTaken(db, t.name)
       else forall d | d in LiveIds(db, t.marker) :: CloneMatches(db, d, t)
  }

  predicate Validates(db: Db, ts: seq<Target>, now: int, allowMissing: bool) {
    forall t | t in ts :: TargetOk(db, t, now, allowMissing)
  }

  // ------------------------------------------------------------------- outbox

  /** A writer computes the key of a row from the row itself. */
  ghost predicate Honest(e: Event) {
    e.key.Some? ==>
      && OutboxEncoding.NUL !in e.kind
      && e.payload != Some("")
      && e.key.value == OutboxEncoding.Preimage(e.kind, e.account, e.group, PayloadText(e.payload))
  }

  ghost function PayloadText(p: Option<string>): string {
    if p.None? then "" else p.value
  }

  /** The partial unique index on the dedup key, and honest writers. */
  ghost predicate OutboxOk(o: multiset<Event>) {
    && (forall e :: e in o ==> Honest(e))
    && (forall e :: e in o && e.key.Some? ==> o[e] == 1)
    && (forall e, f :: e in o && f in o && e.key.Some? && e.key == f.key ==> e == f)
  }

  /** The dedup key of `e` is held by a row. */
  predicate Taken(o: multiset<Event>, e: Event) {
    exists f | f in o :: e.key.Some? && f.key == e.key
  }

  /** INSERT ... ON CONFLICT (dedup_key) WHERE dedup_key IS NOT NULL DO NOTHING,
      executed while the table holds `o`. */
  function Enqueue(o: multiset<Event>, e: Event): multiset<Event> {
    if Taken(o, e) then o else o + multiset{e}
  }

  /** An event names a group as its own or in the list of its payload. */
  ghost predicate Names(e: Event, g: nat) {
    e.group == Some(g) || exists l: seq<nat> :: e.payload == Some(OutboxEncoding.Payload(l)) && g in l
  }

  /** No pending event names a group whose id is still to be allotted. */
  ghost predicate Allotted(o: multiset<Event>, next: nat) {
    forall e, g: nat :: e in o && e.key.Some? && Names(e, g) ==> g < next
  }

  function GroupChanged(g: nat, key: string): Event {
    Event(OutboxEncoding.GROUP_CHANGED, None, Some(g), None, Some(key))
  }

  function AccountChanged(db: Db, a: nat): Event {
    var payload := OutboxEncoding.Payload(Ascending.Sorted(GroupsOf(db, a)));
    Event(OutboxEncoding.ACCOUNT_CHANGED, Some(a), None, Some(payload),
          Some(OutboxEncoding.SqlAccountKey(a, payload)))
  }

  lemma WritersAreHonest(db: Db, id: nat)
    ensures Honest(GroupChanged(id, OutboxEncoding.SqlGroupKey(id)))
    ensures Honest(AccountChanged(db, id))
    ensures OutboxEncoding.PythonGroupKey(id) == OutboxEncoding.SqlGroupKey(id)
  {
    OutboxEncoding.WritersAgree(id, OutboxEncoding.Payload(Ascending.Sorted(GroupsOf(db, id))));
  }

  /** Two honest pending rows with one key are the same event. */
  lemma SameKeySameEvent(e: Event, f: Event)
    requires Honest(e) && Honest(f)
    requires e.key.Some? && e.key == f.key
    ensures e == f
  {
    OutboxEncoding.PreimageInjective(e.kind, e.account, e.group, PayloadText(e.payload),
                                     f.kind, f.account, f.group, PayloadText(f.payload));
  }

  /** DO NOTHING loses no event: afterwards the very event is pending, every
      earlier row is still there, and keys stay unique. */
  lemma EnqueueDelivers(o: multiset<Event>, e: Event)
    requires OutboxOk(o) && Honest(e) && e.key.Some?
    ensures OutboxOk(Enqueue(o, e))
    ensures e in Enqueue(o, e)
    ensures o <= Enqueue(o, e)
    ensures Enqueue(o, e) == if e in o then o else o + multiset{e}
  {
    if f :| f in o && f.key == e.key {
      SameKeySameEvent(e, f);
    }
  }

  // ---------------------------------------------------------------- invariant

  /** The columns the script names: all but the id and those it only copies. */
  predicate IsNamed(c: Column) {
    c != Id && !c.Other?
  }

  /** The not-null, typed columns of a group row. */
  ghost predicate Typed(r: Row) {
    && Col(r, Name).Text? && Col(r, Status).Text? && Col(r, SubscriptionType).Text?
    && Col(r, PeakRateEnabled).Bool? && Col(r, IsExclusive).Bool?
  }

  /** Every row has the columns of the schema and is typed; the columns the script
      names exist. */
  ghost predicate SchemaOk(db: Db) {
    && Id !in db.columns
    && (forall c :: IsNamed(c) ==> c in db.columns)
    && (forall g :: g in db.groups ==> db.groups[g].Keys == (set c | c in db.columns) && Typed(db.groups[g]))
  }

  /** Primary keys come from the sequence; bindings point at rows that exist. */
  ghost predicate KeysOk(db: Db) {
    && (forall g :: g in db.groups ==> g < db.nextGroupId)
    && (forall k :: k in db.accountGroups ==> k.0 in db.accounts && k.1 in db.groups)
    && (forall k :: k in db.channelGroups ==> k.0 in db.channels && k.1 in db.groups)
  }

  /** The partial unique index on the marker of live groups. */
  ghost predicate MarkersOk(db: Db) {
    forall g, h, m ::
      (g in db.groups && h in db.groups && Carries(db.groups[g], m) && Carries(db.groups[h], m)) ==> g == h
  }

  ghost predicate Valid(db: Db) {
    && SchemaOk(db) && KeysOk(db) && MarkersOk(db)
    && OutboxOk(db.outbox) && Allotted(db.outbox, db.nextGroupId)
  }

  // ------------------------------------------------------------------ targets

  /** TARGETS: the five routes. */
  function MakeTarget(source: nat, platform: string): Target {
    Target(source, platform, platform + "-official-cloud",
           "uniroute-official-cloud-v1-source-" + OutboxEncoding.Decimal(source))
  }

  const SOURCE_IDS: seq<nat> := [2, 3, 4, 7, 8]
  const PLATFORMS: seq<string> := ["anthropic", "openai", "gemini", "grok", "deepseek"]

  function MakeTargets(sources: seq<nat>, platforms: seq<string>): seq<Target>
    requires |sources| == |platforms|
  {
    seq(|sources|, i requires 0 <= i < |sources| => MakeTarget(sources[i], platforms[i]))
  }

  const TARGETS: seq<Target> := MakeTargets(SOURCE_IDS, PLATFORMS)

  lemma MadeTarget(digit: nat, text: string, platform: string)
    requires digit < 10 && text == [DigitOf(digit)]
    ensures MakeTarget(digit, platform) ==
            Target(digit, platform, platform + "-official-cloud", "uniroute-official-cloud-v1-source-" + text)
  {
    assert OutboxEncoding.Decimal(digit) == [OutboxEncoding.DigitChar(digit)];
  }

  function DigitOf(digit: nat): char
    requires digit < 10
  {
    "0123456789"[digit]
  }

  /** The five routes by their source groups. */
  lemma TargetsAre()
    ensures |TARGETS| == 5
    ensures TARGETS[0] == Target(2, "anthropic", "anthropic" + "-official-cloud", "uniroute-official-cloud-v1-source-" + "2")
    ensures TARGETS[1] == Target(3, "openai", "openai" + "-official-cloud", "uniroute-official-cloud-v1-source-" + "3")
    ensures TARGETS[2] == Target(4, "gemini", "gemini" + "-official-cloud", "uniroute-official-cloud-v1-source-" + "4")
    ensures TARGETS[3] == Target(7, "grok", "grok" + "-official-cloud", "uniroute-official-cloud-v1-source-" + "7")
    ensures TARGETS[4] == Target(8, "deepseek", "deepseek" + "-official-cloud", "uniroute-official-cloud-v1-source-" + "8")
  {
    MadeTarget(2, "2", "anthropic");
    MadeTarget(3, "3", "openai");
    MadeTarget(4, "4", "gemini");
    MadeTarget(7, "7", "grok");
    MadeTarget(8, "8", "deepseek");
  }

  /** No two targets share a name or a marker. */
  ghost predicate Distinct(ts: seq<Target>) {
    forall t, u :: t in ts && u in ts && t != u ==> t.name != u.name && t.marker != u.marker
  }

  lemma Cancel(a: string, b: string, common: string)
    ensures a + common == b + common ==> a == b
    ensures common + a == common + b ==> a == b
  {
    assert (a + common)[..|a + common| - |common|] == a && (b + common)[..|b + common| - |common|] == b;
    assert (common + a)[|common|..] == a && (common + b)[|common|..] == b;
  }

  lemma MadeTargetsDiffer(p: nat, a: string, q: nat, b: string)
    requires p != q && a != b
    ensures MakeTarget(p, a).name != MakeTarget(q, b).name
    ensures MakeTarget(p, a).marker != MakeTarget(q, b).marker
  {
    Cancel(a, b, "-official-cloud");
    Cancel(OutboxEncoding.Decimal(p), OutboxEncoding.Decimal(q), "uniroute-official-cloud-v1-source-");
    if OutboxEncoding.Decimal(p) == OutboxEncoding.Decimal(q) {
      OutboxEncoding.DecimalInjective(p, q);
    }
  }

  lemma MadeTargetsAreDistinct(sources: seq<nat>, platforms: seq<string>)
    requires |sources| == |platforms|
    requires forall i, j :: 0 <= i < j < |sources| ==> sources[i] != sources[j]
    requires forall i, j :: 0 <= i < j < |sources| ==> platforms[i] != platforms[j]
    ensures Distinct(MakeTargets(sources, platforms))
  {
    var ts := MakeTargets(sources, platforms);
    forall t, u | t in ts && u in ts && t != u
      ensures t.name != u.name && t.marker != u.marker
    {
      var i :| 0 <= i < |ts| && ts[i] == t;
      var j :| 0 <= j < |ts| && ts[j] == u;
      MadeTargetsDiffer(sources[i], platforms[i], sources[j], platforms[j]);
    }
  }

  /** The five routes of the script have pairwise different names and markers. */
  lemma TargetsAreDistinct()
    ensures Distinct(TARGETS)
  {
    assert PLATFORMS[1][0] != PLATFORMS[2][0];
    assert forall i, j :: 0 <= i < j < 5 ==> PLATFORMS[i] != PLATFORMS[j] by {
      assert PLATFORMS[0] != PLATFORMS[1] && PLATFORMS[0] != PLATFORMS[2] && PLATFORMS[0] != PLATFORMS[3] && PLATFORMS[0] != PLATFORMS[4];
      assert PLATFORMS[1] != PLATFORMS[2] && PLATFORMS[1] != PLATFORMS[3] && PLATFORMS[1] != PLATFORMS[4];
      assert PLATFORMS[2] != PLATFORMS[3] && PLATFORMS[2] != PLATFORMS[4] && PLATFORMS[3] != PLATFORMS[4];
    }
    MadeTargetsAreDistinct(SOURCE_IDS, PLATFORMS);
  }
}
