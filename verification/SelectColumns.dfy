/** The columns a query fetches under Select, and why eager loading does not
    depend on them (backend/ent/account_query.go:849-851, 911-913, 944-946,
    974-976, 1007-1032). */
module SelectColumns {
  import opened Wrappers
  import opened EagerLoading
  import opened EagerLoadingMany

  datatype Column = IdColumn | KeyColumn(key: ForeignKey) | Field(name: string)

  predicate IsToOne(e: Edge) {
    e.Proxy? || e.Connection? || e.Parent?
  }

  /** The foreign key of the queried entity itself that an edge is read from. */
  function KeyOf(e: Edge): ForeignKey
    requires IsToOne(e)
  {
    match e
    case Proxy => ProxyId
    case Connection => ConnectionId
    case _ => ParentAccountId
  }

  /** AddColumnOnce and AppendFieldOnce. */
  function AppendOnce(cols: seq<Column>, c: Column): (r: seq<Column>)
    ensures forall x :: x in r <==> x in cols || x == c
  {
    if c in cols then cols else cols + [c]
  }

  /** The keys the requested to-one edges are read from. */
  function KeysNeeded(with: set<Edge>): set<ForeignKey> {
    set e | e in with && IsToOne(e) :: KeyOf(e)
  }

  /** The columns of a query with the selected `fields` that needs `keys` for its
      requested edges: everything when nothing was selected, else the id first
      (and only there), the fields, and the keys. */
  ghost predicate Fetches(cols: seq<Column>, all: seq<Column>, hasId: bool, fields: seq<Column>, keys: set<ForeignKey>) {
    if fields == [] then cols == all
    else
      && (forall c :: c in cols <==> || (hasId && c == IdColumn) || c in fields || (c.KeyColumn? && c.key in keys))
      && (hasId ==> |cols| > 0 && cols[0] == IdColumn && forall i :: 0 < i < |cols| ==> cols[i] != IdColumn)
  }

  /** querySpec: `all` is the entity's full column list, `hasId` is false only
      for the edge schema without an id. */
  method QueryColumns(all: seq<Column>, hasId: bool, fields: seq<Column>, with: set<Edge>) returns (cols: seq<Column>)
    ensures Fetches(cols, all, hasId, fields, KeysNeeded(with))
  {
    if fields == [] {
      return all;
    }
    cols := if hasId then [IdColumn] else [];
    for i := 0 to |fields|
      invariant forall c :: c in cols <==> (hasId && c == IdColumn) || c in fields[..i]
      invariant hasId ==> |cols| > 0 && cols[0] == IdColumn && forall j :: 0 < j < |cols| ==> cols[j] != IdColumn
    {
      assert fields[..i + 1] == fields[..i] + [fields[i]];
      if !hasId || fields[i] != IdColumn {
        cols := cols + [fields[i]];
      }
    }
    assert fields[..|fields|] == fields;
    if Proxy in with {
      cols := AppendOnce(cols, KeyColumn(ProxyId));
    }
    if Connection in with {
      cols := AppendOnce(cols, KeyColumn(ConnectionId));
    }
    if Parent in with {
      cols := AppendOnce(cols, KeyColumn(ParentAccountId));
    }
    NeededKeys(with);
  }

  lemma NeededKeys(with: set<Edge>)
    ensures ProxyId in KeysNeeded(with) <==> Proxy in with
    ensures ConnectionId in KeysNeeded(with) <==> Connection in with
    ensures ParentAccountId in KeysNeeded(with) <==> Parent in with
    ensures AccountId !in KeysNeeded(with)
  {
    assert KeyOf(Proxy) == ProxyId && KeyOf(Connection) == ConnectionId && KeyOf(Parent) == ParentAccountId;
  }

  // ------------------------------------------------------------ the column lists

  const ACCOUNT_COLUMNS: seq<Column> := [
    IdColumn, Field("created_at"), Field("updated_at"), Field("deleted_at"), Field("name"), Field("notes"),
    Field("platform"), Field("type"), Field("credentials"), Field("extra"), KeyColumn(ProxyId),
    Field("proxy_fallback_origin_id"), Field("concurrency"), Field("load_factor"), Field("priority"),
    Field("rate_multiplier"), Field("status"), Field("error_message"), Field("last_used_at"), Field("expires_at"),
    Field("auto_pause_on_expired"), Field("schedulable"), Field("rate_limited_at"), Field("rate_limit_reset_at"),
    Field("overload_until"), Field("temp_unschedulable_until"), Field("temp_unschedulable_reason"),
    Field("session_window_start"), Field("session_window_end"), Field("session_window_status"),
    KeyColumn(ParentAccountId), Field("quota_dimension"), KeyColumn(ConnectionId), Field("protocol"),
    Field("endpoint_path"), Field("config_version")
  ]

  const PROXY_COLUMNS: seq<Column> := [
    IdColumn, Field("created_at"), Field("updated_at"), Field("deleted_at"), Field("name"), Field("protocol"),
    Field("host"), Field("port"), Field("username"), Field("password"), Field("status"), Field("expires_at"),
    Field("fallback_mode"), Field("backup_proxy_id"), Field("expiry_warn_days")
  ]

  const CONNECTION_COLUMNS: seq<Column> := [
    IdColumn, Field("created_at"), Field("updated_at"), Field("deleted_at"), Field("kind"), Field("provider"),
    Field("base_url"), Field("encrypted_credential"), Field("credential_version"), KeyColumn(ProxyId),
    Field("status"), Field("evidence_ref")
  ]

  const PROBE_COLUMNS: seq<Column> := [
    IdColumn, KeyColumn(AccountId), KeyColumn(ConnectionId), Field("provider"), Field("protocol"),
    Field("normalized_endpoint_path"), Field("credential_version"), Field("config_version"), Field("status"),
    Field("probed_at"), Field("expires_at"), Field("evidence_ref"), Field("request_fingerprint"),
    Field("response_summary")
  ]

  const USAGE_LOG_COLUMNS: seq<Column> := [
    IdColumn, Field("user_id"), Field("api_key_id"), KeyColumn(AccountId)
  ] + [
    Field("request_id"), Field("model"), Field("requested_model"), Field("upstream_model"),
    Field("governance_target_platform"), Field("channel_id"),
    Field("model_mapping_chain"), Field("billing_tier"), Field("billing_mode"), Field("group_id"),
    Field("subscription_id"), Field("input_tokens"), Field("output_tokens"), Field("cache_creation_tokens"),
    Field("cache_read_tokens"), Field("cache_creation_5m_tokens"), Field("cache_creation_1h_tokens"),
    Field("input_cost"), Field("output_cost"), Field("cache_creation_cost"), Field("cache_read_cost"),
    Field("total_cost"), Field("actual_cost"), Field("actual_cost_usd"), Field("base_cost_usd"),
    Field("source_currency"), Field("settlement_currency"), Field("exchange_rate"), Field("exchange_rate_source"),
    Field("exchange_rate_as_of"), Field("source_cost"), Field("base_cost"), Field("rate_multiplier"),
    Field("long_context_billing_applied"), Field("account_rate_multiplier"), Field("billing_snapshot_id"),
    Field("billing_type"), Field("stream"), Field("duration_ms"), Field("first_token_ms"), Field("user_agent"),
    Field("ip_address"), Field("image_count"), Field("image_size"), Field("image_input_size"),
    Field("image_output_size"), Field("image_size_source"), Field("image_size_breakdown"), Field("video_count"),
    Field("video_resolution"), Field("video_duration_seconds"), Field("cache_ttl_overridden"), Field("created_at")
  ]

  const ACCOUNT_GROUP_COLUMNS: seq<Column> := [
    KeyColumn(AccountId), Field("group_id"), Field("priority"), Field("created_at")
  ]

  const GROUP_COLUMNS: seq<Column> := [
    IdColumn
  ] + [
    Field("created_at"), Field("updated_at"), Field("deleted_at"), Field("name"), Field("description"),
    Field("rate_multiplier"), Field("rate_multiplier_cny"), Field("rate_multiplier_usd"), Field("peak_rate_enabled"),
    Field("peak_start"), Field("peak_end"), Field("peak_rate_multiplier"), Field("is_exclusive"), Field("status"),
    Field("duplicate_operation_id"), Field("platform"), Field("subscription_type"), Field("daily_limit_usd"),
    Field("weekly_limit_usd"), Field("monthly_limit_usd"), Field("default_validity_days"),
    Field("allow_image_generation"), Field("allow_batch_image_generation"), Field("image_rate_independent"),
    Field("image_rate_multiplier"), Field("image_price_1k"), Field("image_price_2k"), Field("image_price_4k"),
    Field("batch_image_discount_multiplier"), Field("batch_image_hold_multiplier"), Field("video_rate_independent"),
    Field("video_rate_multiplier"), Field("video_price_480p"), Field("video_price_720p"), Field("video_price_1080p"),
    Field("web_search_price_per_call"), Field("claude_code_only"), Field("fallback_group_id"),
    Field("fallback_group_id_on_invalid_request"), Field("model_routing"), Field("model_routing_enabled"),
    Field("mcp_xml_inject"), Field("supported_model_scopes"), Field("sort_order"), Field("allow_messages_dispatch"),
    Field("allow_live"), Field("require_oauth_only"), Field("require_privacy_set"), Field("default_mapped_model"),
    Field("messages_dispatch_model_config"), Field("models_list_config"), Field("rpm_limit"),
    Field("max_reasoning_effort"), Field("reasoning_effort_mappings")
  ]

  /** The columns of the entities an edge leads to. */
  function NeighbourColumns(e: Edge): seq<Column> {
    match e
    case Groups => GROUP_COLUMNS
    case Proxy => PROXY_COLUMNS
    case Connection => CONNECTION_COLUMNS
    case EndpointProbes => PROBE_COLUMNS
    case Parent | Children => ACCOUNT_COLUMNS
    case UsageLogs => USAGE_LOG_COLUMNS
    case AccountGroups => ACCOUNT_GROUP_COLUMNS
  }

  /** Whether they have an id; the rows of the join table do not. */
  predicate NeighbourHasId(e: Edge) {
    e != AccountGroups
  }

  predicate IsToMany(e: Edge) {
    !IsToOne(e) && e != Groups
  }

  /** The foreign key of the neighbours that a to-many edge is read from. */
  function ManyKeyOf(e: Edge): ForeignKey
    requires IsToMany(e)
  {
    if e == Children then ParentAccountId else AccountId
  }

  /** The lists have what the loaders read: accounts their id, first, and the keys
      of their to-one edges; neighbours their id, first, or the key back. */
  lemma ListsHaveKeys(e: Edge)
    ensures ACCOUNT_COLUMNS[0] == IdColumn
    ensures NeighbourColumns(e) != [] && (NeighbourHasId(e) ==> NeighbourColumns(e)[0] == IdColumn)
    ensures IsToOne(e) ==> KeyColumn(KeyOf(e)) in ACCOUNT_COLUMNS
    ensures IsToMany(e) ==> KeyColumn(ManyKeyOf(e)) in NeighbourColumns(e)
  {
    assert ACCOUNT_COLUMNS[10] == KeyColumn(ProxyId) && ACCOUNT_COLUMNS[30] == KeyColumn(ParentAccountId);
    assert ACCOUNT_COLUMNS[32] == KeyColumn(ConnectionId);
    assert PROBE_COLUMNS[1] == KeyColumn(AccountId) && USAGE_LOG_COLUMNS[3] == KeyColumn(AccountId);
    assert ACCOUNT_GROUP_COLUMNS[0] == KeyColumn(AccountId);
  }

  // --------------------------------------------------------------- projection

  /** What the loaders read of a database row. */
  datatype Record = Record(id: int64, keys: map<ForeignKey, int64>)

  /** The row as scanned from the fetched columns: the rest keeps its zero value. */
  function Scanned(r: Record, cols: seq<Column>): Record {
    Record(if IdColumn in cols then r.id else 0,
           map k | k in r.keys && KeyColumn(k) in cols :: r.keys[k])
  }

  function ScannedAll(rs: seq<Record>, cols: seq<Column>): seq<Record> {
    seq(|rs|, i requires 0 <= i < |rs| => Scanned(rs[i], cols))
  }

  /** Which neighbour a to-one edge points at: the last row with the key as id. */
  function ToOne(n: Record, k: ForeignKey, rows: seq<Record>): Option<nat> {
    if k !in n.keys || rows == [] then None
    else if rows[|rows| - 1].id == n.keys[k] then Some(|rows| - 1)
    else ToOne(n, k, rows[..|rows| - 1])
  }

  /** Which rows a to-many edge holds: those whose key is the id. */
  function ToMany(n: Record, k: ForeignKey, rows: seq<Record>): seq<nat> {
    if rows == [] then [] else
      var i := |rows| - 1;
      ToMany(n, k, rows[..i]) + if k in rows[i].keys && rows[i].keys[k] == n.id then [i] else []
  }

  /** Two scans of one row that fetch the id and a key agree on them. */
  lemma ScannedKeeps(r: Record, cols: seq<Column>, k: ForeignKey)
    ensures Scanned(r, cols).id == if IdColumn in cols then r.id else 0
    ensures KeyColumn(k) !in cols ==> k !in Scanned(r, cols).keys
    ensures KeyColumn(k) in cols ==>
              (k in Scanned(r, cols).keys <==> k in r.keys) && (k in r.keys ==> Scanned(r, cols).keys[k] == r.keys[k])
  {}

  lemma {:induction false} ToOneSeesIds(n: Record, m: Record, k: ForeignKey, rows: seq<Record>, cols: seq<Column>)
    requires IdColumn in cols
    requires k in n.keys <==> k in m.keys
    requires k in n.keys ==> n.keys[k] == m.keys[k]
    ensures ToOne(m, k, ScannedAll(rows, cols)) == ToOne(n, k, rows)
    decreases |rows|
  {
    if rows != [] {
      ToOneSeesIds(n, m, k, rows[..|rows| - 1], cols);
      assert ScannedAll(rows, cols)[..|rows| - 1] == ScannedAll(rows[..|rows| - 1], cols);
    }
  }

  lemma {:induction false} ToManySeesKeys(n: Record, m: Record, k: ForeignKey, rows: seq<Record>, cols: seq<Column>)
    requires KeyColumn(k) in cols && n.id == m.id
    ensures ToMany(m, k, ScannedAll(rows, cols)) == ToMany(n, k, rows)
    decreases |rows|
  {
    if rows != [] {
      var i := |rows| - 1;
      ToManySeesKeys(n, m, k, rows[..i], cols);
      assert ScannedAll(rows, cols)[..i] == ScannedAll(rows[..i], cols);
      ScannedKeeps(rows[i], cols, k);
    }
  }

  /** A requested to-one edge is the same under any selection, of the accounts
      and of the neighbours, as read straight from the database rows. */
  lemma SelectKeepsToOne(n: Record, k: ForeignKey, rows: seq<Record>,
                         cols: seq<Column>, all: seq<Column>, fields: seq<Column>, keys: set<ForeignKey>,
                         ncols: seq<Column>, nall: seq<Column>, nfields: seq<Column>, nkeys: set<ForeignKey>)
    requires KeyColumn(k) in all && k in keys && Fetches(cols, all, true, fields, keys)
    requires IdColumn in nall && Fetches(ncols, nall, true, nfields, nkeys)
    ensures ToOne(Scanned(n, cols), k, ScannedAll(rows, ncols)) == ToOne(n, k, rows)
  {
    ScannedKeeps(n, cols, k);
    ToOneSeesIds(n, Scanned(n, cols), k, rows, ncols);
  }

  /** A requested to-many edge likewise: the neighbour query gets the key
      appended to its selection whenever it has one. */
  lemma SelectKeepsToMany(n: Record, k: ForeignKey, rows: seq<Record>,
                          cols: seq<Column>, all: seq<Column>, fields: seq<Column>, keys: set<ForeignKey>,
                          ncols: seq<Column>, nall: seq<Column>, nhasId: bool, nfields: seq<Column>, nkeys: set<ForeignKey>)
    requires IdColumn in all && Fetches(cols, all, true, fields, keys)
    requires KeyColumn(k) in nall
    requires Fetches(ncols, nall, nhasId, if nfields == [] then [] else AppendOnce(nfields, KeyColumn(k)), nkeys)
    ensures ToMany(Scanned(n, cols), k, ScannedAll(rows, ncols)) == ToMany(n, k, rows)
  {
    ScannedKeeps(n, cols, k);
    ToManySeesKeys(n, Scanned(n, cols), k, rows, ncols);
  }

  // ------------------------------------------------------- edges of the loaders

  /** What a database row, or what was fetched of it, becomes on the heap. */
  function RecordOf(n: Node): Record {
    Record(n.id, n.keys)
  }

  function RecordsOf(ns: seq<Node>): seq<Record> {
    seq(|ns|, i requires 0 <= i < |ns| => RecordOf(ns[i]))
  }

  /** The to-one edge the loaders give a node, as the position of a row. */
  ghost predicate OneIsAt(n: Node, k: ForeignKey, rows: seq<Node>, p: Option<nat>) {
    && (p.Some? ==> p.value < |rows|)
    && (if k in n.keys then RowWithId(rows, n.keys[k]) else None) == if p.Some? then Some(rows[p.value]) else None
  }

  /** The to-many edge, as positions of rows. */
  ghost predicate ManyAreAt(n: Node, k: ForeignKey, rows: seq<Node>, ps: seq<nat>) {
    && (forall i :: 0 <= i < |ps| ==> ps[i] < |rows|)
    && KeyedBy(rows, k, n.id) == seq(|ps|, i requires 0 <= i < |ps| && ps[i] < |rows| => rows[ps[i]])
  }

  lemma {:induction false} OneAtPosition(n: Node, k: ForeignKey, rows: seq<Node>)
    ensures OneIsAt(n, k, rows, ToOne(RecordOf(n), k, RecordsOf(rows)))
    decreases |rows|
  {
    if rows != [] {
      var last := |rows| - 1;
      OneAtPosition(n, k, rows[..last]);
      assert RecordsOf(rows)[..last] == RecordsOf(rows[..last]);
    }
  }

  lemma {:induction false} ManyAtPositions(n: Node, k: ForeignKey, rows: seq<Node>)
    ensures ManyAreAt(n, k, rows, ToMany(RecordOf(n), k, RecordsOf(rows)))
    decreases |rows|
  {
    if rows != [] {
      var last := |rows| - 1;
      ManyAtPositions(n, k, rows[..last]);
      assert RecordsOf(rows)[..last] == RecordsOf(rows[..last]);
      assert RecordsOf(rows)[last] == RecordOf(rows[last]);
      var before, after := ToMany(RecordOf(n), k, RecordsOf(rows[..last])), ToMany(RecordOf(n), k, RecordsOf(rows));
      assert after == before + if HasKey(rows[last], k, n.id) then [last] else [];
      assert forall i :: 0 <= i < |before| ==> after[i] == before[i] && rows[..last][before[i]] == rows[before[i]];
      assert HasKey(rows[last], k, n.id) ==> after[|before|] == last;
    }
  }

  /** An account and the neighbours fetched under any selection get from the
      loader the to-one edge they get under a full one: the same row. */
  lemma LoadedToOneIgnoresSelect(n: Node, n': Node, e: Edge, rows: seq<Node>, rows': seq<Node>,
                                 cols: seq<Column>, fields: seq<Column>, with: set<Edge>,
                                 ncols: seq<Column>, nfields: seq<Column>, nkeys: set<ForeignKey>)
    returns (p: Option<nat>)
    requires IsToOne(e) && e in with
    requires Fetches(cols, ACCOUNT_COLUMNS, true, fields, KeysNeeded(with))
    requires Fetches(ncols, NeighbourColumns(e), true, nfields, nkeys)
    requires RecordOf(n') == Scanned(RecordOf(n), cols)
    requires RecordsOf(rows') == ScannedAll(RecordsOf(rows), ncols)
    ensures OneIsAt(n, KeyOf(e), rows, p) && OneIsAt(n', KeyOf(e), rows', p)
  {
    p := ToOne(RecordOf(n), KeyOf(e), RecordsOf(rows));
    ListsHaveKeys(e);
    SelectKeepsToOne(RecordOf(n), KeyOf(e), RecordsOf(rows), cols, ACCOUNT_COLUMNS, fields, KeysNeeded(with),
                     ncols, NeighbourColumns(e), nfields, nkeys);
    OneAtPosition(n, KeyOf(e), rows);
    OneAtPosition(n', KeyOf(e), rows');
  }

  /** The same for to-many edges: the same rows in the same order. */
  lemma LoadedToManyIgnoresSelect(n: Node, n': Node, e: Edge, rows: seq<Node>, rows': seq<Node>,
                                  cols: seq<Column>, fields: seq<Column>, with: set<Edge>,
                                  ncols: seq<Column>, nfields: seq<Column>, nkeys: set<ForeignKey>)
    returns (ps: seq<nat>)
    requires IsToMany(e)
    requires Fetches(cols, ACCOUNT_COLUMNS, true, fields, KeysNeeded(with))
    requires Fetches(ncols, NeighbourColumns(e), NeighbourHasId(e),
                     if nfields == [] then [] else AppendOnce(nfields, KeyColumn(ManyKeyOf(e))), nkeys)
    requires RecordOf(n') == Scanned(RecordOf(n), cols)
    requires RecordsOf(rows') == ScannedAll(RecordsOf(rows), ncols)
    ensures ManyAreAt(n, ManyKeyOf(e), rows, ps) && ManyAreAt(n', ManyKeyOf(e), rows', ps)
  {
    var k := ManyKeyOf(e);
    ps := ToMany(RecordOf(n), k, RecordsOf(rows));
    ListsHaveKeys(e);
    SelectKeepsToMany(RecordOf(n), k, RecordsOf(rows), cols, ACCOUNT_COLUMNS, fields, KeysNeeded(with),
                      ncols, NeighbourColumns(e), NeighbourHasId(e), nfields, nkeys);
    ManyAtPositions(n, k, rows);
    ManyAtPositions(n', k, rows');
  }

  // ------------------------------------------------------------- the groups edge

  /** The integer a column of a row is scanned into; no other column is read as one. */
  function CellOf(r: Record, c: Column): Option<int64> {
    match c
    case IdColumn => Some(r.id)
    case KeyColumn(k) => if k in r.keys then Some(r.keys[k]) else None
    case Field(_) => None
  }

  /** A row of the join: the account id in front of the selected group columns. */
  function JoinValues(a: int64, g: Record, cols: seq<Column>): seq<Option<int64>> {
    [Some(a)] + seq(|cols|, i requires 0 <= i < |cols| => CellOf(g, cols[i]))
  }

  /** NullInt64.Int64 */
  function IntOf(v: Option<int64>): int64 {
    if v.Some? then v.value else 0
  }

  /** The loader takes both ids by position. */
  function ReadValues(values: seq<Option<int64>>): JoinRow
    requires |values| >= 2
  {
    JoinRow(IntOf(values[0]), IntOf(values[1]))
  }

  function ReadRows(pairs: seq<(int64, Record)>, cols: seq<Column>): seq<JoinRow>
    requires cols != []
  {
    seq(|pairs|, i requires 0 <= i < |pairs| => ReadValues(JoinValues(pairs[i].0, pairs[i].1, cols)))
  }

  /** The rows of the join by the ids they are about. */
  function RowsById(pairs: seq<(int64, Record)>): seq<JoinRow> {
    seq(|pairs|, i requires 0 <= i < |pairs| => JoinRow(pairs[i].0, pairs[i].1.id))
  }

  /** The id is the first column of a fetched group, selected or not, so the
      loader reads the ids of the join under any selection. */
  lemma SelectKeepsJoin(pairs: seq<(int64, Record)>, ncols: seq<Column>, nall: seq<Column>, nfields: seq<Column>,
                        nkeys: set<ForeignKey>)
    requires nall != [] && nall[0] == IdColumn && Fetches(ncols, nall, true, nfields, nkeys)
    ensures ncols != [] && ReadRows(pairs, ncols) == RowsById(pairs)
  {
    forall i | 0 <= i < |pairs| ensures ReadRows(pairs, ncols)[i] == RowsById(pairs)[i] {
      assert JoinValues(pairs[i].0, pairs[i].1, ncols)[1] == CellOf(pairs[i].1, ncols[0]);
    }
  }

  lemma {:induction false} JoinedById(neighbors: seq<Node>, neighbors': seq<Node>, rows: seq<JoinRow>, a: int64)
    requires Ids(neighbors) == Ids(neighbors')
    ensures Ids(Joined(neighbors, rows, a)) == Ids(Joined(neighbors', rows, a))
    decreases |neighbors|
  {
    assert |neighbors| == |Ids(neighbors)| == |neighbors'|;
    if neighbors != [] {
      var last := |neighbors| - 1;
      assert neighbors[last].id == Ids(neighbors)[last] == neighbors'[last].id;
      IdsPrefix(neighbors, last);
      IdsPrefix(neighbors', last);
      JoinedById(neighbors[..last], neighbors'[..last], rows, a);
    }
  }

  lemma IdsPrefix(nodes: seq<Node>, k: nat)
    requires k <= |nodes|
    ensures Ids(nodes[..k]) == Ids(nodes)[..k]
  {}

  /** An account fetched under any selection, with its groups loaded under any
      selection, gets the same groups in the same order. */
  lemma LoadedGroupsIgnoreSelect(n: Node, n': Node, pairs: seq<(int64, Record)>,
                                 neighbors: seq<Node>, neighbors': seq<Node>,
                                 cols: seq<Column>, fields: seq<Column>, with: set<Edge>,
                                 ncols: seq<Column>, nfields: seq<Column>, nkeys: set<ForeignKey>)
    requires Fetches(cols, ACCOUNT_COLUMNS, true, fields, KeysNeeded(with))
    requires Fetches(ncols, GROUP_COLUMNS, true, nfields, nkeys)
    requires RecordOf(n') == Scanned(RecordOf(n), cols)
    requires Ids(neighbors) == FirstSeen(RowsById(pairs))
    requires ncols != [] && Ids(neighbors') == FirstSeen(ReadRows(pairs, ncols))
    ensures Ids(Joined(neighbors', ReadRows(pairs, ncols), n'.id)) == Ids(Joined(neighbors, RowsById(pairs), n.id))
  {
    ListsHaveKeys(Groups);
    ScannedKeeps(RecordOf(n), cols, AccountId);
    SelectKeepsJoin(pairs, ncols, GROUP_COLUMNS, nfields, nkeys);
    JoinedById(neighbors', neighbors, RowsById(pairs), n.id);
  }
}
