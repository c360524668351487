/** What plan, check, apply and rollback look at and do, said once more over the
    rows, bindings and times themselves: what the baseline digest covers, which
    sources are eligible, what a clone is, and when a mode commits
    (deploy/configure_official_cloud_routes.py:30-38, 67-117, 133-195). */
module RouteMeaning {
  import opened Wrappers
  import opened RouteTables
  import opened RouteTransactions
  import opened RouteApply
  import Rolling = RouteRollback

  // ------------------------------------------------------------------- baseline

  /** Source group `g` looks the same in both databases: its row, its bindings, and
      the accounts, channels and prices at their other ends. */
  ghost predicate SourceAgrees(db: Db, db': Db, g: nat) {
    && (g in db.groups <==> g in db'.groups)
    && (g in db.groups && g in db'.groups ==> db.groups[g] == db'.groups[g])
    && BindingsAgree(db.accountGroups, db'.accountGroups, g)
    && BindingsAgree(db.channelGroups, db'.channelGroups, g)
    && (forall a: nat :: (a, g) in db.accountGroups ==> EntryAgrees(db.accounts, db'.accounts, a))
    && (forall c: nat :: (c, g) in db.channelGroups ==> EntryAgrees(db.channels, db'.channels, c))
    && (forall p: nat, c: nat :: (c, g) in db.channelGroups ==> PriceAgrees(db, db', p, c))
  }

  ghost predicate BindingsAgree<V>(m: map<(nat, nat), V>, n: map<(nat, nat), V>, g: nat) {
    && (forall x: nat :: (x, g) in m <==> (x, g) in n)
    && (forall x: nat :: (x, g) in m && (x, g) in n ==> m[(x, g)] == n[(x, g)])
  }

  ghost predicate EntryAgrees<V>(m: map<nat, V>, n: map<nat, V>, i: nat) {
    (i in m <==> i in n) && (i in m && i in n ==> m[i] == n[i])
  }

  /** Price row `p` is one of channel `c` in both databases, and the same, or in neither. */
  ghost predicate PriceAgrees(db: Db, db': Db, p: nat, c: nat) {
    && (p in db.pricing && db.pricing[p].channel == c <==> p in db'.pricing && db'.pricing[p].channel == c)
    && (p in db.pricing && p in db'.pricing && db.pricing[p].channel == c ==> db.pricing[p] == db'.pricing[p])
  }

  ghost predicate SourcesAgree(db: Db, db': Db, ts: seq<Target>) {
    forall t :: t in ts ==> SourceAgrees(db, db', t.source)
  }

  lemma UnderAgrees<V>(m: map<(nat, nat), V>, n: map<(nat, nat), V>, gs: set<nat>)
    ensures Under(m, gs) == Under(n, gs) <==> forall g :: g in gs ==> BindingsAgree(m, n, g)
  {
    if Under(m, gs) == Under(n, gs) {
      forall g | g in gs ensures BindingsAgree(m, n, g) {
        assert forall x: nat :: (x, g) in m <==> (x, g) in Under(m, gs);
        assert forall x: nat :: (x, g) in n <==> (x, g) in Under(n, gs);
        assert forall x: nat :: (x, g) in m ==> m[(x, g)] == Under(m, gs)[(x, g)];
        assert forall x: nat :: (x, g) in n ==> n[(x, g)] == Under(n, gs)[(x, g)];
      }
    }
    if forall g :: g in gs ==> BindingsAgree(m, n, g) {
      forall k ensures k in Under(m, gs) <==> k in Under(n, gs) {
        assert k == (k.0, k.1);
      }
      forall k | k in Under(m, gs) ensures Under(m, gs)[k] == Under(n, gs)[k] {
        assert k == (k.0, k.1);
      }
    }
  }

  lemma EndsExactly<V>(m: map<(nat, nat), V>, gs: set<nat>, x: nat)
    ensures x in Ends(m, gs) <==> exists g :: g in gs && (x, g) in m
  {
    if g :| g in gs && (x, g) in m {
      assert (x, g).0 == x;
    }
    if x in Ends(m, gs) {
      var k :| k in m && k.1 in gs && k.0 == x;
      assert (x, k.1) == k;
    }
  }

  lemma RestrictAgrees<V>(m: map<nat, V>, n: map<nat, V>, ids: set<nat>)
    ensures Restrict(m, ids) == Restrict(n, ids) <==> forall i :: i in ids ==> EntryAgrees(m, n, i)
  {
    if Restrict(m, ids) == Restrict(n, ids) {
      forall i | i in ids ensures EntryAgrees(m, n, i) {
        assert i in m <==> i in Restrict(m, ids);
        assert i in n <==> i in Restrict(n, ids);
        assert i in m ==> m[i] == Restrict(m, ids)[i];
        assert i in n ==> n[i] == Restrict(n, ids)[i];
      }
    }
  }

  lemma PricesAgree(db: Db, db': Db, cs: set<nat>)
    ensures PricesOf(db.pricing, cs) == PricesOf(db'.pricing, cs) <==>
            forall p: nat, c :: c in cs ==> PriceAgrees(db, db', p, c)
  {
    var m, n := PricesOf(db.pricing, cs), PricesOf(db'.pricing, cs);
    if m == n {
      forall p: nat, c | c in cs ensures PriceAgrees(db, db', p, c) {
        assert p in db.pricing && db.pricing[p].channel == c ==> p in m && m[p] == db.pricing[p];
        assert p in db'.pricing && db'.pricing[p].channel == c ==> p in n && n[p] == db'.pricing[p];
        assert p in m ==> m[p] == db.pricing[p];
        assert p in n ==> n[p] == db'.pricing[p];
      }
    }
    if forall p: nat, c :: c in cs ==> PriceAgrees(db, db', p, c) {
      forall p ensures p in m <==> p in n {
        assert p in m ==> PriceAgrees(db, db', p, db.pricing[p].channel);
        assert p in n ==> PriceAgrees(db, db', p, db'.pricing[p].channel);
      }
      forall p | p in m ensures m[p] == n[p] {
        assert PriceAgrees(db, db', p, db.pricing[p].channel);
      }
    }
  }

  /** The six parts of the digest agree. */
  ghost predicate PartsAgree(db: Db, db': Db, gs: set<nat>) {
    && Restrict(db.groups, gs) == Restrict(db'.groups, gs)
    && Under(db.accountGroups, gs) == Under(db'.accountGroups, gs)
    && Under(db.channelGroups, gs) == Under(db'.channelGroups, gs)
    && Restrict(db.accounts, Ends(db.accountGroups, gs)) == Restrict(db'.accounts, Ends(db.accountGroups, gs))
    && Restrict(db.channels, Ends(db.channelGroups, gs)) == Restrict(db'.channels, Ends(db.channelGroups, gs))
    && PricesOf(db.pricing, Ends(db.channelGroups, gs)) == PricesOf(db'.pricing, Ends(db.channelGroups, gs))
  }

  lemma EndsAgree<V>(m: map<(nat, nat), V>, n: map<(nat, nat), V>, gs: set<nat>)
    requires Under(m, gs) == Under(n, gs)
    ensures Ends(m, gs) == Ends(n, gs)
  {
    UnderAgrees(m, n, gs);
    forall x ensures x in Ends(m, gs) <==> x in Ends(n, gs) {
      EndsExactly(m, gs, x);
      EndsExactly(n, gs, x);
      assert forall g :: g in gs ==> BindingsAgree(m, n, g);
    }
  }

  lemma SnapshotByParts(db: Db, db': Db, ts: seq<Target>)
    ensures SnapshotOf(db, ts) == SnapshotOf(db', ts) <==> PartsAgree(db, db', Sources(ts))
  {
    var gs := Sources(ts);
    if Under(db.accountGroups, gs) == Under(db'.accountGroups, gs) {
      EndsAgree(db.accountGroups, db'.accountGroups, gs);
    }
    if Under(db.channelGroups, gs) == Under(db'.channelGroups, gs) {
      EndsAgree(db.channelGroups, db'.channelGroups, gs);
    }
  }

  /** Said of all other ends at once, or source by source, it is the same. */
  ghost predicate AllAgree(db: Db, db': Db, gs: set<nat>) {
    && (forall g :: g in gs ==> EntryAgrees(db.groups, db'.groups, g))
    && (forall g :: g in gs ==> BindingsAgree(db.accountGroups, db'.accountGroups, g))
    && (forall g :: g in gs ==> BindingsAgree(db.channelGroups, db'.channelGroups, g))
    && (forall a :: a in Ends(db.accountGroups, gs) ==> EntryAgrees(db.accounts, db'.accounts, a))
    && (forall c :: c in Ends(db.channelGroups, gs) ==> EntryAgrees(db.channels, db'.channels, c))
    && (forall p: nat, c :: c in Ends(db.channelGroups, gs) ==> PriceAgrees(db, db', p, c))
  }

  lemma PartsAgreeExactly(db: Db, db': Db, gs: set<nat>)
    ensures PartsAgree(db, db', gs) <==> AllAgree(db, db', gs)
  {
    RestrictAgrees(db.groups, db'.groups, gs);
    UnderAgrees(db.accountGroups, db'.accountGroups, gs);
    UnderAgrees(db.channelGroups, db'.channelGroups, gs);
    RestrictAgrees(db.accounts, db'.accounts, Ends(db.accountGroups, gs));
    RestrictAgrees(db.channels, db'.channels, Ends(db.channelGroups, gs));
    PricesAgree(db, db', Ends(db.channelGroups, gs));
  }

  lemma SourceBySource(db: Db, db': Db, ts: seq<Target>)
    ensures AllAgree(db, db', Sources(ts)) <==> SourcesAgree(db, db', ts)
  {
    var gs := Sources(ts);
    if AllAgree(db, db', gs) {
      forall t | t in ts ensures SourceAgrees(db, db', t.source) {
        AgreeAt(db, db', gs, t.source);
      }
    }
    if SourcesAgree(db, db', ts) {
      forall g | g in gs ensures SourceAgrees(db, db', g) {
        var t :| t in ts && t.source == g;
      }
      AgreeEverywhere(db, db', gs);
    }
  }

  lemma AgreeAt(db: Db, db': Db, gs: set<nat>, g: nat)
    requires AllAgree(db, db', gs) && g in gs
    ensures SourceAgrees(db, db', g)
  {
    assert EntryAgrees(db.groups, db'.groups, g);
    forall a: nat | (a, g) in db.accountGroups ensures EntryAgrees(db.accounts, db'.accounts, a) {
      EndsExactly(db.accountGroups, gs, a);
    }
    forall c: nat | (c, g) in db.channelGroups ensures c in Ends(db.channelGroups, gs) {
      EndsExactly(db.channelGroups, gs, c);
    }
  }

  lemma AgreeEverywhere(db: Db, db': Db, gs: set<nat>)
    requires forall g :: g in gs ==> SourceAgrees(db, db', g)
    ensures AllAgree(db, db', gs)
  {
    forall a | a in Ends(db.accountGroups, gs) ensures EntryAgrees(db.accounts, db'.accounts, a) {
      EndsExactly(db.accountGroups, gs, a);
      var g :| g in gs && (a, g) in db.accountGroups;
      assert SourceAgrees(db, db', g);
    }
    forall c | c in Ends(db.channelGroups, gs)
      ensures EntryAgrees(db.channels, db'.channels, c)
      ensures forall p: nat :: PriceAgrees(db, db', p, c)
    {
      EndsExactly(db.channelGroups, gs, c);
      var g :| g in gs && (c, g) in db.channelGroups;
      assert SourceAgrees(db, db', g);
    }
  }

  /** Two databases have the same digest exactly when every source looks the same. */
  lemma SnapshotsAgreeExactly(db: Db, db': Db, ts: seq<Target>)
    ensures SnapshotOf(db, ts) == SnapshotOf(db', ts) <==> SourcesAgree(db, db', ts)
  {
    SnapshotByParts(db, db', ts);
    PartsAgreeExactly(db, db', Sources(ts));
    SourceBySource(db, db', ts);
  }

  // ------------------------------------------------------------------- sources

  /** Column `c` is absent or NULL, or holds `v`. */
  ghost predicate NullOr(r: Row, c: Column, v: Value) {
    c in r ==> r[c] == Null || r[c] == v
  }

  /** The source row of a target is live, active, of the target's platform,
      standard, not exclusive and discounted. */
  ghost predicate EligibleRow(r: Row, t: Target) {
    && NullOr(r, DeletedAt, Null)
    && NullOr(r, Status, Text("active"))
    && NullOr(r, Platform, Text(t.platform))
    && NullOr(r, SubscriptionType, Text("standard"))
    && (IsExclusive in r ==> r[IsExclusive] != Bool(true))
    && (RateMultiplier in r && r[RateMultiplier].Num? ==> 0.0 < r[RateMultiplier].num < 1.0)
  }

  /** An account may be bound to a source: it is live, and no API key where only
      OAuth is allowed. */
  ghost predicate MayBeBound(r: Row, a: AccountRow) {
    && a.deletedAt.None?
    && (RequireOauthOnly in r && r[RequireOauthOnly] == Bool(true) ==> a.kind != "apikey")
  }

  ghost predicate UsableNow(a: AccountRow, now: int) {
    a.status == "active" && a.schedulable && a.deletedAt.None? && (a.expiresAt.Some? ==> a.expiresAt.value > now)
  }

  /** The source of a target can be cloned now. */
  ghost predicate EligibleSource(db: Db, t: Target, now: int) {
    && t.source in db.groups
    && EligibleRow(db.groups[t.source], t)
    && (forall a: nat :: (a, t.source) in db.accountGroups && a in db.accounts ==>
          MayBeBound(db.groups[t.source], db.accounts[a]))
    && (exists a: nat :: (a, t.source) in db.accountGroups && a in db.accounts && UsableNow(db.accounts[a], now))
    && (forall c: nat :: (c, t.source) in db.channelGroups && c in db.channels ==>
          NullOr(db.channels[c], Status, Text("active")))
  }

  lemma EligibleRowExactly(r: Row, t: Target)
    ensures SourceRowRejected(r, t) <==> !EligibleRow(r, t)
  {}

  lemma BoundExactly(db: Db, g: nat, r: Row, now: int)
    ensures HasIneligibleAccount(db, g, r) <==>
            !forall a: nat :: (a, g) in db.accountGroups && a in db.accounts ==> MayBeBound(r, db.accounts[a])
    ensures HasUsableAccount(db, g, now) <==>
            exists a: nat :: (a, g) in db.accountGroups && a in db.accounts && UsableNow(db.accounts[a], now)
  {
    if HasIneligibleAccount(db, g, r) {
      var k :| k in db.accountGroups && k.1 == g && k.0 in db.accounts &&
        (db.accounts[k.0].deletedAt.Some? || (Col(r, RequireOauthOnly) == Bool(true) && db.accounts[k.0].kind == "apikey"));
      assert (k.0, g) == k && !MayBeBound(r, db.accounts[k.0]);
    }
    if a: nat :| (a, g) in db.accountGroups && a in db.accounts && !MayBeBound(r, db.accounts[a]) {
      assert (a, g).0 == a && (a, g).1 == g;
    }
    if HasUsableAccount(db, g, now) {
      var k :| k in db.accountGroups && k.1 == g && k.0 in db.accounts && Usable(db.accounts[k.0], now);
      assert (k.0, g) == k && UsableNow(db.accounts[k.0], now);
    }
    if a: nat :| (a, g) in db.accountGroups && a in db.accounts && UsableNow(db.accounts[a], now) {
      assert (a, g).0 == a && (a, g).1 == g && Usable(db.accounts[a], now);
    }
  }

  lemma ChannelsExactly(db: Db, g: nat)
    ensures HasInactiveChannel(db, g) <==>
            !forall c: nat :: (c, g) in db.channelGroups && c in db.channels ==> NullOr(db.channels[c], Status, Text("active"))
  {
    if HasInactiveChannel(db, g) {
      var k :| k in db.channelGroups && k.1 == g && k.0 in db.channels &&
        IsTrueNe(Col(db.channels[k.0], Status), Text(ACTIVE));
      assert (k.0, g) == k && !NullOr(db.channels[k.0], Status, Text("active"));
    }
    if c: nat :| (c, g) in db.channelGroups && c in db.channels && !NullOr(db.channels[c], Status, Text("active")) {
      assert (c, g).0 == c && (c, g).1 == g;
    }
  }

  /** The first half of the validation of a target, over rows, bindings and times. */
  lemma SourceOkExactly(db: Db, t: Target, now: int)
    ensures SourceOk(db, t, now) <==> EligibleSource(db, t, now)
  {
    if t.source in db.groups {
      EligibleRowExactly(db.groups[t.source], t);
      BoundExactly(db, t.source, db.groups[t.source], now);
      ChannelsExactly(db, t.source);
    }
  }

  // -------------------------------------------------------------------- clones

  /** A live group row that carries a marker. */
  ghost predicate LiveWith(r: Row, marker: string) {
    && DuplicateOperationId in r && r[DuplicateOperationId] == Text(marker)
    && (DeletedAt in r ==> r[DeletedAt] == Null)
  }

  lemma LiveWithExactly(r: Row, marker: string)
    ensures Carries(r, marker) <==> LiveWith(r, marker)
  {}

  ghost predicate Holds(r: Row, c: Column, v: Value) {
    c in r && r[c] == v
  }

  /** What a clone has in a column it does not copy, but for its two timestamps: the
      target's name and marker, list price, no peak rate, shared, active, standard,
      without fallbacks and live. */
  ghost function Wanted(c: Column, t: Target): Option<Value> {
    match c
    case Name => Some(Text(t.name))
    case Description => Some(Text("Official list-price route served by the existing cloud upstream"))
    case DuplicateOperationId => Some(Text(t.marker))
    case RateMultiplier | RateMultiplierUsd | RateMultiplierCny | PeakRateMultiplier => Some(Num(1.0))
    case PeakRateEnabled | IsExclusive => Some(Bool(false))
    case Status => Some(Text("active"))
    case SubscriptionType => Some(Text("standard"))
    case FallbackGroupId | FallbackGroupIdOnInvalidRequest | DeletedAt => Some(Null)
    case _ => None
  }

  /** `dst` has the wanted values, and in every other column that of `src`. */
  ghost predicate CloneOf(dst: Row, src: Row, t: Target) {
    && dst.Keys == src.Keys
    && forall c :: c in src && c != CreatedAt && c != UpdatedAt ==>
         Holds(dst, c, if Wanted(c, t).Some? then Wanted(c, t).value else src[c])
  }

  lemma WantedExactly(c: Column, src: Row, t: Target, now: int)
    requires c in src
    ensures Eval(ExprFor(c, t), src, now) ==
            if c == CreatedAt || c == UpdatedAt then Time(now)
            else if Wanted(c, t).Some? then Wanted(c, t).value else src[c]
  {}

  /** What apply inserts for a target is the clone of its source, stamped now. */
  lemma CloneRowExactly(src: Row, t: Target, now: int)
    requires CreatedAt in src && UpdatedAt in src
    ensures CloneOf(CloneRow(src, t, now), src, t)
    ensures Holds(CloneRow(src, t, now), CreatedAt, Time(now)) && Holds(CloneRow(src, t, now), UpdatedAt, Time(now))
  {
    forall c | c in src
      ensures c in CloneRow(src, t, now) && CloneRow(src, t, now)[c] == Eval(ExprFor(c, t), src, now)
    {}
    WantedExactly(CreatedAt, src, t, now);
    WantedExactly(UpdatedAt, src, t, now);
    forall c | c in src && c != CreatedAt && c != UpdatedAt
      ensures Eval(ExprFor(c, t), src, now) == if Wanted(c, t).Some? then Wanted(c, t).value else src[c]
    {
      WantedExactly(c, src, t, now);
    }
  }

  lemma IsCloneRowExactly(dst: Row, src: Row, t: Target)
    requires dst.Keys == src.Keys
    ensures IsCloneRow(dst, src, t) <==> CloneOf(dst, src, t)
  {
    forall c | c in src && c != CreatedAt && c != UpdatedAt
      ensures Eval(ExprFor(c, t), src, 0) == if Wanted(c, t).Some? then Wanted(c, t).value else src[c]
    {
      WantedExactly(c, src, t, 0);
    }
  }

  // --------------------------------------------------------- the modes in full

  ghost predicate OnlyLive(db: Db, d: nat, marker: string) {
    && d in db.groups && LiveWith(db.groups[d], marker)
    && forall e :: e in db.groups && LiveWith(db.groups[e], marker) ==> e == d
  }

  ghost predicate NoneLive(db: Db, marker: string) {
    forall e :: e in db.groups ==> !LiveWith(db.groups[e], marker)
  }

  ghost predicate NameFree(db: Db, name: string) {
    forall e :: e in db.groups ==> !Holds(db.groups[e], Name, Text(name))
  }

  /** There is one live group with the target's marker, and it is a clone of the
      source: the row, the accounts with their priorities, the channels. */
  ghost predicate Cloned(db: Db, t: Target) {
    && t.source in db.groups
    && exists d :: OnlyLive(db, d, t.marker) && CloneOf(db.groups[d], db.groups[t.source], t) && SameBindings(db, t.source, d)
  }

  /** Check passes for a target. */
  ghost predicate Checked(db: Db, t: Target, now: int) {
    EligibleSource(db, t, now) && Cloned(db, t)
  }

  /** Plan passes for a target: the clone may be missing where the name is free. */
  ghost predicate Plannable(db: Db, t: Target, now: int) {
    EligibleSource(db, t, now) && ((NoneLive(db, t.marker) && NameFree(db, t.name)) || Cloned(db, t))
  }

  lemma LiveIdsExactly(db: Db, marker: string, d: nat)
    ensures LiveIds(db, marker) == {d} <==> OnlyLive(db, d, marker)
    ensures LiveIds(db, marker) == {} <==> NoneLive(db, marker)
  {
    forall e ensures e in LiveIds(db, marker) <==> e in db.groups && LiveWith(db.groups[e], marker) {
      if e in db.groups {
        LiveWithExactly(db.groups[e], marker);
      }
    }
    if OnlyLive(db, d, marker) {
      assert forall e :: e in LiveIds(db, marker) <==> e == d;
    }
    if LiveIds(db, marker) == {d} {
      assert d in LiveIds(db, marker);
    }
  }

  lemma NameFreeExactly(db: Db, name: string)
    ensures NameTaken(db, name) <==> !NameFree(db, name)
  {}

  lemma ExactCloneExactly(db: Db, t: Target, d: nat)
    requires SchemaOk(db) && d in db.groups && t.source in db.groups
    ensures IsExactClone(db, d, t) <==>
            CloneOf(db.groups[d], db.groups[t.source], t) && SameBindings(db, t.source, d)
  {
    RowsHaveNamed(db, d, t.source);
    IsCloneRowExactly(db.groups[d], db.groups[t.source], t);
  }

  lemma RowsHaveNamed(db: Db, d: nat, g: nat)
    requires SchemaOk(db) && d in db.groups && g in db.groups
    ensures db.groups[d].Keys == db.groups[g].Keys
  {}

  lemma OneExactClone(db: Db, t: Target)
    requires SchemaOk(db) && t.source in db.groups
    ensures (exists d :: d in db.groups && LiveIds(db, t.marker) == {d} && IsExactClone(db, d, t)) <==> Cloned(db, t)
  {
    if d :| d in db.groups && LiveIds(db, t.marker) == {d} && IsExactClone(db, d, t) {
      LiveIdsExactly(db, t.marker, d);
      ExactCloneExactly(db, t, d);
      assert OnlyLive(db, d, t.marker);
    }
    if Cloned(db, t) {
      var d :| OnlyLive(db, d, t.marker) && CloneOf(db.groups[d], db.groups[t.source], t) && SameBindings(db, t.source, d);
      LiveIdsExactly(db, t.marker, d);
      ExactCloneExactly(db, t, d);
    }
  }

  lemma CheckedExactly(db: Db, t: Target, now: int)
    requires Valid(db)
    ensures TargetOk(db, t, now, false) <==> Checked(db, t, now)
  {
    CheckIsExact(db, t, now);
    SourceOkExactly(db, t, now);
    if t.source in db.groups {
      OneExactClone(db, t);
    }
  }

  lemma PlannableExactly(db: Db, t: Target, now: int)
    requires Valid(db)
    ensures TargetOk(db, t, now, true) <==> Plannable(db, t, now)
  {
    CheckedExactly(db, t, now);
    SourceOkExactly(db, t, now);
    LiveIdsExactly(db, t.marker, 0);
    NameFreeExactly(db, t.name);
    if NoneLive(db, t.marker) {
      assert !Cloned(db, t);
    }
  }

  lemma ValidatesExactly(db: Db, ts: seq<Target>, now: int)
    requires Valid(db)
    ensures Validates(db, ts, now, false) <==> forall t :: t in ts ==> Checked(db, t, now)
    ensures Validates(db, ts, now, true) <==> forall t :: t in ts ==> Plannable(db, t, now)
  {
    forall t | t in ts
      ensures TargetOk(db, t, now, false) <==> Checked(db, t, now)
      ensures TargetOk(db, t, now, true) <==> Plannable(db, t, now)
    {
      CheckedExactly(db, t, now);
      PlannableExactly(db, t, now);
    }
  }

  /** Apply with the baseline of database `planned` commits exactly when every source
      still looks as it did there and every target is plannable now. */
  lemma ApplyAgainstPlan(planned: Db, db: Db, ts: seq<Target>, now: int)
    requires Valid(db) && Distinct(ts)
    ensures Apply(db, ts, SnapshotOf(planned, ts), now).Commit? <==>
            SourcesAgree(planned, db, ts) && forall t :: t in ts ==> Plannable(db, t, now)
  {
    ApplyCommitsExactly(db, ts, SnapshotOf(planned, ts), now);
    SnapshotsAgreeExactly(planned, db, ts);
    ValidatesExactly(db, ts, now);
  }

  /** Where any source has changed since the plan, apply aborts. */
  lemma StalePlanAborts(planned: Db, db: Db, ts: seq<Target>, now: int)
    requires !SourcesAgree(planned, db, ts)
    ensures Apply(db, ts, SnapshotOf(planned, ts), now) == Abort
    ensures forall ids :: Rolling.Rollback(db, ts, Some(SnapshotOf(planned, ts)), ids, now) == Abort
  {
    SnapshotsAgreeExactly(planned, db, ts);
  }

  /** The accounts apply refreshes are those bound to a source. */
  lemma SharedExactly(db: Db, ts: seq<Target>, a: nat)
    ensures a in Shared(db, ts) <==> exists t :: t in ts && (a, t.source) in db.accountGroups
  {
    EndsExactly(db.accountGroups, Sources(ts), a);
    if t :| t in ts && (a, t.source) in db.accountGroups {
      assert t.source in Sources(ts);
    }
    if g :| g in Sources(ts) && (a, g) in db.accountGroups {
      var t :| t in ts && t.source == g;
    }
  }

  /** An id is owned exactly when it is a live group with the marker of a target. */
  lemma OwnedExactly(db: Db, ts: seq<Target>, g: nat)
    ensures Rolling.Owned(db, ts, g) <==> g in db.groups && exists t :: t in ts && LiveWith(db.groups[g], t.marker)
  {
    if g in db.groups {
      forall t: Target ensures Carries(db.groups[g], t.marker) <==> LiveWith(db.groups[g], t.marker) {
        LiveWithExactly(db.groups[g], t.marker);
      }
    }
  }
}
