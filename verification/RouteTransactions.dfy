/** The plan, check, apply and rollback transactions as functions on the
    database, and what they promise
    (deploy/configure_official_cloud_routes.py:120-205). */
module RouteTransactions {
  import opened RouteTables
  import RouteOutbox

  /** A transaction aborts, or commits the tables, the ids it reports and the
      outbox events it asks for, in the order of its inserts. Its functions leave
      the outbox as it was: what the inserts do depends on other sessions
      (RouteOutbox). */
  datatype Outcome = Abort | Commit(db: Db, created: seq<nat>, events: seq<Event>)

  /** The database once the transaction has committed among other sessions. */
  function Committed(r: Outcome, others: RouteOutbox.Others): Db
    requires r.Commit?
  {
    r.db.(outbox := RouteOutbox.Final(others, r.events))
  }

  // ------------------------------------------------------------------ cloning

  function CopyAccounts(m: map<(nat, nat), Binding>, from: nat, to: nat, now: int): (r: map<(nat, nat), Binding>)
    ensures forall k :: k in r <==> k.1 == to && (k.0, from) in m
    ensures forall k :: k in r ==> r[k] == Binding(m[(k.0, from)].priority, now)
  {
    var targets := set j | j in m && j.1 == from :: (j.0, to);
    assert forall k :: k in targets ==> k.1 == to && (k.0, from) in m;
    assert forall k: (nat, nat) :: k.1 == to && (k.0, from) in m ==> k in targets by {
      forall k: (nat, nat) | k.1 == to && (k.0, from) in m ensures k in targets {
        var j := (k.0, from);
        assert (j.0, to) == k;
      }
    }
    map k | k in targets :: Binding(m[(k.0, from)].priority, now)
  }

  function CopyChannels(m: map<(nat, nat), int>, from: nat, to: nat, now: int): (r: map<(nat, nat), int>)
    ensures forall k :: k in r <==> k.1 == to && (k.0, from) in m
    ensures forall k :: k in r ==> r[k] == now
  {
    var targets := set j | j in m && j.1 == from :: (j.0, to);
    assert forall k: (nat, nat) :: k.1 == to && (k.0, from) in m ==> k in targets by {
      forall k: (nat, nat) | k.1 == to && (k.0, from) in m ensures k in targets {
        var j := (k.0, from);
        assert (j.0, to) == k;
      }
    }
    map k | k in targets :: now
  }

  /** The tables after one round of the clone loop for a target that has no live clone. */
  function InsertClone(db: Db, t: Target, now: int): Db
    requires t.source in db.groups
  {
    var g := db.nextGroupId;
    db.(groups := db.groups[g := CloneRow(db.groups[t.source], t, now)],
        accountGroups := db.accountGroups + CopyAccounts(db.accountGroups, t.source, g, now),
        channelGroups := db.channelGroups + CopyChannels(db.channelGroups, t.source, g, now),
        nextGroupId := g + 1)
  }

  ghost predicate SourcesExist(db: Db, ts: seq<Target>) {
    forall t :: t in ts ==> t.source in db.groups
  }

  /** The clone loop: the database after it, and created_ids. */
  function CloneMissing(db: Db, ts: seq<Target>, now: int): (Db, seq<nat>)
    requires SourcesExist(db, ts)
    decreases |ts|
  {
    if ts == [] then (db, []) else
      assert ts[0] in ts;
      if LiveIds(db, ts[0].marker) != {} then CloneMissing(db, ts[1..], now)
      else
        var (after, ids) := CloneMissing(InsertClone(db, ts[0], now), ts[1..], now);
        (after, [db.nextGroupId] + ids)
  }

  // -------------------------------------------------- what one insert preserves

  ghost predicate AgreeElsewhere<V>(m: map<(nat, nat), V>, n: map<(nat, nat), V>, added: nat) {
    forall k: (nat, nat) :: k.1 != added ==> (k in m <==> k in n) && (k in m ==> m[k] == n[k])
  }

  /** `after` adds group `added` and its bindings to `db` and changes no other
      group, binding, account, channel or price. */
  ghost predicate AddsGroup(db: Db, after: Db, added: nat) {
    && added !in db.groups
    && after.groups.Keys == db.groups.Keys + {added}
    && (forall g :: g in db.groups ==> after.groups[g] == db.groups[g])
    && AgreeElsewhere(db.accountGroups, after.accountGroups, added)
    && AgreeElsewhere(db.channelGroups, after.channelGroups, added)
    && after.accounts == db.accounts && after.channels == db.channels
    && after.pricing == db.pricing && after.columns == db.columns && after.outbox == db.outbox
  }

  lemma InsertAdds(db: Db, t: Target, now: int)
    requires Valid(db) && t.source in db.groups
    ensures AddsGroup(db, InsertClone(db, t, now), db.nextGroupId)
  {}

  lemma ListsKept(db: Db, after: Db, added: nat, g: nat)
    requires AddsGroup(db, after, added) && g != added
    ensures AccountsOf(after, g) == AccountsOf(db, g) && AccountList(after, g) == AccountList(db, g)
    ensures ChannelList(after, g) == ChannelList(db, g)
  {
    assert AccountsOf(after, g) == AccountsOf(db, g);
    assert ChannelsOf(after, g) == ChannelsOf(db, g);
    var accounts := Ascending.Sorted(AccountsOf(db, g));
    forall i | 0 <= i < |accounts| ensures AccountList(after, g)[i] == AccountList(db, g)[i] {
      assert accounts[i] in accounts;
    }
  }

  lemma SourceKept(db: Db, after: Db, added: nat, u: Target, now: int)
    requires AddsGroup(db, after, added) && u.source in db.groups
    ensures SourceOk(after, u, now) == SourceOk(db, u, now)
  {
    var row := db.groups[u.source];
    assert HasIneligibleAccount(after, u.source, row) == HasIneligibleAccount(db, u.source, row);
    assert HasUsableAccount(after, u.source, now) == HasUsableAccount(db, u.source, now);
    assert HasInactiveChannel(after, u.source) == HasInactiveChannel(db, u.source);
  }

  /** Validation of a target does not see a group with another name and marker. */
  lemma TargetKept(db: Db, after: Db, added: nat, u: Target, now: int, allowMissing: bool)
    requires AddsGroup(db, after, added) && u.source in db.groups
    requires Col(after.groups[added], Name) != Text(u.name)
    requires Col(after.groups[added], DuplicateOperationId) != Text(u.marker)
    ensures TargetOk(after, u, now, allowMissing) == TargetOk(db, u, now, allowMissing)
    ensures LiveIds(after, u.marker) == LiveIds(db, u.marker)
  {
    SourceKept(db, after, added, u, now);
    assert LiveIds(after, u.marker) == LiveIds(db, u.marker);
    assert NameTaken(after, u.name) == NameTaken(db, u.name);
    ListsKept(db, after, added, u.source);
    forall d | d in LiveIds(db, u.marker) ensures CloneMatches(after, d, u) == CloneMatches(db, d, u) {
      ListsKept(db, after, added, d);
    }
  }

  lemma BindingsKept<V>(m: map<(nat, nat), V>, n: map<(nat, nat), V>, added: nat, gs: set<nat>)
    requires AgreeElsewhere(m, n, added) && added !in gs
    ensures Under(n, gs) == Under(m, gs) && Ends(n, gs) == Ends(m, gs)
  {
    assert forall k: (nat, nat) :: k.1 in gs ==> k.1 != added;
  }

  lemma SnapshotKept(db: Db, after: Db, added: nat, ts: seq<Target>)
    requires AddsGroup(db, after, added) && SourcesExist(db, ts)
    ensures SnapshotOf(after, ts) == SnapshotOf(db, ts)
  {
    var gs := Sources(ts);
    BindingsKept(db.accountGroups, after.accountGroups, added, gs);
    BindingsKept(db.channelGroups, after.channelGroups, added, gs);
    assert Restrict(after.groups, gs) == Restrict(db.groups, gs);
  }

  // ------------------------------------------------- what one insert establishes

  lemma SharedColumns(src: Row, t: Target, now: int)
    requires Id !in src
    ensures CloneRow(src, t, now) - IGNORED == src - IGNORED
  {
    var row := CloneRow(src, t, now);
    forall c | c in src && c !in IGNORED ensures row[c] == src[c] {
      OverriddenAreIgnored(c, t);
    }
  }

  lemma NamedColumn(src: Row, t: Target, now: int, c: Column)
    requires (forall d :: IsNamed(d) ==> d in src) && IsNamed(c)
    ensures Col(CloneRow(src, t, now), c) == Eval(ExprFor(c, t), src, now)
  {}

  /** Every column the script names has the value of its expression. */
  ghost predicate FollowsExpressions(dst: Row, src: Row, t: Target, now: int) {
    forall c :: IsNamed(c) ==> Col(dst, c) == Eval(ExprFor(c, t), src, now)
  }

  lemma FollowingIsAccepted(dst: Row, src: Row, t: Target, now: int)
    requires FollowsExpressions(dst, src, t, now) && dst - IGNORED == src - IGNORED
    ensures !CloneRejected(dst, src, t)
  {}

  lemma FollowingCarries(dst: Row, src: Row, t: Target, now: int)
    requires FollowsExpressions(dst, src, t, now)
    ensures Carries(dst, t.marker) && Col(dst, Name) == Text(t.name) && Col(dst, DuplicateOperationId) == Text(t.marker)
  {}

  /** The clone's row passes the strict comparison with its source. */
  lemma CloneRowAccepted(src: Row, t: Target, now: int)
    requires forall c :: IsNamed(c) ==> c in src
    requires Id !in src
    ensures !CloneRejected(CloneRow(src, t, now), src, t)
    ensures Carries(CloneRow(src, t, now), t.marker)
    ensures Col(CloneRow(src, t, now), Name) == Text(t.name)
    ensures Col(CloneRow(src, t, now), DuplicateOperationId) == Text(t.marker)
  {
    SharedColumns(src, t, now);
    forall c | IsNamed(c) ensures Col(CloneRow(src, t, now), c) == Eval(ExprFor(c, t), src, now) {
      NamedColumn(src, t, now, c);
    }
    FollowingIsAccepted(CloneRow(src, t, now), src, t, now);
    FollowingCarries(CloneRow(src, t, now), src, t, now);
  }

  lemma CopiedAccounts(db: Db, t: Target, now: int)
    requires KeysOk(db) && t.source in db.groups
    ensures var after, g := InsertClone(db, t, now), db.nextGroupId;
            && AccountsOf(after, g) == AccountsOf(after, t.source)
            && forall a :: a in AccountsOf(after, g) ==>
                 after.accountGroups[(a, g)].priority == after.accountGroups[(a, t.source)].priority
  {
    var after, g := InsertClone(db, t, now), db.nextGroupId;
    assert forall a: nat :: (a, t.source) in db.accountGroups <==> (a, g) in after.accountGroups;
    forall a ensures a in AccountsOf(after, g) <==> a in AccountsOf(after, t.source) {
      assert a in AccountsOf(after, g) <==> (a, g) in after.accountGroups;
      assert a in AccountsOf(after, t.source) <==> (a, t.source) in after.accountGroups;
    }
  }

  lemma CopiedChannels(db: Db, t: Target, now: int)
    requires KeysOk(db) && t.source in db.groups
    ensures var after, g := InsertClone(db, t, now), db.nextGroupId;
            ChannelsOf(after, g) == ChannelsOf(after, t.source)
  {
    var after, g := InsertClone(db, t, now), db.nextGroupId;
    assert forall c: nat :: (c, t.source) in db.channelGroups <==> (c, g) in after.channelGroups;
    forall c ensures c in ChannelsOf(after, g) <==> c in ChannelsOf(after, t.source) {
      assert c in ChannelsOf(after, g) <==> (c, g) in after.channelGroups;
      assert c in ChannelsOf(after, t.source) <==> (c, t.source) in after.channelGroups;
    }
  }

  lemma CopiedLists(db: Db, t: Target, now: int)
    requires KeysOk(db) && t.source in db.groups
    ensures var after, g := InsertClone(db, t, now), db.nextGroupId;
            AccountList(after, g) == AccountList(after, t.source) && ChannelList(after, g) == ChannelList(after, t.source)
  {
    var after, g := InsertClone(db, t, now), db.nextGroupId;
    CopiedAccounts(db, t, now);
    CopiedChannels(db, t, now);
    var accounts := Ascending.Sorted(AccountsOf(after, g));
    forall i | 0 <= i < |accounts| ensures AccountList(after, g)[i] == AccountList(after, t.source)[i] {
      assert accounts[i] in accounts;
    }
  }

  lemma InsertKeysAndSchema(db: Db, t: Target, now: int)
    requires SchemaOk(db) && KeysOk(db) && t.source in db.groups
    ensures SchemaOk(InsertClone(db, t, now)) && KeysOk(InsertClone(db, t, now))
  {
    CloneRowTyped(db.groups[t.source], t, now);
  }

  lemma CloneRowTyped(src: Row, t: Target, now: int)
    requires forall c :: IsNamed(c) ==> c in src
    ensures Typed(CloneRow(src, t, now))
  {
    NamedColumn(src, t, now, Name);
    NamedColumn(src, t, now, Status);
    NamedColumn(src, t, now, SubscriptionType);
    NamedColumn(src, t, now, PeakRateEnabled);
    NamedColumn(src, t, now, IsExclusive);
  }

  lemma InsertMarkers(db: Db, t: Target, now: int)
    requires SchemaOk(db) && KeysOk(db) && MarkersOk(db)
    requires t.source in db.groups && LiveIds(db, t.marker) == {}
    ensures MarkersOk(InsertClone(db, t, now))
  {
    CloneRowAccepted(db.groups[t.source], t, now);
    var after, g := InsertClone(db, t, now), db.nextGroupId;
    forall h | h in db.groups ensures !Carries(db.groups[h], t.marker) {
      assert Carries(db.groups[h], t.marker) ==> h in LiveIds(db, t.marker);
    }
    assert forall m :: Carries(after.groups[g], m) ==> m == t.marker;
  }

  lemma InsertValid(db: Db, t: Target, now: int)
    requires Valid(db) && t.source in db.groups && LiveIds(db, t.marker) == {}
    ensures Valid(InsertClone(db, t, now))
  {
    InsertKeysAndSchema(db, t, now);
    InsertMarkers(db, t, now);
  }

  lemma OnlyLiveClone(db: Db, t: Target, now: int)
    requires SchemaOk(db) && KeysOk(db) && t.source in db.groups && LiveIds(db, t.marker) == {}
    ensures LiveIds(InsertClone(db, t, now), t.marker) == {db.nextGroupId}
  {
    var after, g := InsertClone(db, t, now), db.nextGroupId;
    CloneRowAccepted(db.groups[t.source], t, now);
    forall d | d in db.groups ensures !Carries(db.groups[d], t.marker) {
      assert Carries(db.groups[d], t.marker) ==> d in LiveIds(db, t.marker);
    }
    assert forall d :: d in LiveIds(after, t.marker) <==> d == g;
  }

  lemma InsertedMatches(db: Db, t: Target, now: int)
    requires Valid(db) && t.source in db.groups
    ensures CloneMatches(InsertClone(db, t, now), db.nextGroupId, t)
  {
    CloneRowAccepted(db.groups[t.source], t, now);
    CopiedLists(db, t, now);
  }

  lemma OneLiveMatch(db: Db, t: Target, d: nat, now: int)
    requires SourceOk(db, t, now) && d in db.groups
    requires LiveIds(db, t.marker) == {d} && CloneMatches(db, d, t)
    ensures TargetOk(db, t, now, false)
  {}

  /** After the insert the target passes the strict validation. */
  lemma InsertEstablishes(db: Db, t: Target, now: int)
    requires Valid(db) && SourceOk(db, t, now) && LiveIds(db, t.marker) == {}
    ensures TargetOk(InsertClone(db, t, now), t, now, false)
  {
    OnlyLiveClone(db, t, now);
    InsertedMatches(db, t, now);
    InsertAdds(db, t, now);
    SourceKept(db, InsertClone(db, t, now), db.nextGroupId, t, now);
    OneLiveMatch(InsertClone(db, t, now), t, db.nextGroupId, now);
  }

  // ------------------------------------------------------------ the clone loop

  ghost predicate NoDuplicates(ids: seq<nat>) {
    forall i, j :: 0 <= i < j < |ids| ==> ids[i] != ids[j]
  }

  /** Old bindings are kept; new ones belong to the groups `ids`. */
  ghost predicate BindingsGrew<V>(m: map<(nat, nat), V>, n: map<(nat, nat), V>, ids: seq<nat>) {
    && (forall k :: k in m ==> k in n && n[k] == m[k])
    && (forall k :: k in n && k !in m ==> k.1 in ids)
  }

  ghost predicate GroupsGrew(m: map<nat, Row>, n: map<nat, Row>, ids: seq<nat>) {
    && (forall g :: g in ids ==> g !in m)
    && (forall g :: g in n <==> g in m || g in ids)
    && (forall g :: g in m ==> n[g] == m[g])
  }

  /** The new groups are exactly `ids`, allotted now; every earlier row of groups
      and every binding, account, channel and price is as before. */
  ghost predicate GrewBy(db: Db, after: Db, ids: seq<nat>) {
    && NoDuplicates(ids)
    && GroupsGrew(db.groups, after.groups, ids)
    && BindingsGrew(db.accountGroups, after.accountGroups, ids)
    && BindingsGrew(db.channelGroups, after.channelGroups, ids)
    && after.accounts == db.accounts && after.channels == db.channels
    && after.pricing == db.pricing && after.columns == db.columns && after.outbox == db.outbox
    && db.nextGroupId <= after.nextGroupId && forall g :: g in ids ==> g >= db.nextGroupId
  }

  ghost predicate ClonedFor(r: Row, t: Target) {
    && Col(r, Name) == Text(t.name)
    && Carries(r, t.marker)
  }

  ghost predicate FreshClone(db: Db, after: Db, g: nat, ts: seq<Target>) {
    && g in after.groups
    && exists t :: t in ts && ClonedFor(after.groups[g], t) && !NameTaken(db, t.name)
  }

  /** Every new group is the clone of one of the targets, whose name was free
      before; different new groups are clones of differently named targets. */
  ghost predicate FreshClones(db: Db, after: Db, ids: seq<nat>, ts: seq<Target>) {
    && (forall g :: g in ids ==> FreshClone(db, after, g, ts))
    && (forall g, h :: (g in ids && h in ids && g in after.groups && h in after.groups && g != h)
                       ==> Col(after.groups[g], Name) != Col(after.groups[h], Name))
  }

  lemma CopiesGrow<V>(m: map<(nat, nat), V>, copies: map<(nat, nat), V>, g: nat)
    requires forall k :: k in m ==> k.1 != g
    requires forall k :: k in copies ==> k.1 == g
    ensures BindingsGrew(m, m + copies, [g])
  {}

  lemma InsertGrows(db: Db, t: Target, now: int)
    requires Valid(db) && t.source in db.groups
    ensures GrewBy(db, InsertClone(db, t, now), [db.nextGroupId])
  {
    var g := db.nextGroupId;
    assert g in [g];
    CopiesGrow(db.accountGroups, CopyAccounts(db.accountGroups, t.source, g, now), g);
    CopiesGrow(db.channelGroups, CopyChannels(db.channelGroups, t.source, g, now), g);
    InsertAdds(db, t, now);
  }

  lemma InsertedFor(db: Db, t: Target, now: int)
    requires Valid(db) && t.source in db.groups
    ensures ClonedFor(InsertClone(db, t, now).groups[db.nextGroupId], t)
  {
    CloneRowAccepted(db.groups[t.source], t, now);
  }

  lemma BindingsGrewTwice<V>(m: map<(nat, nat), V>, n: map<(nat, nat), V>, o: map<(nat, nat), V>, g: nat, ids: seq<nat>)
    requires BindingsGrew(m, n, [g]) && BindingsGrew(n, o, ids)
    ensures BindingsGrew(m, o, [g] + ids)
  {}

  lemma GrewTwice(db: Db, mid: Db, after: Db, g: nat, ids: seq<nat>)
    requires GrewBy(db, mid, [g]) && GrewBy(mid, after, ids)
    ensures GrewBy(db, after, [g] + ids)
  {
    BindingsGrewTwice(db.accountGroups, mid.accountGroups, after.accountGroups, g, ids);
    BindingsGrewTwice(db.channelGroups, mid.channelGroups, after.channelGroups, g, ids);
    assert g in [g] && g in mid.groups && g !in ids;
    assert forall h :: h in [g] + ids <==> h == g || h in ids;
  }

  lemma FreshTwice(db: Db, mid: Db, after: Db, g: nat, t: Target, ids: seq<nat>, ts: seq<Target>)
    requires GrewBy(db, mid, [g]) && GrewBy(mid, after, ids)
    requires g in mid.groups && ClonedFor(mid.groups[g], t) && !NameTaken(db, t.name)
    requires t in ts && FreshClones(mid, after, ids, ts)
    ensures FreshClones(db, after, [g] + ids, ts)
  {
    assert g in [g] && g in after.groups;
    forall h | h in ids
      ensures Col(after.groups[h], Name) != Col(after.groups[g], Name)
      ensures FreshClone(db, after, h, ts)
    {
      assert FreshClone(mid, after, h, ts);
      var u :| u in ts && ClonedFor(after.groups[h], u) && !NameTaken(mid, u.name);
      assert u.name != t.name;
      assert NameTaken(db, u.name) ==> NameTaken(mid, u.name);
    }
    assert forall h :: h in [g] + ids <==> h == g || h in ids;
  }

  /** The targets before `k` pass the strict validation, the others the lenient one. */
  ghost predicate LoopInv(db: Db, ts: seq<Target>, k: nat, now: int) {
    && Valid(db) && SourcesExist(db, ts)
    && forall i :: 0 <= i < |ts| ==> TargetOk(db, ts[i], now, i >= k)
  }

  ghost predicate LoopPost(db: Db, ts: seq<Target>, now: int, after: Db, ids: seq<nat>) {
    && LoopInv(after, ts, |ts|, now)
    && SnapshotOf(after, ts) == SnapshotOf(db, ts)
    && GrewBy(db, after, ids) && FreshClones(db, after, ids, ts)
  }

  /** One round of the clone loop keeps the loop's invariant. */
  lemma CloneStep(db: Db, ts: seq<Target>, k: nat, now: int)
    requires Distinct(ts) && k < |ts| && LoopInv(db, ts, k, now)
    requires LiveIds(db, ts[k].marker) == {}
    ensures LoopInv(InsertClone(db, ts[k], now), ts, k + 1, now)
    ensures SnapshotOf(InsertClone(db, ts[k], now), ts) == SnapshotOf(db, ts)
  {
    var t := ts[k];
    var mid := InsertClone(db, t, now);
    assert t in ts && TargetOk(db, t, now, true);
    InsertAdds(db, t, now);
    InsertValid(db, t, now);
    InsertEstablishes(db, t, now);
    InsertGrows(db, t, now);
    InsertedFor(db, t, now);
    SnapshotKept(db, mid, db.nextGroupId, ts);
    forall i | 0 <= i < |ts| ensures TargetOk(mid, ts[i], now, i >= k + 1) {
      if ts[i] != t {
        assert ts[i] in ts;
        TargetKept(db, mid, db.nextGroupId, ts[i], now, i >= k);
      }
    }
  }

  /** A target with a live clone needs no round of its own. */
  lemma SkipStep(db: Db, ts: seq<Target>, k: nat, now: int)
    requires k < |ts| && LoopInv(db, ts, k, now) && LiveIds(db, ts[k].marker) != {}
    ensures LoopInv(db, ts, k + 1, now)
  {
    assert TargetOk(db, ts[k], now, true);
  }

  lemma PostStep(db: Db, ts: seq<Target>, k: nat, now: int, after: Db, ids: seq<nat>)
    requires Distinct(ts) && k < |ts| && LoopInv(db, ts, k, now)
    requires LiveIds(db, ts[k].marker) == {}
    requires LoopPost(InsertClone(db, ts[k], now), ts, now, after, ids)
    ensures LoopPost(db, ts, now, after, [db.nextGroupId] + ids)
  {
    var t, g := ts[k], db.nextGroupId;
    var mid := InsertClone(db, t, now);
    assert t in ts && TargetOk(db, t, now, true);
    CloneStep(db, ts, k, now);
    InsertGrows(db, t, now);
    InsertedFor(db, t, now);
    GrewTwice(db, mid, after, g, ids);
    FreshTwice(db, mid, after, g, t, ids, ts);
  }

  lemma CloneMissingUnfold(db: Db, ts: seq<Target>, k: nat, now: int)
    requires k < |ts| && SourcesExist(db, ts)
    ensures CloneMissing(db, ts[k..], now) ==
            if LiveIds(db, ts[k].marker) != {} then CloneMissing(db, ts[k + 1..], now)
            else var (after, ids) := CloneMissing(InsertClone(db, ts[k], now), ts[k + 1..], now);
                 (after, [db.nextGroupId] + ids)
  {
    assert ts[k..][0] == ts[k] && ts[k..][1..] == ts[k + 1..];
  }

  /** The clone loop, run after a passed lenient validation, ends in a database
      that passes the strict one, with the baseline snapshot unchanged. */
  lemma {:induction false} CloneLoop(db: Db, ts: seq<Target>, k: nat, now: int)
    requires Distinct(ts) && k <= |ts| && LoopInv(db, ts, k, now)
    ensures var (after, ids) := CloneMissing(db, ts[k..], now);
            LoopPost(db, ts, now, after, ids)
    decreases |ts| - k
  {
    if k == |ts| {
      assert ts[k..] == [];
    } else {
      CloneMissingUnfold(db, ts, k, now);
      if LiveIds(db, ts[k].marker) != {} {
        SkipStep(db, ts, k, now);
        CloneLoop(db, ts, k + 1, now);
      } else {
        var mid := InsertClone(db, ts[k], now);
        CloneStep(db, ts, k, now);
        CloneLoop(mid, ts, k + 1, now);
        var (after, ids) := CloneMissing(mid, ts[k + 1..], now);
        PostStep(db, ts, k, now, after, ids);
      }
    }
  }
}
