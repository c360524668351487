/** Plan, check and apply as whole transactions. */
module RouteApply {
  import opened Wrappers
  import opened RouteTables
  import opened RouteTransactions

  /** The group_changed events of the clone loop. */
  function GroupEvents(ids: seq<nat>): (events: seq<Event>)
    ensures |events| == |ids|
    ensures forall i :: 0 <= i < |ids| ==> events[i] == GroupChanged(ids[i], OutboxEncoding.SqlGroupKey(ids[i]))
  {
    seq(|ids|, i requires 0 <= i < |ids| => GroupChanged(ids[i], OutboxEncoding.SqlGroupKey(ids[i])))
  }

  /** The account_changed events for a list of accounts. */
  function AccountEvents(db: Db, accounts: seq<nat>): (events: seq<Event>)
    ensures |events| == |accounts|
    ensures forall i :: 0 <= i < |accounts| ==> events[i] == AccountChanged(db, accounts[i])
  {
    seq(|accounts|, i requires 0 <= i < |accounts| => AccountChanged(db, accounts[i]))
  }

  /** SELECT DISTINCT account_id ... ORDER BY account_id: the accounts bound to
      source groups. */
  function Shared(db: Db, ts: seq<Target>): seq<nat> {
    Ascending.Sorted(Ends(db.accountGroups, Sources(ts)))
  }

  function ApplyEvents(db: Db, ts: seq<Target>, ids: seq<nat>): seq<Event> {
    GroupEvents(ids) + AccountEvents(db, Shared(db, ts))
  }

  lemma ValidatedSourcesExist(db: Db, ts: seq<Target>, now: int, allowMissing: bool)
    requires Validates(db, ts, now, allowMissing)
    ensures SourcesExist(db, ts)
  {
    forall t | t in ts ensures t.source in db.groups {
      assert TargetOk(db, t, now, allowMissing);
    }
  }

  predicate BaselineHolds(db: Db, ts: seq<Target>, expected: Option<Snapshot>) {
    expected.Some? ==> SnapshotOf(db, ts) == expected.value
  }

  /** Plan (allowMissing) and check: they change nothing. */
  function Inspect(db: Db, ts: seq<Target>, expected: Option<Snapshot>, now: int, allowMissing: bool): Outcome {
    if BaselineHolds(db, ts, expected) && Validates(db, ts, now, allowMissing) then Commit(db, [], []) else Abort
  }

  function Apply(db: Db, ts: seq<Target>, expected: Snapshot, now: int): Outcome {
    if SnapshotOf(db, ts) != expected || !Validates(db, ts, now, true) then Abort
    else
      ValidatedSourcesExist(db, ts, now, true);
      var (cloned, ids) := CloneMissing(db, ts, now);
      if !Validates(cloned, ts, now, false) then Abort
      else if SnapshotOf(cloned, ts) != SnapshotOf(db, ts) then Abort
      else Commit(cloned, ids, ApplyEvents(cloned, ts, ids))
  }

  // ----------------------------------------------------------- account events

  /** What the pending account_changed event of an account says: an ascending
      list of exactly the groups the account is bound to. */
  lemma AccountEventNamesItsGroups(db: Db, a: nat)
    ensures exists l: seq<nat> ::
      && AccountChanged(db, a).payload == Some(OutboxEncoding.Payload(l))
      && Ascending.Increasing(l)
      && forall g :: g in l <==> (a, g) in db.accountGroups
  {
    var l := Ascending.Sorted(GroupsOf(db, a));
    forall g ensures g in l <==> (a, g) in db.accountGroups {
      assert (a, g) in db.accountGroups ==> g in GroupsOf(db, a);
    }
  }

  // -------------------------------------------------------------------- apply

  /** Everything a committed apply promises. */
  ghost predicate ApplyPost(db: Db, ts: seq<Target>, now: int, after: Db, ids: seq<nat>, events: seq<Event>) {
    && Valid(after)
    && Validates(after, ts, now, false)
    && SnapshotOf(after, ts) == SnapshotOf(db, ts)
    && GrewBy(db, after, ids)
    && FreshClones(db, after, ids, ts)
    && events == ApplyEvents(after, ts, ids)
  }

  lemma OutboxUnseen(db: Db, o: multiset<Event>, ts: seq<Target>, now: int, allowMissing: bool)
    ensures var after := db.(outbox := o);
            && Validates(after, ts, now, allowMissing) == Validates(db, ts, now, allowMissing)
            && SnapshotOf(after, ts) == SnapshotOf(db, ts)
  {
    var after := db.(outbox := o);
    forall t | t in ts ensures TargetOk(after, t, now, allowMissing) == TargetOk(db, t, now, allowMissing) {
      OutboxUnseenByTarget(db, o, t, now, allowMissing);
    }
  }

  lemma ListsUnseen(db: Db, o: multiset<Event>, g: nat)
    ensures AccountList(db.(outbox := o), g) == AccountList(db, g)
    ensures ChannelList(db.(outbox := o), g) == ChannelList(db, g)
  {
    assert AccountsOf(db.(outbox := o), g) == AccountsOf(db, g);
  }

  lemma SourceUnseen(db: Db, o: multiset<Event>, t: Target, now: int)
    ensures SourceOk(db.(outbox := o), t, now) == SourceOk(db, t, now)
  {}

  lemma OutboxUnseenByTarget(db: Db, o: multiset<Event>, t: Target, now: int, allowMissing: bool)
    ensures TargetOk(db.(outbox := o), t, now, allowMissing) == TargetOk(db, t, now, allowMissing)
  {
    var after := db.(outbox := o);
    SourceUnseen(db, o, t, now);
    assert LiveIds(after, t.marker) == LiveIds(db, t.marker);
    if SourceOk(db, t, now) {
      ListsUnseen(db, o, t.source);
      forall d | d in LiveIds(db, t.marker) ensures CloneMatches(after, d, t) == CloneMatches(db, d, t) {
        ListsUnseen(db, o, d);
      }
    }
  }

  lemma LoopStarts(db: Db, ts: seq<Target>, now: int)
    requires Valid(db) && Validates(db, ts, now, true)
    ensures LoopInv(db, ts, 0, now)
  {
    ValidatedSourcesExist(db, ts, now, true);
    forall i | 0 <= i < |ts| ensures TargetOk(db, ts[i], now, true) {
      assert ts[i] in ts;
    }
  }

  lemma LoopEnds(db: Db, ts: seq<Target>, now: int, after: Db, ids: seq<nat>)
    requires LoopPost(db, ts, now, after, ids)
    ensures ApplyPost(db, ts, now, after, ids, ApplyEvents(after, ts, ids))
  {
    forall t | t in ts ensures TargetOk(after, t, now, false) {
      var i :| 0 <= i < |ts| && ts[i] == t;
    }
  }

  lemma ApplyRuns(db: Db, ts: seq<Target>, expected: Snapshot, now: int)
    requires Valid(db) && Distinct(ts)
    requires SnapshotOf(db, ts) == expected && Validates(db, ts, now, true)
    ensures Apply(db, ts, expected, now).Commit?
    ensures var r := Apply(db, ts, expected, now); ApplyPost(db, ts, now, r.db, r.created, r.events)
  {
    LoopStarts(db, ts, now);
    CloneLoop(db, ts, 0, now);
    assert ts[0..] == ts;
    var (cloned, ids) := CloneMissing(db, ts, now);
    LoopEnds(db, ts, now, cloned, ids);
  }

  /** Apply commits exactly when the baseline is unchanged and the lenient
      validation passes: neither the strict validation after the loop nor the
      final digest guard ever aborts it. */
  lemma ApplyCommitsExactly(db: Db, ts: seq<Target>, expected: Snapshot, now: int)
    requires Valid(db) && Distinct(ts)
    ensures Apply(db, ts, expected, now).Commit? <==>
            SnapshotOf(db, ts) == expected && Validates(db, ts, now, true)
  {
    if SnapshotOf(db, ts) == expected && Validates(db, ts, now, true) {
      ApplyRuns(db, ts, expected, now);
    }
  }

  lemma ApplyEffect(db: Db, ts: seq<Target>, expected: Snapshot, now: int)
    requires Valid(db) && Distinct(ts)
    requires Apply(db, ts, expected, now).Commit?
    ensures var r := Apply(db, ts, expected, now); ApplyPost(db, ts, now, r.db, r.created, r.events)
  {
    ApplyRuns(db, ts, expected, now);
  }

  // -------------------------------------------------------------- idempotence

  /** The only part of the validation that time can undo. */
  ghost predicate SourcesUsable(db: Db, ts: seq<Target>, now: int) {
    forall t :: t in ts ==> HasUsableAccount(db, t.source, now)
  }

  lemma ValidatesLater(db: Db, ts: seq<Target>, now: int, later: int, allowMissing: bool)
    requires Validates(db, ts, now, false)
    ensures Validates(db, ts, later, allowMissing) <==> SourcesUsable(db, ts, later)
  {
    forall t | t in ts
      ensures TargetOk(db, t, later, allowMissing) <==> HasUsableAccount(db, t.source, later)
    {
      assert TargetOk(db, t, now, false);
    }
    assert Validates(db, ts, later, allowMissing) ==> forall t :: t in ts ==> TargetOk(db, t, later, allowMissing);
  }

  lemma {:induction false} NothingMissing(db: Db, ts: seq<Target>, now: int)
    requires SourcesExist(db, ts)
    requires forall t :: t in ts ==> LiveIds(db, t.marker) != {}
    ensures CloneMissing(db, ts, now) == (db, [])
    decreases |ts|
  {
    if ts != [] {
      assert ts[0] in ts;
      assert forall t :: t in ts[1..] ==> t in ts;
      NothingMissing(db, ts[1..], now);
    }
  }

  /** Where every clone exists, apply has nothing to create; it asks for the
      account events again. */
  lemma ApplyIdle(db: Db, ts: seq<Target>, now: int)
    requires Validates(db, ts, now, false) && Validates(db, ts, now, true)
    ensures Apply(db, ts, SnapshotOf(db, ts), now) == Commit(db, [], AccountEvents(db, Shared(db, ts)))
  {
    ValidatedSourcesExist(db, ts, now, true);
    forall t | t in ts ensures LiveIds(db, t.marker) != {} {
      assert TargetOk(db, t, now, false);
    }
    NothingMissing(db, ts, now);
    assert GroupEvents([]) + AccountEvents(db, Shared(db, ts)) == AccountEvents(db, Shared(db, ts));
  }

  lemma ApplyAgain(tables: Db, ts: seq<Target>, now: int, o: multiset<Event>, later: int)
    requires Validates(tables, ts, now, false)
    ensures var after, expected := tables.(outbox := o), SnapshotOf(tables, ts);
            && Apply(after, ts, expected, later) ==
                 (if SourcesUsable(after, ts, later) then Commit(after, [], AccountEvents(after, Shared(after, ts)))
                  else Abort)
            && Inspect(after, ts, Some(expected), later, false) ==
                 (if SourcesUsable(after, ts, later) then Commit(after, [], []) else Abort)
  {
    var after := tables.(outbox := o);
    OutboxUnseen(tables, o, ts, now, false);
    ValidatesLater(after, ts, now, later, true);
    ValidatesLater(after, ts, now, later, false);
    if SourcesUsable(after, ts, later) {
      ApplyIdle(after, ts, later);
    }
  }

  /** Applying again to one's own result with the same baseline, at any later
      time, with whatever others have made of the outbox, creates nothing and
      changes no table; it (and check) is refused only when a source has lost
      its last usable account. It asks for the account events of the first time. */
  lemma ApplyTwice(db: Db, ts: seq<Target>, expected: Snapshot, now: int, o: multiset<Event>, later: int)
    requires Valid(db) && Distinct(ts)
    requires Apply(db, ts, expected, now).Commit?
    ensures var after := Apply(db, ts, expected, now).db.(outbox := o);
            && Apply(after, ts, expected, later) ==
                 (if SourcesUsable(after, ts, later) then Commit(after, [], AccountEvents(after, Shared(after, ts)))
                  else Abort)
            && Inspect(after, ts, Some(expected), later, false) ==
                 (if SourcesUsable(after, ts, later) then Commit(after, [], []) else Abort)
  {
    ApplyEffect(db, ts, expected, now);
    ApplyAgain(Apply(db, ts, expected, now).db, ts, now, o, later);
  }
  // ---------------------------------------------- what the strict validation means

  /** `dst` is, in every column but the two timestamps, the row that cloning
      `src` for `t` would insert. */
  ghost predicate IsCloneRow(dst: Row, src: Row, t: Target) {
    forall c :: c in src && c != CreatedAt && c != UpdatedAt ==>
      c in dst && dst[c] == Eval(ExprFor(c, t), src, 0)
  }

  ghost predicate SameBindings(db: Db, g: nat, h: nat) {
    && (forall a :: (a, g) in db.accountGroups <==> (a, h) in db.accountGroups)
    && (forall a :: (a, g) in db.accountGroups && (a, h) in db.accountGroups ==>
          db.accountGroups[(a, g)].priority == db.accountGroups[(a, h)].priority)
    && (forall c :: (c, g) in db.channelGroups <==> (c, h) in db.channelGroups)
  }

  lemma RowAcceptedColumn(dst: Row, src: Row, t: Target, c: Column)
    requires dst.Keys == src.Keys && Id !in src
    requires Typed(dst) && Carries(dst, t.marker) && !CloneRejected(dst, src, t)
    requires c in src && c != CreatedAt && c != UpdatedAt
    ensures dst[c] == Eval(ExprFor(c, t), src, 0)
  {
    OverriddenAreIgnored(c, t);
    if c !in IGNORED {
      assert (dst - IGNORED)[c] == (src - IGNORED)[c];
    }
  }

  lemma CloneColumn(dst: Row, src: Row, t: Target, c: Column)
    requires c in src && c != CreatedAt && c != UpdatedAt && IsCloneRow(dst, src, t)
    ensures Col(dst, c) == Eval(ExprFor(c, t), src, 0)
  {}

  lemma ComparedColumns(dst: Row, src: Row, t: Target)
    requires dst.Keys == src.Keys && IsCloneRow(dst, src, t) && Id !in src
    ensures dst - IGNORED == src - IGNORED
  {
    forall c | c in src && c !in IGNORED ensures dst[c] == src[c] {
      OverriddenAreIgnored(c, t);
    }
  }

  lemma CloneRowNotRejected(dst: Row, src: Row, t: Target)
    requires dst.Keys == src.Keys && (forall c :: IsNamed(c) ==> c in src) && Id !in src
    requires IsCloneRow(dst, src, t)
    ensures !CloneRejected(dst, src, t)
  {
    ComparedColumns(dst, src, t);
    CloneColumn(dst, src, t, Name);
    CloneColumn(dst, src, t, Description);
    CloneColumn(dst, src, t, RateMultiplier);
    CloneColumn(dst, src, t, RateMultiplierUsd);
    CloneColumn(dst, src, t, RateMultiplierCny);
    CloneColumn(dst, src, t, PeakRateEnabled);
    CloneColumn(dst, src, t, PeakRateMultiplier);
    CloneColumn(dst, src, t, IsExclusive);
    CloneColumn(dst, src, t, Status);
    CloneColumn(dst, src, t, SubscriptionType);
    CloneColumn(dst, src, t, FallbackGroupId);
    CloneColumn(dst, src, t, FallbackGroupIdOnInvalidRequest);
  }

  lemma RowAcceptedExactly(dst: Row, src: Row, t: Target)
    requires dst.Keys == src.Keys && (forall c :: IsNamed(c) ==> c in src) && Id !in src
    requires Typed(dst) && Carries(dst, t.marker)
    ensures !CloneRejected(dst, src, t) <==> IsCloneRow(dst, src, t)
  {
    if IsCloneRow(dst, src, t) {
      CloneRowNotRejected(dst, src, t);
    } else if !CloneRejected(dst, src, t) {
      forall c | c in src && c != CreatedAt && c != UpdatedAt ensures dst[c] == Eval(ExprFor(c, t), src, 0) {
        RowAcceptedColumn(dst, src, t, c);
      }
    }
  }

  lemma AccountListsAgreeExactly(db: Db, g: nat, h: nat)
    ensures AccountList(db, g) == AccountList(db, h) <==>
            AccountsOf(db, g) == AccountsOf(db, h) &&
            forall a :: a in AccountsOf(db, g) && a in AccountsOf(db, h) ==>
              db.accountGroups[(a, g)].priority == db.accountGroups[(a, h)].priority
  {
    var l, m := AccountList(db, g), AccountList(db, h);
    var ids, ids' := Ascending.Sorted(AccountsOf(db, g)), Ascending.Sorted(AccountsOf(db, h));
    assert forall i :: 0 <= i < |l| ==> l[i].0 == ids[i];
    assert forall i :: 0 <= i < |m| ==> m[i].0 == ids'[i];
    if l == m {
      assert ids == ids';
      assert forall a :: a in AccountsOf(db, g) <==> a in ids;
      assert AccountsOf(db, g) == AccountsOf(db, h);
      forall a | a in AccountsOf(db, g)
        ensures db.accountGroups[(a, g)].priority == db.accountGroups[(a, h)].priority
      {
        assert a in ids;
        var i :| 0 <= i < |ids| && ids[i] == a;
        assert l[i] == m[i];
      }
    }
  }

  lemma ListsAgreeExactly(db: Db, g: nat, h: nat)
    ensures AccountList(db, g) == AccountList(db, h) && ChannelList(db, g) == ChannelList(db, h)
            <==> SameBindings(db, g, h)
  {
    AccountListsAgreeExactly(db, g, h);
    assert forall a: nat, x: nat :: a in AccountsOf(db, x) <==> (a, x) in db.accountGroups;
    assert forall c: nat, x: nat :: c in ChannelsOf(db, x) <==> (c, x) in db.channelGroups;
    assert AccountsOf(db, g) == AccountsOf(db, h) <==> forall a :: (a, g) in db.accountGroups <==> (a, h) in db.accountGroups;
    if ChannelList(db, g) == ChannelList(db, h) {
      assert forall c :: c in ChannelsOf(db, g) <==> c in ChannelList(db, g);
      assert forall c :: c in ChannelsOf(db, h) <==> c in ChannelList(db, h);
    }
    if SameBindings(db, g, h) {
      assert ChannelsOf(db, g) == ChannelsOf(db, h);
    }
  }

  /** Group `d` is the clone apply would insert: the same row up to
      timestamps, the same accounts with the same priorities, the same channels. */
  ghost predicate IsExactClone(db: Db, d: nat, t: Target)
    requires d in db.groups && t.source in db.groups
  {
    IsCloneRow(db.groups[d], db.groups[t.source], t) && SameBindings(db, t.source, d)
  }

  lemma MatchesExactly(db: Db, d: nat, t: Target)
    requires Valid(db) && d in db.groups && t.source in db.groups
    requires Carries(db.groups[d], t.marker)
    ensures CloneMatches(db, d, t) <==> IsExactClone(db, d, t)
  {
    RowAcceptedExactly(db.groups[d], db.groups[t.source], t);
    ListsAgreeExactly(db, t.source, d);
  }

  /** Check passes for a target exactly when its source is eligible and there
      is one live group with its marker, which is an exact clone. */
  lemma CheckIsExact(db: Db, t: Target, now: int)
    requires Valid(db)
    ensures TargetOk(db, t, now, false) <==>
      && SourceOk(db, t, now)
      && exists d :: d in db.groups && LiveIds(db, t.marker) == {d} && IsExactClone(db, d, t)
  {
    var live := LiveIds(db, t.marker);
    if SourceOk(db, t, now) && live != {} {
      var d :| d in live;
      assert live == {d};
      MatchesExactly(db, d, t);
      OneLiveTarget(db, t, d, now);
    }
  }

  lemma OneLiveTarget(db: Db, t: Target, d: nat, now: int)
    requires SourceOk(db, t, now) && d in db.groups && LiveIds(db, t.marker) == {d}
    ensures TargetOk(db, t, now, false) <==> CloneMatches(db, d, t)
  {}
}
