/** Which outbox events are pending once apply or rollback has committed, while
    other sessions insert and release rows during the transaction
    (deploy/configure_official_cloud_routes.py:164-192;
    backend/internal/repository/scheduler_outbox_repo.go:30-57). */
module RouteDelivery {
  import opened Wrappers
  import opened RouteTables
  import opened RouteOutbox
  import opened RouteTransactions
  import opened RouteApply
  import opened RouteRollback

  function Changed(g: nat): Event {
    GroupChanged(g, OutboxEncoding.SqlGroupKey(g))
  }

  /** An account event names exactly the groups the account is bound to. */
  lemma AccountEventNames(db: Db, a: nat, g: nat)
    ensures Names(AccountChanged(db, a), g) <==> (a, g) in db.accountGroups
  {
    var l := Ascending.Sorted(GroupsOf(db, a));
    assert g in GroupsOf(db, a) <==> (a, g) in db.accountGroups by {
      if (a, g) in db.accountGroups {
        assert (a, g).0 == a;
      }
    }
    if m: seq<nat> :| AccountChanged(db, a).payload == Some(OutboxEncoding.Payload(m)) && g in m {
      OutboxEncoding.PayloadInjective(l, m);
    }
    assert g in l <==> g in GroupsOf(db, a);
  }

  lemma GroupEventsProper(ids: seq<nat>)
    requires NoDuplicates(ids)
    ensures Proper(GroupEvents(ids))
  {
    var events := GroupEvents(ids);
    forall i | 0 <= i < |events| ensures Honest(events[i]) {
      OutboxEncoding.WritersAgree(ids[i], "");
    }
  }

  lemma AccountEventsProper(db: Db, accounts: seq<nat>)
    requires Ascending.Increasing(accounts)
    ensures Proper(AccountEvents(db, accounts))
  {
    var events := AccountEvents(db, accounts);
    forall i | 0 <= i < |events| ensures Honest(events[i]) {
      WritersAreHonest(db, accounts[i]);
    }
  }

  lemma ApplyEventsProper(db: Db, ts: seq<Target>, ids: seq<nat>)
    requires NoDuplicates(ids)
    ensures Proper(ApplyEvents(db, ts, ids))
  {
    GroupEventsProper(ids);
    AccountEventsProper(db, Shared(db, ts));
    ProperJoined(GroupEvents(ids), AccountEvents(db, Shared(db, ts)));
  }

  lemma ApplyEventsNamed(db: Db, ts: seq<Target>, ids: seq<nat>)
    requires KeysOk(db) && forall g :: g in ids ==> g in db.groups
    ensures forall e, g: nat :: e in ApplyEvents(db, ts, ids) && Names(e, g) ==> g < db.nextGroupId
  {
    forall e, g: nat | e in ApplyEvents(db, ts, ids) && Names(e, g) ensures g < db.nextGroupId {
      if e in GroupEvents(ids) {
        var i :| 0 <= i < |ids| && GroupEvents(ids)[i] == e;
        assert ids[i] in ids;
      } else {
        var accounts := Shared(db, ts);
        var i :| 0 <= i < |accounts| && AccountEvents(db, accounts)[i] == e;
        AccountEventNames(db, accounts[i], g);
      }
    }
  }

  /** An event of the transaction is pending at commit if and only if no such row
      was pending at its insert, or one is still or again pending at commit. */
  ghost predicate DeliveredExactly(others: Others, events: seq<Event>) {
    forall k :: 0 <= k < |events| ==>
      (events[k] in Final(others, events) <==> events[k] !in others(k) || events[k] in others(|events|))
  }

  lemma DeliversExactly(others: Others, events: seq<Event>, next: nat)
    requires Proper(events) && Concurrent(others, events, next)
    ensures DeliveredExactly(others, events)
  {
    forall k | 0 <= k < |events|
      ensures events[k] in Final(others, events) <==> events[k] !in others(k) || events[k] in others(|events|)
    {
      PendingExactly(others, events, next, k);
    }
  }

  /** Other sessions' committed rows stay; only the transaction's events are added. */
  ghost predicate AddsOnly(others: Others, events: seq<Event>) {
    && others(|events|) <= Final(others, events)
    && forall e :: e in Final(others, events) ==> e in others(|events|) || e in events
  }

  /** The group_changed event of every group just created, and the account_changed
      event of every account bound to one, are pending. */
  ghost predicate FreshDelivered(after: Db, ts: seq<Target>, ids: seq<nat>) {
    && (forall g :: g in ids ==> Changed(g) in after.outbox)
    && (forall a: nat, g: nat ::
          (a in Ends(after.accountGroups, Sources(ts)) && g in ids && (a, g) in after.accountGroups)
          ==> AccountChanged(after, a) in after.outbox)
  }

  lemma GroupDelivered(r: Outcome, ts: seq<Target>, others: Others, next: nat, g: nat)
    requires r.Commit? && r.events == ApplyEvents(r.db, ts, r.created)
    requires Proper(r.events) && Concurrent(others, r.events, next)
    requires g in r.created && g >= next
    ensures Changed(g) in Final(others, r.events)
  {
    var k :| 0 <= k < |r.created| && r.created[k] == g;
    assert r.events[k] == GroupEvents(r.created)[k] == Changed(g);
    FreshIsPending(others, r.events, next, k, g);
  }

  lemma AccountDelivered(r: Outcome, ts: seq<Target>, others: Others, next: nat, a: nat, g: nat)
    requires r.Commit? && r.events == ApplyEvents(r.db, ts, r.created)
    requires Proper(r.events) && Concurrent(others, r.events, next)
    requires a in Ends(r.db.accountGroups, Sources(ts)) && (a, g) in r.db.accountGroups && g >= next
    ensures AccountChanged(r.db, a) in Final(others, r.events)
  {
    var accounts := Shared(r.db, ts);
    assert a in accounts;
    var k :| 0 <= k < |accounts| && accounts[k] == a;
    assert r.events[|r.created| + k] == AccountEvents(r.db, accounts)[k];
    AccountEventNames(r.db, a, g);
    FreshIsPending(others, r.events, next, |r.created| + k, g);
  }

  lemma SameAccountEvent(db: Db, o: multiset<Event>, a: nat)
    ensures AccountChanged(db.(outbox := o), a) == AccountChanged(db, a)
  {
    assert GroupsOf(db.(outbox := o), a) == GroupsOf(db, a);
  }

  /** After a committed apply, whatever other sessions did to the outbox
      meanwhile: the events of new groups, and of accounts bound to one, are
      pending; each other event is pending exactly when it was inserted or the
      row that suppressed its insert was not released before the commit; and the
      outbox has gained nothing else and is orderly. */
  lemma ApplyDelivers(db: Db, ts: seq<Target>, expected: Snapshot, now: int, others: Others)
    requires Valid(db) && Distinct(ts) && Apply(db, ts, expected, now).Commit?
    requires Concurrent(others, Apply(db, ts, expected, now).events, db.nextGroupId)
    ensures var r := Apply(db, ts, expected, now);
            && Valid(Committed(r, others))
            && FreshDelivered(Committed(r, others), ts, r.created)
            && DeliveredExactly(others, r.events) && AddsOnly(others, r.events)
  {
    ApplyEffect(db, ts, expected, now);
    var r := Apply(db, ts, expected, now);
    var after := Committed(r, others);
    ApplyEventsProper(r.db, ts, r.created);
    ApplyEventsNamed(r.db, ts, r.created);
    FinalIsOrderly(others, r.events, db.nextGroupId, r.db.nextGroupId);
    DeliversExactly(others, r.events, db.nextGroupId);
    forall g | g in r.created ensures Changed(g) in after.outbox {
      GroupDelivered(r, ts, others, db.nextGroupId, g);
    }
    forall a: nat, g: nat |
      a in Ends(after.accountGroups, Sources(ts)) && g in r.created && (a, g) in after.accountGroups
      ensures AccountChanged(after, a) in after.outbox
    {
      SameAccountEvent(r.db, after.outbox, a);
      AccountDelivered(r, ts, others, db.nextGroupId, a, g);
    }
  }

  /** When no other session writes to the outbox, every account bound to a source
      has its event pending after an apply, and no earlier row is lost. */
  lemma UndisturbedApply(db: Db, ts: seq<Target>, expected: Snapshot, now: int)
    requires Valid(db) && Distinct(ts) && Apply(db, ts, expected, now).Commit?
    ensures var r := Apply(db, ts, expected, now);
            var after := Committed(r, Quiet(db.outbox));
            && Concurrent(Quiet(db.outbox), r.events, db.nextGroupId)
            && db.outbox <= after.outbox
            && (forall e :: e in r.events ==> e in after.outbox)
            && forall a :: a in Ends(after.accountGroups, Sources(ts)) ==> AccountChanged(after, a) in after.outbox
  {
    ApplyEffect(db, ts, expected, now);
    var r := Apply(db, ts, expected, now);
    var after := Committed(r, Quiet(db.outbox));
    ApplyEventsProper(r.db, ts, r.created);
    QuietDelivers(db.outbox, r.events, db.nextGroupId);
    var accounts := Shared(r.db, ts);
    forall a | a in Ends(after.accountGroups, Sources(ts)) ensures AccountChanged(after, a) in after.outbox {
      SameAccountEvent(r.db, after.outbox, a);
      assert a in accounts;
      var k :| 0 <= k < |accounts| && accounts[k] == a;
      assert AccountEvents(r.db, accounts)[k] in r.events;
    }
  }

  /** Two applies with the same baseline and nothing in between: the second
      leaves every table, the outbox included, as it is. */
  lemma UndisturbedApplyTwice(db: Db, ts: seq<Target>, expected: Snapshot, now: int, later: int)
    requires Valid(db) && Distinct(ts) && Apply(db, ts, expected, now).Commit?
    ensures var after := Committed(Apply(db, ts, expected, now), Quiet(db.outbox));
            var again := Apply(after, ts, expected, later);
            SourcesUsable(after, ts, later) ==>
              again.Commit? && again.created == [] && Committed(again, Quiet(after.outbox)) == after
  {
    var after := Committed(Apply(db, ts, expected, now), Quiet(db.outbox));
    ApplyTwice(db, ts, expected, now, after.outbox, later);
    UndisturbedApply(db, ts, expected, now);
    var accounts := Shared(after, ts);
    var events := AccountEvents(after, accounts);
    forall e | e in events ensures e in after.outbox && e.key.Some? {
      var k :| 0 <= k < |events| && events[k] == e;
      assert accounts[k] in accounts;
    }
    QuietIdle(after.outbox, events);
  }

  // ------------------------------------------------------- which events are certain

  /** Target `t` has no live clone yet, and account `a` is bound to its source. */
  ghost predicate AwaitsClone(db: Db, t: Target, a: nat) {
    LiveIds(db, t.marker) == {} && (a, t.source) in db.accountGroups
  }

  lemma SameAccounts(db: Db, g: nat, h: nat, a: nat)
    requires AccountList(db, g) == AccountList(db, h)
    ensures (a, g) in db.accountGroups <==> (a, h) in db.accountGroups
  {
    AccountListsAgreeExactly(db, g, h);
    assert a in AccountsOf(db, g) <==> (a, g) in db.accountGroups;
    assert a in AccountsOf(db, h) <==> (a, h) in db.accountGroups;
  }

  /** A new group is the clone of a target that had none, and is bound to the
      accounts of its source. */
  lemma CreatedFor(db: Db, ts: seq<Target>, now: int, after: Db, ids: seq<nat>, events: seq<Event>, g: nat, a: nat)
    returns (t: Target)
    requires ApplyPost(db, ts, now, after, ids, events) && SourcesExist(db, ts)
    requires g in ids && (a, g) in after.accountGroups
    ensures t in ts && AwaitsClone(db, t, a)
  {
    assert FreshClone(db, after, g, ts);
    t :| t in ts && ClonedFor(after.groups[g], t) && !NameTaken(db, t.name);
    assert g in LiveIds(after, t.marker) && TargetOk(after, t, now, false);
    assert CloneMatches(after, g, t);
    SameAccounts(after, t.source, g, a);
    assert t.source in db.groups && t.source !in ids;
    assert forall d :: d in LiveIds(db, t.marker) ==> d in LiveIds(after, t.marker);
    assert forall d :: d in LiveIds(after, t.marker) ==> d == g;
    assert g !in db.groups;
  }

  /** And every target that had none has one now. */
  lemma ClonedNow(db: Db, ts: seq<Target>, now: int, after: Db, ids: seq<nat>, events: seq<Event>, t: Target, a: nat)
    returns (g: nat)
    requires ApplyPost(db, ts, now, after, ids, events) && SourcesExist(db, ts)
    requires t in ts && AwaitsClone(db, t, a)
    ensures g in ids && (a, g) in after.accountGroups
  {
    assert TargetOk(after, t, now, false);
    g :| g in LiveIds(after, t.marker);
    assert g in db.groups ==> g in LiveIds(db, t.marker);
    assert CloneMatches(after, g, t);
    SameAccounts(after, t.source, g, a);
  }

  /** The account event of a committed apply names a fresh group exactly when the
      account is bound to a source that had no live clone. */
  lemma AccountNamesFresh(db: Db, ts: seq<Target>, now: int, after: Db, ids: seq<nat>, events: seq<Event>, a: nat)
    requires ApplyPost(db, ts, now, after, ids, events) && SourcesExist(db, ts) && KeysOk(db)
    ensures NamesFresh(AccountChanged(after, a), db.nextGroupId) <==> exists t :: t in ts && AwaitsClone(db, t, a)
  {
    if NamesFresh(AccountChanged(after, a), db.nextGroupId) {
      var g: nat :| g >= db.nextGroupId && Names(AccountChanged(after, a), g);
      AccountEventNames(after, a, g);
      assert g in after.groups && g !in db.groups;
      var t := CreatedFor(db, ts, now, after, ids, events, g, a);
    }
    if t :| t in ts && AwaitsClone(db, t, a) {
      var g := ClonedNow(db, ts, now, after, ids, events, t, a);
      AccountEventNames(after, a, g);
      assert g >= db.nextGroupId;
    }
  }

  /** Which events of a committed apply are pending whatever other sessions do: all
      group_changed events; and the account_changed event of an account if and
      only if it is bound to a source whose target had no live clone. */
  lemma ApplyCertainExactly(db: Db, ts: seq<Target>, expected: Snapshot, now: int, k: nat)
    requires Valid(db) && Distinct(ts) && Apply(db, ts, expected, now).Commit?
    requires k < |Apply(db, ts, expected, now).events|
    ensures var r := Apply(db, ts, expected, now);
            Certain(r.events, db.nextGroupId, k) <==>
            || k < |r.created|
            || (k >= |r.created| && exists t :: t in ts && AwaitsClone(db, t, Shared(r.db, ts)[k - |r.created|]))
  {
    ApplyEffect(db, ts, expected, now);
    var r := Apply(db, ts, expected, now);
    ApplyEventsProper(r.db, ts, r.created);
    CertainExactly(r.events, db.nextGroupId, k);
    if k < |r.created| {
      GroupNamesFresh(r.created[k], db.nextGroupId);
      assert r.created[k] in r.created && r.events[k] == Changed(r.created[k]);
    } else {
      var accounts := Shared(r.db, ts);
      ValidatedSourcesExist(db, ts, now, true);
      assert r.events[k] == AccountEvents(r.db, accounts)[k - |r.created|];
      AccountNamesFresh(db, ts, now, r.db, r.created, r.events, accounts[k - |r.created|]);
    }
  }

  lemma GroupNamesFresh(g: nat, next: nat)
    ensures NamesFresh(Changed(g), next) <==> g >= next
  {
    assert Names(Changed(g), g);
  }

  /** No event of a committed rollback is certain. */
  lemma RollbackNeverCertain(db: Db, ts: seq<Target>, expected: Option<Snapshot>, ids: seq<nat>, now: int, k: nat)
    requires Valid(db) && Rollback(db, ts, expected, ids, now).Commit?
    requires k < |Rollback(db, ts, expected, ids, now).events|
    ensures !Certain(Rollback(db, ts, expected, ids, now).events, db.nextGroupId, k)
  {
    RollbackCommitsExactly(db, ts, expected, ids, now);
    var events := Rollback(db, ts, expected, ids, now).events;
    assert events[k] in events;
    var g :| Hit(db, ids, g) && events[k] == Changed(g);
    GroupNamesFresh(g, db.nextGroupId);
    CertainExactly(events, db.nextGroupId, k);
  }

  // ----------------------------------------------------------------- rollback

  lemma RollbackEventsNamed(db: Db, ids: seq<nat>, events: seq<Event>)
    requires KeysOk(db) && EventsOf(db, ids, events)
    ensures forall e, g: nat :: e in events && Names(e, g) ==> g < db.nextGroupId
  {}

  /** After a committed rollback the event of a group it disabled is pending
      exactly when it was inserted or the row that suppressed its insert was not
      released before the commit. */
  lemma RollbackDelivers(db: Db, ts: seq<Target>, expected: Option<Snapshot>, ids: seq<nat>, now: int, others: Others)
    requires Valid(db) && Rollback(db, ts, expected, ids, now).Commit?
    requires Concurrent(others, Rollback(db, ts, expected, ids, now).events, db.nextGroupId)
    ensures var r := Rollback(db, ts, expected, ids, now);
            && Valid(Committed(r, others))
            && (forall g :: Hit(db, ids, g) ==> Changed(g) in r.events)
            && DeliveredExactly(others, r.events) && AddsOnly(others, r.events)
  {
    RollbackCommitsExactly(db, ts, expected, ids, now);
    var r := Rollback(db, ts, expected, ids, now);
    RollbackEventsNamed(db, ids, r.events);
    FinalIsOrderly(others, r.events, db.nextGroupId, db.nextGroupId);
    DeliversExactly(others, r.events, db.nextGroupId);
  }

  /** Group `g` is disabled, and its event was pending when it was asked for,
      but no event is pending at commit. */
  ghost predicate EventLost(r: Outcome, others: Others, g: nat, next: nat) {
    && r.Commit? && Concurrent(others, r.events, next)
    && others(0) == multiset{Changed(g)}
    && g in r.db.groups && Col(r.db.groups[g], Status) == Text(DISABLED)
    && Committed(r, others).outbox == multiset{}
  }

  /** A rollback may disable a group and leave no event for it: the event is
      still pending from the apply, the insert does nothing, and the consumer
      releases the row before the rollback commits. */
  lemma RollbackEventLost(db: Db, ts: seq<Target>, expected: Option<Snapshot>, g: nat, now: int)
    requires Valid(db) && Rollback(db, ts, expected, [g], now).Commit? && Hit(db, [g], g)
    ensures EventLost(Rollback(db, ts, expected, [g], now), ReleasedAfter(Changed(g)), g, db.nextGroupId)
  {
    RollbackCommitsExactly(db, ts, expected, [g], now);
    OneDisabled(db, ts, g, now);
    ReleasedIsLost(Rollback(db, ts, expected, [g], now), g, db.nextGroupId);
  }

  lemma ReleasedIsLost(r: Outcome, g: nat, next: nat)
    requires r.Commit? && r.events == [Changed(g)] && g < next
    requires g in r.db.groups && Col(r.db.groups[g], Status) == Text(DISABLED)
    ensures EventLost(r, ReleasedAfter(Changed(g)), g, next)
  {
    OutboxEncoding.WritersAgree(g, "");
    SuppressedThenReleased(Changed(g), next);
  }

  lemma OneDisabled(db: Db, ts: seq<Target>, g: nat, now: int)
    requires DisableAll(db, ts, [g], now).Commit? && Hit(db, [g], g)
    ensures DisableAll(db, ts, [g], now).events == [Changed(g)]
  {
    OutboxEncoding.WritersAgree(g, "");
    assert [g][1..] == [];
    assert DisableEvents(db, g) + [] == DisableEvents(db, g);
  }
}
