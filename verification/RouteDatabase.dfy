/** The transactions of the script as they run: statements that update the
    tables in place, inside a block that restores them when it raises, while
    other sessions write to the outbox
    (deploy/configure_official_cloud_routes.py:127-198). Each method is proved
    against its function on the whole database. */
module RouteDatabase {
  import opened Wrappers
  import opened RouteTables
  import opened RouteTransactions
  import opened RouteApply
  import opened RouteOutbox
  import Rolling = RouteRollback

  /** The assembled insert is the clone row, when the select list follows the
      columns and the columns are those of the source row. */
  lemma {:induction false} InsertSelectPrefix(names: seq<Column>, exprs: seq<Expr>, src: Row, t: Target, now: int)
    requires |names| == |exprs|
    requires forall i :: 0 <= i < |names| ==> exprs[i] == ExprFor(names[i], t)
    ensures InsertSelect(names, exprs, src, now).Keys == set c | c in names
    ensures forall c :: c in names ==> InsertSelect(names, exprs, src, now)[c] == Eval(ExprFor(c, t), src, now)
    decreases |names|
  {
    if names != [] {
      var k := |names| - 1;
      InsertSelectPrefix(names[..k], exprs[..k], src, t, now);
      assert forall c :: c in names <==> c in names[..k] || c == names[k];
    }
  }

  lemma InsertSelectClones(names: seq<Column>, exprs: seq<Expr>, src: Row, t: Target, now: int)
    requires |names| == |exprs|
    requires forall i :: 0 <= i < |names| ==> exprs[i] == ExprFor(names[i], t)
    requires src.Keys == set c | c in names
    ensures InsertSelect(names, exprs, src, now) == CloneRow(src, t, now)
  {
    InsertSelectPrefix(names, exprs, src, t, now);
    assert forall c :: c in src <==> c in names;
  }

  /** `result` is what the clone loop ends with when it stands before target `i`
      of database `db` with `created` collected so far. */
  ghost predicate Towards(result: (Db, seq<nat>), created: seq<nat>, db: Db, ts: seq<Target>, i: nat, now: int) {
    && i <= |ts| && Valid(db) && SourcesExist(db, ts)
    && var rest := RouteTransactions.CloneMissing(db, ts[i..], now);
       result == (rest.0, created + rest.1)
  }

  lemma TowardsStart(db: Db, ts: seq<Target>, now: int)
    requires Valid(db) && SourcesExist(db, ts)
    ensures Towards(RouteTransactions.CloneMissing(db, ts, now), [], db, ts, 0, now)
  {
    assert ts[0..] == ts;
    var ids := RouteTransactions.CloneMissing(db, ts, now).1;
    assert [] + ids == ids;
  }

  lemma TowardsSkip(result: (Db, seq<nat>), created: seq<nat>, db: Db, ts: seq<Target>, i: nat, now: int)
    requires i < |ts| && Towards(result, created, db, ts, i, now) && LiveIds(db, ts[i].marker) != {}
    ensures Towards(result, created, db, ts, i + 1, now)
  {
    CloneMissingUnfold(db, ts, i, now);
  }

  lemma TowardsInsert(result: (Db, seq<nat>), created: seq<nat>, db: Db, ts: seq<Target>, i: nat, now: int)
    requires i < |ts| && Towards(result, created, db, ts, i, now) && LiveIds(db, ts[i].marker) == {}
    ensures ts[i].source in db.groups
    ensures Towards(result, created + [db.nextGroupId], InsertClone(db, ts[i], now), ts, i + 1, now)
  {
    assert ts[i] in ts;
    CloneMissingUnfold(db, ts, i, now);
    InsertValid(db, ts[i], now);
    var ids := RouteTransactions.CloneMissing(InsertClone(db, ts[i], now), ts[i + 1..], now).1;
    assert created + ([db.nextGroupId] + ids) == created + [db.nextGroupId] + ids;
  }

  lemma TowardsEnd(result: (Db, seq<nat>), created: seq<nat>, db: Db, ts: seq<Target>, now: int)
    requires Towards(result, created, db, ts, |ts|, now)
    ensures result == (db, created)
  {
    assert ts[|ts|..] == [];
    assert created + [] == created;
  }

  lemma GroupEventsSnoc(ids: seq<nat>, id: nat)
    ensures GroupEvents(ids + [id]) == GroupEvents(ids) + [GroupChanged(id, OutboxEncoding.SqlGroupKey(id))]
  {}

  lemma AccountEventsSnoc(db: Db, accounts: seq<nat>, i: nat)
    requires i < |accounts|
    ensures AccountEvents(db, accounts[..i + 1]) == AccountEvents(db, accounts[..i]) + [AccountChanged(db, accounts[i])]
  {}

  /** `result` is what a rollback ends with when, with `asked` inserts behind it,
      it stands before id `i` of database `db`. */
  ghost predicate TowardsRollback(result: Outcome, asked: seq<Event>, db: Db, ts: seq<Target>, ids: seq<nat>, i: nat, now: int) {
    && i <= |ids|
    && match Rolling.DisableAll(db, ts, ids[i..], now)
       case Abort => result == Abort
       case Commit(after, _, events) => result == Commit(after, [], asked + events)
  }

  lemma RollbackStarts(db: Db, ts: seq<Target>, ids: seq<nat>, now: int)
    ensures TowardsRollback(Rolling.DisableAll(db, ts, ids, now), [], db, ts, ids, 0, now)
  {
    assert ids[0..] == ids;
    var r := Rolling.DisableAll(db, ts, ids, now);
    assert r.Commit? ==> [] + r.events == r.events;
  }

  lemma RollbackStops(result: Outcome, asked: seq<Event>, db: Db, ts: seq<Target>, ids: seq<nat>, i: nat, now: int)
    requires i < |ids| && TowardsRollback(result, asked, db, ts, ids, i, now) && !Rolling.Owned(db, ts, ids[i])
    ensures result == Abort
  {}

  lemma RollbackGoesOn(result: Outcome, asked: seq<Event>, db: Db, ts: seq<Target>, ids: seq<nat>, i: nat, now: int)
    requires i < |ids| && TowardsRollback(result, asked, db, ts, ids, i, now) && Rolling.Owned(db, ts, ids[i])
    ensures TowardsRollback(result, asked + Rolling.DisableEvents(db, ids[i]), Rolling.Disable(db, ids[i], now),
                            ts, ids, i + 1, now)
  {
    var mid := Rolling.Disable(db, ids[i], now);
    assert ids[i..][0] == ids[i] && ids[i..][1..] == ids[i + 1..];
    match Rolling.DisableAll(mid, ts, ids[i + 1..], now)
    case Abort =>
    case Commit(_, _, events) =>
      assert asked + (Rolling.DisableEvents(db, ids[i]) + events) == asked + Rolling.DisableEvents(db, ids[i]) + events;
  }

  lemma RollbackEnds(result: Outcome, asked: seq<Event>, db: Db, ts: seq<Target>, ids: seq<nat>, now: int)
    requires TowardsRollback(result, asked, db, ts, ids, |ids|, now)
    ensures result == Commit(db, [], asked)
  {
    assert ids[|ids|..] == [];
    assert asked + [] == asked;
  }

  /** What the block of apply comes to, by its three tests. */
  lemma ApplyByTests(db: Db, ts: seq<Target>, expected: Snapshot, now: int)
    ensures SnapshotOf(db, ts) != expected || !Validates(db, ts, now, true) ==> RouteApply.Apply(db, ts, expected, now) == Abort
    ensures SnapshotOf(db, ts) == expected && Validates(db, ts, now, true) ==>
              SourcesExist(db, ts) && RouteApply.Apply(db, ts, expected, now) == AfterCloning(db, ts, now)
  {
    if Validates(db, ts, now, true) {
      ValidatedSourcesExist(db, ts, now, true);
    }
  }

  function AfterCloning(db: Db, ts: seq<Target>, now: int): Outcome
    requires SourcesExist(db, ts)
  {
    var (cloned, ids) := RouteTransactions.CloneMissing(db, ts, now);
    if !Validates(cloned, ts, now, false) || SnapshotOf(cloned, ts) != SnapshotOf(db, ts) then Abort
    else Commit(cloned, ids, ApplyEvents(cloned, ts, ids))
  }

  class Database {
    const columns: seq<Column>
    const targets: seq<Target>
    var groups: map<nat, Row>
    var accountGroups: map<(nat, nat), Binding>
    var channelGroups: map<(nat, nat), int>
    var accounts: map<nat, AccountRow>
    var channels: map<nat, Row>
    var pricing: map<nat, Pricing>
    /** As the last transaction of this object left it. */
    var outbox: multiset<Event>
    var nextGroupId: nat
    /** The running transaction's inserts into the outbox so far, and the rows
        they put in. */
    var asked: seq<Event>
    var own: multiset<Event>

    function View(): Db
      reads this
    {
      Db(columns, groups, accountGroups, channelGroups, accounts, channels, pricing, outbox, nextGroupId)
    }

    constructor (db: Db, targets: seq<Target>)
      ensures View() == db && this.targets == targets
      ensures asked == [] && own == multiset{}
    {
      this.columns, this.targets := db.columns, targets;
      groups, accountGroups, channelGroups := db.groups, db.accountGroups, db.channelGroups;
      accounts, channels, pricing := db.accounts, db.channels, db.pricing;
      outbox, nextGroupId, asked, own := db.outbox, db.nextGroupId, [], multiset{};
    }

    /** `own` is what the inserts so far put in, among the rows of others. */
    ghost predicate Inserting(others: Others)
      reads this
    {
      own == Own(others, asked)
    }

    method Begin(others: Others)
      modifies this`asked, this`own
      ensures asked == [] && Inserting(others)
    {
      asked, own := [], multiset{};
    }

    /** INSERT INTO scheduler_outbox ... DO NOTHING, among the rows other sessions
        have committed by now. */
    method Insert(e: Event, others: Others)
      requires Inserting(others)
      modifies this`asked, this`own
      ensures asked == old(asked) + [e] && Inserting(others)
    {
      OwnSnoc(others, asked, e);
      if !Taken(others(|asked|) + own, e) {
        own := own + multiset{e};
      }
      asked := asked + [e];
    }

    /** COMMIT: the transaction's rows join those of the others. */
    method Commits(others: Others)
      requires Inserting(others)
      modifies this`outbox
      ensures outbox == Final(others, asked)
    {
      outbox := others(|asked|) + own;
    }

    /** ROLLBACK of the surrounding transaction. */
    method Restore(saved: Db)
      requires saved.columns == columns
      modifies this
      ensures View() == saved
    {
      groups, accountGroups, channelGroups := saved.groups, saved.accountGroups, saved.channelGroups;
      accounts, channels, pricing := saved.accounts, saved.channels, saved.pricing;
      outbox, nextGroupId := saved.outbox, saved.nextGroupId;
    }

    /** The validation loop. */
    method Validate(now: int, allowMissing: bool) returns (ok: bool)
      requires MarkersOk(View())
      ensures ok <==> Validates(View(), targets, now, allowMissing)
    {
      for i := 0 to |targets|
        invariant forall j :: 0 <= j < i ==> TargetOk(View(), targets[j], now, allowMissing)
      {
        var t := targets[i];
        assert t in targets;
        if t.source !in groups || SourceRowRejected(groups[t.source], t) {
          return false;
        }
        var src := groups[t.source];
        if HasIneligibleAccount(View(), t.source, src) {
          return false;
        }
        if !HasUsableAccount(View(), t.source, now) {
          return false;
        }
        if HasInactiveChannel(View(), t.source) {
          return false;
        }
        var live := LiveIds(View(), t.marker);
        if live == {} {
          if NameTaken(View(), t.name) || !allowMissing {
            return false;
          }
        } else {
          var d :| d in live;
          assert live == {d};
          if CloneRejected(groups[d], src, t) {
            return false;
          }
          if AccountList(View(), t.source) != AccountList(View(), d) {
            return false;
          }
          if ChannelList(View(), t.source) != ChannelList(View(), d) {
            return false;
          }
        }
      }
      return true;
    }

    /** Plan and check. */
    method Inspect(expected: Option<Snapshot>, now: int, allowMissing: bool) returns (ok: bool)
      requires Valid(View())
      ensures ok <==> RouteApply.Inspect(View(), targets, expected, now, allowMissing).Commit?
    {
      if expected.Some? && SnapshotOf(View(), targets) != expected.value {
        return false;
      }
      ok := Validate(now, allowMissing);
    }

    /** The select list for one target, one schema column at a time. */
    method SelectList(t: Target) returns (names: seq<Column>, exprs: seq<Expr>)
      ensures names == columns && |exprs| == |names|
      ensures forall i :: 0 <= i < |names| ==> exprs[i] == ExprFor(names[i], t)
    {
      names, exprs := [], [];
      for i := 0 to |columns|
        invariant names == columns[..i] && |exprs| == i
        invariant forall j :: 0 <= j < i ==> exprs[j] == ExprFor(columns[j], t)
      {
        names := names + [columns[i]];
        exprs := exprs + [ExprFor(columns[i], t)];
      }
    }

    /** The row the assembled INSERT puts in. */
    method ClonedRow(src: Row, t: Target, now: int) returns (row: Row)
      requires src.Keys == set c | c in columns
      ensures row == CloneRow(src, t, now)
    {
      var names, exprs := SelectList(t);
      InsertSelectClones(names, exprs, src, t, now);
      row := InsertSelect(names, exprs, src, now);
    }

    /** The INSERTs of one round into groups and the two binding tables. */
    method InsertRows(t: Target, now: int) returns (newId: nat)
      requires t.source in groups && groups[t.source].Keys == set c | c in columns
      modifies this`groups, this`accountGroups, this`channelGroups, this`nextGroupId
      ensures newId == old(nextGroupId)
      ensures View() == InsertClone(old(View()), t, now)
    {
      var row := ClonedRow(groups[t.source], t, now);
      newId, nextGroupId := nextGroupId, nextGroupId + 1;
      groups := groups[newId := row];
      accountGroups := accountGroups + CopyAccounts(accountGroups, t.source, newId, now);
      channelGroups := channelGroups + CopyChannels(channelGroups, t.source, newId, now);
    }

    /** One round of the clone loop. */
    method CloneGroup(t: Target, now: int, others: Others) returns (newId: nat)
      requires SchemaOk(View()) && t.source in groups && Inserting(others)
      modifies this
      ensures newId == old(nextGroupId)
      ensures View() == InsertClone(old(View()), t, now)
      ensures asked == old(asked) + [GroupChanged(newId, OutboxEncoding.SqlGroupKey(newId))] && Inserting(others)
    {
      newId := InsertRows(t, now);
      Insert(GroupChanged(newId, OutboxEncoding.SqlGroupKey(newId)), others);
    }

    /** The clone loop. */
    method CloneMissing(now: int, others: Others) returns (created: seq<nat>)
      requires Valid(View()) && SourcesExist(View(), targets) && asked == [] && Inserting(others)
      modifies this
      ensures (View(), created) == RouteTransactions.CloneMissing(old(View()), targets, now)
      ensures Valid(View())
      ensures asked == GroupEvents(created) && Inserting(others)
    {
      created := [];
      ghost var result := RouteTransactions.CloneMissing(View(), targets, now);
      TowardsStart(View(), targets, now);
      for i := 0 to |targets|
        invariant Towards(result, created, View(), targets, i, now)
        invariant asked == GroupEvents(created) && Inserting(others)
      {
        var t := targets[i];
        if LiveIds(View(), t.marker) != {} {
          TowardsSkip(result, created, View(), targets, i, now);
          continue;
        }
        TowardsInsert(result, created, View(), targets, i, now);
        var newId := CloneGroup(t, now, others);
        GroupEventsSnoc(created, newId);
        created := created + [newId];
      }
      TowardsEnd(result, created, View(), targets, now);
    }

    /** The account_changed loop. */
    method RefreshAccounts(others: Others)
      requires Inserting(others)
      modifies this`asked, this`own
      ensures asked == old(asked) + AccountEvents(View(), Shared(View(), targets)) && Inserting(others)
    {
      var shared := Ascending.Sorted(Ends(accountGroups, Sources(targets)));
      ghost var before, db := asked, View();
      assert before + AccountEvents(db, shared[..0]) == before;
      for i := 0 to |shared|
        invariant View() == db
        invariant asked == before + AccountEvents(db, shared[..i]) && Inserting(others)
      {
        AccountEventsSnoc(db, shared, i);
        Insert(AccountChanged(View(), shared[i]), others);
      }
      assert shared[..|shared|] == shared;
    }

    /** The clone loop, the strict validation, the account_changed loop and the final
        digest guard. */
    method CloneAndRefresh(now: int, others: Others) returns (ok: bool, created: seq<nat>)
      requires Valid(View()) && SourcesExist(View(), targets) && asked == [] && Inserting(others)
      modifies this
      ensures AfterCloning(old(View()), targets, now) == if ok then Commit(View(), created, asked) else Abort
      ensures Inserting(others)
    {
      var digest := SnapshotOf(View(), targets);
      created := CloneMissing(now, others);
      ghost var cloned := View();
      ok := Validate(now, false);
      if ok {
        RefreshAccounts(others);
        assert View() == cloned && asked == ApplyEvents(cloned, targets, created);
        ok := SnapshotOf(View(), targets) == digest;
      }
    }

    /** The block of apply. */
    method ApplyBlock(expected: Snapshot, now: int, others: Others) returns (committed: bool, created: seq<nat>)
      requires Valid(View()) && Distinct(targets)
      modifies this
      ensures var r := RouteApply.Apply(old(View()), targets, expected, now);
              if committed then
                r.Commit? && created == r.created && View() == Committed(r, others)
              else
                r == Abort && View() == old(View()) && created == []
    {
      ApplyByTests(View(), targets, expected, now);
      Begin(others);
      var saved := View();
      if SnapshotOf(View(), targets) != expected {
        return false, [];
      }
      var ok := Validate(now, true);
      if !ok {
        return false, [];
      }
      ok, created := CloneAndRefresh(now, others);
      if !ok {
        Restore(saved);
        return false, [];
      }
      Commits(others);
      committed := true;
    }

    method Apply(expected: Snapshot, now: int, others: Others) returns (committed: bool, created: seq<nat>)
      requires Valid(View()) && Distinct(targets)
      modifies this
      ensures var r := RouteApply.Apply(old(View()), targets, expected, now);
              if committed then
                && r.Commit? && created == r.created && View() == Committed(r, others)
                && ApplyPost(old(View()), targets, now, r.db, created, r.events)
              else
                r == Abort && View() == old(View()) && created == []
    {
      ghost var before := View();
      committed, created := ApplyBlock(expected, now, others);
      if committed {
        ApplyEffect(before, targets, expected, now);
      }
    }

    /** The receipt's statements, up to the first id that is not owned. */
    method DisableListed(ids: seq<nat>, now: int, others: Others) returns (ok: bool)
      requires asked == [] && Inserting(others)
      modifies this
      ensures Rolling.DisableAll(old(View()), targets, ids, now) == if ok then Commit(View(), [], asked) else Abort
      ensures Inserting(others)
    {
      ghost var result := Rolling.DisableAll(View(), targets, ids, now);
      RollbackStarts(View(), targets, ids, now);
      for i := 0 to |ids|
        invariant TowardsRollback(result, asked, View(), targets, ids, i, now)
        invariant Inserting(others)
      {
        var g := ids[i];
        if !Rolling.Owned(View(), targets, g) {
          RollbackStops(result, asked, View(), targets, ids, i, now);
          return false;
        }
        RollbackGoesOn(result, asked, View(), targets, ids, i, now);
        if Col(groups[g], Status) != Text(DISABLED) {
          groups := groups[g := Rolling.DisabledRow(groups[g], now)];
          Insert(GroupChanged(g, OutboxEncoding.PythonGroupKey(g)), others);
        } else {
          assert asked + [] == asked;
        }
      }
      RollbackEnds(result, asked, View(), targets, ids, now);
      return true;
    }

    method Rollback(expected: Option<Snapshot>, ids: seq<nat>, now: int, others: Others) returns (committed: bool)
      requires Valid(View())
      modifies this
      ensures var r := Rolling.Rollback(old(View()), targets, expected, ids, now);
              if committed then
                && r.Commit? && View() == Committed(r, others)
                && Rolling.DisablesExactly(old(View()), r.db, ids, r.events, now)
              else
                r == Abort && View() == old(View())
    {
      Begin(others);
      var saved := View();
      if expected.Some? && SnapshotOf(View(), targets) != expected.value {
        return false;
      }
      committed := DisableListed(ids, now, others);
      if !committed || SnapshotOf(View(), targets) != SnapshotOf(saved, targets) {
        Restore(saved);
        return false;
      }
      Commits(others);
      Rolling.RollbackCommitsExactly(saved, targets, expected, ids, now);
    }
  }
}
