/** Rollback as a whole transaction (deploy/configure_official_cloud_routes.py:184-195). */
module RouteRollback {
  import opened Wrappers
  import opened RouteTables
  import opened RouteTransactions
  import opened RouteApply

  /** A live group that carries the marker of one of the targets. */
  predicate Owned(db: Db, ts: seq<Target>, g: nat) {
    g in db.groups && exists t | t in ts :: Carries(db.groups[g], t.marker)
  }

  function DisabledRow(r: Row, now: int): Row {
    r[Status := Text(DISABLED)][UpdatedAt := Time(now)]
  }

  predicate IsEnabled(db: Db, g: nat)
    requires g in db.groups
  {
    Col(db.groups[g], Status) != Text(DISABLED)
  }

  /** UPDATE ... WHERE id = g AND status IS DISTINCT FROM 'disabled' */
  function Disable(db: Db, g: nat, now: int): Db
    requires g in db.groups
  {
    if IsEnabled(db, g) then db.(groups := db.groups[g := DisabledRow(db.groups[g], now)]) else db
  }

  /** The insert that follows when a row was updated. */
  function DisableEvents(db: Db, g: nat): seq<Event>
    requires g in db.groups
  {
    if IsEnabled(db, g) then [GroupChanged(g, OutboxEncoding.PythonGroupKey(g))] else []
  }

  function DisableAll(db: Db, ts: seq<Target>, ids: seq<nat>, now: int): Outcome
    decreases |ids|
  {
    if ids == [] then Commit(db, [], [])
    else if !Owned(db, ts, ids[0]) then Abort
    else
      match DisableAll(Disable(db, ids[0], now), ts, ids[1..], now)
      case Abort => Abort
      case Commit(after, _, events) => Commit(after, [], DisableEvents(db, ids[0]) + events)
  }

  function Rollback(db: Db, ts: seq<Target>, expected: Option<Snapshot>, ids: seq<nat>, now: int): Outcome {
    if !BaselineHolds(db, ts, expected) then Abort
    else
      match DisableAll(db, ts, ids, now)
      case Abort => Abort
      case Commit(after, _, events) =>
        if SnapshotOf(after, ts) != SnapshotOf(db, ts) then Abort else Commit(after, [], events)
  }

  // ------------------------------------------------------------------- effect

  ghost predicate Hit(db: Db, ids: seq<nat>, g: nat) {
    g in db.groups && g in ids && Col(db.groups[g], Status) != Text(DISABLED)
  }

  /** A row's status is disabled and its time of update is now; every other column
      is there exactly when it was, with the value it had. */
  ghost predicate NowDisabled(before: Row, after: Row, now: int) {
    && Status in after && after[Status] == Text("disabled")
    && UpdatedAt in after && after[UpdatedAt] == Time(now)
    && (forall c :: c != Status && c != UpdatedAt ==> (c in after <==> c in before))
    && (forall c :: c != Status && c != UpdatedAt && c in before && c in after ==> after[c] == before[c])
  }

  ghost predicate RowsDisabled(db: Db, after: Db, ids: seq<nat>, now: int) {
    && after.groups.Keys == db.groups.Keys
    && (forall g :: g in db.groups ==>
          if Hit(db, ids, g) then NowDisabled(db.groups[g], after.groups[g], now)
          else after.groups[g] == db.groups[g])
  }

  /** The events are those of the groups that change, each once. */
  ghost predicate EventsOf(db: Db, ids: seq<nat>, events: seq<Event>) {
    && RouteOutbox.Proper(events)
    && (forall g :: Hit(db, ids, g) ==> GroupChanged(g, OutboxEncoding.SqlGroupKey(g)) in events)
    && (forall e :: e in events ==> exists g :: Hit(db, ids, g) && e == GroupChanged(g, OutboxEncoding.SqlGroupKey(g)))
  }

  /** Exactly the listed groups not yet disabled get the status and the time of
      update; an event is asked for each of them; nothing else changes. */
  ghost predicate DisablesExactly(db: Db, after: Db, ids: seq<nat>, events: seq<Event>, now: int) {
    && after == db.(groups := after.groups)
    && RowsDisabled(db, after, ids, now)
    && EventsOf(db, ids, events)
  }

  lemma DisabledRowIsDisabled(r: Row, now: int)
    ensures NowDisabled(r, DisabledRow(r, now), now)
  {}

  lemma DisabledKeeps(before: Row, after: Row, now: int)
    requires NowDisabled(before, after, now)
    ensures forall m :: Carries(after, m) == Carries(before, m)
    ensures Col(after, Status) == Text(DISABLED)
    ensures Col(after, Name) == Col(before, Name)
    ensures Col(after, DuplicateOperationId) == Col(before, DuplicateOperationId)
  {}

  lemma DisabledRowSchema(r: Row, now: int)
    requires Status in r && UpdatedAt in r && Typed(r)
    ensures DisabledRow(r, now).Keys == r.Keys && Typed(DisabledRow(r, now))
  {}

  lemma DisableSchema(db: Db, g: nat, now: int)
    requires SchemaOk(db) && g in db.groups
    ensures SchemaOk(Disable(db, g, now))
  {
    assert IsNamed(Status) && IsNamed(UpdatedAt);
    DisabledRowSchema(db.groups[g], now);
  }

  lemma DisableKeys(db: Db, g: nat, now: int)
    requires KeysOk(db) && g in db.groups
    ensures KeysOk(Disable(db, g, now))
  {
    assert Disable(db, g, now).groups.Keys == db.groups.Keys;
  }

  lemma DisableMarkers(db: Db, g: nat, now: int)
    requires MarkersOk(db) && g in db.groups
    ensures MarkersOk(Disable(db, g, now))
  {
    var after := Disable(db, g, now);
    forall h, m | h in db.groups ensures Carries(after.groups[h], m) == Carries(db.groups[h], m) {
      DisabledRowIsDisabled(db.groups[g], now);
      DisabledKeeps(db.groups[g], DisabledRow(db.groups[g], now), now);
    }
  }

  lemma DisableOne(db: Db, g: nat, now: int)
    requires g in db.groups
    ensures DisablesExactly(db, Disable(db, g, now), [g], DisableEvents(db, g), now)
  {
    DisableRows(db, g, now);
    DisableAsks(db, g);
  }

  lemma DisableAsks(db: Db, g: nat)
    requires g in db.groups
    ensures EventsOf(db, [g], DisableEvents(db, g))
  {
    WritersAreHonest(db, g);
    assert Hit(db, [g], g) <==> IsEnabled(db, g);
    assert forall h :: Hit(db, [g], h) ==> h == g;
  }

  lemma DisableRows(db: Db, g: nat, now: int)
    requires g in db.groups
    ensures RowsDisabled(db, Disable(db, g, now), [g], now)
  {
    assert Hit(db, [g], g) <==> Col(db.groups[g], Status) != Text(DISABLED);
    assert forall h :: Hit(db, [g], h) ==> h == g;
    DisabledRowIsDisabled(db.groups[g], now);
  }

  lemma DisableValid(db: Db, g: nat, now: int)
    requires Valid(db) && g in db.groups
    ensures Valid(Disable(db, g, now))
  {
    DisableSchema(db, g, now);
    DisableKeys(db, g, now);
    DisableMarkers(db, g, now);
  }

  lemma OwnedKept(db: Db, ts: seq<Target>, g: nat, h: nat, now: int)
    requires g in db.groups
    ensures Owned(Disable(db, g, now), ts, h) == Owned(db, ts, h)
  {
    var after := Disable(db, g, now);
    if h in db.groups {
      forall m ensures Carries(after.groups[h], m) == Carries(db.groups[h], m) {}
    }
  }

  lemma HitTwice(db: Db, mid: Db, g: nat, ids: seq<nat>, now: int)
    requires RowsDisabled(db, mid, [g], now)
    ensures forall h :: Hit(db, [g] + ids, h) <==> Hit(db, [g], h) || Hit(mid, ids, h)
    ensures forall h :: Hit(db, [g], h) ==> !Hit(mid, ids, h)
  {
    if Hit(db, [g], g) {
      DisabledKeeps(db.groups[g], mid.groups[g], now);
    }
    forall h ensures Hit(db, [g] + ids, h) <==> Hit(db, [g], h) || Hit(mid, ids, h) {
      assert h in [g] + ids <==> h == g || h in ids;
      assert h in [g] <==> h == g;
    }
  }

  lemma RowsTwice(db: Db, mid: Db, after: Db, g: nat, ids: seq<nat>, now: int)
    requires RowsDisabled(db, mid, [g], now) && RowsDisabled(mid, after, ids, now)
    ensures RowsDisabled(db, after, [g] + ids, now)
  {
    HitTwice(db, mid, g, ids, now);
    assert forall h :: h in db.groups && Hit(db, [g], h) ==> after.groups[h] == mid.groups[h];
  }

  lemma EventsTwice(db: Db, mid: Db, g: nat, ids: seq<nat>, first: seq<Event>, more: seq<Event>, now: int)
    requires RowsDisabled(db, mid, [g], now)
    requires EventsOf(db, [g], first) && EventsOf(mid, ids, more)
    ensures EventsOf(db, [g] + ids, first + more)
  {
    HitTwice(db, mid, g, ids, now);
    ProperTwice(db, mid, g, ids, first, more, now);
    var all := first + more;
    assert forall e :: e in all <==> e in first || e in more;
  }

  lemma ProperTwice(db: Db, mid: Db, g: nat, ids: seq<nat>, first: seq<Event>, more: seq<Event>, now: int)
    requires RowsDisabled(db, mid, [g], now)
    requires EventsOf(db, [g], first) && EventsOf(mid, ids, more)
    ensures RouteOutbox.Proper(first + more)
  {
    HitTwice(db, mid, g, ids, now);
    forall i, j | 0 <= i < |first| && 0 <= j < |more| ensures first[i] != more[j] {
      assert first[i] in first && more[j] in more;
      var h :| Hit(db, [g], h) && first[i] == GroupChanged(h, OutboxEncoding.SqlGroupKey(h));
      var k :| Hit(mid, ids, k) && more[j] == GroupChanged(k, OutboxEncoding.SqlGroupKey(k));
    }
    RouteOutbox.ProperJoined(first, more);
  }

  lemma DisablesTwice(db: Db, mid: Db, after: Db, g: nat, ids: seq<nat>, first: seq<Event>, more: seq<Event>, now: int)
    requires DisablesExactly(db, mid, [g], first, now) && DisablesExactly(mid, after, ids, more, now)
    ensures DisablesExactly(db, after, [g] + ids, first + more, now)
  {
    RowsTwice(db, mid, after, g, ids, now);
    EventsTwice(db, mid, g, ids, first, more, now);
  }

  lemma {:induction false} DisableAllCommits(db: Db, ts: seq<Target>, ids: seq<nat>, now: int)
    ensures DisableAll(db, ts, ids, now).Commit? <==> forall g :: g in ids ==> Owned(db, ts, g)
    decreases |ids|
  {
    if ids != [] {
      assert ids[0] in ids;
      assert forall g :: g in ids <==> g == ids[0] || g in ids[1..];
      if Owned(db, ts, ids[0]) {
        var mid := Disable(db, ids[0], now);
        DisableAllCommits(mid, ts, ids[1..], now);
        forall h ensures Owned(mid, ts, h) == Owned(db, ts, h) {
          OwnedKept(db, ts, ids[0], h, now);
        }
      }
    }
  }

  lemma DisablesNone(db: Db, now: int)
    ensures DisablesExactly(db, db, [], [], now)
  {}

  ghost predicate DisablesValidly(db: Db, r: Outcome, ids: seq<nat>, now: int) {
    r.Commit? && r.created == [] && Valid(r.db) && DisablesExactly(db, r.db, ids, r.events, now)
  }

  lemma DisableAllUnfold(db: Db, ts: seq<Target>, g: nat, rest: seq<nat>, now: int)
    requires DisableAll(db, ts, [g] + rest, now).Commit?
    ensures g in db.groups
    ensures var r := DisableAll(Disable(db, g, now), ts, rest, now);
            && r.Commit?
            && DisableAll(db, ts, [g] + rest, now) == Commit(r.db, [], DisableEvents(db, g) + r.events)
  {
    assert ([g] + rest)[1..] == rest;
  }

  lemma {:induction false} DisableAllEffect(db: Db, ts: seq<Target>, ids: seq<nat>, now: int)
    requires Valid(db) && DisableAll(db, ts, ids, now).Commit?
    ensures DisablesValidly(db, DisableAll(db, ts, ids, now), ids, now)
    decreases |ids|
  {
    if ids == [] {
      DisablesNone(db, now);
    } else {
      var g, rest := ids[0], ids[1..];
      assert ids == [g] + rest;
      DisableAllUnfold(db, ts, g, rest, now);
      DisableValid(db, g, now);
      DisableOne(db, g, now);
      var mid := Disable(db, g, now);
      DisableAllEffect(mid, ts, rest, now);
      var r := DisableAll(mid, ts, rest, now);
      DisablesTwice(db, mid, r.db, g, rest, DisableEvents(db, g), r.events, now);
    }
  }

  /** The digest guard fires exactly when a source group itself would change. */
  lemma GuardSeesSources(db: Db, after: Db, ts: seq<Target>, ids: seq<nat>, events: seq<Event>, now: int)
    requires DisablesExactly(db, after, ids, events, now)
    ensures SnapshotOf(after, ts) == SnapshotOf(db, ts) <==> forall g :: Hit(db, ids, g) ==> g !in Sources(ts)
  {
    var gs := Sources(ts);
    if g :| Hit(db, ids, g) && g in gs {
      assert Col(Restrict(after.groups, gs)[g], Status) == Text(DISABLED);
      assert Restrict(db.groups, gs)[g] == db.groups[g];
    } else {
      assert Restrict(after.groups, gs) == Restrict(db.groups, gs);
    }
  }

  /** Rollback commits exactly when the baseline (if any) holds, every listed
      id is a live group owned by a target, and no listed source group would
      change; then it disables exactly the listed groups. Otherwise it aborts
      as a whole. */
  lemma RollbackCommitsExactly(db: Db, ts: seq<Target>, expected: Option<Snapshot>, ids: seq<nat>, now: int)
    requires Valid(db)
    ensures Rollback(db, ts, expected, ids, now).Commit? <==>
              && BaselineHolds(db, ts, expected)
              && (forall g :: g in ids ==> Owned(db, ts, g))
              && (forall g :: Hit(db, ids, g) ==> g !in Sources(ts))
    ensures Rollback(db, ts, expected, ids, now).Commit? ==>
              var r := Rollback(db, ts, expected, ids, now);
              && Valid(r.db) && DisablesExactly(db, r.db, ids, r.events, now)
              && SnapshotOf(r.db, ts) == SnapshotOf(db, ts)
  {
    DisableAllCommits(db, ts, ids, now);
    if DisableAll(db, ts, ids, now).Commit? {
      DisableAllEffect(db, ts, ids, now);
      var r := DisableAll(db, ts, ids, now);
      GuardSeesSources(db, r.db, ts, ids, r.events, now);
    }
  }

  /** With a genuine receipt the digest guard never trips: ids created by an
      apply are not source ids, so only ownership can refuse them. */
  lemma GenuineRollback(db: Db, ts: seq<Target>, expected: Snapshot, applied: int,
                        later: Db, base: Option<Snapshot>, now: int)
    requires Valid(db) && Distinct(ts) && Apply(db, ts, expected, applied).Commit?
    requires Valid(later)
    ensures var ids := Apply(db, ts, expected, applied).created;
            Rollback(later, ts, base, ids, now).Commit? <==>
              BaselineHolds(later, ts, base) && forall g :: g in ids ==> Owned(later, ts, g)
  {
    var ids := Apply(db, ts, expected, applied).created;
    CreatedAreNotSources(db, ts, expected, applied);
    RollbackCommitsExactly(later, ts, base, ids, now);
  }

  lemma CreatedAreNotSources(db: Db, ts: seq<Target>, expected: Snapshot, now: int)
    requires Valid(db) && Distinct(ts) && Apply(db, ts, expected, now).Commit?
    ensures forall g :: g in Apply(db, ts, expected, now).created ==> g !in Sources(ts)
  {
    ApplyEffect(db, ts, expected, now);
    ValidatedSourcesExist(db, ts, now, true);
    assert forall g :: g in Sources(ts) ==> g in db.groups;
  }

  lemma ListedAreDisabled(db: Db, after: Db, ts: seq<Target>, ids: seq<nat>, now: int, g: nat)
    requires RowsDisabled(db, after, ids, now) && g in ids && Owned(db, ts, g)
    ensures Owned(after, ts, g) && Col(after.groups[g], Status) == Text(DISABLED)
  {
    var t :| t in ts && Carries(db.groups[g], t.marker);
    if Hit(db, ids, g) {
      DisabledKeeps(db.groups[g], after.groups[g], now);
    }
    assert Carries(after.groups[g], t.marker);
  }

  /** A second rollback with the same ids, whatever others have made of the
      outbox, changes nothing and asks for no event. */
  lemma RollbackTwice(db: Db, ts: seq<Target>, expected: Option<Snapshot>, ids: seq<nat>, now: int,
                      o: multiset<Event>, later: int)
    requires Valid(db) && Rollback(db, ts, expected, ids, now).Commit?
    ensures var after := Rollback(db, ts, expected, ids, now).db.(outbox := o);
            Rollback(after, ts, expected, ids, later) == Commit(after, [], [])
  {
    RollbackCommitsExactly(db, ts, expected, ids, now);
    var tables := Rollback(db, ts, expected, ids, now).db;
    var after := tables.(outbox := o);
    forall g | g in ids ensures Owned(after, ts, g) && Col(after.groups[g], Status) == Text(DISABLED) {
      ListedAreDisabled(db, tables, ts, ids, now, g);
    }
    assert SnapshotOf(after, ts) == SnapshotOf(tables, ts);
    DisabledIdle(after, ts, ids, later);
  }

  lemma {:induction false} DisabledIdle(db: Db, ts: seq<Target>, ids: seq<nat>, now: int)
    requires forall g :: g in ids ==> Owned(db, ts, g) && Col(db.groups[g], Status) == Text(DISABLED)
    ensures DisableAll(db, ts, ids, now) == Commit(db, [], [])
    decreases |ids|
  {
    if ids != [] {
      assert ids[0] in ids;
      assert forall g :: g in ids[1..] ==> g in ids;
      DisabledIdle(db, ts, ids[1..], now);
    }
  }

  /** While a disabled clone is live, every plan, check and apply is refused. */
  lemma DisabledCloneRefuses(db: Db, ts: seq<Target>, t: Target, g: nat, now: int, allowMissing: bool)
    requires t in ts && g in db.groups
    requires Carries(db.groups[g], t.marker) && Col(db.groups[g], Status) == Text(DISABLED)
    ensures !Validates(db, ts, now, allowMissing)
    ensures forall expected :: Inspect(db, ts, expected, now, allowMissing) == Abort
    ensures forall expected :: Apply(db, ts, expected, now) == Abort
  {
    assert g in LiveIds(db, t.marker);
    assert IsTrueNe(Text(DISABLED), Text(ACTIVE));
    if t.source in db.groups {
      assert !CloneMatches(db, g, t);
    }
    assert !TargetOk(db, t, now, allowMissing) && !TargetOk(db, t, now, true);
  }

  /** A target without a live clone whose name belongs to some group, as after the
      soft delete of its clone, is refused. */
  lemma DeletedCloneRefuses(db: Db, ts: seq<Target>, t: Target, g: nat, now: int, allowMissing: bool)
    requires t in ts && g in db.groups && Col(db.groups[g], Name) == Text(t.name)
    requires LiveIds(db, t.marker) == {}
    ensures !Validates(db, ts, now, allowMissing)
    ensures forall expected :: Apply(db, ts, expected, now) == Abort
  {
    assert NameTaken(db, t.name);
    assert !TargetOk(db, t, now, allowMissing) && !TargetOk(db, t, now, true);
  }
}
