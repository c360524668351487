/** What a record means: the transaction it was taken from, the plan behind an
    apply, and when each mode commits in a run
    (deploy/configure_official_cloud_routes.py:133-136, 199-205, 227-261). */
module RouteRecords {
  import opened Wrappers
  import opened RouteTables
  import opened RouteTransactions
  import opened RouteApply
  import opened RouteRollback
  import opened RouteMeaning
  import opened RouteRuns

  // ------------------------------------------------------------ one transaction

  /** A check commits exactly when the baseline, if any, holds and every target is
      checked; it changes nothing. */
  lemma CheckCommitsExactly(db: Db, ts: seq<Target>, expected: Option<Snapshot>, ids: seq<nat>, now: int)
    requires Valid(db)
    ensures var r := Transaction(db, ts, CheckMode, expected, ids, now);
            && (r.Commit? <==>
                (expected.Some? ==> SnapshotOf(db, ts) == expected.value) && forall t :: t in ts ==> Checked(db, t, now))
            && (r.Commit? ==> r == Commit(db, [], []))
  {
    ValidatesExactly(db, ts, now);
  }

  /** A plan commits exactly when the baseline, if any, holds and every target is
      plannable; it changes nothing. */
  lemma PlanCommitsExactly(db: Db, ts: seq<Target>, expected: Option<Snapshot>, ids: seq<nat>, now: int)
    requires Valid(db)
    ensures var r := Transaction(db, ts, PlanMode, expected, ids, now);
            && (r.Commit? <==>
                (expected.Some? ==> SnapshotOf(db, ts) == expected.value) && forall t :: t in ts ==> Plannable(db, t, now))
            && (r.Commit? ==> r == Commit(db, [], []))
  {
    ValidatesExactly(db, ts, now);
  }

  /** No committed transaction changes what the digest covers. */
  lemma DigestIsKept(db: Db, ts: seq<Target>, mode: Mode, expected: Option<Snapshot>, ids: seq<nat>, now: int)
    requires Valid(db) && Distinct(ts) && Transaction(db, ts, mode, expected, ids, now).Commit?
    ensures SnapshotOf(Transaction(db, ts, mode, expected, ids, now).db, ts) == SnapshotOf(db, ts)
  {
    match mode
    case ApplyMode => ApplyEffect(db, ts, expected.value, now);
    case RollbackMode => RollbackCommitsExactly(db, ts, expected, ids, now);
    case _ =>
  }

  // -------------------------------------------------------------------- origins

  /** Step `s` is the committed transaction of a process with these arguments, and
      `result` reports its mode, the digest of the database it met, and the ids it
      created. */
  ghost predicate Origin(w: World, s: Step, ts: seq<Target>, args: Args, result: Content) {
    && s.Transact? && s.pid in w.procs && w.procs[s.pid].Reserved? && w.procs[s.pid].args == args
    && OutcomeOf(w, s.pid, ts, s.now).Commit?
    && result == Record(args.mode, SnapshotOf(w.db, ts), OutcomeOf(w, s.pid, ts, s.now).created)
  }

  lemma AnsweredStep(w: World, w': World, s: Step, ts: seq<Target>, pid: Pid)
    requires Inv(w, ts) && Distinct(ts) && Next(w, w', s, ts) && pid in w'.procs && w'.procs[pid].Answered?
    ensures (pid in w.procs && w.procs[pid] == w'.procs[pid]) || Origin(w, s, ts, w'.procs[pid].args, w'.procs[pid].result)
  {
    if s.Transact? && s.pid == pid && OutcomeOf(w, pid, ts, s.now).Commit? {
      var p := w.procs[pid];
      DigestIsKept(w.db, ts, p.args.mode, p.expected, p.ids, s.now);
    }
  }

  /** The same in a run. */
  lemma AnsweredCame(ws: seq<World>, ss: seq<Step>, ts: seq<Target>, n: nat, pid: Pid) returns (now: bool)
    requires IsRun(ws, ss, ts) && Distinct(ts) && 0 < n < |ws| && pid in ws[n].procs && ws[n].procs[pid].Answered?
    ensures now ==> Origin(ws[n - 1], ss[n - 1], ts, ws[n].procs[pid].args, ws[n].procs[pid].result)
    ensures !now ==> pid in ws[n - 1].procs && ws[n - 1].procs[pid] == ws[n].procs[pid]
  {
    RunStep(ws, ss, ts, n);
    AnsweredStep(ws[n - 1], ws[n], ss[n - 1], ts, pid);
    now := !(pid in ws[n - 1].procs && ws[n - 1].procs[pid] == ws[n].procs[pid]);
  }

  lemma NobodyYet(ws: seq<World>, ss: seq<Step>, ts: seq<Target>, n: nat, pid: Pid)
    requires IsRun(ws, ss, ts) && n < |ws| && pid in ws[n].procs
    ensures n > 0
  {}

  /** Whoever holds a result has run the transaction it reports. */
  lemma {:induction false} AnsweredHasOrigin(ws: seq<World>, ss: seq<Step>, ts: seq<Target>, n: nat, pid: Pid)
    returns (m: nat)
    requires IsRun(ws, ss, ts) && Distinct(ts) && n < |ws| && pid in ws[n].procs && ws[n].procs[pid].Answered?
    ensures m < n && Origin(ws[m], ss[m], ts, ws[n].procs[pid].args, ws[n].procs[pid].result)
    decreases n
  {
    NobodyYet(ws, ss, ts, n, pid);
    var now := AnsweredCame(ws, ss, ts, n, pid);
    if now {
      m := n - 1;
    } else {
      m := AnsweredHasOrigin(ws, ss, ts, n - 1, pid);
    }
  }

  /** A process writes its own result to its own record. */
  ghost predicate Writes(w: World, s: Step, r: Path, c: Content) {
    && s.Write? && s.pid in w.procs && w.procs[s.pid].Answered?
    && w.procs[s.pid].args.record == Some(r) && w.procs[s.pid].result == c
  }

  lemma RecordStep(w: World, w': World, s: Step, ts: seq<Target>, r: Path)
    requires Next(w, w', s, ts) && r in w'.files && w'.files[r].Record?
    ensures (r in w.files && w.files[r] == w'.files[r]) || Writes(w, s, r, w'.files[r])
  {}

  lemma RecordCame(ws: seq<World>, ss: seq<Step>, ts: seq<Target>, n: nat, r: Path)
    requires IsRun(ws, ss, ts) && Distinct(ts) && 0 < n < |ws| && r in ws[n].files && ws[n].files[r].Record?
    ensures (r in ws[n - 1].files && ws[n - 1].files[r] == ws[n].files[r]) || Writes(ws[n - 1], ss[n - 1], r, ws[n].files[r])
  {
    RunStep(ws, ss, ts, n);
    RecordStep(ws[n - 1], ws[n], ss[n - 1], ts, r);
  }

  /** In every run each complete record that was not there from the start reports a
      committed transaction of the process that reserved it: its mode, the digest
      of the database it met, and the groups it created. */
  lemma {:induction false} RecordHasOrigin(ws: seq<World>, ss: seq<Step>, ts: seq<Target>, n: nat, r: Path)
    returns (m: nat, args: Args)
    requires IsRun(ws, ss, ts) && Distinct(ts) && n < |ws|
    requires r in ws[n].files && ws[n].files[r].Record? && r !in ws[0].files
    ensures m < n && Origin(ws[m], ss[m], ts, args, ws[n].files[r]) && args.record == Some(r)
    decreases n
  {
    if n > 0 {
      RecordCame(ws, ss, ts, n, r);
      if Writes(ws[n - 1], ss[n - 1], r, ws[n].files[r]) {
        m := AnsweredHasOrigin(ws, ss, ts, n - 1, ss[n - 1].pid);
        args := ws[n - 1].procs[ss[n - 1].pid].args;
      } else {
        m, args := RecordHasOrigin(ws, ss, ts, n - 1, r);
      }
    }
  }

  /** In every run a process that writes its result leaves a complete record of its
      transaction behind and is finished. */
  lemma WrittenIsRecorded(ws: seq<World>, ss: seq<Step>, ts: seq<Target>, n: nat, r: Path) returns (m: nat)
    requires IsRun(ws, ss, ts) && Distinct(ts) && n < |ss| && ss[n].Write?
    requires ss[n].pid in ws[n].procs && ws[n].procs[ss[n].pid].Answered?
    requires ws[n].procs[ss[n].pid].args.record == Some(r)
    ensures m < n && r in ws[n + 1].files
    ensures Origin(ws[m], ss[m], ts, ws[n].procs[ss[n].pid].args, ws[n + 1].files[r])
    ensures ss[n].pid in ws[n + 1].procs && ws[n + 1].procs[ss[n].pid].Finished?
  {
    assert NextAt(ws, ss, ts, n);
    m := AnsweredHasOrigin(ws, ss, ts, n, ss[n].pid);
  }

  // ------------------------------------------------------------------ admission

  ghost predicate IsRecordOf(files: map<Path, Content>, p: Option<Path>, plan: bool) {
    && p.Some? && p.value in files && files[p.value].Record?
    && (if plan then files[p.value].mode.PlanMode? else files[p.value].mode.ApplyMode?)
  }

  /** Who is admitted: a mutation names a record, a record is a new file, a baseline
      is a complete plan, apply has one, and rollback has the complete receipt of an
      apply that created something. It expects the digest of the baseline, and rolls
      back the ids of the receipt. */
  lemma AdmitExactly(files: map<Path, Content>, args: Args)
    ensures Admit(files, args).Some? <==>
              && (args.mode.Mutates() ==> args.record.Some?)
              && (args.record.Some? ==> args.record.value !in files)
              && (args.baseline.Some? ==> IsRecordOf(files, args.baseline, true))
              && (args.mode.ApplyMode? ==> args.baseline.Some?)
              && (args.mode.RollbackMode? ==>
                    IsRecordOf(files, args.receipt, false) && files[args.receipt.value].created != [])
    ensures Admit(files, args).Some? ==>
              Admit(files, args).value ==
              Admitted(args, if args.baseline.Some? then Some(files[args.baseline.value].digest) else None,
                       if args.mode.RollbackMode? then files[args.receipt.value].created else [])
  {}

  /** A torn write leaves the record unreadable, and nobody is admitted with it. */
  lemma TornIsRefused(w: World, pid: Pid, r: Path, args: Args)
    requires pid in w.procs && w.procs[pid].Answered? && w.procs[pid].args.record == Some(r)
    ensures var files := TearStep(w, pid).files;
            && r in files && files[r].Torn?
            && (args.baseline == Some(r) ==> Admit(files, args).None?)
            && (args.receipt == Some(r) && args.mode.RollbackMode? ==> Admit(files, args).None?)
  {
    AdmitExactly(TearStep(w, pid).files, args);
  }

  // ------------------------------------------------------- the plan behind an apply

  /** What a process expects is the digest of the plan record it was given, and an
      apply was given one. */
  ghost predicate ExpectsPlan(p: Proc, files: map<Path, Content>) {
    p.Admitted? || p.Reserved? ==>
      && (p.args.baseline.None? ==> p.expected.None?)
      && (p.args.baseline.Some? ==>
            && p.args.baseline.value in files && files[p.args.baseline.value].Record?
            && files[p.args.baseline.value].mode.PlanMode?
            && p.expected == Some(files[p.args.baseline.value].digest))
      && (p.args.mode.ApplyMode? ==> p.expected.Some?)
  }

  /** What a process is given it is given when it starts. */
  lemma ArgsStep(w: World, w': World, s: Step, ts: seq<Target>, pid: Pid)
    requires Next(w, w', s, ts) && pid in w.procs && pid in w'.procs && (w'.procs[pid].Admitted? || w'.procs[pid].Reserved?)
    ensures w.procs[pid].Admitted? || w.procs[pid].Reserved?
    ensures w'.procs[pid].args == w.procs[pid].args && w'.procs[pid].expected == w.procs[pid].expected
  {}

  lemma StartExpects(w: World, w': World, s: Step, ts: seq<Target>, pid: Pid)
    requires Next(w, w', s, ts) && pid !in w.procs && pid in w'.procs
    ensures ExpectsPlan(w'.procs[pid], w'.files)
  {}

  lemma ExpectsStep(w: World, w': World, s: Step, ts: seq<Target>, pid: Pid)
    requires Inv(w, ts) && Next(w, w', s, ts) && pid in w.procs && pid in w'.procs
    requires ExpectsPlan(w.procs[pid], w.files)
    ensures ExpectsPlan(w'.procs[pid], w'.files)
  {
    if w'.procs[pid].Admitted? || w'.procs[pid].Reserved? {
      ArgsStep(w, w', s, ts, pid);
      if w.procs[pid].args.baseline.Some? {
        NextKeepsRecords(w, w', s, ts, w.procs[pid].args.baseline.value);
      }
    }
  }

  lemma ExpectsCame(ws: seq<World>, ss: seq<Step>, ts: seq<Target>, n: nat, pid: Pid)
    requires IsRun(ws, ss, ts) && Distinct(ts) && 0 < n < |ws| && pid in ws[n].procs
    requires pid in ws[n - 1].procs ==> ExpectsPlan(ws[n - 1].procs[pid], ws[n - 1].files)
    ensures ExpectsPlan(ws[n].procs[pid], ws[n].files)
  {
    RunStep(ws, ss, ts, n);
    if pid in ws[n - 1].procs {
      ExpectsStep(ws[n - 1], ws[n], ss[n - 1], ts, pid);
    } else {
      StartExpects(ws[n - 1], ws[n], ss[n - 1], ts, pid);
    }
  }

  lemma {:induction false} ExpectedIsPlanned(ws: seq<World>, ss: seq<Step>, ts: seq<Target>, n: nat, pid: Pid)
    requires IsRun(ws, ss, ts) && Distinct(ts) && n < |ws| && pid in ws[n].procs
    ensures ExpectsPlan(ws[n].procs[pid], ws[n].files)
    decreases n
  {
    NobodyYet(ws, ss, ts, n, pid);
    if pid in ws[n - 1].procs {
      ExpectedIsPlanned(ws, ss, ts, n - 1, pid);
    }
    ExpectsCame(ws, ss, ts, n, pid);
  }

  /** In every run an apply that reaches the database, given a plan of this run,
      commits exactly when every source still looks as that plan met it and every
      target is plannable now. */
  lemma ApplyFollowsPlan(ws: seq<World>, ss: seq<Step>, ts: seq<Target>, n: nat, pid: Pid, now: int) returns (m: nat)
    requires IsRun(ws, ss, ts) && Distinct(ts) && n < |ws|
    requires pid in ws[n].procs && ws[n].procs[pid].Reserved? && ws[n].procs[pid].args.mode.ApplyMode?
    requires ws[n].procs[pid].args.baseline.Some? ==> ws[n].procs[pid].args.baseline.value !in ws[0].files
    ensures m < n && ss[m].Transact? && ss[m].pid in ws[m].procs && ws[m].procs[ss[m].pid].Reserved?
    ensures ws[m].procs[ss[m].pid].args.mode.PlanMode? && OutcomeOf(ws[m], ss[m].pid, ts, ss[m].now).Commit?
    ensures OutcomeOf(ws[n], pid, ts, now).Commit? <==>
            SourcesAgree(ws[m].db, ws[n].db, ts) && forall t :: t in ts ==> Plannable(ws[n].db, t, now)
  {
    ExpectedIsPlanned(ws, ss, ts, n, pid);
    var b := ws[n].procs[pid].args.baseline.value;
    var args;
    m, args := RecordHasOrigin(ws, ss, ts, n, b);
    DatabaseInOrder(ws, ss, ts, n);
    ApplyAgainstPlan(ws[m].db, ws[n].db, ts, now);
  }

  lemma DatabaseInOrder(ws: seq<World>, ss: seq<Step>, ts: seq<Target>, n: nat)
    requires IsRun(ws, ss, ts) && Distinct(ts) && n < |ws|
    ensures Valid(ws[n].db)
  {
    RunKeeps(ws, ss, ts, n);
  }

  /** A checked target has exactly one live group. */
  lemma CheckedHasOne(db: Db, t: Target, now: int) returns (d: nat)
    requires Checked(db, t, now)
    ensures OnlyLive(db, d, t.marker) && LiveIds(db, t.marker) == {d}
  {
    d :| OnlyLive(db, d, t.marker) && CloneOf(db.groups[d], db.groups[t.source], t) && SameBindings(db, t.source, d);
    LiveIdsExactly(db, t.marker, d);
  }

  lemma CheckOriginHeld(w: World, s: Step, ts: seq<Target>, args: Args, result: Content)
    requires Valid(w.db) && Origin(w, s, ts, args, result) && args.mode.CheckMode?
    ensures forall t :: t in ts ==> Checked(w.db, t, s.now) && |LiveIds(w.db, t.marker)| == 1
  {
    var p := w.procs[s.pid];
    CheckCommitsExactly(w.db, ts, p.expected, p.ids, s.now);
    forall t | t in ts ensures |LiveIds(w.db, t.marker)| == 1 {
      var d := CheckedHasOne(w.db, t, s.now);
    }
  }

  /** In every run, when a check is answered, its database had for every target an
      eligible source and exactly one live group with the marker, a clone of it. */
  lemma AnsweredCheckHeld(ws: seq<World>, ss: seq<Step>, ts: seq<Target>, n: nat, pid: Pid) returns (m: nat)
    requires IsRun(ws, ss, ts) && Distinct(ts) && n < |ws|
    requires pid in ws[n].procs && ws[n].procs[pid].Answered? && ws[n].procs[pid].args.mode.CheckMode?
    ensures m < n && ss[m].Transact?
    ensures forall t :: t in ts ==> Checked(ws[m].db, t, ss[m].now) && |LiveIds(ws[m].db, t.marker)| == 1
  {
    m := AnsweredHasOrigin(ws, ss, ts, n, pid);
    DatabaseInOrder(ws, ss, ts, m);
    CheckOriginHeld(ws[m], ss[m], ts, ws[n].procs[pid].args, ws[n].procs[pid].result);
  }
}
