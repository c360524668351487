/** Runs of any number of operators, one process each, over one database and one
    file system: admission of the arguments, exclusive reservation of the record,
    the transaction, the write of the result, a crash between any two steps, and
    a database that other writers change meanwhile
    (deploy/configure_official_cloud_routes.py:123-124, 208-271).
    The table locks make a mutating transaction one atomic step for every table
    but the outbox; what other sessions do to that one meanwhile is part of the
    step. */
module RouteRuns {
  import opened Wrappers
  import opened RouteTables
  import opened RouteTransactions
  import opened RouteApply
  import opened RouteRollback
  import opened RouteDelivery

  type Path = string
  type Pid = nat

  datatype Mode = PlanMode | CheckMode | ApplyMode | RollbackMode {
    predicate Mutates() {
      ApplyMode? || RollbackMode?
    }
  }

  /** A record file: reserved, torn by an interrupted write (and so not
      readable as JSON), or a complete result. */
  datatype Content = Pending | Torn | Record(mode: Mode, digest: Snapshot, created: seq<nat>)

  datatype Args = Args(mode: Mode, record: Option<Path>, baseline: Option<Path>, receipt: Option<Path>)

  datatype Proc =
    | Admitted(args: Args, expected: Option<Snapshot>, ids: seq<nat>)
    | Reserved(args: Args, expected: Option<Snapshot>, ids: seq<nat>)
    | Answered(args: Args, result: Content)
    | Finished
    | Failed

  /** A committed mutation. */
  datatype Entry = Entry(mode: Mode, record: Path, created: seq<nat>)

  datatype World = World(db: Db, files: map<Path, Content>, procs: map<Pid, Proc>, log: seq<Entry>)

  // -------------------------------------------------------------------- steps

  function ReadFile(files: map<Path, Content>, p: Path): Option<Content> {
    if p in files then Some(files[p]) else None
  }

  /** What main establishes before it touches anything. */
  function Admit(files: map<Path, Content>, args: Args): Option<Proc> {
    if args.mode.Mutates() && args.record.None? then None
    else if args.record.Some? && args.record.value in files then None
    else
      match Expected(files, args)
      case None => None
      case Some(expected) =>
        if args.mode.ApplyMode? && expected.None? then None
        else if !args.mode.RollbackMode? then Some(Admitted(args, expected, []))
        else if args.receipt.None? then None
        else
          match ReadFile(files, args.receipt.value)
          case Some(Record(mode, _, created)) =>
            if mode.ApplyMode? && created != [] then Some(Admitted(args, expected, created)) else None
          case _ => None
  }

  /** The digest of --baseline: None when the file is no plan record, Some(None)
      when no baseline was asked for. */
  function Expected(files: map<Path, Content>, args: Args): Option<Option<Snapshot>> {
    if args.baseline.None? then Some(None)
    else
      match ReadFile(files, args.baseline.value)
      case Some(Record(mode, digest, _)) => if mode.PlanMode? then Some(Some(digest)) else None
      case _ => None
  }

  function Transaction(db: Db, ts: seq<Target>, mode: Mode, expected: Option<Snapshot>, ids: seq<nat>, now: int): Outcome {
    match mode
    case PlanMode => Inspect(db, ts, expected, now, true)
    case CheckMode => Inspect(db, ts, expected, now, false)
    case ApplyMode => if expected.None? then Abort else Apply(db, ts, expected.value, now)
    case RollbackMode => Rollback(db, ts, expected, ids, now)
  }

  datatype Step =
    | Start(pid: Pid, args: Args)
    | Reserve(pid: Pid)
    | Transact(pid: Pid, now: int, others: RouteOutbox.Others)
    | Tear(pid: Pid)
    | Write(pid: Pid)
    | Crash(pid: Pid)
    | Environment(db: Db)

  /** No group goes away or changes its name or marker. */
  ghost predicate NamesKept(db: Db, after: Db) {
    forall g :: g in db.groups ==>
      && g in after.groups
      && Col(after.groups[g], Name) == Col(db.groups[g], Name)
      && Col(after.groups[g], DuplicateOperationId) == Col(db.groups[g], DuplicateOperationId)
  }

  /** What other writers may do: anything to any table, except rename, remark or
      physically delete a group, or break the indexes and foreign keys. The
      outbox may be drained, clones soft-deleted, accounts expire. */
  ghost predicate Rely(db: Db, after: Db) {
    Valid(after) && NamesKept(db, after)
  }

  /** Arguments and input files are read and checked. */
  function StartStep(w: World, pid: Pid, args: Args): World {
    w.(procs := w.procs[pid := match Admit(w.files, args) case None => Failed case Some(p) => p])
  }

  /** The record is created with O_EXCL, reading pending. */
  function ReserveStep(w: World, pid: Pid): World
    requires pid in w.procs && w.procs[pid].Admitted?
  {
    var p := w.procs[pid];
    if p.args.record.None? then
      w.(procs := w.procs[pid := Reserved(p.args, p.expected, p.ids)])
    else if p.args.record.value in w.files then
      w.(procs := w.procs[pid := Failed])
    else
      w.(files := w.files[p.args.record.value := Pending],
         procs := w.procs[pid := Reserved(p.args, p.expected, p.ids)])
  }

  /** What process `pid` asks of the database. */
  function OutcomeOf(w: World, pid: Pid, ts: seq<Target>, now: int): Outcome
    requires pid in w.procs && w.procs[pid].Reserved?
  {
    var p := w.procs[pid];
    Transaction(w.db, ts, p.args.mode, p.expected, p.ids, now)
  }

  /** The transaction commits, among the outbox rows of other sessions, or aborts. */
  function TransactStep(w: World, pid: Pid, ts: seq<Target>, now: int, others: RouteOutbox.Others): World
    requires pid in w.procs && w.procs[pid].Reserved?
  {
    var p, r := w.procs[pid], OutcomeOf(w, pid, ts, now);
    if r.Abort? then w.(procs := w.procs[pid := Failed])
    else
      World(Committed(r, others), w.files,
            w.procs[pid := Answered(p.args, Record(p.args.mode, SnapshotOf(r.db, ts), r.created))],
            if p.args.mode.Mutates() && p.args.record.Some?
            then w.log + [Entry(p.args.mode, p.args.record.value, r.created)] else w.log)
  }

  /** What other sessions do to the outbox keeps its index and names no group
      before it is allotted. */
  ghost predicate OthersOk(db: Db, r: Outcome, others: RouteOutbox.Others) {
    r.Commit? ==> RouteOutbox.Concurrent(others, r.events, db.nextGroupId)
  }

  /** The write of the result is caught half-way. */
  function TearStep(w: World, pid: Pid): World
    requires pid in w.procs && w.procs[pid].Answered?
  {
    var p := w.procs[pid];
    if p.args.record.None? then w else w.(files := w.files[p.args.record.value := Torn])
  }

  function WriteStep(w: World, pid: Pid): World
    requires pid in w.procs && w.procs[pid].Answered?
  {
    var p := w.procs[pid];
    World(w.db, if p.args.record.None? then w.files else w.files[p.args.record.value := p.result],
          w.procs[pid := Finished], w.log)
  }

  ghost predicate Next(w: World, w': World, s: Step, ts: seq<Target>) {
    match s
    case Start(pid, args) => pid !in w.procs && w' == StartStep(w, pid, args)
    case Reserve(pid) => pid in w.procs && w.procs[pid].Admitted? && w' == ReserveStep(w, pid)
    case Transact(pid, now, others) =>
      && pid in w.procs && w.procs[pid].Reserved?
      && OthersOk(w.db, OutcomeOf(w, pid, ts, now), others)
      && w' == TransactStep(w, pid, ts, now, others)
    case Tear(pid) => pid in w.procs && w.procs[pid].Answered? && w' == TearStep(w, pid)
    case Write(pid) => pid in w.procs && w.procs[pid].Answered? && w' == WriteStep(w, pid)
    case Crash(pid) => pid in w.procs && w' == w.(procs := w.procs[pid := Failed])
    case Environment(db) => Rely(w.db, db) && w' == w.(db := db)
  }

  // ---------------------------------------------------------------- invariant

  /** All groups any committed apply reported, in order. */
  function AllCreated(log: seq<Entry>): seq<nat> {
    if log == [] then []
    else AllCreated(log[..|log| - 1]) + (if log[|log| - 1].mode.ApplyMode? then log[|log| - 1].created else [])
  }

  ghost predicate NamedByTarget(db: Db, g: nat, ts: seq<Target>) {
    g in db.groups && exists t :: t in ts && Col(db.groups[g], Name) == Text(t.name)
  }

  /** Each reported group exists, is no source, and bears the name of a target;
      none is reported twice; no two bear the same name. */
  ghost predicate CreatedOk(db: Db, ids: seq<nat>, ts: seq<Target>) {
    && NoDuplicates(ids)
    && (forall g :: g in ids ==> g !in Sources(ts) && NamedByTarget(db, g, ts))
    && (forall g, h :: (g in ids && h in ids && g != h && g in db.groups && h in db.groups)
                       ==> Col(db.groups[g], Name) != Col(db.groups[h], Name))
  }

  ghost predicate Logged(log: seq<Entry>, mode: Mode, record: Path, created: seq<nat>) {
    Entry(mode, record, created) in log
  }

  ghost predicate Genuine(log: seq<Entry>, ids: seq<nat>) {
    ids != [] && exists r :: Logged(log, ApplyMode, r, ids)
  }

  ghost predicate ArgsOk(args: Args, ids: seq<nat>, log: seq<Entry>) {
    && (args.mode.Mutates() ==> args.record.Some?)
    && (args.mode.RollbackMode? ==> Genuine(log, ids))
  }

  ghost predicate Unwritten(files: map<Path, Content>, args: Args) {
    args.record.Some? ==> args.record.value in files && !files[args.record.value].Record?
  }

  ghost predicate ProcOk(p: Proc, files: map<Path, Content>, log: seq<Entry>) {
    match p
    case Admitted(args, expected, ids) => ArgsOk(args, ids, log)
    case Reserved(args, expected, ids) => ArgsOk(args, ids, log) && Unwritten(files, args)
    case Answered(args, result) =>
      && Unwritten(files, args)
      && result.Record? && result.mode == args.mode
      && (args.mode.Mutates() ==> args.record.Some? && Logged(log, args.mode, args.record.value, result.created))
    case Finished => true
    case Failed => true
  }

  ghost predicate Owns(p: Proc, r: Path) {
    (p.Reserved? || p.Answered?) && p.args.record == Some(r)
  }

  /** A record has at most one process that may still write it. */
  ghost predicate OwnersOk(procs: map<Pid, Proc>) {
    forall i, j, r :: i in procs && j in procs && Owns(procs[i], r) && Owns(procs[j], r) ==> i == j
  }

  ghost predicate FilesOk(files: map<Path, Content>, log: seq<Entry>) {
    forall r :: r in files && files[r].Record? && files[r].mode.Mutates() ==>
      Logged(log, files[r].mode, r, files[r].created)
  }

  ghost predicate LogOk(files: map<Path, Content>, log: seq<Entry>) {
    forall e :: e in log ==> e.record in files
  }

  ghost predicate Inv(w: World, ts: seq<Target>) {
    && Valid(w.db)
    && CreatedOk(w.db, AllCreated(w.log), ts)
    && (forall i :: i in w.procs ==> ProcOk(w.procs[i], w.files, w.log))
    && OwnersOk(w.procs)
    && FilesOk(w.files, w.log)
    && LogOk(w.files, w.log)
  }

  /** A fresh start: no process, and no record of an earlier mutation. */
  ghost predicate Init(w: World) {
    && Valid(w.db)
    && w.procs == map[] && w.log == []
    && forall r :: r in w.files && w.files[r].Record? ==> !w.files[r].mode.Mutates()
  }

  // ------------------------------------------------------------ preservation

  lemma InitOk(w: World, ts: seq<Target>)
    requires Init(w)
    ensures Inv(w, ts)
  {}

  lemma {:induction false} CreatedInLog(log: seq<Entry>, g: nat, e: Entry)
    requires e in log && e.mode.ApplyMode? && g in e.created
    ensures g in AllCreated(log)
    decreases |log|
  {
    var rest, last := log[..|log| - 1], log[|log| - 1];
    if last != e {
      assert log == rest + [last];
      CreatedInLog(rest, g, e);
    }
  }

  lemma NameKept(db: Db, after: Db, g: nat, ts: seq<Target>)
    requires NamedByTarget(db, g, ts) && Rely(db, after)
    ensures NamedByTarget(after, g, ts)
  {
    var t :| t in ts && Col(db.groups[g], Name) == Text(t.name);
    assert Col(after.groups[g], Name) == Text(t.name);
  }

  /** Created groups stay accounted for whatever other writers do. */
  lemma CreatedKept(db: Db, after: Db, ids: seq<nat>, ts: seq<Target>)
    requires CreatedOk(db, ids, ts) && Rely(db, after)
    ensures CreatedOk(after, ids, ts)
  {
    forall g | g in ids ensures NamedByTarget(after, g, ts) {
      NameKept(db, after, g, ts);
    }
  }

  lemma RollbackKeepsNames(db: Db, after: Db, ids: seq<nat>, now: int)
    requires RowsDisabled(db, after, ids, now)
    ensures NamesKept(db, after)
  {
    forall g | g in db.groups
      ensures g in after.groups
      ensures Col(after.groups[g], Name) == Col(db.groups[g], Name)
      ensures Col(after.groups[g], DuplicateOperationId) == Col(db.groups[g], DuplicateOperationId)
    {
      if Hit(db, ids, g) {
        DisabledKeeps(db.groups[g], after.groups[g], now);
      }
    }
  }

  /** A group an apply has just created, seen against the groups before it. */
  ghost predicate NewlyNamed(db: Db, after: Db, g: nat, ts: seq<Target>) {
    && NamedByTarget(after, g, ts)
    && forall h :: h in db.groups ==> Col(db.groups[h], Name) != Col(after.groups[g], Name)
  }

  lemma FreshIsNewlyNamed(db: Db, after: Db, g: nat, ts: seq<Target>)
    requires FreshClone(db, after, g, ts)
    ensures NewlyNamed(db, after, g, ts)
  {
    var t :| t in ts && ClonedFor(after.groups[g], t) && !NameTaken(db, t.name);
  }

  lemma JoinCreated(db: Db, after: Db, before: seq<nat>, ids: seq<nat>, ts: seq<Target>)
    requires CreatedOk(after, before, ts) && NoDuplicates(ids)
    requires GroupsGrew(db.groups, after.groups, ids)
    requires forall g :: g in before ==> g in db.groups
    requires forall g :: g in ids ==> g !in Sources(ts) && NewlyNamed(db, after, g, ts)
    requires forall g, h :: (g in ids && h in ids && g in after.groups && h in after.groups && g != h)
                            ==> Col(after.groups[g], Name) != Col(after.groups[h], Name)
    ensures CreatedOk(after, before + ids, ts)
  {
    var all := before + ids;
    assert forall g :: g in all <==> g in before || g in ids;
    forall i, j | 0 <= i < j < |all| ensures all[i] != all[j] {
      if i < |before| && j >= |before| {
        assert all[i] in before && all[j] in ids;
      }
    }
  }

  /** The groups an apply creates join the ones reported before. */
  lemma CreatedGrows(db: Db, ts: seq<Target>, expected: Snapshot, now: int, before: seq<nat>)
    requires Valid(db) && Distinct(ts) && CreatedOk(db, before, ts)
    requires Apply(db, ts, expected, now).Commit?
    ensures var r := Apply(db, ts, expected, now);
            NamesKept(db, r.db) && CreatedOk(r.db, before + r.created, ts)
  {
    ApplyEffect(db, ts, expected, now);
    CreatedAreNotSources(db, ts, expected, now);
    var after, ids := Apply(db, ts, expected, now).db, Apply(db, ts, expected, now).created;
    CreatedKept(db, after, before, ts);
    forall g | g in ids ensures NewlyNamed(db, after, g, ts) {
      FreshIsNewlyNamed(db, after, g, ts);
    }
    JoinCreated(db, after, before, ids, ts);
  }

  // ------------------------------------------------------------- one step each

  lemma LogGrows(log: seq<Entry>, e: Entry)
    ensures AllCreated(log + [e]) == AllCreated(log) + (if e.mode.ApplyMode? then e.created else [])
  {
    assert (log + [e])[..|log|] == log;
  }

  ghost predicate Includes(log: seq<Entry>, longer: seq<Entry>) {
    forall e :: e in log ==> e in longer
  }

  ghost predicate ProcsOk(w: World) {
    forall i :: i in w.procs ==> ProcOk(w.procs[i], w.files, w.log)
  }

  /** A process is untouched by a step that leaves its record unwritten. */
  lemma BystanderOk(p: Proc, files: map<Path, Content>, log: seq<Entry>, files': map<Path, Content>, log': seq<Entry>)
    requires ProcOk(p, files, log) && Includes(log, log')
    requires forall r :: Owns(p, r) ==> r in files' && !files'[r].Record?
    ensures ProcOk(p, files', log')
  {
    if (p.Reserved? || p.Answered?) && p.args.record.Some? {
      assert Owns(p, p.args.record.value);
    }
    if !p.Answered? && !p.Finished? && !p.Failed? && p.args.mode.RollbackMode? {
      var r :| Logged(log, ApplyMode, r, p.ids);
      assert Logged(log', ApplyMode, r, p.ids);
    }
  }

  /** A step of `pid` that touches no file but its own record keeps every
      process in order if it keeps `pid` itself in order. */
  lemma StepKeepsProcs(w: World, w': World, pid: Pid, ts: seq<Target>)
    requires Inv(w, ts) && Includes(w.log, w'.log)
    requires w'.procs.Keys == w.procs.Keys + {pid}
    requires forall i :: i in w.procs && i != pid ==> w'.procs[i] == w.procs[i]
    requires forall r :: r in w.files ==>
      r in w'.files && (w'.files[r] == w.files[r] || (pid in w.procs && Owns(w.procs[pid], r)))
    requires ProcOk(w'.procs[pid], w'.files, w'.log)
    ensures ProcsOk(w')
  {
    forall i | i in w'.procs ensures ProcOk(w'.procs[i], w'.files, w'.log) {
      if i != pid {
        var p := w.procs[i];
        forall r | Owns(p, r) ensures r in w'.files && !w'.files[r].Record? {
          assert Unwritten(w.files, p.args);
          assert w'.files[r] != w.files[r] ==> i == pid;
        }
        BystanderOk(p, w.files, w.log, w'.files, w'.log);
      }
    }
  }

  lemma StartKeeps(w: World, pid: Pid, args: Args, ts: seq<Target>)
    requires Inv(w, ts) && pid !in w.procs
    ensures Inv(StartStep(w, pid, args), ts)
  {
    StepKeepsProcs(w, StartStep(w, pid, args), pid, ts);
  }

  lemma ReserveKeeps(w: World, pid: Pid, ts: seq<Target>)
    requires Inv(w, ts) && pid in w.procs && w.procs[pid].Admitted?
    ensures Inv(ReserveStep(w, pid), ts)
  {
    StepKeepsProcs(w, ReserveStep(w, pid), pid, ts);
    ReserveOwners(w, pid, ts);
  }

  /** O_EXCL: nobody owned the path before. */
  lemma ReserveOwners(w: World, pid: Pid, ts: seq<Target>)
    requires Inv(w, ts) && pid in w.procs && w.procs[pid].Admitted?
    ensures OwnersOk(ReserveStep(w, pid).procs)
  {
    forall i, r | i in w.procs && Owns(w.procs[i], r) ensures r in w.files {
      assert Unwritten(w.files, w.procs[i].args);
    }
  }

  lemma TearKeeps(w: World, pid: Pid, ts: seq<Target>)
    requires Inv(w, ts) && pid in w.procs && w.procs[pid].Answered?
    ensures Inv(TearStep(w, pid), ts)
  {
    StepKeepsProcs(w, TearStep(w, pid), pid, ts);
  }

  lemma WriteKeeps(w: World, pid: Pid, ts: seq<Target>)
    requires Inv(w, ts) && pid in w.procs && w.procs[pid].Answered?
    ensures Inv(WriteStep(w, pid), ts)
  {
    StepKeepsProcs(w, WriteStep(w, pid), pid, ts);
  }

  lemma CrashKeeps(w: World, pid: Pid, ts: seq<Target>)
    requires Inv(w, ts) && pid in w.procs
    ensures Inv(w.(procs := w.procs[pid := Failed]), ts)
  {
    StepKeepsProcs(w, w.(procs := w.procs[pid := Failed]), pid, ts);
  }

  /** What any committed transaction does to the tables, seen by the others. */
  lemma TransactionEffect(db: Db, ts: seq<Target>, mode: Mode, expected: Option<Snapshot>, ids: seq<nat>, now: int,
                          before: seq<nat>)
    requires Valid(db) && Distinct(ts) && CreatedOk(db, before, ts)
    requires Transaction(db, ts, mode, expected, ids, now).Commit?
    ensures var r := Transaction(db, ts, mode, expected, ids, now);
            NamesKept(db, r.db) && CreatedOk(r.db, before + (if mode.ApplyMode? then r.created else []), ts)
  {
    var r := Transaction(db, ts, mode, expected, ids, now);
    assert before + [] == before;
    if mode.ApplyMode? {
      CreatedGrows(db, ts, expected.value, now, before);
    } else {
      if mode.RollbackMode? {
        RollbackCommitsExactly(db, ts, expected, ids, now);
        RollbackKeepsNames(db, r.db, ids, now);
      }
      CreatedKept(db, r.db, before, ts);
    }
  }

  /** And what it leaves in the outbox keeps the database in order. */
  lemma TransactionValid(db: Db, ts: seq<Target>, mode: Mode, expected: Option<Snapshot>, ids: seq<nat>, now: int,
                         others: RouteOutbox.Others)
    requires Valid(db) && Distinct(ts)
    requires Transaction(db, ts, mode, expected, ids, now).Commit?
    requires OthersOk(db, Transaction(db, ts, mode, expected, ids, now), others)
    ensures Valid(Committed(Transaction(db, ts, mode, expected, ids, now), others))
  {
    match mode
    case ApplyMode => ApplyDelivers(db, ts, expected.value, now, others);
    case RollbackMode => RollbackDelivers(db, ts, expected, ids, now, others);
    case _ => RouteOutbox.FinalIsOrderly(others, [], db.nextGroupId, db.nextGroupId);
  }

  lemma OutboxIsNotReported(r: Outcome, others: RouteOutbox.Others, ids: seq<nat>, ts: seq<Target>)
    requires r.Commit? && CreatedOk(r.db, ids, ts)
    ensures CreatedOk(Committed(r, others), ids, ts)
  {
    var after := Committed(r, others);
    forall g | g in ids ensures NamedByTarget(after, g, ts) {
      assert NamedByTarget(r.db, g, ts);
    }
  }

  lemma TransactDb(w: World, pid: Pid, ts: seq<Target>, now: int, others: RouteOutbox.Others)
    requires Inv(w, ts) && Distinct(ts) && pid in w.procs && w.procs[pid].Reserved?
    requires OthersOk(w.db, OutcomeOf(w, pid, ts, now), others)
    ensures var w' := TransactStep(w, pid, ts, now, others);
            Rely(w.db, w'.db) && CreatedOk(w'.db, AllCreated(w'.log), ts)
  {
    var p, r := w.procs[pid], OutcomeOf(w, pid, ts, now);
    assert ArgsOk(p.args, p.ids, w.log);
    assert AllCreated(w.log) + [] == AllCreated(w.log);
    if r.Commit? {
      var ids := AllCreated(w.log) + if p.args.mode.ApplyMode? then r.created else [];
      TransactionEffect(w.db, ts, p.args.mode, p.expected, p.ids, now, AllCreated(w.log));
      TransactionValid(w.db, ts, p.args.mode, p.expected, p.ids, now, others);
      OutboxIsNotReported(r, others, ids, ts);
      if p.args.mode.Mutates() {
        LogGrows(w.log, Entry(p.args.mode, p.args.record.value, r.created));
      }
    }
  }

  lemma TransactLog(w: World, pid: Pid, ts: seq<Target>, now: int, others: RouteOutbox.Others)
    requires Inv(w, ts) && pid in w.procs && w.procs[pid].Reserved?
    ensures var w' := TransactStep(w, pid, ts, now, others);
            Includes(w.log, w'.log) && LogOk(w'.files, w'.log) && FilesOk(w'.files, w'.log)
            && ProcOk(w'.procs[pid], w'.files, w'.log)
  {
    assert ProcOk(w.procs[pid], w.files, w.log);
  }

  lemma TransactKeeps(w: World, pid: Pid, ts: seq<Target>, now: int, others: RouteOutbox.Others)
    requires Inv(w, ts) && Distinct(ts) && pid in w.procs && w.procs[pid].Reserved?
    requires OthersOk(w.db, OutcomeOf(w, pid, ts, now), others)
    ensures Inv(TransactStep(w, pid, ts, now, others), ts)
  {
    TransactDb(w, pid, ts, now, others);
    TransactLog(w, pid, ts, now, others);
    StepKeepsProcs(w, TransactStep(w, pid, ts, now, others), pid, ts);
  }

  lemma NextKeeps(w: World, w': World, s: Step, ts: seq<Target>)
    requires Inv(w, ts) && Distinct(ts) && Next(w, w', s, ts)
    ensures Inv(w', ts)
  {
    match s
    case Start(pid, args) => StartKeeps(w, pid, args, ts);
    case Reserve(pid) => ReserveKeeps(w, pid, ts);
    case Transact(pid, now, others) => TransactKeeps(w, pid, ts, now, others);
    case Tear(pid) => TearKeeps(w, pid, ts);
    case Write(pid) => WriteKeeps(w, pid, ts);
    case Crash(pid) => CrashKeeps(w, pid, ts);
    case Environment(db) => CreatedKept(w.db, db, AllCreated(w.log), ts);
  }

  // --------------------------------------------------------------------- runs

  ghost predicate IsRun(ws: seq<World>, ss: seq<Step>, ts: seq<Target>) {
    && |ws| == |ss| + 1
    && Init(ws[0])
    && forall i :: 0 <= i < |ss| ==> NextAt(ws, ss, ts, i)
  }

  ghost predicate NextAt(ws: seq<World>, ss: seq<Step>, ts: seq<Target>, i: nat) {
    i < |ss| && i + 1 < |ws| && Next(ws[i], ws[i + 1], ss[i], ts)
  }

  lemma {:induction false} RunKeeps(ws: seq<World>, ss: seq<Step>, ts: seq<Target>, n: nat)
    requires IsRun(ws, ss, ts) && Distinct(ts) && n < |ws|
    ensures Inv(ws[n], ts)
    decreases n
  {
    if n == 0 {
      InitOk(ws[0], ts);
    } else {
      RunKeeps(ws, ss, ts, n - 1);
      assert NextAt(ws, ss, ts, n - 1);
      NextKeeps(ws[n - 1], ws[n], ss[n - 1], ts);
    }
  }

  /** In every run, whatever else happens to the database: no group is reported
      as created twice, no two reported groups were created for one target, and
      at most one live group carries each marker. */
  lemma EachTargetCreatedOnce(ws: seq<World>, ss: seq<Step>, ts: seq<Target>, n: nat)
    requires IsRun(ws, ss, ts) && Distinct(ts) && n < |ws|
    ensures var db, ids := ws[n].db, AllCreated(ws[n].log);
            && NoDuplicates(ids)
            && (forall g :: g in ids ==> NamedByTarget(db, g, ts))
            && (forall g, h, t: Target :: (g in ids && h in ids && g in db.groups && h in db.groups &&
                  Col(db.groups[g], Name) == Text(t.name) && Col(db.groups[h], Name) == Text(t.name)) ==> g == h)
            && MarkersOk(db)
  {
    RunKeeps(ws, ss, ts, n);
  }

  /** In every run: a committed mutation has its record file; a complete record
      of a mutation tells the truth about one; and a rollback runs on the
      non-empty list of ids of a committed apply. */
  lemma RecordsAreTruthful(ws: seq<World>, ss: seq<Step>, ts: seq<Target>, n: nat)
    requires IsRun(ws, ss, ts) && Distinct(ts) && n < |ws|
    ensures forall e :: e in ws[n].log ==> e.record in ws[n].files
    ensures forall r :: r in ws[n].files && ws[n].files[r].Record? && ws[n].files[r].mode.Mutates() ==>
              Entry(ws[n].files[r].mode, r, ws[n].files[r].created) in ws[n].log
    ensures forall i :: i in ws[n].procs && ws[n].procs[i].Reserved? && ws[n].procs[i].args.mode.RollbackMode? ==>
              Genuine(ws[n].log, ws[n].procs[i].ids)
  {
    RunKeeps(ws, ss, ts, n);
    forall i | i in ws[n].procs && ws[n].procs[i].Reserved? && ws[n].procs[i].args.mode.RollbackMode?
      ensures Genuine(ws[n].log, ws[n].procs[i].ids)
    {
      assert ProcOk(ws[n].procs[i], ws[n].files, ws[n].log);
    }
  }

  lemma RunStep(ws: seq<World>, ss: seq<Step>, ts: seq<Target>, n: nat)
    requires IsRun(ws, ss, ts) && Distinct(ts) && 0 < n < |ws|
    ensures Inv(ws[n - 1], ts) && Next(ws[n - 1], ws[n], ss[n - 1], ts)
  {
    RunKeeps(ws, ss, ts, n - 1);
    assert NextAt(ws, ss, ts, n - 1);
  }

  ghost predicate KeepsRecord(files: map<Path, Content>, files': map<Path, Content>, r: Path) {
    r in files ==> r in files' && (files[r].Record? ==> files'[r] == files[r])
  }

  lemma NextKeepsRecords(w: World, w': World, s: Step, ts: seq<Target>, r: Path)
    requires Inv(w, ts) && Next(w, w', s, ts)
    ensures KeepsRecord(w.files, w'.files, r)
  {
    match s
    case Tear(pid) => assert ProcOk(w.procs[pid], w.files, w.log);
    case Write(pid) => assert ProcOk(w.procs[pid], w.files, w.log);
    case _ =>
  }

  /** Evidence is never removed, and a complete record is never overwritten. */
  lemma {:induction false} RecordsArePermanent(ws: seq<World>, ss: seq<Step>, ts: seq<Target>, m: nat, n: nat, r: Path)
    requires IsRun(ws, ss, ts) && Distinct(ts) && m <= n < |ws|
    ensures KeepsRecord(ws[m].files, ws[n].files, r)
    decreases n
  {
    if m < n {
      RecordsArePermanent(ws, ss, ts, m, n - 1, r);
      RunStep(ws, ss, ts, n);
      NextKeepsRecords(ws[n - 1], ws[n], ss[n - 1], ts, r);
    }
  }

  // --------------------------------------------------------- left-over evidence

  /** A file no process may write any more: a complete record, or the pending or
      torn one of an operator that failed or crashed. */
  ghost predicate Orphan(w: World, r: Path) {
    r in w.files && forall i :: i in w.procs ==> !Owns(w.procs[i], r)
  }

  lemma NextKeepsOrphan(w: World, w': World, s: Step, ts: seq<Target>, r: Path)
    requires Inv(w, ts) && Next(w, w', s, ts) && Orphan(w, r)
    ensures Orphan(w', r) && w'.files[r] == w.files[r]
  {
    match s
    case Tear(pid) => assert !Owns(w.procs[pid], r);
    case Write(pid) => assert !Owns(w.procs[pid], r);
    case Reserve(pid) => assert w.procs[pid].args.record == Some(r) ==> w'.files == w.files;
    case _ =>
  }

  /** In every run, evidence that no process owns keeps its content to the end,
      whatever it reads: no operator ever overwrites an existing file. */
  lemma {:induction false} OrphansArePermanent(ws: seq<World>, ss: seq<Step>, ts: seq<Target>, m: nat, n: nat, r: Path)
    requires IsRun(ws, ss, ts) && Distinct(ts) && m <= n < |ws| && Orphan(ws[m], r)
    ensures Orphan(ws[n], r) && ws[n].files[r] == ws[m].files[r]
    decreases n
  {
    if m < n {
      OrphansArePermanent(ws, ss, ts, m, n - 1, r);
      RunStep(ws, ss, ts, n);
      NextKeepsOrphan(ws[n - 1], ws[n], ss[n - 1], ts, r);
    }
  }

  // ------------------------------------------------------- one entry for each group

  ghost predicate Reports(e: Entry, g: nat) {
    e.mode.ApplyMode? && g in e.created
  }

  /** Only apply adds groups, and it reports each of them. */
  lemma OnlyApplyAdds(db: Db, ts: seq<Target>, mode: Mode, expected: Option<Snapshot>, ids: seq<nat>, now: int, g: nat)
    requires Valid(db) && Distinct(ts)
    requires Transaction(db, ts, mode, expected, ids, now).Commit?
    requires g !in db.groups && g in Transaction(db, ts, mode, expected, ids, now).db.groups
    ensures mode.ApplyMode? && g in Transaction(db, ts, mode, expected, ids, now).created
  {
    if mode.ApplyMode? {
      ApplyEffect(db, ts, expected.value, now);
    } else if mode.RollbackMode? {
      RollbackCommitsExactly(db, ts, expected, ids, now);
    }
  }

  lemma ApplyAnnounces(db: Db, ts: seq<Target>, mode: Mode, expected: Option<Snapshot>, ids: seq<nat>, now: int,
                       others: RouteOutbox.Others, g: nat)
    requires Valid(db) && Distinct(ts) && mode.ApplyMode?
    requires Transaction(db, ts, mode, expected, ids, now).Commit?
    requires OthersOk(db, Transaction(db, ts, mode, expected, ids, now), others)
    requires g in Transaction(db, ts, mode, expected, ids, now).created
    ensures Changed(g) in Committed(Transaction(db, ts, mode, expected, ids, now), others).outbox
  {
    ApplyDelivers(db, ts, expected.value, now, others);
  }

  /** A group a transaction adds is reported in the entry it logs, and its
      group_changed event is pending when it commits. */
  lemma TransactReports(w: World, pid: Pid, ts: seq<Target>, now: int, others: RouteOutbox.Others, g: nat)
    requires Inv(w, ts) && Distinct(ts) && pid in w.procs && w.procs[pid].Reserved?
    requires OthersOk(w.db, OutcomeOf(w, pid, ts, now), others)
    requires g !in w.db.groups && g in TransactStep(w, pid, ts, now, others).db.groups
    ensures var w' := TransactStep(w, pid, ts, now, others);
            && (exists e :: w'.log == w.log + [e] && Reports(e, g))
            && Changed(g) in w'.db.outbox
  {
    var p, r := w.procs[pid], OutcomeOf(w, pid, ts, now);
    assert ArgsOk(p.args, p.ids, w.log);
    OnlyApplyAdds(w.db, ts, p.args.mode, p.expected, p.ids, now, g);
    ApplyAnnounces(w.db, ts, p.args.mode, p.expected, p.ids, now, others, g);
    assert Reports(Entry(ApplyMode, p.args.record.value, r.created), g);
  }

  lemma {:induction false} ReportedOnce(log: seq<Entry>, g: nat, i: nat, j: nat)
    requires NoDuplicates(AllCreated(log))
    requires i < |log| && j < |log| && Reports(log[i], g) && Reports(log[j], g)
    ensures i == j
    decreases |log|
  {
    var k := |log| - 1;
    var rest := log[..k];
    AllCreatedSplits(log);
    if i < k && j < k {
      ReportedOnce(rest, g, i, j);
    } else if i < k || j < k {
      var l := if i < k then i else j;
      assert rest[l] in rest;
      CreatedInLog(rest, g, rest[l]);
      OnBothSides(AllCreated(rest), log[k].created, g);
    }
  }

  lemma AllCreatedSplits(log: seq<Entry>)
    requires log != [] && NoDuplicates(AllCreated(log))
    ensures NoDuplicates(AllCreated(log[..|log| - 1]))
    ensures log[|log| - 1].mode.ApplyMode? ==>
              AllCreated(log) == AllCreated(log[..|log| - 1]) + log[|log| - 1].created
  {
    var before, all := AllCreated(log[..|log| - 1]), AllCreated(log);
    forall i, j | 0 <= i < j < |before| ensures before[i] != before[j] {
      assert all[i] == before[i] && all[j] == before[j];
    }
  }

  /** A joined list without duplicates has no element on both sides. */
  lemma OnBothSides(ids: seq<nat>, more: seq<nat>, g: nat)
    requires g in ids && g in more
    ensures !NoDuplicates(ids + more)
  {
    var i :| 0 <= i < |ids| && ids[i] == g;
    var j :| 0 <= j < |more| && more[j] == g;
    assert (ids + more)[i] == (ids + more)[|ids| + j];
  }

  lemma {:induction false} LogIsKept(ws: seq<World>, ss: seq<Step>, ts: seq<Target>, m: nat, n: nat)
    requires IsRun(ws, ss, ts) && m <= n < |ws|
    ensures ws[m].log <= ws[n].log
    decreases n
  {
    if m < n {
      LogIsKept(ws, ss, ts, m, n - 1);
      assert NextAt(ws, ss, ts, n - 1);
    }
  }

  lemma ReportedAtCommit(ws: seq<World>, ss: seq<Step>, ts: seq<Target>, m: nat, g: nat) returns (k: nat)
    requires IsRun(ws, ss, ts) && Distinct(ts) && m < |ss| && ss[m].Transact?
    requires g !in ws[m].db.groups && g in ws[m + 1].db.groups
    ensures k < |ws[m + 1].log| && Reports(ws[m + 1].log[k], g)
    ensures Changed(g) in ws[m + 1].db.outbox
  {
    RunKeeps(ws, ss, ts, m);
    assert NextAt(ws, ss, ts, m);
    TransactReports(ws[m], ss[m].pid, ts, ss[m].now, ss[m].others, g);
    k := |ws[m].log|;
  }

  lemma NothingReportedTwice(ws: seq<World>, ss: seq<Step>, ts: seq<Target>, n: nat)
    requires IsRun(ws, ss, ts) && Distinct(ts) && n < |ws|
    ensures NoDuplicates(AllCreated(ws[n].log))
  {
    RunKeeps(ws, ss, ts, n);
  }

  /** In every run each group that a transaction has created is reported in
      exactly one entry of a committed apply, from its commit on, and its
      group_changed event is pending at that commit. */
  lemma ReportedInOneEntry(ws: seq<World>, ss: seq<Step>, ts: seq<Target>, m: nat, n: nat, g: nat)
    requires IsRun(ws, ss, ts) && Distinct(ts) && m < n < |ws| && ss[m].Transact?
    requires g !in ws[m].db.groups && g in ws[m + 1].db.groups
    ensures exists k :: 0 <= k < |ws[n].log| && Reports(ws[n].log[k], g)
    ensures forall i, j :: 0 <= i < |ws[n].log| && 0 <= j < |ws[n].log| ==>
              Reports(ws[n].log[i], g) && Reports(ws[n].log[j], g) ==> i == j
    ensures Changed(g) in ws[m + 1].db.outbox
  {
    var k := ReportedAtCommit(ws, ss, ts, m, g);
    LogIsKept(ws, ss, ts, m + 1, n);
    assert ws[n].log[k] == ws[m + 1].log[k];
    NothingReportedTwice(ws, ss, ts, n);
    forall i, j | 0 <= i < |ws[n].log| && 0 <= j < |ws[n].log| && Reports(ws[n].log[i], g) && Reports(ws[n].log[j], g)
      ensures i == j
    {
      ReportedOnce(ws[n].log, g, i, j);
    }
  }

  // ------------------------------------------------------------ names and markers

  lemma NextRelies(w: World, w': World, s: Step, ts: seq<Target>)
    requires Inv(w, ts) && Distinct(ts) && Next(w, w', s, ts)
    ensures Rely(w.db, w'.db)
  {
    if s.Transact? {
      TransactDb(w, s.pid, ts, s.now, s.others);
    } else if !s.Environment? {
      OnlyTransactionsChange(w, w', s, ts);
    }
  }

  lemma OnlyTransactionsChange(w: World, w': World, s: Step, ts: seq<Target>)
    requires Next(w, w', s, ts) && !s.Transact? && !s.Environment?
    ensures w'.db == w.db
  {}

  /** In every run a group keeps its name and its marker. */
  lemma {:induction false} NamesArePermanent(ws: seq<World>, ss: seq<Step>, ts: seq<Target>, m: nat, n: nat, g: nat)
    requires IsRun(ws, ss, ts) && Distinct(ts) && m <= n < |ws| && g in ws[m].db.groups
    ensures g in ws[n].db.groups
    ensures Col(ws[n].db.groups[g], Name) == Col(ws[m].db.groups[g], Name)
    ensures Col(ws[n].db.groups[g], DuplicateOperationId) == Col(ws[m].db.groups[g], DuplicateOperationId)
    decreases n
  {
    if m < n {
      NamesArePermanent(ws, ss, ts, m, n - 1, g);
      RunStep(ws, ss, ts, n);
      NextRelies(ws[n - 1], ws[n], ss[n - 1], ts);
    }
  }

  /** Once some group bears a target's name, plan, check and apply are refused
      for the rest of the run while no live group carries the target's marker. */
  lemma DeletedCloneStaysRefused(ws: seq<World>, ss: seq<Step>, ts: seq<Target>, m: nat, n: nat, t: Target, g: nat, now: int)
    requires IsRun(ws, ss, ts) && Distinct(ts) && m <= n < |ws| && t in ts
    requires g in ws[m].db.groups && Col(ws[m].db.groups[g], Name) == Text(t.name)
    requires LiveIds(ws[n].db, t.marker) == {}
    ensures !Validates(ws[n].db, ts, now, true) && !Validates(ws[n].db, ts, now, false)
    ensures forall expected :: Apply(ws[n].db, ts, expected, now) == Abort
  {
    NamesArePermanent(ws, ss, ts, m, n, g);
    DeletedCloneRefuses(ws[n].db, ts, t, g, now, true);
    DeletedCloneRefuses(ws[n].db, ts, t, g, now, false);
  }

  /** In every run a rollback that reaches the database is never stopped by the
      digest guard: it commits exactly when its baseline, if any, holds and all
      ids of its receipt are still live and owned. */
  lemma RollbackNeverTripsGuard(ws: seq<World>, ss: seq<Step>, ts: seq<Target>, n: nat, pid: Pid, now: int)
    requires IsRun(ws, ss, ts) && Distinct(ts) && n < |ws|
    requires pid in ws[n].procs && ws[n].procs[pid].Reserved? && ws[n].procs[pid].args.mode.RollbackMode?
    ensures var w, p := ws[n], ws[n].procs[pid];
            Rollback(w.db, ts, p.expected, p.ids, now).Commit? <==>
              BaselineHolds(w.db, ts, p.expected) && forall g :: g in p.ids ==> Owned(w.db, ts, g)
  {
    RunKeeps(ws, ss, ts, n);
    var w, p := ws[n], ws[n].procs[pid];
    assert ProcOk(p, w.files, w.log);
    var r :| Logged(w.log, ApplyMode, r, p.ids);
    forall g | g in p.ids ensures g !in Sources(ts) {
      CreatedInLog(w.log, g, Entry(ApplyMode, r, p.ids));
    }
    RollbackCommitsExactly(w.db, ts, p.expected, p.ids, now);
  }
}
