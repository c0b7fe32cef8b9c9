/** The operator's retention command: apply only the plan that was reviewed. */
module Maintenance {
  import opened Domain
  import opened Sequences
  import opened ObservationLog
  import opened Retention

  const DAY: int := 86_400_000_000

  datatype Status = StalePlan | NoChanges | Applied

  datatype CommandResult = CommandResult(status: Status, plan: Plan, removed: nat, backup: Option<string>)

  /** The result constructor's invariant. */
  predicate ValidResult(r: CommandResult) {
    && (r.status == Applied ==> r.backup.Some? && r.removed > 0 && r.removed == r.plan.removable)
    && (r.status != Applied ==> r.backup.None? && r.removed == 0)
    && (r.status == NoChanges ==> r.plan.removable == 0)
  }

  function Cutoff(timestamp: Timestamp, retentionDays: nat): Timestamp {
    timestamp - retentionDays * DAY
  }

  /** The observations database and the backup files beside it. */
  datatype Database = Database(log: Log, backups: map<string, seq<Row>>)

  /** One reviewed command: the count the operator saw, and what the clock and the disk do. */
  datatype Command = Command(expected: nat, timestamp: Timestamp, backupFile: string, disk: DiskFault)

  function Applying(db: Database, path: string, cutoff: Timestamp, command: Command): (Database, Result<Plan, RetentionError>) {
    if command.backupFile == path then (db, Err(SamePathAsDatabase))
    else if command.backupFile in db.backups then (db, Err(BackupExists))
    else if command.disk == BackupFails then (db, Err(BackupFailed))
    else
      var backups := db.backups[command.backupFile := db.log.rows];
      if command.disk == DeleteFails then (Database(db.log, backups), Err(DeleteFailed))
      else
        (Database(Log(Retain(db.log.rows, cutoff), db.log.next), backups),
         if command.disk == CloseFails then Err(CloseFailed) else Ok(PlanFor(db.log.rows, cutoff)))
  }

  function Commanded(db: Database, path: string, retentionDays: nat, command: Command)
    : (Database, Result<CommandResult, RetentionError>)
  {
    var cutoff := Cutoff(command.timestamp, retentionDays);
    var plan := PlanFor(db.log.rows, cutoff);
    if command.disk == PlanFails then (db, Err(PlanFailed))
    else if plan.removable != command.expected then (db, Ok(CommandResult(StalePlan, plan, 0, None)))
    else if plan.removable == 0 then (db, Ok(CommandResult(NoChanges, plan, 0, None)))
    else
      var (after, applied) := Applying(db, path, cutoff, command);
      match applied
      case Err(e) => (after, Err(e))
      case Ok(done) => (after, Ok(CommandResult(Applied, done, done.removable, Some(command.backupFile))))
  }

  /** The command runs under the operation lock, so nothing is saved between its two steps. */
  class MaintenanceCommandProcessor {
    const manager: RetentionManager
    const retentionDays: nat

    constructor (manager: RetentionManager, retentionDays: nat)
      requires retentionDays > 0
      ensures this.manager == manager && this.retentionDays == retentionDays
    {
      this.manager, this.retentionDays := manager, retentionDays;
    }

    function Current(): Database
      reads manager, manager.store
    {
      Database(manager.store.log, manager.backups)
    }

    /** Rows disappear only if as many are removable, at that moment, as the operator reviewed;
    then exactly those go, and the backup holds every row there was. */
    method Process(command: Command) returns (r: Result<CommandResult, RetentionError>)
      requires ValidLog(manager.store.log)
      modifies manager, manager.store
      ensures (Current(), r) == Commanded(old(Current()), manager.databasePath, retentionDays, command)
      ensures ValidLog(manager.store.log)
      ensures r.Ok? ==> ValidResult(r.value)
      ensures SameView(old(manager.store.log.rows), manager.store.log.rows)
    {
      var cutoff := Cutoff(command.timestamp, retentionDays);
      var planned := manager.PlanRetention(cutoff, command.disk);
      if planned.Err? {
        return Err(planned.error);
      }
      var plan := planned.value;
      if plan.removable != command.expected {
        return Ok(CommandResult(StalePlan, plan, 0, None));
      }
      if plan.removable == 0 {
        return Ok(CommandResult(NoChanges, plan, 0, None));
      }
      var applied := manager.Apply(cutoff, command.backupFile, command.disk);
      match applied
      case Err(e) => r := Err(e);
      case Ok(done) => r := Ok(CommandResult(Applied, done, done.removable, Some(command.backupFile)));
    }
  }

  // ---------- Cycles and commands in any order ----------

  /** The count the operator reviewed is that of the rows that could go now. */
  predicate PlanMatches(db: Database, retentionDays: nat, command: Command) {
    PlanFor(db.log.rows, Cutoff(command.timestamp, retentionDays)).removable == command.expected
  }

  /** What makes a command remove rows. */
  predicate Removes(db: Database, path: string, retentionDays: nat, command: Command) {
    && PlanMatches(db, retentionDays, command) && command.expected > 0
    && command.backupFile != path && command.backupFile !in db.backups
    && (command.disk == NoDiskFault || command.disk == CloseFails)
  }

  /** Rows go if and only if exactly as many are removable at that moment as the operator reviewed and the
  new backup and the deletion succeed; then exactly those go, and the backup holds every row there was.
  The command says so, unless closing the database fails after that. */
  lemma CommandRemovesWhatWasReviewed(db: Database, path: string, retentionDays: nat, command: Command)
    requires ValidLog(db.log)
    ensures var (after, r) := Commanded(db, path, retentionDays, command);
      && (if Removes(db, path, retentionDays, command) then
            && |db.log.rows| - |after.log.rows| == command.expected
            && after.log.rows == Retain(db.log.rows, Cutoff(command.timestamp, retentionDays))
            && after.backups == db.backups[command.backupFile := db.log.rows]
            && (if command.disk == CloseFails then r == Err(CloseFailed)
                else
                  r.Ok? && r.value.status == Applied && r.value.removed == command.expected
                  && r.value.backup == Some(command.backupFile))
          else
            && after.log == db.log && r != Err(CloseFailed) && (r.Ok? ==> r.value.removed == 0)
            && (r.Ok? <==> command.disk != PlanFails && (command.expected == 0 || !PlanMatches(db, retentionDays, command)))
            && (r.Ok? ==>
                  r.value.backup == None
                  && r.value.status == if PlanMatches(db, retentionDays, command) then NoChanges else StalePlan))
      && (r.Ok? ==> r.value.plan == PlanFor(db.log.rows, Cutoff(command.timestamp, retentionDays)))
      && (forall file :: file in db.backups ==> file in after.backups && after.backups[file] == db.backups[file])
      && ValidLog(after.log)
  {
    PlanIsValid(db.log.rows, Cutoff(command.timestamp, retentionDays));
    FilterKeepsAscending(db.log.rows, Kept(db.log.rows, Cutoff(command.timestamp, retentionDays)));
  }

  lemma RowsAfterCommand(db: Database, path: string, retentionDays: nat, command: Command)
    ensures var after := Commanded(db, path, retentionDays, command).0.log.rows;
      after == db.log.rows || after == Retain(db.log.rows, command.timestamp - retentionDays * 86_400_000_000)
  {
  }

  /** Whatever the command: either no row goes, or exactly those that are older than the retention period,
  neither their product's latest nor a first maximum. */
  lemma CommandRemovesOldRows(db: Database, path: string, retentionDays: nat, command: Command)
    requires ValidLog(db.log)
    ensures var rows, after := db.log.rows, Commanded(db, path, retentionDays, command).0.log.rows;
      var oldest := command.timestamp - retentionDays * 86_400_000_000;
      || after == rows
      || forall row :: row in rows ==>
           (row !in after <==> row.snapshot.timestamp < oldest && !IsLatest(rows, row) && !IsFirstMaximum(rows, row))
  {
    RowsAfterCommand(db, path, retentionDays, command);
    RetainedRows(db.log.rows, command.timestamp - retentionDays * 86_400_000_000);
  }

  /** Under the lock a run is a sequence of committed saves and commands. */
  datatype Event = Save(snapshot: Snapshot) | Line(command: Command)

  /** The database, every row it ever held, how many rows the commands reported as removed, and how many
  were reviewed for commands that failed while closing. */
  datatype History = History(db: Database, inserted: seq<Row>, removed: nat, unreported: nat)

  function Happened(h: History, path: string, retentionDays: nat, event: Event): History {
    match event
    case Save(s) =>
      h.(db := h.db.(log := Append(h.db.log, s)), inserted := h.inserted + [Row(h.db.log.next, s)])
    case Line(command) =>
      var (after, r) := Commanded(h.db, path, retentionDays, command);
      History(
        after, h.inserted, h.removed + (if r.Ok? then r.value.removed else 0),
        h.unreported + if r == Err(CloseFailed) then command.expected else 0)
  }

  function AfterEvents(path: string, retentionDays: nat, events: seq<Event>): History {
    if events == [] then History(Database(EMPTY_LOG, map[]), [], 0, 0)
    else Happened(AfterEvents(path, retentionDays, events[..|events| - 1]), path, retentionDays, events[|events| - 1])
  }

  predicate BackedUp(db: Database, row: Row) {
    exists file :: file in db.backups && row in db.backups[file]
  }

  ghost predicate NothingLost(h: History) {
    && ValidLog(h.db.log)
    && (forall row :: row in h.inserted ==> row in h.db.log.rows || BackedUp(h.db, row))
    && |h.inserted| == |h.db.log.rows| + h.removed + h.unreported
  }

  lemma CommandLosesNothing(h: History, path: string, retentionDays: nat, command: Command)
    requires NothingLost(h)
    ensures NothingLost(Happened(h, path, retentionDays, Line(command)))
  {
    CommandRemovesWhatWasReviewed(h.db, path, retentionDays, command);
    var after := Happened(h, path, retentionDays, Line(command));
    forall row | row in h.inserted ensures row in after.db.log.rows || BackedUp(after.db, row) {
      if row in h.db.log.rows && row !in after.db.log.rows {
        assert row in after.db.backups[command.backupFile];
      }
    }
  }

  /** However saves and commands alternate, and whatever fails: every observation ever saved is in
  the table or in a backup, and as many are gone from the table as the applied commands reported and
  were reviewed for the commands that failed while closing the database. */
  lemma {:induction false} NoObservationIsLost(path: string, retentionDays: nat, events: seq<Event>)
    ensures NothingLost(AfterEvents(path, retentionDays, events))
  {
    if events != [] {
      var h := AfterEvents(path, retentionDays, events[..|events| - 1]);
      NoObservationIsLost(path, retentionDays, events[..|events| - 1]);
      match events[|events| - 1]
      case Save(s) =>
        AppendKeepsValid(h.db.log, s);
      case Line(command) =>
        CommandLosesNothing(h, path, retentionDays, command);
    }
  }

  // ---------- Why the lock ----------

  function Priced(sequence: nat, amount: nat): Row {
    Row(sequence, Snapshot(Product(1, 1, "p", Money(Decimal(amount, 0), CZK), None, 0.0, "u", true), 0))
  }

  lemma OnlyTopIsKept(rows: seq<Row>, top: Row)
    requires Ascending(rows) && rows != [] && top == rows[|rows| - 1]
    requires forall r :: r in rows ==> r.Id() == top.Id() && r.Currency() == top.Currency() && !Recent(1, r)
    requires forall r :: r in rows && r != top ==> r.Amount() < top.Amount()
    ensures forall r :: r in rows ==> (Kept(rows, 1)(r) <==> r == top)
  {
    LatestCharacterized(rows, top.Id());
    FirstMaximumCharacterized(rows, top.Id(), top.Currency());
    assert top in rows;
    assert IsFirstMaximum(rows, top);
    assert LatestOf(rows, top.Id()) == Some(top);
    assert FirstMaximumOf(rows, top.Id(), top.Currency()) == Some(top);
  }

  lemma RisingPriceCounts(rows: seq<Row>, top: Row)
    requires Ascending(rows) && rows != [] && top == rows[|rows| - 1]
    requires forall r :: r in rows ==> r.Id() == top.Id() && r.Currency() == top.Currency() && !Recent(1, r)
    requires forall r :: r in rows && r != top ==> r.Amount() < top.Amount()
    ensures PlanFor(rows, 1).removable == |rows| - 1
  {
    var init := rows[..|rows| - 1];
    OnlyTopIsKept(rows, top);
    forall i | 0 <= i < |init| ensures init[i] in rows && init[i] != top {
    }
    FilterNone(init, Kept(rows, 1));
    assert top in rows;
    assert Retain(rows, 1) == Filter(init, Kept(rows, 1)) + [top];
  }

  /** Without the lock a cycle could save between planning and applying: the plan the operator
  reviewed would then not be the plan applied. */
  lemma SavingBetweenChangesThePlan() returns (log: Log, snapshot: Snapshot, cutoff: Timestamp)
    ensures ValidLog(log) && PlanFor(log.rows, cutoff).removable > 0
    ensures PlanFor(Append(log, snapshot).rows, cutoff).removable != PlanFor(log.rows, cutoff).removable
  {
    var a, b, c := Priced(1, 1), Priced(2, 2), Priced(3, 3);
    log, snapshot, cutoff := Log([a, b], 3), c.snapshot, 1;
    assert Append(log, snapshot).rows == [a, b, c];
    assert a.Amount() == 1.0 && b.Amount() == 2.0 && c.Amount() == 3.0;
    RisingPriceCounts([a, b], b);
    RisingPriceCounts([a, b, c], c);
  }
}
