/** Backup-protected retention: which observations a cutoff removes, and what that leaves visible. */
module Retention {
  import opened Domain
  import opened Sequences
  import opened ObservationLog
  import Ordering

  /** A row no cutoff may remove: the product's latest, or its first maximum in a currency. */
  predicate Protected(rows: seq<Row>, r: Row) {
    || LatestOf(rows, r.Id()) == Some(r)
    || FirstMaximumOf(rows, r.Id(), r.Currency()) == Some(r)
  }

  predicate Recent(cutoff: Timestamp, r: Row) {
    r.snapshot.timestamp >= cutoff
  }

  function Kept(rows: seq<Row>, cutoff: Timestamp): Row -> bool {
    (r: Row) => Recent(cutoff, r) || Protected(rows, r)
  }

  /** What applying a cutoff leaves. */
  function Retain(rows: seq<Row>, cutoff: Timestamp): seq<Row> {
    Filter(rows, Kept(rows, cutoff))
  }

  datatype Plan = Plan(cutoff: Timestamp, observations: nat, removable: nat, retained: nat, protectedCount: nat)

  /** The plan constructor's invariant. */
  predicate ValidPlan(p: Plan) {
    p.removable + p.retained == p.observations && p.protectedCount <= p.retained
  }

  function OldButKept(rows: seq<Row>, cutoff: Timestamp): Row -> bool {
    (r: Row) => !Recent(cutoff, r) && Protected(rows, r)
  }

  /** The plan, read off the rows that stay. */
  function PlanFor(rows: seq<Row>, cutoff: Timestamp): Plan {
    Plan(
      cutoff,
      |rows|,
      |rows| - |Retain(rows, cutoff)|,
      |Retain(rows, cutoff)|,
      |Filter(rows, OldButKept(rows, cutoff))|)
  }

  // ---------- What deletion leaves visible ----------

  /** Two logs give every latest row and every first maximum alike. */
  ghost predicate SameView(a: seq<Row>, b: seq<Row>) {
    && (forall id :: LatestOf(a, id) == LatestOf(b, id))
    && (forall id, currency :: FirstMaximumOf(a, id, currency) == FirstMaximumOf(b, id, currency))
  }

  lemma {:induction false} FilterKeepsAscending(rows: seq<Row>, keep: Row -> bool)
    requires Ascending(rows)
    ensures Ascending(Filter(rows, keep))
  {
    if rows != [] {
      var init, last := rows[..|rows| - 1], rows[|rows| - 1];
      FilterKeepsAscending(init, keep);
      assert forall r :: r in init ==> r.sequence < last.sequence;
      assert forall i :: 0 <= i < |Filter(init, keep)| ==> Filter(init, keep)[i] in init;
    }
  }

  lemma LatestSurvives(rows: seq<Row>, sub: seq<Row>, id: ProductId)
    requires Ascending(rows) && Ascending(sub)
    requires forall r :: r in sub ==> r in rows
    requires forall r :: r in rows && Protected(rows, r) ==> r in sub
    ensures LatestOf(rows, id) == LatestOf(sub, id)
  {
    LatestCharacterized(rows, id);
    LatestCharacterized(sub, id);
    var latest := LatestOf(rows, id);
    if latest.Some? {
      assert Protected(rows, latest.value);
      assert IsLatest(sub, latest.value);
    } else if LatestOf(sub, id).Some? {
      SomeLatest(rows, LatestOf(sub, id).value);
    }
  }

  lemma {:induction false} SomeLatest(rows: seq<Row>, r: Row)
    requires r in rows
    ensures LatestOf(rows, r.Id()).Some?
  {
    if rows[|rows| - 1] != r {
      SomeLatest(rows[..|rows| - 1], r);
    }
  }

  lemma FirstMaximumSurvives(rows: seq<Row>, sub: seq<Row>, id: ProductId, currency: Currency)
    requires Ascending(rows) && Ascending(sub)
    requires forall r :: r in sub ==> r in rows
    requires forall r :: r in rows && Protected(rows, r) ==> r in sub
    ensures FirstMaximumOf(rows, id, currency) == FirstMaximumOf(sub, id, currency)
  {
    FirstMaximumIsMaximum(rows, id, currency);
    FirstMaximumIsMaximum(sub, id, currency);
    FirstMaximumCharacterized(sub, id, currency);
    var best := FirstMaximumOf(rows, id, currency);
    if best.Some? {
      assert Protected(rows, best.value);
      assert IsFirstMaximum(sub, best.value);
    }
  }

  /** A deletion is invisible to latest rows and first maxima exactly when it spares the
  protected rows: they suffice, and none of them can be given up. */
  lemma ViewKeptIffProtectedKept(rows: seq<Row>, keep: Row -> bool)
    requires Ascending(rows)
    ensures SameView(rows, Filter(rows, keep)) <==> (forall r :: r in rows && Protected(rows, r) ==> keep(r))
  {
    var sub := Filter(rows, keep);
    FilterKeepsAscending(rows, keep);
    if forall r :: r in rows && Protected(rows, r) ==> keep(r) {
      forall id ensures LatestOf(rows, id) == LatestOf(sub, id) {
        LatestSurvives(rows, sub, id);
      }
      forall id, currency ensures FirstMaximumOf(rows, id, currency) == FirstMaximumOf(sub, id, currency) {
        FirstMaximumSurvives(rows, sub, id, currency);
      }
    }
    if SameView(rows, sub) {
      forall r: Row | r in rows && Protected(rows, r) ensures keep(r) {
        LatestCharacterized(sub, r.Id());
        FirstMaximumIsMaximum(sub, r.Id(), r.Currency());
        assert r in sub;
      }
    }
  }

  lemma RetainKeepsView(rows: seq<Row>, cutoff: Timestamp)
    requires Ascending(rows)
    ensures Ascending(Retain(rows, cutoff))
    ensures SameView(rows, Retain(rows, cutoff))
  {
    FilterKeepsAscending(rows, Kept(rows, cutoff));
    ViewKeptIffProtectedKept(rows, Kept(rows, cutoff));
  }

  /** Retentions compose: two cutoffs in either order leave what the later cutoff alone leaves. */
  lemma RetainTwice(rows: seq<Row>, first: Timestamp, second: Timestamp)
    requires Ascending(rows)
    ensures Retain(Retain(rows, first), second) == Retain(rows, if first >= second then first else second)
  {
    var once := Retain(rows, first);
    var later := if first >= second then first else second;
    RetainKeepsView(rows, first);
    forall r: Row | r in once ensures Kept(once, second)(r) == Kept(rows, second)(r) {
      assert Protected(once, r) == Protected(rows, r);
    }
    FilterOfSame(once, Kept(once, second), Kept(rows, second));
    FilterTwice(rows, Kept(rows, first), Kept(rows, second));
    FilterOfSame(rows, Both(Kept(rows, first), Kept(rows, second)), Kept(rows, later));
  }

  // ---------- Counting ----------

  function SequenceSet(rows: seq<Row>): set<nat> {
    set r | r in rows :: r.sequence
  }

  lemma {:induction false} SequencesCount(rows: seq<Row>)
    requires Ascending(rows)
    ensures |SequenceSet(rows)| == |rows|
  {
    if rows != [] {
      var init, last := rows[..|rows| - 1], rows[|rows| - 1];
      SequencesCount(init);
      assert rows == init + [last];
      assert SequenceSet(rows) == SequenceSet(init) + {last.sequence};
    }
  }

  lemma SubsetSize(a: set<nat>, b: set<nat>)
    requires a <= b
    ensures |a| <= |b| && |b - a| == |b| - |a|
  {
    assert b == a + (b - a);
  }

  /** A selection of rows and its set of sequences have the same size. */
  lemma SelectedCount(rows: seq<Row>, p: Row -> bool)
    requires Ascending(rows)
    ensures |SequenceSet(Filter(rows, p))| == |Filter(rows, p)|
    ensures SequenceSet(Filter(rows, p)) <= SequenceSet(rows)
  {
    FilterKeepsAscending(rows, p);
    SequencesCount(Filter(rows, p));
  }

  /** The counts of any plan meet the invariant its constructor checks. */
  lemma PlanIsValid(rows: seq<Row>, cutoff: Timestamp)
    requires Ascending(rows)
    ensures ValidPlan(PlanFor(rows, cutoff))
  {
    var kept, protectedOld := Retain(rows, cutoff), Filter(rows, OldButKept(rows, cutoff));
    SelectedCount(rows, Kept(rows, cutoff));
    SelectedCount(rows, OldButKept(rows, cutoff));
    assert SequenceSet(protectedOld) <= SequenceSet(kept);
    SubsetSize(SequenceSet(protectedOld), SequenceSet(kept));
  }

  // ---------- The manager ----------

  datatype Selection = Selection(plan: Plan, removable: set<nat>)

  ghost predicate LatestTracks(latest: map<ProductId, nat>, rows: seq<Row>) {
    forall id :: (id in latest <==> LatestOf(rows, id).Some?)
              && (id in latest ==> latest[id] == LatestOf(rows, id).value.sequence)
  }

  ghost predicate MaximaTrack(maxima: map<(ProductId, Currency), (Decimal, nat)>, rows: seq<Row>) {
    forall id: ProductId, currency: Currency ::
      var best := FirstMaximumOf(rows, id, currency);
      && ((id, currency) in maxima <==> best.Some?)
      && (best.Some? ==>
            maxima[(id, currency)] == (best.value.snapshot.product.currentPrice.amount, best.value.sequence))
  }

  function IsRecent(cutoff: Timestamp): Row -> bool {
    (r: Row) => Recent(cutoff, r)
  }

  function Guards(rows: seq<Row>): Row -> bool {
    (r: Row) => Protected(rows, r)
  }

  lemma LatestValuesAreProtected(rows: seq<Row>, latest: map<ProductId, nat>, sequence: nat)
    requires Ascending(rows) && LatestTracks(latest, rows) && sequence in latest.Values
    ensures sequence in SequenceSet(Filter(rows, Guards(rows)))
  {
    var id :| id in latest && latest[id] == sequence;
    LatestCharacterized(rows, id);
    assert LatestOf(rows, id).value in Filter(rows, Guards(rows));
  }

  lemma MaximaValuesAreProtected(
    rows: seq<Row>, maxima: map<(ProductId, Currency), (Decimal, nat)>, key: (ProductId, Currency))
    requires Ascending(rows) && MaximaTrack(maxima, rows) && key in maxima
    ensures maxima[key].1 in SequenceSet(Filter(rows, Guards(rows)))
  {
    FirstMaximumIsMaximum(rows, key.0, key.1);
    assert (key.0, key.1) in maxima;
    var best := FirstMaximumOf(rows, key.0, key.1).value;
    assert best in Filter(rows, Guards(rows));
  }

  /** The two maps together name exactly the protected rows. */
  lemma ProtectedSequences(
    rows: seq<Row>, latest: map<ProductId, nat>, maxima: map<(ProductId, Currency), (Decimal, nat)>)
    requires Ascending(rows) && LatestTracks(latest, rows) && MaximaTrack(maxima, rows)
    ensures latest.Values + (set key | key in maxima :: maxima[key].1) == SequenceSet(Filter(rows, Guards(rows)))
  {
    var named := latest.Values + (set key | key in maxima :: maxima[key].1);
    var guarded := SequenceSet(Filter(rows, Guards(rows)));
    forall sequence | sequence in named ensures sequence in guarded {
      if sequence in latest.Values {
        LatestValuesAreProtected(rows, latest, sequence);
      } else {
        var key :| key in maxima && maxima[key].1 == sequence;
        MaximaValuesAreProtected(rows, maxima, key);
      }
    }
    forall sequence | sequence in guarded ensures sequence in named {
      var r :| r in Filter(rows, Guards(rows)) && r.sequence == sequence;
      if LatestOf(rows, r.Id()) == Some(r) {
        assert latest[r.Id()] == sequence;
      } else {
        assert maxima[(r.Id(), r.Currency())].1 == sequence;
      }
    }
  }

  lemma SelectedExactly(rows: seq<Row>, p: Row -> bool)
    requires Ascending(rows)
    ensures forall r :: r in rows ==> (r.sequence in SequenceSet(Filter(rows, p)) <==> p(r))
  {
    forall r | r in rows && r.sequence in SequenceSet(Filter(rows, p)) ensures p(r) {
      var q :| q in Filter(rows, p) && q.sequence == r.sequence;
      SequenceIdentifies(rows, q, r);
    }
  }

  /** A set of sequences is the selection it describes row by row. */
  lemma SelectedIs(rows: seq<Row>, p: Row -> bool, sequences: set<nat>)
    requires Ascending(rows) && sequences <= SequenceSet(rows)
    requires forall r :: r in rows ==> (r.sequence in sequences <==> p(r))
    ensures sequences == SequenceSet(Filter(rows, p))
    ensures |sequences| == |Filter(rows, p)|
  {
    SelectedExactly(rows, p);
    SelectedCount(rows, p);
    forall n ensures n in sequences <==> n in SequenceSet(Filter(rows, p)) {
      if n in SequenceSet(rows) {
        var r :| r in rows && r.sequence == n;
      }
    }
  }

  /** From the three sequence sets to the plan. */
  lemma SelectionCounts(rows: seq<Row>, cutoff: Timestamp, recent: set<nat>, guarded: set<nat>)
    requires Ascending(rows)
    requires recent == SequenceSet(Filter(rows, IsRecent(cutoff)))
    requires guarded == SequenceSet(Filter(rows, Guards(rows)))
    ensures recent + guarded == SequenceSet(Retain(rows, cutoff))
    ensures |recent + guarded| == |Retain(rows, cutoff)|
    ensures |SequenceSet(rows) - (recent + guarded)| == |rows| - |Retain(rows, cutoff)|
    ensures |guarded - recent| == |Filter(rows, OldButKept(rows, cutoff))|
  {
    SelectedExactly(rows, IsRecent(cutoff));
    SelectedExactly(rows, Guards(rows));
    SelectedCount(rows, IsRecent(cutoff));
    SelectedCount(rows, Guards(rows));
    SelectedIs(rows, Kept(rows, cutoff), recent + guarded);
    SelectedIs(rows, OldButKept(rows, cutoff), guarded - recent);
    SequencesCount(rows);
    SubsetSize(recent + guarded, SequenceSet(rows));
  }

  lemma LatestStep(latest: map<ProductId, nat>, rows: seq<Row>, r: Row)
    requires LatestTracks(latest, rows)
    ensures LatestTracks(latest[r.Id() := r.sequence], rows + [r])
  {
    assert (rows + [r])[..|rows|] == rows;
  }

  predicate Improves(maxima: map<(ProductId, Currency), (Decimal, nat)>, r: Row) {
    var key := (r.Id(), r.Currency());
    key !in maxima || r.Amount() > Value(maxima[key].0)
  }

  lemma MaximaStep(maxima: map<(ProductId, Currency), (Decimal, nat)>, rows: seq<Row>, r: Row)
    requires MaximaTrack(maxima, rows)
    ensures Improves(maxima, r) ==>
        MaximaTrack(maxima[(r.Id(), r.Currency()) := (r.snapshot.product.currentPrice.amount, r.sequence)], rows + [r])
    ensures !Improves(maxima, r) ==> MaximaTrack(maxima, rows + [r])
  {
    assert (rows + [r])[..|rows|] == rows;
    var best := FirstMaximumOf(rows, r.Id(), r.Currency());
    assert (r.Id(), r.Currency()) in maxima <==> best.Some?;
  }

  lemma SetsStep(rows: seq<Row>, r: Row, cutoff: Timestamp)
    ensures SequenceSet(rows + [r]) == SequenceSet(rows) + {r.sequence}
    ensures SequenceSet(Filter(rows + [r], IsRecent(cutoff)))
         == SequenceSet(Filter(rows, IsRecent(cutoff))) + (if Recent(cutoff, r) then {r.sequence} else {})
  {
    assert (rows + [r])[..|rows|] == rows;
    assert r in rows + [r];
  }

  /** What the scan knows of the rows it has seen. */
  ghost predicate Scanned(
    rows: seq<Row>, cutoff: Timestamp, latest: map<ProductId, nat>,
    maxima: map<(ProductId, Currency), (Decimal, nat)>, recent: set<nat>, all: set<nat>)
  {
    && LatestTracks(latest, rows)
    && MaximaTrack(maxima, rows)
    && recent == SequenceSet(Filter(rows, IsRecent(cutoff)))
    && all == SequenceSet(rows)
  }

  lemma ScanStep(
    rows: seq<Row>, r: Row, cutoff: Timestamp, latest: map<ProductId, nat>,
    maxima: map<(ProductId, Currency), (Decimal, nat)>, recent: set<nat>, all: set<nat>)
    requires Scanned(rows, cutoff, latest, maxima, recent, all)
    ensures Scanned(
              rows + [r], cutoff, latest[r.Id() := r.sequence],
              if Improves(maxima, r) then
                maxima[(r.Id(), r.Currency()) := (r.snapshot.product.currentPrice.amount, r.sequence)]
              else maxima,
              recent + (if Recent(cutoff, r) then {r.sequence} else {}), all + {r.sequence})
  {
    LatestStep(latest, rows, r);
    MaximaStep(maxima, rows, r);
    SetsStep(rows, r, cutoff);
  }

  lemma ScanDone(
    rows: seq<Row>, cutoff: Timestamp, latest: map<ProductId, nat>,
    maxima: map<(ProductId, Currency), (Decimal, nat)>, recent: set<nat>, all: set<nat>)
    requires Ascending(rows) && Scanned(rows, cutoff, latest, maxima, recent, all)
    ensures var guarded := latest.Values + (set key | key in maxima :: maxima[key].1);
      var retained := recent + guarded;
      && all - retained == SequenceSet(rows) - SequenceSet(Retain(rows, cutoff))
      && Plan(cutoff, |rows|, |all - retained|, |retained|, |guarded - recent|) == PlanFor(rows, cutoff)
  {
    ProtectedSequences(rows, latest, maxima);
    SelectionCounts(rows, cutoff, recent, latest.Values + (set key | key in maxima :: maxima[key].1));
  }

  // ---------- What a cutoff removes, row by row ----------

  /** Whether a row is protected, in terms of the rows themselves. */
  lemma ProtectedMeans(rows: seq<Row>, r: Row)
    requires Ascending(rows) && r in rows
    ensures Protected(rows, r) <==> IsLatest(rows, r) || IsFirstMaximum(rows, r)
  {
    LatestCharacterized(rows, r.Id());
    FirstMaximumCharacterized(rows, r.Id(), r.Currency());
  }

  /** A retention keeps exactly what is no older than the cutoff, or latest, or a first maximum. */
  lemma RetainedRows(rows: seq<Row>, cutoff: Timestamp)
    requires Ascending(rows)
    ensures forall r :: r in Retain(rows, cutoff) <==>
              r in rows && (r.snapshot.timestamp >= cutoff || IsLatest(rows, r) || IsFirstMaximum(rows, r))
  {
    forall r | r in rows
      ensures Kept(rows, cutoff)(r) <==> r.snapshot.timestamp >= cutoff || IsLatest(rows, r) || IsFirstMaximum(rows, r)
    {
      ProtectedMeans(rows, r);
    }
  }

  lemma FilterCounts(rows: seq<Row>, p: Row -> bool, wanted: set<Row>)
    requires Ascending(rows) && forall r :: r in wanted <==> r in rows && p(r)
    ensures |Filter(rows, p)| == |wanted|
  {
    FilterKeepsDistinct(rows, p);
    DistinctSize(Filter(rows, p));
    assert wanted == set r | r in Filter(rows, p);
  }

  /** The plan counts the rows that go, those that stay, and the old ones among those that stay. */
  lemma PlanCounts(rows: seq<Row>, cutoff: Timestamp)
    requires Ascending(rows)
    ensures var plan := PlanFor(rows, cutoff);
      && plan.cutoff == cutoff && plan.observations == |rows| == plan.removable + plan.retained
      && plan.retained
         == |set r | r in rows && (r.snapshot.timestamp >= cutoff || IsLatest(rows, r) || IsFirstMaximum(rows, r))|
      && plan.protectedCount
         == |set r | r in rows && r.snapshot.timestamp < cutoff && (IsLatest(rows, r) || IsFirstMaximum(rows, r))|
  {
    var staying := set r | r in rows && (r.snapshot.timestamp >= cutoff || IsLatest(rows, r) || IsFirstMaximum(rows, r));
    var aged := set r | r in rows && r.snapshot.timestamp < cutoff && (IsLatest(rows, r) || IsFirstMaximum(rows, r));
    forall r | r in rows ensures Protected(rows, r) <==> IsLatest(rows, r) || IsFirstMaximum(rows, r) {
      ProtectedMeans(rows, r);
    }
    FilterCounts(rows, Kept(rows, cutoff), staying);
    FilterCounts(rows, OldButKept(rows, cutoff), aged);
    PlanIsValid(rows, cutoff);
  }

  lemma RemovableRows(rows: seq<Row>, cutoff: Timestamp)
    requires Ascending(rows)
    ensures var removable := SequenceSet(rows) - SequenceSet(Retain(rows, cutoff));
      forall r :: r in rows ==>
        (r.sequence in removable <==>
          r.snapshot.timestamp < cutoff && !IsLatest(rows, r) && !IsFirstMaximum(rows, r))
  {
    SelectedExactly(rows, Kept(rows, cutoff));
    RetainedRows(rows, cutoff);
  }

  /** One pass over the table, tracking the latest sequence per product and the first maximum
  per product and currency. */
  method SelectRetention(rows: seq<Row>, cutoff: Timestamp) returns (s: Selection)
    requires Ascending(rows)
    ensures s.plan == PlanFor(rows, cutoff) && ValidPlan(s.plan)
    ensures s.removable == SequenceSet(rows) - SequenceSet(Retain(rows, cutoff))
    ensures forall r :: r in rows ==>
              (r.sequence in s.removable <==>
                r.snapshot.timestamp < cutoff && !IsLatest(rows, r) && !IsFirstMaximum(rows, r))
    ensures s.plan.removable == |s.removable| && s.plan.retained == |rows| - |s.removable|
    ensures s.plan.protectedCount
         == |set r | r in rows && r.snapshot.timestamp < cutoff && (IsLatest(rows, r) || IsFirstMaximum(rows, r))|
  {
    var latest: map<ProductId, nat> := map[];
    var maxima: map<(ProductId, Currency), (Decimal, nat)> := map[];
    var recent: set<nat> := {};
    var all: set<nat> := {};
    for i := 0 to |rows|
      invariant Scanned(rows[..i], cutoff, latest, maxima, recent, all)
    {
      var r := rows[i];
      ScanStep(rows[..i], r, cutoff, latest, maxima, recent, all);
      assert rows[..i + 1] == rows[..i] + [r];
      all := all + {r.sequence};
      latest := latest[r.Id() := r.sequence];
      if r.snapshot.timestamp >= cutoff {
        recent := recent + {r.sequence};
      }
      var price := r.snapshot.product.currentPrice;
      var key := (r.Id(), price.currency);
      if key !in maxima || Value(price.amount) > Value(maxima[key].0) {
        maxima := maxima[key := (price.amount, r.sequence)];
      }
    }
    assert rows[..|rows|] == rows;
    ScanDone(rows, cutoff, latest, maxima, recent, all);
    PlanIsValid(rows, cutoff);
    PlanCounts(rows, cutoff);
    RemovableRows(rows, cutoff);
    var protectedSequences := latest.Values + set key | key in maxima :: maxima[key].1;
    var retained := recent + protectedSequences;
    var removable := all - retained;
    var protectedOld := protectedSequences - recent;
    s := Selection(Plan(cutoff, |rows|, |removable|, |retained|, |protectedOld|), removable);
  }

  datatype RetentionError = PlanFailed | SamePathAsDatabase | BackupExists | BackupFailed | DeleteFailed | CloseFailed

  /** CloseFails comes after the deletion was committed. */
  datatype DiskFault = NoDiskFault | PlanFails | BackupFails | DeleteFails | CloseFails

  /** Plans and applies retention on one database. A backup is the whole table as it stood. */
  class RetentionManager {
    const store: SqliteStateStore
    const databasePath: string
    var backups: map<string, seq<Row>>

    constructor (store: SqliteStateStore, databasePath: string)
      ensures this.store == store && this.databasePath == databasePath && backups == map[]
    {
      this.store := store;
      this.databasePath := databasePath;
      backups := map[];
    }

    method PlanRetention(cutoff: Timestamp, disk: DiskFault) returns (r: Result<Plan, RetentionError>)
      requires ValidLog(store.log)
      ensures r == if disk == PlanFails then Err(PlanFailed) else Ok(PlanFor(store.log.rows, cutoff))
      ensures r.Ok? ==> ValidPlan(r.value)
      ensures r.Ok? ==>
          && r.value.cutoff == cutoff && r.value.observations == |store.log.rows|
          && r.value.retained
             == |set row | row in store.log.rows
                 && (|| row.snapshot.timestamp >= cutoff
                     || IsLatest(store.log.rows, row) || IsFirstMaximum(store.log.rows, row))|
          && r.value.protectedCount
             == |set row | row in store.log.rows && row.snapshot.timestamp < cutoff
                 && (IsLatest(store.log.rows, row) || IsFirstMaximum(store.log.rows, row))|
    {
      if disk == PlanFails {
        return Err(PlanFailed);
      }
      var selection := SelectRetention(store.log.rows, cutoff);
      PlanCounts(store.log.rows, cutoff);
      r := Ok(selection.plan);
    }

    /** The selection, the backup and the deletion happen in one transaction. `disk` is what goes wrong:
    while the backup is written, which removes the partial file; while rows are deleted, which rolls
    the table back and leaves the backup; or while the database is closed, when the rows are gone. */
    method Apply(cutoff: Timestamp, backupFile: string, disk: DiskFault) returns (r: Result<Plan, RetentionError>)
      requires ValidLog(store.log)
      modifies this, store
      ensures ValidLog(store.log) && store.log.next == old(store.log.next)
      ensures match r
              case Ok(plan) =>
                && backupFile != databasePath && backupFile !in old(backups) && disk in {NoDiskFault, PlanFails}
                && plan == PlanFor(old(store.log.rows), cutoff)
                && store.log.rows == Retain(old(store.log.rows), cutoff)
                && backups == old(backups)[backupFile := old(store.log.rows)]
              case Err(CloseFailed) =>
                && backupFile != databasePath && backupFile !in old(backups) && disk == CloseFails
                && store.log.rows == Retain(old(store.log.rows), cutoff)
                && backups == old(backups)[backupFile := old(store.log.rows)]
              case Err(DeleteFailed) =>
                && backupFile != databasePath && backupFile !in old(backups) && disk == DeleteFails
                && store.log == old(store.log) && backups == old(backups)[backupFile := old(store.log.rows)]
              case Err(e) =>
                && e == (if backupFile == databasePath then SamePathAsDatabase
                         else if backupFile in old(backups) then BackupExists else BackupFailed)
                && (e == BackupFailed ==> disk == BackupFails)
                && store.log == old(store.log) && backups == old(backups)
      ensures r.Ok? || r == Err(CloseFailed) ==>
          forall row :: row in store.log.rows <==>
            && row in old(store.log.rows)
            && (|| row.snapshot.timestamp >= cutoff
                || IsLatest(old(store.log.rows), row) || IsFirstMaximum(old(store.log.rows), row))
      ensures SameView(old(store.log.rows), store.log.rows)
    {
      if backupFile == databasePath {
        return Err(SamePathAsDatabase);
      }
      var rows := store.log.rows;
      var selection := SelectRetention(rows, cutoff);
      if backupFile in backups {
        return Err(BackupExists);
      }
      if disk == BackupFails {
        return Err(BackupFailed);
      }
      backups := backups[backupFile := rows];
      if disk == DeleteFails {
        return Err(DeleteFailed);
      }
      var removable := selection.removable;
      DeletionRetains(rows, cutoff, removable);
      RetainKeepsView(rows, cutoff);
      RetainedRows(rows, cutoff);
      store.log := Log(Filter(rows, NotIn(removable)), store.log.next);
      r := if disk == CloseFails then Err(CloseFailed) else Ok(selection.plan);
    }
  }

  function NotIn(removable: set<nat>): Row -> bool {
    (r: Row) => r.sequence !in removable
  }

  lemma DeletionRetains(rows: seq<Row>, cutoff: Timestamp, removable: set<nat>)
    requires Ascending(rows)
    requires removable == SequenceSet(rows) - SequenceSet(Retain(rows, cutoff))
    ensures Filter(rows, NotIn(removable)) == Retain(rows, cutoff)
  {
    SelectedExactly(rows, Kept(rows, cutoff));
    FilterOfSame(rows, NotIn(removable), Kept(rows, cutoff));
  }
}
