/** The append-only observations table and the queries the program asks of it. */
module ObservationLog {
  import opened Domain
  import opened Sequences
  import Ordering

  datatype Row = Row(sequence: nat, snapshot: Snapshot) {
    function Id(): ProductId { snapshot.product.id }
    function Currency(): Currency { snapshot.product.currentPrice.currency }
    function Amount(): real { Value(snapshot.product.currentPrice.amount) }
  }

  /** The rows in sequence order, and the AUTOINCREMENT counter, which never goes back. */
  datatype Log = Log(rows: seq<Row>, next: nat)

  const EMPTY_LOG := Log([], 1)

  ghost predicate Ascending(rows: seq<Row>) {
    forall i, j :: 0 <= i < j < |rows| ==> rows[i].sequence < rows[j].sequence
  }

  ghost predicate ValidLog(log: Log) {
    && Ascending(log.rows)
    && forall r :: r in log.rows ==> r.sequence < log.next
  }

  function Append(log: Log, snapshot: Snapshot): Log {
    Log(log.rows + [Row(log.next, snapshot)], log.next + 1)
  }

  /** The last inserted row of a product. */
  function LatestOf(rows: seq<Row>, id: ProductId): Option<Row> {
    if rows == [] then None
    else
      var last := rows[|rows| - 1];
      if last.Id() == id then Some(last) else LatestOf(rows[..|rows| - 1], id)
  }

  /** The earliest row carrying the highest price of a product in one currency. */
  function FirstMaximumOf(rows: seq<Row>, id: ProductId, currency: Currency): Option<Row> {
    if rows == [] then None
    else Higher(FirstMaximumOf(rows[..|rows| - 1], id, currency), rows[|rows| - 1], id, currency)
  }

  /** A later row replaces the best so far only if it is strictly higher. */
  function Higher(best: Option<Row>, row: Row, id: ProductId, currency: Currency): Option<Row> {
    if row.Id() == id && row.Currency() == currency && (best.None? || row.Amount() > best.value.Amount()) then Some(row)
    else best
  }

  /** All snapshots of a product, oldest first. */
  function HistoryOf(rows: seq<Row>, id: ProductId): seq<Snapshot> {
    Map(Filter(rows, (r: Row) => r.Id() == id), (r: Row) => r.snapshot)
  }

  /** One row per product: the one whose sequence is the product's largest. */
  function LatestRows(rows: seq<Row>): seq<Row> {
    Filter(rows, (r: Row) => LatestOf(rows, r.Id()) == Some(r))
  }

  function ById(): (Row, Row) -> bool {
    (a: Row, b: Row) => a.Id() <= b.Id()
  }

  function LatestSnapshots(rows: seq<Row>): seq<Snapshot> {
    Map(Ordering.Sort(ById(), LatestRows(rows)), (r: Row) => r.snapshot)
  }

  /** r is the product's row with the largest sequence. */
  ghost predicate IsLatest(rows: seq<Row>, r: Row) {
    r in rows && forall q :: q in rows && q.Id() == r.Id() ==> q.sequence <= r.sequence
  }

  /** r carries the highest price for its product and currency, and no earlier row does. */
  ghost predicate IsFirstMaximum(rows: seq<Row>, r: Row) {
    && r in rows
    && forall q :: q in rows && q.Id() == r.Id() && q.Currency() == r.Currency() ==>
        q.Amount() < r.Amount() || (q.Amount() == r.Amount() && r.sequence <= q.sequence)
  }

  lemma AppendKeepsValid(log: Log, snapshot: Snapshot)
    requires ValidLog(log)
    ensures ValidLog(Append(log, snapshot))
  {
    var rows := Append(log, snapshot).rows;
    forall i, j | 0 <= i < j < |rows| ensures rows[i].sequence < rows[j].sequence {
      if j == |rows| - 1 { assert rows[i] in log.rows; }
    }
  }

  lemma {:induction false} LatestCharacterized(rows: seq<Row>, id: ProductId)
    requires Ascending(rows)
    ensures forall r :: LatestOf(rows, id) == Some(r) <==> r.Id() == id && IsLatest(rows, r)
  {
    if rows != [] {
      var init, last := rows[..|rows| - 1], rows[|rows| - 1];
      LatestCharacterized(init, id);
      assert rows == init + [last];
      assert forall q :: q in init ==> q.sequence < last.sequence;
      forall r ensures LatestOf(rows, id) == Some(r) <==> r.Id() == id && IsLatest(rows, r) {
        if last.Id() == id {
          assert last in rows;
        } else {
          assert IsLatest(rows, r) && r.Id() == id <==> IsLatest(init, r) && r.Id() == id;
        }
      }
    }
  }

  lemma SequenceIdentifies(rows: seq<Row>, a: Row, b: Row)
    requires Ascending(rows) && a in rows && b in rows && a.sequence == b.sequence
    ensures a == b
  {
  }

  ghost predicate IsBest(rows: seq<Row>, id: ProductId, currency: Currency, best: Option<Row>) {
    match best
    case Some(r) => r.Id() == id && r.Currency() == currency && IsFirstMaximum(rows, r)
    case None => forall q :: q in rows ==> q.Id() != id || q.Currency() != currency
  }

  lemma HigherIsBest(rows: seq<Row>, row: Row, id: ProductId, currency: Currency, best: Option<Row>)
    requires IsBest(rows, id, currency, best)
    requires forall q :: q in rows ==> q.sequence < row.sequence
    ensures IsBest(rows + [row], id, currency, Higher(best, row, id, currency))
  {
    assert forall q :: q in rows + [row] <==> q in rows || q == row;
  }

  lemma {:induction false} FirstMaximumIsMaximum(rows: seq<Row>, id: ProductId, currency: Currency)
    requires Ascending(rows)
    ensures IsBest(rows, id, currency, FirstMaximumOf(rows, id, currency))
  {
    if rows != [] {
      var init, last := rows[..|rows| - 1], rows[|rows| - 1];
      FirstMaximumIsMaximum(init, id, currency);
      assert rows == init + [last];
      HigherIsBest(init, last, id, currency, FirstMaximumOf(init, id, currency));
    }
  }

  lemma FirstMaximumCharacterized(rows: seq<Row>, id: ProductId, currency: Currency)
    requires Ascending(rows)
    ensures forall r: Row :: FirstMaximumOf(rows, id, currency) == Some(r) <==>
              r.Id() == id && r.Currency() == currency && IsFirstMaximum(rows, r)
  {
    FirstMaximumIsMaximum(rows, id, currency);
    forall r: Row | r.Id() == id && r.Currency() == currency && IsFirstMaximum(rows, r)
      ensures FirstMaximumOf(rows, id, currency) == Some(r)
    {
      SequenceIdentifies(rows, r, FirstMaximumOf(rows, id, currency).value);
    }
  }

  /** `load` answers the last element of `history`. */
  lemma {:induction false} LoadIsLastOfHistory(rows: seq<Row>, id: ProductId)
    ensures LatestOf(rows, id).None? <==> HistoryOf(rows, id) == []
    ensures LatestOf(rows, id).Some? ==>
        HistoryOf(rows, id) != []
        && HistoryOf(rows, id)[|HistoryOf(rows, id)| - 1] == LatestOf(rows, id).value.snapshot
  {
    if rows != [] {
      LoadIsLastOfHistory(rows[..|rows| - 1], id);
    }
  }

  lemma {:induction false} HistoryIsOwn(rows: seq<Row>, id: ProductId)
    ensures forall s :: s in HistoryOf(rows, id) ==> s.product.id == id
  {
    if rows != [] {
      HistoryIsOwn(rows[..|rows| - 1], id);
      var own := Filter(rows, (r: Row) => r.Id() == id);
      forall i | 0 <= i < |own| ensures HistoryOf(rows, id)[i].product.id == id {
        assert own[i] in own;
      }
    }
  }

  lemma HistoryOfAppend(log: Log, s: Snapshot, id: ProductId)
    ensures HistoryOf(Append(log, s).rows, id)
         == HistoryOf(log.rows, id) + (if s.product.id == id then [s] else [])
  {
    var rows := Append(log, s).rows;
    assert rows[..|rows| - 1] == log.rows;
  }

  lemma ByIdIsTotal()
    ensures Ordering.TotalPreorder(ById())
  {
  }

  lemma LatestRowsDistinct(rows: seq<Row>)
    requires Ascending(rows)
    ensures NoDuplicates(LatestRows(rows))
    ensures Ordering.DistinctKeys(ById(), LatestRows(rows))
    ensures forall r :: r in LatestRows(rows) <==> LatestOf(rows, r.Id()) == Some(r)
  {
    FilterKeepsDistinct(rows, (r: Row) => LatestOf(rows, r.Id()) == Some(r));
    forall r: Row | LatestOf(rows, r.Id()) == Some(r) ensures r in rows {
      LatestCharacterized(rows, r.Id());
    }
  }

  lemma LatestSnapshotsAscending(rows: seq<Row>)
    requires Ascending(rows)
    ensures var l := LatestSnapshots(rows);
      forall i, j :: 0 <= i < j < |l| ==> l[i].product.id < l[j].product.id
  {
    var latest := LatestRows(rows);
    var sorted := Ordering.Sort(ById(), latest);
    ByIdIsTotal();
    LatestRowsDistinct(rows);
    Ordering.SortSorts(ById(), latest);
    Ordering.SortKeepsMembers(ById(), latest);
    Ordering.SortKeepsDistinct(ById(), latest);
    forall i, j | 0 <= i < j < |sorted| ensures sorted[i].Id() < sorted[j].Id() {
      assert sorted[i] in latest && sorted[j] in latest;
      assert ById()(sorted[i], sorted[j]);
      assert sorted[i] != sorted[j];
    }
  }

  lemma LatestSnapshotsMembers(rows: seq<Row>, s: Snapshot)
    requires Ascending(rows)
    ensures s in LatestSnapshots(rows) <==>
            LatestOf(rows, s.product.id).Some? && LatestOf(rows, s.product.id).value.snapshot == s
  {
    var latest := LatestRows(rows);
    var sorted := Ordering.Sort(ById(), latest);
    var l := LatestSnapshots(rows);
    ByIdIsTotal();
    LatestRowsDistinct(rows);
    Ordering.SortKeepsMembers(ById(), latest);
    if s in l {
      var i :| 0 <= i < |l| && l[i] == s;
      assert sorted[i] in latest;
    }
    var found := LatestOf(rows, s.product.id);
    if found.Some? && found.value.snapshot == s {
      assert LatestOf(rows, found.value.Id()) == Some(found.value) by {
        LatestCharacterized(rows, s.product.id);
      }
      assert found.value in sorted;
      var i :| 0 <= i < |sorted| && sorted[i] == found.value;
      assert l[i] == s;
    }
  }

  /** `latest_snapshots` lists every observed product exactly once, in identifier order,
  each with the snapshot that `load` returns. */
  lemma LatestSnapshotsListsEachProductOnce(rows: seq<Row>)
    requires Ascending(rows)
    ensures var l := LatestSnapshots(rows);
      && (forall i, j :: 0 <= i < j < |l| ==> l[i].product.id < l[j].product.id)
      && (forall s :: s in l <==>
            LatestOf(rows, s.product.id).Some? && LatestOf(rows, s.product.id).value.snapshot == s)
  {
    LatestSnapshotsAscending(rows);
    forall s
      ensures s in LatestSnapshots(rows) <==>
              LatestOf(rows, s.product.id).Some? && LatestOf(rows, s.product.id).value.snapshot == s
    {
      LatestSnapshotsMembers(rows, s);
    }
  }

  /** The SQLite store: `save` appends, everything else queries. */
  class SqliteStateStore {
    var log: Log

    constructor ()
      ensures log == EMPTY_LOG
    {
      log := EMPTY_LOG;
    }

    function Load(id: ProductId): (r: Option<Snapshot>)
      reads this
      ensures r == None <==> HistoryOf(log.rows, id) == []
      ensures r.Some? ==> |History(id, None)| > 0 && r.value == History(id, None)[|History(id, None)| - 1]
    {
      LoadIsLastOfHistory(log.rows, id);
      match LatestOf(log.rows, id)
      case None => None
      case Some(row) => Some(row.snapshot)
    }

    /** With a limit: the newest `limit` observations, still oldest first. */
    function History(id: ProductId, limit: Option<nat>): (r: seq<Snapshot>)
      requires limit.Some? ==> limit.value > 0
      reads this
      ensures limit.None? ==> r == HistoryOf(log.rows, id)
      ensures limit.Some? ==> |r| == if limit.value <= |HistoryOf(log.rows, id)| then limit.value else |HistoryOf(log.rows, id)|
      ensures |r| <= |HistoryOf(log.rows, id)| && r == HistoryOf(log.rows, id)[|HistoryOf(log.rows, id)| - |r|..]
    {
      var all := HistoryOf(log.rows, id);
      if limit.None? || limit.value >= |all| then
        assert all == all[0..];
        all
      else all[|all| - limit.value..]
    }

    /** One insert in one transaction. */
    method Save(snapshot: Snapshot, ending: Ending) returns (raised: bool)
      modifies this
      ensures raised == !ending.Returns?
      ensures log == if ending.Commits() then Append(old(log), snapshot) else old(log)
      ensures old(ValidLog(log)) ==> ValidLog(log)
    {
      if ending.RaisesBeforeCommit? {
        return true;
      }
      if old(ValidLog(log)) { AppendKeepsValid(log, snapshot); }
      log := Log(log.rows + [Row(log.next, snapshot)], log.next + 1);
      raised := ending.RaisesAfterCommit?;
    }
  }
}
