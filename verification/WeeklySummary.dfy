/** The weekly bucket of operational errors, and what folding a week of checks into it yields. */
module WeeklySummary {
  import opened Domain
  import opened Sequences
  import opened OperationalHealth
  import IsoTime

  datatype FailureCount = FailureCount(kind: FailureKind, count: nat)

  /** The causes in enumeration order. */
  const KINDS := [
    CatalogUnavailable, ProviderDataIncompatible, ProviderUnavailable, ProviderFailure, PartialProviderFailure,
    PromotionUnavailable]

  datatype Summary = Summary(
    periodStart: Date,
    counts: seq<FailureCount>,
    total: nat,
    incidents: nat,
    recoveries: nat,
    longest: nat,
    current: nat,
    firstFailureAt: Option<Timestamp>,
    lastFailureAt: Option<Timestamp>,
    deliveredAt: Option<Timestamp>)

  /** Monday is 0. Days are numbered so that day 1 is a Monday. */
  function Weekday(date: Date): nat {
    (date + 6) % 7
  }

  function WeekOf(date: Date): Date {
    date - Weekday(date)
  }

  /** A week begins on the last Monday up to a date. */
  lemma WeeksBeginOnMondays(date: Date)
    ensures Weekday(WeekOf(date)) == 0 && WeekOf(date) <= date < WeekOf(date) + 7
    ensures Weekday(date + 1) == if Weekday(date) == 6 then 0 else Weekday(date) + 1
  {
  }

  /** The first of January 2024 was a Monday. */
  lemma KnownMonday()
    ensures Weekday(IsoTime.DayNumber(IsoTime.Moment(2024, 1, 1, 0, 0, 0, 0))) == 0
  {
  }

  function Initial(periodStart: Date): Summary {
    Summary(periodStart, [], 0, 0, 0, 0, 0, None, None, None)
  }

  // ---------- The constructor's invariant ----------

  function Sum(counts: seq<FailureCount>): nat {
    if counts == [] then 0 else Sum(counts[..|counts| - 1]) + counts[|counts| - 1].count
  }

  function Listed(counts: seq<FailureCount>): set<FailureKind> {
    set c | c in counts :: c.kind
  }

  function KindsIn(kinds: set<FailureKind>): seq<FailureKind> {
    Filter(KINDS, (k: FailureKind) => k in kinds)
  }

  function KindOf(): FailureCount -> FailureKind {
    (c: FailureCount) => c.kind
  }

  /** Unique causes in enumeration order, each with a positive count. */
  predicate ValidCounts(counts: seq<FailureCount>) {
    && Map(counts, KindOf()) == KindsIn(Listed(counts))
    && forall c :: c in counts ==> c.count > 0
  }

  predicate ValidSummary(s: Summary) {
    && Weekday(s.periodStart) == 0
    && ValidCounts(s.counts)
    && Sum(s.counts) == s.total
    && s.current <= s.longest <= s.total
    && (s.firstFailureAt.Some? && s.lastFailureAt.Some? <==> s.total > 0)
    && (s.firstFailureAt.Some? && s.lastFailureAt.Some? ==> s.firstFailureAt.value <= s.lastFailureAt.value)
    && (s.deliveredAt.Some? ==> s.total > 0)
  }

  // ---------- Recording one check ----------

  /** The counts as a dictionary. */
  function Tally(counts: seq<FailureCount>): map<FailureKind, nat> {
    if counts == [] then map[]
    else Tally(counts[..|counts| - 1])[counts[|counts| - 1].kind := counts[|counts| - 1].count]
  }

  function FromTally(values: map<FailureKind, nat>): seq<FailureCount> {
    Map(KindsIn(values.Keys), (k: FailureKind) => FailureCount(k, if k in values then values[k] else 0))
  }

  function UpdatedCounts(counts: seq<FailureCount>, kind: Option<FailureKind>): seq<FailureCount> {
    if kind.None? then counts
    else
      var values := Tally(counts);
      var before := if kind.value in values then values[kind.value] else 0;
      FromTally(values[kind.value := before + 1])
  }

  /** A check together with whether the state before it was healthy. */
  datatype Entry = Entry(check: Check, wasHealthy: bool)

  function Recorded(s: Summary, e: Entry): Summary {
    var failed := e.check.Fails();
    var current := if failed then s.current + 1 else 0;
    s.(
      counts := UpdatedCounts(s.counts, e.check.failure),
      total := s.total + (if failed then 1 else 0),
      incidents := s.incidents + (if failed && e.wasHealthy then 1 else 0),
      recoveries := s.recoveries + (if !failed && !e.wasHealthy then 1 else 0),
      longest := if current > s.longest then current else s.longest,
      current := current,
      firstFailureAt := if failed && s.firstFailureAt.None? then Some(e.check.timestamp) else s.firstFailureAt,
      lastFailureAt := if failed then Some(e.check.timestamp) else s.lastFailureAt)
  }

  datatype WeeklyError = WrongPeriod | StateMismatch | InvalidSummary | EmptySummary | AlreadyDelivered

  function Checked(s: Summary): Result<Summary, WeeklyError> {
    if ValidSummary(s) then Ok(s) else Err(InvalidSummary)
  }

  function Record(s: Summary, date: Date, check: Check, previous: State, current: State): Result<Summary, WeeklyError> {
    if s.periodStart != WeekOf(date) then Err(WrongPeriod)
    else if current.lastCheckedAt != Some(check.timestamp) then Err(StateMismatch)
    else Checked(Recorded(s, Entry(check, previous.status == Healthy)))
  }

  function MarkDelivered(s: Summary, at: Timestamp): Result<Summary, WeeklyError> {
    if s.total == 0 then Err(EmptySummary)
    else if s.deliveredAt.Some? then Err(AlreadyDelivered)
    else Checked(s.(deliveredAt := Some(at)))
  }

  function ReleaseDelivery(s: Summary): Summary {
    s.(deliveredAt := None)
  }

  /** What is recorded and what can be marked as delivered. */
  lemma BucketsAccept(s: Summary, date: Date, check: Check, previous: State, current: State, at: Timestamp)
    requires ValidSummary(s)
    ensures Record(s, date, check, previous, current).Ok? ==>
        && s.periodStart <= date < s.periodStart + 7 && current.lastCheckedAt == Some(check.timestamp)
        && Record(s, date, check, previous, current).value == Recorded(s, Entry(check, previous.status == Healthy))
    ensures MarkDelivered(s, at).Ok? <==> s.total > 0 && s.deliveredAt.None?
    ensures MarkDelivered(s, at).Ok? ==> MarkDelivered(s, at).value == s.(deliveredAt := Some(at))
    ensures ReleaseDelivery(s) == s.(deliveredAt := None)
  {
  }

  /** A week's bucket: its checks recorded one by one. */
  function Folded(week: Date, entries: seq<Entry>): Summary {
    if entries == [] then Initial(week)
    else Recorded(Folded(week, entries[..|entries| - 1]), entries[|entries| - 1])
  }

  // ---------- What a bucket should say ----------

  function CountOf(entries: seq<Entry>, p: Entry -> bool): nat {
    |Filter(entries, p)|
  }

  function HasKind(kind: FailureKind): Entry -> bool {
    (e: Entry) => e.check.failure == Some(kind)
  }

  function IsFailed(): Entry -> bool {
    (e: Entry) => e.check.Fails()
  }

  function BeginsIncident(): Entry -> bool {
    (e: Entry) => e.check.Fails() && e.wasHealthy
  }

  function EndsIncident(): Entry -> bool {
    (e: Entry) => !e.check.Fails() && !e.wasHealthy
  }

  function Occurring(entries: seq<Entry>): set<FailureKind> {
    set e | e in entries && e.check.Fails() :: e.check.failure.value
  }

  /** The causes that occurred, in enumeration order, each with its number of occurrences. */
  function CountsOf(entries: seq<Entry>): seq<FailureCount> {
    Map(KindsIn(Occurring(entries)), (k: FailureKind) => FailureCount(k, CountOf(entries, HasKind(k))))
  }

  /** The checks from a to b all failed. */
  ghost predicate FailingRun(entries: seq<Entry>, a: nat, b: nat)
    requires a <= b <= |entries|
  {
    forall i :: a <= i < b ==> entries[i].check.Fails()
  }

  ghost predicate LongestRunIs(entries: seq<Entry>, n: nat) {
    && (exists a: nat, b: nat :: a <= b <= |entries| && b - a == n && FailingRun(entries, a, b))
    && (forall a: nat, b: nat :: a <= b <= |entries| && FailingRun(entries, a, b) ==> b - a <= n)
  }

  ghost predicate TrailingRunIs(entries: seq<Entry>, n: nat) {
    n <= |entries| && FailingRun(entries, |entries| - n, |entries|)
    && (n < |entries| ==> !entries[|entries| - n - 1].check.Fails())
  }

  function FirstTime(entries: seq<Entry>): Option<Timestamp> {
    if entries == [] then None else Some(entries[0].check.timestamp)
  }

  function LastTime(entries: seq<Entry>): Option<Timestamp> {
    if entries == [] then None else Some(entries[|entries| - 1].check.timestamp)
  }

  /** The bucket says of its week, exactly: how often each cause occurred, in enumeration order;
  how many checks failed, began an incident, ended one; the longest and the trailing failing run;
  and when the first and the last failure were. */
  ghost predicate Summarizes(s: Summary, week: Date, entries: seq<Entry>) {
    && s.periodStart == week
    && s.counts == CountsOf(entries)
    && s.total == CountOf(entries, IsFailed())
    && s.incidents == CountOf(entries, BeginsIncident())
    && s.recoveries == CountOf(entries, EndsIncident())
    && LongestRunIs(entries, s.longest) && TrailingRunIs(entries, s.current)
    && s.firstFailureAt == FirstTime(Filter(entries, IsFailed()))
    && s.lastFailureAt == LastTime(Filter(entries, IsFailed()))
  }

  // ---------- Counts ----------

  lemma KindsAreAll(k: FailureKind)
    ensures k in KINDS
  {
    match k
    case CatalogUnavailable => assert KINDS[0] == k;
    case ProviderDataIncompatible => assert KINDS[1] == k;
    case ProviderUnavailable => assert KINDS[2] == k;
    case ProviderFailure => assert KINDS[3] == k;
    case PartialProviderFailure => assert KINDS[4] == k;
    case PromotionUnavailable => assert KINDS[5] == k;
  }

  lemma KindsInMembers(kinds: set<FailureKind>)
    ensures forall k :: k in KindsIn(kinds) <==> k in kinds
    ensures NoDuplicates(KindsIn(kinds))
  {
    FilterKeepsDistinct(KINDS, (k: FailureKind) => k in kinds);
    forall k: FailureKind ensures k in KindsIn(kinds) <==> k in kinds {
      KindsAreAll(k);
    }
  }

  lemma TallyOfLonger(counts: seq<FailureCount>, last: FailureCount)
    requires forall c :: c in counts ==> c.kind != last.kind
    requires forall c :: c in counts <==> c.kind in Tally(counts) && Tally(counts)[c.kind] == c.count
    requires Tally(counts).Keys == Listed(counts)
    ensures forall c :: c in counts + [last] <==> c.kind in Tally(counts + [last]) && Tally(counts + [last])[c.kind] == c.count
    ensures Tally(counts + [last]).Keys == Listed(counts + [last])
  {
    assert (counts + [last])[..|counts|] == counts;
    assert Tally(counts + [last]) == Tally(counts)[last.kind := last.count];
    assert forall c :: c in counts + [last] <==> c in counts || c == last;
  }

  lemma {:induction false} TallySays(counts: seq<FailureCount>)
    requires forall i, j :: 0 <= i < j < |counts| ==> counts[i].kind != counts[j].kind
    ensures forall c :: c in counts <==> c.kind in Tally(counts) && Tally(counts)[c.kind] == c.count
    ensures Tally(counts).Keys == Listed(counts)
  {
    if counts != [] {
      var init, last := counts[..|counts| - 1], counts[|counts| - 1];
      assert counts == init + [last];
      assert forall c :: c in init ==> c.kind != last.kind;
      TallySays(init);
      TallyOfLonger(init, last);
    }
  }

  lemma FilterOfLonger(entries: seq<Entry>, e: Entry, p: Entry -> bool)
    ensures Filter(entries + [e], p) == Filter(entries, p) + (if p(e) then [e] else [])
  {
    assert (entries + [e])[..|entries|] == entries;
  }

  lemma OccurrenceCounts(entries: seq<Entry>, k: FailureKind)
    ensures k in Occurring(entries) <==> CountOf(entries, HasKind(k)) > 0
  {
    var hits := Filter(entries, HasKind(k));
    if k in Occurring(entries) {
      var e :| e in entries && e.check.Fails() && e.check.failure.value == k;
      assert e in hits;
    }
    if |hits| > 0 {
      assert hits[0] in hits;
    }
  }

  ghost predicate TalliesWeek(values: map<FailureKind, nat>, entries: seq<Entry>) {
    values.Keys == Occurring(entries) && forall k :: k in values ==> values[k] == CountOf(entries, HasKind(k))
  }

  lemma CountsListOccurring(entries: seq<Entry>)
    ensures Listed(CountsOf(entries)) == Occurring(entries)
    ensures forall c :: c in CountsOf(entries) ==> c.count == CountOf(entries, HasKind(c.kind))
    ensures forall i, j :: 0 <= i < j < |CountsOf(entries)| ==> CountsOf(entries)[i].kind != CountsOf(entries)[j].kind
  {
    var kinds, counts := KindsIn(Occurring(entries)), CountsOf(entries);
    KindsInMembers(Occurring(entries));
    forall k | k in Occurring(entries) ensures k in Listed(counts) {
      assert k in kinds;
      var i :| 0 <= i < |kinds| && kinds[i] == k;
      assert counts[i] in counts;
    }
    forall c | c in counts ensures c.kind in Occurring(entries) {
      var i :| 0 <= i < |counts| && counts[i] == c;
      assert kinds[i] in kinds;
    }
  }

  lemma TallyHoldsCounts(counts: seq<FailureCount>, entries: seq<Entry>)
    requires Listed(counts) == Occurring(entries)
    requires forall c :: c in counts ==> c.count == CountOf(entries, HasKind(c.kind))
    requires forall i, j :: 0 <= i < j < |counts| ==> counts[i].kind != counts[j].kind
    ensures TalliesWeek(Tally(counts), entries)
  {
    TallySays(counts);
    forall k | k in Tally(counts) ensures Tally(counts)[k] == CountOf(entries, HasKind(k)) {
      assert FailureCount(k, Tally(counts)[k]) in counts;
    }
  }

  /** The dictionary behind the counts of a week. */
  lemma TallyOfCounts(entries: seq<Entry>)
    ensures TalliesWeek(Tally(CountsOf(entries)), entries)
  {
    CountsListOccurring(entries);
    TallyHoldsCounts(CountsOf(entries), entries);
  }

  lemma CountOfLonger(entries: seq<Entry>, e: Entry, k: FailureKind)
    ensures CountOf(entries + [e], HasKind(k)) == CountOf(entries, HasKind(k)) + (if e.check.failure == Some(k) then 1 else 0)
  {
    FilterOfLonger(entries, e, HasKind(k));
  }

  lemma OccurringInLonger(entries: seq<Entry>, e: Entry)
    ensures Occurring(entries + [e]) == Occurring(entries) + (if e.check.Fails() then {e.check.failure.value} else {})
  {
    var longer := entries + [e];
    assert forall x :: x in longer <==> x in entries || x == e;
  }

  /** A dictionary that holds a week's counts turns into its list of counts. */
  lemma FromTallyOfWeek(values: map<FailureKind, nat>, entries: seq<Entry>)
    requires TalliesWeek(values, entries)
    ensures FromTally(values) == CountsOf(entries)
  {
    var kinds := KindsIn(Occurring(entries));
    KindsInMembers(Occurring(entries));
    forall i | 0 <= i < |kinds| ensures kinds[i] in values {
      assert kinds[i] in kinds;
    }
  }

  lemma BeforeIsCount(values: map<FailureKind, nat>, entries: seq<Entry>, kind: FailureKind)
    requires TalliesWeek(values, entries)
    ensures CountOf(entries, HasKind(kind)) == if kind in values then values[kind] else 0
  {
    OccurrenceCounts(entries, kind);
  }

  /** Counting one more failure in the dictionary. */
  lemma TallyCountsFailure(values: map<FailureKind, nat>, entries: seq<Entry>, e: Entry, kind: FailureKind, before: nat)
    requires TalliesWeek(values, entries) && e.check.failure == Some(kind)
    requires before == CountOf(entries, HasKind(kind))
    ensures TalliesWeek(values[kind := before + 1], entries + [e])
  {
    OccurringInLonger(entries, e);
    CountOfLonger(entries, e, kind);
    forall k | k in values && k != kind ensures values[k] == CountOf(entries + [e], HasKind(k)) {
      CountOfLonger(entries, e, k);
    }
  }

  lemma TallySkipsHealthy(values: map<FailureKind, nat>, entries: seq<Entry>, e: Entry)
    requires TalliesWeek(values, entries) && !e.check.Fails()
    ensures TalliesWeek(values, entries + [e])
  {
    OccurringInLonger(entries, e);
    forall k | k in values ensures values[k] == CountOf(entries + [e], HasKind(k)) {
      CountOfLonger(entries, e, k);
    }
  }

  lemma SameForHealthy(values: map<FailureKind, nat>, entries: seq<Entry>, e: Entry)
    requires TalliesWeek(values, entries) && !e.check.Fails()
    ensures CountsOf(entries + [e]) == CountsOf(entries)
  {
    TallySkipsHealthy(values, entries, e);
    FromTallyOfWeek(values, entries);
    FromTallyOfWeek(values, entries + [e]);
  }

  lemma OneMoreOfKind(values: map<FailureKind, nat>, entries: seq<Entry>, e: Entry, kind: FailureKind, before: nat)
    requires TalliesWeek(values, entries) && e.check.failure == Some(kind)
    requires before == if kind in values then values[kind] else 0
    ensures FromTally(values[kind := before + 1]) == CountsOf(entries + [e])
  {
    BeforeIsCount(values, entries, kind);
    TallyCountsFailure(values, entries, e, kind, before);
    FromTallyOfWeek(values[kind := before + 1], entries + [e]);
  }

  lemma UpdatedCountsAreCounts(entries: seq<Entry>, e: Entry)
    ensures UpdatedCounts(CountsOf(entries), e.check.failure) == CountsOf(entries + [e])
  {
    var values := Tally(CountsOf(entries));
    TallyOfCounts(entries);
    if e.check.Fails() {
      var kind := e.check.failure.value;
      OneMoreOfKind(values, entries, e, kind, if kind in values then values[kind] else 0);
    } else {
      SameForHealthy(values, entries, e);
    }
  }

  // ---------- Runs ----------

  lemma TrailingRunStep(entries: seq<Entry>, e: Entry, n: nat)
    requires TrailingRunIs(entries, n)
    ensures TrailingRunIs(entries + [e], if e.check.Fails() then n + 1 else 0)
  {
  }

  lemma RunEndingHere(entries: seq<Entry>, n: nat, a: nat)
    requires TrailingRunIs(entries, n) && a <= |entries| && FailingRun(entries, a, |entries|)
    ensures |entries| - a <= n
  {
  }

  lemma LongestRunStep(entries: seq<Entry>, e: Entry, longest: nat, current: nat)
    requires LongestRunIs(entries, longest) && TrailingRunIs(entries, current)
    ensures var c := if e.check.Fails() then current + 1 else 0;
      LongestRunIs(entries + [e], if c > longest then c else longest)
  {
    var longer := entries + [e];
    var c := if e.check.Fails() then current + 1 else 0;
    var most := if c > longest then c else longest;
    TrailingRunStep(entries, e, current);
    forall a: nat, b: nat | a <= b <= |longer| && FailingRun(longer, a, b) ensures b - a <= most {
      if b <= |entries| {
        assert forall i :: a <= i < b ==> longer[i] == entries[i];
        assert FailingRun(entries, a, b);
      } else {
        RunEndingHere(longer, c, a);
      }
    }
    if c > longest {
      assert FailingRun(longer, |longer| - c, |longer|);
    } else {
      var a: nat, b: nat :| a <= b <= |entries| && b - a == longest && FailingRun(entries, a, b);
      assert FailingRun(longer, a, b);
    }
  }

  // ---------- The fold meets the specification ----------

  lemma InitialSummarizes(week: Date)
    ensures Summarizes(Initial(week), week, [])
  {
    FilterNone(KINDS, (k: FailureKind) => k in Occurring([]));
    assert FailingRun([], 0, 0);
  }

  lemma CountsFollow(entries: seq<Entry>, e: Entry, p: Entry -> bool)
    ensures CountOf(entries + [e], p) == CountOf(entries, p) + if p(e) then 1 else 0
  {
    FilterOfLonger(entries, e, p);
  }

  lemma FailureTimesFollow(s: Summary, entries: seq<Entry>, e: Entry)
    requires s.firstFailureAt == FirstTime(Filter(entries, IsFailed()))
    requires s.lastFailureAt == LastTime(Filter(entries, IsFailed()))
    ensures Recorded(s, e).firstFailureAt == FirstTime(Filter(entries + [e], IsFailed()))
    ensures Recorded(s, e).lastFailureAt == LastTime(Filter(entries + [e], IsFailed()))
  {
    FilterOfLonger(entries, e, IsFailed());
  }

  lemma NumbersFollow(s: Summary, week: Date, entries: seq<Entry>, e: Entry)
    requires Summarizes(s, week, entries)
    ensures var t := Recorded(s, e);
      && t.total == CountOf(entries + [e], IsFailed())
      && t.incidents == CountOf(entries + [e], BeginsIncident())
      && t.recoveries == CountOf(entries + [e], EndsIncident())
  {
    CountsFollow(entries, e, IsFailed());
    CountsFollow(entries, e, BeginsIncident());
    CountsFollow(entries, e, EndsIncident());
  }

  lemma RunsFollow(s: Summary, entries: seq<Entry>, e: Entry)
    requires LongestRunIs(entries, s.longest) && TrailingRunIs(entries, s.current)
    ensures LongestRunIs(entries + [e], Recorded(s, e).longest) && TrailingRunIs(entries + [e], Recorded(s, e).current)
  {
    TrailingRunStep(entries, e, s.current);
    LongestRunStep(entries, e, s.longest, s.current);
    var current := if e.check.Fails() then s.current + 1 else 0;
    assert Recorded(s, e).current == current;
    assert Recorded(s, e).longest == if current > s.longest then current else s.longest;
  }

  lemma RecordSummarizes(s: Summary, week: Date, entries: seq<Entry>, e: Entry)
    requires Summarizes(s, week, entries)
    ensures Summarizes(Recorded(s, e), week, entries + [e])
  {
    UpdatedCountsAreCounts(entries, e);
    NumbersFollow(s, week, entries, e);
    RunsFollow(s, entries, e);
    FailureTimesFollow(s, entries, e);
  }

  /** Folding a week's checks gives exactly what the bucket should say. */
  lemma {:induction false} FoldSummarizes(week: Date, entries: seq<Entry>)
    ensures Summarizes(Folded(week, entries), week, entries)
  {
    if entries == [] {
      InitialSummarizes(week);
    } else {
      var init, last := entries[..|entries| - 1], entries[|entries| - 1];
      assert entries == init + [last];
      FoldSummarizes(week, init);
      RecordSummarizes(Folded(week, init), week, init, last);
    }
  }

  // ---------- Every bucket is valid ----------

  function SumBy(kinds: seq<FailureKind>, f: FailureKind -> nat): nat {
    if kinds == [] then 0 else SumBy(kinds[..|kinds| - 1], f) + f(kinds[|kinds| - 1])
  }

  function Counting(f: FailureKind -> nat): FailureKind -> FailureCount {
    (k: FailureKind) => FailureCount(k, f(k))
  }

  lemma {:induction false} SumOfCounting(kinds: seq<FailureKind>, f: FailureKind -> nat)
    ensures Sum(Map(kinds, Counting(f))) == SumBy(kinds, f)
  {
    if kinds != [] {
      var init := kinds[..|kinds| - 1];
      SumOfCounting(init, f);
      assert Map(kinds, Counting(f))[..|kinds| - 1] == Map(init, Counting(f));
    }
  }

  lemma {:induction false} SumBySkipsZeros(kinds: seq<FailureKind>, p: FailureKind -> bool, f: FailureKind -> nat)
    requires forall k :: !p(k) ==> f(k) == 0
    ensures SumBy(Filter(kinds, p), f) == SumBy(kinds, f)
  {
    if kinds != [] {
      var init, last := kinds[..|kinds| - 1], kinds[|kinds| - 1];
      SumBySkipsZeros(init, p, f);
      if p(last) {
        var kept := Filter(kinds, p);
        assert kept == Filter(init, p) + [last];
        assert kept[..|kept| - 1] == Filter(init, p);
      } else {
        assert Filter(kinds, p) == Filter(init, p);
      }
    }
  }

  function Occurrences(entries: seq<Entry>): FailureKind -> nat {
    (k: FailureKind) => CountOf(entries, HasKind(k))
  }

  lemma {:induction false} SumByPointwise(kinds: seq<FailureKind>, f: FailureKind -> nat, g: FailureKind -> nat, k: FailureKind)
    requires NoDuplicates(kinds)
    requires forall j :: g(j) == f(j) + (if j == k then 1 else 0)
    ensures SumBy(kinds, g) == SumBy(kinds, f) + (if k in kinds then 1 else 0)
  {
    if kinds != [] {
      var init, last := kinds[..|kinds| - 1], kinds[|kinds| - 1];
      SumByPointwise(init, f, g, k);
      assert kinds == init + [last];
    }
  }

  lemma {:induction false} SumBySame(kinds: seq<FailureKind>, f: FailureKind -> nat, g: FailureKind -> nat)
    requires forall j :: g(j) == f(j)
    ensures SumBy(kinds, g) == SumBy(kinds, f)
  {
    if kinds != [] {
      SumBySame(kinds[..|kinds| - 1], f, g);
    }
  }

  lemma OccurrencesOfLonger(kinds: seq<FailureKind>, entries: seq<Entry>, e: Entry)
    requires NoDuplicates(kinds) && forall k :: k in kinds
    ensures SumBy(kinds, Occurrences(entries + [e]))
         == SumBy(kinds, Occurrences(entries)) + (if e.check.Fails() then 1 else 0)
  {
    var f, g := Occurrences(entries), Occurrences(entries + [e]);
    forall k ensures g(k) == f(k) + (if e.check.failure == Some(k) then 1 else 0) {
      CountOfLonger(entries, e, k);
    }
    if e.check.Fails() {
      SumByPointwise(kinds, f, g, e.check.failure.value);
    } else {
      SumBySame(kinds, f, g);
    }
  }

  lemma {:induction false} OccurrencesSumToFailures(entries: seq<Entry>)
    ensures SumBy(KINDS, Occurrences(entries)) == CountOf(entries, IsFailed())
  {
    if entries == [] {
      SumBySkipsZeros(KINDS, k => false, Occurrences([]));
      FilterNone(KINDS, k => false);
    } else {
      var init, e := entries[..|entries| - 1], entries[|entries| - 1];
      assert entries == init + [e];
      OccurrencesSumToFailures(init);
      forall k {
        KindsAreAll(k);
      }
      OccurrencesOfLonger(KINDS, init, e);
    }
  }

  lemma CountsAreValid(entries: seq<Entry>)
    ensures ValidCounts(CountsOf(entries)) && Sum(CountsOf(entries)) == CountOf(entries, IsFailed())
  {
    var kinds, counts := KindsIn(Occurring(entries)), CountsOf(entries);
    KindsInMembers(Occurring(entries));
    forall c | c in counts ensures c.count > 0 {
      var i :| 0 <= i < |counts| && counts[i] == c;
      assert kinds[i] in kinds;
      OccurrenceCounts(entries, kinds[i]);
    }
    forall k ensures k in Listed(counts) <==> k in Occurring(entries) {
      if k in Listed(counts) {
        var i :| 0 <= i < |counts| && counts[i].kind == k;
        assert kinds[i] in kinds;
      }
      if k in Occurring(entries) {
        assert k in kinds;
        var i :| 0 <= i < |kinds| && kinds[i] == k;
        assert counts[i] in counts && counts[i].kind == k;
      }
    }
    assert Map(counts, KindOf()) == kinds;
    assert Listed(counts) == Occurring(entries);
    assert counts == Map(kinds, Counting(Occurrences(entries)));
    SumOfCounting(kinds, Occurrences(entries));
    forall k | k !in Occurring(entries) ensures Occurrences(entries)(k) == 0 {
      OccurrenceCounts(entries, k);
    }
    SumBySkipsZeros(KINDS, (k: FailureKind) => k in Occurring(entries), Occurrences(entries));
    OccurrencesSumToFailures(entries);
  }

  lemma {:induction false} RunWithinTotal(entries: seq<Entry>, a: nat, b: nat)
    requires a <= b <= |entries| && FailingRun(entries, a, b)
    ensures b - a <= CountOf(entries, IsFailed())
  {
    if entries != [] {
      var init := entries[..|entries| - 1];
      if b < |entries| {
        assert FailingRun(init, a, b);
        RunWithinTotal(init, a, b);
      } else if a < b {
        assert FailingRun(init, a, b - 1);
        RunWithinTotal(init, a, b - 1);
        assert entries[b - 1].check.Fails();
      }
    }
  }

  ghost predicate InTimeOrder(entries: seq<Entry>) {
    forall i, j :: 0 <= i < j < |entries| ==> entries[i].check.timestamp <= entries[j].check.timestamp
  }

  lemma OneLaterKeepsTimeOrder(entries: seq<Entry>, last: Entry)
    requires InTimeOrder(entries) && forall e :: e in entries ==> e.check.timestamp <= last.check.timestamp
    ensures InTimeOrder(entries + [last])
  {
    forall i | 0 <= i < |entries| ensures entries[i] in entries {
    }
  }

  lemma {:induction false} FilterKeepsTimeOrder(entries: seq<Entry>, p: Entry -> bool)
    requires InTimeOrder(entries)
    ensures InTimeOrder(Filter(entries, p))
  {
    if entries != [] {
      var init, last := entries[..|entries| - 1], entries[|entries| - 1];
      FilterKeepsTimeOrder(init, p);
      forall e | e in init ensures e.check.timestamp <= last.check.timestamp {
        var i :| 0 <= i < |init| && entries[i] == e;
      }
      if p(last) {
        OneLaterKeepsTimeOrder(Filter(init, p), last);
      }
    }
  }

  /** Whatever a bucket summarizes in time order, its constructor accepts. */
  lemma SummaryIsValid(s: Summary, week: Date, entries: seq<Entry>)
    requires Summarizes(s, week, entries) && InTimeOrder(entries) && Weekday(week) == 0
    requires s.deliveredAt.Some? ==> s.total > 0
    ensures ValidSummary(s)
  {
    CountsAreValid(entries);
    var a: nat, b: nat :| a <= b <= |entries| && b - a == s.longest && FailingRun(entries, a, b);
    RunWithinTotal(entries, a, b);
    assert FailingRun(entries, |entries| - s.current, |entries|);
    FilterKeepsTimeOrder(entries, IsFailed());
  }

  // ---------- Incidents and recoveries balance ----------

  /** Each entry remembers whether the one before it was healthy. */
  ghost predicate Linked(entries: seq<Entry>) {
    forall i :: 0 < i < |entries| ==> entries[i].wasHealthy == !entries[i - 1].check.Fails()
  }

  function Unhealthy(b: bool): nat {
    if b then 1 else 0
  }

  /** Unhealthy at the start, plus incidents, minus recoveries, is unhealthy at the end. */
  lemma {:induction false} IncidentsBalance(entries: seq<Entry>)
    requires Linked(entries) && entries != []
    ensures Unhealthy(!entries[0].wasHealthy) + CountOf(entries, BeginsIncident())
         == Unhealthy(entries[|entries| - 1].check.Fails()) + CountOf(entries, EndsIncident())
  {
    var init, last := entries[..|entries| - 1], entries[|entries| - 1];
    assert entries == init + [last];
    FilterOfLonger(init, last, BeginsIncident());
    FilterOfLonger(init, last, EndsIncident());
    if init != [] {
      forall i | 0 < i < |init| ensures init[i].wasHealthy == !init[i - 1].check.Fails() {
        assert entries[i].wasHealthy == !entries[i - 1].check.Fails();
      }
      IncidentsBalance(init);
      assert last.wasHealthy == !init[|init| - 1].check.Fails();
    }
  }
}
