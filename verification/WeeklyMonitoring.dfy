/** The weekly report: recording each cycle in its week and delivering the week before. */
module WeeklyMonitoring {
  import opened Domain
  import opened Sequences
  import opened OperationalHealth
  import opened OperationalMonitoring
  import opened WeeklySummary

  /** The stored buckets by week, and the summaries whose report the channel accepted. */
  datatype Weekly = Weekly(buckets: map<Date, Summary>, reports: seq<Summary>)

  const NO_WEEKS := Weekly(map[], [])

  /** One monitored cycle: the health run, its local date, whether the local delivery time has
  come, and whether the channel would accept a report. */
  datatype CycleInput = CycleInput(run: RunInput, date: Date, timeReached: bool, accepts: bool)

  /** From the Monday delivery time to the end of the week the preceding week may be reported. */
  predicate MayReport(input: CycleInput) {
    input.date != WeekOf(input.date) || input.timeReached
  }

  predicate Reportable(w: Weekly, week: Date) {
    week in w.buckets && w.buckets[week].total > 0 && w.buckets[week].deliveredAt.None?
  }

  /** Reserve, send, and release the reservation if the channel reports a failure. */
  function Report(w: Weekly, week: Date, at: Timestamp, accepts: bool): Result<Weekly, WeeklyError>
    requires week in w.buckets
  {
    match MarkDelivered(w.buckets[week], at)
    case Err(e) => Err(e)
    case Ok(reserved) =>
      if accepts then Ok(Weekly(w.buckets[week := reserved], w.reports + [w.buckets[week]]))
      else Ok(w.(buckets := w.buckets[week := ReleaseDelivery(reserved)]))
  }

  /** Report the week before the input's, if it may and can be reported. */
  function ReportPreceding(saved: Weekly, input: CycleInput): Result<Weekly, WeeklyError> {
    var week := WeekOf(input.date) - 7;
    if !MayReport(input) || !Reportable(saved, week) then Ok(saved)
    else Report(saved, week, input.run.check.timestamp, input.accepts)
  }

  function BucketFor(w: Weekly, week: Date): Summary {
    if week in w.buckets then w.buckets[week] else Initial(week)
  }

  function RunWeekly(w: Weekly, input: CycleInput, previous: State, current: State): Result<Weekly, WeeklyError> {
    var week := WeekOf(input.date);
    match Record(BucketFor(w, week), input.date, input.run.check, previous, current)
    case Err(e) => Err(e)
    case Ok(recorded) => ReportPreceding(w.(buckets := w.buckets[week := recorded]), input)
  }

  function RunsOf(inputs: seq<CycleInput>): seq<RunInput> {
    Map(inputs, (i: CycleInput) => i.run)
  }

  /** The buckets after a sequence of cycles; the health workflow runs first in each. */
  function WeeklyAfter(inputs: seq<CycleInput>, threshold: nat): Weekly {
    if inputs == [] then NO_WEEKS
    else
      var init, last := inputs[..|inputs| - 1], inputs[|inputs| - 1];
      var before := WeeklyAfter(init, threshold);
      match RunWorkflow(StoredAfter(RunsOf(init), threshold), last.run, threshold)
      case Err(_) => before
      case Ok(r) => RunWeekly(before, last, r.previous, r.state).Or(before)
  }

  // ---------- What the buckets hold ----------

  /** The checks of one week, each with the health of the state before it. */
  function WeekEntries(inputs: seq<CycleInput>, week: Date): seq<Entry> {
    if inputs == [] then []
    else
      var init, last := inputs[..|inputs| - 1], inputs[|inputs| - 1];
      WeekEntries(init, week)
      + (if WeekOf(last.date) == week then [Entry(last.run.check, Streak(RunsOf(init)) == 0)] else [])
  }

  ghost predicate CyclesInOrder(inputs: seq<CycleInput>) {
    && InOrder(RunsOf(inputs))
    && forall i, j :: 0 <= i < j < |inputs| ==> inputs[i].date <= inputs[j].date
  }

  /** Cycle i falls in the week after `week`, may report, and the channel accepts. */
  predicate Delivering(input: CycleInput, week: Date) {
    WeekOf(input.date) == week + 7 && MayReport(input) && input.accepts
  }

  /** A report is delivered from the Monday after the week, once the delivery time has come, to the Sunday
  after that, if the channel accepts it. */
  lemma DeliveringMeans(input: CycleInput, week: Date)
    ensures Delivering(input, week) <==>
            && Weekday(week) == 0 && input.accepts
            && ((input.date == week + 7 && input.timeReached) || week + 7 < input.date < week + 14)
  {
  }

  ghost predicate ReportedIn(w: Weekly, week: Date) {
    exists r :: r in w.reports && r.periodStart == week
  }

  /** A week has a bucket exactly if it has checks; the bucket is their fold; and it is marked
  delivered exactly if its report was accepted. */
  ghost predicate BucketHolds(w: Weekly, inputs: seq<CycleInput>, week: Date) {
    && (week in w.buckets <==> WeekEntries(inputs, week) != [])
    && (week in w.buckets ==> ReleaseDelivery(w.buckets[week]) == Folded(week, WeekEntries(inputs, week)))
    && (week in w.buckets ==> (w.buckets[week].deliveredAt.Some? <==> ReportedIn(w, week)))
  }

  ghost predicate BucketsHold(w: Weekly, inputs: seq<CycleInput>) {
    forall week :: BucketHolds(w, inputs, week)
  }

  /** Week's report was accepted: it had failures, and some cycle of the next week delivered. */
  ghost predicate ReportDue(inputs: seq<CycleInput>, week: Date) {
    && CountOf(WeekEntries(inputs, week), IsFailed()) > 0
    && exists i :: 0 <= i < |inputs| && Delivering(inputs[i], week)
  }

  /** No week is reported twice; a report is the fold of all the week's checks, made when the week
  was over; and a week is reported exactly if it is due. */
  ghost predicate ReportsHold(w: Weekly, inputs: seq<CycleInput>) {
    && (forall i, j :: 0 <= i < j < |w.reports| ==> w.reports[i].periodStart != w.reports[j].periodStart)
    && (forall r :: r in w.reports ==>
          && r == Folded(r.periodStart, WeekEntries(inputs, r.periodStart))
          && inputs != [] && r.periodStart + 7 <= WeekOf(inputs[|inputs| - 1].date))
    && (forall week :: ReportedIn(w, week) <==> ReportDue(inputs, week))
  }

  lemma WeekOfMonotone(a: Date, b: Date)
    requires a <= b
    ensures WeekOf(a) <= WeekOf(b)
    ensures Weekday(WeekOf(a)) == 0
  {
  }

  lemma {:induction false} NoEntriesAhead(inputs: seq<CycleInput>, week: Date)
    requires CyclesInOrder(inputs)
    requires inputs != [] ==> WeekOf(inputs[|inputs| - 1].date) < week
    ensures WeekEntries(inputs, week) == []
  {
    if inputs != [] {
      var init := inputs[..|inputs| - 1];
      PrefixInOrder(inputs);
      if init != [] {
        WeekOfMonotone(init[|init| - 1].date, inputs[|inputs| - 1].date);
      }
      NoEntriesAhead(init, week);
    }
  }

  lemma PrefixInOrder(inputs: seq<CycleInput>)
    requires CyclesInOrder(inputs) && inputs != []
    ensures CyclesInOrder(inputs[..|inputs| - 1])
    ensures RunsOf(inputs) == RunsOf(inputs[..|inputs| - 1]) + [inputs[|inputs| - 1].run]
  {
    var init := inputs[..|inputs| - 1];
    assert RunsOf(init) == RunsOf(inputs)[..|inputs| - 1];
  }

  lemma {:induction false} WeekEntriesInTimeOrder(inputs: seq<CycleInput>, week: Date)
    requires CyclesInOrder(inputs)
    ensures InTimeOrder(WeekEntries(inputs, week))
    ensures forall e :: e in WeekEntries(inputs, week) ==> inputs != [] && e.check.timestamp <= inputs[|inputs| - 1].run.check.timestamp
  {
    if inputs != [] {
      var init := inputs[..|inputs| - 1];
      PrefixInOrder(inputs);
      WeekEntriesInTimeOrder(init, week);
      var runs := RunsOf(inputs);
      if init != [] {
        assert runs[|init| - 1] == init[|init| - 1].run && runs[|inputs| - 1] == inputs[|inputs| - 1].run;
      }
      var entries := WeekEntries(init, week);
      assert forall i :: 0 <= i < |entries| ==> entries[i] in entries;
    }
  }

  lemma KnownHealth(s: State, runs: seq<RunInput>, threshold: nat)
    requires threshold > 0 && Knows(s, runs, threshold)
    ensures s.status == Healthy <==> Streak(runs) == 0
    ensures s.lastCheckedAt == if runs == [] then None else Some(runs[|runs| - 1].check.timestamp)
  {
  }

  /** What the health run hands to the weekly one. */
  lemma HealthRunHandsOver(runs: seq<RunInput>, last: RunInput, threshold: nat)
    requires threshold > 0 && InOrder(runs) && InOrder(runs + [last])
    ensures var r := RunWorkflow(StoredAfter(runs, threshold), last, threshold);
      && r.Ok?
      && (r.value.previous.status == Healthy <==> Streak(runs) == 0)
      && r.value.state.lastCheckedAt == Some(last.check.timestamp)
  {
    StoredKnows(runs, threshold);
    ResultHealth(StoredAfter(runs, threshold), runs, last, threshold);
  }

  lemma ResultHealth(s: State, runs: seq<RunInput>, last: RunInput, threshold: nat)
    requires threshold > 0 && Knows(s, runs, threshold) && InOrder(runs + [last])
    ensures var r := RunWorkflow(s, last, threshold);
      && r.Ok? && (r.value.previous.status == Healthy <==> Streak(runs) == 0)
      && r.value.state.lastCheckedAt == Some(last.check.timestamp)
  {
    KnownHealth(s, runs, threshold);
    OperationalMonitoring.TransitionTells(s, runs, last, threshold);
    SettlingTells(Transitioned(s, last, threshold).value, s, last, ChecksOf(runs + [last]), threshold);
    StreakOfLonger(runs, last);
  }

  // ---------- One cycle ----------

  /** The bucket of the current week after recording. */
  function RecordedBucket(inputs: seq<CycleInput>): Summary
    requires inputs != []
  {
    var week := WeekOf(inputs[|inputs| - 1].date);
    Folded(week, WeekEntries(inputs, week))
  }

  /** The current week has not been reported, so its bucket is just the fold of its checks so far. */
  lemma BucketSoFar(w: Weekly, inputs: seq<CycleInput>)
    requires inputs != [] && CyclesInOrder(inputs)
    requires var init := inputs[..|inputs| - 1]; BucketsHold(w, init) && ReportsHold(w, init)
    ensures var week := WeekOf(inputs[|inputs| - 1].date);
      && !ReportedIn(w, week)
      && BucketFor(w, week) == Folded(week, WeekEntries(inputs[..|inputs| - 1], week))
  {
    var init, last := inputs[..|inputs| - 1], inputs[|inputs| - 1];
    if init != [] {
      WeekOfMonotone(init[|init| - 1].date, last.date);
    }
    assert BucketHolds(w, init, WeekOf(last.date));
  }

  lemma CheckExtendsFold(inputs: seq<CycleInput>)
    requires inputs != [] && CyclesInOrder(inputs)
    ensures var init, last := inputs[..|inputs| - 1], inputs[|inputs| - 1];
      var week := WeekOf(last.date);
      var e := Entry(last.run.check, Streak(RunsOf(init)) == 0);
      && Recorded(Folded(week, WeekEntries(init, week)), e) == RecordedBucket(inputs)
      && ValidSummary(RecordedBucket(inputs))
  {
    var init, last := inputs[..|inputs| - 1], inputs[|inputs| - 1];
    var week := WeekOf(last.date);
    var entries := WeekEntries(inputs, week);
    assert entries[..|entries| - 1] == WeekEntries(init, week);
    FoldSummarizes(week, entries);
    WeekEntriesInTimeOrder(inputs, week);
    WeekOfMonotone(last.date, last.date);
    FoldedUndelivered(week, entries);
    SummaryIsValid(Folded(week, entries), week, entries);
  }

  lemma RecordExtendsFold(w: Weekly, inputs: seq<CycleInput>, previous: State, current: State)
    requires inputs != [] && CyclesInOrder(inputs)
    requires var init := inputs[..|inputs| - 1]; BucketsHold(w, init) && ReportsHold(w, init)
    requires previous.status == Healthy <==> Streak(RunsOf(inputs[..|inputs| - 1])) == 0
    requires current.lastCheckedAt == Some(inputs[|inputs| - 1].run.check.timestamp)
    ensures var last := inputs[|inputs| - 1];
      var week := WeekOf(last.date);
      Record(BucketFor(w, week), last.date, last.run.check, previous, current) == Ok(RecordedBucket(inputs))
      && !ReportedIn(w, week)
  {
    BucketSoFar(w, inputs);
    CheckExtendsFold(inputs);
    var week := WeekOf(inputs[|inputs| - 1].date);
    FoldedUndelivered(week, WeekEntries(inputs[..|inputs| - 1], week));
  }

  lemma {:induction false} FoldedUndelivered(week: Date, entries: seq<Entry>)
    ensures Folded(week, entries).deliveredAt.None? && Folded(week, entries).periodStart == week
  {
    if entries != [] {
      FoldedUndelivered(week, entries[..|entries| - 1]);
    }
  }

  lemma SavedHoldsFor(w: Weekly, inputs: seq<CycleInput>, week: Date)
    requires inputs != [] && CyclesInOrder(inputs)
    requires BucketHolds(w, inputs[..|inputs| - 1], week)
    requires !ReportedIn(w, WeekOf(inputs[|inputs| - 1].date))
    ensures BucketHolds(w.(buckets := w.buckets[WeekOf(inputs[|inputs| - 1].date) := RecordedBucket(inputs)]), inputs, week)
  {
    var current := WeekOf(inputs[|inputs| - 1].date);
    var saved := w.(buckets := w.buckets[current := RecordedBucket(inputs)]);
    assert ReportedIn(saved, week) <==> ReportedIn(w, week);
    if week == current {
      FoldedUndelivered(week, WeekEntries(inputs, week));
      assert ReleaseDelivery(saved.buckets[week]) == saved.buckets[week];
    } else {
      var init := inputs[..|inputs| - 1];
      assert WeekEntries(inputs, week) == WeekEntries(init, week);
      assert week in saved.buckets <==> week in w.buckets;
    }
  }

  lemma SavedHolds(w: Weekly, inputs: seq<CycleInput>)
    requires inputs != [] && CyclesInOrder(inputs)
    requires BucketsHold(w, inputs[..|inputs| - 1])
    requires !ReportedIn(w, WeekOf(inputs[|inputs| - 1].date))
    ensures BucketsHold(w.(buckets := w.buckets[WeekOf(inputs[|inputs| - 1].date) := RecordedBucket(inputs)]), inputs)
  {
    var saved := w.(buckets := w.buckets[WeekOf(inputs[|inputs| - 1].date) := RecordedBucket(inputs)]);
    forall week ensures BucketHolds(saved, inputs, week) {
      SavedHoldsFor(w, inputs, week);
    }
  }

  /** Earlier weeks are over: the last cycle adds nothing to them. */
  lemma EarlierWeeksAreOver(inputs: seq<CycleInput>, week: Date)
    requires inputs != [] && week < WeekOf(inputs[|inputs| - 1].date)
    ensures WeekEntries(inputs, week) == WeekEntries(inputs[..|inputs| - 1], week)
  {
  }

  /** Saving a check changes no report: the reported weeks stay, and no further one is due yet. */
  lemma SavingKeepsReports(w: Weekly, inputs: seq<CycleInput>)
    requires inputs != [] && CyclesInOrder(inputs) && ReportsHold(w, inputs[..|inputs| - 1])
    ensures forall i, j :: 0 <= i < j < |w.reports| ==> w.reports[i].periodStart != w.reports[j].periodStart
    ensures forall r :: r in w.reports ==>
              && r == Folded(r.periodStart, WeekEntries(inputs, r.periodStart))
              && r.periodStart + 7 <= WeekOf(inputs[|inputs| - 1].date)
  {
    var init, last := inputs[..|inputs| - 1], inputs[|inputs| - 1];
    forall r | r in w.reports
      ensures r == Folded(r.periodStart, WeekEntries(inputs, r.periodStart))
      ensures r.periodStart + 7 <= WeekOf(last.date)
    {
      WeekOfMonotone(init[|init| - 1].date, last.date);
      EarlierWeeksAreOver(inputs, r.periodStart);
    }
  }

  /** Once a cycle could deliver a week's report the week is over. */
  lemma DeliveredWeekIsOver(inputs: seq<CycleInput>, week: Date, i: nat)
    requires CyclesInOrder(inputs) && i < |inputs| - 1 && Delivering(inputs[i], week)
    ensures WeekEntries(inputs, week) == WeekEntries(inputs[..|inputs| - 1], week)
  {
    WeekOfMonotone(inputs[i].date, inputs[|inputs| - 1].date);
    EarlierWeeksAreOver(inputs, week);
  }

  lemma DueStays(inputs: seq<CycleInput>, week: Date)
    requires inputs != [] && CyclesInOrder(inputs) && ReportDue(inputs[..|inputs| - 1], week)
    ensures ReportDue(inputs, week)
  {
    var init := inputs[..|inputs| - 1];
    var i: nat :| i < |init| && Delivering(init[i], week);
    assert Delivering(inputs[i], week);
    DeliveredWeekIsOver(inputs, week, i);
  }

  lemma DueBefore(inputs: seq<CycleInput>, week: Date, i: nat)
    requires CyclesInOrder(inputs) && i < |inputs| - 1 && Delivering(inputs[i], week)
    requires CountOf(WeekEntries(inputs, week), IsFailed()) > 0
    ensures ReportDue(inputs[..|inputs| - 1], week)
  {
    DeliveredWeekIsOver(inputs, week, i);
    assert Delivering(inputs[..|inputs| - 1][i], week);
  }

  lemma DueEarlierOrNow(inputs: seq<CycleInput>, week: Date)
    requires inputs != [] && CyclesInOrder(inputs) && ReportDue(inputs, week)
    ensures ReportDue(inputs[..|inputs| - 1], week) || Delivering(inputs[|inputs| - 1], week)
  {
    var i: nat :| i < |inputs| && Delivering(inputs[i], week);
    if i < |inputs| - 1 {
      DueBefore(inputs, week, i);
    }
  }

  /** A cycle makes at most the preceding week due. */
  lemma DueAfterCycle(inputs: seq<CycleInput>, week: Date)
    requires inputs != [] && CyclesInOrder(inputs)
    ensures var init, last := inputs[..|inputs| - 1], inputs[|inputs| - 1];
      ReportDue(inputs, week) <==>
        ReportDue(init, week)
        || (Delivering(last, week) && CountOf(WeekEntries(inputs, week), IsFailed()) > 0)
  {
    if ReportDue(inputs[..|inputs| - 1], week) {
      DueStays(inputs, week);
    } else if ReportDue(inputs, week) {
      DueEarlierOrNow(inputs, week);
    } else {
      assert forall i :: 0 <= i < |inputs| && Delivering(inputs[i], week) ==> CountOf(WeekEntries(inputs, week), IsFailed()) == 0;
    }
  }

  /** The preceding week can be reported exactly if it had failures and was not reported before. */
  lemma ReportableMeans(w: Weekly, inputs: seq<CycleInput>, week: Date)
    requires BucketHolds(w, inputs, week)
    ensures Reportable(w, week) <==> CountOf(WeekEntries(inputs, week), IsFailed()) > 0 && !ReportedIn(w, week)
  {
    FoldSummarizes(week, WeekEntries(inputs, week));
  }

  lemma MarkingSucceeds(w: Weekly, inputs: seq<CycleInput>, reported: Date, at: Timestamp)
    requires BucketHolds(w, inputs, reported) && Reportable(w, reported)
    requires InTimeOrder(WeekEntries(inputs, reported)) && Weekday(reported) == 0
    ensures w.buckets[reported] == Folded(reported, WeekEntries(inputs, reported))
    ensures w.buckets[reported].periodStart == reported
    ensures MarkDelivered(w.buckets[reported], at) == Ok(w.buckets[reported].(deliveredAt := Some(at)))
  {
    var entries := WeekEntries(inputs, reported);
    FoldSummarizes(reported, entries);
    FoldedUndelivered(reported, entries);
    SummaryIsValid(w.buckets[reported].(deliveredAt := Some(at)), reported, entries);
  }

  lemma AcceptedReportHolds(w: Weekly, after: Weekly, inputs: seq<CycleInput>, reported: Date, at: Timestamp, week: Date)
    requires BucketHolds(w, inputs, reported) && BucketHolds(w, inputs, week) && reported in w.buckets
    requires w.buckets[reported].periodStart == reported && w.buckets[reported].deliveredAt.None?
    requires after.buckets == w.buckets[reported := w.buckets[reported].(deliveredAt := Some(at))]
    requires after.reports == w.reports + [w.buckets[reported]]
    ensures BucketHolds(after, inputs, week)
  {
    var bucket := w.buckets[reported];
    assert forall r :: r in after.reports <==> r in w.reports || r == bucket;
    assert ReportedIn(after, week) <==> ReportedIn(w, week) || week == reported;
  }

  lemma ReportingHolds(w: Weekly, inputs: seq<CycleInput>, reported: Date, at: Timestamp, accepts: bool)
    requires BucketsHold(w, inputs)
    requires Reportable(w, reported) && InTimeOrder(WeekEntries(inputs, reported)) && Weekday(reported) == 0
    ensures Report(w, reported, at, accepts).Ok?
    ensures BucketsHold(Report(w, reported, at, accepts).value, inputs)
    ensures Report(w, reported, at, accepts).value.reports
         == w.reports + (if accepts then [Folded(reported, WeekEntries(inputs, reported))] else [])
  {
    assert BucketHolds(w, inputs, reported);
    MarkingSucceeds(w, inputs, reported, at);
    var after := Report(w, reported, at, accepts).value;
    if accepts {
      forall week ensures BucketHolds(after, inputs, week) {
        assert BucketHolds(w, inputs, week);
        AcceptedReportHolds(w, after, inputs, reported, at, week);
      }
    } else {
      assert after == w;
    }
  }

  /** The last cycle reports nothing new: it may not or cannot, or nothing is there to report. */
  ghost predicate NothingNew(w: Weekly, inputs: seq<CycleInput>)
    requires inputs != []
  {
    var last := inputs[|inputs| - 1];
    !last.accepts || !MayReport(last) || ReportedIn(w, WeekOf(last.date) - 7)
    || CountOf(WeekEntries(inputs, WeekOf(last.date) - 7), IsFailed()) == 0
  }

  lemma NothingNewFor(w: Weekly, inputs: seq<CycleInput>, week: Date)
    requires inputs != [] && NothingNew(w, inputs) && Delivering(inputs[|inputs| - 1], week)
    ensures ReportedIn(w, week) || CountOf(WeekEntries(inputs, week), IsFailed()) == 0
  {
    assert week == WeekOf(inputs[|inputs| - 1].date) - 7;
  }

  lemma NothingNewIsDue(w: Weekly, inputs: seq<CycleInput>, week: Date)
    requires inputs != [] && CyclesInOrder(inputs) && NothingNew(w, inputs)
    requires ReportedIn(w, week) <==> ReportDue(inputs[..|inputs| - 1], week)
    ensures ReportedIn(w, week) <==> ReportDue(inputs, week)
  {
    DueAfterCycle(inputs, week);
    if Delivering(inputs[|inputs| - 1], week) {
      NothingNewFor(w, inputs, week);
    }
  }

  lemma NoNewReportHolds(w: Weekly, inputs: seq<CycleInput>)
    requires inputs != [] && CyclesInOrder(inputs) && ReportsHold(w, inputs[..|inputs| - 1])
    requires NothingNew(w, inputs)
    ensures ReportsHold(w, inputs)
  {
    SavingKeepsReports(w, inputs);
    forall week ensures ReportedIn(w, week) <==> ReportDue(inputs, week) {
      assert ReportedIn(w, week) <==> ReportDue(inputs[..|inputs| - 1], week);
      NothingNewIsDue(w, inputs, week);
    }
  }

  lemma DistinctWithAnother(reports: seq<Summary>, another: Summary)
    requires forall i, j :: 0 <= i < j < |reports| ==> reports[i].periodStart != reports[j].periodStart
    requires forall r :: r in reports ==> r.periodStart != another.periodStart
    ensures var longer := reports + [another];
      forall i, j :: 0 <= i < j < |longer| ==> longer[i].periodStart != longer[j].periodStart
  {
  }

  lemma ReportedWithAnother(w: Weekly, after: Weekly, another: Summary, week: Date)
    requires after.reports == w.reports + [another]
    ensures ReportedIn(after, week) <==> ReportedIn(w, week) || week == another.periodStart
    ensures forall r :: r in after.reports <==> r in w.reports || r == another
  {
    assert forall r :: r in after.reports <==> r in w.reports || r == another;
    assert another in after.reports;
  }

  lemma NewReportHolds(w: Weekly, after: Weekly, inputs: seq<CycleInput>, reported: Date, report: Summary)
    requires inputs != [] && CyclesInOrder(inputs) && ReportsHold(w, inputs[..|inputs| - 1])
    requires reported == WeekOf(inputs[|inputs| - 1].date) - 7
    requires Delivering(inputs[|inputs| - 1], reported) && !ReportedIn(w, reported)
    requires CountOf(WeekEntries(inputs, reported), IsFailed()) > 0
    requires report == Folded(reported, WeekEntries(inputs, reported)) && report.periodStart == reported
    requires after.reports == w.reports + [report]
    ensures ReportsHold(after, inputs)
  {
    SavingKeepsReports(w, inputs);
    DistinctWithAnother(w.reports, report);
    ReportedWithAnother(w, after, report, reported);
    forall week ensures ReportedIn(after, week) <==> ReportDue(inputs, week) {
      ReportedWithAnother(w, after, report, week);
      DueAfterCycle(inputs, week);
    }
  }

  lemma ReportMadeHolds(saved: Weekly, inputs: seq<CycleInput>)
    requires inputs != [] && CyclesInOrder(inputs)
    requires BucketsHold(saved, inputs) && ReportsHold(saved, inputs[..|inputs| - 1])
    requires var last := inputs[|inputs| - 1]; MayReport(last) && Reportable(saved, WeekOf(last.date) - 7)
    ensures var last := inputs[|inputs| - 1];
      var r := Report(saved, WeekOf(last.date) - 7, last.run.check.timestamp, last.accepts);
      r.Ok? && BucketsHold(r.value, inputs) && ReportsHold(r.value, inputs)
  {
    var last := inputs[|inputs| - 1];
    var reported := WeekOf(last.date) - 7;
    WeekEntriesInTimeOrder(inputs, reported);
    WeekOfMonotone(last.date, last.date);
    ReportingHolds(saved, inputs, reported, last.run.check.timestamp, last.accepts);
    var after := Report(saved, reported, last.run.check.timestamp, last.accepts).value;
    if last.accepts {
      AcceptedIsReported(saved, after, inputs);
    } else {
      NoNewReportHolds(saved, inputs);
      SameReportsHold(saved, after, inputs);
    }
  }

  lemma AcceptedIsReported(saved: Weekly, after: Weekly, inputs: seq<CycleInput>)
    requires inputs != [] && CyclesInOrder(inputs)
    requires BucketsHold(saved, inputs) && ReportsHold(saved, inputs[..|inputs| - 1])
    requires var last := inputs[|inputs| - 1];
      var reported := WeekOf(last.date) - 7;
      && MayReport(last) && last.accepts && Reportable(saved, reported)
      && after.reports == saved.reports + [Folded(reported, WeekEntries(inputs, reported))]
    ensures ReportsHold(after, inputs)
  {
    var reported := WeekOf(inputs[|inputs| - 1].date) - 7;
    assert BucketHolds(saved, inputs, reported);
    ReportableMeans(saved, inputs, reported);
    WeekOfMonotone(inputs[|inputs| - 1].date, inputs[|inputs| - 1].date);
    FoldedUndelivered(reported, WeekEntries(inputs, reported));
    NewReportHolds(saved, after, inputs, reported, Folded(reported, WeekEntries(inputs, reported)));
  }

  lemma NothingReportedHolds(saved: Weekly, inputs: seq<CycleInput>)
    requires inputs != [] && CyclesInOrder(inputs)
    requires BucketHolds(saved, inputs, WeekOf(inputs[|inputs| - 1].date) - 7)
    requires ReportsHold(saved, inputs[..|inputs| - 1])
    requires var last := inputs[|inputs| - 1]; !(MayReport(last) && Reportable(saved, WeekOf(last.date) - 7))
    ensures ReportsHold(saved, inputs)
  {
    ReportableMeans(saved, inputs, WeekOf(inputs[|inputs| - 1].date) - 7);
    NoNewReportHolds(saved, inputs);
  }

  /** The second half of a cycle: from the saved buckets, report the preceding week or not. */
  lemma ReportingStepHolds(saved: Weekly, inputs: seq<CycleInput>)
    requires inputs != [] && CyclesInOrder(inputs)
    requires BucketsHold(saved, inputs) && ReportsHold(saved, inputs[..|inputs| - 1])
    ensures var r := ReportPreceding(saved, inputs[|inputs| - 1]);
      r.Ok? && BucketsHold(r.value, inputs) && ReportsHold(r.value, inputs)
  {
    var last := inputs[|inputs| - 1];
    var reported := WeekOf(last.date) - 7;
    if MayReport(last) && Reportable(saved, reported) {
      ReportMadeHolds(saved, inputs);
    } else {
      NoReportMadeHolds(saved, inputs);
    }
  }

  lemma NoReportMadeHolds(saved: Weekly, inputs: seq<CycleInput>)
    requires inputs != [] && CyclesInOrder(inputs)
    requires BucketsHold(saved, inputs) && ReportsHold(saved, inputs[..|inputs| - 1])
    requires var last := inputs[|inputs| - 1]; !(MayReport(last) && Reportable(saved, WeekOf(last.date) - 7))
    ensures ReportPreceding(saved, inputs[|inputs| - 1]) == Ok(saved)
    ensures BucketsHold(saved, inputs) && ReportsHold(saved, inputs)
  {
    assert BucketHolds(saved, inputs, WeekOf(inputs[|inputs| - 1].date) - 7);
    NothingReportedHolds(saved, inputs);
  }

  lemma CycleHolds(w: Weekly, inputs: seq<CycleInput>, previous: State, current: State)
    requires inputs != [] && CyclesInOrder(inputs)
    requires BucketsHold(w, inputs[..|inputs| - 1]) && ReportsHold(w, inputs[..|inputs| - 1])
    requires previous.status == Healthy <==> Streak(RunsOf(inputs[..|inputs| - 1])) == 0
    requires current.lastCheckedAt == Some(inputs[|inputs| - 1].run.check.timestamp)
    ensures var r := RunWeekly(w, inputs[|inputs| - 1], previous, current);
      r.Ok? && BucketsHold(r.value, inputs) && ReportsHold(r.value, inputs)
  {
    RecordExtendsFold(w, inputs, previous, current);
    SavedHolds(w, inputs);
    var saved := w.(buckets := w.buckets[WeekOf(inputs[|inputs| - 1].date) := RecordedBucket(inputs)]);
    SameReportsHold(w, saved, inputs[..|inputs| - 1]);
    ReportingStepHolds(saved, inputs);
  }

  lemma SameReportsHold(a: Weekly, b: Weekly, inputs: seq<CycleInput>)
    requires ReportsHold(a, inputs) && a.reports == b.reports
    ensures ReportsHold(b, inputs)
  {
    assert forall d :: ReportedIn(a, d) <==> ReportedIn(b, d);
  }

  // ---------- Any number of cycles ----------

  lemma EmptyHolds()
    ensures BucketsHold(NO_WEEKS, []) && ReportsHold(NO_WEEKS, [])
  {
  }

  /** With local dates and checks that do not go back: every week with checks has one bucket, the
  fold of all its checks; each week's report is accepted at most once, covers every check of the
  week, and is accepted exactly if the week had failures and some cycle of the following week was
  allowed to report and got through; and a bucket is marked delivered exactly if it was. */
  lemma {:induction false} EachWeekReportedOnce(inputs: seq<CycleInput>, threshold: nat)
    requires threshold > 0 && CyclesInOrder(inputs)
    ensures BucketsHold(WeeklyAfter(inputs, threshold), inputs) && ReportsHold(WeeklyAfter(inputs, threshold), inputs)
  {
    if inputs == [] {
      EmptyHolds();
    } else {
      var init, last := inputs[..|inputs| - 1], inputs[|inputs| - 1];
      PrefixInOrder(inputs);
      EachWeekReportedOnce(init, threshold);
      HealthRunHandsOver(RunsOf(init), last.run, threshold);
      var r := RunWorkflow(StoredAfter(RunsOf(init), threshold), last.run, threshold).value;
      CycleHolds(WeeklyAfter(init, threshold), inputs, r.previous, r.state);
    }
  }

  /** Hence every stored bucket and every report says exactly what its week was. */
  lemma ReportsSummarizeTheirWeeks(inputs: seq<CycleInput>, threshold: nat)
    requires threshold > 0 && CyclesInOrder(inputs)
    ensures forall r :: r in WeeklyAfter(inputs, threshold).reports ==>
              Summarizes(r, r.periodStart, WeekEntries(inputs, r.periodStart))
    ensures forall week :: week in WeeklyAfter(inputs, threshold).buckets ==>
              Summarizes(WeeklyAfter(inputs, threshold).buckets[week], week, WeekEntries(inputs, week))
  {
    EachWeekReportedOnce(inputs, threshold);
    var w := WeeklyAfter(inputs, threshold);
    forall r | r in w.reports ensures Summarizes(r, r.periodStart, WeekEntries(inputs, r.periodStart)) {
      FoldSummarizes(r.periodStart, WeekEntries(inputs, r.periodStart));
    }
    forall week | week in w.buckets ensures Summarizes(w.buckets[week], week, WeekEntries(inputs, week)) {
      assert BucketHolds(w, inputs, week);
      FoldSummarizes(week, WeekEntries(inputs, week));
    }
  }

  // ---------- Incidents across weeks ----------

  lemma FirstOrNextEntry(inputs: seq<CycleInput>)
    requires |inputs| > 1 && CyclesInOrder(inputs)
    ensures var init, last := inputs[..|inputs| - 1], inputs[|inputs| - 1];
      var before := init[|init| - 1];
      && (WeekOf(before.date) != WeekOf(last.date) ==> WeekEntries(init, WeekOf(last.date)) == [])
      && (Streak(RunsOf(init)) == 0 <==> !before.run.check.Fails())
  {
    var init, last := inputs[..|inputs| - 1], inputs[|inputs| - 1];
    var before := init[|init| - 1];
    PrefixInOrder(inputs);
    PrefixInOrder(init);
    WeekOfMonotone(before.date, last.date);
    if WeekOf(before.date) < WeekOf(last.date) {
      NoEntriesAhead(init, WeekOf(last.date));
    }
    StreakOfLonger(RunsOf(init[..|init| - 1]), before.run);
  }

  /** The week's last entry is the last cycle's, if that falls in the week. */
  ghost predicate EndsWithLast(inputs: seq<CycleInput>, week: Date) {
    inputs != [] && WeekOf(inputs[|inputs| - 1].date) == week ==>
      var entries := WeekEntries(inputs, week);
      entries != [] && entries[|entries| - 1].check == inputs[|inputs| - 1].run.check
  }

  lemma NextEntryIsLinked(inputs: seq<CycleInput>)
    requires |inputs| > 1 && CyclesInOrder(inputs)
    requires var init, week := inputs[..|inputs| - 1], WeekOf(inputs[|inputs| - 1].date);
      Linked(WeekEntries(init, week)) && EndsWithLast(init, week)
    ensures Linked(WeekEntries(inputs, WeekOf(inputs[|inputs| - 1].date)))
  {
    var init, last := inputs[..|inputs| - 1], inputs[|inputs| - 1];
    var entries := WeekEntries(init, WeekOf(last.date));
    FirstOrNextEntry(inputs);
    if entries != [] {
      LinkedWithAnother(entries, Entry(last.run.check, Streak(RunsOf(init)) == 0));
    }
  }

  lemma {:induction false} WeekIsLinked(inputs: seq<CycleInput>, week: Date)
    requires CyclesInOrder(inputs)
    ensures Linked(WeekEntries(inputs, week)) && EndsWithLast(inputs, week)
  {
    if inputs != [] {
      PrefixInOrder(inputs);
      WeekIsLinked(inputs[..|inputs| - 1], week);
      if |inputs| > 1 && WeekOf(inputs[|inputs| - 1].date) == week {
        NextEntryIsLinked(inputs);
      }
    }
  }

  lemma LinkedWithAnother(entries: seq<Entry>, e: Entry)
    requires Linked(entries) && entries != [] && e.wasHealthy == !entries[|entries| - 1].check.Fails()
    ensures Linked(entries + [e])
  {
  }

  lemma BucketNumbers(w: Weekly, inputs: seq<CycleInput>, week: Date)
    requires BucketHolds(w, inputs, week) && week in w.buckets
    ensures WeekEntries(inputs, week) != []
    ensures w.buckets[week].incidents == CountOf(WeekEntries(inputs, week), BeginsIncident())
    ensures w.buckets[week].recoveries == CountOf(WeekEntries(inputs, week), EndsIncident())
  {
    FoldSummarizes(week, WeekEntries(inputs, week));
  }

  lemma StoredBucketHolds(inputs: seq<CycleInput>, threshold: nat, week: Date)
    requires threshold > 0 && CyclesInOrder(inputs)
    ensures BucketHolds(WeeklyAfter(inputs, threshold), inputs, week)
  {
    EachWeekReportedOnce(inputs, threshold);
  }

  /** In every stored bucket: unhealthy when the week began, plus incidents, minus recoveries, is
  unhealthy at its last check. */
  lemma BucketsBalance(inputs: seq<CycleInput>, threshold: nat, week: Date)
    requires threshold > 0 && CyclesInOrder(inputs) && week in WeeklyAfter(inputs, threshold).buckets
    ensures var bucket, entries := WeeklyAfter(inputs, threshold).buckets[week], WeekEntries(inputs, week);
      && entries != []
      && Unhealthy(!entries[0].wasHealthy) + bucket.incidents
         == Unhealthy(entries[|entries| - 1].check.Fails()) + bucket.recoveries
  {
    StoredBucketHolds(inputs, threshold, week);
    BucketNumbers(WeeklyAfter(inputs, threshold), inputs, week);
    WeekIsLinked(inputs, week);
    IncidentsBalance(WeekEntries(inputs, week));
  }

  /** Incidents less recoveries. */
  function Net(entries: seq<Entry>): int {
    CountOf(entries, BeginsIncident()) - CountOf(entries, EndsIncident())
  }

  function NetOfWeeks(inputs: seq<CycleInput>, weeks: seq<Date>): int {
    if weeks == [] then 0 else Net(WeekEntries(inputs, weeks[0])) + NetOfWeeks(inputs, weeks[1..])
  }

  /** What one check adds: it begins an incident, ends one, or neither. */
  function NetOf(e: Entry): int {
    if e.check.Fails() && e.wasHealthy then 1 else if !e.check.Fails() && !e.wasHealthy then -1 else 0
  }

  function LastEntry(inputs: seq<CycleInput>): Entry
    requires inputs != []
  {
    Entry(inputs[|inputs| - 1].run.check, Streak(RunsOf(inputs[..|inputs| - 1])) == 0)
  }

  lemma NetOfLonger(entries: seq<Entry>, e: Entry)
    ensures Net(entries + [e]) == Net(entries) + NetOf(e)
  {
    CountsFollow(entries, e, BeginsIncident());
    CountsFollow(entries, e, EndsIncident());
  }

  lemma NetOfOneWeek(inputs: seq<CycleInput>, week: Date)
    requires inputs != []
    ensures Net(WeekEntries(inputs, week)) == Net(WeekEntries(inputs[..|inputs| - 1], week))
            + if WeekOf(inputs[|inputs| - 1].date) == week then NetOf(LastEntry(inputs)) else 0
  {
    var entries := WeekEntries(inputs[..|inputs| - 1], week);
    NetOfLonger(entries, LastEntry(inputs));
    assert entries + [] == entries;
  }

  lemma {:induction false} OneCycleInOneWeek(inputs: seq<CycleInput>, weeks: seq<Date>)
    requires inputs != [] && NoDuplicates(weeks)
    ensures NetOfWeeks(inputs, weeks) == NetOfWeeks(inputs[..|inputs| - 1], weeks)
            + if WeekOf(inputs[|inputs| - 1].date) in weeks then NetOf(LastEntry(inputs)) else 0
  {
    if weeks != [] {
      NetOfOneWeek(inputs, weeks[0]);
      OneCycleInOneWeek(inputs, weeks[1..]);
      assert weeks == [weeks[0]] + weeks[1..];
      assert weeks[0] !in weeks[1..];
    }
  }

  lemma {:induction false} NothingYet(weeks: seq<Date>)
    ensures NetOfWeeks([], weeks) == 0
  {
    if weeks != [] {
      NothingYet(weeks[1..]);
    }
  }

  lemma HealthMovesByNet(inputs: seq<CycleInput>)
    requires inputs != []
    ensures Unhealthy(Streak(RunsOf(inputs)) > 0)
         == Unhealthy(Streak(RunsOf(inputs[..|inputs| - 1])) > 0) + NetOf(LastEntry(inputs))
  {
    var init, last := inputs[..|inputs| - 1], inputs[|inputs| - 1];
    assert RunsOf(inputs) == RunsOf(init) + [last.run];
    StreakOfLonger(RunsOf(init), last.run);
  }

  lemma {:induction false} WeeksTelescope(inputs: seq<CycleInput>, weeks: seq<Date>)
    requires NoDuplicates(weeks) && forall i :: i in inputs ==> WeekOf(i.date) in weeks
    ensures NetOfWeeks(inputs, weeks) == Unhealthy(Streak(RunsOf(inputs)) > 0)
  {
    if inputs == [] {
      NothingYet(weeks);
    } else {
      var init, last := inputs[..|inputs| - 1], inputs[|inputs| - 1];
      assert inputs == init + [last];
      WeeksTelescope(init, weeks);
      OneCycleInOneWeek(inputs, weeks);
      HealthMovesByNet(inputs);
    }
  }

  function NetOfBuckets(buckets: map<Date, Summary>, weeks: seq<Date>): int
    requires forall week :: week in weeks ==> week in buckets
  {
    if weeks == [] then 0
    else
      var first := weeks[0];
      assert first in weeks;
      buckets[first].incidents - buckets[first].recoveries + NetOfBuckets(buckets, weeks[1..])
  }

  lemma {:induction false} BucketsAddUp(w: Weekly, inputs: seq<CycleInput>, weeks: seq<Date>)
    requires BucketsHold(w, inputs) && forall week :: week in weeks ==> week in w.buckets
    ensures NetOfBuckets(w.buckets, weeks) == NetOfWeeks(inputs, weeks)
  {
    if weeks != [] {
      assert weeks[0] in weeks;
      assert BucketHolds(w, inputs, weeks[0]);
      BucketNumbers(w, inputs, weeks[0]);
      BucketsAddUp(w, inputs, weeks[1..]);
    }
  }

  lemma {:induction false} WeekHasEntry(inputs: seq<CycleInput>, input: CycleInput)
    requires input in inputs
    ensures WeekEntries(inputs, WeekOf(input.date)) != []
  {
    var init := inputs[..|inputs| - 1];
    assert inputs == init + [inputs[|inputs| - 1]];
    if input in init {
      WeekHasEntry(init, input);
    }
  }

  /** Over all stored buckets together, incidents and recoveries cancel up to whether the last check
  failed. */
  lemma StoredBucketsTelescope(inputs: seq<CycleInput>, threshold: nat, weeks: seq<Date>)
    requires threshold > 0 && CyclesInOrder(inputs)
    requires NoDuplicates(weeks) && forall week :: week in weeks <==> week in WeeklyAfter(inputs, threshold).buckets
    ensures NetOfBuckets(WeeklyAfter(inputs, threshold).buckets, weeks) == Unhealthy(Streak(RunsOf(inputs)) > 0)
  {
    EachWeekReportedOnce(inputs, threshold);
    var w := WeeklyAfter(inputs, threshold);
    forall i | i in inputs ensures WeekOf(i.date) in weeks {
      WeekHasEntry(inputs, i);
      assert BucketHolds(w, inputs, WeekOf(i.date));
    }
    WeeksTelescope(inputs, weeks);
    BucketsAddUp(w, inputs, weeks);
  }

  // ---------- When saving or sending raises ----------

  /** How the three writing calls end, and whether the channel raises something else than the failure
  it may report. */
  datatype Faults = Faults(recording: Ending, reserving: Ending, channelRaises: bool, releasing: Ending)

  const NO_FAULTS := Faults(Returns, Returns, false, Returns)

  /** The weekly tables afterwards, and whether the call raised. */
  datatype Attempted = Attempted(weekly: Weekly, raised: bool)

  function SendReserved(w: Weekly, week: Date, reserved: Summary, accepts: bool, faults: Faults): Attempted
    requires week in w.buckets
  {
    var marked := w.(buckets := w.buckets[week := reserved]);
    if faults.channelRaises then Attempted(marked, true)
    else if accepts then Attempted(marked.(reports := w.reports + [w.buckets[week]]), false)
    else if faults.releasing.Commits() then
      Attempted(w.(buckets := w.buckets[week := ReleaseDelivery(reserved)]), !faults.releasing.Returns?)
    else Attempted(marked, true)
  }

  function TryReport(w: Weekly, week: Date, at: Timestamp, accepts: bool, faults: Faults): Attempted
    requires week in w.buckets
  {
    match MarkDelivered(w.buckets[week], at)
    case Err(_) => Attempted(w, true)
    case Ok(reserved) =>
      match faults.reserving
      case RaisesBeforeCommit => Attempted(w, true)
      case RaisesAfterCommit => Attempted(w.(buckets := w.buckets[week := reserved]), true)
      case Returns => SendReserved(w, week, reserved, accepts, faults)
  }

  function TryReportPreceding(saved: Weekly, input: CycleInput, faults: Faults): Attempted {
    var week := WeekOf(input.date) - 7;
    if !MayReport(input) || !Reportable(saved, week) then Attempted(saved, false)
    else TryReport(saved, week, input.run.check.timestamp, input.accepts, faults)
  }

  function TryWeekly(w: Weekly, input: CycleInput, faults: Faults, previous: State, current: State): Attempted {
    var week := WeekOf(input.date);
    match Record(BucketFor(w, week), input.date, input.run.check, previous, current)
    case Err(_) => Attempted(w, true)
    case Ok(recorded) =>
      var saved := w.(buckets := w.buckets[week := recorded]);
      match faults.recording
      case RaisesBeforeCommit => Attempted(w, true)
      case RaisesAfterCommit => Attempted(saved, true)
      case Returns => TryReportPreceding(saved, input, faults)
  }

  /** If nothing raises this is the cycle described above. */
  lemma TryingWithoutFaults(w: Weekly, input: CycleInput, previous: State, current: State)
    requires RunWeekly(w, input, previous, current).Ok?
    ensures TryWeekly(w, input, NO_FAULTS, previous, current)
         == Attempted(RunWeekly(w, input, previous, current).value, false)
  {
  }

  /** A cycle raises exactly if its check is refused, or a save it makes or the channel raises. */
  lemma TryingRaises(w: Weekly, input: CycleInput, faults: Faults, previous: State, current: State)
    requires RunWeekly(w, input, previous, current).Ok?
    ensures var week := WeekOf(input.date);
      var recorded := Record(BucketFor(w, week), input.date, input.run.check, previous, current).value;
      var reports := MayReport(input) && Reportable(w.(buckets := w.buckets[week := recorded]), week - 7);
      TryWeekly(w, input, faults, previous, current).raised <==>
        || !faults.recording.Returns?
        || (reports && (!faults.reserving.Returns? || faults.channelRaises || (!input.accepts && !faults.releasing.Returns?)))
  {
  }

  /** What a reportable week becomes: reported and marked if everything works and the channel accepts; marked
  but not reported if marking it raised after its commit, the channel raised, or unmarking it raised
  before its commit; and else as it was. */
  lemma TryingLeaves(w: Weekly, week: Date, at: Timestamp, accepts: bool, faults: Faults)
    requires Reportable(w, week) && ValidSummary(w.buckets[week])
    ensures var marked := w.buckets[week := w.buckets[week].(deliveredAt := Some(at))];
      TryReport(w, week, at, accepts, faults).weekly
      == if faults.reserving.Returns? && !faults.channelRaises && accepts then Weekly(marked, w.reports + [w.buckets[week]])
         else if || faults.reserving.RaisesAfterCommit?
                 || (faults.reserving.Returns? && (faults.channelRaises || faults.releasing.RaisesBeforeCommit?))
         then Weekly(marked, w.reports)
         else w
  {
    assert w.buckets[week := w.buckets[week]] == w.buckets;
    assert ReleaseDelivery(w.buckets[week].(deliveredAt := Some(at))) == w.buckets[week];
  }

  lemma MarkingIsValid(s: Summary, at: Timestamp)
    requires ValidSummary(s) && s.total > 0 && s.deliveredAt.None?
    ensures MarkDelivered(s, at) == Ok(s.(deliveredAt := Some(at)))
    ensures ValidSummary(MarkDelivered(s, at).value) && ValidSummary(ReleaseDelivery(MarkDelivered(s, at).value))
  {
  }

  // ---------- The workflow ----------

  class WeeklyStore {
    var buckets: map<Date, Summary>

    constructor ()
      ensures buckets == map[]
    {
      buckets := map[];
    }

    function Load(week: Date): Option<Summary>
      reads this
    {
      if week in buckets then Some(buckets[week]) else None
    }

    /** One upsert in one transaction. */
    method Save(s: Summary, ending: Ending) returns (raised: bool)
      modifies this
      ensures raised == !ending.Returns?
      ensures buckets == if ending.Commits() then old(buckets)[s.periodStart := s] else old(buckets)
    {
      if ending.Commits() {
        buckets := buckets[s.periodStart := s];
      }
      raised := !ending.Returns?;
    }
  }

  class WeeklyOperationalSummaryWorkflow {
    const store: WeeklyStore
    var reports: seq<Summary>

    constructor (store: WeeklyStore)
      ensures this.store == store && reports == []
    {
      this.store := store;
      reports := [];
    }

    function Current(): Weekly
      reads this, store
    {
      Weekly(store.buckets, reports)
    }

    /** Every stored bucket is valid and filed under its own week. */
    ghost predicate Filed()
      reads store
    {
      forall week :: week in store.buckets ==>
        store.buckets[week].periodStart == week && ValidSummary(store.buckets[week])
    }

    /** Send what has just been reserved; `before` are the tables before that. */
    method SendReport(ghost before: Weekly, preceding: Summary, reserved: Summary, accepts: bool, faults: Faults)
      returns (raised: bool)
      requires Filed() && ValidSummary(ReleaseDelivery(reserved))
      requires var week := preceding.periodStart;
        && reserved.periodStart == week && week in before.buckets && before.buckets[week] == preceding
        && Current() == before.(buckets := before.buckets[week := reserved])
      modifies this, store
      ensures Filed() && SendReserved(before, preceding.periodStart, reserved, accepts, faults) == Attempted(Current(), raised)
    {
      if faults.channelRaises {
        return true;
      }
      if accepts {
        reports := reports + [preceding];
        return false;
      }
      raised := store.Save(ReleaseDelivery(reserved), faults.releasing);
    }

    /** Reserve and send the report of a stored bucket. */
    method SendReserving(preceding: Summary, at: Timestamp, accepts: bool, faults: Faults) returns (raised: bool)
      requires Filed() && Reportable(Current(), preceding.periodStart) && store.buckets[preceding.periodStart] == preceding
      modifies this, store
      ensures Filed()
      ensures TryReport(old(Current()), preceding.periodStart, at, accepts, faults) == Attempted(Current(), raised)
    {
      MarkingIsValid(preceding, at);
      var reserved := MarkDelivered(preceding, at);
      raised := store.Save(reserved.value, faults.reserving);
      if !raised {
        raised := SendReport(old(Current()), preceding, reserved.value, accepts, faults);
      }
    }

    method ReportPrecedingWeek(input: CycleInput, faults: Faults) returns (raised: bool)
      requires Filed()
      modifies this, store
      ensures Filed() && TryReportPreceding(old(Current()), input, faults) == Attempted(Current(), raised)
    {
      if !MayReport(input) {
        return false;
      }
      var preceding := store.Load(WeekOf(input.date) - 7);
      if preceding.None? || preceding.value.total == 0 || preceding.value.deliveredAt.Some? {
        return false;
      }
      raised := SendReserving(preceding.value, input.run.check.timestamp, input.accepts, faults);
    }

    /** Save the check in its week's bucket, then report the preceding week if due. */
    method RunOnce(input: CycleInput, faults: Faults, previous: State, current: State) returns (raised: bool)
      requires Filed()
      modifies this, store
      ensures Filed()
      ensures TryWeekly(old(Current()), input, faults, previous, current) == Attempted(Current(), raised)
    {
      var week := WeekOf(input.date);
      var loaded := store.Load(week);
      var bucket := if loaded.Some? then loaded.value else Initial(week);
      assert bucket == BucketFor(Current(), week);
      var recorded := Record(bucket, input.date, input.run.check, previous, current);
      if recorded.Err? {
        return true;
      }
      raised := store.Save(recorded.value, faults.recording);
      if !raised {
        raised := ReportPrecedingWeek(input, faults);
      }
    }
  }
}
