/** Weekly reports when anything may raise: no week is ever reported twice, and which are lost. */
module WeeklyFaults {
  import opened Domain
  import opened OperationalHealth
  import opened WeeklySummary
  import opened WeeklyMonitoring

  /** One cycle, with whatever health states the cycle hands over. */
  datatype FaultyCycle = FaultyCycle(input: CycleInput, faults: Faults, previous: State, current: State)

  function Cycle(w: Weekly, cycle: FaultyCycle): Weekly {
    TryWeekly(w, cycle.input, cycle.faults, cycle.previous, cycle.current).weekly
  }

  /** What becomes of a report that was reserved and not delivered: it stays reserved. */
  predicate StaysReserved(accepts: bool, faults: Faults) {
    || faults.reserving.RaisesAfterCommit?
    || (faults.reserving.Returns? && (faults.channelRaises || (!accepts && !faults.releasing.Commits())))
  }

  /** The bucket table once the cycle's check is recorded, if recording it returns. */
  function AfterRecording(w: Weekly, cycle: FaultyCycle): Option<Weekly> {
    var week := WeekOf(cycle.input.date);
    var recorded := Record(BucketFor(w, week), cycle.input.date, cycle.input.run.check, cycle.previous, cycle.current);
    if recorded.Ok? && cycle.faults.recording.Returns? then Some(w.(buckets := w.buckets[week := recorded.value])) else None
  }

  /** The week whose report is reserved and not delivered. */
  function LostReport(saved: Weekly, input: CycleInput, faults: Faults): set<Date> {
    var week := WeekOf(input.date) - 7;
    if MayReport(input) && Reportable(saved, week) && StaysReserved(input.accepts, faults) then {week} else {}
  }

  function LostBy(w: Weekly, cycle: FaultyCycle): set<Date> {
    var saved := AfterRecording(w, cycle);
    if saved.Some? then LostReport(saved.value, cycle.input, cycle.faults) else {}
  }

  function After(cycles: seq<FaultyCycle>): Weekly {
    if cycles == [] then NO_WEEKS else Cycle(After(cycles[..|cycles| - 1]), cycles[|cycles| - 1])
  }

  function LostDuring(cycles: seq<FaultyCycle>): set<Date> {
    if cycles == [] then {}
    else LostDuring(cycles[..|cycles| - 1]) + LostBy(After(cycles[..|cycles| - 1]), cycles[|cycles| - 1])
  }

  predicate Marked(w: Weekly, week: Date) {
    week in w.buckets && w.buckets[week].deliveredAt.Some?
  }

  /** No week is reported twice, and the weeks marked as delivered are the reported and the lost ones. */
  ghost predicate WeeksAgree(w: Weekly, lost: set<Date>) {
    && (forall week :: week in w.buckets ==> w.buckets[week].periodStart == week && ValidSummary(w.buckets[week]))
    && (forall i, j :: 0 <= i < j < |w.reports| ==> w.reports[i].periodStart != w.reports[j].periodStart)
    && (forall week :: Marked(w, week) <==> ReportedIn(w, week) || week in lost)
    && (forall week :: week in lost ==> !ReportedIn(w, week))
  }

  lemma RecordingAgrees(w: Weekly, lost: set<Date>, week: Date, recorded: Summary)
    requires WeeksAgree(w, lost) && recorded.periodStart == week && ValidSummary(recorded)
    requires recorded.deliveredAt == BucketFor(w, week).deliveredAt
    ensures WeeksAgree(w.(buckets := w.buckets[week := recorded]), lost)
  {
    var after := w.(buckets := w.buckets[week := recorded]);
    forall other ensures Marked(after, other) <==> Marked(w, other) {
    }
    forall other ensures ReportedIn(after, other) <==> ReportedIn(w, other) {
    }
  }

  lemma MarkingAgrees(w: Weekly, lost: set<Date>, week: Date, marked: Summary)
    requires WeeksAgree(w, lost) && week in w.buckets && w.buckets[week].deliveredAt.None?
    requires marked.periodStart == week && ValidSummary(marked) && marked.deliveredAt.Some?
    ensures WeeksAgree(w.(buckets := w.buckets[week := marked]), lost + {week})
  {
    var after := w.(buckets := w.buckets[week := marked]);
    assert !Marked(w, week);
    forall other ensures Marked(after, other) <==> Marked(w, other) || other == week {
    }
    forall other ensures ReportedIn(after, other) <==> ReportedIn(w, other) {
    }
  }

  lemma ReportingAgrees(w: Weekly, lost: set<Date>, week: Date, marked: Summary)
    requires WeeksAgree(w, lost) && week in w.buckets && w.buckets[week].deliveredAt.None?
    requires marked.periodStart == week && ValidSummary(marked) && marked.deliveredAt.Some?
    ensures WeeksAgree(Weekly(w.buckets[week := marked], w.reports + [w.buckets[week]]), lost)
  {
    var after := Weekly(w.buckets[week := marked], w.reports + [w.buckets[week]]);
    assert !Marked(w, week);
    forall other ensures Marked(after, other) <==> Marked(w, other) || other == week {
    }
    forall other ensures ReportedIn(after, other) <==> ReportedIn(w, other) || other == week {
      if other == week {
        assert after.reports[|w.reports|].periodStart == week;
      } else if ReportedIn(w, other) {
        var r :| r in w.reports && r.periodStart == other;
        assert r in after.reports;
      }
    }
    forall i, j | 0 <= i < j < |after.reports| ensures after.reports[i].periodStart != after.reports[j].periodStart {
      assert w.reports[i] in w.reports;
      assert ReportedIn(w, w.reports[i].periodStart);
    }
  }

  /** The three ways a report can end: reserved and lost, delivered, or as if it had not been tried. */
  lemma ReportEnds(w: Weekly, week: Date, at: Timestamp, accepts: bool, faults: Faults) returns (marked: Summary)
    requires Reportable(w, week) && w.buckets[week].periodStart == week && ValidSummary(w.buckets[week])
    ensures marked.periodStart == week && ValidSummary(marked) && marked.deliveredAt.Some?
    ensures TryReport(w, week, at, accepts, faults).weekly
         == if StaysReserved(accepts, faults) then w.(buckets := w.buckets[week := marked])
            else if faults.reserving.Returns? && accepts then
              Weekly(w.buckets[week := marked], w.reports + [w.buckets[week]])
            else w
  {
    var bucket := w.buckets[week];
    marked := MarkDelivered(bucket, at).value;
    assert ReleaseDelivery(marked) == bucket;
    assert w.buckets[week := bucket] == w.buckets;
  }

  lemma ReportAgrees(w: Weekly, lost: set<Date>, week: Date, at: Timestamp, accepts: bool, faults: Faults)
    requires WeeksAgree(w, lost) && Reportable(w, week)
    ensures WeeksAgree(
              TryReport(w, week, at, accepts, faults).weekly, lost + if StaysReserved(accepts, faults) then {week} else {})
  {
    var marked := ReportEnds(w, week, at, accepts, faults);
    assert lost + {} == lost;
    if StaysReserved(accepts, faults) {
      MarkingAgrees(w, lost, week, marked);
    } else if faults.reserving.Returns? && accepts {
      ReportingAgrees(w, lost, week, marked);
    }
  }

  lemma RecordKeepsFields(s: Summary, cycle: FaultyCycle)
    requires Record(s, cycle.input.date, cycle.input.run.check, cycle.previous, cycle.current).Ok?
    ensures var r := Record(s, cycle.input.date, cycle.input.run.check, cycle.previous, cycle.current).value;
      r.periodStart == s.periodStart == WeekOf(cycle.input.date) && r.deliveredAt == s.deliveredAt && ValidSummary(r)
  {
  }

  lemma CheckAgrees(w: Weekly, lost: set<Date>, cycle: FaultyCycle)
    requires WeeksAgree(w, lost)
    ensures var week := WeekOf(cycle.input.date);
      var recorded := Record(BucketFor(w, week), cycle.input.date, cycle.input.run.check, cycle.previous, cycle.current);
      recorded.Ok? ==> WeeksAgree(w.(buckets := w.buckets[week := recorded.value]), lost)
  {
    var week := WeekOf(cycle.input.date);
    var recorded := Record(BucketFor(w, week), cycle.input.date, cycle.input.run.check, cycle.previous, cycle.current);
    if recorded.Ok? {
      RecordKeepsFields(BucketFor(w, week), cycle);
      RecordingAgrees(w, lost, week, recorded.value);
    }
  }

  lemma PrecedingAgrees(saved: Weekly, lost: set<Date>, input: CycleInput, faults: Faults)
    requires WeeksAgree(saved, lost)
    ensures WeeksAgree(TryReportPreceding(saved, input, faults).weekly, lost + LostReport(saved, input, faults))
  {
    var week := WeekOf(input.date) - 7;
    if MayReport(input) && Reportable(saved, week) {
      ReportAgrees(saved, lost, week, input.run.check.timestamp, input.accepts, faults);
      assert TryReportPreceding(saved, input, faults)
          == TryReport(saved, week, input.run.check.timestamp, input.accepts, faults);
      assert LostReport(saved, input, faults) == if StaysReserved(input.accepts, faults) then {week} else {};
    } else {
      assert TryReportPreceding(saved, input, faults).weekly == saved;
      assert lost + LostReport(saved, input, faults) == lost;
    }
  }

  lemma CycleReports(w: Weekly, cycle: FaultyCycle)
    requires AfterRecording(w, cycle).Some?
    ensures Cycle(w, cycle) == TryReportPreceding(AfterRecording(w, cycle).value, cycle.input, cycle.faults).weekly
  {
  }

  lemma CycleStops(w: Weekly, cycle: FaultyCycle)
    requires AfterRecording(w, cycle).None?
    ensures var week := WeekOf(cycle.input.date);
      var recorded := Record(BucketFor(w, week), cycle.input.date, cycle.input.run.check, cycle.previous, cycle.current);
      Cycle(w, cycle) == w || (recorded.Ok? && Cycle(w, cycle) == w.(buckets := w.buckets[week := recorded.value]))
  {
  }

  /** One cycle, whatever raises and whatever states it is given. */
  lemma CycleAgrees(w: Weekly, lost: set<Date>, cycle: FaultyCycle)
    requires WeeksAgree(w, lost)
    ensures WeeksAgree(Cycle(w, cycle), lost + LostBy(w, cycle))
  {
    CheckAgrees(w, lost, cycle);
    var saved := AfterRecording(w, cycle);
    if saved.Some? {
      CycleReports(w, cycle);
      PrecedingAgrees(saved.value, lost, cycle.input, cycle.faults);
    } else {
      CycleStops(w, cycle);
      assert lost + {} == lost;
    }
  }

  /** Over any cycles, with dates in any order and whatever raises: each week is reported at most once; a
  week is marked as delivered if and only if it was reported or lost; and a lost week is never reported. */
  lemma {:induction false} EachWeekReportedAtMostOnce(cycles: seq<FaultyCycle>)
    ensures WeeksAgree(After(cycles), LostDuring(cycles))
  {
    if cycles != [] {
      EachWeekReportedAtMostOnce(cycles[..|cycles| - 1]);
      CycleAgrees(After(cycles[..|cycles| - 1]), LostDuring(cycles[..|cycles| - 1]), cycles[|cycles| - 1]);
    }
  }
}
