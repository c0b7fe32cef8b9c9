/** Saving health transitions and delivering their notifications: what the delivered log can be. */
module OperationalMonitoring {
  import opened Domain
  import opened Sequences
  import opened OperationalHealth

  /** The threshold the workflow always uses. */
  const FAILURE_THRESHOLD: nat := 3

  /** One call: the check, an optional digest delivery, and whether notifications are enabled and
  the channel would accept one. */
  datatype RunInput = RunInput(check: Check, delivery: Option<DigestDelivery>, enabled: bool, accepts: bool) {
    /** A notification due in this run is tried and stays undelivered. */
    predicate TriesInVain() { enabled && !accepts }

    predicate Delivers() { enabled && accepts }
  }

  datatype RunResult = RunResult(state: State, previous: State, sent: Option<NotificationKind>, failedToSend: bool)

  function Transitioned(stored: State, input: RunInput, threshold: nat): Result<State, EngineError> {
    if input.delivery.None? then Evaluate(stored, input.check, threshold)
    else
      match RecordDigest(stored, input.delivery.value)
      case Err(e) => Err(e)
      case Ok(recorded) => Evaluate(recorded, input.check, threshold)
  }

  /** What becomes of the notification a transition left pending. */
  function Settle(state: State, stored: State, input: RunInput): Result<RunResult, EngineError> {
    if state.pending.None? then Ok(RunResult(state, stored, None, false))
    else if !input.enabled then
      match Suppress(state)
      case Err(e) => Err(e)
      case Ok(suppressed) => Ok(RunResult(suppressed, stored, None, false))
    else if !input.accepts then Ok(RunResult(state, stored, None, true))
    else
      match Acknowledge(state, state.pending.value)
      case Err(e) => Err(e)
      case Ok(acknowledged) => Ok(RunResult(acknowledged, stored, state.pending, false))
  }

  function RunWorkflow(stored: State, input: RunInput, threshold: nat): Result<RunResult, EngineError> {
    match Transitioned(stored, input, threshold)
    case Err(e) => Err(e)
    case Ok(state) => Settle(state, stored, input)
  }

  /** The stored state after a sequence of runs. */
  function StoredAfter(runs: seq<RunInput>, threshold: nat): State {
    if runs == [] then INITIAL
    else
      var before := StoredAfter(runs[..|runs| - 1], threshold);
      match RunWorkflow(before, runs[|runs| - 1], threshold)
      case Ok(r) => r.state
      case Err(_) => before
  }

  /** What run i delivered. */
  function SentAt(runs: seq<RunInput>, i: nat, threshold: nat): Option<NotificationKind>
    requires i < |runs|
  {
    match RunWorkflow(StoredAfter(runs[..i], threshold), runs[i], threshold)
    case Ok(r) => r.sent
    case Err(_) => None
  }

  function ChecksOf(runs: seq<RunInput>): seq<Check> {
    Map(runs, (r: RunInput) => r.check)
  }

  /** Neither the checks nor the recorded digests go back in time. */
  ghost predicate InOrder(runs: seq<RunInput>) {
    && (forall i, j :: 0 <= i < j < |runs| ==> runs[i].check.timestamp <= runs[j].check.timestamp)
    && (forall i, j :: 0 <= i < j < |runs| && runs[i].delivery.Some? && runs[j].delivery.Some? ==>
          runs[i].delivery.value.deliveredAt <= runs[j].delivery.value.deliveredAt)
  }

  // ---------- What is delivered, said without the state ----------

  /** The failing streak that ends the runs. */
  function Streak(runs: seq<RunInput>): nat {
    Trailing(ChecksOf(runs))
  }

  /** The run at which the trailing streak reached the threshold. */
  function Crossing(runs: seq<RunInput>, threshold: nat): int {
    |runs| - Streak(runs) + threshold - 1
  }

  /** Run i ends a streak of at least `threshold` failures, delivers, and every run since the
  streak reached the threshold tried in vain. */
  ghost predicate AnnouncesFailure(runs: seq<RunInput>, i: nat, threshold: nat)
    requires i < |runs|
  {
    && Streak(runs[..i + 1]) >= threshold
    && runs[i].Delivers()
    && forall k: nat :: Crossing(runs[..i + 1], threshold) <= k < i ==> runs[k].TriesInVain()
  }

  /** The streak ending just before run i was announced while it lasted. */
  ghost predicate IncidentAnnounced(runs: seq<RunInput>, threshold: nat) {
    exists k: nat :: |runs| - Streak(runs) <= k < |runs| && AnnouncesFailure(runs, k, threshold)
  }

  /** Run i is the first healthy one after an announced incident, and delivers. */
  ghost predicate AnnouncesRecovery(runs: seq<RunInput>, i: nat, threshold: nat)
    requires i < |runs|
  {
    && !runs[i].check.Fails()
    && runs[i].Delivers()
    && IncidentAnnounced(runs[..i], threshold)
  }

  // ---------- The state knows no more than this ----------

  ghost predicate FailurePending(runs: seq<RunInput>, threshold: nat) {
    && Streak(runs) >= threshold
    && forall k: nat :: Crossing(runs, threshold) <= k < |runs| ==> runs[k].TriesInVain()
  }

  /** The digest delivery that was reported last. */
  function LatestDelivery(runs: seq<RunInput>): Option<DigestDelivery> {
    if runs == [] then None
    else if runs[|runs| - 1].delivery.Some? then runs[|runs| - 1].delivery
    else LatestDelivery(runs[..|runs| - 1])
  }

  ghost predicate LastDigestIs(runs: seq<RunInput>, s: State) {
    s.lastDigest == LatestDelivery(runs)
  }

  lemma {:induction false} LatestDeliveryIsReported(runs: seq<RunInput>) returns (j: nat)
    requires LatestDelivery(runs).Some?
    ensures j < |runs| && runs[j].delivery == LatestDelivery(runs)
  {
    if runs[|runs| - 1].delivery.Some? {
      j := |runs| - 1;
    } else {
      j := LatestDeliveryIsReported(runs[..|runs| - 1]);
    }
  }

  ghost predicate Knows(s: State, runs: seq<RunInput>, threshold: nat) {
    && Tells(s, ChecksOf(runs), threshold)
    && LastDigestIs(runs, s)
    && (s.pending == Some(Failure) <==> FailurePending(runs, threshold))
    && (s.status == Failed ==> (s.incidentNotified <==> IncidentAnnounced(runs, threshold)))
  }

  lemma StreakOfLonger(runs: seq<RunInput>, r: RunInput)
    ensures ChecksOf(runs + [r]) == ChecksOf(runs) + [r.check]
    ensures Streak(runs + [r]) == if r.check.Fails() then Streak(runs) + 1 else 0
  {
    var checks := ChecksOf(runs + [r]);
    assert checks == ChecksOf(runs) + [r.check];
    assert checks[..|runs|] == ChecksOf(runs);
  }

  lemma AnnouncementOfPrefix(runs: seq<RunInput>, r: RunInput, k: nat, threshold: nat)
    requires k < |runs|
    ensures AnnouncesFailure(runs + [r], k, threshold) <==> AnnouncesFailure(runs, k, threshold)
  {
    assert (runs + [r])[..k + 1] == runs[..k + 1];
  }

  /** An announced streak was at or past the threshold, so the announcement came no earlier than its crossing. */
  lemma AnnouncedPastCrossing(runs: seq<RunInput>, k: nat, threshold: nat)
    requires threshold > 0 && |runs| - Streak(runs) <= k < |runs| && AnnouncesFailure(runs, k, threshold)
    ensures Crossing(runs, threshold) <= k && Streak(runs) >= threshold
  {
    StreakWithin(runs, k);
  }

  /** Inside the trailing streak, the streak at run k counts from the same first failure. */
  lemma {:induction false} StreakWithin(runs: seq<RunInput>, k: nat)
    requires |runs| - Streak(runs) <= k < |runs|
    ensures k + 1 - Streak(runs[..k + 1]) == |runs| - Streak(runs)
    decreases |runs|
  {
    var init := runs[..|runs| - 1];
    assert runs == init + [runs[|runs| - 1]];
    StreakOfLonger(init, runs[|runs| - 1]);
    if k < |runs| - 1 {
      StreakWithin(init, k);
      assert init[..k + 1] == runs[..k + 1];
    } else {
      assert runs[..k + 1] == runs;
    }
  }

  lemma DigestAccepted(s: State, runs: seq<RunInput>, r: RunInput, threshold: nat)
    requires threshold > 0 && Knows(s, runs, threshold) && InOrder(runs + [r])
    ensures var t := if r.delivery.None? then s else s.(lastDigest := r.delivery);
      Transitioned(s, r, threshold) == Evaluate(t, r.check, threshold)
      && Tells(t, ChecksOf(runs), threshold) && LastDigestIs(runs + [r], t)
  {
    var longer := runs + [r];
    assert longer[..|runs|] == runs;
    if r.delivery.Some? {
      if s.lastDigest.Some? {
        var j := LatestDeliveryIsReported(runs);
        assert longer[j].delivery == s.lastDigest && longer[|runs|].delivery == r.delivery;
      }
      BookkeepingTells(s, ChecksOf(runs), threshold, Failure, r.delivery.value);
    }
  }

  /** What one accepted check does to the notification fields. */
  lemma CheckMovesNotifications(s: State, check: Check, threshold: nat)
    requires threshold > 0 && ValidState(s) && Evaluate(s, check, threshold).Ok?
    ensures var t := Evaluate(s, check, threshold).value;
      && (t.pending == Some(Failure) <==> t.status == Failed && (s.status == Failed ==> s.pending == Some(Failure)))
      && (t.pending == Some(Recovery) <==> !check.Fails() && s.status == Failed && s.incidentNotified)
      && (t.status == Failed ==> (t.incidentNotified <==> s.status == Failed && s.incidentNotified))
  {
    match s.pending
    case None =>
    case Some(Failure) =>
    case Some(Recovery) =>
  }

  lemma AnnouncedMeansFailed(runs: seq<RunInput>, threshold: nat)
    requires threshold > 0 && IncidentAnnounced(runs, threshold)
    ensures Streak(runs) >= threshold
  {
    var k: nat :| |runs| - Streak(runs) <= k < |runs| && AnnouncesFailure(runs, k, threshold);
    AnnouncedPastCrossing(runs, k, threshold);
  }

  lemma ChecksInOrder(runs: seq<RunInput>)
    requires InOrder(runs)
    ensures forall i, j :: 0 <= i < j < |runs| ==> ChecksOf(runs)[i].timestamp <= ChecksOf(runs)[j].timestamp
  {
  }

  lemma DigestStays(s: State, check: Check, threshold: nat)
    requires Evaluate(s, check, threshold).Ok?
    ensures Evaluate(s, check, threshold).value.lastDigest == s.lastDigest
  {
  }

  lemma EvaluationTells(s: State, runs: seq<RunInput>, r: RunInput, threshold: nat)
    requires threshold > 0 && Tells(s, ChecksOf(runs), threshold) && InOrder(runs + [r])
    ensures Evaluate(s, r.check, threshold).Ok?
    ensures Tells(Evaluate(s, r.check, threshold).value, ChecksOf(runs + [r]), threshold)
  {
    StreakOfLonger(runs, r);
    ChecksInOrder(runs + [r]);
    CheckTells(s, ChecksOf(runs), r.check, threshold);
  }

  /** The check is accepted, and the history grows by it. */
  lemma TransitionTells(s: State, runs: seq<RunInput>, r: RunInput, threshold: nat)
    requires threshold > 0 && Knows(s, runs, threshold) && InOrder(runs + [r])
    ensures Transitioned(s, r, threshold).Ok?
    ensures var t := Transitioned(s, r, threshold).value;
      Tells(t, ChecksOf(runs + [r]), threshold) && LastDigestIs(runs + [r], t)
  {
    DigestAccepted(s, runs, r, threshold);
    var before := if r.delivery.None? then s else s.(lastDigest := r.delivery);
    EvaluationTells(before, runs, r, threshold);
    DigestStays(before, r.check, threshold);
  }

  /** A failure is due when the streak has just reached the threshold, or reached it earlier and
  every attempt since was in vain. */
  ghost predicate FailureDue(runs: seq<RunInput>, r: RunInput, threshold: nat) {
    r.check.Fails() && Streak(runs) + 1 >= threshold && (Streak(runs) >= threshold ==> FailurePending(runs, threshold))
  }

  /** The notification fields right after the transition, before anything is sent. */
  lemma TransitionKnows(s: State, runs: seq<RunInput>, r: RunInput, threshold: nat)
    requires threshold > 0 && Knows(s, runs, threshold) && InOrder(runs + [r])
    ensures Transitioned(s, r, threshold).Ok?
    ensures var t := Transitioned(s, r, threshold).value;
      && (t.pending == Some(Failure) <==> FailureDue(runs, r, threshold))
      && (t.pending == Some(Recovery) <==> !r.check.Fails() && IncidentAnnounced(runs, threshold))
      && (t.status == Failed ==> (t.incidentNotified <==> IncidentAnnounced(runs, threshold)))
      && (t.status == Failed <==> r.check.Fails() && Streak(runs) + 1 >= threshold)
  {
    DigestAccepted(s, runs, r, threshold);
    TransitionTells(s, runs, r, threshold);
    StreakOfLonger(runs, r);
    var before := if r.delivery.None? then s else s.(lastDigest := r.delivery);
    CheckMovesNotifications(before, r.check, threshold);
    if IncidentAnnounced(runs, threshold) {
      AnnouncedMeansFailed(runs, threshold);
    }
  }

  // ---------- One run ----------

  lemma PendingAfterRun(runs: seq<RunInput>, r: RunInput, threshold: nat)
    requires threshold > 0
    ensures FailurePending(runs + [r], threshold) <==> FailureDue(runs, r, threshold) && r.TriesInVain()
  {
    var longer := runs + [r];
    StreakOfLonger(runs, r);
    if r.check.Fails() {
      assert Crossing(longer, threshold) == Crossing(runs, threshold);
      if FailurePending(longer, threshold) {
        assert longer[|runs|].TriesInVain();
        forall k: nat | Crossing(runs, threshold) <= k < |runs| ensures runs[k].TriesInVain() {
          assert longer[k] == runs[k];
        }
      }
    }
  }

  lemma AnnouncedStays(runs: seq<RunInput>, r: RunInput, threshold: nat)
    requires threshold > 0 && r.check.Fails() && IncidentAnnounced(runs, threshold)
    ensures IncidentAnnounced(runs + [r], threshold)
  {
    StreakOfLonger(runs, r);
    var k: nat :| |runs| - Streak(runs) <= k < |runs| && AnnouncesFailure(runs, k, threshold);
    AnnouncementOfPrefix(runs, r, k, threshold);
    assert AnnouncesFailure(runs + [r], k, threshold);
  }

  lemma AnnouncedEarlierOrNow(runs: seq<RunInput>, r: RunInput, k: nat, threshold: nat)
    requires threshold > 0 && r.check.Fails()
    requires |runs| - Streak(runs) <= k <= |runs| && AnnouncesFailure(runs + [r], k, threshold)
    ensures IncidentAnnounced(runs, threshold) || AnnouncesFailure(runs + [r], |runs|, threshold)
  {
    if k < |runs| {
      AnnouncementOfPrefix(runs, r, k, threshold);
    }
  }

  lemma AnnouncedAfterRun(runs: seq<RunInput>, r: RunInput, threshold: nat)
    requires threshold > 0 && r.check.Fails()
    ensures IncidentAnnounced(runs + [r], threshold) <==>
            IncidentAnnounced(runs, threshold) || (FailureDue(runs, r, threshold) && r.Delivers())
  {
    var longer := runs + [r];
    AnnouncementAtEnd(runs, r, threshold);
    StreakOfLonger(runs, r);
    if IncidentAnnounced(longer, threshold) {
      var k: nat :| |longer| - Streak(longer) <= k < |longer| && AnnouncesFailure(longer, k, threshold);
      AnnouncedEarlierOrNow(runs, r, k, threshold);
    }
    if IncidentAnnounced(runs, threshold) {
      AnnouncedStays(runs, r, threshold);
    }
  }

  /** The last run announces a failure exactly when one was due and it delivers. */
  lemma AnnouncementAtEnd(runs: seq<RunInput>, r: RunInput, threshold: nat)
    requires threshold > 0
    ensures AnnouncesFailure(runs + [r], |runs|, threshold) <==> FailureDue(runs, r, threshold) && r.Delivers()
  {
    var longer := runs + [r];
    assert longer[..|runs| + 1] == longer;
    StreakOfLonger(runs, r);
    if r.check.Fails() {
      assert Crossing(longer, threshold) == Crossing(runs, threshold);
      assert forall k: nat :: k < |runs| ==> longer[k] == runs[k];
    }
  }

  /** Settling keeps what the state tells and clears the pending kind unless it was tried in vain. */
  lemma SettlingTells(t: State, stored: State, r: RunInput, h: seq<Check>, threshold: nat)
    requires threshold > 0 && Tells(t, h, threshold)
    ensures Settle(t, stored, r).Ok?
    ensures var result := Settle(t, stored, r).value;
      && Tells(result.state, h, threshold)
      && result.previous == stored
      && (result.failedToSend <==> r.TriesInVain() && t.pending.Some?)
      && result.state.status == t.status && result.state.lastDigest == t.lastDigest
      && result.sent == (if r.Delivers() then t.pending else None)
      && result.state.pending == (if r.TriesInVain() then t.pending else None)
      && (t.status == Failed ==>
            (result.state.incidentNotified <==>
              if t.pending == Some(Failure) && !r.TriesInVain() then r.Delivers() else t.incidentNotified))
  {
    match t.pending
    case None =>
    case Some(kind) => BookkeepingTells(t, h, threshold, kind, DigestDelivery(0, 0, 0, false));
  }

  lemma EitherKind(s: State)
    ensures s.pending.Some? <==> s.pending == Some(Failure) || s.pending == Some(Recovery)
  {
    match s.pending
    case None =>
    case Some(Failure) =>
    case Some(Recovery) =>
  }

  lemma ResultKnows(s: State, runs: seq<RunInput>, r: RunInput, threshold: nat)
    requires threshold > 0 && Knows(s, runs, threshold) && InOrder(runs + [r])
    ensures RunWorkflow(s, r, threshold).Ok?
    ensures Knows(RunWorkflow(s, r, threshold).value.state, runs + [r], threshold)
    ensures var sent := RunWorkflow(s, r, threshold).value.sent;
      && (sent == Some(Failure) <==> FailureDue(runs, r, threshold) && r.Delivers())
      && (sent == Some(Recovery) <==> !r.check.Fails() && IncidentAnnounced(runs, threshold) && r.Delivers())
    ensures var result := RunWorkflow(s, r, threshold).value;
      && result.previous == s
      && (result.failedToSend <==>
            && r.TriesInVain()
            && (FailureDue(runs, r, threshold) || (!r.check.Fails() && IncidentAnnounced(runs, threshold))))
  {
    TransitionTells(s, runs, r, threshold);
    TransitionKnows(s, runs, r, threshold);
    PendingAfterRun(runs, r, threshold);
    SettlingTells(Transitioned(s, r, threshold).value, s, r, ChecksOf(runs + [r]), threshold);
    EitherKind(Transitioned(s, r, threshold).value);
    if r.check.Fails() {
      AnnouncedAfterRun(runs, r, threshold);
    }
  }

  // ---------- Any number of runs ----------

  lemma InitialKnows(threshold: nat)
    requires threshold > 0
    ensures Knows(INITIAL, [], threshold)
  {
  }

  lemma {:induction false} StoredKnows(runs: seq<RunInput>, threshold: nat)
    requires threshold > 0 && InOrder(runs)
    ensures Knows(StoredAfter(runs, threshold), runs, threshold)
  {
    if runs == [] {
      InitialKnows(threshold);
    } else {
      var init, last := runs[..|runs| - 1], runs[|runs| - 1];
      StoredKnows(init, threshold);
      assert runs == init + [last];
      ResultKnows(StoredAfter(init, threshold), init, last, threshold);
    }
  }

  lemma AnnouncementIgnoresLater(runs: seq<RunInput>, i: nat, k: nat, threshold: nat)
    requires k < i <= |runs|
    ensures AnnouncesFailure(runs[..i], k, threshold) <==> AnnouncesFailure(runs, k, threshold)
  {
    assert runs[..i][..k + 1] == runs[..k + 1];
    assert forall n: nat :: n < k ==> runs[..i][n] == runs[n];
  }

  /** Exactly what every run delivers. A FAILURE: a streak of at least the threshold, with every
  attempt since it was reached in vain, and this one accepted. A RECOVERY: the first healthy
  check after a streak whose FAILURE was delivered, accepted at once. Nothing else, and nothing
  is delivered twice. */
  lemma DeliveriesAreExactly(runs: seq<RunInput>, i: nat, threshold: nat)
    requires threshold > 0 && InOrder(runs) && i < |runs|
    ensures SentAt(runs, i, threshold) == Some(Failure) <==> AnnouncesFailure(runs, i, threshold)
    ensures SentAt(runs, i, threshold) == Some(Recovery) <==> AnnouncesRecovery(runs, i, threshold)
  {
    var before := runs[..i];
    assert before + [runs[i]] == runs[..i + 1];
    StoredKnows(before, threshold);
    ResultKnows(StoredAfter(before, threshold), before, runs[i], threshold);
    AnnouncementAtEnd(before, runs[i], threshold);
    AnnouncementIgnoresLater(runs, i + 1, i, threshold);
  }

  // ---------- What that means for the delivered log ----------

  /** Every FAILURE is delivered in a streak of at least the threshold. */
  lemma FailureOnlyPastThreshold(runs: seq<RunInput>, i: nat, threshold: nat)
    requires threshold > 0 && InOrder(runs) && i < |runs| && SentAt(runs, i, threshold) == Some(Failure)
    ensures threshold <= i + 1 && forall k :: i + 1 - threshold <= k <= i ==> runs[k].check.Fails()
  {
    DeliveriesAreExactly(runs, i, threshold);
    var streak := runs[..i + 1];
    forall k | i + 1 - threshold <= k <= i ensures runs[k].check.Fails() {
      assert ChecksOf(streak)[k].Fails();
    }
  }

  lemma AllFailing(runs: seq<RunInput>, from: nat, to: nat)
    requires from <= to < |runs|
    requires forall k :: from <= k <= to ==> runs[k].check.Fails()
    ensures to + 1 - Streak(runs[..to + 1]) <= from
  {
    var checks := ChecksOf(runs[..to + 1]);
    var n := Trailing(checks);
    if n < |checks| {
      assert !checks[|checks| - n - 1].Fails();
      assert !runs[|checks| - n - 1].check.Fails();
    }
  }

  /** A later announcement in the same streak means that earlier attempts were in vain. */
  lemma EarlierTriesWereVain(runs: seq<RunInput>, i: nat, j: nat, threshold: nat)
    requires threshold > 0 && i < j < |runs| && AnnouncesFailure(runs, j, threshold)
    requires Streak(runs[..i + 1]) >= threshold
    requires forall k :: i <= k <= j ==> runs[k].check.Fails()
    ensures runs[i].TriesInVain()
  {
    AllFailing(runs, i, j);
    var streak := runs[..j + 1];
    StreakWithin(streak, i);
    assert streak[..i + 1] == runs[..i + 1];
  }

  /** Each failing streak delivers at most one FAILURE: between two of them lies a healthy check. */
  lemma OneFailurePerStreak(runs: seq<RunInput>, i: nat, j: nat, threshold: nat)
    requires threshold > 0 && InOrder(runs) && i < j < |runs|
    requires SentAt(runs, i, threshold) == Some(Failure) && SentAt(runs, j, threshold) == Some(Failure)
    ensures exists k :: i < k < j && !runs[k].check.Fails()
  {
    DeliveriesAreExactly(runs, i, threshold);
    DeliveriesAreExactly(runs, j, threshold);
    FailureOnlyPastThreshold(runs, i, threshold);
    FailureOnlyPastThreshold(runs, j, threshold);
    if forall k :: i < k < j ==> runs[k].check.Fails() {
      EarlierTriesWereVain(runs, i, j, threshold);
    }
  }

  lemma NothingWhileFailing(runs: seq<RunInput>, k: nat, i: nat, threshold: nat)
    requires threshold > 0 && InOrder(runs) && k < i <= |runs|
    requires SentAt(runs, k, threshold) == Some(Failure)
    requires forall m :: k <= m < i ==> runs[m].check.Fails()
    ensures forall m :: k < m < i ==> SentAt(runs, m, threshold) == None
  {
    forall m: nat | k < m < i ensures SentAt(runs, m, threshold) == None {
      DeliveriesAreExactly(runs, m, threshold);
      if SentAt(runs, m, threshold) == Some(Failure) {
        OneFailurePerStreak(runs, k, m, threshold);
      }
      match SentAt(runs, m, threshold)
      case None =>
      case Some(Failure) =>
      case Some(Recovery) =>
    }
  }

  lemma IncidentBefore(runs: seq<RunInput>, i: nat, threshold: nat) returns (k: nat)
    requires i <= |runs| && IncidentAnnounced(runs[..i], threshold)
    ensures k < i && AnnouncesFailure(runs, k, threshold)
    ensures forall m :: k <= m < i ==> runs[m].check.Fails()
  {
    var before := runs[..i];
    k :| |before| - Streak(before) <= k < |before| && AnnouncesFailure(before, k, threshold);
    AnnouncementIgnoresLater(runs, i, k, threshold);
    forall m | k <= m < i ensures runs[m].check.Fails() {
      assert ChecksOf(before)[m].Fails();
    }
  }

  /** Every RECOVERY directly follows, in the delivered log, the FAILURE of the very incident that
  ends: all checks between them fail and nothing is delivered in between. So an incident whose
  FAILURE was never delivered has no RECOVERY. */
  lemma RecoveryFollowsItsFailure(runs: seq<RunInput>, i: nat, threshold: nat) returns (k: nat)
    requires threshold > 0 && InOrder(runs) && i < |runs| && SentAt(runs, i, threshold) == Some(Recovery)
    ensures k < i && SentAt(runs, k, threshold) == Some(Failure)
    ensures forall m :: k <= m < i ==> runs[m].check.Fails()
    ensures !runs[i].check.Fails()
    ensures forall m :: k < m < i ==> SentAt(runs, m, threshold) == None
  {
    DeliveriesAreExactly(runs, i, threshold);
    k := IncidentBefore(runs, i, threshold);
    DeliveriesAreExactly(runs, k, threshold);
    NothingWhileFailing(runs, k, i, threshold);
  }

  /** A recovery that could not be delivered at the first healthy check is never delivered: the
  next RECOVERY belongs to a later incident, whose FAILURE was delivered in between. */
  lemma RecoveryIsNotRetried(runs: seq<RunInput>, i: nat, j: nat, threshold: nat)
    requires threshold > 0 && InOrder(runs) && i < j < |runs|
    requires !runs[i].check.Fails()
    requires SentAt(runs, j, threshold) == Some(Recovery)
    ensures exists k: nat :: i < k < j && SentAt(runs, k, threshold) == Some(Failure)
  {
    var k := RecoveryFollowsItsFailure(runs, j, threshold);
    assert !runs[i].check.Fails();
    assert k > i;
  }

  // ---------- When saving raises ----------

  /** How the call's writing calls end: saving the transition, and then acknowledging or suppressing. */
  datatype Saving = Saving(transition: Ending, settlement: Ending)

  /** What is stored and was sent afterwards; without a result the call raised. */
  datatype Saved = Saved(state: State, sent: Option<NotificationKind>, result: Option<RunResult>)

  function SaveSettlement(state: State, stored: State, input: RunInput, ending: Ending): Saved {
    match Settle(state, stored, input)
    case Err(_) => Saved(state, None, None)
    case Ok(r) =>
      if state.pending.None? || input.TriesInVain() then Saved(r.state, r.sent, Some(r))
      else Saved(if ending.Commits() then r.state else state, r.sent, if ending.Returns? then Some(r) else None)
  }

  function SaveRun(stored: State, input: RunInput, saving: Saving, threshold: nat): Saved {
    match Transitioned(stored, input, threshold)
    case Err(_) => Saved(stored, None, None)
    case Ok(state) =>
      match saving.transition
      case RaisesBeforeCommit => Saved(stored, None, None)
      case RaisesAfterCommit => Saved(state, None, None)
      case Returns => SaveSettlement(state, stored, input, saving.settlement)
  }

  /** If nothing raises this is the run described above. */
  lemma SavingWithoutFaults(stored: State, input: RunInput, threshold: nat)
    requires RunWorkflow(stored, input, threshold).Ok?
    ensures var r := RunWorkflow(stored, input, threshold).value;
      SaveRun(stored, input, Saving(Returns, Returns), threshold) == Saved(r.state, r.sent, Some(r))
  {
  }

  /** A call returns a result exactly if it was accepted and none of the saves it made raised: the one of the
  transition, and the one that settles a notification which was sent or suppressed. */
  lemma SavingReturns(stored: State, input: RunInput, saving: Saving, threshold: nat)
    requires RunWorkflow(stored, input, threshold).Ok?
    ensures var r, saved := RunWorkflow(stored, input, threshold).value, SaveRun(stored, input, saving, threshold);
      var settles := Transitioned(stored, input, threshold).value.pending.Some? && !input.TriesInVain();
      && (saved.result.Some? <==> saving.transition.Returns? && (settles ==> saving.settlement.Returns?))
      && (saved.result.Some? ==> saved.result.value == r)
      && saved.sent == (if saving.transition.Returns? then r.sent else None)
      && saved.state
         == if saving.transition.RaisesBeforeCommit? then stored
            else if saving.transition.RaisesAfterCommit? || (settles && saving.settlement.RaisesBeforeCommit?) then
              Transitioned(stored, input, threshold).value
            else r.state
  {
  }

  // ---------- The workflow ----------

  class OperationalStateStore {
    var state: State

    constructor ()
      ensures state == INITIAL
    {
      state := INITIAL;
    }

    /** Replaces the stored state in one transaction. */
    method Save(state: State, ending: Ending) returns (raised: bool)
      modifies this
      ensures raised == !ending.Returns?
      ensures this.state == if ending.Commits() then state else old(this.state)
    {
      if ending.Commits() {
        this.state := state;
      }
      raised := !ending.Returns?;
    }
  }

  class OperationalMonitoringWorkflow {
    const store: OperationalStateStore
    var delivered: seq<NotificationKind>

    constructor (store: OperationalStateStore)
      ensures this.store == store && delivered == []
    {
      this.store := store;
      delivered := [];
    }

    /** Save the transition, then deliver or suppress what it left pending. */
    method RunOnce(input: RunInput, saving: Saving) returns (result: Option<RunResult>)
      requires ValidState(store.state)
      modifies this, store
      ensures var saved := SaveRun(old(store.state), input, saving, 3);
        && result == saved.result && store.state == saved.state
        && delivered == old(delivered) + if saved.sent.Some? then [saved.sent.value] else []
    {
      var previous := store.state;
      var state := previous;
      if input.delivery.Some? {
        var recorded := RecordDigest(state, input.delivery.value);
        if recorded.Err? {
          return None;
        }
        state := recorded.value;
      }
      var evaluated := Evaluate(state, input.check, FAILURE_THRESHOLD);
      if evaluated.Err? {
        return None;
      }
      state := evaluated.value;
      var raised := store.Save(state, saving.transition);
      if raised {
        return None;
      }
      PendingCanBeCleared(state);
      if state.pending.None? {
        return Some(RunResult(state, previous, None, false));
      }
      if !input.enabled {
        var suppressed := Suppress(state);
        raised := store.Save(suppressed.value, saving.settlement);
        return if raised then None else Some(RunResult(suppressed.value, previous, None, false));
      }
      if !input.accepts {
        return Some(RunResult(state, previous, None, true));
      }
      delivered := delivered + [state.pending.value];
      var acknowledged := Acknowledge(state, state.pending.value);
      raised := store.Save(acknowledged.value, saving.settlement);
      return if raised then None else Some(RunResult(acknowledged.value, previous, state.pending, false));
    }
  }

  lemma PendingCanBeCleared(s: State)
    requires ValidState(s)
    ensures Suppress(s).Ok? && (s.pending.Some? ==> Acknowledge(s, s.pending.value).Ok?)
  {
    match s.pending
    case None =>
    case Some(Failure) =>
    case Some(Recovery) =>
  }
}
