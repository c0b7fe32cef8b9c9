/** Operational health: one state, moved by checks, acknowledgements and suppressions. */
module OperationalHealth {
  import opened Domain

  datatype Status = Healthy | Degraded | Failed

  datatype FailureKind =
    | CatalogUnavailable
    | ProviderDataIncompatible
    | ProviderUnavailable
    | ProviderFailure
    | PartialProviderFailure
    | PromotionUnavailable

  datatype NotificationKind = Failure | Recovery

  datatype Check = Check(timestamp: Timestamp, failure: Option<FailureKind>) {
    predicate Fails() { failure.Some? }
  }

  datatype DigestDelivery = DigestDelivery(date: Date, deliveredAt: Timestamp, products: nat, promoted: bool)

  datatype State = State(
    status: Status,
    failureKind: Option<FailureKind>,
    failures: nat,
    incidentStartedAt: Option<Timestamp>,
    lastCheckedAt: Option<Timestamp>,
    lastRecoveredAt: Option<Timestamp>,
    incidentNotified: bool,
    pending: Option<NotificationKind>,
    lastDigest: Option<DigestDelivery>)

  const INITIAL := State(Healthy, None, 0, None, None, None, false, None, None)

  predicate NotAfter(a: Option<Timestamp>, b: Option<Timestamp>) {
    a.Some? && b.Some? ==> a.value <= b.value
  }

  /** Everything the state's constructor checks. */
  predicate ValidState(s: State) {
    && (s.status == Healthy ==> s.failureKind.None? && s.failures == 0)
    && (s.status != Healthy ==>
          s.failureKind.Some? && s.failures > 0 && s.incidentStartedAt.Some? && s.lastCheckedAt.Some?)
    && (s.status == Degraded ==> !s.incidentNotified && s.pending.None?)
    && (s.pending == Some(Failure) ==> s.status == Failed && !s.incidentNotified)
    && (s.pending == Some(Recovery) ==>
          s.status == Healthy && s.incidentNotified && s.incidentStartedAt.Some? && s.lastRecoveredAt.Some?)
    && (s.status == Healthy && (s.incidentStartedAt.Some? || s.incidentNotified) ==> s.pending == Some(Recovery))
    && NotAfter(s.incidentStartedAt, s.lastCheckedAt)
    && NotAfter(s.lastRecoveredAt, s.lastCheckedAt)
  }

  datatype EngineError = CheckPrecedes | DeliveryPrecedes | KindMismatch | InvalidState

  /** Building a state raises when its invariant fails. */
  function Built(s: State): Result<State, EngineError> {
    if ValidState(s) then Ok(s) else Err(InvalidState)
  }

  function HealthyState(previous: State, check: Check): State {
    if previous.status == Failed && previous.incidentNotified then
      State(
        Healthy, None, 0, previous.incidentStartedAt, Some(check.timestamp), Some(check.timestamp), true, Some(Recovery),
        previous.lastDigest)
    else
      var recovered := previous.status != Healthy;
      State(
        Healthy, None, 0, None, Some(check.timestamp),
        if recovered then Some(check.timestamp) else previous.lastRecoveredAt, false, None, previous.lastDigest)
  }

  function FailedState(previous: State, check: Check, threshold: nat): State {
    var continuing := previous.status != Healthy;
    var count := if continuing then previous.failures + 1 else 1;
    var startedAt := if continuing then previous.incidentStartedAt else Some(check.timestamp);
    var status := if count >= threshold then Failed else Degraded;
    var crossing := status == Failed && previous.status != Failed;
    var notified := continuing && previous.incidentNotified && status == Failed && !crossing;
    var pending :=
      if status == Degraded then None
      else if crossing then Some(Failure)
      else if continuing then previous.pending
      else None;
    State(
      status, check.failure, count, startedAt, Some(check.timestamp), previous.lastRecoveredAt, notified, pending,
      previous.lastDigest)
  }

  function Evaluate(previous: State, check: Check, threshold: nat): Result<State, EngineError> {
    if previous.lastCheckedAt.Some? && check.timestamp < previous.lastCheckedAt.value then Err(CheckPrecedes)
    else if check.Fails() then Built(FailedState(previous, check, threshold))
    else Built(HealthyState(previous, check))
  }

  function RecordDigest(s: State, delivery: DigestDelivery): Result<State, EngineError> {
    if s.lastDigest.Some? && delivery.deliveredAt < s.lastDigest.value.deliveredAt then Err(DeliveryPrecedes)
    else Built(s.(lastDigest := Some(delivery)))
  }

  function Acknowledge(s: State, kind: NotificationKind): Result<State, EngineError> {
    if s.pending != Some(kind) then Err(KindMismatch)
    else if kind == Failure then Built(s.(incidentNotified := true, pending := None))
    else Built(s.(incidentStartedAt := None, incidentNotified := false, pending := None))
  }

  function Suppress(s: State): Result<State, EngineError> {
    if s.pending.None? then Ok(s)
    else if s.pending == Some(Failure) then Built(s.(pending := None, incidentNotified := false))
    else Built(s.(incidentStartedAt := None, incidentNotified := false, pending := None))
  }

  // ---------- When a transition raises ----------

  /** From a valid state a chronological check is accepted, except when the state remembers a
  recovery but no check and the recovery lies after the check. */
  lemma EvaluateAccepts(previous: State, check: Check, threshold: nat)
    requires ValidState(previous) && threshold > 0
    requires previous.lastCheckedAt.Some? ==> previous.lastCheckedAt.value <= check.timestamp
    ensures Evaluate(previous, check, threshold).Ok? <==>
            !(previous.lastCheckedAt.None? && previous.lastRecoveredAt.Some?
              && previous.lastRecoveredAt.value > check.timestamp)
  {
  }

  /** The constructor's invariant alone is not enough: here is a valid state whose next check raises. */
  lemma ValidityIsNotInductive() returns (s: State, check: Check)
    ensures ValidState(s) && Evaluate(s, check, 3) == Err(InvalidState)
  {
    s := State(Healthy, None, 0, None, None, Some(10), false, None, None);
    check := Check(5, None);
  }

  // ---------- What a history of checks determines ----------

  /** How many of the last checks failed in a row. */
  function Trailing(h: seq<Check>): (n: nat)
    ensures n <= |h|
    ensures n > 0 <==> h != [] && h[|h| - 1].Fails()
    ensures forall k :: |h| - n <= k < |h| ==> h[k].Fails()
    ensures n < |h| ==> !h[|h| - n - 1].Fails()
  {
    if h == [] || !h[|h| - 1].Fails() then 0 else 1 + Trailing(h[..|h| - 1])
  }

  /** The last healthy check directly after a failed one. */
  function LastRecovery(h: seq<Check>): Option<Timestamp> {
    if |h| < 2 then None
    else if !h[|h| - 1].Fails() && h[|h| - 2].Fails() then Some(h[|h| - 1].timestamp)
    else LastRecovery(h[..|h| - 1])
  }

  function StatusOf(trailing: nat, threshold: nat): Status {
    if trailing == 0 then Healthy else if trailing < threshold then Degraded else Failed
  }

  ghost predicate Chronological(h: seq<Check>) {
    forall i, j :: 0 <= i < j < |h| ==> h[i].timestamp <= h[j].timestamp
  }

  /** The state says of its history exactly: how long the trailing failing run is, when it began,
  what the threshold makes of it, its last cause, and when the last recovery was. An incident
  stays recorded past its end only while its recovery is pending. */
  ghost predicate Tells(s: State, h: seq<Check>, threshold: nat) {
    var n := Trailing(h);
    && ValidState(s)
    && s.failures == n
    && s.status == StatusOf(n, threshold)
    && s.failureKind == (if n > 0 then h[|h| - 1].failure else None)
    && s.lastCheckedAt == (if h == [] then None else Some(h[|h| - 1].timestamp))
    && s.lastRecoveredAt == LastRecovery(h)
    && (n > 0 ==> s.incidentStartedAt == Some(h[|h| - n].timestamp))
    && (n == 0 && s.pending.None? ==> s.incidentStartedAt.None?)
    && (n == 0 && s.pending.Some? ==>
          h != [] &&
          var m := Trailing(h[..|h| - 1]);
          m > 0 && s.incidentStartedAt == Some(h[|h| - 1 - m].timestamp))
  }

  lemma {:induction false} RecoveryWithinHistory(h: seq<Check>)
    requires Chronological(h)
    ensures LastRecovery(h).Some? ==> h != [] && LastRecovery(h).value <= h[|h| - 1].timestamp
  {
    if |h| >= 2 && !(!h[|h| - 1].Fails() && h[|h| - 2].Fails()) {
      RecoveryWithinHistory(h[..|h| - 1]);
    }
  }

  lemma InitialTells(threshold: nat)
    ensures Tells(INITIAL, [], threshold)
  {
  }

  /** How one check moves the histories' summaries. */
  lemma OneMoreCheck(h: seq<Check>, check: Check)
    ensures var longer := h + [check];
      && Trailing(longer) == (if check.Fails() then Trailing(h) + 1 else 0)
      && LastRecovery(longer)
         == (if h != [] && !check.Fails() && h[|h| - 1].Fails() then Some(check.timestamp) else LastRecovery(h))
      && (Trailing(h) > 0 ==> longer[|h| - Trailing(h)] == h[|h| - Trailing(h)])
  {
    assert (h + [check])[..|h|] == h;
  }

  lemma FailedCheckIsValid(s: State, h: seq<Check>, check: Check, threshold: nat)
    requires threshold > 0 && Tells(s, h, threshold) && check.Fails()
    requires NotAfter(s.lastCheckedAt, Some(check.timestamp)) && NotAfter(s.lastRecoveredAt, Some(check.timestamp))
    ensures ValidState(FailedState(s, check, threshold))
  {
  }

  lemma FailedCheckTells(s: State, h: seq<Check>, check: Check, threshold: nat)
    requires threshold > 0 && Tells(s, h, threshold) && check.Fails()
    requires NotAfter(s.lastCheckedAt, Some(check.timestamp)) && NotAfter(s.lastRecoveredAt, Some(check.timestamp))
    ensures Tells(FailedState(s, check, threshold), h + [check], threshold)
  {
    OneMoreCheck(h, check);
    FailedCheckIsValid(s, h, check, threshold);
  }

  lemma HealthyCheckTells(s: State, h: seq<Check>, check: Check, threshold: nat)
    requires threshold > 0 && Tells(s, h, threshold) && !check.Fails()
    requires NotAfter(s.lastCheckedAt, Some(check.timestamp)) && NotAfter(s.lastRecoveredAt, Some(check.timestamp))
    ensures Tells(HealthyState(s, check), h + [check], threshold)
  {
    OneMoreCheck(h, check);
    assert (h + [check])[..|h|] == h;
  }

  lemma LaterThanHistory(s: State, h: seq<Check>, check: Check, threshold: nat)
    requires Tells(s, h, threshold) && Chronological(h + [check])
    ensures NotAfter(s.lastCheckedAt, Some(check.timestamp)) && NotAfter(s.lastRecoveredAt, Some(check.timestamp))
  {
    RecoveryWithinHistory(h + [check]);
    OneMoreCheck(h, check);
    if h != [] {
      assert (h + [check])[|h| - 1] == h[|h| - 1] && (h + [check])[|h|] == check;
    }
  }

  lemma LaterCheckIsAccepted(s: State, check: Check, threshold: nat)
    requires ValidState(s)
    requires NotAfter(s.lastCheckedAt, Some(check.timestamp)) && NotAfter(s.lastRecoveredAt, Some(check.timestamp))
    requires ValidState(if check.Fails() then FailedState(s, check, threshold) else HealthyState(s, check))
    ensures Evaluate(s, check, threshold)
         == Ok(if check.Fails() then FailedState(s, check, threshold) else HealthyState(s, check))
  {
  }

  /** A chronological check is always accepted, and the new state tells the longer history. */
  lemma CheckTells(s: State, h: seq<Check>, check: Check, threshold: nat)
    requires threshold > 0 && Tells(s, h, threshold) && Chronological(h + [check])
    ensures Evaluate(s, check, threshold).Ok?
    ensures Tells(Evaluate(s, check, threshold).value, h + [check], threshold)
  {
    LaterThanHistory(s, h, check, threshold);
    if check.Fails() {
      FailedCheckTells(s, h, check, threshold);
    } else {
      HealthyCheckTells(s, h, check, threshold);
    }
    LaterCheckIsAccepted(s, check, threshold);
  }

  /** Acknowledging, suppressing and recording digests leave what the state tells untouched. */
  lemma BookkeepingTells(s: State, h: seq<Check>, threshold: nat, kind: NotificationKind, delivery: DigestDelivery)
    requires threshold > 0 && Tells(s, h, threshold)
    ensures Suppress(s).Ok? && Tells(Suppress(s).value, h, threshold)
    ensures s.pending == Some(kind) ==> Acknowledge(s, kind).Ok? && Tells(Acknowledge(s, kind).value, h, threshold)
    ensures RecordDigest(s, delivery).Ok? ==> Tells(RecordDigest(s, delivery).value, h, threshold)
    ensures RecordDigest(s, delivery).Err? <==>
            s.lastDigest.Some? && delivery.deliveredAt < s.lastDigest.value.deliveredAt
  {
    match s.pending
    case None =>
    case Some(Failure) =>
    case Some(Recovery) =>
  }

  // ---------- Any run of the engine ----------

  datatype EngineEvent =
    | Checked(check: Check)
    | Acknowledged(kind: NotificationKind)
    | Suppressed
    | DigestRecorded(delivery: DigestDelivery)

  function Transition(s: State, event: EngineEvent, threshold: nat): Result<State, EngineError> {
    match event
    case Checked(check) => Evaluate(s, check, threshold)
    case Acknowledged(kind) => Acknowledge(s, kind)
    case Suppressed => Suppress(s)
    case DigestRecorded(delivery) => RecordDigest(s, delivery)
  }

  /** A raising transition leaves the state as it was. */
  function After(s: State, event: EngineEvent, threshold: nat): State {
    Transition(s, event, threshold).Or(s)
  }

  function Play(s: State, events: seq<EngineEvent>, threshold: nat): State
    decreases |events|
  {
    if events == [] then s else Play(After(s, events[0], threshold), events[1..], threshold)
  }

  function CheckOf(event: EngineEvent): seq<Check> {
    if event.Checked? then [event.check] else []
  }

  function Checks(events: seq<EngineEvent>): seq<Check> {
    if events == [] then [] else CheckOf(events[0]) + Checks(events[1..])
  }

  lemma TransitionTells(s: State, h: seq<Check>, event: EngineEvent, threshold: nat)
    requires threshold > 0 && Tells(s, h, threshold) && Chronological(h + CheckOf(event))
    ensures Tells(After(s, event, threshold), h + CheckOf(event), threshold)
    ensures event.Checked? ==> Transition(s, event, threshold).Ok?
  {
    var nowhere := DigestDelivery(0, 0, 0, false);
    match event
    case Checked(check) => CheckTells(s, h, check, threshold);
    case Acknowledged(kind) =>
      BookkeepingTells(s, h, threshold, kind, nowhere);
      assert h + [] == h;
    case Suppressed =>
      BookkeepingTells(s, h, threshold, Failure, nowhere);
      assert h + [] == h;
    case DigestRecorded(delivery) =>
      BookkeepingTells(s, h, threshold, Failure, delivery);
      assert h + [] == h;
  }

  lemma {:induction false} PlayTells(s: State, h: seq<Check>, events: seq<EngineEvent>, threshold: nat)
    requires threshold > 0 && Tells(s, h, threshold) && Chronological(h + Checks(events))
    ensures Tells(Play(s, events, threshold), h + Checks(events), threshold)
    decreases |events|
  {
    if events == [] {
      assert h + [] == h;
    } else {
      var longer := h + CheckOf(events[0]);
      assert h + Checks(events) == longer + Checks(events[1..]);
      assert forall i :: 0 <= i < |longer| ==> longer[i] == (h + Checks(events))[i];
      TransitionTells(s, h, events[0], threshold);
      PlayTells(After(s, events[0], threshold), longer, events[1..], threshold);
    }
  }

  /** Whatever else happens between the checks, the state is a function of their history. */
  lemma StateIsFunctionOfHistory(events: seq<EngineEvent>, threshold: nat)
    requires threshold > 0 && Chronological(Checks(events))
    ensures Tells(Play(INITIAL, events, threshold), Checks(events), threshold)
  {
    InitialTells(threshold);
    assert [] + Checks(events) == Checks(events);
    PlayTells(INITIAL, [], events, threshold);
  }
}
