/** Delivering at most one digest per calendar date: reserve, prepare, stage, send, compensate. */
module DigestWorkflow {
  import opened Domain
  import opened Sequences
  import opened ObservationLog
  import opened DailyDigest
  import DigestRefresh
  import Synchronization

  /** A staged membership, in insertion order of the dates. */
  datatype Baseline = Baseline(date: Date, ids: set<ProductId>)

  /** The reservation table, the baseline table, and what the channel accepted. */
  datatype Stores = Stores(reserved: set<Date>, baselines: seq<Baseline>, accepted: seq<Digest>)

  const EMPTY_STORES := Stores({}, [], [])

  datatype World = World(log: Log, alerts: Synchronization.Alerts, stores: Stores)

  /** Where a run can be interrupted by an exception. AtReserve and AfterReserve lie before the handlers;
  AfterReserve and AfterStage are failures reported once the row has been committed. */
  datatype Point =
    | AtReserve
    | AfterReserve
    | AtPromotion
    | AtFirstRead
    | AtSecondRead
    | AtBaseline
    | AtGenerate
    | AtStage
    | AfterStage
    | AtSend

  datatype Fault = NoFault | Fault(point: Point, isPromotionError: bool)

  /** `refreshing` and `comparing` tell whether the optional collaborators are present. */
  datatype Config = Config(minimum: real, refreshing: bool, comparing: bool, setup: Synchronization.Setup)

  /** The last two tell how the handlers' calls end, if they are made. */
  datatype Call = Call(
    date: Date,
    due: bool,
    timestamp: Timestamp,
    promoted: bool,
    provider: DigestRefresh.Provider,
    fault: Fault,
    baselineRelease: Ending,
    reservationRelease: Ending)

  datatype Outcome =
    | NotDue
    | AlreadySent
    | PromotionUnavailable
    | Delivered(digest: Digest, refreshErrors: seq<Synchronization.ProviderError>)
    | Raised

  // ---------- The tables ----------

  /** The newest baseline strictly before a date. */
  function LatestBefore(baselines: seq<Baseline>, date: Date): Option<Baseline> {
    if baselines == [] then None
    else
      var best := LatestBefore(baselines[..|baselines| - 1], date);
      var last := baselines[|baselines| - 1];
      if last.date < date && (best.None? || last.date > best.value.date) then Some(last) else best
  }

  ghost predicate OneDateEach(baselines: seq<Baseline>) {
    forall i, j :: 0 <= i < j < |baselines| ==> baselines[i].date != baselines[j].date
  }

  /** The baseline with the greatest date before the given one; none only if there is no such date. */
  lemma {:induction false} LatestBeforeCharacterized(baselines: seq<Baseline>, date: Date)
    requires OneDateEach(baselines)
    ensures LatestBefore(baselines, date).None? <==> forall b :: b in baselines ==> b.date >= date
    ensures forall b :: LatestBefore(baselines, date) == Some(b) <==>
              b in baselines && b.date < date && forall c :: c in baselines && c.date < date ==> c.date <= b.date
  {
    if baselines != [] {
      var init, last := baselines[..|baselines| - 1], baselines[|baselines| - 1];
      LatestBeforeCharacterized(init, date);
      assert forall c :: c in baselines <==> c in init || c == last;
      assert forall c :: c in init ==> c.date != last.date;
    }
  }

  function PreviousIds(baselines: seq<Baseline>, date: Date): Option<set<ProductId>> {
    match LatestBefore(baselines, date)
    case None => None
    case Some(b) => Some(b.ids)
  }

  predicate HasBaseline(baselines: seq<Baseline>, date: Date) {
    exists b :: b in baselines && b.date == date
  }

  function Replaced(baselines: seq<Baseline>, staged: Baseline): seq<Baseline> {
    Map(baselines, (b: Baseline) => if b.date == staged.date then staged else b)
  }

  /** Insert, or replace the row of the same date. */
  function Staged(baselines: seq<Baseline>, staged: Baseline): seq<Baseline> {
    if HasBaseline(baselines, staged.date) then Replaced(baselines, staged) else baselines + [staged]
  }

  function OtherDate(date: Date): Baseline -> bool {
    (b: Baseline) => b.date != date
  }

  function Released(baselines: seq<Baseline>, date: Date): seq<Baseline> {
    Filter(baselines, OtherDate(date))
  }

  lemma StagedMembers(baselines: seq<Baseline>, staged: Baseline)
    ensures forall b :: b in Staged(baselines, staged) <==> b == staged || (b in baselines && b.date != staged.date)
  {
    var after := Staged(baselines, staged);
    forall b ensures b in after <==> b == staged || (b in baselines && b.date != staged.date) {
      if HasBaseline(baselines, staged.date) {
        forall i | 0 <= i < |baselines| ensures after[i] == if baselines[i].date == staged.date then staged else baselines[i] {
        }
        if b in baselines && b.date != staged.date {
          var i :| 0 <= i < |baselines| && baselines[i] == b;
          assert after[i] == b;
        }
        if b == staged {
          var c :| c in baselines && c.date == staged.date;
          var i :| 0 <= i < |baselines| && baselines[i] == c;
          assert after[i] == b;
        }
      }
    }
  }

  function MembershipOf(digest: Digest): Baseline {
    Baseline(digest.date, set p | p in digest.products :: p.id)
  }

  // ---------- One run ----------

  function WithDate(world: World, date: Date): World {
    world.(stores := world.stores.(reserved := world.stores.reserved + {date}))
  }

  function WithoutDate(stores: Stores, call: Call): Stores {
    if call.reservationRelease.Commits() then stores.(reserved := stores.reserved - {call.date}) else stores
  }

  function WithoutBaseline(stores: Stores, call: Call): Stores {
    if call.baselineRelease.Commits() then stores.(baselines := Released(stores.baselines, call.date)) else stores
  }

  /** The two exception handlers. A promotion error releases the reservation alone. Any other exception
  releases the baseline first, and if that raises, the reservation is not released. */
  function Restored(config: Config, stores: Stores, call: Call, isPromotionError: bool): Stores {
    if isPromotionError || !config.comparing then WithoutDate(stores, call)
    else if call.baselineRelease.Returns? then WithoutDate(WithoutBaseline(stores, call), call)
    else WithoutBaseline(stores, call)
  }

  function Compensated(config: Config, world: World, call: Call, isPromotionError: bool): (World, Outcome) {
    (world.(stores := Restored(config, world.stores, call, isPromotionError)),
     if isPromotionError && call.reservationRelease.Returns? then PromotionUnavailable else Raised)
  }

  function FaultsAt(call: Call, point: Point): bool {
    call.fault.Fault? && call.fault.point == point
  }

  function ReserveEnding(call: Call): Ending {
    if FaultsAt(call, AtReserve) then RaisesBeforeCommit
    else if FaultsAt(call, AfterReserve) then RaisesAfterCommit
    else Returns
  }

  function WithBaseline(config: Config, world: World, digest: Digest): World {
    if config.comparing then
      world.(stores := world.stores.(baselines := Staged(world.stores.baselines, MembershipOf(digest))))
    else world
  }

  function StageAndSend(
    config: Config, world: World, call: Call, digest: Digest, errors: seq<Synchronization.ProviderError>)
    : (World, Outcome)
  {
    var staged := WithBaseline(config, world, digest);
    if (FaultsAt(call, AfterStage) && config.comparing) || FaultsAt(call, AtSend) then
      Compensated(config, staged, call, call.fault.isPromotionError)
    else
      (staged.(stores := staged.stores.(accepted := staged.stores.accepted + [digest])), Delivered(digest, errors))
  }

  function KnownIds(config: Config, stores: Stores, date: Date): Option<set<ProductId>> {
    if config.comparing then PreviousIds(stores.baselines, date) else None
  }

  /** From a prepared log: compare with the baseline, generate, stage and send. */
  function Deliver(
    config: Config, world: World, call: Call, snapshots: seq<Snapshot>,
    errors: seq<Synchronization.ProviderError>)
    : (World, Outcome)
  {
    if FaultsAt(call, AtBaseline) && config.comparing then Compensated(config, world, call, call.fault.isPromotionError)
    else if FaultsAt(call, AtGenerate) then Compensated(config, world, call, call.fault.isPromotionError)
    else
      var known := KnownIds(config, world.stores, call.date);
      match Generate(snapshots, config.minimum, call.date, call.timestamp, call.promoted, known)
      case Err(_) => Compensated(config, world, call, false)
      case Ok(digest) =>
        if FaultsAt(call, AtStage) && config.comparing then
          Compensated(config, world, call, call.fault.isPromotionError)
        else StageAndSend(config, world, call, digest, errors)
  }

  function ProductsOf(snapshots: seq<Snapshot>): seq<Product> {
    Map(snapshots, ProductOf())
  }

  function SelectStaleFor(config: Config, world: World, call: Call): Result<seq<Snapshot>, DigestError> {
    SelectStale(LatestSnapshots(world.log.rows), config.minimum, call.timestamp, REFRESH_LIMIT)
  }

  function RecheckOf(config: Config, world: World, call: Call, stale: seq<Snapshot>): DigestRefresh.Refreshed {
    DigestRefresh.Refresh(
      config.setup.(timestamp := call.timestamp), call.provider, world.log, world.alerts, ProductsOf(stale))
  }

  /** Recheck the stale products, then deliver from the refreshed log. */
  function RecheckAndDeliver(config: Config, world: World, call: Call, stale: seq<Snapshot>): (World, Outcome) {
    var r := RecheckOf(config, world, call, stale);
    var refreshed := world.(log := r.log, alerts := r.alerts);
    if r.raised then Compensated(config, refreshed, call, false)
    else if FaultsAt(call, AtSecondRead) then Compensated(config, refreshed, call, call.fault.isPromotionError)
    else Deliver(config, refreshed, call, LatestSnapshots(r.log.rows), r.errors)
  }

  /** Deliver what is stored, or recheck what is stale first. */
  function FreshenAndDeliver(config: Config, world: World, call: Call, snapshots: seq<Snapshot>): (World, Outcome) {
    if !config.refreshing then Deliver(config, world, call, snapshots, [])
    else
      match SelectStale(snapshots, config.minimum, call.timestamp, REFRESH_LIMIT)
      case Err(_) => Compensated(config, world, call, false)
      case Ok(stale) => RecheckAndDeliver(config, world, call, stale)
  }

  function PrepareAndDeliver(config: Config, world: World, call: Call): (World, Outcome) {
    if FaultsAt(call, AtPromotion) || FaultsAt(call, AtFirstRead) then
      Compensated(config, world, call, call.fault.isPromotionError)
    else FreshenAndDeliver(config, world, call, LatestSnapshots(world.log.rows))
  }

  function Run(config: Config, world: World, call: Call): (World, Outcome) {
    if !call.due then (world, NotDue)
    else if FaultsAt(call, AtReserve) then (world, Raised)
    else if FaultsAt(call, AfterReserve) then (WithDate(world, call.date), Raised)
    else if call.date in world.stores.reserved then (world, AlreadySent)
    else PrepareAndDeliver(config, WithDate(world, call.date), call)
  }

  // ---------- What every run keeps ----------

  function Dates(accepted: seq<Digest>): set<Date> {
    set d | d in accepted :: d.date
  }

  function Memberships(accepted: seq<Digest>): seq<Baseline> {
    Map(accepted, (d: Digest) => MembershipOf(d))
  }

  /** No date is accepted twice, and the reserved dates are the accepted and the lost ones. */
  ghost predicate DatesAgree(stores: Stores, lost: set<Date>) {
    && (forall i, j :: 0 <= i < j < |stores.accepted| ==> stores.accepted[i].date != stores.accepted[j].date)
    && stores.reserved == Dates(stores.accepted) + lost
    && Dates(stores.accepted) !! lost
  }

  /** The baselines are the memberships of the accepted digests. */
  ghost predicate BaselinesAgree(comparing: bool, stores: Stores) {
    comparing ==> stores.baselines == Memberships(stores.accepted)
  }

  /** The tables agree with the channel. */
  ghost predicate Settled(comparing: bool, stores: Stores) {
    DatesAgree(stores, {}) && BaselinesAgree(comparing, stores)
  }

  /** Every digest marks as new exactly its products missing from the digest with the latest
  earlier date that had been accepted before it. */
  ghost predicate NewnessCorrect(comparing: bool, accepted: seq<Digest>) {
    forall i :: 0 <= i < |accepted| ==>
      accepted[i].newProducts == NewProducts(
                                   accepted[i].products,
                                   if comparing then PreviousIds(Memberships(accepted[..i]), accepted[i].date) else None)
  }

  lemma ReleaseOfNewDate(baselines: seq<Baseline>, staged: Baseline)
    requires !HasBaseline(baselines, staged.date)
    ensures Released(baselines, staged.date) == baselines
    ensures Released(Staged(baselines, staged), staged.date) == baselines
  {
    FilterEvery(baselines, OtherDate(staged.date));
    assert (baselines + [staged])[..|baselines|] == baselines;
  }

  // ---------- What interrupts a run, and what then stays ----------

  predicate Reaches(config: Config, point: Point) {
    match point
    case AtReserve => false
    case AfterReserve => false
    case AtSecondRead => config.refreshing
    case AtBaseline => config.comparing
    case AtStage => config.comparing
    case AfterStage => config.comparing
    case AtPromotion => true
    case AtFirstRead => true
    case AtGenerate => true
    case AtSend => true
  }

  predicate RecheckRaises(config: Config, world: World, call: Call) {
    config.refreshing && RecheckOf(config, world, call, SelectStaleFor(config, world, call).Or([])).raised
  }

  /** The exception at the fault's point, if the run gets there: whether it is a promotion error. */
  function FaultReached(config: Config, call: Call): Option<bool> {
    if call.fault.Fault? && Reaches(config, call.fault.point) then Some(call.fault.isPromotionError) else None
  }

  /** The exception that a due run on a free date meets behind its reservation. */
  function Interruption(config: Config, world: World, call: Call): Option<bool> {
    if !FaultsAt(call, AtPromotion) && !FaultsAt(call, AtFirstRead) && RecheckRaises(config, world, call) then Some(false)
    else FaultReached(config, call)
  }

  /** The handlers leave the date reserved. */
  predicate DateStays(config: Config, call: Call, isPromotionError: bool) {
    || !call.reservationRelease.Commits()
    || (config.comparing && !isPromotionError && !call.baselineRelease.Returns?)
  }

  /** An exception comes once the baseline has been staged, and the handlers leave the baseline. */
  predicate BaselineStays(config: Config, call: Call) {
    && config.comparing && (FaultsAt(call, AfterStage) || FaultsAt(call, AtSend))
    && (call.fault.isPromotionError || !call.baselineRelease.Commits())
  }

  predicate OnFreeDate(world: World, call: Call) {
    call.due && call.date !in world.stores.reserved
  }

  /** The call reserves its date, and neither delivers a digest nor releases the date. */
  predicate LosesDate(config: Config, world: World, call: Call) {
    && OnFreeDate(world, call) && !FaultsAt(call, AtReserve)
    && (|| FaultsAt(call, AfterReserve)
        || (Interruption(config, world, call).Some? && DateStays(config, call, Interruption(config, world, call).value)))
  }

  /** The call stages a baseline, and neither delivers its digest nor releases the baseline. */
  predicate LeavesBaseline(config: Config, world: World, call: Call) {
    OnFreeDate(world, call) && !RecheckRaises(config, world, call) && BaselineStays(config, call)
  }

  /** How a run ends that has reserved its date: with a digest, or interrupted and compensated. */
  ghost predicate Ends(
    config: Config, before: Stores, call: Call, interruption: Option<bool>, leaves: bool, after: Stores, outcome: Outcome)
  {
    && (match interruption
        case None =>
          && outcome.Delivered? && outcome.digest.date == call.date
          && after.reserved == before.reserved && after.accepted == before.accepted + [outcome.digest]
          && outcome.digest.newProducts
             == NewProducts(outcome.digest.products, KnownIds(config, before, call.date))
        case Some(isPromotionError) =>
          && !outcome.Delivered? && after.accepted == before.accepted
          && after.reserved
             == if DateStays(config, call, isPromotionError) then before.reserved else before.reserved - {call.date})
    && (config.comparing && !HasBaseline(before.baselines, call.date) ==>
          BaselinesEnd(before, call.date, leaves, after, outcome))
  }

  ghost predicate BaselinesEnd(before: Stores, date: Date, leaves: bool, after: Stores, outcome: Outcome) {
    if leaves then exists ids :: after.baselines == before.baselines + [Baseline(date, ids)]
    else if outcome.Delivered? then after.baselines == before.baselines + [MembershipOf(outcome.digest)]
    else after.baselines == before.baselines
  }

  lemma CompensationEnds(config: Config, world: World, call: Call, isPromotionError: bool)
    ensures var (after, outcome) := Compensated(config, world, call, isPromotionError);
      Ends(config, world.stores, call, Some(isPromotionError), false, after.stores, outcome)
  {
    if !HasBaseline(world.stores.baselines, call.date) {
      ReleaseOfNewDate(world.stores.baselines, Baseline(call.date, {}));
    }
  }

  lemma StagedCompensationEnds(config: Config, world: World, call: Call, digest: Digest, isPromotionError: bool)
    requires digest.date == call.date
    ensures var (after, outcome) := Compensated(config, WithBaseline(config, world, digest), call, isPromotionError);
      Ends(
        config, world.stores, call, Some(isPromotionError),
        config.comparing && (isPromotionError || !call.baselineRelease.Commits()), after.stores, outcome)
  {
    if config.comparing && !HasBaseline(world.stores.baselines, call.date) {
      ReleaseOfNewDate(world.stores.baselines, MembershipOf(digest));
    }
  }

  lemma StagingEnds(
    config: Config, world: World, call: Call, digest: Digest, errors: seq<Synchronization.ProviderError>)
    requires digest.date == call.date
    requires digest.newProducts == NewProducts(digest.products, KnownIds(config, world.stores, call.date))
    requires FaultReached(config, call).Some? ==> call.fault.point in {AfterStage, AtSend}
    ensures var (after, outcome) := StageAndSend(config, world, call, digest, errors);
      Ends(config, world.stores, call, FaultReached(config, call), BaselineStays(config, call), after.stores, outcome)
  {
    if FaultReached(config, call).Some? {
      StagedCompensationEnds(config, world, call, digest, call.fault.isPromotionError);
    }
  }

  lemma DeliveryEnds(
    config: Config, world: World, call: Call, snapshots: seq<Snapshot>, errors: seq<Synchronization.ProviderError>)
    requires UniqueProducts(snapshots)
    requires FaultReached(config, call).Some? ==> call.fault.point !in {AtPromotion, AtFirstRead, AtSecondRead}
    ensures var (after, outcome) := Deliver(config, world, call, snapshots, errors);
      Ends(config, world.stores, call, FaultReached(config, call), BaselineStays(config, call), after.stores, outcome)
  {
    if FaultReached(config, call).Some? {
      CompensationEnds(config, world, call, call.fault.isPromotionError);
    }
    if !(FaultsAt(call, AtBaseline) && config.comparing) && !FaultsAt(call, AtGenerate) {
      var known := KnownIds(config, world.stores, call.date);
      var digest := Generate(snapshots, config.minimum, call.date, call.timestamp, call.promoted, known).value;
      if !(FaultsAt(call, AtStage) && config.comparing) {
        StagingEnds(config, world, call, digest, errors);
      }
    }
  }

  lemma LatestAreUnique(log: Log)
    requires ValidLog(log)
    ensures UniqueProducts(LatestSnapshots(log.rows))
  {
    LatestSnapshotsListsEachProductOnce(log.rows);
  }

  lemma RecheckEnds(config: Config, world: World, call: Call, stale: seq<Snapshot>)
    requires ValidLog(world.log) && config.refreshing
    requires !FaultsAt(call, AtPromotion) && !FaultsAt(call, AtFirstRead)
    ensures var (after, outcome) := RecheckAndDeliver(config, world, call, stale);
      var raised := RecheckOf(config, world, call, stale).raised;
      Ends(
        config, world.stores, call, if raised then Some(false) else FaultReached(config, call),
        !raised && BaselineStays(config, call), after.stores, outcome)
  {
    var r := RecheckOf(config, world, call, stale);
    var refreshed := world.(log := r.log, alerts := r.alerts);
    CompensationEnds(config, refreshed, call, false);
    CompensationEnds(config, refreshed, call, true);
    if !r.raised && !FaultsAt(call, AtSecondRead) {
      DigestRefresh.RefreshKeepsLog(
        DigestRefresh.Recheck(config.setup.(timestamp := call.timestamp)), call.provider,
        DigestRefresh.Refreshed(world.log, world.alerts, [], false),
        DigestRefresh.Chunks(DigestRefresh.FirstByUrl(ProductsOf(stale))), 0);
      LatestAreUnique(r.log);
      DeliveryEnds(config, refreshed, call, LatestSnapshots(r.log.rows), r.errors);
    }
  }

  lemma PreparationEnds(config: Config, world: World, call: Call)
    requires ValidLog(world.log)
    ensures var (after, outcome) := PrepareAndDeliver(config, world, call);
      Ends(
        config, world.stores, call, Interruption(config, world, call),
        !RecheckRaises(config, world, call) && BaselineStays(config, call), after.stores, outcome)
  {
    LatestAreUnique(world.log);
    if FaultsAt(call, AtPromotion) || FaultsAt(call, AtFirstRead) {
      CompensationEnds(config, world, call, call.fault.isPromotionError);
    } else if config.refreshing {
      RecheckEnds(config, world, call, SelectStaleFor(config, world, call).value);
    } else {
      DeliveryEnds(config, world, call, LatestSnapshots(world.log.rows), []);
    }
  }

  /** The whole run, exactly: nothing changes unless the date is free and due; then the run ends as the
  interruption says. */
  lemma RunEnds(config: Config, world: World, call: Call)
    requires ValidLog(world.log)
    ensures var (after, outcome) := Run(config, world, call);
      if !OnFreeDate(world, call) || FaultsAt(call, AtReserve) then after.stores == world.stores && !outcome.Delivered?
      else if FaultsAt(call, AfterReserve) then
        !outcome.Delivered? && after.stores == world.stores.(reserved := world.stores.reserved + {call.date})
      else
        Ends(
          config, WithDate(world, call.date).stores, call, Interruption(config, world, call),
          LeavesBaseline(config, world, call), after.stores, outcome)
  {
    if !OnFreeDate(world, call) {
      assert call.due ==> world.stores.reserved + {call.date} == world.stores.reserved;
    } else {
      var reserved := WithDate(world, call.date);
      PreparationEnds(config, reserved, call);
      assert SelectStaleFor(config, reserved, call) == SelectStaleFor(config, world, call);
    }
  }

  // ---------- What a delivered digest says ----------

  /** The digest is of the call and lists exactly the qualifying products as the log has them last. */
  ghost predicate Shows(config: Config, call: Call, log: Log, digest: Digest) {
    && digest.date == call.date && digest.createdAt == call.timestamp && digest.promoted == call.promoted
    && (forall p :: p in digest.products <==>
          && p.available && p.originalPrice.Some? && p.discount >= config.minimum
          && LatestOf(log.rows, p.id).Some? && LatestOf(log.rows, p.id).value.snapshot.product == p)
    && (forall i, j :: 0 <= i < j < |digest.products| ==> StandsBefore(digest.products[i], digest.products[j]))
  }

  lemma LatestProducts(log: Log, p: Product)
    requires ValidLog(log)
    ensures (exists s :: s in LatestSnapshots(log.rows) && s.product == p) <==>
            LatestOf(log.rows, p.id).Some? && LatestOf(log.rows, p.id).value.snapshot.product == p
  {
    LatestSnapshotsListsEachProductOnce(log.rows);
    var latest := LatestOf(log.rows, p.id);
    if latest.Some? {
      LatestCharacterized(log.rows, p.id);
      assert latest == Some(latest.value);
      assert latest.value.snapshot.product == p ==> latest.value.snapshot in LatestSnapshots(log.rows);
    }
  }

  lemma GeneratedShows(config: Config, call: Call, log: Log, known: Option<set<ProductId>>)
    requires ValidLog(log)
    ensures var r := Generate(
                       LatestSnapshots(log.rows), config.minimum, call.date, call.timestamp, call.promoted, known);
      r.Ok? && Shows(config, call, log, r.value)
  {
    LatestAreUnique(log);
    DigestShows(LatestSnapshots(log.rows), config.minimum);
    forall p ensures (exists s :: s in LatestSnapshots(log.rows) && s.product == p) <==>
        LatestOf(log.rows, p.id).Some? && LatestOf(log.rows, p.id).value.snapshot.product == p
    {
      LatestProducts(log, p);
    }
  }

  lemma DeliveryShows(config: Config, world: World, call: Call, errors: seq<Synchronization.ProviderError>)
    requires ValidLog(world.log)
    ensures var (after, outcome) := Deliver(config, world, call, LatestSnapshots(world.log.rows), errors);
      && after.log == world.log
      && (outcome.Delivered? ==> Shows(config, call, after.log, outcome.digest) && outcome.refreshErrors == errors)
  {
    GeneratedShows(config, call, world.log, KnownIds(config, world.stores, call.date));
  }

  /** The run comes to its recheck: it is due on a free date, reserving returns, and the exceptions that may
  come before it do not. */
  predicate Rechecks(config: Config, world: World, call: Call) {
    && config.refreshing && OnFreeDate(world, call)
    && (call.fault.NoFault? || call.fault.point !in {AtReserve, AfterReserve, AtPromotion, AtFirstRead})
  }

  lemma RecheckShows(config: Config, world: World, call: Call, stale: seq<Snapshot>)
    requires ValidLog(world.log)
    ensures var (after, outcome) := RecheckAndDeliver(config, world, call, stale);
      && after.log == RecheckOf(config, world, call, stale).log
      && (outcome.Delivered? ==>
            && Shows(config, call, after.log, outcome.digest)
            && outcome.refreshErrors == RecheckOf(config, world, call, stale).errors)
  {
    var r := RecheckOf(config, world, call, stale);
    DigestRefresh.RefreshKeepsLog(
      DigestRefresh.Recheck(config.setup.(timestamp := call.timestamp)), call.provider,
      DigestRefresh.Refreshed(world.log, world.alerts, [], false),
      DigestRefresh.Chunks(DigestRefresh.FirstByUrl(ProductsOf(stale))), 0);
    DeliveryShows(config, world.(log := r.log, alerts := r.alerts), call, r.errors);
  }

  /** What a prepared run leaves: its log, and a digest that shows it. */
  ghost predicate LeavesShown(
    config: Config, call: Call, log: Log, errors: seq<Synchronization.ProviderError>, after: World, outcome: Outcome)
  {
    && after.log == log
    && (outcome.Delivered? ==> Shows(config, call, log, outcome.digest) && outcome.refreshErrors == errors)
  }

  lemma PreparationShows(config: Config, world: World, call: Call)
    requires ValidLog(world.log)
    ensures var (after, outcome) := PrepareAndDeliver(config, world, call);
      var r := RecheckOf(config, world, call, SelectStaleFor(config, world, call).Or([]));
      if config.refreshing && !FaultsAt(call, AtPromotion) && !FaultsAt(call, AtFirstRead) then
        LeavesShown(config, call, r.log, r.errors, after, outcome)
      else LeavesShown(config, call, world.log, [], after, outcome)
  {
    LatestAreUnique(world.log);
    if !FaultsAt(call, AtPromotion) && !FaultsAt(call, AtFirstRead) {
      if config.refreshing {
        RecheckShows(config, world, call, SelectStaleFor(config, world, call).value);
      } else {
        DeliveryShows(config, world, call, []);
      }
    }
  }

  /** Every delivered digest, whether its products were rechecked or not, shows what the log says when the
  run is over; and the log is what the recheck left, or what it was if there was none. */
  lemma DeliveredDigestShowsTheLog(config: Config, world: World, call: Call)
    requires ValidLog(world.log)
    ensures var (after, outcome) := Run(config, world, call);
      && (outcome.Delivered? ==> Shows(config, call, after.log, outcome.digest))
      && (if Rechecks(config, world, call) then
            var r := RecheckOf(config, world, call, SelectStaleFor(config, world, call).Or([]));
            LeavesShown(config, call, r.log, r.errors, after, outcome)
          else LeavesShown(config, call, world.log, [], after, outcome))
  {
    if OnFreeDate(world, call) {
      var reserved := WithDate(world, call.date);
      assert SelectStaleFor(config, reserved, call) == SelectStaleFor(config, world, call);
      PreparationShows(config, reserved, call);
    }
  }

  lemma RecheckIs(config: Config, world: World, call: Call, stale: seq<Snapshot>)
    ensures RecheckOf(config, world, call, stale)
         == DigestRefresh.Refresh(
              config.setup.(timestamp := call.timestamp), call.provider, world.log, world.alerts,
              seq(|stale|, k requires 0 <= k < |stale| => stale[k].product))
  {
    assert ProductsOf(stale) == seq(|stale|, k requires 0 <= k < |stale| => stale[k].product);
  }

  /** What a run that comes to its recheck does with the log: the 200 oldest stale products of its digest, as the
  log has them, are rechecked at the time of the call. */
  lemma RunRechecksStaleProducts(config: Config, world: World, call: Call)
    requires ValidLog(world.log) && Rechecks(config, world, call)
    ensures var (after, outcome) := Run(config, world, call);
      var stale := SelectStale(LatestSnapshots(world.log.rows), config.minimum, call.timestamp, 200);
      && stale.Ok?
      && var products := seq(|stale.value|, k requires 0 <= k < |stale.value| => stale.value[k].product);
         var r := DigestRefresh.Refresh(
                    config.setup.(timestamp := call.timestamp), call.provider, world.log, world.alerts, products);
         && after.log == r.log && (r.raised ==> !outcome.Delivered?) && (outcome.Delivered? ==> outcome.refreshErrors == r.errors)
  {
    LatestAreUnique(world.log);
    DeliveredDigestShowsTheLog(config, world, call);
    UndeliveredOutcomes(config, world, call);
    RecheckIs(config, world, call, SelectStaleFor(config, world, call).value);
  }

  /** The fault's point lies on the way of a run with these collaborators that has reserved its date. */
  ghost predicate Meets(config: Config, call: Call) {
    && call.fault.Fault? && call.fault.point != AtReserve && call.fault.point != AfterReserve
    && (call.fault.point == AtSecondRead ==> config.refreshing)
    && (call.fault.point == AtBaseline || call.fault.point == AtStage || call.fault.point == AfterStage ==> config.comparing)
  }

  /** Each outcome by its cause. A recheck that raises hides the faults behind it. */
  lemma UndeliveredOutcomes(config: Config, world: World, call: Call)
    requires ValidLog(world.log)
    ensures var outcome := Run(config, world, call).1;
      var reserves := call.fault.Fault? ==> call.fault.point != AtReserve && call.fault.point != AfterReserve;
      var free := call.due && call.date !in world.stores.reserved && reserves;
      var early := call.fault.Fault? && (call.fault.point == AtPromotion || call.fault.point == AtFirstRead);
      && (outcome == NotDue <==> !call.due)
      && (outcome == AlreadySent <==> call.due && call.date in world.stores.reserved && reserves)
      && (outcome == PromotionUnavailable <==>
            && free && Meets(config, call) && call.fault.isPromotionError && call.reservationRelease.Returns?
            && (early || !RecheckRaises(config, world, call)))
      && (outcome.Delivered? <==> free && !Meets(config, call) && !RecheckRaises(config, world, call))
  {
    RunEnds(config, world, call);
    assert FaultReached(config, call).Some? <==> Meets(config, call);
    if OnFreeDate(world, call) {
      PreparationOutcome(config, WithDate(world, call.date), call);
      assert SelectStaleFor(config, WithDate(world, call.date), call) == SelectStaleFor(config, world, call);
    }
  }

  /** An interrupted run reports what its handler reports. */
  predicate HandledAs(call: Call, interruption: Option<bool>, outcome: Outcome) {
    interruption.Some? ==>
      outcome == if interruption.value && call.reservationRelease.Returns? then PromotionUnavailable else Raised
  }

  lemma DeliveryOutcome(
    config: Config, world: World, call: Call, snapshots: seq<Snapshot>, errors: seq<Synchronization.ProviderError>)
    requires UniqueProducts(snapshots)
    requires FaultReached(config, call).Some? ==> call.fault.point !in {AtPromotion, AtFirstRead, AtSecondRead}
    ensures HandledAs(call, FaultReached(config, call), Deliver(config, world, call, snapshots, errors).1)
  {
  }

  lemma RecheckOutcome(config: Config, world: World, call: Call, stale: seq<Snapshot>)
    requires ValidLog(world.log) && config.refreshing
    requires !FaultsAt(call, AtPromotion) && !FaultsAt(call, AtFirstRead)
    ensures var raised := RecheckOf(config, world, call, stale).raised;
      HandledAs(
        call, if raised then Some(false) else FaultReached(config, call), RecheckAndDeliver(config, world, call, stale).1)
  {
    var r := RecheckOf(config, world, call, stale);
    if !r.raised && !FaultsAt(call, AtSecondRead) {
      DigestRefresh.RefreshKeepsLog(
        DigestRefresh.Recheck(config.setup.(timestamp := call.timestamp)), call.provider,
        DigestRefresh.Refreshed(world.log, world.alerts, [], false),
        DigestRefresh.Chunks(DigestRefresh.FirstByUrl(ProductsOf(stale))), 0);
      LatestAreUnique(r.log);
      DeliveryOutcome(
        config, world.(log := r.log, alerts := r.alerts), call, LatestSnapshots(r.log.rows), r.errors);
    }
  }

  lemma PreparationOutcome(config: Config, world: World, call: Call)
    requires ValidLog(world.log)
    ensures HandledAs(call, Interruption(config, world, call), PrepareAndDeliver(config, world, call).1)
  {
    LatestAreUnique(world.log);
    if !FaultsAt(call, AtPromotion) && !FaultsAt(call, AtFirstRead) {
      if config.refreshing {
        RecheckOutcome(config, world, call, SelectStaleFor(config, world, call).value);
      } else {
        DeliveryOutcome(config, world, call, LatestSnapshots(world.log.rows), []);
      }
    }
  }

  // ---------- The dates of a run ----------
  // ---------- The dates of a run ----------

  /** What a run loses. */
  function LostBy(config: Config, world: World, call: Call): set<Date> {
    if LosesDate(config, world, call) then {call.date} else {}
  }

  lemma DatesOfLonger(accepted: seq<Digest>, digest: Digest)
    ensures Dates(accepted + [digest]) == Dates(accepted) + {digest.date}
  {
  }

  lemma AcceptingAgrees(stores: Stores, lost: set<Date>, after: Stores, digest: Digest)
    requires DatesAgree(stores, lost) && digest.date !in stores.reserved
    requires after.reserved == stores.reserved + {digest.date} && after.accepted == stores.accepted + [digest]
    ensures DatesAgree(after, lost)
  {
    DatesOfLonger(stores.accepted, digest);
    forall i, j | 0 <= i < j < |after.accepted| ensures after.accepted[i].date != after.accepted[j].date {
      if j == |stores.accepted| { assert stores.accepted[i] in stores.accepted; }
    }
  }

  /** Whatever fails, no date is accepted twice, and the dates reserved in vain are exactly those lost. */
  lemma RunKeepsDates(config: Config, world: World, call: Call, lost: set<Date>)
    requires ValidLog(world.log) && DatesAgree(world.stores, lost)
    ensures DatesAgree(Run(config, world, call).0.stores, lost + LostBy(config, world, call))
  {
    RunEnds(config, world, call);
    var (after, outcome) := Run(config, world, call);
    if outcome.Delivered? {
      AcceptingAgrees(world.stores, lost, after.stores, outcome.digest);
    }
  }

  // ---------- The baselines of a run ----------

  lemma LostDatesHaveNoBaseline(stores: Stores, lost: set<Date>, date: Date)
    requires DatesAgree(stores, lost) && BaselinesAgree(true, stores) && date !in stores.reserved
    ensures !HasBaseline(stores.baselines, date)
  {
    forall i | 0 <= i < |stores.baselines| ensures stores.baselines[i].date != date {
      assert stores.accepted[i] in stores.accepted;
    }
  }

  lemma AddingKeepsNewness(config: Config, accepted: seq<Digest>, digest: Digest)
    requires NewnessCorrect(config.comparing, accepted)
    requires digest.newProducts == NewProducts(
               digest.products, if config.comparing then PreviousIds(Memberships(accepted), digest.date) else None)
    ensures NewnessCorrect(config.comparing, accepted + [digest])
  {
    var longer := accepted + [digest];
    forall i | 0 <= i < |longer| ensures longer[..i] == accepted[..i] {
    }
    assert accepted[..|accepted|] == accepted;
  }

  lemma AcceptingKeepsBaselines(config: Config, before: Stores, after: Stores, digest: Digest)
    requires BaselinesAgree(config.comparing, before) && NewnessCorrect(config.comparing, before.accepted)
    requires after.accepted == before.accepted + [digest]
    requires config.comparing ==> after.baselines == before.baselines + [MembershipOf(digest)]
    requires digest.newProducts == NewProducts(digest.products, KnownIds(config, before, digest.date))
    ensures BaselinesAgree(config.comparing, after) && NewnessCorrect(config.comparing, after.accepted)
  {
    assert Memberships(after.accepted) == Memberships(before.accepted) + [MembershipOf(digest)];
    AddingKeepsNewness(config, before.accepted, digest);
  }

  /** What a run does to baselines and acceptances that agree. */
  lemma RunMovesBaselines(config: Config, world: World, call: Call, lost: set<Date>)
    requires ValidLog(world.log) && DatesAgree(world.stores, lost) && BaselinesAgree(config.comparing, world.stores)
    ensures var (after, outcome) := Run(config, world, call);
      var before := world.stores;
      if LeavesBaseline(config, world, call) then
        config.comparing && after.stores.accepted == before.accepted
        && |after.stores.baselines| == |before.baselines| + 1
      else if outcome.Delivered? then
        && outcome.digest.date == call.date && after.stores.accepted == before.accepted + [outcome.digest]
        && (config.comparing ==> after.stores.baselines == before.baselines + [MembershipOf(outcome.digest)])
        && outcome.digest.newProducts == NewProducts(outcome.digest.products, KnownIds(config, before, call.date))
      else
        after.stores.accepted == before.accepted && (config.comparing ==> after.stores.baselines == before.baselines)
  {
    RunEnds(config, world, call);
    if OnFreeDate(world, call) && config.comparing {
      LostDatesHaveNoBaseline(world.stores, lost, call.date);
    }
  }

  /** The baselines stay in agreement, and the new digest's new products are right, unless the call
  leaves a baseline; lost dates do no harm here. */
  lemma RunKeepsBaselines(config: Config, world: World, call: Call, lost: set<Date>)
    requires ValidLog(world.log) && DatesAgree(world.stores, lost)
    requires BaselinesAgree(config.comparing, world.stores) && NewnessCorrect(config.comparing, world.stores.accepted)
    ensures var after := Run(config, world, call).0.stores;
      && (BaselinesAgree(config.comparing, after) <==> !LeavesBaseline(config, world, call))
      && (!LeavesBaseline(config, world, call) ==> NewnessCorrect(config.comparing, after.accepted))
  {
    RunMovesBaselines(config, world, call, lost);
    var (after, outcome) := Run(config, world, call);
    if !LeavesBaseline(config, world, call) && outcome.Delivered? {
      AcceptingKeepsBaselines(config, world.stores, after.stores, outcome.digest);
    }
  }

  // ---------- Both ----------

  /** The exact condition: one run breaks the agreement of tables and channel if and only if it loses
  its date or leaves a baseline. */
  lemma SettledUnlessSomethingIsLeft(config: Config, world: World, call: Call)
    requires ValidLog(world.log)
    requires Settled(config.comparing, world.stores) && NewnessCorrect(config.comparing, world.stores.accepted)
    ensures Settled(config.comparing, Run(config, world, call).0.stores) <==>
            !LosesDate(config, world, call) && !LeavesBaseline(config, world, call)
  {
    RunKeepsDates(config, world, call, {});
    RunKeepsBaselines(config, world, call, {});
  }

  /** Then a run adds one digest for a new date to all three tables, or restores them. */
  lemma RunAddsOrRestores(config: Config, world: World, call: Call)
    requires ValidLog(world.log) && Settled(config.comparing, world.stores)
    requires !LosesDate(config, world, call) && !LeavesBaseline(config, world, call)
    ensures var (after, outcome) := Run(config, world, call);
      var before := world.stores;
      if outcome.Delivered? then
        && outcome.digest.date == call.date && call.date !in before.reserved
        && after.stores.reserved == before.reserved + {call.date}
        && after.stores.accepted == before.accepted + [outcome.digest]
        && (config.comparing ==> after.stores.baselines == before.baselines + [MembershipOf(outcome.digest)])
      else
        && after.stores.reserved == before.reserved && after.stores.accepted == before.accepted
        && (config.comparing ==> after.stores.baselines == before.baselines)
  {
    RunEnds(config, world, call);
    if OnFreeDate(world, call) && config.comparing {
      LostDatesHaveNoBaseline(world.stores, {}, call.date);
    }
  }

  /** The smallest run that leaves a baseline: the very first digest, of an empty log, with a promotion
  error at sending. */
  lemma FirstDigestCanLeaveBaseline(config: Config, alerts: Synchronization.Alerts, call: Call)
    requires config.comparing && !config.refreshing && call.due && call.fault == Fault(AtSend, true)
    requires call.reservationRelease.Returns?
    ensures var (after, outcome) := Run(config, World(EMPTY_LOG, alerts, EMPTY_STORES), call);
      && outcome == PromotionUnavailable
      && after.stores == Stores({}, [Baseline(call.date, {})], [])
      && !Settled(config.comparing, after.stores)
  {
    var world := World(EMPTY_LOG, alerts, EMPTY_STORES);
    var reserved := WithDate(world, call.date);
    assert reserved.stores == Stores({call.date}, [], []);
    assert Run(config, world, call) == FreshenAndDeliver(config, reserved, call, LatestSnapshots([]));
    assert LatestRows([]) == [] && LatestSnapshots([]) == [];
    FirstDeliveryLeavesBaseline(config, reserved, call);
  }

  lemma FirstDeliveryLeavesBaseline(config: Config, reserved: World, call: Call)
    requires config.comparing && call.fault == Fault(AtSend, true) && call.reservationRelease.Returns?
    requires reserved.stores == Stores({call.date}, [], [])
    ensures var (after, outcome) := Deliver(config, reserved, call, [], []);
      outcome == PromotionUnavailable && after.stores == Stores({}, [Baseline(call.date, {})], [])
  {
    assert DigestProducts([], config.minimum) == [];
    var digest := Generate([], config.minimum, call.date, call.timestamp, call.promoted, None).value;
    assert MembershipOf(digest) == Baseline(call.date, {});
    assert {call.date} - {call.date} == {};
    assert Deliver(config, reserved, call, [], []) == StageAndSend(config, reserved, call, digest, []);
  }

  /** The smallest run that loses a date: reserving commits, closing the database raises, and the retry
  on the same day, with everything working, finds the date reserved and sends nothing. */
  lemma FirstDigestCanBeLost(config: Config, log: Log, alerts: Synchronization.Alerts, call: Call)
    requires call.due && call.fault.Fault? && call.fault.point == AfterReserve
    ensures var (after, outcome) := Run(config, World(log, alerts, EMPTY_STORES), call);
      && outcome == Raised && after.stores == Stores({call.date}, [], [])
      && Run(config, after, call.(fault := NoFault)) == (after, AlreadySent)
      && !Settled(config.comparing, after.stores)
  {
    assert {} + {call.date} == {call.date};
  }

  // ---------- With a calendar that does not run backwards ----------

  ghost predicate Increasing(accepted: seq<Digest>) {
    forall i, j :: 0 <= i < j < |accepted| ==> accepted[i].date < accepted[j].date
  }

  /** A run on no earlier a date than those accepted keeps the acceptances in date order. */
  lemma RunAcceptsInOrder(config: Config, world: World, call: Call, lost: set<Date>)
    requires ValidLog(world.log) && DatesAgree(world.stores, lost) && Increasing(world.stores.accepted)
    requires forall d :: d in world.stores.accepted ==> d.date <= call.date
    ensures var after := Run(config, world, call).0.stores;
      Increasing(after.accepted) && forall d :: d in after.accepted ==> d.date <= call.date
  {
    RunEnds(config, world, call);
    var (after, outcome) := Run(config, world, call);
    if outcome.Delivered? {
      forall d | d in world.stores.accepted ensures d.date < call.date {
        assert d.date in Dates(world.stores.accepted);
      }
    }
  }

  // ---------- What new means ----------

  predicate Lists(digest: Digest, id: ProductId) {
    exists p :: p in digest.products && p.id == id
  }

  /** Of the digests accepted before the i-th, the j-th has the latest date before its own. */
  ghost predicate IsLatestEarlier(accepted: seq<Digest>, i: nat, j: nat)
    requires i < |accepted|
  {
    && j < i && accepted[j].date < accepted[i].date
    && forall k :: 0 <= k < i && accepted[k].date < accepted[i].date ==> accepted[k].date <= accepted[j].date
  }

  /** The new products are those the latest earlier digest did not list; without one there are none. */
  ghost predicate NewSinceLatestEarlier(accepted: seq<Digest>, i: nat)
    requires i < |accepted|
  {
    && (accepted[i].newProducts != [] ==> exists j :: IsLatestEarlier(accepted, i, j))
    && forall j: nat, id :: IsLatestEarlier(accepted, i, j) ==>
         (id in accepted[i].newProducts <==> Lists(accepted[i], id) && !Lists(accepted[j], id))
  }

  /** The j-th of the digests has the latest date before the given one. */
  ghost predicate HasLatestBefore(accepted: seq<Digest>, date: Date, j: nat) {
    && j < |accepted| && accepted[j].date < date
    && forall k :: 0 <= k < |accepted| && accepted[k].date < date ==> accepted[k].date <= accepted[j].date
  }

  lemma MembershipsAt(accepted: seq<Digest>, date: Date) returns (j: nat)
    requires forall i, j :: 0 <= i < j < |accepted| ==> accepted[i].date != accepted[j].date
    ensures match LatestBefore(Memberships(accepted), date)
            case None => forall k :: 0 <= k < |accepted| ==> accepted[k].date >= date
            case Some(b) => HasLatestBefore(accepted, date, j) && b == MembershipOf(accepted[j])
  {
    j := 0;
    var members := Memberships(accepted);
    LatestBeforeCharacterized(members, date);
    match LatestBefore(members, date)
    case None =>
      forall k | 0 <= k < |accepted| ensures accepted[k].date >= date {
        assert members[k] in members;
      }
    case Some(b) =>
      j :| 0 <= j < |members| && members[j] == b;
      forall k | 0 <= k < |accepted| && accepted[k].date < date ensures accepted[k].date <= accepted[j].date {
        assert members[k] in members;
      }
  }

  lemma NewAgainst(digest: Digest, earlier: Digest, id: ProductId)
    requires digest.newProducts == NewProducts(digest.products, Some(MembershipOf(earlier).ids))
    ensures id in digest.newProducts <==> Lists(digest, id) && !Lists(earlier, id)
  {
    NewMeansAbsentFromBaseline(digest.products, Some(MembershipOf(earlier).ids));
  }

  lemma NothingEarlier(accepted: seq<Digest>, i: nat)
    requires i < |accepted| && accepted[i].newProducts == []
    requires forall k :: 0 <= k < i ==> accepted[..i][k].date >= accepted[i].date
    ensures NewSinceLatestEarlier(accepted, i)
  {
    forall j: nat | j < i ensures !IsLatestEarlier(accepted, i, j) {
      assert accepted[..i][j] == accepted[j];
    }
  }

  lemma NewAfter(accepted: seq<Digest>, i: nat, j: nat)
    requires j < i < |accepted|
    requires forall m, n :: 0 <= m < n < |accepted| ==> accepted[m].date != accepted[n].date
    requires HasLatestBefore(accepted[..i], accepted[i].date, j)
    requires accepted[i].newProducts == NewProducts(accepted[i].products, Some(MembershipOf(accepted[j]).ids))
    ensures NewSinceLatestEarlier(accepted, i)
  {
    LatestEarlierIs(accepted, i, j);
    forall id ensures id in accepted[i].newProducts <==> Lists(accepted[i], id) && !Lists(accepted[j], id) {
      NewAgainst(accepted[i], accepted[j], id);
    }
  }

  lemma NewAt(accepted: seq<Digest>, i: nat)
    requires forall m, n :: 0 <= m < n < |accepted| ==> accepted[m].date != accepted[n].date
    requires NewnessCorrect(true, accepted) && i < |accepted|
    ensures NewSinceLatestEarlier(accepted, i)
  {
    var earlier := accepted[..i];
    var j := MembershipsAt(earlier, accepted[i].date);
    if LatestBefore(Memberships(earlier), accepted[i].date).None? {
      NothingEarlier(accepted, i);
    } else {
      NewAfter(accepted, i, j);
    }
  }

  lemma LatestEarlierIs(accepted: seq<Digest>, i: nat, j: nat)
    requires j < i < |accepted| && HasLatestBefore(accepted[..i], accepted[i].date, j)
    requires forall m, n :: 0 <= m < n < |accepted| ==> accepted[m].date != accepted[n].date
    ensures IsLatestEarlier(accepted, i, j)
    ensures forall k: nat :: IsLatestEarlier(accepted, i, k) ==> k == j
  {
    forall k | 0 <= k < i ensures accepted[..i][k] == accepted[k] {
    }
  }

  /** The first digest marks nothing; a later one marks what its predecessor did not list. */
  ghost predicate NewSincePrevious(accepted: seq<Digest>, i: nat)
    requires i < |accepted|
  {
    if i == 0 then accepted[0].newProducts == []
    else forall id :: id in accepted[i].newProducts <==> Lists(accepted[i], id) && !Lists(accepted[i - 1], id)
  }

  lemma PreviousIsLatestEarlier(accepted: seq<Digest>, i: nat)
    requires Increasing(accepted) && i < |accepted| && NewSinceLatestEarlier(accepted, i)
    ensures NewSincePrevious(accepted, i)
  {
    if i > 0 {
      forall k | 0 <= k < i ensures accepted[k].date <= accepted[i - 1].date {
        assert k == i - 1 || accepted[k].date < accepted[i - 1].date;
      }
      assert IsLatestEarlier(accepted, i, i - 1);
    }
  }

  // ---------- The workflow ----------

  class DailyDigestReservationStore {
    var reserved: set<Date>

    constructor ()
      ensures reserved == {}
    {
      reserved := {};
    }

    /** INSERT OR IGNORE in one transaction: true exactly when the date is new. None stands for an
    exception, which may come after the commit. */
    method Reserve(date: Date, ending: Ending) returns (isNew: Option<bool>)
      modifies this
      ensures isNew == if ending.Returns? then Some(date !in old(reserved)) else None
      ensures reserved == if ending.Commits() then old(reserved) + {date} else old(reserved)
    {
      if ending.RaisesBeforeCommit? {
        return None;
      }
      var absent := date !in reserved;
      reserved := reserved + {date};
      isNew := if ending.Returns? then Some(absent) else None;
    }

    method Release(date: Date, ending: Ending) returns (raised: bool)
      modifies this
      ensures raised == !ending.Returns?
      ensures reserved == if ending.Commits() then old(reserved) - {date} else old(reserved)
    {
      if ending.Commits() {
        reserved := reserved - {date};
      }
      raised := !ending.Returns?;
    }
  }

  class DailyDigestBaselineStore {
    var baselines: seq<Baseline>

    constructor ()
      ensures baselines == []
    {
      baselines := [];
    }

    /** One upsert in one transaction. */
    method Stage(staged: Baseline, ending: Ending) returns (raised: bool)
      modifies this
      ensures raised == !ending.Returns?
      ensures baselines == if ending.Commits() then Staged(old(baselines), staged) else old(baselines)
      ensures ending.Commits() ==>
          forall b :: b in baselines <==> b == staged || (b in old(baselines) && b.date != staged.date)
    {
      if ending.Commits() {
        StagedMembers(baselines, staged);
        baselines := Staged(baselines, staged);
      }
      raised := !ending.Returns?;
    }

    method Release(date: Date, ending: Ending) returns (raised: bool)
      modifies this
      ensures raised == !ending.Returns?
      ensures baselines == if ending.Commits() then Released(old(baselines), date) else old(baselines)
      ensures ending.Commits() ==> forall b :: b in baselines <==> b in old(baselines) && b.date != date
    {
      if ending.Commits() {
        baselines := Released(baselines, date);
      }
      raised := !ending.Returns?;
    }
  }

  class DailyDigestChannel {
    var accepted: seq<Digest>

    constructor ()
      ensures accepted == []
    {
      accepted := [];
    }

    method Send(digest: Digest, fails: bool)
      modifies this
      ensures accepted == if fails then old(accepted) else old(accepted) + [digest]
    {
      if !fails {
        accepted := accepted + [digest];
      }
    }
  }

  class DailyDigestWorkflow {
    const config: Config
    const refresher: DigestRefresh.DigestRefresher
    const reservationStore: DailyDigestReservationStore
    const baselineStore: DailyDigestBaselineStore
    const channel: DailyDigestChannel

    constructor (
      config: Config, refresher: DigestRefresh.DigestRefresher, reservationStore: DailyDigestReservationStore,
      baselineStore: DailyDigestBaselineStore, channel: DailyDigestChannel)
      ensures this.config == config && this.refresher == refresher && this.reservationStore == reservationStore
      ensures this.baselineStore == baselineStore && this.channel == channel
    {
      this.config, this.refresher, this.reservationStore := config, refresher, reservationStore;
      this.baselineStore, this.channel := baselineStore, channel;
    }

    function Current(): World
      reads reservationStore, baselineStore, channel
      reads refresher.workflow, refresher.workflow.store, refresher.workflow.reservations, refresher.workflow.channel
    {
      World(
        refresher.workflow.store.log, refresher.workflow.CurrentAlerts(),
        Stores(reservationStore.reserved, baselineStore.baselines, channel.accepted))
    }

    method Compensate(call: Call, isPromotionError: bool) returns (outcome: Outcome)
      modifies reservationStore, baselineStore
      ensures (Current(), outcome) == Compensated(config, old(Current()), call, isPromotionError)
      ensures reservationStore.reserved
           == if call.reservationRelease.RaisesBeforeCommit?
                || (!isPromotionError && config.comparing && !call.baselineRelease.Returns?)
              then old(reservationStore.reserved) else old(reservationStore.reserved) - {call.date}
      ensures isPromotionError || !config.comparing || call.baselineRelease.RaisesBeforeCommit? ==>
          baselineStore.baselines == old(baselineStore.baselines)
      ensures !isPromotionError && config.comparing && !call.baselineRelease.RaisesBeforeCommit? ==>
          forall b :: b in baselineStore.baselines <==> b in old(baselineStore.baselines) && b.date != call.date
    {
      if isPromotionError {
        var raised := reservationStore.Release(call.date, call.reservationRelease);
        return if raised then Raised else PromotionUnavailable;
      }
      if config.comparing {
        var raised := baselineStore.Release(call.date, call.baselineRelease);
        if raised {
          return Raised;
        }
      }
      var _ := reservationStore.Release(call.date, call.reservationRelease);
      return Raised;
    }

    method StageAndSendDigest(call: Call, digest: Digest, errors: seq<Synchronization.ProviderError>)
      returns (outcome: Outcome)
      modifies reservationStore, baselineStore, channel
      ensures (Current(), outcome) == StageAndSend(config, old(Current()), call, digest, errors)
    {
      if config.comparing {
        var ending := if FaultsAt(call, AfterStage) then RaisesAfterCommit else Returns;
        var raised := baselineStore.Stage(MembershipOf(digest), ending);
        if raised {
          outcome := Compensate(call, call.fault.isPromotionError);
          return;
        }
      }
      channel.Send(digest, FaultsAt(call, AtSend));
      if FaultsAt(call, AtSend) {
        outcome := Compensate(call, call.fault.isPromotionError);
        return;
      }
      return Delivered(digest, errors);
    }

    method DeliverDigest(call: Call, snapshots: seq<Snapshot>, errors: seq<Synchronization.ProviderError>)
      returns (outcome: Outcome)
      modifies reservationStore, baselineStore, channel
      ensures (Current(), outcome) == Deliver(config, old(Current()), call, snapshots, errors)
    {
      var known: Option<set<ProductId>> := None;
      if config.comparing {
        if FaultsAt(call, AtBaseline) {
          outcome := Compensate(call, call.fault.isPromotionError);
          return;
        }
        known := PreviousIds(baselineStore.baselines, call.date);
      }
      if FaultsAt(call, AtGenerate) {
        outcome := Compensate(call, call.fault.isPromotionError);
        return;
      }
      var generated := Generate(snapshots, config.minimum, call.date, call.timestamp, call.promoted, known);
      if generated.Err? {
        outcome := Compensate(call, false);
        return;
      }
      if config.comparing && FaultsAt(call, AtStage) {
        outcome := Compensate(call, call.fault.isPromotionError);
        return;
      }
      outcome := StageAndSendDigest(call, generated.value, errors);
    }

    /** One call of the workflow, with every exception handler. */
    method RunOnce(call: Call) returns (outcome: Outcome)
      modifies reservationStore, baselineStore, channel
      modifies refresher.workflow, refresher.workflow.store, refresher.workflow.reservations, refresher.workflow.channel
      ensures (Current(), outcome) == Run(config, old(Current()), call)
      ensures old(ValidLog(refresher.workflow.store.log)) && outcome.Delivered? ==>
          Shows(config, call, refresher.workflow.store.log, outcome.digest)
    {
      ghost var before := Current();
      outcome := RunFrom(call);
      if ValidLog(before.log) {
        DeliveredDigestShowsTheLog(config, before, call);
      }
    }

    method RunFrom(call: Call) returns (outcome: Outcome)
      modifies reservationStore, baselineStore, channel
      modifies refresher.workflow, refresher.workflow.store, refresher.workflow.reservations, refresher.workflow.channel
      ensures (Current(), outcome) == Run(config, old(Current()), call)
    {
      if !call.due {
        return NotDue;
      }
      var isNew := reservationStore.Reserve(call.date, ReserveEnding(call));
      if isNew.None? {
        return Raised;
      }
      if !isNew.value {
        assert reservationStore.reserved == old(reservationStore.reserved);
        return AlreadySent;
      }
      if FaultsAt(call, AtPromotion) || FaultsAt(call, AtFirstRead) {
        outcome := Compensate(call, call.fault.isPromotionError);
        return;
      }
      var snapshots := LatestSnapshots(refresher.workflow.store.log.rows);
      var errors := [];
      if config.refreshing {
        var stale := SelectStale(snapshots, config.minimum, call.timestamp, REFRESH_LIMIT);
        if stale.Err? {
          outcome := Compensate(call, false);
          return;
        }
        var setup := config.setup.(timestamp := call.timestamp);
        var raised;
        raised, errors := refresher.RefreshProducts(setup, call.provider, Map(stale.value, ProductOf()));
        if raised {
          outcome := Compensate(call, false);
          return;
        }
        if FaultsAt(call, AtSecondRead) {
          outcome := Compensate(call, call.fault.isPromotionError);
          return;
        }
        snapshots := LatestSnapshots(refresher.workflow.store.log.rows);
      }
      outcome := DeliverDigest(call, snapshots, errors);
    }
  }
}
