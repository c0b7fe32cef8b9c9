/** The system as it runs: cycles, digests, queries and retentions in any order over one database, and
what every such run keeps. */
module RunningSystem {
  import opened Domain
  import opened ObservationLog
  import opened Retention
  import opened PriceRules
  import opened Synchronization
  import AmountText
  import DailyDigest
  import DigestRefresh
  import DigestWorkflow

  /** Everything that touches the observation log. `Prune` is an applied retention. */
  datatype Event =
    | SynchronizeCycle(setup: Setup, fetches: seq<Fetch>)
    | DigestCall(config: DigestWorkflow.Config, call: DigestWorkflow.Call)
    | LoadProduct(id: ProductId)
    | ListLatest
    | Prune(cutoff: Timestamp)

  datatype Observation =
    | CycleDone(raised: bool, result: SynchronizationResult)
    | DigestDone(outcome: DigestWorkflow.Outcome)
    | Loaded(snapshot: Option<Row>)
    | Listed(snapshots: seq<Snapshot>)

  function Handle(world: DigestWorkflow.World, event: Event): (DigestWorkflow.World, seq<Observation>) {
    match event
    case SynchronizeCycle(setup, fetches) =>
      var step := Run(setup, world.log, world.alerts, fetches);
      (world.(log := step.progress.log, alerts := step.progress.alerts), [CycleDone(step.raised, step.progress.result)])
    case DigestCall(config, call) =>
      var (after, outcome) := DigestWorkflow.Run(config, world, call);
      (after, [DigestDone(outcome)])
    case LoadProduct(id) => (world, [Loaded(LatestOf(world.log.rows, id))])
    case ListLatest => (world, [Listed(LatestSnapshots(world.log.rows))])
    case Prune(cutoff) => (world.(log := world.log.(rows := Retain(world.log.rows, cutoff))), [])
  }

  function Observe(world: DigestWorkflow.World, events: seq<Event>): (DigestWorkflow.World, seq<Observation>)
    decreases |events|
  {
    if events == [] then (world, [])
    else
      var (next, seen) := Handle(world, events[0]);
      var (last, rest) := Observe(next, events[1..]);
      (last, seen + rest)
  }

  lemma ObserveOne(world: DigestWorkflow.World, events: seq<Event>)
    requires events != []
    ensures var next := Handle(world, events[0]);
      && Observe(world, events).0 == Observe(next.0, events[1..]).0
      && Observe(world, events).1 == next.1 + Observe(next.0, events[1..]).1
  {
  }

  /** A database on which nothing was announced and no digest delivered yet. */
  function Fresh(log: Log): DigestWorkflow.World {
    DigestWorkflow.World(log, NO_ALERTS, DigestWorkflow.EMPTY_STORES)
  }

  /** What the other events do and answer: a retention removes the old rows that are neither latest nor a
  first maximum, and the queries change nothing. */
  lemma OtherEvents(world: DigestWorkflow.World, event: Event)
    requires ValidLog(world.log) && !event.SynchronizeCycle? && !event.DigestCall?
    ensures var (after, seen) := Handle(world, event);
      && after.alerts == world.alerts && after.stores == world.stores && after.log.next == world.log.next
      && (match event
          case Prune(cutoff) =>
            seen == [] && forall r :: r in after.log.rows <==>
              r in world.log.rows
              && (r.snapshot.timestamp >= cutoff || IsLatest(world.log.rows, r) || IsFirstMaximum(world.log.rows, r))
          case LoadProduct(id) =>
            after == world && |seen| == 1 && seen[0].Loaded?
            && (forall r: Row :: seen[0].snapshot == Some(r) <==> r.Id() == id && IsLatest(world.log.rows, r))
          case ListLatest =>
            after == world && |seen| == 1 && seen[0].Listed?
            && (forall s :: s in seen[0].snapshots <==>
                  LatestOf(world.log.rows, s.product.id).Some?
                  && LatestOf(world.log.rows, s.product.id).value.snapshot == s)
          case _ => true)
  {
    match event
    case Prune(cutoff) => RetainedRows(world.log.rows, cutoff);
    case LoadProduct(id) => LatestCharacterized(world.log.rows, id);
    case ListLatest => LatestSnapshotsListsEachProductOnce(world.log.rows);
    case _ =>
  }

  // ---------- What runs lose and leave ----------

  /** The alerts reserved in vain during a run. */
  function StrandedDuring(world: DigestWorkflow.World, events: seq<Event>): set<Identity>
    decreases |events|
  {
    if events == [] then {}
    else
      (match events[0]
       case SynchronizeCycle(setup, fetches) => StrandedByCycle(setup, world.log, world.alerts, fetches)
       case DigestCall(_, _) => {}
       case LoadProduct(_) => {}
       case ListLatest => {}
       case Prune(_) => {})
      + StrandedDuring(Handle(world, events[0]).0, events[1..])
  }

  /** The dates reserved in vain during a run. */
  function LostDuring(world: DigestWorkflow.World, events: seq<Event>): set<Date>
    decreases |events|
  {
    if events == [] then {}
    else LostIn(world, events[0]) + LostDuring(Handle(world, events[0]).0, events[1..])
  }

  function LostIn(world: DigestWorkflow.World, event: Event): set<Date> {
    if event.DigestCall? then DigestWorkflow.LostBy(event.config, world, event.call) else {}
  }

  predicate Leaves(world: DigestWorkflow.World, event: Event) {
    event.DigestCall? && DigestWorkflow.LeavesBaseline(event.config, world, event.call)
  }

  /** No digest of the run leaves a staged baseline behind. */
  predicate LeavesNothing(world: DigestWorkflow.World, events: seq<Event>)
    decreases |events|
  {
    events != [] ==> !Leaves(world, events[0]) && LeavesNothing(Handle(world, events[0]).0, events[1..])
  }

  ghost predicate CyclesReserve(events: seq<Event>) {
    forall e: Event :: e in events && e.SynchronizeCycle? ==> e.setup.reserving
  }

  // ---------- The rest of the database during a digest ----------

  lemma DeliveryKeepsRest(
    config: DigestWorkflow.Config, world: DigestWorkflow.World, call: DigestWorkflow.Call,
    snapshots: seq<Snapshot>, errors: seq<ProviderError>)
    ensures var after := DigestWorkflow.Deliver(config, world, call, snapshots, errors).0;
      after.log == world.log && after.alerts == world.alerts
  {
  }

  lemma RecheckKeepsRest(
    config: DigestWorkflow.Config, world: DigestWorkflow.World, call: DigestWorkflow.Call, stale: seq<Snapshot>)
    requires ValidLog(world.log)
    ensures var after := DigestWorkflow.RecheckAndDeliver(config, world, call, stale).0;
      ValidLog(after.log) && after.alerts == world.alerts
  {
    var setup := DigestRefresh.Recheck(config.setup.(timestamp := call.timestamp));
    var before := DigestRefresh.Refreshed(world.log, world.alerts, [], false);
    var chunks := DigestRefresh.Chunks(DigestRefresh.FirstByUrl(DigestWorkflow.ProductsOf(stale)));
    DigestRefresh.RefreshKeepsLog(setup, call.provider, before, chunks, 0);
    DigestRefresh.RefreshIsSilent(setup, call.provider, before, chunks, 0);
    var r := DigestWorkflow.RecheckOf(config, world, call, stale);
    DeliveryKeepsRest(
      config, world.(log := r.log, alerts := r.alerts), call, LatestSnapshots(r.log.rows), r.errors);
  }

  lemma FresheningKeepsRest(
    config: DigestWorkflow.Config, world: DigestWorkflow.World, call: DigestWorkflow.Call, snapshots: seq<Snapshot>)
    requires ValidLog(world.log)
    ensures var after := DigestWorkflow.FreshenAndDeliver(config, world, call, snapshots).0;
      ValidLog(after.log) && after.alerts == world.alerts
  {
    if !config.refreshing {
      DeliveryKeepsRest(config, world, call, snapshots, []);
    } else {
      var stale := DailyDigest.SelectStale(snapshots, config.minimum, call.timestamp, DailyDigest.REFRESH_LIMIT);
      if stale.Ok? {
        RecheckKeepsRest(config, world, call, stale.value);
      }
    }
  }

  /** A digest saves observations at most, and announces nothing by itself. */
  lemma DigestKeepsRest(config: DigestWorkflow.Config, world: DigestWorkflow.World, call: DigestWorkflow.Call)
    requires ValidLog(world.log)
    ensures var after := DigestWorkflow.Run(config, world, call).0;
      ValidLog(after.log) && after.alerts == world.alerts
  {
    FresheningKeepsRest(config, DigestWorkflow.WithDate(world, call.date), call, LatestSnapshots(world.log.rows));
  }

  lemma EventKeepsLog(world: DigestWorkflow.World, event: Event)
    requires ValidLog(world.log)
    ensures ValidLog(Handle(world, event).0.log)
  {
    match event
    case SynchronizeCycle(setup, fetches) => FetchesKeepLog(setup, Progress(world.log, world.alerts, NOTHING_DONE), fetches);
    case DigestCall(config, call) => DigestKeepsRest(config, world, call);
    case LoadProduct(_) =>
    case ListLatest =>
    case Prune(cutoff) => RetainKeepsView(world.log.rows, cutoff);
  }

  // ---------- The alerts of a run ----------

  /** Over any run, whatever raises: the table holds the delivered identities and those the run
  stranded; a stranded one is not delivered, then or later, and no other is delivered twice. */
  lemma {:induction false} RunsAccountForAlerts(world: DigestWorkflow.World, events: seq<Event>, stranded: set<Identity>)
    requires ValidLog(world.log) && TableAgrees(world.alerts, stranded) && CyclesReserve(events)
    ensures TableAgrees(Observe(world, events).0.alerts, stranded + StrandedDuring(world, events))
    decreases |events|
  {
    if events != [] {
      var here := {};
      match events[0] {
        case SynchronizeCycle(setup, fetches) =>
          assert events[0] in events;
          FetchesKeepReservations(setup, Progress(world.log, world.alerts, NOTHING_DONE), stranded, fetches);
          here := StrandedByCycle(setup, world.log, world.alerts, fetches);
        case DigestCall(config, call) => DigestKeepsRest(config, world, call);
        case LoadProduct(_) =>
        case ListLatest =>
        case Prune(_) =>
      }
      EventKeepsLog(world, events[0]);
      ObserveOne(world, events);
      RunsAccountForAlerts(Handle(world, events[0]).0, events[1..], stranded + here);
      var rest := StrandedDuring(Handle(world, events[0]).0, events[1..]);
      assert stranded + (here + rest) == stranded + here + rest;
    }
  }

  /** Over any run each identity is delivered at most once and every delivered one is reserved; exactly
  the delivered ones are reserved if and only if the run strands none. */
  lemma RunsDeliverEachIdentityOnce(log: Log, events: seq<Event>)
    requires ValidLog(log) && CyclesReserve(events)
    ensures var alerts := Observe(Fresh(log), events).0.alerts;
      && EachIdentityOnce(alerts.delivered)
      && alerts.reserved == DeliveredIdentities(alerts.delivered) + StrandedDuring(Fresh(log), events)
      && (alerts.reserved == DeliveredIdentities(alerts.delivered) <==> StrandedDuring(Fresh(log), events) == {})
  {
    RunsAccountForAlerts(Fresh(log), events, {});
    var stranded := StrandedDuring(Fresh(log), events);
    assert {} + stranded == stranded;
    if identity :| identity in stranded {
      assert identity !in DeliveredIdentities(Observe(Fresh(log), events).0.alerts.delivered);
    }
  }

  /** A lost alert stays lost: whatever happens after it was stranded, it is never delivered. */
  lemma StrandedAlertIsNeverDelivered(
    world: DigestWorkflow.World, events: seq<Event>, stranded: set<Identity>, identity: Identity, d: Delivery)
    requires ValidLog(world.log) && TableAgrees(world.alerts, stranded) && CyclesReserve(events)
    requires identity in stranded && d in Observe(world, events).0.alerts.delivered
    ensures d.identity != Some(identity)
  {
    RunsAccountForAlerts(world, events, stranded);
    var after := Observe(world, events).0.alerts;
    assert d.identity.Some? ==> d.identity.value in DeliveredIdentities(after.delivered);
  }

  /** One cycle over one product and one rule. */
  function SmallCycle(setup: Setup, product: Product): Event {
    SynchronizeCycle(setup, [Fetched([product], [])])
  }

  /** The rule matches the product as it is then observed, and nothing but the first reservation fails. */
  predicate OnlyClosingFails(setup: Setup, log: Log, product: Product, rule: Rule) {
    && setup.reserving && !setup.enriching && setup.rules == [rule] && setup.stores(0) == Saves(Returns)
    && setup.script(0).reserve.RaisesAfterCommit? && setup.script(1) == Attempt(Returns, Accepts, Returns)
    && var r := EvaluateRule(setup.rnd, rule, PreviousProduct(log, product.id), product, setup.timestamp);
      r.Ok? && AlertIdentity(rule, product, r.value).Some?
  }

  lemma SmallCycleIs(setup: Setup, log: Log, alerts: Alerts, product: Product)
    ensures var received := NOTHING_DONE.(fetched := [Fetched([product], [])]);
      var step := RunProduct(setup, Progress(log, alerts, received), product);
      Run(setup, log, alerts, [Fetched([product], [])]) == step
  {
    var fetches := [Fetched([product], [])];
    var received := NOTHING_DONE.(fetched := [Fetched([product], [])]);
    assert fetches[1..] == [] && [product][1..] == [];
    assert NOTHING_DONE.errors + [] == [] && NOTHING_DONE.fetched + [fetches[0]] == received.fetched;
    var step := RunProduct(setup, Progress(log, alerts, received), product);
    assert RunProducts(setup, Progress(log, alerts, received), [product]) == step by {
      assert RunProducts(setup, step.progress, []) == Step(step.progress, false);
    }
    assert RunFetches(setup, step.progress, []) == Step(step.progress, false);
  }

  lemma OneRule(setup: Setup, p: Progress, previous: Option<Product>, product: Product, rule: Rule, evaluation: Evaluation)
    requires EvaluateRule(setup.rnd, rule, previous, product, setup.timestamp) == Ok(evaluation)
    ensures var (alerts, notified) := Notify(setup, p.alerts, rule, product, evaluation);
      var evaluated := p.result.(evaluations := p.result.evaluations + [evaluation]);
      RunRules(setup, p, previous, product, [rule])
      == Step(Progress(p.log, alerts, Count(evaluated, notified)), notified.Raised?)
  {
    var (alerts, notified) := Notify(setup, p.alerts, rule, product, evaluation);
    var next := Progress(p.log, alerts, Count(p.result.(evaluations := p.result.evaluations + [evaluation]), notified));
    assert [rule][1..] == [];
    assert RunRules(setup, next, previous, product, []) == Step(next, false);
  }

  /** The first cycle reserves the alert, fails to close the database and raises. */
  lemma FirstCycleStrands(setup: Setup, log: Log, product: Product, rule: Rule)
    requires OnlyClosingFails(setup, log, product, rule)
    ensures var evaluation := EvaluateRule(setup.rnd, rule, PreviousProduct(log, product.id), product, setup.timestamp).value;
      var step := Run(setup, log, NO_ALERTS, [Fetched([product], [])]);
      && step.raised && step.progress.log == log
      && step.progress.alerts == Alerts({AlertIdentity(rule, product, evaluation).value}, [], 1)
  {
    var previous := PreviousProduct(log, product.id);
    var evaluation := EvaluateRule(setup.rnd, rule, previous, product, setup.timestamp).value;
    var received := NOTHING_DONE.(fetched := [Fetched([product], [])]);
    SmallCycleIs(setup, log, NO_ALERTS, product);
    OneRule(setup, Progress(log, NO_ALERTS, received), previous, product, rule, evaluation);
  }

  /** The second one finds it reserved, sends nothing and completes. */
  lemma SecondCycleSuppresses(setup: Setup, log: Log, product: Product, rule: Rule)
    requires OnlyClosingFails(setup, log, product, rule)
    ensures var evaluation := EvaluateRule(setup.rnd, rule, PreviousProduct(log, product.id), product, setup.timestamp).value;
      var alerts := Alerts({AlertIdentity(rule, product, evaluation).value}, [], 1);
      var step := Run(setup, log, alerts, [Fetched([product], [])]);
      && !step.raised && step.progress.result.suppressed == 1 && step.progress.result.notifications == []
      && step.progress.alerts.delivered == []
  {
    var previous := PreviousProduct(log, product.id);
    var evaluation := EvaluateRule(setup.rnd, rule, previous, product, setup.timestamp).value;
    var alerts := Alerts({AlertIdentity(rule, product, evaluation).value}, [], 1);
    var p := Progress(log, alerts, NOTHING_DONE.(fetched := [Fetched([product], [])]));
    SmallCycleIs(setup, log, alerts, product);
    OneRule(setup, p, previous, product, rule, evaluation);
    assert Notify(setup, alerts, rule, product, evaluation).1 == Suppressed;
    assert FaultNow(setup, p) == Saves(Returns);
  }

  /** How a price drop is lost: the same cycle runs twice on any log, the first time the reservation is
  committed and closing the database raises, the second time everything works; nothing is ever sent. */
  lemma ClosingSilencesAnAlert(setup: Setup, log: Log, product: Product, rule: Rule)
    requires OnlyClosingFails(setup, log, product, rule)
    ensures var cycle := SmallCycle(setup, product);
      var (world, seen) := Observe(Fresh(log), [cycle, cycle]);
      && |seen| == 2 && seen[0].CycleDone? && seen[0].raised
      && seen[1].CycleDone? && !seen[1].raised && seen[1].result.suppressed == 1
      && world.alerts.delivered == []
  {
    var cycle := SmallCycle(setup, product);
    FirstCycleStrands(setup, log, product, rule);
    SecondCycleSuppresses(setup, log, product, rule);
    var (first, done) := Handle(Fresh(log), cycle);
    var (second, again) := Handle(first, cycle);
    ObserveOne(Fresh(log), [cycle, cycle]);
    assert [cycle, cycle][1..] == [cycle];
    ObserveOne(first, [cycle]);
    assert [cycle][1..] == [];
    assert Observe(second, []) == (second, []);
    assert Observe(Fresh(log), [cycle, cycle]).1 == done + (again + []);
  }

  /** No two price drops of one product at one price are ever announced. */
  lemma NoPriceAnnouncedTwice(log: Log, events: seq<Event>, i: nat, j: nat)
    requires ValidLog(log) && CyclesReserve(events)
    requires i < j < |Observe(Fresh(log), events).0.alerts.delivered|
    ensures var delivered := Observe(Fresh(log), events).0.alerts.delivered;
      var p, q := delivered[i].notification.product, delivered[j].notification.product;
      delivered[i].identity.Some? && delivered[j].identity.Some?
      && p.id == q.id && p.currentPrice.currency == q.currentPrice.currency ==>
        Value(AmountText.Rounded(p.currentPrice.amount)) != Value(AmountText.Rounded(q.currentPrice.amount))
  {
    RunsAccountForAlerts(Fresh(log), events, {});
    ReservedMeansNoPriceTwice(Observe(Fresh(log), events).0.alerts, {} + StrandedDuring(Fresh(log), events), i, j);
  }

  // ---------- The dates of a run ----------

  lemma EventKeepsDates(world: DigestWorkflow.World, event: Event, lost: set<Date>)
    requires ValidLog(world.log) && DigestWorkflow.DatesAgree(world.stores, lost)
    ensures DigestWorkflow.DatesAgree(Handle(world, event).0.stores, lost + LostIn(world, event))
  {
    if event.DigestCall? {
      DigestWorkflow.RunKeepsDates(event.config, world, event.call, lost);
    } else {
      assert lost + LostIn(world, event) == lost;
    }
  }

  /** Over any run, whatever raises and even if baselines are left: the reserved dates are the accepted
  and the lost ones; a lost one is not accepted, then or later, and no other is accepted twice. */
  lemma {:induction false} RunsAccountForDates(world: DigestWorkflow.World, events: seq<Event>, lost: set<Date>)
    requires ValidLog(world.log) && DigestWorkflow.DatesAgree(world.stores, lost)
    ensures DigestWorkflow.DatesAgree(Observe(world, events).0.stores, lost + LostDuring(world, events))
    decreases |events|
  {
    if events != [] {
      var here := LostIn(world, events[0]);
      EventKeepsDates(world, events[0], lost);
      EventKeepsLog(world, events[0]);
      ObserveOne(world, events);
      RunsAccountForDates(Handle(world, events[0]).0, events[1..], lost + here);
      var rest := LostDuring(Handle(world, events[0]).0, events[1..]);
      assert lost + (here + rest) == lost + here + rest;
    }
  }

  /** Over any run each date is accepted at most once and every accepted one is reserved; exactly the
  accepted ones are reserved if and only if the run loses none. */
  lemma EveryDateOnce(log: Log, events: seq<Event>)
    requires ValidLog(log)
    ensures var stores := Observe(Fresh(log), events).0.stores;
      && (forall i, j :: 0 <= i < j < |stores.accepted| ==> stores.accepted[i].date != stores.accepted[j].date)
      && stores.reserved == DigestWorkflow.Dates(stores.accepted) + LostDuring(Fresh(log), events)
      && (stores.reserved == DigestWorkflow.Dates(stores.accepted) <==> LostDuring(Fresh(log), events) == {})
  {
    RunsAccountForDates(Fresh(log), events, {});
    var lost := LostDuring(Fresh(log), events);
    assert {} + lost == lost;
    if date :| date in lost {
      assert date !in DigestWorkflow.Dates(Observe(Fresh(log), events).0.stores.accepted);
    }
  }

  // ---------- The baselines of a run ----------

  /** The log is well formed, no date is accepted twice, the baselines are those of the accepted
  digests, and every digest's new products are right. */
  ghost predicate Sound(comparing: bool, world: DigestWorkflow.World, lost: set<Date>) {
    && ValidLog(world.log)
    && DigestWorkflow.DatesAgree(world.stores, lost)
    && DigestWorkflow.BaselinesAgree(comparing, world.stores)
    && DigestWorkflow.NewnessCorrect(comparing, world.stores.accepted)
  }

  /** All digests use the baselines or none does. */
  ghost predicate Configured(comparing: bool, events: seq<Event>) {
    forall e: Event :: e in events && e.DigestCall? ==> e.config.comparing == comparing
  }

  /** The baselines agree with the accepted digests after every event. */
  ghost predicate BaselinesAlwaysAgree(comparing: bool, world: DigestWorkflow.World, events: seq<Event>)
    decreases |events|
  {
    && DigestWorkflow.BaselinesAgree(comparing, world.stores)
    && (events != [] ==> BaselinesAlwaysAgree(comparing, Handle(world, events[0]).0, events[1..]))
  }

  lemma EventKeepsSound(comparing: bool, world: DigestWorkflow.World, event: Event, lost: set<Date>)
    requires Sound(comparing, world, lost) && (event.DigestCall? ==> event.config.comparing == comparing)
    ensures Leaves(world, event) ==> !DigestWorkflow.BaselinesAgree(comparing, Handle(world, event).0.stores)
    ensures !Leaves(world, event) ==> Sound(comparing, Handle(world, event).0, lost + LostIn(world, event))
  {
    EventKeepsLog(world, event);
    EventKeepsDates(world, event, lost);
    if event.DigestCall? {
      DigestWorkflow.RunKeepsBaselines(event.config, world, event.call, lost);
    }
  }

  /** Over any run of cycles, digests, queries and retentions, whatever raises: the baselines agree with
  the accepted digests throughout if and only if no digest call leaves a baseline behind; and then
  every digest's new products are right, also if dates were lost. */
  lemma {:induction false} RunsStaySound(
    comparing: bool, world: DigestWorkflow.World, events: seq<Event>, lost: set<Date>)
    requires Sound(comparing, world, lost) && Configured(comparing, events)
    ensures BaselinesAlwaysAgree(comparing, world, events) <==> LeavesNothing(world, events)
    ensures LeavesNothing(world, events) ==> Sound(comparing, Observe(world, events).0, lost + LostDuring(world, events))
    decreases |events|
  {
    if events != [] {
      assert events[0] in events;
      EventKeepsSound(comparing, world, events[0], lost);
      ObserveOne(world, events);
      if !Leaves(world, events[0]) {
        RunsStaySound(comparing, Handle(world, events[0]).0, events[1..], lost + LostIn(world, events[0]));
        var rest := LostDuring(Handle(world, events[0]).0, events[1..]);
        assert lost + (LostIn(world, events[0]) + rest) == lost + LostIn(world, events[0]) + rest;
      }
    }
  }

  /** Nothing is left behind if no exception comes once a baseline is staged, or only exceptions other
  than promotion errors, as from the digest channel, and releasing the baseline commits. */
  lemma {:induction false} ChannelsWithoutPromotionErrors(world: DigestWorkflow.World, events: seq<Event>)
    requires forall e: Event :: e in events && e.DigestCall? ==> !DigestWorkflow.BaselineStays(e.config, e.call)
    ensures LeavesNothing(world, events)
    decreases |events|
  {
    if events != [] {
      ChannelsWithoutPromotionErrors(Handle(world, events[0]).0, events[1..]);
    }
  }

  /** With baselines, exactly the accepted digests have one and new means not listed by the latest
  earlier digest; without, nothing is new. */
  ghost predicate DigestsHold(comparing: bool, stores: DigestWorkflow.Stores) {
    && (comparing ==>
          && (forall b :: b in stores.baselines <==> exists d :: d in stores.accepted && DigestWorkflow.MembershipOf(d) == b)
          && (forall i: nat :: i < |stores.accepted| ==> DigestWorkflow.NewSinceLatestEarlier(stores.accepted, i)))
    && (!comparing ==> forall d :: d in stores.accepted ==> d.newProducts == [])
  }

  lemma SoundDigestsHold(comparing: bool, world: DigestWorkflow.World, lost: set<Date>)
    requires Sound(comparing, world, lost)
    ensures DigestsHold(comparing, world.stores)
  {
    var accepted, baselines := world.stores.accepted, world.stores.baselines;
    if comparing {
      forall i: nat | i < |accepted| ensures DigestWorkflow.NewSinceLatestEarlier(accepted, i) {
        DigestWorkflow.NewAt(accepted, i);
      }
      forall b ensures b in baselines <==> exists d :: d in accepted && DigestWorkflow.MembershipOf(d) == b {
        if b in baselines {
          var i :| 0 <= i < |accepted| && baselines[i] == b;
          assert accepted[i] in accepted && DigestWorkflow.MembershipOf(accepted[i]) == b;
        }
        if d :| d in accepted && DigestWorkflow.MembershipOf(d) == b {
          var i :| 0 <= i < |accepted| && accepted[i] == d;
          assert baselines[i] == b;
        }
      }
    }
  }

  /** From any observations, over any run that leaves no baseline: each digest is new against the latest
  earlier one. */
  lemma NewSinceLatestEarlierDigest(comparing: bool, log: Log, events: seq<Event>)
    requires ValidLog(log) && Configured(comparing, events) && LeavesNothing(Fresh(log), events)
    ensures DigestsHold(comparing, Observe(Fresh(log), events).0.stores)
  {
    RunsStaySound(comparing, Fresh(log), events, {});
    SoundDigestsHold(comparing, Observe(Fresh(log), events).0, {} + LostDuring(Fresh(log), events));
  }

  // ---------- With a calendar that does not run backwards ----------

  ghost predicate DatesInOrder(events: seq<Event>) {
    forall i, j :: 0 <= i < j < |events| && events[i].DigestCall? && events[j].DigestCall? ==>
      events[i].call.date <= events[j].call.date
  }

  ghost predicate NoneAfter(accepted: seq<DailyDigest.Digest>, events: seq<Event>) {
    forall d, e: Event :: d in accepted && e in events && e.DigestCall? ==> d.date <= e.call.date
  }

  lemma EventAcceptsInOrder(world: DigestWorkflow.World, events: seq<Event>, lost: set<Date>)
    requires events != [] && ValidLog(world.log) && DigestWorkflow.DatesAgree(world.stores, lost)
    requires DigestWorkflow.Increasing(world.stores.accepted)
    requires DatesInOrder(events) && NoneAfter(world.stores.accepted, events)
    ensures var after := Handle(world, events[0]).0.stores.accepted;
      DigestWorkflow.Increasing(after) && DatesInOrder(events[1..]) && NoneAfter(after, events[1..])
  {
    var rest := events[1..];
    assert forall e :: e in rest ==> e in events;
    if events[0].DigestCall? {
      DigestWorkflow.RunAcceptsInOrder(events[0].config, world, events[0].call, lost);
      forall e: Event | e in rest && e.DigestCall? ensures events[0].call.date <= e.call.date {
        var k :| 0 <= k < |rest| && rest[k] == e;
        assert events[k + 1] == e;
      }
    }
  }

  /** With digest dates that never go back digests are accepted in date order, whatever raises. */
  lemma {:induction false} RunsAcceptInOrder(world: DigestWorkflow.World, events: seq<Event>, lost: set<Date>)
    requires ValidLog(world.log) && DigestWorkflow.DatesAgree(world.stores, lost)
    requires DigestWorkflow.Increasing(world.stores.accepted)
    requires DatesInOrder(events) && NoneAfter(world.stores.accepted, events)
    ensures DigestWorkflow.Increasing(Observe(world, events).0.stores.accepted)
    decreases |events|
  {
    if events != [] {
      EventKeepsDates(world, events[0], lost);
      EventKeepsLog(world, events[0]);
      EventAcceptsInOrder(world, events, lost);
      ObserveOne(world, events);
      RunsAcceptInOrder(Handle(world, events[0]).0, events[1..], lost + LostIn(world, events[0]));
    }
  }

  /** With anything in between and dates lost or not, if no baseline is left: the first digest marks
  nothing as new, and each later one marks exactly what its predecessor did not list. */
  lemma NewSinceLastDigest(log: Log, events: seq<Event>)
    requires ValidLog(log) && Configured(true, events)
    requires LeavesNothing(Fresh(log), events) && DatesInOrder(events)
    ensures var accepted := Observe(Fresh(log), events).0.stores.accepted;
      DigestWorkflow.Increasing(accepted) && forall i: nat :: i < |accepted| ==> DigestWorkflow.NewSincePrevious(accepted, i)
  {
    NewSinceLatestEarlierDigest(true, log, events);
    RunsAcceptInOrder(Fresh(log), events, {});
    var accepted := Observe(Fresh(log), events).0.stores.accepted;
    forall i: nat | i < |accepted| ensures DigestWorkflow.NewSincePrevious(accepted, i) {
      DigestWorkflow.PreviousIsLatestEarlier(accepted, i);
    }
  }
}
