/** One synchronization cycle: fetch, enrich, evaluate, alert and save.

Providers, stores, the notification engine and the channel may fail at any call. What they do is an
input: a fetch outcome per provider, a script answering each alert, and a fault for each product. */
module Synchronization {
  import opened Domain
  import opened Sequences
  import opened ObservationLog
  import opened DecimalContext
  import opened PriceRules
  import AmountText

  datatype ProviderError = TransportError | DataError | OtherError

  datatype Fetch =
    | FetchFails(error: ProviderError)
    | FetchRaises
    | Fetched(products: seq<Product>, errors: seq<ProviderError>)

  /** What the notification engine and the channel do with one alert. */
  datatype Answer = GenerateRaises | SendRaises | Accepts

  /** One alert: how reserving ends, the answer, and how releasing ends if the answer is an exception. */
  datatype Attempt = Attempt(reserve: Ending, answer: Answer, release: Ending)

  /** What the observation store does while one product is synchronized. */
  datatype StoreFault = Saves(ending: Ending) | HistoryRaises | LoadRaises

  /** The key of the reservation table. */
  datatype Identity = Identity(product: ProductId, ruleType: RuleType, currency: Currency, amount: string)

  datatype Notification = Notification(number: nat, product: Product, reason: Reason, createdAt: Timestamp)

  /** An accepted notification with the price-drop identity it announces, if any. */
  datatype Delivery = Delivery(notification: Notification, identity: Option<Identity>)

  /** The reservation table, what the channel accepted, and how many alerts were looked at. */
  datatype Alerts = Alerts(reserved: set<Identity>, delivered: seq<Delivery>, attempts: nat)

  datatype Setup = Setup(
    rnd: Context,
    enriching: bool,
    reserving: bool,
    rules: seq<Rule>,
    timestamp: Timestamp,
    script: nat -> Attempt,
    stores: nat -> StoreFault)

  datatype SynchronizationResult = SynchronizationResult(
    fetched: seq<Fetch>,
    evaluations: seq<Evaluation>,
    notifications: seq<Notification>,
    snapshots: seq<Snapshot>,
    errors: seq<ProviderError>,
    suppressed: nat)

  const NOTHING_DONE := SynchronizationResult([], [], [], [], [], 0)

  datatype Progress = Progress(log: Log, alerts: Alerts, result: SynchronizationResult)

  /** Where a cycle got to, and whether an exception left it there. */
  datatype Step = Step(progress: Progress, raised: bool)

  // ---------- The cycle as a function ----------

  /** The reservation policy: an identity for an enabled, matching price-drop rule only. */
  function AlertIdentity(rule: Rule, product: Product, evaluation: Evaluation): Option<Identity> {
    if !rule.enabled || rule.ruleType != PriceDrop || !evaluation.matched then None
    else
      Some(Identity(
             product.id, rule.ruleType, product.currentPrice.currency,
             AmountText.EncodeAmount(product.currentPrice.amount)))
  }

  datatype Notified = Suppressed | Raised | NothingToSay | Sent(notification: Notification)

  /** The row to reserve, if reservations are in use. */
  function KeyFor(setup: Setup, rule: Rule, product: Product, evaluation: Evaluation): Option<Identity> {
    if setup.reserving then AlertIdentity(rule, product, evaluation) else None
  }

  function WithRow(reserved: set<Identity>, key: Option<Identity>): set<Identity> {
    if key.Some? then reserved + {key.value} else reserved
  }

  /** Reserve, generate, send; a failure after the reservation releases it. */
  function Notify(setup: Setup, alerts: Alerts, rule: Rule, product: Product, evaluation: Evaluation)
    : (Alerts, Notified)
  {
    var key := KeyFor(setup, rule, product, evaluation);
    var attempt := setup.script(alerts.attempts);
    var tried := alerts.(attempts := alerts.attempts + 1);
    var inserted := tried.(reserved := WithRow(alerts.reserved, key));
    if key.Some? && !attempt.reserve.Returns? then
      (if attempt.reserve.Commits() then inserted else tried, Raised)
    else if key.Some? && key.value in alerts.reserved then (tried, Suppressed)
    else if attempt.answer.GenerateRaises? || (evaluation.matched && attempt.answer.SendRaises?) then
      (if attempt.release.Commits() then tried else inserted, Raised)
    else if !evaluation.matched then (tried, NothingToSay)
    else
      var notification := Notification(alerts.attempts, product, evaluation.reason, evaluation.timestamp);
      var delivery := Delivery(notification, AlertIdentity(rule, product, evaluation));
      (inserted.(delivered := alerts.delivered + [delivery]), Sent(notification))
  }

  function Count(result: SynchronizationResult, notified: Notified): SynchronizationResult {
    match notified
    case Suppressed => result.(suppressed := result.suppressed + 1)
    case Sent(notification) => result.(notifications := result.notifications + [notification])
    case Raised => result
    case NothingToSay => result
  }

  function RunRules(setup: Setup, p: Progress, previous: Option<Product>, product: Product, rules: seq<Rule>): Step
    decreases |rules|
  {
    if rules == [] then Step(p, false)
    else
      match EvaluateRule(setup.rnd, rules[0], previous, product, setup.timestamp)
      case Err(_) => Step(p, true)
      case Ok(evaluation) =>
        var (alerts, notified) := Notify(setup, p.alerts, rules[0], product, evaluation);
        var evaluated := p.result.(evaluations := p.result.evaluations + [evaluation]);
        var next := Progress(p.log, alerts, Count(evaluated, notified));
        if notified.Raised? then Step(next, true)
        else RunRules(setup, next, previous, product, rules[1..])
  }

  function Enriched(setup: Setup, log: Log, product: Product): Result<Product, EnrichError> {
    if setup.enriching then Enrich(setup.rnd, product, HistoryOf(log.rows, product.id)) else Ok(product)
  }

  function PreviousProduct(log: Log, id: ProductId): Option<Product> {
    match LatestOf(log.rows, id)
    case None => None
    case Some(row) => Some(row.snapshot.product)
  }

  /** The store's behaviour towards the next product to be saved. */
  function FaultNow(setup: Setup, p: Progress): StoreFault {
    setup.stores(|p.result.snapshots|)
  }

  function SaveEnding(fault: StoreFault): Ending {
    if fault.Saves? then fault.ending else Returns
  }

  function SaveProduct(p: Progress, snapshot: Snapshot, ending: Ending): Step {
    var inserted := p.(log := Append(p.log, snapshot));
    match ending
    case Returns => Step(inserted.(result := p.result.(snapshots := p.result.snapshots + [snapshot])), false)
    case RaisesBeforeCommit => Step(p, true)
    case RaisesAfterCommit => Step(inserted, true)
  }

  function RunProduct(setup: Setup, p: Progress, product: Product): Step {
    var fault := FaultNow(setup, p);
    if setup.enriching && fault.HistoryRaises? then Step(p, true)
    else match Enriched(setup, p.log, product)
      case Err(_) => Step(p, true)
      case Ok(enriched) =>
        if fault.LoadRaises? then Step(p, true)
        else
          var step := RunRules(setup, p, PreviousProduct(p.log, enriched.id), enriched, setup.rules);
          if step.raised then step
          else SaveProduct(step.progress, Snapshot(enriched, setup.timestamp), SaveEnding(fault))
  }

  function RunProducts(setup: Setup, p: Progress, products: seq<Product>): Step
    decreases |products|
  {
    if products == [] then Step(p, false)
    else
      var step := RunProduct(setup, p, products[0]);
      if step.raised then step else RunProducts(setup, step.progress, products[1..])
  }

  function RunFetch(setup: Setup, p: Progress, fetch: Fetch): Step {
    match fetch
    case FetchRaises => Step(p, true)
    case FetchFails(error) => Step(p.(result := p.result.(errors := p.result.errors + [error])), false)
    case Fetched(products, errors) =>
      var received := p.result.(fetched := p.result.fetched + [fetch], errors := p.result.errors + errors);
      RunProducts(setup, p.(result := received), products)
  }

  function RunFetches(setup: Setup, p: Progress, fetches: seq<Fetch>): Step
    decreases |fetches|
  {
    if fetches == [] then Step(p, false)
    else
      var step := RunFetch(setup, p, fetches[0]);
      if step.raised then step else RunFetches(setup, step.progress, fetches[1..])
  }

  function Run(setup: Setup, log: Log, alerts: Alerts, fetches: seq<Fetch>): Step {
    RunFetches(setup, Progress(log, alerts, NOTHING_DONE), fetches)
  }

  // ---------- What an evaluation compares ----------

  /** The evaluations from `start` on are the rules' verdicts, in the order of the rules. */
  ghost predicate VerdictsFrom(
    setup: Setup, evaluations: seq<Evaluation>, start: nat, previous: Option<Product>, product: Product, rules: seq<Rule>)
  {
    && |evaluations| == start + |rules|
    && forall k :: 0 <= k < |rules| ==>
         EvaluateRule(setup.rnd, rules[k], previous, product, setup.timestamp) == Ok(evaluations[start + k])
  }

  lemma VerdictsOneMore(
    setup: Setup, evaluations: seq<Evaluation>, start: nat, previous: Option<Product>, product: Product, rules: seq<Rule>)
    requires rules != [] && start < |evaluations|
    requires EvaluateRule(setup.rnd, rules[0], previous, product, setup.timestamp) == Ok(evaluations[start])
    requires VerdictsFrom(setup, evaluations, start + 1, previous, product, rules[1..])
    ensures VerdictsFrom(setup, evaluations, start, previous, product, rules)
  {
    forall k | 0 <= k < |rules|
      ensures EvaluateRule(setup.rnd, rules[k], previous, product, setup.timestamp) == Ok(evaluations[start + k])
    {
      if k > 0 { assert rules[k] == rules[1..][k - 1]; }
    }
  }

  lemma {:induction false} RulesExtend(
    setup: Setup, p: Progress, previous: Option<Product>, product: Product, rules: seq<Rule>)
    ensures var after := RunRules(setup, p, previous, product, rules).progress;
      && after.log == p.log && after.result.snapshots == p.result.snapshots
      && p.result.evaluations <= after.result.evaluations
    decreases |rules|
  {
    if rules != [] {
      var r := EvaluateRule(setup.rnd, rules[0], previous, product, setup.timestamp);
      if r.Ok? {
        var (alerts, notified) := Notify(setup, p.alerts, rules[0], product, r.value);
        var evaluated := p.result.(evaluations := p.result.evaluations + [r.value]);
        RulesExtend(setup, Progress(p.log, alerts, Count(evaluated, notified)), previous, product, rules[1..]);
      }
    }
  }

  lemma {:induction false} RulesGiveVerdicts(
    setup: Setup, p: Progress, previous: Option<Product>, product: Product, rules: seq<Rule>)
    requires !RunRules(setup, p, previous, product, rules).raised
    ensures VerdictsFrom(
              setup, RunRules(setup, p, previous, product, rules).progress.result.evaluations,
              |p.result.evaluations|, previous, product, rules)
    decreases |rules|
  {
    if rules != [] {
      var verdict := EvaluateRule(setup.rnd, rules[0], previous, product, setup.timestamp).value;
      var (alerts, notified) := Notify(setup, p.alerts, rules[0], product, verdict);
      var evaluated := p.result.(evaluations := p.result.evaluations + [verdict]);
      var next := Progress(p.log, alerts, Count(evaluated, notified));
      RulesExtend(setup, next, previous, product, rules[1..]);
      RulesGiveVerdicts(setup, next, previous, product, rules[1..]);
      VerdictsOneMore(
        setup, RunRules(setup, next, previous, product, rules[1..]).progress.result.evaluations,
        |p.result.evaluations|, previous, product, rules);
    }
  }

  lemma SavedIsLatest(p: Progress, snapshot: Snapshot, ending: Ending)
    ensures var step := SaveProduct(p, snapshot, ending);
      && (step.raised <==> !ending.Returns?)
      && step.progress.log == (if ending.Commits() then Append(p.log, snapshot) else p.log)
      && step.progress.result.evaluations == p.result.evaluations
      && (ending.Commits() ==> PreviousProduct(step.progress.log, snapshot.product.id) == Some(snapshot.product))
  {
  }

  /** A product is saved only after every rule judged it against the observation before this cycle's,
  and is then its latest observation. It is saved whenever nothing raises; if something raised and it is
  saved nevertheless, then the save itself raised, after its commit. */
  lemma JudgedThenSaved(setup: Setup, p: Progress, product: Product)
    ensures var step := RunProduct(setup, p, product);
      && (step.raised && step.progress.log != p.log ==> FaultNow(setup, p) == Saves(RaisesAfterCommit))
      && (!step.raised || step.progress.log != p.log ==>
            var enriched := Enriched(setup, p.log, product).Or(product);
            && (!setup.enriching ==> enriched == product)
            && (setup.enriching ==> Enrich(setup.rnd, product, HistoryOf(p.log.rows, product.id)) == Ok(enriched))
            && VerdictsFrom(
                 setup, step.progress.result.evaluations, |p.result.evaluations|,
                 PreviousProduct(p.log, enriched.id), enriched, setup.rules)
            && PreviousProduct(step.progress.log, enriched.id) == Some(enriched)
            && step.progress.log == Append(p.log, Snapshot(enriched, setup.timestamp)))
  {
    var e := Enriched(setup, p.log, product);
    if e.Ok? {
      var previous := PreviousProduct(p.log, e.value.id);
      var judged := RunRules(setup, p, previous, e.value, setup.rules);
      RulesExtend(setup, p, previous, e.value, setup.rules);
      if !judged.raised {
        RulesGiveVerdicts(setup, p, previous, e.value, setup.rules);
        SavedIsLatest(judged.progress, Snapshot(e.value, setup.timestamp), SaveEnding(FaultNow(setup, p)));
      }
    }
  }

  lemma {:induction false} ProductsKeepLog(setup: Setup, p: Progress, products: seq<Product>)
    requires ValidLog(p.log)
    ensures ValidLog(RunProducts(setup, p, products).progress.log)
    decreases |products|
  {
    if products != [] {
      var step := RunProduct(setup, p, products[0]);
      JudgedThenSaved(setup, p, products[0]);
      if step.progress.log != p.log {
        var enriched := Enriched(setup, p.log, products[0]).Or(products[0]);
        AppendKeepsValid(p.log, Snapshot(enriched, setup.timestamp));
      }
      ProductsKeepLog(setup, step.progress, products[1..]);
    }
  }

  /** A cycle, completed or not, leaves a valid log. */
  lemma {:induction false} FetchesKeepLog(setup: Setup, p: Progress, fetches: seq<Fetch>)
    requires ValidLog(p.log)
    ensures ValidLog(RunFetches(setup, p, fetches).progress.log)
    decreases |fetches|
  {
    if fetches != [] {
      if fetches[0].Fetched? {
        var received := p.result.(fetched := p.result.fetched + [fetches[0]], errors := p.result.errors + fetches[0].errors);
        ProductsKeepLog(setup, p.(result := received), fetches[0].products);
      }
      FetchesKeepLog(setup, RunFetch(setup, p, fetches[0]).progress, fetches[1..]);
    }
  }

  // ---------- The reservation table is the delivered log ----------

  function DeliveredIdentities(delivered: seq<Delivery>): set<Identity> {
    set d | d in delivered && d.identity.Some? :: d.identity.value
  }

  ghost predicate EachIdentityOnce(delivered: seq<Delivery>) {
    forall i, j :: 0 <= i < j < |delivered| && delivered[i].identity.Some? ==>
      delivered[i].identity != delivered[j].identity
  }

  /** A delivery's identity is read off the product it announces. */
  predicate WellKeyed(d: Delivery) {
    var product := d.notification.product;
    d.identity.Some? ==>
      d.identity.value == Identity(
                            product.id, PriceDrop, product.currentPrice.currency,
                            AmountText.EncodeAmount(product.currentPrice.amount))
  }

  /** The table holds the delivered identities and the stranded ones, which were not delivered; and
  nothing was announced twice. */
  ghost predicate TableAgrees(alerts: Alerts, stranded: set<Identity>) {
    && (forall d :: d in alerts.delivered ==> WellKeyed(d))
    && alerts.reserved == DeliveredIdentities(alerts.delivered) + stranded
    && DeliveredIdentities(alerts.delivered) !! stranded
    && EachIdentityOnce(alerts.delivered)
  }

  /** What an alert leaves in the table without delivering it: its identity was free, and reserving it
  raised after the commit, or the alert failed and releasing it raised before the commit. */
  function StrandedBy(setup: Setup, alerts: Alerts, rule: Rule, product: Product, evaluation: Evaluation): set<Identity> {
    var key := KeyFor(setup, rule, product, evaluation);
    var attempt := setup.script(alerts.attempts);
    if key.None? || key.value in alerts.reserved then {}
    else if attempt.reserve.RaisesAfterCommit? then {key.value}
    else if attempt.reserve.Returns? && !attempt.answer.Accepts? && attempt.release.RaisesBeforeCommit? then {key.value}
    else {}
  }

  lemma SendingAgrees(alerts: Alerts, stranded: set<Identity>, delivery: Delivery)
    requires TableAgrees(alerts, stranded) && WellKeyed(delivery)
    requires delivery.identity.Some? ==> delivery.identity.value !in alerts.reserved
    ensures TableAgrees(
              alerts.(delivered := alerts.delivered + [delivery], reserved := WithRow(alerts.reserved, delivery.identity)),
              stranded)
  {
    var next := alerts.delivered + [delivery];
    assert forall d :: d in next <==> d in alerts.delivered || d == delivery;
    assert DeliveredIdentities(next) == WithRow(DeliveredIdentities(alerts.delivered), delivery.identity);
    forall i, j | 0 <= i < j < |next| && next[i].identity.Some? ensures next[i].identity != next[j].identity {
      if j == |alerts.delivered| { assert next[i] in alerts.delivered; }
    }
  }

  /** One alert, whatever raises: the table gains what was delivered and what was stranded. It is
  suppressed exactly if reserving returns and its identity was delivered or stranded before. */
  lemma NotifyKeepsReservations(
    setup: Setup, alerts: Alerts, stranded: set<Identity>, rule: Rule, product: Product, evaluation: Evaluation)
    requires setup.reserving && TableAgrees(alerts, stranded)
    ensures TableAgrees(
              Notify(setup, alerts, rule, product, evaluation).0,
              stranded + StrandedBy(setup, alerts, rule, product, evaluation))
    ensures var identity := AlertIdentity(rule, product, evaluation);
      Notify(setup, alerts, rule, product, evaluation).1.Suppressed? <==>
        && setup.script(alerts.attempts).reserve.Returns? && identity.Some?
        && (identity.value in stranded || exists d :: d in alerts.delivered && d.identity == identity)
  {
    var (next, notified) := Notify(setup, alerts, rule, product, evaluation);
    var identity := AlertIdentity(rule, product, evaluation);
    assert identity.Some? ==>
        (identity.value in DeliveredIdentities(alerts.delivered) <==> exists d :: d in alerts.delivered && d.identity == identity);
    if notified.Sent? {
      SendingAgrees(alerts, stranded, Delivery(notified.notification, identity));
    }
  }

  /** An alert is identified exactly for an enabled price-drop rule that matched, by product, currency and the
  text of the price. */
  lemma IdentityMeans(rule: Rule, product: Product, evaluation: Evaluation)
    ensures AlertIdentity(rule, product, evaluation)
         == if rule.enabled && rule.ruleType == PriceDrop && evaluation.matched then
              Some(Identity(
                     product.id, PriceDrop, product.currentPrice.currency,
                     AmountText.EncodeAmount(product.currentPrice.amount)))
            else None
  {
  }

  /** Exactly what becomes of one alert. It is sent if the rule matched, engine and channel accept it and,
  where reservations are in use, reserving returns and finds the identity free; it is suppressed if it
  finds it taken; without a match there is nothing to say. In every other case it raises, and leaves in
  the table what it strands. */
  lemma NotifyExactly(setup: Setup, alerts: Alerts, rule: Rule, product: Product, evaluation: Evaluation)
    ensures var (after, notified) := Notify(setup, alerts, rule, product, evaluation);
      var attempt, identity := setup.script(alerts.attempts), AlertIdentity(rule, product, evaluation);
      var reserves := setup.reserving && identity.Some?;
      var free := reserves ==> attempt.reserve.Returns? && identity.value !in alerts.reserved;
      && after.attempts == alerts.attempts + 1
      && (notified.Sent? <==> evaluation.matched && attempt.answer.Accepts? && free)
      && (notified.Suppressed? <==> reserves && attempt.reserve.Returns? && identity.value in alerts.reserved)
      && (notified.NothingToSay? <==> !evaluation.matched && !attempt.answer.GenerateRaises?)
      && (notified.Sent? ==>
            && notified.notification == Notification(alerts.attempts, product, evaluation.reason, evaluation.timestamp)
            && after.delivered == alerts.delivered + [Delivery(notified.notification, identity)]
            && after.reserved == if reserves then alerts.reserved + {identity.value} else alerts.reserved)
      && (!notified.Sent? ==>
            && after.delivered == alerts.delivered
            && after.reserved
               == if && reserves
                     && (|| attempt.reserve.RaisesAfterCommit?
                         || (free && !attempt.answer.Accepts? && attempt.release.RaisesBeforeCommit?))
                  then alerts.reserved + {identity.value} else alerts.reserved)
  {
  }

  /** What the rules strand on one product. */  /** What the rules strand on one product. */
  function StrandedByRules(setup: Setup, p: Progress, previous: Option<Product>, product: Product, rules: seq<Rule>)
    : set<Identity>
    decreases |rules|
  {
    if rules == [] then {}
    else
      match EvaluateRule(setup.rnd, rules[0], previous, product, setup.timestamp)
      case Err(_) => {}
      case Ok(evaluation) =>
        var (alerts, notified) := Notify(setup, p.alerts, rules[0], product, evaluation);
        var evaluated := p.result.(evaluations := p.result.evaluations + [evaluation]);
        StrandedBy(setup, p.alerts, rules[0], product, evaluation)
        + if notified.Raised? then {}
          else StrandedByRules(setup, Progress(p.log, alerts, Count(evaluated, notified)), previous, product, rules[1..])
  }

  function StrandedByProduct(setup: Setup, p: Progress, product: Product): set<Identity> {
    var fault := FaultNow(setup, p);
    var enriched := Enriched(setup, p.log, product);
    if (setup.enriching && fault.HistoryRaises?) || enriched.Err? || fault.LoadRaises? then {}
    else StrandedByRules(setup, p, PreviousProduct(p.log, enriched.value.id), enriched.value, setup.rules)
  }

  function StrandedByProducts(setup: Setup, p: Progress, products: seq<Product>): set<Identity>
    decreases |products|
  {
    if products == [] then {}
    else
      var step := RunProduct(setup, p, products[0]);
      StrandedByProduct(setup, p, products[0])
      + if step.raised then {} else StrandedByProducts(setup, step.progress, products[1..])
  }

  function StrandedByFetches(setup: Setup, p: Progress, fetches: seq<Fetch>): set<Identity>
    decreases |fetches|
  {
    if fetches == [] then {}
    else
      var step := RunFetch(setup, p, fetches[0]);
      (match fetches[0]
       case Fetched(products, errors) =>
         var received := p.result.(fetched := p.result.fetched + [fetches[0]], errors := p.result.errors + errors);
         StrandedByProducts(setup, p.(result := received), products)
       case FetchFails(_) => {}
       case FetchRaises => {})
      + if step.raised then {} else StrandedByFetches(setup, step.progress, fetches[1..])
  }

  /** What a whole cycle strands. */
  function StrandedByCycle(setup: Setup, log: Log, alerts: Alerts, fetches: seq<Fetch>): set<Identity> {
    StrandedByFetches(setup, Progress(log, alerts, NOTHING_DONE), fetches)
  }

  lemma {:induction false} RulesKeepReservations(
    setup: Setup, p: Progress, stranded: set<Identity>, previous: Option<Product>, product: Product, rules: seq<Rule>)
    requires setup.reserving && TableAgrees(p.alerts, stranded)
    ensures TableAgrees(
              RunRules(setup, p, previous, product, rules).progress.alerts,
              stranded + StrandedByRules(setup, p, previous, product, rules))
    decreases |rules|
  {
    if rules != [] {
      var r := EvaluateRule(setup.rnd, rules[0], previous, product, setup.timestamp);
      if r.Ok? {
        NotifyKeepsReservations(setup, p.alerts, stranded, rules[0], product, r.value);
        var here := StrandedBy(setup, p.alerts, rules[0], product, r.value);
        var (alerts, notified) := Notify(setup, p.alerts, rules[0], product, r.value);
        var evaluated := p.result.(evaluations := p.result.evaluations + [r.value]);
        var next := Progress(p.log, alerts, Count(evaluated, notified));
        RulesKeepReservations(setup, next, stranded + here, previous, product, rules[1..]);
        var rest := if notified.Raised? then {} else StrandedByRules(setup, next, previous, product, rules[1..]);
        assert stranded + (here + rest) == stranded + here + rest;
      }
    }
  }

  lemma ProductKeepsReservations(setup: Setup, p: Progress, stranded: set<Identity>, product: Product)
    requires setup.reserving && TableAgrees(p.alerts, stranded)
    ensures TableAgrees(RunProduct(setup, p, product).progress.alerts, stranded + StrandedByProduct(setup, p, product))
  {
    var e := Enriched(setup, p.log, product);
    if e.Ok? {
      RulesKeepReservations(setup, p, stranded, PreviousProduct(p.log, e.value.id), e.value, setup.rules);
    }
  }

  lemma {:induction false} ProductsKeepReservations(
    setup: Setup, p: Progress, stranded: set<Identity>, products: seq<Product>)
    requires setup.reserving && TableAgrees(p.alerts, stranded)
    ensures TableAgrees(RunProducts(setup, p, products).progress.alerts, stranded + StrandedByProducts(setup, p, products))
    decreases |products|
  {
    if products != [] {
      ProductKeepsReservations(setup, p, stranded, products[0]);
      var here, step := StrandedByProduct(setup, p, products[0]), RunProduct(setup, p, products[0]);
      ProductsKeepReservations(setup, step.progress, stranded + here, products[1..]);
      var rest := if step.raised then {} else StrandedByProducts(setup, step.progress, products[1..]);
      assert stranded + (here + rest) == stranded + here + rest;
    }
  }

  lemma {:induction false} FetchesKeepReservations(
    setup: Setup, p: Progress, stranded: set<Identity>, fetches: seq<Fetch>)
    requires setup.reserving && TableAgrees(p.alerts, stranded)
    ensures TableAgrees(RunFetches(setup, p, fetches).progress.alerts, stranded + StrandedByFetches(setup, p, fetches))
    decreases |fetches|
  {
    if fetches != [] {
      var here := {};
      if fetches[0].Fetched? {
        var received := p.result.(fetched := p.result.fetched + [fetches[0]], errors := p.result.errors + fetches[0].errors);
        ProductsKeepReservations(setup, p.(result := received), stranded, fetches[0].products);
        here := StrandedByProducts(setup, p.(result := received), fetches[0].products);
      }
      var step := RunFetch(setup, p, fetches[0]);
      FetchesKeepReservations(setup, step.progress, stranded + here, fetches[1..]);
      var rest := if step.raised then {} else StrandedByFetches(setup, step.progress, fetches[1..]);
      assert stranded + (here + rest) == stranded + here + rest;
    }
  }

  const NO_ALERTS := Alerts({}, [], 0)

  /** In prices: no two price-drop deliveries share product, currency and (rounded) price. */
  lemma ReservedMeansNoPriceTwice(alerts: Alerts, stranded: set<Identity>, i: nat, j: nat)
    requires TableAgrees(alerts, stranded) && i < j < |alerts.delivered|
    ensures var a, b := alerts.delivered[i], alerts.delivered[j];
      var p, q := a.notification.product, b.notification.product;
      a.identity.Some? && b.identity.Some? && p.id == q.id && p.currentPrice.currency == q.currentPrice.currency ==>
        Value(AmountText.Rounded(p.currentPrice.amount)) != Value(AmountText.Rounded(q.currentPrice.amount))
  {
    var delivered := alerts.delivered;
    assert WellKeyed(delivered[i]) && WellKeyed(delivered[j]);
    AmountText.EncodingIdentifies(
      delivered[i].notification.product.currentPrice.amount, delivered[j].notification.product.currentPrice.amount);
  }

  // ---------- Every match is announced or suppressed ----------

  function MatchedCount(evaluations: seq<Evaluation>): nat {
    if evaluations == [] then 0
    else MatchedCount(evaluations[..|evaluations| - 1]) + (if evaluations[|evaluations| - 1].matched then 1 else 0)
  }

  function ProductCount(fetches: seq<Fetch>): nat {
    if fetches == [] then 0
    else (if fetches[0].Fetched? then |fetches[0].products| else 0) + ProductCount(fetches[1..])
  }

  /** Matches are accounted for, and every saved product met every rule. */
  ghost predicate Accounted(setup: Setup, result: SynchronizationResult) {
    && MatchedCount(result.evaluations) == |result.notifications| + result.suppressed
    && |result.evaluations| == |result.snapshots| * |setup.rules|
  }

  lemma {:induction false} RulesAccount(
    setup: Setup, p: Progress, previous: Option<Product>, product: Product, rules: seq<Rule>)
    requires MatchedCount(p.result.evaluations) == |p.result.notifications| + p.result.suppressed
    requires !RunRules(setup, p, previous, product, rules).raised
    ensures var result := RunRules(setup, p, previous, product, rules).progress.result;
      && MatchedCount(result.evaluations) == |result.notifications| + result.suppressed
      && |result.evaluations| == |p.result.evaluations| + |rules|
      && result.snapshots == p.result.snapshots
    decreases |rules|
  {
    if rules != [] {
      var evaluation := EvaluateRule(setup.rnd, rules[0], previous, product, setup.timestamp).value;
      var (alerts, notified) := Notify(setup, p.alerts, rules[0], product, evaluation);
      var evaluated := p.result.(evaluations := p.result.evaluations + [evaluation]);
      assert evaluated.evaluations[..|p.result.evaluations|] == p.result.evaluations;
      RulesAccount(setup, Progress(p.log, alerts, Count(evaluated, notified)), previous, product, rules[1..]);
    }
  }

  lemma OneMore(n: nat, m: nat)
    ensures (n + 1) * m == n * m + m
  {
  }

  lemma {:induction false} ProductsAccount(setup: Setup, p: Progress, products: seq<Product>)
    requires Accounted(setup, p.result) && !RunProducts(setup, p, products).raised
    ensures var result := RunProducts(setup, p, products).progress.result;
      Accounted(setup, result) && |result.snapshots| == |p.result.snapshots| + |products|
    decreases |products|
  {
    if products != [] {
      var enriched := Enriched(setup, p.log, products[0]).value;
      RulesAccount(setup, p, PreviousProduct(p.log, enriched.id), enriched, setup.rules);
      OneMore(|p.result.snapshots|, |setup.rules|);
      ProductsAccount(setup, RunProduct(setup, p, products[0]).progress, products[1..]);
    }
  }

  lemma {:induction false} FetchesAccount(setup: Setup, p: Progress, fetches: seq<Fetch>)
    requires Accounted(setup, p.result) && !RunFetches(setup, p, fetches).raised
    ensures var result := RunFetches(setup, p, fetches).progress.result;
      Accounted(setup, result) && |result.snapshots| == |p.result.snapshots| + ProductCount(fetches)
    decreases |fetches|
  {
    if fetches != [] {
      if fetches[0].Fetched? {
        var received := p.result.(fetched := p.result.fetched + [fetches[0]], errors := p.result.errors + fetches[0].errors);
        ProductsAccount(setup, p.(result := received), fetches[0].products);
      }
      FetchesAccount(setup, RunFetch(setup, p, fetches[0]).progress, fetches[1..]);
    }
  }

  /** In a completed cycle every match is either announced or suppressed, there is one evaluation
  per product and rule, and one snapshot per product. */
  lemma CompletedCycleAccounts(setup: Setup, log: Log, alerts: Alerts, fetches: seq<Fetch>)
    requires !Run(setup, log, alerts, fetches).raised
    ensures var result := Run(setup, log, alerts, fetches).progress.result;
      && MatchedCount(result.evaluations) == |result.notifications| + result.suppressed
      && |result.evaluations| == ProductCount(fetches) * |setup.rules|
      && |result.snapshots| == ProductCount(fetches)
  {
    FetchesAccount(setup, Progress(log, alerts, NOTHING_DONE), fetches);
  }

  // ---------- What a completed cycle reports ----------

  /** The products of all answers, in order. */
  function ProductsIn(fetches: seq<Fetch>): seq<Product> {
    if fetches == [] then []
    else (if fetches[0].Fetched? then fetches[0].products else []) + ProductsIn(fetches[1..])
  }

  /** The errors of all providers, whether they failed or answered in part, in order. */
  function ErrorsIn(fetches: seq<Fetch>): seq<ProviderError> {
    if fetches == [] then []
    else
      (match fetches[0]
       case FetchFails(error) => [error]
       case FetchRaises => []
       case Fetched(_, errors) => errors)
      + ErrorsIn(fetches[1..])
  }

  function AnswersIn(fetches: seq<Fetch>): seq<Fetch> {
    if fetches == [] then [] else (if fetches[0].Fetched? then [fetches[0]] else []) + AnswersIn(fetches[1..])
  }

  /** One saved observation of a fetched product: taken now, of the product as fetched but for the reference
  and the discount, which enrichment may add. */
  ghost predicate Observes(setup: Setup, s: Snapshot, product: Product) {
    && s.timestamp == setup.timestamp
    && s.product.(originalPrice := product.originalPrice, discount := product.discount) == product
    && (product.originalPrice.Some? || !setup.enriching ==> s.product.originalPrice == product.originalPrice)
    && (!setup.enriching ==> s.product == product)
  }

  /** From p to q one observation of each product was saved and reported, in order. */
  ghost predicate SavesEach(setup: Setup, p: Progress, q: Progress, products: seq<Product>) {
    var n, rows := |p.result.snapshots|, |p.log.rows|;
    && |q.result.snapshots| == n + |products| && p.result.snapshots <= q.result.snapshots
    && |q.log.rows| == rows + |products| && p.log.rows <= q.log.rows && q.log.next == p.log.next + |products|
    && (forall k :: 0 <= k < |products| ==>
          && Observes(setup, q.result.snapshots[n + k], products[k])
          && q.log.rows[rows + k] == Row(p.log.next + k, q.result.snapshots[n + k]))
  }

  function NotificationsOf(deliveries: seq<Delivery>): seq<Notification> {
    Map(deliveries, (d: Delivery) => d.notification)
  }

  /** From p to q the notifications reported are those the channel accepted, in order. */
  ghost predicate Announces(p: Progress, q: Progress) {
    && p.alerts.delivered <= q.alerts.delivered
    && q.result.notifications == p.result.notifications + NotificationsOf(q.alerts.delivered[|p.alerts.delivered|..])
  }

  lemma SavesThenSaves(setup: Setup, p: Progress, q: Progress, r: Progress, a: seq<Product>, b: seq<Product>)
    requires SavesEach(setup, p, q, a) && SavesEach(setup, q, r, b)
    ensures SavesEach(setup, p, r, a + b)
  {
    var n, rows := |p.result.snapshots|, |p.log.rows|;
    forall k | 0 <= k < |a + b|
      ensures Observes(setup, r.result.snapshots[n + k], (a + b)[k])
      ensures r.log.rows[rows + k] == Row(p.log.next + k, r.result.snapshots[n + k])
    {
      if k < |a| {
        assert r.result.snapshots[n + k] == q.result.snapshots[n + k] && r.log.rows[rows + k] == q.log.rows[rows + k];
      } else {
        assert r.result.snapshots[|q.result.snapshots| + (k - |a|)] == r.result.snapshots[n + k];
        assert r.log.rows[|q.log.rows| + (k - |a|)] == r.log.rows[rows + k];
      }
    }
  }

  lemma NotificationsConcatenate(a: seq<Delivery>, b: seq<Delivery>)
    ensures NotificationsOf(a + b) == NotificationsOf(a) + NotificationsOf(b)
  {
  }

  lemma Concatenates<T>(a: seq<T>, b: seq<T>, c: seq<T>)
    ensures a + b + c == a + (b + c)
  {
  }

  lemma SuffixesJoin<T>(a: seq<T>, b: seq<T>, c: seq<T>)
    requires a <= b <= c
    ensures a <= c && c[|a|..] == b[|a|..] + c[|b|..]
  {
    assert b == a + b[|a|..] && c == b + c[|b|..];
  }

  lemma AnnouncesThenAnnounces(p: Progress, q: Progress, r: Progress)
    requires Announces(p, q) && Announces(q, r)
    ensures Announces(p, r)
  {
    var x, y := q.alerts.delivered[|p.alerts.delivered|..], r.alerts.delivered[|q.alerts.delivered|..];
    SuffixesJoin(p.alerts.delivered, q.alerts.delivered, r.alerts.delivered);
    NotificationsConcatenate(x, y);
    Concatenates(p.result.notifications, NotificationsOf(x), NotificationsOf(y));
  }

  ghost predicate Reports(setup: Setup, p: Progress, q: Progress, products: seq<Product>) {
    SavesEach(setup, p, q, products) && Announces(p, q)
  }

  lemma ReportsThenReports(setup: Setup, p: Progress, q: Progress, r: Progress, a: seq<Product>, b: seq<Product>)
    requires Reports(setup, p, q, a) && Reports(setup, q, r, b)
    ensures Reports(setup, p, r, a + b)
  {
    SavesThenSaves(setup, p, q, r, a, b);
    AnnouncesThenAnnounces(p, q, r);
  }

  lemma RuleReports(setup: Setup, p: Progress, rule: Rule, product: Product, evaluation: Evaluation)
    ensures var (alerts, notified) := Notify(setup, p.alerts, rule, product, evaluation);
      var evaluated := p.result.(evaluations := p.result.evaluations + [evaluation]);
      Reports(setup, p, Progress(p.log, alerts, Count(evaluated, notified)), [])
  {
  }

  lemma {:induction false} RulesReport(
    setup: Setup, p: Progress, previous: Option<Product>, product: Product, rules: seq<Rule>)
    ensures Reports(setup, p, RunRules(setup, p, previous, product, rules).progress, [])
    ensures RunRules(setup, p, previous, product, rules).progress.result.errors == p.result.errors
    ensures RunRules(setup, p, previous, product, rules).progress.result.fetched == p.result.fetched
    decreases |rules|
  {
    if rules != [] {
      var r := EvaluateRule(setup.rnd, rules[0], previous, product, setup.timestamp);
      if r.Ok? {
        var (alerts, notified) := Notify(setup, p.alerts, rules[0], product, r.value);
        var evaluated := p.result.(evaluations := p.result.evaluations + [r.value]);
        var next := Progress(p.log, alerts, Count(evaluated, notified));
        RuleReports(setup, p, rules[0], product, r.value);
        RulesReport(setup, next, previous, product, rules[1..]);
        ReportsThenReports(setup, p, next, RunRules(setup, next, previous, product, rules[1..]).progress, [], []);
      }
    }
  }

  lemma EnrichedObserves(setup: Setup, log: Log, product: Product)
    requires Enriched(setup, log, product).Ok?
    ensures Observes(setup, Snapshot(Enriched(setup, log, product).value, setup.timestamp), product)
  {
    if setup.enriching {
      EnrichmentCarries(setup.rnd, product, HistoryOf(log.rows, product.id));
    }
  }

  lemma SavingReports(setup: Setup, p: Progress, product: Product, s: Snapshot)
    requires Observes(setup, s, product)
    ensures Reports(setup, p, SaveProduct(p, s, Returns).progress, [product])
  {
  }

  lemma ProductReports(setup: Setup, p: Progress, product: Product)
    requires !RunProduct(setup, p, product).raised
    ensures var q := RunProduct(setup, p, product).progress;
      Reports(setup, p, q, [product]) && q.result.errors == p.result.errors && q.result.fetched == p.result.fetched
  {
    var e := Enriched(setup, p.log, product).value;
    var judged := RunRules(setup, p, PreviousProduct(p.log, e.id), e, setup.rules).progress;
    RulesReport(setup, p, PreviousProduct(p.log, e.id), e, setup.rules);
    EnrichedObserves(setup, p.log, product);
    SavingReports(setup, judged, product, Snapshot(e, setup.timestamp));
    ReportsThenReports(setup, p, judged, RunProduct(setup, p, product).progress, [], [product]);
    assert [] + [product] == [product];
  }

  lemma {:induction false} ProductsReport(setup: Setup, p: Progress, products: seq<Product>)
    requires !RunProducts(setup, p, products).raised
    ensures var q := RunProducts(setup, p, products).progress;
      Reports(setup, p, q, products) && q.result.errors == p.result.errors && q.result.fetched == p.result.fetched
    decreases |products|
  {
    if products != [] {
      var next := RunProduct(setup, p, products[0]).progress;
      ProductReports(setup, p, products[0]);
      ProductsReport(setup, next, products[1..]);
      ReportsThenReports(setup, p, next, RunProducts(setup, p, products).progress, [products[0]], products[1..]);
      assert products == [products[0]] + products[1..];
    }
  }

  lemma ReceivingChangesNoReport(setup: Setup, p: Progress, q: Progress, received: SynchronizationResult, products: seq<Product>)
    requires received.snapshots == p.result.snapshots && received.notifications == p.result.notifications
    requires Reports(setup, p.(result := received), q, products)
    ensures Reports(setup, p, q, products)
  {
    assert SavesEach(setup, p, q, products) && Announces(p, q);
  }

  lemma FetchReports(setup: Setup, p: Progress, fetch: Fetch)
    requires !RunFetch(setup, p, fetch).raised
    ensures var q := RunFetch(setup, p, fetch).progress;
      && Reports(setup, p, q, if fetch.Fetched? then fetch.products else [])
      && q.result.fetched == p.result.fetched + (if fetch.Fetched? then [fetch] else [])
      && q.result.errors
         == p.result.errors + (match fetch case FetchFails(e) => [e] case FetchRaises => [] case Fetched(_, es) => es)
  {
    match fetch
    case FetchFails(_) =>
      var q := RunFetch(setup, p, fetch).progress;
      assert q.alerts.delivered[|p.alerts.delivered|..] == [];
      assert SavesEach(setup, p, q, []) && Announces(p, q);
    case FetchRaises =>
    case Fetched(products, errors) =>
      var received := p.result.(fetched := p.result.fetched + [fetch], errors := p.result.errors + errors);
      ProductsReport(setup, p.(result := received), products);
      ReceivingChangesNoReport(setup, p, RunFetch(setup, p, fetch).progress, received, products);
  }

  lemma {:induction false} FetchesReport(setup: Setup, p: Progress, fetches: seq<Fetch>)
    requires !RunFetches(setup, p, fetches).raised
    ensures var q := RunFetches(setup, p, fetches).progress;
      && Reports(setup, p, q, ProductsIn(fetches))
      && q.result.fetched == p.result.fetched + AnswersIn(fetches)
      && q.result.errors == p.result.errors + ErrorsIn(fetches)
    decreases |fetches|
  {
    if fetches != [] {
      var next := RunFetch(setup, p, fetches[0]).progress;
      FetchReports(setup, p, fetches[0]);
      FetchesReport(setup, next, fetches[1..]);
      var q := RunFetches(setup, next, fetches[1..]).progress;
      assert RunFetches(setup, p, fetches).progress == q;
      var here := if fetches[0].Fetched? then fetches[0].products else [];
      ReportsThenReports(setup, p, next, q, here, ProductsIn(fetches[1..]));
      assert ProductsIn(fetches) == here + ProductsIn(fetches[1..]);
      AnswersAndErrors(p.result, next.result, q.result, fetches);
    }
  }

  lemma AnswersAndErrors(a: SynchronizationResult, b: SynchronizationResult, c: SynchronizationResult, fetches: seq<Fetch>)
    requires fetches != []
    requires b.fetched == a.fetched + (if fetches[0].Fetched? then [fetches[0]] else [])
    requires b.errors == a.errors + (match fetches[0] case FetchFails(e) => [e] case FetchRaises => [] case Fetched(_, es) => es)
    requires c.fetched == b.fetched + AnswersIn(fetches[1..]) && c.errors == b.errors + ErrorsIn(fetches[1..])
    ensures c.fetched == a.fetched + AnswersIn(fetches) && c.errors == a.errors + ErrorsIn(fetches)
  {
    var answers := if fetches[0].Fetched? then [fetches[0]] else [];
    var errors := match fetches[0] case FetchFails(e) => [e] case FetchRaises => [] case Fetched(_, es) => es;
    Concatenates(a.fetched, answers, AnswersIn(fetches[1..]));
    Concatenates(a.errors, errors, ErrorsIn(fetches[1..]));
  }

  /** A completed cycle asked every provider: it saved one observation of each product they answered with, in
  order, and reports these, the answers, the errors of those that failed and exactly what was delivered. */
  lemma CompletedCycleReports(setup: Setup, log: Log, alerts: Alerts, fetches: seq<Fetch>)
    requires !Run(setup, log, alerts, fetches).raised
    ensures var q := Run(setup, log, alerts, fetches).progress;
      && Reports(setup, Progress(log, alerts, NOTHING_DONE), q, ProductsIn(fetches))
      && q.result.fetched == AnswersIn(fetches) && q.result.errors == ErrorsIn(fetches)
  {
    FetchesReport(setup, Progress(log, alerts, NOTHING_DONE), fetches);
  }

  // ---------- When a cycle completes ----------

  /** No call raises, and no rule has a fixed amount in some currency. */
  ghost predicate NothingRaises(setup: Setup) {
    && setup.rnd == Default()
    && (forall n :: setup.stores(n) == Saves(Returns))
    && (forall n :: setup.script(n).reserve.Returns? && setup.script(n).answer.Accepts?)
    && (forall rule :: rule in setup.rules ==> !rule.fixed.FixedMoney?)
  }

  lemma {:induction false} RulesComplete(
    setup: Setup, p: Progress, previous: Option<Product>, product: Product, rules: seq<Rule>)
    requires NothingRaises(setup) && forall rule :: rule in rules ==> rule in setup.rules
    ensures !RunRules(setup, p, previous, product, rules).raised
    decreases |rules|
  {
    if rules != [] {
      assert rules[0] in rules && forall rule :: rule in rules[1..] ==> rule in rules;
      if rules[0].enabled && rules[0].ruleType == PriceDrop {
        PriceDropVerdict(setup.rnd, rules[0], previous, product, setup.timestamp);
      } else {
        OtherVerdicts(setup.rnd, rules[0], previous, product, setup.timestamp);
      }
      var evaluation := EvaluateRule(setup.rnd, rules[0], previous, product, setup.timestamp).value;
      NotifyExactly(setup, p.alerts, rules[0], product, evaluation);
      var (alerts, notified) := Notify(setup, p.alerts, rules[0], product, evaluation);
      var evaluated := p.result.(evaluations := p.result.evaluations + [evaluation]);
      RulesComplete(setup, Progress(p.log, alerts, Count(evaluated, notified)), previous, product, rules[1..]);
    }
  }

  lemma ProductCompletes(setup: Setup, p: Progress, product: Product)
    requires NothingRaises(setup)
    ensures !RunProduct(setup, p, product).raised
  {
    HistoryIsOwn(p.log.rows, product.id);
    EnrichmentRaisesOnlyForForeignHistory(product, HistoryOf(p.log.rows, product.id));
    var e := Enriched(setup, p.log, product).value;
    RulesComplete(setup, p, PreviousProduct(p.log, e.id), e, setup.rules);
  }

  lemma {:induction false} ProductsComplete(setup: Setup, p: Progress, products: seq<Product>)
    requires NothingRaises(setup)
    ensures !RunProducts(setup, p, products).raised
    decreases |products|
  {
    if products != [] {
      ProductCompletes(setup, p, products[0]);
      ProductsComplete(setup, RunProduct(setup, p, products[0]).progress, products[1..]);
    }
  }

  lemma {:induction false} FetchesComplete(setup: Setup, p: Progress, fetches: seq<Fetch>)
    requires NothingRaises(setup) && forall fetch :: fetch in fetches ==> !fetch.FetchRaises?
    ensures !RunFetches(setup, p, fetches).raised
    decreases |fetches|
  {
    if fetches != [] {
      assert fetches[0] in fetches && forall fetch :: fetch in fetches[1..] ==> fetch in fetches;
      if fetches[0].Fetched? {
        var received := p.result.(fetched := p.result.fetched + [fetches[0]], errors := p.result.errors + fetches[0].errors);
        ProductsComplete(setup, p.(result := received), fetches[0].products);
      }
      FetchesComplete(setup, RunFetch(setup, p, fetches[0]).progress, fetches[1..]);
    }
  }

  /** However many providers fail with an error of their own: a cycle in which nothing raises completes. */
  lemma CycleCompletes(setup: Setup, log: Log, alerts: Alerts, fetches: seq<Fetch>)
    requires NothingRaises(setup) && forall fetch :: fetch in fetches ==> !fetch.FetchRaises?
    ensures !Run(setup, log, alerts, fetches).raised
  {
    FetchesComplete(setup, Progress(log, alerts, NOTHING_DONE), fetches);
  }

  // ---------- The workflow ----------
  // ---------- The workflow ----------

  /** The reservation table: unique by identity. */
  class NotificationReservationStore {
    var reserved: set<Identity>

    constructor ()
      ensures reserved == {}
    {
      reserved := {};
    }

    /** INSERT OR IGNORE in one transaction: true exactly when the row is new. None stands for an
    exception, which may come after the commit. */
    method Reserve(identity: Identity, ending: Ending) returns (isNew: Option<bool>)
      modifies this
      ensures isNew == if ending.Returns? then Some(identity !in old(reserved)) else None
      ensures reserved == if ending.Commits() then old(reserved) + {identity} else old(reserved)
    {
      if ending.RaisesBeforeCommit? {
        return None;
      }
      var absent := identity !in reserved;
      reserved := reserved + {identity};
      isNew := if ending.Returns? then Some(absent) else None;
    }

    /** DELETE in one transaction; an exception may come after the commit. */
    method Release(identity: Identity, ending: Ending)
      modifies this
      ensures reserved == if ending.Commits() then old(reserved) - {identity} else old(reserved)
    {
      if ending.Commits() {
        reserved := reserved - {identity};
      }
    }
  }

  class NotificationChannel {
    var delivered: seq<Delivery>

    constructor ()
      ensures delivered == []
    {
      delivered := [];
    }

    method Send(delivery: Delivery, answer: Answer) returns (accepted: bool)
      modifies this
      ensures accepted == !answer.SendRaises?
      ensures delivered == if accepted then old(delivered) + [delivery] else old(delivered)
    {
      accepted := !answer.SendRaises?;
      if accepted {
        delivered := delivered + [delivery];
      }
    }
  }

  class SynchronizationWorkflow {
    const store: SqliteStateStore
    const reservations: NotificationReservationStore
    const channel: NotificationChannel
    var attempts: nat

    constructor (store: SqliteStateStore, reservations: NotificationReservationStore, channel: NotificationChannel)
      ensures this.store == store && this.reservations == reservations && this.channel == channel && attempts == 0
    {
      this.store, this.reservations, this.channel := store, reservations, channel;
      attempts := 0;
    }

    function CurrentAlerts(): Alerts
      reads this, reservations, channel
    {
      Alerts(reservations.reserved, channel.delivered, attempts)
    }

    method NotifyOne(setup: Setup, rule: Rule, product: Product, evaluation: Evaluation) returns (notified: Notified)
      modifies this, reservations, channel
      ensures (CurrentAlerts(), notified) == Notify(setup, old(CurrentAlerts()), rule, product, evaluation)
    {
      var key := KeyFor(setup, rule, product, evaluation);
      var attempt := setup.script(attempts);
      var number := attempts;
      attempts := attempts + 1;
      if key.Some? {
        var isNew := reservations.Reserve(key.value, attempt.reserve);
        if isNew.None? {
          return Raised;
        }
        if !isNew.value {
          assert reservations.reserved == old(reservations.reserved);
          return Suppressed;
        }
      }
      if attempt.answer.GenerateRaises? {
        if key.Some? { reservations.Release(key.value, attempt.release); }
        assert attempt.release.Commits() ==> reservations.reserved == old(reservations.reserved);
        return Raised;
      }
      if !evaluation.matched {
        // Without a match there is no identity, so there is nothing to release.
        return NothingToSay;
      }
      var notification := Notification(number, product, evaluation.reason, evaluation.timestamp);
      var accepted := channel.Send(Delivery(notification, AlertIdentity(rule, product, evaluation)), attempt.answer);
      if !accepted {
        if key.Some? { reservations.Release(key.value, attempt.release); }
        assert attempt.release.Commits() ==> reservations.reserved == old(reservations.reserved);
        return Raised;
      }
      return Sent(notification);
    }

    method EvaluateRules(setup: Setup, previous: Option<Product>, product: Product, before: SynchronizationResult)
      returns (raised: bool, result: SynchronizationResult)
      modifies this, reservations, channel
      ensures Step(Progress(store.log, CurrentAlerts(), result), raised)
           == RunRules(setup, Progress(store.log, old(CurrentAlerts()), before), previous, product, setup.rules)
    {
      result := before;
      var rules := setup.rules;
      for i := 0 to |rules|
        invariant RunRules(setup, Progress(store.log, old(CurrentAlerts()), before), previous, product, rules)
               == RunRules(setup, Progress(store.log, CurrentAlerts(), result), previous, product, rules[i..])
      {
        assert rules[i..][0] == rules[i] && rules[i..][1..] == rules[i + 1..];
        var evaluation := EvaluateRule(setup.rnd, rules[i], previous, product, setup.timestamp);
        if evaluation.Err? {
          return true, result;
        }
        result := result.(evaluations := result.evaluations + [evaluation.value]);
        var notified := NotifyOne(setup, rules[i], product, evaluation.value);
        result := Count(result, notified);
        if notified.Raised? {
          return true, result;
        }
      }
      raised := false;
    }

    method SynchronizeProduct(setup: Setup, product: Product, before: SynchronizationResult)
      returns (raised: bool, result: SynchronizationResult)
      modifies this, store, reservations, channel
      ensures Step(Progress(store.log, CurrentAlerts(), result), raised)
           == RunProduct(setup, Progress(old(store.log), old(CurrentAlerts()), before), product)
    {
      result := before;
      var fault := setup.stores(|before.snapshots|);
      if setup.enriching && fault.HistoryRaises? {
        return true, result;
      }
      var enriched := Enriched(setup, store.log, product);
      if enriched.Err? || fault.LoadRaises? {
        return true, result;
      }
      var previous := PreviousProduct(store.log, enriched.value.id);
      raised, result := EvaluateRules(setup, previous, enriched.value, result);
      if raised {
        return;
      }
      var snapshot := Snapshot(enriched.value, setup.timestamp);
      raised := store.Save(snapshot, SaveEnding(fault));
      if !raised {
        result := result.(snapshots := result.snapshots + [snapshot]);
      }
    }

    method SynchronizeProducts(setup: Setup, products: seq<Product>, before: SynchronizationResult)
      returns (raised: bool, result: SynchronizationResult)
      modifies this, store, reservations, channel
      ensures Step(Progress(store.log, CurrentAlerts(), result), raised)
           == RunProducts(setup, Progress(old(store.log), old(CurrentAlerts()), before), products)
    {
      result := before;
      for i := 0 to |products|
        invariant RunProducts(setup, Progress(old(store.log), old(CurrentAlerts()), before), products)
               == RunProducts(setup, Progress(store.log, CurrentAlerts(), result), products[i..])
      {
        assert products[i..][0] == products[i] && products[i..][1..] == products[i + 1..];
        raised, result := SynchronizeProduct(setup, products[i], result);
        if raised {
          return;
        }
      }
      raised := false;
    }

    /** The whole cycle. An exception leaves what was already saved and delivered. */
    method Synchronize(setup: Setup, fetches: seq<Fetch>) returns (raised: bool, result: SynchronizationResult)
      modifies this, store, reservations, channel
      ensures Step(Progress(store.log, CurrentAlerts(), result), raised)
           == Run(setup, old(store.log), old(CurrentAlerts()), fetches)
    {
      result := NOTHING_DONE;
      for i := 0 to |fetches|
        invariant Run(setup, old(store.log), old(CurrentAlerts()), fetches)
               == RunFetches(setup, Progress(store.log, CurrentAlerts(), result), fetches[i..])
      {
        var fetch := fetches[i];
        assert fetches[i..][0] == fetch && fetches[i..][1..] == fetches[i + 1..];
        match fetch
        case FetchRaises => return true, result;
        case FetchFails(error) => result := result.(errors := result.errors + [error]);
        case Fetched(products, errors) =>
          result := result.(fetched := result.fetched + [fetch], errors := result.errors + errors);
          raised, result := SynchronizeProducts(setup, products, result);
          if raised {
            return;
          }
      }
      raised := false;
    }
  }
}
