/** Retention cannot be noticed: a system that prunes its log at arbitrary moments and one that
never does make the same decisions, send the same messages and answer the same queries. */
module RetentionInvisible {
  import opened Domain
  import opened Sequences
  import opened ObservationLog
  import opened Retention
  import opened PriceRules
  import opened RunningSystem
  import opened Synchronization
  import Ordering
  import DailyDigest
  import DigestRefresh
  import DigestWorkflow

  /** Same counter, and the same latest rows and first maxima. */
  ghost predicate SameLog(a: Log, b: Log) {
    ValidLog(a) && ValidLog(b) && a.next == b.next && SameView(a.rows, b.rows)
  }

  // ---------- What each reader sees ----------

  function PriceOf(row: Option<Row>): Option<Money> {
    match row
    case None => None
    case Some(r) => Some(r.snapshot.product.currentPrice)
  }

  lemma HistoryOfLonger(rows: seq<Row>, row: Row, id: ProductId)
    ensures HistoryOf(rows + [row], id) == HistoryOf(rows, id) + (if row.Id() == id then [row.snapshot] else [])
  {
    assert (rows + [row])[..|rows|] == rows;
  }

  lemma MaximumOfLonger(history: seq<Snapshot>, s: Snapshot, currency: Currency, best: Option<Row>, row: Row, id: ProductId)
    requires FirstMaximumPrice(history, currency) == PriceOf(best) && row.snapshot == s && row.Id() == id
    ensures FirstMaximumPrice(history + [s], currency) == PriceOf(Higher(best, row, id, currency))
  {
    assert (history + [s])[..|history|] == history;
  }

  /** The reference price computed from the whole history is the price of the protected first maximum. */
  lemma {:induction false} EnrichmentReadsFirstMaximum(rows: seq<Row>, id: ProductId, currency: Currency)
    ensures FirstMaximumPrice(HistoryOf(rows, id), currency) == PriceOf(FirstMaximumOf(rows, id, currency))
  {
    if rows == [] {
      assert HistoryOf(rows, id) == [];
    } else {
      var init, last := rows[..|rows| - 1], rows[|rows| - 1];
      EnrichmentReadsFirstMaximum(init, id, currency);
      assert rows == init + [last];
      HistoryOfLonger(init, last, id);
      if last.Id() != id {
        assert HistoryOf(rows, id) == HistoryOf(init, id);
      } else {
        MaximumOfLonger(HistoryOf(init, id), last.snapshot, currency, FirstMaximumOf(init, id, currency), last, id);
      }
    }
  }

  lemma SameEnrichment(setup: Setup, a: Log, b: Log, product: Product)
    requires SameLog(a, b)
    ensures Enriched(setup, a, product) == Enriched(setup, b, product)
  {
    EnrichmentReadsFirstMaximum(a.rows, product.id, product.currentPrice.currency);
    EnrichmentReadsFirstMaximum(b.rows, product.id, product.currentPrice.currency);
    HistoryIsOwn(a.rows, product.id);
    HistoryIsOwn(b.rows, product.id);
  }

  lemma AppendKeepsSame(a: Log, b: Log, snapshot: Snapshot)
    requires SameLog(a, b)
    ensures SameLog(Append(a, snapshot), Append(b, snapshot))
  {
    AppendKeepsValid(a, snapshot);
    AppendKeepsValid(b, snapshot);
    SameViewOfAppend(a.rows, b.rows, Row(a.next, snapshot));
  }

  lemma SameViewOfAppend(a: seq<Row>, b: seq<Row>, row: Row)
    requires SameView(a, b)
    ensures SameView(a + [row], b + [row])
  {
    assert (a + [row])[..|a|] == a && (b + [row])[..|b|] == b;
    forall id ensures LatestOf(a + [row], id) == LatestOf(b + [row], id) {
      assert LatestOf(a, id) == LatestOf(b, id);
    }
    forall id, currency ensures FirstMaximumOf(a + [row], id, currency) == FirstMaximumOf(b + [row], id, currency) {
      assert FirstMaximumOf(a, id, currency) == FirstMaximumOf(b, id, currency);
    }
  }

  lemma SameLatestSnapshots(a: seq<Row>, b: seq<Row>)
    requires Ascending(a) && Ascending(b) && SameView(a, b)
    ensures LatestSnapshots(a) == LatestSnapshots(b)
  {
    LatestRowsDistinct(a);
    LatestRowsDistinct(b);
    SameMembers(LatestRows(a), LatestRows(b));
    ByIdIsTotal();
    Ordering.SortOfPermutation(ById(), LatestRows(a), LatestRows(b));
  }

  // ---------- A synchronization cycle ----------

  ghost predicate SameProgress(p: Progress, q: Progress) {
    p.alerts == q.alerts && p.result == q.result && SameLog(p.log, q.log)
  }

  ghost predicate SameStep(s: Step, t: Step) {
    s.raised == t.raised && SameProgress(s.progress, t.progress)
  }

  lemma {:induction false} RulesIgnoreLog(
    setup: Setup, p: Progress, q: Progress, previous: Option<Product>, product: Product, rules: seq<Rule>)
    requires SameProgress(p, q)
    ensures SameStep(RunRules(setup, p, previous, product, rules), RunRules(setup, q, previous, product, rules))
    ensures RunRules(setup, p, previous, product, rules).progress.log == p.log
    decreases |rules|
  {
    if rules != [] {
      var r := EvaluateRule(setup.rnd, rules[0], previous, product, setup.timestamp);
      if r.Ok? {
        var (alerts, notified) := Notify(setup, p.alerts, rules[0], product, r.value);
        var evaluated := p.result.(evaluations := p.result.evaluations + [r.value]);
        RulesIgnoreLog(
          setup, Progress(p.log, alerts, Count(evaluated, notified)), Progress(q.log, alerts, Count(evaluated, notified)),
          previous, product, rules[1..]);
      }
    }
  }

  lemma SameSaving(p: Progress, q: Progress, snapshot: Snapshot, ending: Ending)
    requires SameProgress(p, q)
    ensures SameStep(SaveProduct(p, snapshot, ending), SaveProduct(q, snapshot, ending))
  {
    AppendKeepsSame(p.log, q.log, snapshot);
  }

  lemma SameJudgement(setup: Setup, p: Progress, q: Progress, product: Product)
    requires SameProgress(p, q)
    ensures var id := product.id;
      SameStep(
        RunRules(setup, p, PreviousProduct(p.log, id), product, setup.rules),
        RunRules(setup, q, PreviousProduct(q.log, id), product, setup.rules))
  {
    assert PreviousProduct(p.log, product.id) == PreviousProduct(q.log, product.id);
    RulesIgnoreLog(setup, p, q, PreviousProduct(p.log, product.id), product, setup.rules);
  }

  lemma SameProduct(setup: Setup, p: Progress, q: Progress, product: Product)
    requires SameProgress(p, q)
    ensures SameStep(RunProduct(setup, p, product), RunProduct(setup, q, product))
  {
    SameEnrichment(setup, p.log, q.log, product);
    var e := Enriched(setup, p.log, product);
    if e.Ok? {
      SameJudgement(setup, p, q, e.value);
      var s := RunRules(setup, p, PreviousProduct(p.log, e.value.id), e.value, setup.rules);
      var t := RunRules(setup, q, PreviousProduct(q.log, e.value.id), e.value, setup.rules);
      SameSaving(s.progress, t.progress, Snapshot(e.value, setup.timestamp), SaveEnding(FaultNow(setup, p)));
    }
  }

  lemma {:induction false} SameProducts(setup: Setup, p: Progress, q: Progress, products: seq<Product>)
    requires SameProgress(p, q)
    ensures SameStep(RunProducts(setup, p, products), RunProducts(setup, q, products))
    decreases |products|
  {
    if products != [] {
      SameProduct(setup, p, q, products[0]);
      SameProducts(
        setup, RunProduct(setup, p, products[0]).progress, RunProduct(setup, q, products[0]).progress, products[1..]);
    }
  }

  lemma {:induction false} SameFetches(setup: Setup, p: Progress, q: Progress, fetches: seq<Fetch>)
    requires SameProgress(p, q)
    ensures SameStep(RunFetches(setup, p, fetches), RunFetches(setup, q, fetches))
    decreases |fetches|
  {
    if fetches != [] {
      var f := fetches[0];
      if f.Fetched? {
        var received := p.result.(fetched := p.result.fetched + [f], errors := p.result.errors + f.errors);
        SameProducts(setup, p.(result := received), q.(result := received), f.products);
      }
      SameFetches(setup, RunFetch(setup, p, f).progress, RunFetch(setup, q, f).progress, fetches[1..]);
    }
  }

  lemma SameCycle(setup: Setup, a: Log, b: Log, alerts: Alerts, fetches: seq<Fetch>)
    requires SameLog(a, b)
    ensures SameStep(Run(setup, a, alerts, fetches), Run(setup, b, alerts, fetches))
  {
    SameFetches(setup, Progress(a, alerts, NOTHING_DONE), Progress(b, alerts, NOTHING_DONE), fetches);
  }

  // ---------- A daily digest ----------

  ghost predicate SameRefreshed(a: DigestRefresh.Refreshed, b: DigestRefresh.Refreshed) {
    a.alerts == b.alerts && a.errors == b.errors && a.raised == b.raised && SameLog(a.log, b.log)
  }

  lemma {:induction false} SameRefresh(
    setup: Setup, provider: DigestRefresh.Provider, a: DigestRefresh.Refreshed, b: DigestRefresh.Refreshed,
    chunks: seq<seq<Product>>, number: nat)
    requires SameRefreshed(a, b)
    ensures SameRefreshed(
              DigestRefresh.RefreshChunks(setup, provider, a, chunks, number),
              DigestRefresh.RefreshChunks(setup, provider, b, chunks, number))
    decreases |chunks|
  {
    if chunks != [] && !a.raised {
      var fetches := [provider(number, Map(chunks[0], DigestRefresh.UrlOf()))];
      SameCycle(setup, a.log, b.log, a.alerts, fetches);
      var s, t := Run(setup, a.log, a.alerts, fetches), Run(setup, b.log, b.alerts, fetches);
      var errors := if s.raised then a.errors else a.errors + s.progress.result.errors;
      SameRefresh(
        setup, provider,
        DigestRefresh.Refreshed(s.progress.log, s.progress.alerts, errors, s.raised),
        DigestRefresh.Refreshed(t.progress.log, t.progress.alerts, errors, t.raised),
        chunks[1..], number + 1);
    }
  }

  ghost predicate SameWorld(a: DigestWorkflow.World, b: DigestWorkflow.World) {
    a.alerts == b.alerts && a.stores == b.stores && SameLog(a.log, b.log)
  }

  lemma SameDelivery(
    config: DigestWorkflow.Config, a: DigestWorkflow.World, b: DigestWorkflow.World, call: DigestWorkflow.Call,
    snapshots: seq<Snapshot>, errors: seq<ProviderError>)
    requires SameWorld(a, b)
    ensures var (a', x) := DigestWorkflow.Deliver(config, a, call, snapshots, errors);
      var (b', y) := DigestWorkflow.Deliver(config, b, call, snapshots, errors);
      SameWorld(a', b') && x == y
  {
  }

  lemma SameRecheck(
    config: DigestWorkflow.Config, a: DigestWorkflow.World, b: DigestWorkflow.World, call: DigestWorkflow.Call,
    stale: seq<Snapshot>)
    requires SameWorld(a, b)
    ensures var (a', x) := DigestWorkflow.RecheckAndDeliver(config, a, call, stale);
      var (b', y) := DigestWorkflow.RecheckAndDeliver(config, b, call, stale);
      SameWorld(a', b') && x == y
  {
    var setup := config.setup.(timestamp := call.timestamp);
    var products := Map(stale, DailyDigest.ProductOf());
    SameRefresh(
      DigestRefresh.Recheck(setup), call.provider,
      DigestRefresh.Refreshed(a.log, a.alerts, [], false), DigestRefresh.Refreshed(b.log, b.alerts, [], false),
      DigestRefresh.Chunks(DigestRefresh.FirstByUrl(products)), 0);
    var r := DigestRefresh.Refresh(setup, call.provider, a.log, a.alerts, products);
    var t := DigestRefresh.Refresh(setup, call.provider, b.log, b.alerts, products);
    SameLatestSnapshots(r.log.rows, t.log.rows);
    SameDelivery(
      config, a.(log := r.log, alerts := r.alerts), b.(log := t.log, alerts := t.alerts), call,
      LatestSnapshots(r.log.rows), r.errors);
  }

  lemma SameFreshening(
    config: DigestWorkflow.Config, a: DigestWorkflow.World, b: DigestWorkflow.World, call: DigestWorkflow.Call,
    snapshots: seq<Snapshot>)
    requires SameWorld(a, b)
    ensures var (a', x) := DigestWorkflow.FreshenAndDeliver(config, a, call, snapshots);
      var (b', y) := DigestWorkflow.FreshenAndDeliver(config, b, call, snapshots);
      SameWorld(a', b') && x == y
  {
    if !config.refreshing {
      SameDelivery(config, a, b, call, snapshots, []);
    } else {
      var stale := DailyDigest.SelectStale(snapshots, config.minimum, call.timestamp, DailyDigest.REFRESH_LIMIT);
      if stale.Ok? {
        SameRecheck(config, a, b, call, stale.value);
      }
    }
  }

  lemma SamePreparation(
    config: DigestWorkflow.Config, a: DigestWorkflow.World, b: DigestWorkflow.World, call: DigestWorkflow.Call)
    requires SameWorld(a, b)
    ensures var (a', x) := DigestWorkflow.PrepareAndDeliver(config, a, call);
      var (b', y) := DigestWorkflow.PrepareAndDeliver(config, b, call);
      SameWorld(a', b') && x == y
  {
    SameLatestSnapshots(a.log.rows, b.log.rows);
    SameFreshening(config, a, b, call, LatestSnapshots(a.log.rows));
  }

  // ---------- The running system ----------

  function WithoutPruning(events: seq<Event>): seq<Event> {
    if events == [] then []
    else (if events[0].Prune? then [] else [events[0]]) + WithoutPruning(events[1..])
  }

  lemma SameHandling(a: DigestWorkflow.World, b: DigestWorkflow.World, event: Event)
    requires SameWorld(a, b) && !event.Prune?
    ensures SameWorld(Handle(a, event).0, Handle(b, event).0)
    ensures Handle(a, event).1 == Handle(b, event).1
  {
    match event
    case SynchronizeCycle(setup, fetches) => SameCycle(setup, a.log, b.log, a.alerts, fetches);
    case DigestCall(config, call) =>
      if call.due && call.date !in a.stores.reserved {
        SamePreparation(config, DigestWorkflow.WithDate(a, call.date), DigestWorkflow.WithDate(b, call.date), call);
      }
    case LoadProduct(id) =>
    case ListLatest => SameLatestSnapshots(a.log.rows, b.log.rows);
  }

  lemma PruningKeepsSame(a: DigestWorkflow.World, b: DigestWorkflow.World, cutoff: Timestamp)
    requires SameWorld(a, b)
    ensures SameWorld(Handle(a, Prune(cutoff)).0, b)
  {
    RetainKeepsView(a.log.rows, cutoff);
  }

  lemma KeepOthers(events: seq<Event>)
    requires events != []
    ensures events[0].Prune? ==> WithoutPruning(events) == WithoutPruning(events[1..])
    ensures !events[0].Prune? ==>
        && WithoutPruning(events) != [] && WithoutPruning(events)[0] == events[0]
        && WithoutPruning(events)[1..] == WithoutPruning(events[1..])
  {
  }

  lemma {:induction false} PruningIsInvisibleFrom(a: DigestWorkflow.World, b: DigestWorkflow.World, events: seq<Event>)
    requires SameWorld(a, b)
    ensures SameWorld(Observe(a, events).0, Observe(b, WithoutPruning(events)).0)
    ensures Observe(a, events).1 == Observe(b, WithoutPruning(events)).1
    decreases |events|
  {
    if events != [] {
      var next := Handle(a, events[0]);
      ObserveOne(a, events);
      KeepOthers(events);
      if events[0].Prune? {
        PruningKeepsSame(a, b, events[0].cutoff);
        PruningIsInvisibleFrom(next.0, b, events[1..]);
        assert next.1 == [];
      } else {
        SameHandling(a, b, events[0]);
        ObserveOne(b, WithoutPruning(events));
        PruningIsInvisibleFrom(next.0, Handle(b, events[0]).0, events[1..]);
      }
    }
  }

  /** For every interleaving of cycles, digests, loads, listings and retentions: dropping all the
  retentions changes no result, message, reservation, baseline or answer. */
  lemma PruningIsInvisible(world: DigestWorkflow.World, events: seq<Event>)
    requires ValidLog(world.log)
    ensures Observe(world, events).1 == Observe(world, WithoutPruning(events)).1
    ensures Observe(world, events).0.alerts == Observe(world, WithoutPruning(events)).0.alerts
    ensures Observe(world, events).0.stores == Observe(world, WithoutPruning(events)).0.stores
    ensures SameLog(Observe(world, events).0.log, Observe(world, WithoutPruning(events)).0.log)
  {
    PruningIsInvisibleFrom(world, world, events);
  }
}
