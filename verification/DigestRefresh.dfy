/** Rechecking the selected products before a digest: one request per URL, in batches of 25. */
module DigestRefresh {
  import opened Domain
  import opened Sequences
  import opened ObservationLog
  import Synchronization

  const BATCH: nat := 25

  /** The products without those whose URL already occurred. */
  function FirstByUrl(products: seq<Product>): seq<Product> {
    if products == [] then []
    else
      var init, last := products[..|products| - 1], products[|products| - 1];
      if exists p :: p in init && p.url == last.url then FirstByUrl(init) else FirstByUrl(init) + [last]
  }

  function Chunks(s: seq<Product>): seq<seq<Product>> {
    if |s| <= BATCH then (if s == [] then [] else [s]) else [s[..BATCH]] + Chunks(s[BATCH..])
  }

  function Flatten(chunks: seq<seq<Product>>): seq<Product> {
    if chunks == [] then [] else chunks[0] + Flatten(chunks[1..])
  }

  function UrlOf(): Product -> Url {
    (p: Product) => p.url
  }

  /** The provider's answer to the batch with the given number. */
  type Provider = (nat, seq<Url>) -> Synchronization.Fetch

  datatype Refreshed = Refreshed(
    log: Log,
    alerts: Synchronization.Alerts,
    errors: seq<Synchronization.ProviderError>,
    raised: bool)

  function RefreshChunks(
    setup: Synchronization.Setup, provider: Provider, before: Refreshed, chunks: seq<seq<Product>>, number: nat)
    : Refreshed
    decreases |chunks|
  {
    if chunks == [] || before.raised then before
    else
      var step := Synchronization.Run(setup, before.log, before.alerts, [provider(number, Map(chunks[0], UrlOf()))]);
      var progress := step.progress;
      var errors := if step.raised then before.errors else before.errors + progress.result.errors;
      RefreshChunks(
        setup, provider, Refreshed(progress.log, progress.alerts, errors, step.raised), chunks[1..], number + 1)
  }

  /** A recheck runs no rules. */
  function Recheck(setup: Synchronization.Setup): Synchronization.Setup {
    setup.(rules := [])
  }

  function Refresh(
    setup: Synchronization.Setup, provider: Provider, log: Log, alerts: Synchronization.Alerts, products: seq<Product>)
    : Refreshed
  {
    RefreshChunks(Recheck(setup), provider, Refreshed(log, alerts, [], false), Chunks(FirstByUrl(products)), 0)
  }

  // ---------- What is requested ----------

  predicate FirstAt(products: seq<Product>, i: nat, p: Product) {
    i < |products| && products[i] == p && forall k :: 0 <= k < i ==> products[k].url != p.url
  }

  lemma FirstAtStep(init: seq<Product>, last: Product, p: Product)
    ensures (exists i: nat :: FirstAt(init + [last], i, p)) <==>
            (exists i: nat :: FirstAt(init, i, p)) || (p == last && forall q :: q in init ==> q.url != last.url)
  {
    var products := init + [last];
    if i: nat :| FirstAt(products, i, p) {
      if i < |init| {
        assert forall k :: 0 <= k < i ==> init[k] == products[k];
        assert FirstAt(init, i, p);
      } else {
        assert forall k :: 0 <= k < |init| ==> products[k] == init[k];
      }
    }
    if i: nat :| FirstAt(init, i, p) {
      assert FirstAt(products, i, p);
    }
    if p == last && forall q :: q in init ==> q.url != last.url {
      assert FirstAt(products, |init|, p);
    }
  }

  lemma {:induction false} FirstByUrlMembers(products: seq<Product>, p: Product)
    ensures p in FirstByUrl(products) <==> exists i: nat :: FirstAt(products, i, p)
  {
    if products != [] {
      var init, last := products[..|products| - 1], products[|products| - 1];
      FirstByUrlMembers(init, p);
      FirstAtStep(init, last, p);
      assert products == init + [last];
      if q :| q in init && q.url == last.url {
        assert FirstByUrl(products) == FirstByUrl(init);
      } else {
        assert FirstByUrl(products) == FirstByUrl(init) + [last];
      }
    }
  }

  lemma {:induction false} FirstByUrlDistinct(products: seq<Product>)
    ensures forall i, j :: 0 <= i < j < |FirstByUrl(products)| ==> FirstByUrl(products)[i].url != FirstByUrl(products)[j].url
    ensures forall p :: p in FirstByUrl(products) ==> p in products
  {
    if products != [] {
      var init, last := products[..|products| - 1], products[|products| - 1];
      FirstByUrlDistinct(init);
      assert products == init + [last];
      forall i | 0 <= i < |FirstByUrl(init)| ensures FirstByUrl(init)[i] in init {
      }
    }
  }

  /** p and q are the first of their URLs, p before q. */
  ghost predicate FirstBefore(products: seq<Product>, p: Product, q: Product) {
    exists a: nat, b: nat :: a < b && FirstAt(products, a, p) && FirstAt(products, b, q)
  }

  lemma FirstBeforeStays(init: seq<Product>, last: Product, p: Product, q: Product)
    requires FirstBefore(init, p, q)
    ensures FirstBefore(init + [last], p, q)
  {
    var a: nat, b: nat :| a < b && FirstAt(init, a, p) && FirstAt(init, b, q);
    assert FirstAt(init + [last], a, p) && FirstAt(init + [last], b, q);
  }

  lemma FirstBeforeLast(init: seq<Product>, last: Product, p: Product)
    requires p in FirstByUrl(init) && forall q :: q in init ==> q.url != last.url
    ensures FirstBefore(init + [last], p, last)
  {
    FirstByUrlMembers(init, p);
    var a: nat :| FirstAt(init, a, p);
    assert FirstAt(init + [last], a, p) && FirstAt(init + [last], |init|, last);
  }

  lemma {:induction false} FirstByUrlOrdered(products: seq<Product>)
    ensures forall i, j :: 0 <= i < j < |FirstByUrl(products)| ==>
              FirstBefore(products, FirstByUrl(products)[i], FirstByUrl(products)[j])
  {
    if products != [] {
      var init, last := products[..|products| - 1], products[|products| - 1];
      assert products == init + [last];
      FirstByUrlOrdered(init);
      var first := FirstByUrl(init);
      forall i, j | 0 <= i < j < |FirstByUrl(products)|
        ensures FirstBefore(products, FirstByUrl(products)[i], FirstByUrl(products)[j])
      {
        if j < |first| {
          FirstBeforeStays(init, last, first[i], first[j]);
        } else {
          FirstBeforeLast(init, last, first[i]);
        }
      }
    }
  }

  /** One product per URL survives, the first to carry it, and the survivors keep their order. */
  lemma FirstByUrlKeepsFirsts(products: seq<Product>)
    ensures forall i, j :: 0 <= i < j < |FirstByUrl(products)| ==> FirstByUrl(products)[i].url != FirstByUrl(products)[j].url
    ensures forall p :: p in FirstByUrl(products) <==> exists i: nat :: FirstAt(products, i, p)
    ensures forall i, j :: 0 <= i < j < |FirstByUrl(products)| ==>
              FirstBefore(products, FirstByUrl(products)[i], FirstByUrl(products)[j])
  {
    FirstByUrlDistinct(products);
    FirstByUrlOrdered(products);
    forall p ensures p in FirstByUrl(products) <==> exists i: nat :: FirstAt(products, i, p) {
      FirstByUrlMembers(products, p);
    }
  }

  /** The batches are the deduplicated products, cut into runs of 1 to 25. */
  lemma {:induction false} ChunksCutEverything(s: seq<Product>)
    ensures Flatten(Chunks(s)) == s
    ensures forall c :: c in Chunks(s) ==> 1 <= |c| <= 25
    ensures 25 * (|Chunks(s)| - 1) < |s| || s == []
    ensures |s| <= 25 * |Chunks(s)|
  {
    if |s| > BATCH {
      ChunksCutEverything(s[BATCH..]);
      assert Chunks(s)[1..] == Chunks(s[BATCH..]);
      assert s == s[..BATCH] + s[BATCH..];
    } else if s != [] {
      assert Flatten([s]) == s + Flatten([]);
    }
  }

  /** A recheck announces nothing and reserves nothing. */
  lemma {:induction false} RecheckIsSilent(setup: Synchronization.Setup, p: Synchronization.Progress, products: seq<Product>)
    requires setup.rules == []
    ensures Synchronization.RunProducts(setup, p, products).progress.alerts == p.alerts
    decreases |products|
  {
    if products != [] {
      RecheckIsSilent(setup, Synchronization.RunProduct(setup, p, products[0]).progress, products[1..]);
    }
  }

  lemma FetchIsSilent(setup: Synchronization.Setup, log: Log, alerts: Synchronization.Alerts, fetch: Synchronization.Fetch)
    requires setup.rules == []
    ensures Synchronization.Run(setup, log, alerts, [fetch]).progress.alerts == alerts
  {
    var p := Synchronization.Progress(log, alerts, Synchronization.NOTHING_DONE);
    if fetch.Fetched? {
      var received := p.result.(fetched := p.result.fetched + [fetch], errors := p.result.errors + fetch.errors);
      RecheckIsSilent(setup, p.(result := received), fetch.products);
    }
    var step := Synchronization.RunFetch(setup, p, fetch);
    assert [fetch][1..] == [];
    assert Synchronization.RunFetches(setup, step.progress, []) == Synchronization.Step(step.progress, false);
  }

  lemma {:induction false} RefreshIsSilent(
    setup: Synchronization.Setup, provider: Provider, before: Refreshed, chunks: seq<seq<Product>>, number: nat)
    requires setup.rules == []
    ensures RefreshChunks(setup, provider, before, chunks, number).alerts == before.alerts
    decreases |chunks|
  {
    if chunks != [] && !before.raised {
      var fetch := provider(number, Map(chunks[0], UrlOf()));
      FetchIsSilent(setup, before.log, before.alerts, fetch);
      var step := Synchronization.Run(setup, before.log, before.alerts, [fetch]);
      var errors := if step.raised then before.errors else before.errors + step.progress.result.errors;
      RefreshIsSilent(
        setup, provider, Refreshed(step.progress.log, step.progress.alerts, errors, step.raised), chunks[1..], number + 1);
    }
  }

  lemma {:induction false} RefreshKeepsLog(
    setup: Synchronization.Setup, provider: Provider, before: Refreshed, chunks: seq<seq<Product>>, number: nat)
    requires ValidLog(before.log)
    ensures ValidLog(RefreshChunks(setup, provider, before, chunks, number).log)
    decreases |chunks|
  {
    if chunks != [] && !before.raised {
      var fetches := [provider(number, Map(chunks[0], UrlOf()))];
      Synchronization.FetchesKeepLog(
        setup, Synchronization.Progress(before.log, before.alerts, Synchronization.NOTHING_DONE), fetches);
      var step := Synchronization.Run(setup, before.log, before.alerts, fetches);
      var errors := if step.raised then before.errors else before.errors + step.progress.result.errors;
      RefreshKeepsLog(
        setup, provider, Refreshed(step.progress.log, step.progress.alerts, errors, step.raised), chunks[1..], number + 1);
    }
  }

  // ---------- What a recheck records ----------

  /** The provider's answers to the batches, numbered from `number` on. */
  function AnswersTo(provider: Provider, chunks: seq<seq<Product>>, number: nat): seq<Synchronization.Fetch>
    decreases |chunks|
  {
    if chunks == [] then []
    else [provider(number, Map(chunks[0], UrlOf()))] + AnswersTo(provider, chunks[1..], number + 1)
  }

  lemma {:induction false} AnswerAt(provider: Provider, chunks: seq<seq<Product>>, number: nat, n: nat)
    requires n < |chunks|
    ensures |AnswersTo(provider, chunks, number)| == |chunks|
    ensures AnswersTo(provider, chunks, number)[n] == provider(number + n, Map(chunks[n], UrlOf()))
    decreases |chunks|
  {
    if n > 0 {
      AnswerAt(provider, chunks[1..], number + 1, n - 1);
    } else if |chunks| > 1 {
      AnswerAt(provider, chunks[1..], number + 1, 0);
    }
  }

  ghost predicate RowOf(setup: Synchronization.Setup, row: Row, sequence: nat, product: Product) {
    row.sequence == sequence && Synchronization.Observes(setup, row.snapshot, product)
  }

  /** The log grew by one observation of each product, in order. */
  ghost predicate Grew(setup: Synchronization.Setup, a: Log, b: Log, products: seq<Product>) {
    && a.rows <= b.rows && |b.rows| == |a.rows| + |products| && b.next == a.next + |products|
    && (forall k :: 0 <= k < |products| ==> RowOf(setup, b.rows[|a.rows| + k], a.next + k, products[k]))
  }

  lemma GrewTwice(setup: Synchronization.Setup, a: Log, b: Log, c: Log, x: seq<Product>, y: seq<Product>)
    requires Grew(setup, a, b, x) && Grew(setup, b, c, y)
    ensures Grew(setup, a, c, x + y)
  {
    forall k | 0 <= k < |x + y| ensures RowOf(setup, c.rows[|a.rows| + k], a.next + k, (x + y)[k]) {
      if k < |x| {
        assert RowOf(setup, b.rows[|a.rows| + k], a.next + k, x[k]);
      } else {
        var j := k - |x|;
        assert RowOf(setup, c.rows[|b.rows| + j], b.next + j, y[j]);
      }
    }
  }

  lemma BatchGrows(setup: Synchronization.Setup, log: Log, alerts: Synchronization.Alerts, fetch: Synchronization.Fetch)
    requires !Synchronization.Run(setup, log, alerts, [fetch]).raised
    ensures var q := Synchronization.Run(setup, log, alerts, [fetch]).progress;
      && Grew(setup, log, q.log, Synchronization.ProductsIn([fetch]))
      && q.result.errors == Synchronization.ErrorsIn([fetch])
  {
    Synchronization.CompletedCycleReports(setup, log, alerts, [fetch]);
  }

  lemma InOneMore(fetch: Synchronization.Fetch, rest: seq<Synchronization.Fetch>)
    ensures Synchronization.ProductsIn([fetch] + rest) == Synchronization.ProductsIn([fetch]) + Synchronization.ProductsIn(rest)
    ensures Synchronization.ErrorsIn([fetch] + rest) == Synchronization.ErrorsIn([fetch]) + Synchronization.ErrorsIn(rest)
  {
    assert ([fetch] + rest)[1..] == rest && [fetch][1..] == [];
    assert Synchronization.ProductsIn([]) == [] && Synchronization.ErrorsIn([]) == [];
  }

  lemma {:induction false} ChunksGrow(
    setup: Synchronization.Setup, provider: Provider, before: Refreshed, chunks: seq<seq<Product>>, number: nat)
    requires !RefreshChunks(setup, provider, before, chunks, number).raised
    ensures var after, answers := RefreshChunks(setup, provider, before, chunks, number), AnswersTo(provider, chunks, number);
      && Grew(setup, before.log, after.log, Synchronization.ProductsIn(answers))
      && after.errors == before.errors + Synchronization.ErrorsIn(answers)
    decreases |chunks|
  {
    if chunks != [] {
      var fetch := provider(number, Map(chunks[0], UrlOf()));
      var step := Synchronization.Run(setup, before.log, before.alerts, [fetch]);
      RaisedStays(
        setup, provider, Refreshed(step.progress.log, step.progress.alerts, before.errors, true), chunks[1..], number + 1);
      assert !step.raised;
      var next := Refreshed(step.progress.log, step.progress.alerts, before.errors + step.progress.result.errors, false);
      BatchGrows(setup, before.log, before.alerts, fetch);
      ChunksGrow(setup, provider, next, chunks[1..], number + 1);
      var rest := AnswersTo(provider, chunks[1..], number + 1);
      InOneMore(fetch, rest);
      GrewTwice(
        setup, before.log, next.log, RefreshChunks(setup, provider, next, chunks[1..], number + 1).log,
        Synchronization.ProductsIn([fetch]), Synchronization.ProductsIn(rest));
      Synchronization.Concatenates(
        before.errors, Synchronization.ErrorsIn([fetch]), Synchronization.ErrorsIn(rest));
    }
  }

  lemma RaisedStays(
    setup: Synchronization.Setup, provider: Provider, before: Refreshed, chunks: seq<seq<Product>>, number: nat)
    requires before.raised
    ensures RefreshChunks(setup, provider, before, chunks, number) == before
  {
  }

  function Urls(products: seq<Product>): seq<Url> {
    seq(|products|, k requires 0 <= k < |products| => products[k].url)
  }

  /** What a recheck that does not raise does: batch n asks the provider, as its n-th request, for the URLs of
  the n-th run of deduplicated products; every product of every answer is observed once, in order; and the
  errors of the answers are collected in order. */
  lemma RecheckRecords(
    setup: Synchronization.Setup, provider: Provider, log: Log, alerts: Synchronization.Alerts, products: seq<Product>)
    requires !Refresh(setup, provider, log, alerts, products).raised
    ensures var batches := Chunks(FirstByUrl(products));
      var answers := seq(|batches|, n requires 0 <= n < |batches| => provider(n, Urls(batches[n])));
      var after := Refresh(setup, provider, log, alerts, products);
      && Grew(Recheck(setup), log, after.log, Synchronization.ProductsIn(answers))
      && after.errors == Synchronization.ErrorsIn(answers)
  {
    var batches := Chunks(FirstByUrl(products));
    ChunksGrow(Recheck(setup), provider, Refreshed(log, alerts, [], false), batches, 0);
    var answers := seq(|batches|, n requires 0 <= n < |batches| => provider(n, Urls(batches[n])));
    forall n: nat | n < |batches|
      ensures |AnswersTo(provider, batches, 0)| == |batches| && AnswersTo(provider, batches, 0)[n] == answers[n]
    {
      AnswerAt(provider, batches, 0, n);
      assert Urls(batches[n]) == Map(batches[n], UrlOf());
    }
    assert AnswersTo(provider, batches, 0) == answers;
  }

  /** A recheck raises only if a provider or the store does. */
  lemma {:induction false} RecheckCompletes(
    setup: Synchronization.Setup, provider: Provider, before: Refreshed, chunks: seq<seq<Product>>, number: nat)
    requires Synchronization.NothingRaises(setup) && !before.raised
    requires forall n, urls :: !provider(n, urls).FetchRaises?
    ensures !RefreshChunks(setup, provider, before, chunks, number).raised
    decreases |chunks|
  {
    if chunks != [] {
      var fetches := [provider(number, Map(chunks[0], UrlOf()))];
      Synchronization.CycleCompletes(setup, before.log, before.alerts, fetches);
      var step := Synchronization.Run(setup, before.log, before.alerts, fetches);
      RecheckCompletes(
        setup, provider,
        Refreshed(step.progress.log, step.progress.alerts, before.errors + step.progress.result.errors, false),
        chunks[1..], number + 1);
    }
  }

  // ---------- The refresher ----------
  // ---------- The refresher ----------

  class DigestRefresher {
    const workflow: Synchronization.SynchronizationWorkflow

    constructor (workflow: Synchronization.SynchronizationWorkflow)
      ensures this.workflow == workflow
    {
      this.workflow := workflow;
    }

    method Deduplicate(products: seq<Product>) returns (selected: seq<Product>)
      ensures selected == FirstByUrl(products)
    {
      var seen: set<Url> := {};
      selected := [];
      for i := 0 to |products|
        invariant selected == FirstByUrl(products[..i])
        invariant seen == set p | p in products[..i] :: p.url
      {
        assert products[..i + 1] == products[..i] + [products[i]];
        assert products[..i + 1][..i] == products[..i];
        assert products[i].url in seen <==> exists p :: p in products[..i] && p.url == products[i].url;
        if products[i].url !in seen {
          seen := seen + {products[i].url};
          selected := selected + [products[i]];
        }
      }
      assert products[..|products|] == products;
    }

    method RefreshProducts(setup: Synchronization.Setup, provider: Provider, products: seq<Product>)
      returns (raised: bool, errors: seq<Synchronization.ProviderError>)
      modifies workflow, workflow.store, workflow.reservations, workflow.channel
      ensures Refreshed(workflow.store.log, workflow.CurrentAlerts(), errors, raised)
           == Refresh(setup, provider, old(workflow.store.log), old(workflow.CurrentAlerts()), products)
    {
      var selected := Deduplicate(products);
      errors := [];
      raised := false;
      var offset, number := 0, 0;
      while offset < |selected|
        invariant 0 <= offset
        invariant !raised
        invariant Refresh(setup, provider, old(workflow.store.log), old(workflow.CurrentAlerts()), products)
               == RefreshChunks(
                    Recheck(setup), provider, Refreshed(workflow.store.log, workflow.CurrentAlerts(), errors, false),
                    Chunks(if offset <= |selected| then selected[offset..] else []), number)
      {
        var end := if offset + BATCH <= |selected| then offset + BATCH else |selected|;
        var batch := selected[offset..end];
        ghost var rest := selected[offset..];
        assert Chunks(rest)[0] == batch;
        assert Chunks(rest)[1..] == Chunks(if offset + BATCH <= |selected| then selected[offset + BATCH..] else []);
        var result;
        raised, result := workflow.Synchronize(Recheck(setup), [provider(number, Map(batch, UrlOf()))]);
        if raised {
          return;
        }
        errors := errors + result.errors;
        offset := offset + BATCH;
        number := number + 1;
      }
    }
  }
}
