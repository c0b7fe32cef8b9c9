/** Selecting, ordering and marking the products of one daily digest, and choosing which of them
to recheck first. */
module DailyDigest {
  import opened Domain
  import opened Sequences
  import opened PriceRules
  import DecimalContext
  import Ordering

  const HOUR: int := 3_600_000_000
  const REFRESH_LIMIT: nat := 200

  datatype Digest = Digest(
    date: Date,
    createdAt: Timestamp,
    products: seq<Product>,
    newProducts: seq<ProductId>,
    promoted: bool)

  datatype DigestError = DuplicateSnapshots

  predicate UniqueProducts(snapshots: seq<Snapshot>) {
    forall i, j :: 0 <= i < j < |snapshots| ==> snapshots[i].product.id != snapshots[j].product.id
  }

  // ---------- The order of a digest ----------

  /** The sort key's first part, without its sign: taking the negative rounds to the context. */
  function ListedDiscount(p: Product): real {
    DecimalContext.RoundHalfEven(p.discount)
  }

  /** Larger discounts first, then names, then identifiers. */
  predicate ListedBefore(p: Product, q: Product) {
    || ListedDiscount(p) > ListedDiscount(q)
    || (ListedDiscount(p) == ListedDiscount(q)
        && (if p.foldedName == q.foldedName then p.id <= q.id else Ordering.TextBefore(p.foldedName, q.foldedName)))
  }

  function DigestOrder(): (Product, Product) -> bool {
    (p: Product, q: Product) => ListedBefore(p, q)
  }

  lemma DigestOrderIsTotal()
    ensures Ordering.TotalPreorder(DigestOrder())
    ensures forall p, q :: ListedBefore(p, q) && ListedBefore(q, p) ==> p.id == q.id
  {
    forall p, q ensures ListedBefore(p, q) || ListedBefore(q, p) {
      Ordering.TextBeforeIsTotal(p.foldedName, q.foldedName);
    }
    forall p, q | ListedBefore(p, q) && ListedBefore(q, p) ensures p.id == q.id {
      Ordering.TextBeforeIsTotal(p.foldedName, q.foldedName);
    }
    forall p, q, r | ListedBefore(p, q) && ListedBefore(q, r) ensures ListedBefore(p, r) {
      if Ordering.TextBefore(p.foldedName, q.foldedName) && Ordering.TextBefore(q.foldedName, r.foldedName) {
        Ordering.TextBeforeIsTransitive(p.foldedName, q.foldedName, r.foldedName);
        Ordering.TextBeforeIsTotal(p.foldedName, q.foldedName);
        Ordering.TextBeforeIsTotal(q.foldedName, r.foldedName);
      }
    }
  }

  // ---------- Generation ----------

  function QualifyingSnapshot(minimum: real): Snapshot -> bool {
    (s: Snapshot) => Qualifies(s.product, minimum)
  }

  function ProductOf(): Snapshot -> Product {
    (s: Snapshot) => s.product
  }

  function DigestProducts(snapshots: seq<Snapshot>, minimum: real): seq<Product> {
    Ordering.Sort(DigestOrder(), Map(Filter(snapshots, QualifyingSnapshot(minimum)), ProductOf()))
  }

  function NotListed(previous: set<ProductId>): Product -> bool {
    (p: Product) => p.id !in previous
  }

  function IdOf(): Product -> ProductId {
    (p: Product) => p.id
  }

  /** None means that no earlier digest exists: then nothing is new. */
  function NewProducts(products: seq<Product>, previous: Option<set<ProductId>>): seq<ProductId> {
    match previous
    case None => []
    case Some(ids) => Map(Filter(products, NotListed(ids)), IdOf())
  }

  function Generate(
    snapshots: seq<Snapshot>, minimum: real, date: Date, timestamp: Timestamp,
    promoted: bool, previous: Option<set<ProductId>>)
    : Result<Digest, DigestError>
  {
    if !UniqueProducts(snapshots) then Err(DuplicateSnapshots)
    else
      var products := DigestProducts(snapshots, minimum);
      Ok(Digest(date, timestamp, products, NewProducts(products, previous), promoted))
  }

  lemma OneOtherKeepsUnique(snapshots: seq<Snapshot>, last: Snapshot)
    requires UniqueProducts(snapshots) && forall s :: s in snapshots ==> s.product.id != last.product.id
    ensures UniqueProducts(snapshots + [last])
  {
    forall i | 0 <= i < |snapshots| ensures snapshots[i] in snapshots {
    }
  }

  lemma {:induction false} QualifyingKeepsUnique(snapshots: seq<Snapshot>, keep: Snapshot -> bool)
    requires UniqueProducts(snapshots)
    ensures UniqueProducts(Filter(snapshots, keep))
  {
    if snapshots != [] {
      var init, last := snapshots[..|snapshots| - 1], snapshots[|snapshots| - 1];
      QualifyingKeepsUnique(init, keep);
      forall s | s in init ensures s.product.id != last.product.id {
        var i :| 0 <= i < |init| && snapshots[i] == s;
      }
      if keep(last) {
        OneOtherKeepsUnique(Filter(init, keep), last);
      }
    }
  }

  /** A digest lists each available product with a reference and a large enough discount, once,
  and nothing else, in the digest order. */
  lemma DigestListsExactlyTheQualifying(snapshots: seq<Snapshot>, minimum: real)
    requires UniqueProducts(snapshots)
    ensures var products := DigestProducts(snapshots, minimum);
      && (forall p :: p in products <==> exists s :: s in snapshots && s.product == p && Qualifies(p, minimum))
      && (forall i, j :: 0 <= i < j < |products| ==>
            ListedBefore(products[i], products[j]) && products[i].id != products[j].id)
  {
    var qualifying := Filter(snapshots, QualifyingSnapshot(minimum));
    var unsorted := Map(qualifying, ProductOf());
    var products := DigestProducts(snapshots, minimum);
    QualifyingKeepsUnique(snapshots, QualifyingSnapshot(minimum));
    DigestOrderIsTotal();
    Ordering.SortSorts(DigestOrder(), unsorted);
    Ordering.SortKeepsMembers(DigestOrder(), unsorted);
    Ordering.SortKeepsDistinct(DigestOrder(), unsorted);
    forall p ensures p in products <==> exists s :: s in snapshots && s.product == p && Qualifies(p, minimum) {
      if p in products {
        var i :| 0 <= i < |unsorted| && unsorted[i] == p;
        assert qualifying[i] in qualifying;
      }
      if s :| s in snapshots && s.product == p && Qualifies(p, minimum) {
        assert s in qualifying;
        var i :| 0 <= i < |qualifying| && qualifying[i] == s;
        assert unsorted[i] == p;
      }
    }
    forall i, j | 0 <= i < j < |products|
      ensures ListedBefore(products[i], products[j]) && products[i].id != products[j].id
    {
      assert DigestOrder()(products[i], products[j]);
      assert products[i] in unsorted && products[j] in unsorted;
      var a :| 0 <= a < |unsorted| && unsorted[a] == products[i];
      var b :| 0 <= b < |unsorted| && unsorted[b] == products[j];
      assert products[i] != products[j];
      assert a != b;
    }
  }

  /** p stands before q: a larger discount, as far as the context tells them apart; among equal ones the
  earlier name, and of one name the smaller identifier. */
  ghost predicate StandsBefore(p: Product, q: Product) {
    var a, b := DecimalContext.RoundHalfEven(p.discount), DecimalContext.RoundHalfEven(q.discount);
    && a >= b
    && (a == b ==> Ordering.TextBefore(p.foldedName, q.foldedName))
    && (a == b && p.foldedName == q.foldedName ==> p.id < q.id)
  }

  /** The same, said of the fields: which products are listed, each once, and in which order. */
  lemma DigestShows(snapshots: seq<Snapshot>, minimum: real)
    requires UniqueProducts(snapshots)
    ensures var products := DigestProducts(snapshots, minimum);
      && (forall p :: p in products <==>
            && p.available && p.originalPrice.Some? && p.discount >= minimum
            && exists s :: s in snapshots && s.product == p)
      && (forall i, j :: 0 <= i < j < |products| ==> StandsBefore(products[i], products[j]))
  {
    var products := DigestProducts(snapshots, minimum);
    DigestListsExactlyTheQualifying(snapshots, minimum);
    forall i, j | 0 <= i < j < |products| ensures StandsBefore(products[i], products[j]) {
      var p, q := products[i], products[j];
      assert ListedBefore(p, q) && p.id != q.id;
      Ordering.TextBeforeIsTotal(p.foldedName, q.foldedName);
    }
  }

  /** The new products are the listed ones absent from the baseline. */
  lemma NewMeansAbsentFromBaseline(products: seq<Product>, previous: Option<set<ProductId>>)
    ensures forall id :: id in NewProducts(products, previous) <==>
              previous.Some? && id !in previous.value && exists p :: p in products && p.id == id
  {
    if previous.Some? {
      var unseen := Filter(products, NotListed(previous.value));
      var ids := NewProducts(products, previous);
      forall id
        ensures id in ids <==> id !in previous.value && exists p :: p in products && p.id == id
      {
        if id in ids {
          var i :| 0 <= i < |ids| && ids[i] == id;
          assert unseen[i] in unseen;
        }
        if id !in previous.value && exists p :: p in products && p.id == id {
          var p :| p in products && p.id == id;
          assert p in unseen;
          var i :| 0 <= i < |unseen| && unseen[i] == p;
          assert ids[i] == id;
        }
      }
    }
  }

  // ---------- Freshness ----------

  predicate RecentlyObserved(observedAt: Timestamp, timestamp: Timestamp) {
    0 <= timestamp - observedAt <= HOUR
  }

  function StaleQualifying(minimum: real, timestamp: Timestamp): Snapshot -> bool {
    (s: Snapshot) => Qualifies(s.product, minimum) && !RecentlyObserved(s.timestamp, timestamp)
  }

  predicate OlderThan(a: Snapshot, b: Snapshot) {
    a.timestamp < b.timestamp || (a.timestamp == b.timestamp && a.product.id <= b.product.id)
  }

  function AgeOrder(): (Snapshot, Snapshot) -> bool {
    (a: Snapshot, b: Snapshot) => OlderThan(a, b)
  }

  /** The snapshots of the digest's products that are stale or dated in the future. */
  function Candidates(snapshots: seq<Snapshot>, minimum: real, timestamp: Timestamp): seq<Snapshot> {
    var listed := set p | p in DigestProducts(snapshots, minimum) :: p.id;
    Filter(snapshots, (s: Snapshot) => s.product.id in listed && !RecentlyObserved(s.timestamp, timestamp))
  }

  function SelectStale(snapshots: seq<Snapshot>, minimum: real, timestamp: Timestamp, limit: nat)
    : Result<seq<Snapshot>, DigestError>
  {
    if !UniqueProducts(snapshots) then Err(DuplicateSnapshots)
    else
      Ok(Ordering.Take(Ordering.Sort(AgeOrder(), Candidates(snapshots, minimum, timestamp)), limit))
  }

  lemma CandidatesAreStaleQualifying(snapshots: seq<Snapshot>, minimum: real, timestamp: Timestamp)
    requires UniqueProducts(snapshots)
    ensures Candidates(snapshots, minimum, timestamp) == Filter(snapshots, StaleQualifying(minimum, timestamp))
  {
    var products := DigestProducts(snapshots, minimum);
    var listed := set p | p in products :: p.id;
    DigestListsExactlyTheQualifying(snapshots, minimum);
    forall s | s in snapshots ensures s.product.id in listed <==> Qualifies(s.product, minimum) {
      if s.product.id in listed {
        var p :| p in products && p.id == s.product.id;
        var t :| t in snapshots && t.product == p && Qualifies(p, minimum);
        assert t == s;
      }
      if Qualifies(s.product, minimum) {
        assert s.product in products;
      }
    }
    FilterOfSame(
      snapshots,
      (s: Snapshot) => s.product.id in listed && !RecentlyObserved(s.timestamp, timestamp),
      StaleQualifying(minimum, timestamp));
  }

  /** The same, said of the fields. */
  lemma CandidatesShow(snapshots: seq<Snapshot>, minimum: real, timestamp: Timestamp)
    requires UniqueProducts(snapshots)
    ensures forall s :: s in Candidates(snapshots, minimum, timestamp) <==>
              && s in snapshots
              && s.product.available && s.product.originalPrice.Some? && s.product.discount >= minimum
              && (timestamp - s.timestamp > 3_600_000_000 || s.timestamp > timestamp)
  {
    CandidatesAreStaleQualifying(snapshots, minimum, timestamp);
  }

  /** The candidates, oldest first. */
  function OrderedStale(snapshots: seq<Snapshot>, minimum: real, timestamp: Timestamp): seq<Snapshot> {
    Ordering.Sort(AgeOrder(), Filter(snapshots, StaleQualifying(minimum, timestamp)))
  }

  lemma StaleAreOrdered(snapshots: seq<Snapshot>, minimum: real, timestamp: Timestamp)
    requires UniqueProducts(snapshots)
    ensures Ordering.SortedBy(AgeOrder(), OrderedStale(snapshots, minimum, timestamp))
    ensures NoDuplicates(OrderedStale(snapshots, minimum, timestamp))
    ensures forall s :: s in OrderedStale(snapshots, minimum, timestamp) <==>
              s in snapshots && StaleQualifying(minimum, timestamp)(s)
  {
    var stale := Filter(snapshots, StaleQualifying(minimum, timestamp));
    QualifyingKeepsUnique(snapshots, StaleQualifying(minimum, timestamp));
    Ordering.SortSorts(AgeOrder(), stale);
    Ordering.SortKeepsMembers(AgeOrder(), stale);
    Ordering.SortKeepsDistinct(AgeOrder(), stale);
  }

  /** The budget goes to the oldest: as many stale qualifying snapshots as the limit allows, in
  order and without repetition, and none left out precedes one chosen. */
  lemma SelectionIsOldestFirst(snapshots: seq<Snapshot>, minimum: real, timestamp: Timestamp, limit: nat)
    requires UniqueProducts(snapshots)
    ensures var stale := Filter(snapshots, StaleQualifying(minimum, timestamp));
      var r := SelectStale(snapshots, minimum, timestamp, limit);
      && r.Ok?
      && |r.value| == (if |stale| <= limit then |stale| else limit)
      && Ordering.SortedBy(AgeOrder(), r.value) && NoDuplicates(r.value)
      && (forall s :: s in r.value ==> s in snapshots && StaleQualifying(minimum, timestamp)(s))
      && (forall chosen, omitted ::
            chosen in r.value && omitted in snapshots && StaleQualifying(minimum, timestamp)(omitted)
            && omitted !in r.value ==>
              OlderThan(chosen, omitted))
  {
    CandidatesAreStaleQualifying(snapshots, minimum, timestamp);
    StaleAreOrdered(snapshots, minimum, timestamp);
    var ordered := OrderedStale(snapshots, minimum, timestamp);
    var taken := Ordering.Take(ordered, limit);
    Ordering.PrefixPrecedesRest(AgeOrder(), ordered, limit);
    assert forall i :: 0 <= i < |taken| ==> taken[i] == ordered[i];
    forall chosen, omitted
      | chosen in taken && omitted in ordered && omitted !in taken
      ensures OlderThan(chosen, omitted)
    {
      assert AgeOrder()(chosen, omitted);
    }
  }

  /** The same, said of the fields: a candidate left out while another is chosen was observed later, or at
  the same time with a larger identifier; and the chosen ones stand in that order. */
  lemma SelectionShows(snapshots: seq<Snapshot>, minimum: real, timestamp: Timestamp, limit: nat)
    requires UniqueProducts(snapshots)
    ensures var candidates := Candidates(snapshots, minimum, timestamp);
      var r := SelectStale(snapshots, minimum, timestamp, limit);
      && r.Ok? && |r.value| == (if |candidates| <= limit then |candidates| else limit)
      && (forall s :: s in r.value ==> s in candidates)
      && (forall i, j :: 0 <= i < j < |r.value| ==> ObservedBefore(r.value[i], r.value[j]))
      && (forall chosen, omitted :: chosen in r.value && omitted in candidates && omitted !in r.value ==>
            ObservedBefore(chosen, omitted))
  {
    SelectionIsOldestFirst(snapshots, minimum, timestamp, limit);
    CandidatesAreStaleQualifying(snapshots, minimum, timestamp);
    var chosen := SelectStale(snapshots, minimum, timestamp, limit).value;
    forall i, j | 0 <= i < j < |chosen| ensures ObservedBefore(chosen[i], chosen[j]) {
      assert AgeOrder()(chosen[i], chosen[j]);
      assert chosen[i] in snapshots && chosen[j] in snapshots && chosen[i] != chosen[j];
      DifferentProducts(snapshots, chosen[i], chosen[j]);
    }
    forall a, b | a in chosen && b in Candidates(snapshots, minimum, timestamp) && b !in chosen ensures ObservedBefore(a, b) {
      assert OlderThan(a, b);
      DifferentProducts(snapshots, a, b);
    }
  }

  ghost predicate ObservedBefore(a: Snapshot, b: Snapshot) {
    a.timestamp < b.timestamp || (a.timestamp == b.timestamp && a.product.id < b.product.id)
  }

  lemma DifferentProducts(snapshots: seq<Snapshot>, a: Snapshot, b: Snapshot)
    requires UniqueProducts(snapshots) && a in snapshots && b in snapshots && a != b
    ensures a.product.id != b.product.id
  {
  }
}
