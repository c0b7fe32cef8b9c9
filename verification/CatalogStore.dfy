/** The durable catalog and its refresh queue.

Attempts are ordered as instants. The program orders their ISO texts, which is the same for times in
UTC (`QueueOrdersTexts`) and not for times of different offsets (`IsoTime.MixedOffsetsDisagree`). */
module CatalogStore {
  import opened Domain
  import opened Sequences
  import Ordering
  import IsoTime

  datatype Reference = Reference(provider: ProviderId, externalId: string, url: Url)

  datatype Key = Key(provider: ProviderId, externalId: string)

  function KeyOf(reference: Reference): Key {
    Key(reference.provider, reference.externalId)
  }

  datatype Entry = Entry(
    sequence: nat,
    reference: Reference,
    firstSeen: Timestamp,
    lastSeen: Timestamp,
    lastAttempt: Option<Timestamp>)
  {
    function Key(): Key { KeyOf(reference) }
  }

  /** Rows in insertion order, and the AUTOINCREMENT counter. */
  datatype Catalog = Catalog(entries: seq<Entry>, next: nat)

  const EMPTY_CATALOG := Catalog([], 1)

  ghost predicate ValidCatalog(c: Catalog) {
    && (forall i, j :: 0 <= i < j < |c.entries| ==> c.entries[i].sequence < c.entries[j].sequence)
    && (forall i, j :: 0 <= i < j < |c.entries| ==> c.entries[i].Key() != c.entries[j].Key())
    && (forall e :: e in c.entries ==> e.sequence < c.next)
  }

  datatype CatalogError = DuplicateReferences | DiscoveryPrecedes | UnknownReference | AttemptPrecedes | StoreFails

  predicate UniqueKeys(references: seq<Reference>) {
    forall i, j :: 0 <= i < j < |references| ==> KeyOf(references[i]) != KeyOf(references[j])
  }

  function KeysOf(references: seq<Reference>): set<Key> {
    set r | r in references :: KeyOf(r)
  }

  // ---------- Discovery ----------

  function Find(entries: seq<Entry>, key: Key): Option<nat>
    ensures var r := Find(entries, key);
      if r.Some? then r.value < |entries| && entries[r.value].Key() == key
      else forall e :: e in entries ==> e.Key() != key
  {
    if entries == [] then None
    else if entries[|entries| - 1].Key() == key then Some(|entries| - 1)
    else Find(entries[..|entries| - 1], key)
  }

  /** One discovered reference: a new row, or a seen-again update of an old one. */
  function Discover(c: Catalog, reference: Reference, at: Timestamp): Result<Catalog, CatalogError> {
    match Find(c.entries, KeyOf(reference))
    case None => Ok(Catalog(c.entries + [Entry(c.next, reference, at, at, None)], c.next + 1))
    case Some(i) =>
      var e := c.entries[i];
      if at < e.lastSeen then Err(DiscoveryPrecedes)
      else Ok(c.(entries := c.entries[i := e.(reference := e.reference.(url := reference.url), lastSeen := at)]))
  }

  datatype Discovery = Discovery(catalog: Catalog, newReferences: seq<Reference>)

  function DiscoverAll(d: Discovery, references: seq<Reference>, at: Timestamp): Result<Discovery, CatalogError>
    decreases |references|
  {
    if references == [] then Ok(d)
    else
      match Discover(d.catalog, references[0], at)
      case Err(e) => Err(e)
      case Ok(catalog) =>
        var isNew := Find(d.catalog.entries, KeyOf(references[0])).None?;
        var found := if isNew then d.newReferences + [references[0]] else d.newReferences;
        DiscoverAll(Discovery(catalog, found), references[1..], at)
  }

  function RecordDiscovery(c: Catalog, references: seq<Reference>, at: Timestamp): Result<Discovery, CatalogError> {
    if !UniqueKeys(references) then Err(DuplicateReferences) else DiscoverAll(Discovery(c, []), references, at)
  }

  // ---------- The refresh queue ----------

  /** Never attempted first, then the oldest attempt, then the earliest row. */
  predicate Precedes(a: Entry, b: Entry) {
    if a.lastAttempt.None? then b.lastAttempt.Some? || a.sequence <= b.sequence
    else if b.lastAttempt.None? then false
    else
      a.lastAttempt.value < b.lastAttempt.value
      || (a.lastAttempt.value == b.lastAttempt.value && a.sequence <= b.sequence)
  }

  /** What ORDER BY compares are the texts; for attempts written in UTC this is the order above. */
  lemma QueueOrdersTexts(a: Entry, b: Entry, x: IsoTime.Moment, y: IsoTime.Moment)
    requires IsoTime.ValidMoment(x) && a.lastAttempt == Some(IsoTime.Instant(x, 0))
    requires IsoTime.ValidMoment(y) && b.lastAttempt == Some(IsoTime.Instant(y, 0))
    ensures var s, t := IsoTime.MomentText(x, 0), IsoTime.MomentText(y, 0);
      Precedes(a, b) <==> (s != t && Ordering.TextBefore(s, t)) || (s == t && a.sequence <= b.sequence)
  {
    IsoTime.TextOrderIsTimeOrder(x, y, 0);
    IsoTime.TextOrderIsTimeOrder(y, x, 0);
    Ordering.TextBeforeIsTotal(IsoTime.MomentText(x, 0), IsoTime.MomentText(y, 0));
  }

  function QueueOrder(): (Entry, Entry) -> bool {
    (a: Entry, b: Entry) => Precedes(a, b)
  }

  function OfProvider(provider: ProviderId): Entry -> bool {
    (e: Entry) => e.reference.provider == provider
  }

  function Queue(c: Catalog, provider: ProviderId): seq<Entry> {
    Ordering.Sort(QueueOrder(), Filter(c.entries, OfProvider(provider)))
  }

  function RefreshBatch(c: Catalog, provider: ProviderId, limit: nat): seq<Entry> {
    Ordering.Take(Queue(c, provider), limit)
  }

  function ReferencesOf(entries: seq<Entry>): seq<Reference> {
    Map(entries, (e: Entry) => e.reference)
  }

  // ---------- Recording attempts ----------

  function Attempt(c: Catalog, reference: Reference, at: Timestamp): Result<Catalog, CatalogError> {
    match Find(c.entries, KeyOf(reference))
    case None => Err(UnknownReference)
    case Some(i) =>
      var e := c.entries[i];
      if e.lastAttempt.Some? && at < e.lastAttempt.value then Err(AttemptPrecedes)
      else Ok(c.(entries := c.entries[i := e.(lastAttempt := Some(at))]))
  }

  function AttemptAll(c: Catalog, references: seq<Reference>, at: Timestamp): Result<Catalog, CatalogError>
    decreases |references|
  {
    if references == [] then Ok(c)
    else
      match Attempt(c, references[0], at)
      case Err(e) => Err(e)
      case Ok(next) => AttemptAll(next, references[1..], at)
  }

  function RecordAttempts(c: Catalog, references: seq<Reference>, at: Timestamp): Result<Catalog, CatalogError> {
    if !UniqueKeys(references) then Err(DuplicateReferences) else AttemptAll(c, references, at)
  }

  /** A reference is known by its provider and the provider's identifier, whatever its URL. */
  lemma KeysMean(a: Reference, b: Reference)
    ensures KeyOf(a) == KeyOf(b) <==> a.provider == b.provider && a.externalId == b.externalId
  {
  }

  // ---------- What discovery keeps ----------

  /** Old rows stay where they are in the queue; new rows come after them, unattempted. */
  ghost predicate Grown(a: Catalog, b: Catalog, count: nat) {
    && |b.entries| == |a.entries| + count && a.next <= b.next
    && (forall i :: 0 <= i < |a.entries| ==>
          && b.entries[i].sequence == a.entries[i].sequence
          && b.entries[i].Key() == a.entries[i].Key()
          && b.entries[i].firstSeen == a.entries[i].firstSeen
          && b.entries[i].lastAttempt == a.entries[i].lastAttempt)
    && (forall i :: |a.entries| <= i < |b.entries| ==>
          b.entries[i].sequence >= a.next && b.entries[i].lastAttempt.None?)
  }

  lemma FindIsUnique(c: Catalog, i: nat)
    requires ValidCatalog(c) && i < |c.entries|
    ensures Find(c.entries, c.entries[i].Key()) == Some(i)
  {
    var found := Find(c.entries, c.entries[i].Key());
    assert c.entries[i] in c.entries;
  }

  lemma InsertGrows(c: Catalog, e: Entry)
    requires ValidCatalog(c) && e.sequence == c.next && e.lastAttempt.None?
    requires forall x :: x in c.entries ==> x.Key() != e.Key()
    ensures ValidCatalog(Catalog(c.entries + [e], c.next + 1)) && Grown(c, Catalog(c.entries + [e], c.next + 1), 1)
  {
    var entries := c.entries + [e];
    forall i, j | 0 <= i < j < |entries|
      ensures entries[i].sequence < entries[j].sequence && entries[i].Key() != entries[j].Key()
    {
      assert c.entries[i] in c.entries;
    }
  }

  lemma UpdateGrows(c: Catalog, i: nat, e: Entry)
    requires ValidCatalog(c) && i < |c.entries|
    requires e.sequence == c.entries[i].sequence && e.Key() == c.entries[i].Key()
    requires e.firstSeen == c.entries[i].firstSeen && e.lastAttempt == c.entries[i].lastAttempt
    ensures ValidCatalog(c.(entries := c.entries[i := e])) && Grown(c, c.(entries := c.entries[i := e]), 0)
  {
    var entries := c.entries[i := e];
    forall x | x in entries ensures x.sequence < c.next {
      assert c.entries[i] in c.entries;
    }
  }

  lemma DiscoverGrows(c: Catalog, reference: Reference, at: Timestamp)
    requires ValidCatalog(c) && Discover(c, reference, at).Ok?
    ensures var b := Discover(c, reference, at).value;
      ValidCatalog(b) && Grown(c, b, if Find(c.entries, KeyOf(reference)).None? then 1 else 0)
  {
    match Find(c.entries, KeyOf(reference))
    case None => InsertGrows(c, Entry(c.next, reference, at, at, None));
    case Some(i) =>
      var e := c.entries[i];
      UpdateGrows(c, i, e.(reference := e.reference.(url := reference.url), lastSeen := at));
  }

  lemma GrownTransitive(a: Catalog, b: Catalog, c: Catalog, m: nat, n: nat)
    requires Grown(a, b, m) && Grown(b, c, n)
    ensures Grown(a, c, m + n)
  {
  }

  lemma {:induction false} DiscoveryGrows(d: Discovery, references: seq<Reference>, at: Timestamp)
    requires ValidCatalog(d.catalog) && DiscoverAll(d, references, at).Ok?
    ensures var r := DiscoverAll(d, references, at).value;
      && ValidCatalog(r.catalog) && |d.newReferences| <= |r.newReferences|
      && Grown(d.catalog, r.catalog, |r.newReferences| - |d.newReferences|)
    decreases |references|
  {
    if references != [] {
      var catalog := Discover(d.catalog, references[0], at).value;
      var isNew := Find(d.catalog.entries, KeyOf(references[0])).None?;
      var found := if isNew then d.newReferences + [references[0]] else d.newReferences;
      DiscoverGrows(d.catalog, references[0], at);
      DiscoveryGrows(Discovery(catalog, found), references[1..], at);
      var r := DiscoverAll(d, references, at).value;
      GrownTransitive(d.catalog, catalog, r.catalog, if isNew then 1 else 0, |r.newReferences| - |found|);
    }
  }

  /** Recording a discovery keeps the table valid and leaves every old row's place in the queue; as many
  rows follow as new references are reported. */
  lemma DiscoveryKeepsQueue(c: Catalog, references: seq<Reference>, at: Timestamp)
    requires ValidCatalog(c) && RecordDiscovery(c, references, at).Ok?
    ensures var r := RecordDiscovery(c, references, at).value;
      ValidCatalog(r.catalog) && Grown(c, r.catalog, |r.newReferences|)
  {
    DiscoveryGrows(Discovery(c, []), references, at);
  }

  // ---------- What discovery records ----------

  /** The URL the references give a key. */
  function SeenUrl(references: seq<Reference>, key: Key): Option<Url> {
    if references == [] then None
    else if KeyOf(references[0]) == key then Some(references[0].url)
    else SeenUrl(references[1..], key)
  }

  /** A row of a seen key gets the reference's URL and the time; any other row is left alone. */
  function SeenAgain(references: seq<Reference>, at: Timestamp): Entry -> Entry {
    (e: Entry) =>
      match SeenUrl(references, e.Key())
      case None => e
      case Some(url) => e.(reference := e.reference.(url := url), lastSeen := at)
  }

  /** The references whose keys have no row yet, in the order given. */
  function Unknown(entries: seq<Entry>, references: seq<Reference>): seq<Reference> {
    if references == [] then []
    else
      (if Find(entries, KeyOf(references[0])).None? then [references[0]] else []) + Unknown(entries, references[1..])
  }

  function NewRows(references: seq<Reference>, next: nat, at: Timestamp): seq<Entry> {
    seq(|references|, k requires 0 <= k < |references| => Entry(next + k, references[k], at, at, None))
  }

  function Recorded(c: Catalog, references: seq<Reference>, at: Timestamp): Catalog {
    var unknown := Unknown(c.entries, references);
    Catalog(Map(c.entries, SeenAgain(references, at)) + NewRows(unknown, c.next, at), c.next + |unknown|)
  }

  lemma {:induction false} UnseenKey(references: seq<Reference>, key: Key)
    requires forall r :: r in references ==> KeyOf(r) != key
    ensures SeenUrl(references, key) == None
  {
    if references != [] {
      UnseenKey(references[1..], key);
    }
  }

  lemma {:induction false} SameKeysSameUnknown(a: seq<Entry>, b: seq<Entry>, references: seq<Reference>)
    requires forall r :: r in references ==> Find(a, KeyOf(r)).None? == Find(b, KeyOf(r)).None?
    ensures Unknown(a, references) == Unknown(b, references)
  {
    if references != [] {
      SameKeysSameUnknown(a, b, references[1..]);
    }
  }

  lemma {:induction false} RestHasOtherKeys(references: seq<Reference>)
    requires UniqueKeys(references) && references != []
    ensures UniqueKeys(references[1..])
    ensures forall r :: r in references[1..] ==> KeyOf(r) != KeyOf(references[0])
    ensures SeenUrl(references[1..], KeyOf(references[0])) == None
  {
    forall r | r in references[1..] ensures KeyOf(r) != KeyOf(references[0]) {
      var i :| 0 <= i < |references| - 1 && references[1..][i] == r;
    }
    UnseenKey(references[1..], KeyOf(references[0]));
  }

  function NewRow(c: Catalog, reference: Reference, at: Timestamp): Entry {
    Entry(c.next, reference, at, at, None)
  }

  function SeenRow(e: Entry, reference: Reference, at: Timestamp): Entry {
    e.(reference := e.reference.(url := reference.url), lastSeen := at)
  }

  lemma {:induction false} SeenAfterInsert(c: Catalog, references: seq<Reference>, at: Timestamp)
    requires UniqueKeys(references) && references != [] && Find(c.entries, KeyOf(references[0])).None?
    ensures Map(c.entries + [NewRow(c, references[0], at)], SeenAgain(references[1..], at))
         == Map(c.entries, SeenAgain(references, at)) + [NewRow(c, references[0], at)]
  {
    RestHasOtherKeys(references);
    forall k | 0 <= k < |c.entries|
      ensures SeenAgain(references, at)(c.entries[k]) == SeenAgain(references[1..], at)(c.entries[k])
    {
      assert c.entries[k] in c.entries;
    }
  }

  lemma {:induction false} UnknownAfterInsert(c: Catalog, references: seq<Reference>, at: Timestamp)
    requires UniqueKeys(references) && references != [] && Find(c.entries, KeyOf(references[0])).None?
    ensures Unknown(c.entries, references)
         == [references[0]] + Unknown(c.entries + [NewRow(c, references[0], at)], references[1..])
  {
    var entries := c.entries + [NewRow(c, references[0], at)];
    RestHasOtherKeys(references);
    assert entries[..|c.entries|] == c.entries;
    SameKeysSameUnknown(c.entries, entries, references[1..]);
  }

  lemma NewRowsFirst(first: Reference, rest: seq<Reference>, next: nat, at: Timestamp)
    ensures NewRows([first] + rest, next, at) == [Entry(next, first, at, at, None)] + NewRows(rest, next + 1, at)
  {
  }

  lemma RowsThenRest(a: seq<Entry>, one: Entry, rest: seq<Entry>)
    ensures a + [one] + rest == a + ([one] + rest)
  {
  }

  lemma {:induction false} InsertRecords(c: Catalog, references: seq<Reference>, at: Timestamp)
    requires UniqueKeys(references) && references != [] && Find(c.entries, KeyOf(references[0])).None?
    ensures Recorded(Catalog(c.entries + [NewRow(c, references[0], at)], c.next + 1), references[1..], at)
         == Recorded(c, references, at)
  {
    var e := NewRow(c, references[0], at);
    var unknown := Unknown(c.entries + [e], references[1..]);
    SeenAfterInsert(c, references, at);
    UnknownAfterInsert(c, references, at);
    NewRowsFirst(references[0], unknown, c.next, at);
    RowsThenRest(Map(c.entries, SeenAgain(references, at)), e, NewRows(unknown, c.next + 1, at));
  }

  lemma {:induction false} SeenAfterUpdate(c: Catalog, references: seq<Reference>, at: Timestamp, i: nat)
    requires ValidCatalog(c) && UniqueKeys(references) && references != [] && i < |c.entries|
    requires c.entries[i].Key() == KeyOf(references[0])
    ensures Map(c.entries[i := SeenRow(c.entries[i], references[0], at)], SeenAgain(references[1..], at))
         == Map(c.entries, SeenAgain(references, at))
  {
    var entries := c.entries[i := SeenRow(c.entries[i], references[0], at)];
    RestHasOtherKeys(references);
    forall j | 0 <= j < |entries|
      ensures SeenAgain(references[1..], at)(entries[j]) == SeenAgain(references, at)(c.entries[j])
    {
      if j != i { assert c.entries[j].Key() != c.entries[i].Key(); }
    }
  }

  lemma {:induction false} UnknownAfterUpdate(c: Catalog, references: seq<Reference>, at: Timestamp, i: nat)
    requires ValidCatalog(c) && references != [] && i < |c.entries|
    requires c.entries[i].Key() == KeyOf(references[0])
    ensures Unknown(c.entries, references)
         == Unknown(c.entries[i := SeenRow(c.entries[i], references[0], at)], references[1..])
  {
    var entries := c.entries[i := SeenRow(c.entries[i], references[0], at)];
    FindIsUnique(c, i);
    forall r ensures Find(c.entries, KeyOf(r)) == Find(entries, KeyOf(r)) {
      KeysStay(c.entries, entries, KeyOf(r));
    }
    SameKeysSameUnknown(c.entries, entries, references[1..]);
  }

  lemma {:induction false} KeysStay(a: seq<Entry>, b: seq<Entry>, key: Key)
    requires |a| == |b| && forall i :: 0 <= i < |a| ==> a[i].Key() == b[i].Key()
    ensures Find(a, key) == Find(b, key)
  {
    if a != [] {
      KeysStay(a[..|a| - 1], b[..|b| - 1], key);
    }
  }

  lemma {:induction false} DiscoveringRecords(d: Discovery, references: seq<Reference>, at: Timestamp)
    requires ValidCatalog(d.catalog) && UniqueKeys(references) && DiscoverAll(d, references, at).Ok?
    ensures DiscoverAll(d, references, at).value.catalog == Recorded(d.catalog, references, at)
    ensures DiscoverAll(d, references, at).value.newReferences
         == d.newReferences + Unknown(d.catalog.entries, references)
    decreases |references|, 1
  {
    var c := d.catalog;
    if references == [] {
      assert Map(c.entries, SeenAgain([], at)) == c.entries;
    } else {
      RestHasOtherKeys(references);
      DiscoverGrows(c, references[0], at);
      match Find(c.entries, KeyOf(references[0]))
      case None => DiscoveringNew(d, references, at);
      case Some(i) => DiscoveringKnown(d, references, at, i);
    }
  }

  lemma DiscoverStep(d: Discovery, references: seq<Reference>, at: Timestamp)
    requires ValidCatalog(d.catalog) && references != [] && Find(d.catalog.entries, KeyOf(references[0])).None?
    ensures var c := d.catalog;
      var next := Catalog(c.entries + [NewRow(c, references[0], at)], c.next + 1);
      && DiscoverAll(d, references, at) == DiscoverAll(Discovery(next, d.newReferences + [references[0]]), references[1..], at)
      && ValidCatalog(next)
  {
    var c := d.catalog;
    InsertGrows(c, NewRow(c, references[0], at));
    assert Discover(c, references[0], at) == Ok(Catalog(c.entries + [NewRow(c, references[0], at)], c.next + 1));
  }

  lemma OneThenRest(a: seq<Reference>, one: Reference, rest: seq<Reference>)
    ensures a + [one] + rest == a + ([one] + rest)
  {
  }

  lemma {:induction false} DiscoveringNew(d: Discovery, references: seq<Reference>, at: Timestamp)
    requires ValidCatalog(d.catalog) && UniqueKeys(references) && DiscoverAll(d, references, at).Ok?
    requires references != [] && Find(d.catalog.entries, KeyOf(references[0])).None?
    ensures DiscoverAll(d, references, at).value.catalog == Recorded(d.catalog, references, at)
    ensures DiscoverAll(d, references, at).value.newReferences
         == d.newReferences + Unknown(d.catalog.entries, references)
    decreases |references|, 0
  {
    var c := d.catalog;
    var next := Catalog(c.entries + [NewRow(c, references[0], at)], c.next + 1);
    var found := d.newReferences + [references[0]];
    DiscoverStep(d, references, at);
    RestHasOtherKeys(references);
    DiscoveringRecords(Discovery(next, found), references[1..], at);
    InsertRecords(c, references, at);
    UnknownAfterInsert(c, references, at);
    OneThenRest(d.newReferences, references[0], Unknown(next.entries, references[1..]));
  }

  lemma {:induction false} DiscoveringKnown(d: Discovery, references: seq<Reference>, at: Timestamp, i: nat)
    requires ValidCatalog(d.catalog) && UniqueKeys(references) && DiscoverAll(d, references, at).Ok?
    requires references != [] && Find(d.catalog.entries, KeyOf(references[0])) == Some(i)
    ensures DiscoverAll(d, references, at).value.catalog == Recorded(d.catalog, references, at)
    ensures DiscoverAll(d, references, at).value.newReferences
         == d.newReferences + Unknown(d.catalog.entries, references)
    decreases |references|, 0
  {
    var c := d.catalog;
    var next := c.(entries := c.entries[i := SeenRow(c.entries[i], references[0], at)]);
    assert Discover(c, references[0], at) == Ok(next);
    DiscoverGrows(c, references[0], at);
    RestHasOtherKeys(references);
    SeenAfterUpdate(c, references, at, i);
    UnknownAfterUpdate(c, references, at, i);
    DiscoveringRecords(Discovery(next, d.newReferences), references[1..], at);
  }

  /** A recorded discovery leaves exactly this table: known rows with the new URL and time, the others as
  they were, and behind them one unattempted row for each reported new reference, in order. */
  lemma DiscoveryRecordsExactly(c: Catalog, references: seq<Reference>, at: Timestamp)
    requires ValidCatalog(c) && RecordDiscovery(c, references, at).Ok?
    ensures RecordDiscovery(c, references, at).value
         == Discovery(Recorded(c, references, at), Unknown(c.entries, references))
  {
    DiscoveringRecords(Discovery(c, []), references, at);
  }

  lemma {:induction false} SeenUrlOf(references: seq<Reference>, r: Reference)
    requires UniqueKeys(references) && r in references
    ensures SeenUrl(references, KeyOf(r)) == Some(r.url)
  {
    if references[0] != r {
      RestHasOtherKeys(references);
      SeenUrlOf(references[1..], r);
    }
  }

  lemma {:induction false} UnknownMembers(entries: seq<Entry>, references: seq<Reference>)
    ensures forall r :: r in Unknown(entries, references) <==> r in references && forall e :: e in entries ==> e.Key() != KeyOf(r)
  {
    if references != [] {
      UnknownMembers(entries, references[1..]);
      assert references == [references[0]] + references[1..];
      var found := Find(entries, KeyOf(references[0]));
      if found.Some? { assert entries[found.value] in entries; }
    }
  }

  lemma KnownRows(c: Catalog, references: seq<Reference>, at: Timestamp)
    requires UniqueKeys(references)
    ensures forall i, r :: 0 <= i < |c.entries| && r in references && KeyOf(r) == c.entries[i].Key() ==>
              SeenAgain(references, at)(c.entries[i]) == c.entries[i].(reference := r, lastSeen := at)
    ensures forall i :: 0 <= i < |c.entries| && c.entries[i].Key() !in KeysOf(references) ==>
              SeenAgain(references, at)(c.entries[i]) == c.entries[i]
  {
    forall i, r | 0 <= i < |c.entries| && r in references && KeyOf(r) == c.entries[i].Key()
      ensures SeenAgain(references, at)(c.entries[i]) == c.entries[i].(reference := r, lastSeen := at)
    {
      SeenUrlOf(references, r);
    }
    forall i | 0 <= i < |c.entries| && c.entries[i].Key() !in KeysOf(references)
      ensures SeenAgain(references, at)(c.entries[i]) == c.entries[i]
    {
      UnseenKey(references, c.entries[i].Key());
    }
  }

  lemma RecordedRows(c: Catalog, references: seq<Reference>, at: Timestamp)
    ensures var rows, unknown := Recorded(c, references, at).entries, Unknown(c.entries, references);
      && |rows| == |c.entries| + |unknown|
      && (forall i :: 0 <= i < |c.entries| ==> rows[i] == SeenAgain(references, at)(c.entries[i]))
      && (forall k :: 0 <= k < |unknown| ==> rows[|c.entries| + k] == Entry(c.next + k, unknown[k], at, at, None))
  {
    var seen := Map(c.entries, SeenAgain(references, at));
    var added := NewRows(Unknown(c.entries, references), c.next, at);
    assert Recorded(c, references, at).entries == seen + added;
  }

  /** Row by row: a reported row takes the reference as it is reported now and the time; an unreported one
  stays as it was; and a new row says of its reference that it was first and last seen now, unattempted. */
  lemma DiscoveryRowByRow(c: Catalog, references: seq<Reference>, at: Timestamp)
    requires ValidCatalog(c) && RecordDiscovery(c, references, at).Ok?
    ensures var d := RecordDiscovery(c, references, at).value;
      var rows, known := d.catalog.entries, |c.entries|;
      && |rows| == known + |d.newReferences|
      && (forall i, r :: 0 <= i < known && r in references && KeyOf(r) == c.entries[i].Key() ==>
            rows[i] == c.entries[i].(reference := r, lastSeen := at))
      && (forall i :: 0 <= i < known && c.entries[i].Key() !in KeysOf(references) ==> rows[i] == c.entries[i])
      && (forall k :: 0 <= k < |d.newReferences| ==>
            rows[known + k] == Entry(c.next + k, d.newReferences[k], at, at, None))
      && (forall r :: r in d.newReferences <==> r in references && forall e :: e in c.entries ==> e.Key() != KeyOf(r))
  {
    DiscoveryRecordsExactly(c, references, at);
    UnknownMembers(c.entries, references);
    KnownRows(c, references, at);
    RecordedRows(c, references, at);
  }

  // ---------- What is refused ----------

  /** No row that is reported again was seen later than now. */
  ghost predicate SeenBy(entries: seq<Entry>, references: seq<Reference>, at: Timestamp) {
    forall e :: e in entries && e.Key() in KeysOf(references) ==> e.lastSeen <= at
  }

  lemma SeenByAfterOne(c: Catalog, references: seq<Reference>, at: Timestamp)
    requires ValidCatalog(c) && UniqueKeys(references) && references != [] && Discover(c, references[0], at).Ok?
    ensures SeenBy(Discover(c, references[0], at).value.entries, references[1..], at) <==> SeenBy(c.entries, references[1..], at)
  {
    RestHasOtherKeys(references);
    var next := Discover(c, references[0], at).value.entries;
    forall i | 0 <= i < |c.entries| && c.entries[i].Key() in KeysOf(references[1..]) ensures next[i] == c.entries[i] {
      var r :| r in references[1..] && KeyOf(r) == c.entries[i].Key();
    }
    assert SeenBy(next, references[1..], at) ==> SeenBy(c.entries, references[1..], at) by {
      forall i | 0 <= i < |c.entries| && c.entries[i].Key() in KeysOf(references[1..])
        ensures SeenBy(next, references[1..], at) ==> c.entries[i].lastSeen <= at
      {
        assert next[i] in next;
      }
    }
    forall e | e in next && e.Key() in KeysOf(references[1..]) ensures e in c.entries {
      var r :| r in references[1..] && KeyOf(r) == e.Key();
      var i :| 0 <= i < |next| && next[i] == e;
      assert i < |c.entries|;
      assert next[i].Key() == c.entries[i].Key();
    }
  }

  lemma SeenByFirst(c: Catalog, references: seq<Reference>, at: Timestamp)
    requires ValidCatalog(c) && references != []
    ensures SeenBy(c.entries, references, at) <==>
            Discover(c, references[0], at).Ok? && SeenBy(c.entries, references[1..], at)
  {
    KeysOfCons(references);
    var found := Find(c.entries, KeyOf(references[0]));
    if found.Some? {
      assert c.entries[found.value] in c.entries;
      forall e | e in c.entries && e.Key() == KeyOf(references[0]) ensures e == c.entries[found.value] {
        var i :| 0 <= i < |c.entries| && c.entries[i] == e;
        FindIsUnique(c, i);
      }
    }
  }

  lemma {:induction false} DiscoveringAccepts(d: Discovery, references: seq<Reference>, at: Timestamp)
    requires ValidCatalog(d.catalog) && UniqueKeys(references)
    ensures DiscoverAll(d, references, at).Ok? <==> SeenBy(d.catalog.entries, references, at)
    decreases |references|
  {
    if references != [] {
      SeenByFirst(d.catalog, references, at);
      var next := Discover(d.catalog, references[0], at);
      if next.Ok? {
        var isNew := Find(d.catalog.entries, KeyOf(references[0])).None?;
        var found := if isNew then d.newReferences + [references[0]] else d.newReferences;
        RestHasOtherKeys(references);
        DiscoverGrows(d.catalog, references[0], at);
        SeenByAfterOne(d.catalog, references, at);
        DiscoveringAccepts(Discovery(next.value, found), references[1..], at);
      }
    }
  }

  /** A discovery is refused exactly for two references of one key, or a row last seen later than now. */
  lemma DiscoveryAccepts(c: Catalog, references: seq<Reference>, at: Timestamp)
    requires ValidCatalog(c)
    ensures RecordDiscovery(c, references, at).Ok? <==>
            && (forall i, j :: 0 <= i < j < |references| ==> KeyOf(references[i]) != KeyOf(references[j]))
            && (forall e, r :: e in c.entries && r in references && KeyOf(r) == e.Key() ==> e.lastSeen <= at)
  {
    if UniqueKeys(references) {
      DiscoveringAccepts(Discovery(c, []), references, at);
      assert SeenBy(c.entries, references, at) <==>
          forall e, r :: e in c.entries && r in references && KeyOf(r) == e.Key() ==> e.lastSeen <= at;
    }
  }

  // ---------- What attempts change ----------

  function Attempted(keys: set<Key>, at: Timestamp): Entry -> Entry {
    (e: Entry) => if e.Key() in keys then e.(lastAttempt := Some(at)) else e
  }

  lemma AttemptOne(c: Catalog, reference: Reference, at: Timestamp)
    requires ValidCatalog(c) && Attempt(c, reference, at).Ok?
    ensures var b := Attempt(c, reference, at).value;
      b.entries == Map(c.entries, Attempted({KeyOf(reference)}, at)) && b.next == c.next
  {
    var i := Find(c.entries, KeyOf(reference)).value;
    forall j | 0 <= j < |c.entries| && j != i ensures c.entries[j].Key() != KeyOf(reference) {
      FindIsUnique(c, j);
    }
  }

  lemma ValidBySequence(c: Catalog, b: Catalog)
    requires ValidCatalog(c) && |b.entries| == |c.entries| && b.next == c.next
    requires forall i :: 0 <= i < |c.entries| ==>
               b.entries[i].sequence == c.entries[i].sequence && b.entries[i].Key() == c.entries[i].Key()
    ensures ValidCatalog(b)
  {
    forall e | e in b.entries ensures e.sequence < b.next {
      var i :| 0 <= i < |b.entries| && b.entries[i] == e;
      assert c.entries[i] in c.entries;
    }
    forall i, j | 0 <= i < j < |b.entries|
      ensures b.entries[i].sequence < b.entries[j].sequence && b.entries[i].Key() != b.entries[j].Key()
    {
      assert c.entries[i].sequence < c.entries[j].sequence && c.entries[i].Key() != c.entries[j].Key();
    }
  }

  lemma AttemptKeepsValid(c: Catalog, keys: set<Key>, at: Timestamp)
    requires ValidCatalog(c)
    ensures ValidCatalog(c.(entries := Map(c.entries, Attempted(keys, at))))
  {
    ValidBySequence(c, c.(entries := Map(c.entries, Attempted(keys, at))));
  }

  lemma StampTwice(entries: seq<Entry>, first: set<Key>, second: set<Key>, at: Timestamp)
    ensures Map(Map(entries, Attempted(first, at)), Attempted(second, at)) == Map(entries, Attempted(first + second, at))
  {
  }

  lemma KeysOfCons(references: seq<Reference>)
    requires references != []
    ensures KeysOf(references) == {KeyOf(references[0])} + KeysOf(references[1..])
  {
    assert references == [references[0]] + references[1..];
  }

  /** A recorded batch stamps exactly its own rows. */
  lemma {:induction false} AttemptsStampTheBatch(c: Catalog, references: seq<Reference>, at: Timestamp)
    requires ValidCatalog(c) && AttemptAll(c, references, at).Ok?
    ensures var b := AttemptAll(c, references, at).value;
      && ValidCatalog(b) && b.next == c.next
      && b.entries == Map(c.entries, Attempted(KeysOf(references), at))
    decreases |references|
  {
    if references == [] {
      assert Map(c.entries, Attempted({}, at)) == c.entries;
    } else {
      var one := {KeyOf(references[0])};
      AttemptOne(c, references[0], at);
      AttemptKeepsValid(c, one, at);
      AttemptsStampTheBatch(Attempt(c, references[0], at).value, references[1..], at);
      StampTwice(c.entries, one, KeysOf(references[1..]), at);
      KeysOfCons(references);
    }
  }

  /** A row of the key that was not attempted later than now. */
  ghost predicate Attemptable(entries: seq<Entry>, key: Key, at: Timestamp) {
    exists e :: e in entries && e.Key() == key && (e.lastAttempt.Some? ==> e.lastAttempt.value <= at)
  }

  /** Every reference has such a row. */
  ghost predicate AttemptedBy(entries: seq<Entry>, references: seq<Reference>, at: Timestamp) {
    forall r :: r in references ==> Attemptable(entries, KeyOf(r), at)
  }

  lemma AttemptedOne(c: Catalog, reference: Reference, at: Timestamp)
    requires ValidCatalog(c)
    ensures Attempt(c, reference, at).Ok? <==> AttemptedBy(c.entries, [reference], at)
  {
    var found := Find(c.entries, KeyOf(reference));
    if found.Some? {
      assert c.entries[found.value] in c.entries;
      forall e | e in c.entries && e.Key() == KeyOf(reference) ensures e == c.entries[found.value] {
        var i :| 0 <= i < |c.entries| && c.entries[i] == e;
        FindIsUnique(c, i);
      }
    }
    assert reference in [reference];
  }

  lemma AttemptedByRest(c: Catalog, references: seq<Reference>, at: Timestamp)
    requires ValidCatalog(c) && references != [] && Attempt(c, references[0], at).Ok?
    ensures AttemptedBy(Attempt(c, references[0], at).value.entries, references[1..], at) <==>
            AttemptedBy(c.entries, references[1..], at)
  {
    var next := Attempt(c, references[0], at).value;
    forall r | r in references[1..]
      ensures Attemptable(next.entries, KeyOf(r), at) <==> Attemptable(c.entries, KeyOf(r), at)
    {
      if Attemptable(c.entries, KeyOf(r), at) {
        StillAttemptable(c, references[0], KeyOf(r), at);
      }
      if Attemptable(next.entries, KeyOf(r), at) {
        WasAttemptable(c, references[0], KeyOf(r), at);
      }
    }
  }

  lemma StillAttemptable(c: Catalog, first: Reference, key: Key, at: Timestamp)
    requires ValidCatalog(c) && Attempt(c, first, at).Ok? && Attemptable(c.entries, key, at)
    ensures Attemptable(Attempt(c, first, at).value.entries, key, at)
  {
    var next := Attempt(c, first, at).value;
    AttemptOne(c, first, at);
    var e :| e in c.entries && e.Key() == key && (e.lastAttempt.Some? ==> e.lastAttempt.value <= at);
    var i :| 0 <= i < |c.entries| && c.entries[i] == e;
    assert next.entries[i] in next.entries;
  }

  lemma WasAttemptable(c: Catalog, first: Reference, key: Key, at: Timestamp)
    requires ValidCatalog(c) && Attempt(c, first, at).Ok? && Attemptable(Attempt(c, first, at).value.entries, key, at)
    ensures Attemptable(c.entries, key, at)
  {
    var next := Attempt(c, first, at).value;
    AttemptOne(c, first, at);
    var e :| e in next.entries && e.Key() == key && (e.lastAttempt.Some? ==> e.lastAttempt.value <= at);
    var i :| 0 <= i < |next.entries| && next.entries[i] == e;
    assert c.entries[i] in c.entries && c.entries[i].Key() == key;
    if KeyOf(first) == key {
      FindIsUnique(c, i);
    }
  }

  lemma {:induction false} AttemptingAccepts(c: Catalog, references: seq<Reference>, at: Timestamp)
    requires ValidCatalog(c)
    ensures AttemptAll(c, references, at).Ok? <==> AttemptedBy(c.entries, references, at)
    decreases |references|
  {
    if references != [] {
      assert references == [references[0]] + references[1..];
      AttemptedOne(c, references[0], at);
      assert AttemptedBy(c.entries, references, at) <==>
          AttemptedBy(c.entries, [references[0]], at) && AttemptedBy(c.entries, references[1..], at);
      if Attempt(c, references[0], at).Ok? {
        AttemptOne(c, references[0], at);
        AttemptKeepsValid(c, {KeyOf(references[0])}, at);
        AttemptedByRest(c, references, at);
        AttemptingAccepts(Attempt(c, references[0], at).value, references[1..], at);
      }
    }
  }

  /** A batch is refused exactly for two references of one key, a reference without a row, or a row
  attempted later than now. */
  lemma AttemptsAccept(c: Catalog, references: seq<Reference>, at: Timestamp)
    requires ValidCatalog(c)
    ensures RecordAttempts(c, references, at).Ok? <==>
            && (forall i, j :: 0 <= i < j < |references| ==> KeyOf(references[i]) != KeyOf(references[j]))
            && (forall r :: r in references ==>
                  exists e :: e in c.entries && e.Key() == KeyOf(r) && (e.lastAttempt.Some? ==> e.lastAttempt.value <= at))
  {
    AttemptingAccepts(c, references, at);
    assert AttemptedBy(c.entries, references, at) <==> forall r :: r in references ==> Attemptable(c.entries, KeyOf(r), at);
  }

  // ---------- The store ----------

  class SqliteCatalogStore {
    var catalog: Catalog

    constructor ()
      ensures catalog == EMPTY_CATALOG
    {
      catalog := EMPTY_CATALOG;
    }

    /** One transaction. A refused discovery leaves the table as it was, a failing store either that or,
    if it fails after the commit, the recorded table. */
    method Record(references: seq<Reference>, at: Timestamp, ending: Ending)
      returns (r: Result<seq<Reference>, CatalogError>)
      modifies this
      ensures match RecordDiscovery(old(catalog), references, at)
              case Ok(d) =>
                && r == (if ending.Returns? then Ok(d.newReferences) else Err(StoreFails))
                && catalog == if ending.Commits() then d.catalog else old(catalog)
              case Err(e) => r == Err(e) && catalog == old(catalog)
    {
      if !UniqueKeys(references) {
        return Err(DuplicateReferences);
      }
      var rows := catalog;
      var newReferences: seq<Reference> := [];
      for i := 0 to |references|
        invariant RecordDiscovery(catalog, references, at)
               == DiscoverAll(Discovery(rows, newReferences), references[i..], at)
      {
        assert references[i..][0] == references[i] && references[i..][1..] == references[i + 1..];
        var existing := Find(rows.entries, KeyOf(references[i]));
        if existing.None? {
          rows := Catalog(rows.entries + [Entry(rows.next, references[i], at, at, None)], rows.next + 1);
          newReferences := newReferences + [references[i]];
          continue;
        }
        var e := rows.entries[existing.value];
        if at < e.lastSeen {
          return Err(DiscoveryPrecedes);
        }
        rows := rows.(entries :=
          rows.entries[existing.value := e.(reference := e.reference.(url := references[i].url), lastSeen := at)]);
      }
      if ending.Commits() {
        catalog := rows;
      }
      r := if ending.Returns? then Ok(newReferences) else Err(StoreFails);
    }

    function ListRefreshBatch(provider: ProviderId, limit: nat): seq<Reference>
      reads this
    {
      ReferencesOf(RefreshBatch(catalog, provider, limit))
    }

    /** One transaction, with the same errors. */
    method RecordRefreshAttempt(references: seq<Reference>, at: Timestamp, ending: Ending)
      returns (error: Option<CatalogError>)
      modifies this
      ensures match RecordAttempts(old(catalog), references, at)
              case Ok(c) =>
                && error == (if ending.Returns? then None else Some(StoreFails))
                && catalog == if ending.Commits() then c else old(catalog)
              case Err(e) => error == Some(e) && catalog == old(catalog)
    {
      if !UniqueKeys(references) {
        return Some(DuplicateReferences);
      }
      var rows := catalog;
      for i := 0 to |references|
        invariant RecordAttempts(catalog, references, at) == AttemptAll(rows, references[i..], at)
      {
        assert references[i..][0] == references[i] && references[i..][1..] == references[i + 1..];
        var existing := Find(rows.entries, KeyOf(references[i]));
        if existing.None? {
          return Some(UnknownReference);
        }
        var e := rows.entries[existing.value];
        if e.lastAttempt.Some? && at < e.lastAttempt.value {
          return Some(AttemptPrecedes);
        }
        rows := rows.(entries := rows.entries[existing.value := e.(lastAttempt := Some(at))]);
      }
      if ending.Commits() {
        catalog := rows;
      }
      error := if ending.Returns? then None else Some(StoreFails);
    }
  }
}
