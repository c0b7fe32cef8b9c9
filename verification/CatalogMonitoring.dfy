/** The catalog cycle, and how long a reference can wait for its turn. */
module CatalogMonitoring {
  import opened Domain
  import opened Sequences
  import opened CatalogStore
  import Ordering

  datatype Discovered = NotAsked | CatalogFails | Found(references: seq<Reference>)

  /** `synchronizes` tells whether the batch synchronizer returned; otherwise it raised. The endings are
  those of the two writing calls. */
  datatype CycleInput = CycleInput(
    timestamp: Timestamp,
    discovered: Discovered,
    recording: Ending,
    synchronizes: bool,
    stamping: Ending)

  /** The catalog as the batch was selected from it, the references inserted, the batch, whether the
  attempt was committed, and whether the cycle ran to its end. */
  datatype CycleOutcome = CycleOutcome(
    selectedFrom: Catalog,
    catalog: Catalog,
    newReferences: seq<Reference>,
    batch: seq<Entry>,
    attempted: bool,
    completed: bool)

  function AfterDiscovery(c: Catalog, input: CycleInput): Result<Discovery, CatalogError> {
    match input.discovered
    case NotAsked => Ok(Discovery(c, []))
    case CatalogFails => Ok(Discovery(c, []))
    case Found(references) => RecordDiscovery(c, references, input.timestamp)
  }

  predicate RecordingRaises(input: CycleInput) {
    input.discovered.Found? && !input.recording.Returns?
  }

  function RunCycle(provider: ProviderId, batchSize: nat, c: Catalog, input: CycleInput): CycleOutcome {
    match AfterDiscovery(c, input)
    case Err(_) => CycleOutcome(c, c, [], [], false, false)
    case Ok(d) =>
      if !RecordingRaises(input) then RefreshFrom(provider, batchSize, d, input)
      else if input.recording.Commits() then CycleOutcome(d.catalog, d.catalog, d.newReferences, [], false, false)
      else CycleOutcome(c, c, [], [], false, false)
  }

  function RefreshFrom(provider: ProviderId, batchSize: nat, d: Discovery, input: CycleInput): CycleOutcome {
    var batch := RefreshBatch(d.catalog, provider, batchSize);
    var unstamped := CycleOutcome(d.catalog, d.catalog, d.newReferences, batch, false, false);
    if batch == [] then unstamped.(attempted := true, completed := true)
    else if !input.synchronizes then unstamped
    else
      match RecordAttempts(d.catalog, ReferencesOf(batch), input.timestamp)
      case Err(_) => unstamped
      case Ok(after) =>
        if input.stamping.Commits() then
          CycleOutcome(d.catalog, after, d.newReferences, batch, true, input.stamping.Returns?)
        else unstamped
  }

  // ---------- Who is ahead ----------

  predicate AheadOf(c: Catalog, i: nat, j: nat)
    requires i < |c.entries| && j < |c.entries|
  {
    && j != i
    && c.entries[j].reference.provider == c.entries[i].reference.provider
    && Precedes(c.entries[j], c.entries[i])
  }

  /** The provider's references that would be selected before row i. */
  function Ahead(c: Catalog, i: nat): set<Key>
    requires i < |c.entries|
  {
    set j: nat | 0 <= j < |c.entries| && AheadOf(c, i, j) :: c.entries[j].Key()
  }

  ghost predicate ClockAfter(c: Catalog, timestamp: Timestamp) {
    forall e :: e in c.entries && e.lastAttempt.Some? ==> e.lastAttempt.value < timestamp
  }

  lemma QueueOrderIsTotal()
    ensures Ordering.TotalPreorder(QueueOrder())
  {
  }

  lemma {:induction false} KeysAtMost(s: seq<Entry>)
    ensures |set e | e in s :: e.Key()| <= |s|
  {
    if s != [] {
      KeysAtMost(s[1..]);
      assert (set e | e in s :: e.Key()) == {s[0].Key()} + set e | e in s[1..] :: e.Key();
    }
  }

  lemma SubsetAtMost(a: set<Key>, b: set<Key>)
    requires a <= b
    ensures |a| <= |b| && |b - a| == |b| - |a|
  {
    assert b == a + (b - a);
  }

  /** Discovery puts at most the new references ahead of anyone. */
  lemma DiscoveryDelaysByNewReferences(a: Catalog, b: Catalog, count: nat, i: nat)
    requires ValidCatalog(a) && ValidCatalog(b) && Grown(a, b, count) && i < |a.entries|
    ensures |Ahead(b, i)| <= |Ahead(a, i)| + count
  {
    var added := b.entries[|a.entries|..];
    var keys := set e | e in added :: e.Key();
    KeysAtMost(added);
    forall key | key in Ahead(b, i) ensures key in Ahead(a, i) + keys {
      var j: nat :| j < |b.entries| && AheadOf(b, i, j) && b.entries[j].Key() == key;
      if j < |a.entries| {
        assert AheadOf(a, i, j);
        assert a.entries[j].Key() == key;
      } else {
        assert added[j - |a.entries|] == b.entries[j];
      }
    }
    SubsetAtMost(Ahead(b, i), Ahead(a, i) + keys);
    assert |Ahead(a, i) + keys| <= |Ahead(a, i)| + |keys|;
  }

  lemma GrownByNothing(a: Catalog, b: Catalog, i: nat)
    requires Grown(a, b, 0) && i < |a.entries|
    ensures Ahead(b, i) == Ahead(a, i)
  {
    forall j: nat | j < |a.entries| ensures AheadOf(b, i, j) == AheadOf(a, i, j) && b.entries[j].Key() == a.entries[j].Key() {
    }
  }

  /** Rediscovering known references moves nobody. */
  lemma RediscoveryKeepsOrder(c: Catalog, references: seq<Reference>, at: Timestamp, i: nat)
    requires ValidCatalog(c) && i < |c.entries|
    requires RecordDiscovery(c, references, at).Ok? && RecordDiscovery(c, references, at).value.newReferences == []
    ensures |RecordDiscovery(c, references, at).value.catalog.entries| == |c.entries|
    ensures Ahead(RecordDiscovery(c, references, at).value.catalog, i) == Ahead(c, i)
  {
    DiscoveryKeepsQueue(c, references, at);
    GrownByNothing(c, RecordDiscovery(c, references, at).value.catalog, i);
  }

  // ---------- The batch ----------

  lemma EntriesDistinct(c: Catalog)
    requires ValidCatalog(c)
    ensures NoDuplicates(c.entries)
  {
  }

  lemma BatchMembers(c: Catalog, provider: ProviderId, limit: nat)
    requires ValidCatalog(c)
    ensures var batch := RefreshBatch(c, provider, limit);
      && NoDuplicates(Queue(c, provider)) && NoDuplicates(batch)
      && (forall e :: e in Queue(c, provider) <==> e in c.entries && e.reference.provider == provider)
      && (forall e :: e in batch ==> e in Queue(c, provider))
  {
    EntriesDistinct(c);
    QueueOrderIsTotal();
    FilterKeepsDistinct(c.entries, OfProvider(provider));
    Ordering.SortKeepsMembers(QueueOrder(), Filter(c.entries, OfProvider(provider)));
    Ordering.SortKeepsDistinct(QueueOrder(), Filter(c.entries, OfProvider(provider)));
  }

  lemma KeysIdentify(c: Catalog, a: Entry, b: Entry)
    requires ValidCatalog(c) && a in c.entries && b in c.entries && a.Key() == b.Key()
    ensures a == b
  {
  }

  function EntryKey(): Entry -> Key {
    (e: Entry) => e.Key()
  }

  lemma KeysOfEntries(entries: seq<Entry>)
    ensures KeysOf(ReferencesOf(entries)) == set key | key in Map(entries, EntryKey())
  {
    var references, keys := ReferencesOf(entries), Map(entries, EntryKey());
    forall key ensures key in KeysOf(references) <==> key in keys {
      if key in KeysOf(references) {
        var r :| r in references && KeyOf(r) == key;
        var i :| 0 <= i < |references| && references[i] == r;
        assert keys[i] == key;
      }
      if key in keys {
        var i :| 0 <= i < |keys| && keys[i] == key;
        assert references[i] in references;
      }
    }
  }

  lemma BatchReferencesUnique(c: Catalog, provider: ProviderId, limit: nat)
    requires ValidCatalog(c)
    ensures var batch := RefreshBatch(c, provider, limit);
      UniqueKeys(ReferencesOf(batch)) && |KeysOf(ReferencesOf(batch))| == |batch|
  {
    var batch := RefreshBatch(c, provider, limit);
    BatchMembers(c, provider, limit);
    var keys := Map(batch, EntryKey());
    forall i, j | 0 <= i < j < |batch| ensures batch[i].Key() != batch[j].Key() {
      if batch[i].Key() == batch[j].Key() { KeysIdentify(c, batch[i], batch[j]); }
    }
    DistinctSize(keys);
    KeysOfEntries(batch);
  }

  lemma BatchPrecedes(c: Catalog, provider: ProviderId, limit: nat, target: Entry)
    requires ValidCatalog(c) && target in c.entries && target.reference.provider == provider
    requires target !in RefreshBatch(c, provider, limit)
    ensures |RefreshBatch(c, provider, limit)| == limit
    ensures forall e :: e in RefreshBatch(c, provider, limit) ==>
              e in c.entries && e.reference.provider == provider && Precedes(e, target) && e.Key() != target.Key()
  {
    var queue, batch := Queue(c, provider), RefreshBatch(c, provider, limit);
    BatchMembers(c, provider, limit);
    QueueOrderIsTotal();
    Ordering.SortSorts(QueueOrder(), Filter(c.entries, OfProvider(provider)));
    Ordering.PrefixPrecedesRest(QueueOrder(), queue, limit);
    assert target in queue;
    forall e | e in batch
      ensures e in c.entries && e.reference.provider == provider && Precedes(e, target) && e.Key() != target.Key()
    {
      assert QueueOrder()(e, target);
      if e.Key() == target.Key() { KeysIdentify(c, e, target); }
    }
  }

  /** a's turn comes before b's: unattempted rows first, then older attempts, then earlier rows. */
  ghost predicate ServedBefore(a: Entry, b: Entry) {
    match (a.lastAttempt, b.lastAttempt)
    case (None, None) => a.sequence < b.sequence
    case (None, Some(_)) => true
    case (Some(_), None) => false
    case (Some(x), Some(y)) => x < y || (x == y && a.sequence < b.sequence)
  }

  lemma OrderedIsServed(c: Catalog, a: Entry, b: Entry)
    requires ValidCatalog(c) && a in c.entries && b in c.entries && a != b && QueueOrder()(a, b)
    ensures ServedBefore(a, b)
  {
    assert a.sequence != b.sequence;
  }

  lemma QueueHoldsProvider(c: Catalog, provider: ProviderId)
    requires ValidCatalog(c)
    ensures |Queue(c, provider)| == |set e | e in c.entries && e.reference.provider == provider|
  {
    BatchMembers(c, provider, 0);
    DistinctSize(Queue(c, provider));
    assert (set e | e in c.entries && e.reference.provider == provider) == set e | e in Queue(c, provider);
  }

  /** The batch: as many of the provider's rows as the limit allows, each once, in the order of their turns,
  and nobody outside it comes before anybody in it. */
  lemma BatchServesInTurn(c: Catalog, provider: ProviderId, limit: nat)
    requires ValidCatalog(c)
    ensures var batch := RefreshBatch(c, provider, limit);
      var count := |set e | e in c.entries && e.reference.provider == provider|;
      && |batch| == (if count <= limit then count else limit)
      && (forall e :: e in batch ==> e in c.entries && e.reference.provider == provider)
      && (forall i, j :: 0 <= i < j < |batch| ==> ServedBefore(batch[i], batch[j]))
      && (forall e, other :: e in batch && other in c.entries && other.reference.provider == provider && other !in batch ==>
            ServedBefore(e, other))
  {
    var queue, batch := Queue(c, provider), RefreshBatch(c, provider, limit);
    BatchMembers(c, provider, limit);
    QueueHoldsProvider(c, provider);
    QueueOrderIsTotal();
    Ordering.SortSorts(QueueOrder(), Filter(c.entries, OfProvider(provider)));
    Ordering.PrefixPrecedesRest(QueueOrder(), queue, limit);
    forall i, j | 0 <= i < j < |batch| ensures ServedBefore(batch[i], batch[j]) {
      assert batch[i] == queue[i] && batch[j] == queue[j];
      OrderedIsServed(c, queue[i], queue[j]);
    }
    forall e, other | e in batch && other in c.entries && other.reference.provider == provider && other !in batch
      ensures ServedBefore(e, other)
    {
      OrderedIsServed(c, e, other);
    }
  }

  lemma KeyOfMember(batch: seq<Entry>, key: Key) returns (e: Entry)
    requires key in KeysOf(ReferencesOf(batch))
    ensures e in batch && e.Key() == key
  {
    var references := ReferencesOf(batch);
    var r :| r in references && KeyOf(r) == key;
    var n :| 0 <= n < |references| && references[n] == r;
    e := batch[n];
  }

  /** A reference passed over had a full batch ahead of it. */
  lemma PassedOverForOthersAhead(c: Catalog, provider: ProviderId, limit: nat, i: nat)
    requires ValidCatalog(c) && i < |c.entries| && c.entries[i].reference.provider == provider
    requires c.entries[i] !in RefreshBatch(c, provider, limit)
    ensures |RefreshBatch(c, provider, limit)| == limit
    ensures KeysOf(ReferencesOf(RefreshBatch(c, provider, limit))) <= Ahead(c, i)
    ensures c.entries[i].Key() !in KeysOf(ReferencesOf(RefreshBatch(c, provider, limit)))
  {
    var batch := RefreshBatch(c, provider, limit);
    BatchPrecedes(c, provider, limit, c.entries[i]);
    forall key | key in KeysOf(ReferencesOf(batch)) ensures key in Ahead(c, i) && key != c.entries[i].Key() {
      var e := KeyOfMember(batch, key);
      var j: nat :| j < |c.entries| && c.entries[j] == e;
      assert AheadOf(c, i, j);
    }
  }

  /** Stamping a batch with the newest time sends it behind everyone else. */
  lemma StampedGoBehind(c: Catalog, keys: set<Key>, at: Timestamp, i: nat)
    requires ValidCatalog(c) && i < |c.entries| && ClockAfter(c, at)
    requires keys <= Ahead(c, i) && c.entries[i].Key() !in keys
    ensures var b := c.(entries := Map(c.entries, Attempted(keys, at)));
      |Ahead(b, i)| + |keys| <= |Ahead(c, i)|
  {
    var b := c.(entries := Map(c.entries, Attempted(keys, at)));
    assert c.entries[i] in c.entries;
    forall key | key in Ahead(b, i) ensures key in Ahead(c, i) - keys {
      var j: nat :| j < |b.entries| && AheadOf(b, i, j) && b.entries[j].Key() == key;
      assert c.entries[j] in c.entries && c.entries[j].Key() == key;
      assert key !in keys;
      assert AheadOf(c, i, j);
    }
    SubsetAtMost(Ahead(b, i), Ahead(c, i) - keys);
    SubsetAtMost(keys, Ahead(c, i));
  }

  lemma {:induction false} AttemptsSucceed(c: Catalog, references: seq<Reference>, at: Timestamp)
    requires ValidCatalog(c) && UniqueKeys(references)
    requires forall r :: r in references ==>
               Find(c.entries, KeyOf(r)).Some?
               && var e := c.entries[Find(c.entries, KeyOf(r)).value]; e.lastAttempt.Some? ==> e.lastAttempt.value <= at
    ensures AttemptAll(c, references, at).Ok?
    decreases |references|
  {
    if references != [] {
      var key := KeyOf(references[0]);
      var next := Attempt(c, references[0], at).value;
      AttemptOne(c, references[0], at);
      AttemptKeepsValid(c, {key}, at);
      forall r | r in references[1..]
        ensures Find(next.entries, KeyOf(r)).Some?
        ensures var e := next.entries[Find(next.entries, KeyOf(r)).value]; e.lastAttempt.Some? ==> e.lastAttempt.value <= at
      {
        var i := Find(c.entries, KeyOf(r)).value;
        assert next.entries[i].Key() == KeyOf(r);
        FindIsUnique(next, i);
        assert r in references;
      }
      AttemptsSucceed(next, references[1..], at);
    }
  }

  lemma BatchCanBeAttempted(d: Catalog, provider: ProviderId, batchSize: nat, at: Timestamp)
    requires ValidCatalog(d) && ClockAfter(d, at)
    ensures AttemptAll(d, ReferencesOf(RefreshBatch(d, provider, batchSize)), at).Ok?
  {
    var batch := RefreshBatch(d, provider, batchSize);
    var references := ReferencesOf(batch);
    BatchMembers(d, provider, batchSize);
    BatchReferencesUnique(d, provider, batchSize);
    forall r | r in references
      ensures Find(d.entries, KeyOf(r)).Some?
      ensures var e := d.entries[Find(d.entries, KeyOf(r)).value]; e.lastAttempt.Some? ==> e.lastAttempt.value <= at
    {
      var n :| 0 <= n < |references| && references[n] == r;
      assert batch[n] in d.entries;
      var j :| 0 <= j < |d.entries| && d.entries[j] == batch[n];
      FindIsUnique(d, j);
    }
    AttemptsSucceed(d, references, at);
  }

  /** With an advancing clock a cycle completes whenever discovery was recorded, the synchronizer
  returned and no writing call raised. */
  lemma CycleCompletes(provider: ProviderId, batchSize: nat, c: Catalog, input: CycleInput)
    requires ValidCatalog(c) && ClockAfter(c, input.timestamp)
    requires AfterDiscovery(c, input).Ok? && input.synchronizes && !RecordingRaises(input) && input.stamping.Returns?
    ensures RunCycle(provider, batchSize, c, input).completed
  {
    DiscoveryEffect(c, input);
    var d := AfterDiscovery(c, input).value.catalog;
    BatchCanBeAttempted(d, provider, batchSize, input.timestamp);
    BatchReferencesUnique(d, provider, batchSize);
  }

  lemma DiscoveryEffect(c: Catalog, input: CycleInput)
    requires ValidCatalog(c) && AfterDiscovery(c, input).Ok?
    ensures var d := AfterDiscovery(c, input).value;
      && ValidCatalog(d.catalog) && Grown(c, d.catalog, |d.newReferences|)
      && (forall t :: ClockAfter(c, t) ==> ClockAfter(d.catalog, t))
  {
    var d := AfterDiscovery(c, input).value;
    if input.discovered.Found? {
      DiscoveryKeepsQueue(c, input.discovered.references, input.timestamp);
    }
    forall t | ClockAfter(c, t) ensures ClockAfter(d.catalog, t) {
      forall e | e in d.catalog.entries && e.lastAttempt.Some? ensures e.lastAttempt.value < t {
        var j :| 0 <= j < |d.catalog.entries| && d.catalog.entries[j] == e;
        assert c.entries[j] in c.entries;
      }
    }
  }

  // ---------- One cycle ----------

  ghost predicate SameKeys(a: Catalog, b: Catalog) {
    |a.entries| <= |b.entries| && forall j :: 0 <= j < |a.entries| ==> b.entries[j].Key() == a.entries[j].Key()
  }

  lemma StampingKeeps(c: Catalog, references: seq<Reference>, at: Timestamp, later: Timestamp)
    requires ValidCatalog(c) && ClockAfter(c, at) && at < later && AttemptAll(c, references, at).Ok?
    ensures var b := AttemptAll(c, references, at).value;
      ValidCatalog(b) && ClockAfter(b, later) && SameKeys(c, b) && |b.entries| == |c.entries|
  {
    AttemptsStampTheBatch(c, references, at);
    var b := AttemptAll(c, references, at).value;
    forall e | e in b.entries && e.lastAttempt.Some? ensures e.lastAttempt.value < later {
      var j :| 0 <= j < |b.entries| && b.entries[j] == e;
      assert c.entries[j] in c.entries;
    }
  }

  lemma ClockRunsOn(c: Catalog, at: Timestamp, later: Timestamp)
    requires ClockAfter(c, at) && at < later
    ensures ClockAfter(c, later)
  {
  }

  lemma DiscoveryStands(c: Catalog, input: CycleInput, later: Timestamp)
    requires ValidCatalog(c) && ClockAfter(c, input.timestamp) && input.timestamp < later && AfterDiscovery(c, input).Ok?
    ensures var d := AfterDiscovery(c, input).value.catalog;
      ValidCatalog(d) && ClockAfter(d, input.timestamp) && ClockAfter(d, later) && SameKeys(c, d)
  {
    DiscoveryEffect(c, input);
    ClockRunsOn(AfterDiscovery(c, input).value.catalog, input.timestamp, later);
  }

  /** Where a cycle can leave the catalog. */
  lemma CycleEndsIn(provider: ProviderId, batchSize: nat, c: Catalog, input: CycleInput)
    ensures var after, discovered := RunCycle(provider, batchSize, c, input).catalog, AfterDiscovery(c, input);
      || after == c
      || (discovered.Ok? && after == discovered.value.catalog)
      || (discovered.Ok? &&
          var references := ReferencesOf(RefreshBatch(discovered.value.catalog, provider, batchSize));
          AttemptAll(discovered.value.catalog, references, input.timestamp) == Ok(after))
  {
  }

  /** What a cycle leaves valid, and for whom the clock still lies ahead. */
  lemma CycleKeepsValid(provider: ProviderId, batchSize: nat, c: Catalog, input: CycleInput, later: Timestamp)
    requires ValidCatalog(c) && ClockAfter(c, input.timestamp) && input.timestamp < later
    ensures var o := RunCycle(provider, batchSize, c, input);
      ValidCatalog(o.catalog) && ClockAfter(o.catalog, later) && SameKeys(c, o.catalog)
  {
    var after, discovered := RunCycle(provider, batchSize, c, input).catalog, AfterDiscovery(c, input);
    CycleEndsIn(provider, batchSize, c, input);
    if after == c {
      ClockRunsOn(c, input.timestamp, later);
    } else {
      DiscoveryStands(c, input, later);
      var d := discovered.value.catalog;
      if after != d {
        StampingKeeps(d, ReferencesOf(RefreshBatch(d, provider, batchSize)), input.timestamp, later);
        SameKeysTwice(c, d, after);
      }
    }
  }

  lemma SameKeysTwice(a: Catalog, b: Catalog, c: Catalog)
    requires SameKeys(a, b) && SameKeys(b, c)
    ensures SameKeys(a, c)
  {
  }

  /** Row i was refreshed and its attempt recorded. */
  predicate SelectedIn(o: CycleOutcome, i: nat) {
    o.attempted && i < |o.selectedFrom.entries| && o.selectedFrom.entries[i] in o.batch
  }

  lemma RefreshBringsCloser(provider: ProviderId, batchSize: nat, d: Catalog, at: Timestamp, i: nat)
    requires ValidCatalog(d) && ClockAfter(d, at)
    requires i < |d.entries| && d.entries[i].reference.provider == provider
    requires d.entries[i] !in RefreshBatch(d, provider, batchSize)
    requires AttemptAll(d, ReferencesOf(RefreshBatch(d, provider, batchSize)), at).Ok?
    ensures var after := AttemptAll(d, ReferencesOf(RefreshBatch(d, provider, batchSize)), at).value;
      i < |after.entries| && |Ahead(after, i)| + batchSize <= |Ahead(d, i)|
  {
    var references := ReferencesOf(RefreshBatch(d, provider, batchSize));
    PassedOverForOthersAhead(d, provider, batchSize, i);
    BatchReferencesUnique(d, provider, batchSize);
    AttemptsStampTheBatch(d, references, at);
    StampedGoBehind(d, KeysOf(references), at, i);
    assert AttemptAll(d, references, at).value == d.(entries := Map(d.entries, Attempted(KeysOf(references), at)));
  }

  /** An attempt is committed from the catalog as discovery left it, for its batch. */
  lemma AttemptIsOfBatch(provider: ProviderId, batchSize: nat, c: Catalog, input: CycleInput)
    requires RunCycle(provider, batchSize, c, input).attempted
    ensures AfterDiscovery(c, input).Ok?
    ensures var d, o := AfterDiscovery(c, input).value.catalog, RunCycle(provider, batchSize, c, input);
      && o.selectedFrom == d && o.batch == RefreshBatch(d, provider, batchSize)
      && (o.batch != [] ==> AttemptAll(d, ReferencesOf(o.batch), input.timestamp) == Ok(o.catalog))
  {
  }

  lemma AttemptBringsCloser(provider: ProviderId, batchSize: nat, c: Catalog, input: CycleInput, i: nat)
    requires ValidCatalog(c) && ClockAfter(c, input.timestamp) && batchSize > 0 && AfterDiscovery(c, input).Ok?
    requires i < |c.entries| && c.entries[i].reference.provider == provider
    requires var o := RunCycle(provider, batchSize, c, input); o.attempted && !SelectedIn(o, i)
    ensures var d, o := AfterDiscovery(c, input).value.catalog, RunCycle(provider, batchSize, c, input);
      i < |d.entries| && i < |o.catalog.entries| && |Ahead(o.catalog, i)| + batchSize <= |Ahead(d, i)|
  {
    DiscoveryEffect(c, input);
    AttemptIsOfBatch(provider, batchSize, c, input);
    var d := AfterDiscovery(c, input).value.catalog;
    assert d.entries[i].Key() == c.entries[i].Key();
    PassedOverForOthersAhead(d, provider, batchSize, i);
    RefreshBringsCloser(provider, batchSize, d, input.timestamp, i);
  }

  lemma DiscoveryDelays(c: Catalog, input: CycleInput, i: nat)
    requires ValidCatalog(c) && AfterDiscovery(c, input).Ok? && i < |c.entries|
    ensures var d := AfterDiscovery(c, input).value;
      i < |d.catalog.entries| && |Ahead(d.catalog, i)| <= |Ahead(c, i)| + |d.newReferences|
  {
    DiscoveryEffect(c, input);
    var d := AfterDiscovery(c, input).value;
    DiscoveryDelaysByNewReferences(c, d.catalog, |d.newReferences|, i);
  }

  /** A cycle that passes row i over brings it a full batch closer if its attempt is committed, as in every
  completed cycle, and delays it by no more than the references it inserted. */
  lemma CycleProgress(provider: ProviderId, batchSize: nat, c: Catalog, input: CycleInput, i: nat)
    requires ValidCatalog(c) && ClockAfter(c, input.timestamp) && batchSize > 0
    requires i < |c.entries| && c.entries[i].reference.provider == provider
    requires !SelectedIn(RunCycle(provider, batchSize, c, input), i)
    ensures var o := RunCycle(provider, batchSize, c, input);
      && i < |o.catalog.entries|
      && |Ahead(o.catalog, i)| + (if o.attempted then batchSize else 0) <= |Ahead(c, i)| + |o.newReferences|
      && (o.completed ==> o.attempted)
  {
    if AfterDiscovery(c, input).Ok? {
      DiscoveryDelays(c, input, i);
      if RunCycle(provider, batchSize, c, input).attempted {
        AttemptBringsCloser(provider, batchSize, c, input, i);
      }
    }
  }

  // ---------- What a cycle does to the rows ----------

  /** Row i was in the batch of a committed attempt. */
  predicate Stamped(o: CycleOutcome, i: nat)
    requires i < |o.selectedFrom.entries|
  {
    o.attempted && o.selectedFrom.entries[i] in o.batch
  }

  /** A row's attempt is the cycle's time if it was stamped and else what it was before, which for a new
  row is none. */
  ghost predicate AttemptsAre(c: Catalog, o: CycleOutcome, at: Timestamp) {
    && |c.entries| <= |o.catalog.entries| == |o.selectedFrom.entries|
    && (forall i: nat :: i < |o.catalog.entries| ==>
          o.catalog.entries[i].lastAttempt
          == if Stamped(o, i) then Some(at) else if i < |c.entries| then c.entries[i].lastAttempt else None)
  }

  lemma StampedRows(d: Catalog, batch: seq<Entry>, at: Timestamp, i: nat)
    requires ValidCatalog(d) && i < |d.entries| && forall e :: e in batch ==> e in d.entries
    ensures Attempted(KeysOf(ReferencesOf(batch)), at)(d.entries[i]).lastAttempt
         == if d.entries[i] in batch then Some(at) else d.entries[i].lastAttempt
  {
    if d.entries[i] in batch {
      var n :| 0 <= n < |batch| && batch[n] == d.entries[i];
      assert ReferencesOf(batch)[n] in ReferencesOf(batch);
    } else if d.entries[i].Key() in KeysOf(ReferencesOf(batch)) {
      var e := KeyOfMember(batch, d.entries[i].Key());
      KeysIdentify(d, e, d.entries[i]);
    }
  }

  lemma UnstampedAttempts(c: Catalog, input: CycleInput, o: CycleOutcome)
    requires ValidCatalog(c) && !o.attempted && o.catalog == o.selectedFrom
    requires o.catalog == c || (AfterDiscovery(c, input).Ok? && o.catalog == AfterDiscovery(c, input).value.catalog)
    ensures AttemptsAre(c, o, input.timestamp)
  {
    if o.catalog != c {
      DiscoveryEffect(c, input);
    }
  }

  lemma StampedAttempts(c: Catalog, input: CycleInput, provider: ProviderId, batchSize: nat)
    requires ValidCatalog(c) && RunCycle(provider, batchSize, c, input).attempted
    ensures AttemptsAre(c, RunCycle(provider, batchSize, c, input), input.timestamp)
  {
    var o := RunCycle(provider, batchSize, c, input);
    AttemptIsOfBatch(provider, batchSize, c, input);
    DiscoveryEffect(c, input);
    var d := AfterDiscovery(c, input).value.catalog;
    BatchMembers(d, provider, batchSize);
    if o.batch == [] {
      assert o.catalog == d;
    } else {
      AttemptsStampTheBatch(d, ReferencesOf(o.batch), input.timestamp);
      forall i: nat | i < |d.entries|
        ensures o.catalog.entries[i].lastAttempt == if d.entries[i] in o.batch then Some(input.timestamp) else d.entries[i].lastAttempt
      {
        StampedRows(d, o.batch, input.timestamp, i);
      }
    }
  }

  /** Whatever raises: rows are stamped only in a cycle whose discovery was recorded, whose synchronizer
  returned and whose stamping committed, and then exactly those of the batch. */
  lemma OnlyRefreshedAreStamped(provider: ProviderId, batchSize: nat, c: Catalog, input: CycleInput)
    requires ValidCatalog(c)
    ensures var o := RunCycle(provider, batchSize, c, input);
      && AttemptsAre(c, o, input.timestamp)
      && (o.attempted && o.batch != [] ==> input.synchronizes && !input.stamping.RaisesBeforeCommit?)
      && (o.attempted || o.batch != [] ==> input.discovered.Found? ==> input.recording.Returns?)
      && o.batch == (if o.attempted || o.batch != [] then RefreshBatch(o.selectedFrom, provider, batchSize) else [])
  {
    var o := RunCycle(provider, batchSize, c, input);
    AttemptsNeedRefreshing(provider, batchSize, c, input);
    if o.attempted {
      StampedAttempts(c, input, provider, batchSize);
    } else {
      UnstampedAttempts(c, input, o);
    }
  }

  lemma AttemptsNeedRefreshing(provider: ProviderId, batchSize: nat, c: Catalog, input: CycleInput)
    ensures var o := RunCycle(provider, batchSize, c, input);
      && (o.attempted && o.batch != [] ==> input.synchronizes && !input.stamping.RaisesBeforeCommit?)
      && (o.attempted || o.batch != [] ==> input.discovered.Found? ==> input.recording.Returns?)
      && o.batch == (if o.attempted || o.batch != [] then RefreshBatch(o.selectedFrom, provider, batchSize) else [])
      && (!o.attempted ==>
            && o.catalog == o.selectedFrom
            && (o.catalog == c || (AfterDiscovery(c, input).Ok? && o.catalog == AfterDiscovery(c, input).value.catalog)))
  {
  }

  /** With a synchronizer that raises, no row's attempt changes and new rows have none. */
  lemma RaisingSynchronizerStampsNothing(provider: ProviderId, batchSize: nat, c: Catalog, input: CycleInput)
    requires ValidCatalog(c) && !input.synchronizes
    ensures var rows := RunCycle(provider, batchSize, c, input).catalog.entries;
      && |c.entries| <= |rows|
      && (forall i :: 0 <= i < |c.entries| ==> rows[i].lastAttempt == c.entries[i].lastAttempt)
      && (forall i :: |c.entries| <= i < |rows| ==> rows[i].lastAttempt.None?)
  {
    OnlyRefreshedAreStamped(provider, batchSize, c, input);
  }

  /** What is refreshed is selected from the table as the discovery left it; without references to record,
  from the table as it was. */
  lemma CycleSelectsAfterDiscovery(provider: ProviderId, batchSize: nat, c: Catalog, input: CycleInput)
    ensures var o := RunCycle(provider, batchSize, c, input);
      if !input.discovered.Found? then
        o.selectedFrom == c && o.newReferences == [] && o.batch == RefreshBatch(c, provider, batchSize)
      else
        var d := RecordDiscovery(c, input.discovered.references, input.timestamp);
        if d.Ok? && input.recording.Returns? then
          && o.selectedFrom == d.value.catalog && o.newReferences == d.value.newReferences
          && o.batch == RefreshBatch(d.value.catalog, provider, batchSize)
        else
          && o.batch == [] && !o.attempted && !o.completed
          && o.catalog == if d.Ok? && input.recording.RaisesAfterCommit? then d.value.catalog else c
  {
  }

  /** Exactly which cycles complete: the discovery was not refused, nothing raised, and no row of the batch
  was attempted later than now. */
  lemma CycleCompletesExactly(provider: ProviderId, batchSize: nat, c: Catalog, input: CycleInput)
    requires ValidCatalog(c)
    ensures var o := RunCycle(provider, batchSize, c, input);
      o.completed <==>
        && (input.discovered.Found? ==>
              RecordDiscovery(c, input.discovered.references, input.timestamp).Ok? && input.recording.Returns?)
        && (o.batch == []
            || (&& input.synchronizes && input.stamping.Returns?
                && forall e :: e in o.batch && e.lastAttempt.Some? ==> e.lastAttempt.value <= input.timestamp))
  {
    var o := RunCycle(provider, batchSize, c, input);
    if AfterDiscovery(c, input).Ok? && o.batch != [] {
      DiscoveryEffect(c, input);
      var d := AfterDiscovery(c, input).value.catalog;
      BatchIsAccepted(d, provider, batchSize, input.timestamp);
    }
  }

  lemma RowIsAccepted(d: Catalog, e: Entry, at: Timestamp)
    requires ValidCatalog(d) && e in d.entries
    ensures AttemptedBy(d.entries, [e.reference], at) <==> (e.lastAttempt.Some? ==> e.lastAttempt.value <= at)
  {
    assert e.reference in [e.reference];
    forall other | other in d.entries && other.Key() == e.Key() ensures other == e {
      KeysIdentify(d, other, e);
    }
  }

  lemma RowsAreAccepted(d: Catalog, batch: seq<Entry>, at: Timestamp)
    requires ValidCatalog(d) && forall e :: e in batch ==> e in d.entries
    ensures AttemptedBy(d.entries, ReferencesOf(batch), at) <==>
            forall n :: 0 <= n < |batch| ==> AttemptedBy(d.entries, [batch[n].reference], at)
  {
    var references := ReferencesOf(batch);
    if AttemptedBy(d.entries, references, at) {
      forall n | 0 <= n < |batch| ensures AttemptedBy(d.entries, [batch[n].reference], at) {
        assert references[n] in references;
      }
    }
    if forall n :: 0 <= n < |batch| ==> AttemptedBy(d.entries, [batch[n].reference], at) {
      forall r | r in references ensures AttemptedBy(d.entries, [r], at) && r in [r] {
        var n :| 0 <= n < |references| && references[n] == r;
      }
    }
  }

  lemma BatchIsAccepted(d: Catalog, provider: ProviderId, batchSize: nat, at: Timestamp)
    requires ValidCatalog(d)
    ensures var batch := RefreshBatch(d, provider, batchSize);
      RecordAttempts(d, ReferencesOf(batch), at).Ok? <==>
        forall e :: e in batch && e.lastAttempt.Some? ==> e.lastAttempt.value <= at
  {
    var batch := RefreshBatch(d, provider, batchSize);
    BatchReferencesUnique(d, provider, batchSize);
    BatchMembers(d, provider, batchSize);
    AttemptingAccepts(d, ReferencesOf(batch), at);
    RowsAreAccepted(d, batch, at);
    forall n | 0 <= n < |batch|
      ensures AttemptedBy(d.entries, [batch[n].reference], at) <==> (batch[n].lastAttempt.Some? ==> batch[n].lastAttempt.value <= at)
    {
      RowIsAccepted(d, batch[n], at);
    }
  }

  // ---------- Any number of cycles ----------
  // ---------- Any number of cycles ----------

  function AfterCycles(provider: ProviderId, batchSize: nat, c: Catalog, inputs: seq<CycleInput>): Catalog
    decreases |inputs|
  {
    if inputs == [] then c
    else AfterCycles(provider, batchSize, RunCycle(provider, batchSize, c, inputs[0]).catalog, inputs[1..])
  }

  /** The cycles whose attempt was committed: all completed ones, and those that raised afterwards. */
  function AttemptedCycles(provider: ProviderId, batchSize: nat, c: Catalog, inputs: seq<CycleInput>): nat
    decreases |inputs|
  {
    if inputs == [] then 0
    else
      var o := RunCycle(provider, batchSize, c, inputs[0]);
      (if o.attempted then 1 else 0) + AttemptedCycles(provider, batchSize, o.catalog, inputs[1..])
  }

  function CompletedCycles(provider: ProviderId, batchSize: nat, c: Catalog, inputs: seq<CycleInput>): nat
    decreases |inputs|
  {
    if inputs == [] then 0
    else
      var o := RunCycle(provider, batchSize, c, inputs[0]);
      (if o.completed then 1 else 0) + CompletedCycles(provider, batchSize, o.catalog, inputs[1..])
  }

  lemma {:induction false} CompletedAreAttempted(provider: ProviderId, batchSize: nat, c: Catalog, inputs: seq<CycleInput>)
    ensures CompletedCycles(provider, batchSize, c, inputs) <= AttemptedCycles(provider, batchSize, c, inputs)
    decreases |inputs|
  {
    if inputs != [] {
      CompletedAreAttempted(provider, batchSize, RunCycle(provider, batchSize, c, inputs[0]).catalog, inputs[1..]);
    }
  }

  function NewlyDiscovered(provider: ProviderId, batchSize: nat, c: Catalog, inputs: seq<CycleInput>): nat
    decreases |inputs|
  {
    if inputs == [] then 0
    else
      var o := RunCycle(provider, batchSize, c, inputs[0]);
      |o.newReferences| + NewlyDiscovered(provider, batchSize, o.catalog, inputs[1..])
  }

  /** Some cycle refreshes row i and records it. */
  predicate EverSelected(provider: ProviderId, batchSize: nat, c: Catalog, inputs: seq<CycleInput>, i: nat)
    decreases |inputs|
  {
    inputs != []
    && var o := RunCycle(provider, batchSize, c, inputs[0]);
      SelectedIn(o, i) || EverSelected(provider, batchSize, o.catalog, inputs[1..], i)
  }

  /** Every cycle is later than all attempts recorded before the run and than the cycles before it. */
  ghost predicate AdvancingClock(c: Catalog, inputs: seq<CycleInput>) {
    && (forall k :: 0 <= k < |inputs| ==> ClockAfter(c, inputs[k].timestamp))
    && (forall j, k :: 0 <= j < k < |inputs| ==> inputs[j].timestamp < inputs[k].timestamp)
  }

  lemma ClockKeepsAdvancing(provider: ProviderId, batchSize: nat, c: Catalog, inputs: seq<CycleInput>)
    requires ValidCatalog(c) && AdvancingClock(c, inputs) && inputs != []
    ensures AdvancingClock(RunCycle(provider, batchSize, c, inputs[0]).catalog, inputs[1..])
  {
    var rest := inputs[1..];
    forall k | 0 <= k < |rest| ensures ClockAfter(RunCycle(provider, batchSize, c, inputs[0]).catalog, rest[k].timestamp) {
      CycleKeepsValid(provider, batchSize, c, inputs[0], rest[k].timestamp);
    }
  }

  /** The turns given away in these cycles, a batch each. */
  function TurnsGiven(provider: ProviderId, batchSize: nat, c: Catalog, inputs: seq<CycleInput>): nat
    decreases |inputs|
  {
    if inputs == [] then 0
    else
      var o := RunCycle(provider, batchSize, c, inputs[0]);
      (if o.attempted then batchSize else 0) + TurnsGiven(provider, batchSize, o.catalog, inputs[1..])
  }

  lemma OneMoreBatch(b: nat, n: nat)
    ensures b * (1 + n) == b + b * n && b * (0 + n) == b * n
  {
  }

  lemma {:induction false} TurnsAreBatches(provider: ProviderId, batchSize: nat, c: Catalog, inputs: seq<CycleInput>)
    ensures TurnsGiven(provider, batchSize, c, inputs) == batchSize * AttemptedCycles(provider, batchSize, c, inputs)
    decreases |inputs|
  {
    if inputs != [] {
      var o := RunCycle(provider, batchSize, c, inputs[0]);
      TurnsAreBatches(provider, batchSize, o.catalog, inputs[1..]);
      OneMoreBatch(batchSize, AttemptedCycles(provider, batchSize, o.catalog, inputs[1..]));
    }
  }

  lemma StillWaiting(provider: ProviderId, batchSize: nat, c: Catalog, inputs: seq<CycleInput>, i: nat)
    requires ValidCatalog(c) && AdvancingClock(c, inputs) && inputs != []
    requires i < |c.entries| && c.entries[i].reference.provider == provider
    ensures var after := RunCycle(provider, batchSize, c, inputs[0]).catalog;
      && ValidCatalog(after) && AdvancingClock(after, inputs[1..])
      && i < |after.entries| && after.entries[i].reference.provider == provider
  {
    assert ClockAfter(c, inputs[0].timestamp);
    CycleKeepsValid(provider, batchSize, c, inputs[0], inputs[0].timestamp + 1);
    ClockKeepsAdvancing(provider, batchSize, c, inputs);
    assert RunCycle(provider, batchSize, c, inputs[0]).catalog.entries[i].Key() == c.entries[i].Key();
  }

  lemma {:induction false} WaitingIsPaidFor(
    provider: ProviderId, batchSize: nat, c: Catalog, inputs: seq<CycleInput>, i: nat)
    requires ValidCatalog(c) && AdvancingClock(c, inputs) && batchSize > 0
    requires i < |c.entries| && c.entries[i].reference.provider == provider
    requires !EverSelected(provider, batchSize, c, inputs, i)
    ensures TurnsGiven(provider, batchSize, c, inputs)
         <= |Ahead(c, i)| + NewlyDiscovered(provider, batchSize, c, inputs)
    decreases |inputs|
  {
    if inputs != [] {
      var o := RunCycle(provider, batchSize, c, inputs[0]);
      assert ClockAfter(c, inputs[0].timestamp);
      CycleProgress(provider, batchSize, c, inputs[0], i);
      StillWaiting(provider, batchSize, c, inputs, i);
      WaitingIsPaidFor(provider, batchSize, o.catalog, inputs[1..], i);
    }
  }

  lemma QuotientExceeds(b: nat, n: nat, total: nat)
    requires b > 0 && n >= total / b + 1
    ensures b * n > total
  {
    assert b * n >= b * (total / b + 1) by { assert b * (n - (total / b + 1)) >= 0; }
    assert total == b * (total / b) + total % b;
  }

  /** The bounded wait: with an advancing clock, a reference with k others ahead of it is refreshed
  within (k + D) / B + 1 cycles that record their attempt, as every completed cycle does, D being
  the references inserted meanwhile. Other cycles do not count, and do no harm. */
  lemma BoundedWait(provider: ProviderId, batchSize: nat, c: Catalog, inputs: seq<CycleInput>, i: nat)
    requires ValidCatalog(c) && AdvancingClock(c, inputs) && batchSize > 0
    requires i < |c.entries| && c.entries[i].reference.provider == provider
    requires AttemptedCycles(provider, batchSize, c, inputs)
          >= (|Ahead(c, i)| + NewlyDiscovered(provider, batchSize, c, inputs)) / batchSize + 1
    ensures EverSelected(provider, batchSize, c, inputs, i)
  {
    if !EverSelected(provider, batchSize, c, inputs, i) {
      WaitingIsPaidFor(provider, batchSize, c, inputs, i);
      TurnsAreBatches(provider, batchSize, c, inputs);
      QuotientExceeds(
        batchSize, AttemptedCycles(provider, batchSize, c, inputs),
        |Ahead(c, i)| + NewlyDiscovered(provider, batchSize, c, inputs));
    }
  }

  // ---------- A standing clock ----------

  function TwoAttempted(at: Timestamp): Catalog {
    var first, second := Reference(1, "a", "ua"), Reference(1, "b", "ub");
    Catalog([Entry(1, first, at, at, Some(at)), Entry(2, second, at, at, Some(at))], 3)
  }

  function StandingClock(at: Timestamp, n: nat): seq<CycleInput> {
    seq(n, _ => CycleInput(at, NotAsked, Returns, true, Returns))
  }

  lemma StandingQueue(at: Timestamp)
    ensures RefreshBatch(TwoAttempted(at), 1, 1) == [TwoAttempted(at).entries[0]]
  {
    var entries := TwoAttempted(at).entries;
    var a, b := entries[0], entries[1];
    assert entries[..1] == [a] && entries[..1][..0] == [];
    assert Filter(entries, OfProvider(1)) == [a, b];
    assert [a, b][1..] == [b] && [b][1..] == [];
    assert Ordering.Sort(QueueOrder(), [b]) == [b];
    assert Ordering.Sort(QueueOrder(), [a, b]) == [a, b];
  }

  lemma StandingAttempt(at: Timestamp)
    ensures RecordAttempts(TwoAttempted(at), [TwoAttempted(at).entries[0].reference], at) == Ok(TwoAttempted(at))
  {
    var c := TwoAttempted(at);
    var a := c.entries[0];
    assert c.entries[..1] == [a];
    assert Find(c.entries[..1], a.Key()) == Some(0);
    assert c.entries[0 := a] == c.entries;
    var references := [a.reference];
    assert Attempt(c, references[0], at) == Ok(c);
    assert references[1..] == [];
    assert AttemptAll(c, references[1..], at) == Ok(c);
    assert AttemptAll(c, references, at) == Ok(c);
  }

  lemma StandingCycle(at: Timestamp)
    ensures RunCycle(1, 1, TwoAttempted(at), CycleInput(at, NotAsked, Returns, true, Returns))
         == CycleOutcome(TwoAttempted(at), TwoAttempted(at), [], [TwoAttempted(at).entries[0]], true, true)
  {
    StandingQueue(at);
    StandingAttempt(at);
    var a := TwoAttempted(at).entries[0];
    assert ReferencesOf([a]) == [a.reference];
  }

  /** The hypothesis is needed: while the clock stands still, the earlier row is refreshed over and
  over and the later one never. */
  lemma {:induction false} StandingClockStarves(at: Timestamp, n: nat)
    ensures CompletedCycles(1, 1, TwoAttempted(at), StandingClock(at, n)) == n
    ensures !EverSelected(1, 1, TwoAttempted(at), StandingClock(at, n), 1)
  {
    if n > 0 {
      StandingCycle(at);
      StandingClockStarves(at, n - 1);
      assert StandingClock(at, n)[1..] == StandingClock(at, n - 1);
    }
  }

  // ---------- The workflow ----------

  class CatalogMonitoringWorkflow {
    const store: SqliteCatalogStore
    const provider: ProviderId
    const batchSize: nat

    constructor (store: SqliteCatalogStore, provider: ProviderId, batchSize: nat)
      requires batchSize > 0
      ensures this.store == store && this.provider == provider && this.batchSize == batchSize
    {
      this.store, this.provider, this.batchSize := store, provider, batchSize;
    }

    method RunOnce(input: CycleInput) returns (completed: bool, newReferences: seq<Reference>, batch: seq<Reference>)
      modifies store
      ensures var o := RunCycle(provider, batchSize, old(store.catalog), input);
        && store.catalog == o.catalog && completed == o.completed
        && newReferences == (if RecordingRaises(input) then [] else o.newReferences)
        && batch == ReferencesOf(o.batch)
      ensures old(ValidCatalog(store.catalog)) && !input.synchronizes ==>
          && |old(store.catalog.entries)| <= |store.catalog.entries|
          && (forall i :: 0 <= i < |old(store.catalog.entries)| ==>
                store.catalog.entries[i].lastAttempt == old(store.catalog.entries)[i].lastAttempt)
          && (forall i :: |old(store.catalog.entries)| <= i < |store.catalog.entries| ==>
                store.catalog.entries[i].lastAttempt.None?)
    {
      if old(ValidCatalog(store.catalog)) && !input.synchronizes {
        RaisingSynchronizerStampsNothing(provider, batchSize, store.catalog, input);
      }
      newReferences, batch := [], [];
      if input.discovered.Found? {
        var recorded := store.Record(input.discovered.references, input.timestamp, input.recording);
        if recorded.Err? {
          return false, [], [];
        }
        newReferences := recorded.value;
      }
      batch := store.ListRefreshBatch(provider, batchSize);
      if batch != [] {
        if !input.synchronizes {
          return false, newReferences, batch;
        }
        var error := store.RecordRefreshAttempt(batch, input.timestamp, input.stamping);
        if error.Some? {
          return false, newReferences, batch;
        }
      }
      completed := true;
    }
  }
}
