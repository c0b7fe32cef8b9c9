/** Moving the state of one installation to another: what an archive holds, and an import that may
be stopped after any of its filesystem steps. */
module Migration {
  import opened Domain

  type Digest = nat

  /** The names a data directory or an archive uses: catalog.sqlite3, state.json,
  .price-watch-migration.json, manifest.json, options.json, the names mkstemp makes up, and others. */
  datatype Name =
    CatalogState | JsonState | MarkerFile | ManifestFile | OptionsFile | Temporary(id: nat) | Other(text: string)

  datatype Json = Boolean(value: bool) | NotFinite | Encoded(text: string)

  type Options = map<string, Json>

  datatype Description = Description(name: Name, size: nat, digest: Digest)

  datatype Manifest = Manifest(
    schemaVersion: nat,
    applicationVersion: string,
    createdAt: Timestamp,
    zoned: bool,
    state: Description,
    options: Description)

  datatype ImportMarker = ImportMarker(schemaVersion: nat, archive: Digest, stateName: Name, state: Digest)

  /** File contents, up to their JSON text. */
  datatype Body =
    Raw(content: string) | ManifestText(manifest: Manifest) | OptionsText(options: Options) | MarkerText(marker: ImportMarker)

  datatype Member = Member(name: Name, body: Body)

  datatype Archive = NotAnArchive | Archive(members: seq<Member>)

  /** Digests, sizes and the formats of state files are not modelled: they are arbitrary functions.
  `backup` is SQLite's copy of a database. */
  datatype Platform = Platform(
    digest: Body -> Digest,
    size: Body -> nat,
    archiveDigest: Archive -> Digest,
    archiveSize: Archive -> nat,
    validState: (Name, Body) -> bool,
    backup: Body -> Body,
    blank: string -> bool)

  datatype Error =
    NoArchive | ArchiveTooLarge | ArchiveDigestDiffers | NotAZip | DuplicateMembers | NoManifest
    | MemberTooLarge | InvalidManifest | UnexpectedMembers | PayloadDiffers | InvalidState
    | InvalidOptions | OptionsDiffer | OtherState | MarkerConflict | MarkerInvalid | StateChanged
    | UnrelatedState | Unreadable | InvalidMode | NoActiveState | BlankVersion | ArchiveExists

  const SCHEMA_VERSION: nat := 1
  const MAX_MANIFEST_BYTES: nat := 65_536
  const MAX_OPTIONS_BYTES: nat := 1_048_576
  const MAX_STATE_BYTES: nat := 2_147_483_648
  const MAX_ARCHIVE_BYTES: nat := 536_870_912
  const IMPORT_OPTION_KEYS := {"migration_import_file", "migration_import_sha256", "migration_import_confirmation"}
  const MODE_KEY := "catalog_enabled"

  // ---------- Options ----------

  function Filtered(options: Options): Options {
    options - IMPORT_OPTION_KEYS
  }

  /** The canonical options text; a number that is not finite has none. */
  function CanonicalOptions(options: Options): Result<Body, Error> {
    if exists key :: key in Filtered(options) && Filtered(options)[key] == NotFinite then Err(InvalidOptions)
    else Ok(OptionsText(Filtered(options)))
  }

  function ActiveStateName(options: Options): Result<Name, Error> {
    if MODE_KEY !in options then Ok(JsonState)
    else if options[MODE_KEY].Boolean? then Ok(if options[MODE_KEY].value then CatalogState else JsonState)
    else Err(InvalidMode)
  }

  lemma ModeIsNoImportOption()
    ensures MODE_KEY !in IMPORT_OPTION_KEYS
  {
    assert MODE_KEY[0] == 'c';
    assert forall key :: key in IMPORT_OPTION_KEYS ==> key[0] == 'm';
  }

  /** Two installations select the same state file if they agree outside the import-only keys. */
  lemma SameOptionsSameState(a: Options, b: Options)
    requires Filtered(a) == Filtered(b)
    ensures ActiveStateName(a) == ActiveStateName(b)
  {
    ModeIsNoImportOption();
    assert MODE_KEY in a <==> MODE_KEY in Filtered(a);
    assert MODE_KEY in b <==> MODE_KEY in Filtered(b);
    if MODE_KEY in a {
      assert a[MODE_KEY] == Filtered(a)[MODE_KEY] == Filtered(b)[MODE_KEY] == b[MODE_KEY];
    }
  }

  // ---------- The archive ----------

  function Describe(p: Platform, name: Name, body: Body): Description {
    Description(name, p.size(body), p.digest(body))
  }

  function ManifestFor(p: Platform, version: string, at: Timestamp, name: Name, state: Body, options: Body): Manifest {
    Manifest(SCHEMA_VERSION, version, at, true, Describe(p, name, state), Describe(p, OptionsFile, options))
  }

  function WriteArchive(p: Platform, version: string, at: Timestamp, name: Name, state: Body, options: Body): Archive {
    Archive([
      Member(ManifestFile, ManifestText(ManifestFor(p, version, at, name, state, options))),
      Member(OptionsFile, options),
      Member(name, state)])
  }

  datatype Contents = Contents(options: Body, stateName: Name, state: Body, stateDigest: Digest)

  function NameSet(members: seq<Member>): set<Name> {
    set m | m in members :: m.name
  }

  function Find(members: seq<Member>, name: Name): (r: Option<Body>)
    ensures r.Some? ==> Member(name, r.value) in members
    ensures r.None? ==> name !in NameSet(members)
  {
    if members == [] then None
    else if members[0].name == name then Some(members[0].body)
    else Find(members[1..], name)
  }

  predicate ValidManifest(p: Platform, m: Manifest) {
    && m.schemaVersion == SCHEMA_VERSION
    && !p.blank(m.applicationVersion)
    && m.zoned
    && (m.state.name == CatalogState || m.state.name == JsonState)
    && m.options.name == OptionsFile
  }

  function ReadMember(p: Platform, members: seq<Member>, name: Name, maximum: nat): Result<Body, Error> {
    match Find(members, name)
    case None => Err(UnexpectedMembers)
    case Some(body) => if p.size(body) > maximum then Err(MemberTooLarge) else Ok(body)
  }

  function ReadManifest(p: Platform, members: seq<Member>): Result<Manifest, Error> {
    if Find(members, ManifestFile).None? then Err(NoManifest)
    else match ReadMember(p, members, ManifestFile, MAX_MANIFEST_BYTES)
      case Err(e) => Err(e)
      case Ok(body) =>
        if body.ManifestText? && ValidManifest(p, body.manifest) then Ok(body.manifest) else Err(InvalidManifest)
  }

  function ReadPayloads(p: Platform, members: seq<Member>, m: Manifest): Result<Contents, Error> {
    if NameSet(members) != {ManifestFile, OptionsFile, m.state.name} then Err(UnexpectedMembers)
    else match ReadMember(p, members, OptionsFile, MAX_OPTIONS_BYTES)
      case Err(e) => Err(e)
      case Ok(options) => match ReadMember(p, members, m.state.name, MAX_STATE_BYTES)
        case Err(e) => Err(e)
        case Ok(state) =>
          if m.options != Describe(p, OptionsFile, options) || m.state != Describe(p, m.state.name, state) then Err(PayloadDiffers)
          else if !p.validState(m.state.name, state) then Err(InvalidState)
          else Ok(Contents(options, m.state.name, state, m.state.digest))
  }

  function ReadArchive(p: Platform, archive: Archive): Result<Contents, Error> {
    if archive.NotAnArchive? then Err(NotAZip)
    else if |archive.members| != |NameSet(archive.members)| then Err(DuplicateMembers)
    else match ReadManifest(p, archive.members)
      case Err(e) => Err(e)
      case Ok(m) => ReadPayloads(p, archive.members, m)
  }

  /** The archive holds one valid manifest, the options and the state, each once, with the sizes and
  digests the manifest gives, and nothing else. */
  ghost predicate Holds(p: Platform, members: seq<Member>, m: Manifest, c: Contents) {
    && multiset(members) == multiset{
         Member(ManifestFile, ManifestText(m)), Member(OptionsFile, c.options), Member(c.stateName, c.state)}
    && m.schemaVersion == 1 && !p.blank(m.applicationVersion) && m.zoned
    && (c.stateName == CatalogState || c.stateName == JsonState)
    && m.state == Describe(p, c.stateName, c.state)
    && m.options == Describe(p, OptionsFile, c.options)
    && c.stateDigest == m.state.digest
    && WithinLimits(p, m, c.options, c.state)
    && p.validState(c.stateName, c.state)
  }

  predicate WithinLimits(p: Platform, m: Manifest, options: Body, state: Body) {
    && p.size(ManifestText(m)) <= 65_536
    && p.size(options) <= 1_048_576
    && p.size(state) <= 2_147_483_648
  }

  // ---------- The data directory ----------

  datatype Node = File(body: Body) | Symlink | Folder

  type Directory = map<Name, Node>

  datatype Step =
    | Create(file: Name)
    | Write(file: Name, body: Body)
    | Link(file: Name, as_: Name)
    | Rename(file: Name, as_: Name)
    | Remove(file: Name)

  /** One atomic filesystem step. A link never replaces what is there; a rename does. */
  function Apply(d: Directory, s: Step): Directory {
    match s
    case Create(t) => d[t := File(Raw(""))]
    case Write(t, b) => d[t := File(b)]
    case Link(t, n) => if t in d && n !in d then d[n := d[t]] else d
    case Rename(t, n) => if t in d then (d - {t})[n := d[t]] else d
    case Remove(t) => d - {t}
  }

  /** The first n of the steps. */
  function Perform(d: Directory, steps: seq<Step>, n: nat): Directory
    decreases n
  {
    if n == 0 || steps == [] then d else Perform(Apply(d, steps[0]), steps[1..], n - 1)
  }

  datatype Request = Request(archive: Digest, stateName: Name, state: Body, stateDigest: Digest)

  datatype Todo = AlreadyDone | MarkOnly | InstallAndMark

  function OtherStateName(name: Name): Name {
    if name == CatalogState then JsonState else CatalogState
  }

  function MarkerOf(r: Request): Body {
    MarkerText(ImportMarker(SCHEMA_VERSION, r.archive, r.stateName, r.stateDigest))
  }

  predicate HoldsDigest(p: Platform, d: Directory, name: Name, digest: Digest) {
    name in d && d[name].File? && p.digest(d[name].body) == digest
  }

  /** Whether the marker records this very import, or contradicts it. */
  function CompletedImport(p: Platform, d: Directory, r: Request): Result<bool, Error> {
    if MarkerFile !in d then Ok(false)
    else match d[MarkerFile]
      case Symlink => Err(MarkerConflict)
      case Folder => Err(MarkerInvalid)
      case File(body) =>
        if !body.MarkerText? then Err(MarkerInvalid)
        else if body != MarkerOf(r) || r.stateName !in d || !d[r.stateName].File? then Err(MarkerConflict)
        else if !HoldsDigest(p, d, r.stateName, r.stateDigest) then Err(StateChanged)
        else Ok(true)
  }

  /** What an import still has to do; nothing is written before this is known. */
  function Decide(p: Platform, d: Directory, r: Request): Result<Todo, Error> {
    if OtherStateName(r.stateName) in d then Err(OtherState)
    else match CompletedImport(p, d, r)
      case Err(e) => Err(e)
      case Ok(completed) =>
        if completed then Ok(AlreadyDone)
        else if r.stateName !in d then Ok(InstallAndMark)
        else match d[r.stateName]
          case Symlink => Err(UnrelatedState)
          case Folder => Err(Unreadable)
          case File(body) => if p.digest(body) == r.stateDigest then Ok(MarkOnly) else Err(UnrelatedState)
  }

  // ---------- What is accepted ----------

  /** The directory is one the request may be carried out in: no state of the other kind; and either the
  marker of this very import with its state unchanged, or no marker and no state but this one. */
  ghost predicate Accepts(p: Platform, d: Directory, r: Request) {
    && (r.stateName == CatalogState ==> JsonState !in d) && (r.stateName == JsonState ==> CatalogState !in d)
    && (r.stateName in d ==> d[r.stateName].File? && p.digest(d[r.stateName].body) == r.stateDigest)
    && (MarkerFile in d ==>
          && r.stateName in d
          && d[MarkerFile] == File(MarkerText(ImportMarker(SCHEMA_VERSION, r.archive, r.stateName, r.stateDigest))))
  }

  lemma DecidesExactly(p: Platform, d: Directory, r: Request)
    requires r.stateName == CatalogState || r.stateName == JsonState
    ensures Decide(p, d, r).Ok? <==> Accepts(p, d, r)
    ensures Decide(p, d, r) == Ok(AlreadyDone) <==> Accepts(p, d, r) && MarkerFile in d
    ensures Decide(p, d, r) == Ok(MarkOnly) <==> Accepts(p, d, r) && MarkerFile !in d && r.stateName in d
    ensures Decide(p, d, r) == Ok(InstallAndMark) <==> Accepts(p, d, r) && MarkerFile !in d && r.stateName !in d
  {
  }

  /** Why a directory is refused: the first of these that applies. */
  lemma RefusalsMean(p: Platform, d: Directory, r: Request)
    requires r.stateName == CatalogState || r.stateName == JsonState
    requires Decide(p, d, r).Err?
    ensures var stored := if r.stateName in d then Some(d[r.stateName]) else None;
      var marker := if MarkerFile in d then Some(d[MarkerFile]) else None;
      var own := Some(File(MarkerText(ImportMarker(SCHEMA_VERSION, r.archive, r.stateName, r.stateDigest))));
      match Decide(p, d, r).error
      case OtherState => (r.stateName == CatalogState && JsonState in d) || (r.stateName == JsonState && CatalogState in d)
      case MarkerInvalid => marker.Some? && !marker.value.Symlink? && !(marker.value.File? && marker.value.body.MarkerText?)
      case MarkerConflict =>
        marker.Some? && (marker.value.Symlink? || marker != own || stored.None? || !stored.value.File?)
      case StateChanged => marker == own && stored.Some? && stored.value.File? && p.digest(stored.value.body) != r.stateDigest
      case UnrelatedState => marker.None? && stored.Some?
        && (stored.value.Symlink? || (stored.value.File? && p.digest(stored.value.body) != r.stateDigest))
      case Unreadable => marker.None? && stored == Some(Folder)
      case _ => false
  {
  }

  /** The temporary names an attempt uses, and what a partial write would leave in them. */
  datatype Scratch = Scratch(first: nat, second: nat, torn: Body)

  function InstallSteps(r: Request, x: Scratch): seq<Step> {
    var t := Temporary(x.first);
    [Create(t), Write(t, x.torn), Write(t, r.state), Link(t, r.stateName), Remove(t)]
  }

  function MarkSteps(r: Request, x: Scratch): seq<Step> {
    var t := Temporary(x.second);
    [Create(t), Write(t, x.torn), Write(t, MarkerOf(r)), Rename(t, MarkerFile), Remove(t)]
  }

  function Steps(todo: Todo, r: Request, x: Scratch): seq<Step> {
    match todo
    case AlreadyDone => []
    case MarkOnly => MarkSteps(r, x)
    case InstallAndMark => InstallSteps(r, x) + MarkSteps(r, x)
  }

  /** An import that stops after n steps. */
  function ImportUpTo(p: Platform, d: Directory, r: Request, x: Scratch, n: nat): Directory {
    match Decide(p, d, r)
    case Err(_) => d
    case Ok(todo) => Perform(d, Steps(todo, r, x), n)
  }

  function Import(p: Platform, d: Directory, r: Request, x: Scratch): Directory {
    match Decide(p, d, r)
    case Err(_) => d
    case Ok(todo) => Perform(d, Steps(todo, r, x), |Steps(todo, r, x)|)
  }

  // ---------- Stopping anywhere ----------

  /** Two directories that differ at most in temporary files. */
  ghost predicate SameNamed(a: Directory, b: Directory) {
    forall n: Name :: !n.Temporary? ==> (n in a <==> n in b) && (n in a ==> a[n] == b[n])
  }

  predicate IsState(name: Name) {
    name == CatalogState || name == JsonState
  }

  ghost predicate ValidRequest(p: Platform, r: Request) {
    IsState(r.stateName) && p.digest(r.state) == r.stateDigest
  }

  lemma DecisionIgnoresTemporaries(p: Platform, a: Directory, b: Directory, r: Request)
    requires SameNamed(a, b) && IsState(r.stateName)
    ensures Decide(p, a, r) == Decide(p, b, r)
  {
    assert MarkerFile in a <==> MarkerFile in b;
    assert r.stateName in a <==> r.stateName in b;
    assert OtherStateName(r.stateName) in a <==> OtherStateName(r.stateName) in b;
  }

  lemma PerformFirst(d: Directory, s: Step, rest: seq<Step>, n: nat)
    requires n > 0
    ensures Perform(d, [s] + rest, n) == Perform(Apply(d, s), rest, n - 1)
  {
    assert ([s] + rest)[1..] == rest;
  }

  lemma {:induction false} PerformConcat(d: Directory, a: seq<Step>, b: seq<Step>, n: nat)
    ensures Perform(d, a + b, n) == if n <= |a| then Perform(d, a, n) else Perform(Perform(d, a, |a|), b, n - |a|)
    decreases n
  {
    if n == 0 || a == [] {
      assert a == [] ==> a + b == b;
    } else {
      assert (a + b)[1..] == a[1..] + b;
      PerformConcat(Apply(d, a[0]), a[1..], b, n - 1);
    }
  }

  /** Filling a temporary file touches nothing else. */
  lemma FilledTemporary(d: Directory, t: Name, torn: Body, body: Body, rest: seq<Step>, n: nat)
    requires t.Temporary?
    ensures var steps := [Create(t), Write(t, torn), Write(t, body)] + rest;
      var filled := d[t := File(body)];
      if n < 3 then SameNamed(d, Perform(d, steps, n))
      else Perform(d, steps, n) == Perform(filled, rest, n - 3)
  {
    var w1, w2 := Write(t, torn), Write(t, body);
    var steps := [Create(t), w1, w2] + rest;
    assert steps == [Create(t)] + ([w1] + ([w2] + rest));
    var d1 := Apply(d, Create(t));
    var d2 := Apply(d1, w1);
    assert Apply(d2, w2) == d[t := File(body)];
    if n > 0 {
      PerformFirst(d, Create(t), [w1] + ([w2] + rest), n);
      if n > 1 {
        PerformFirst(d1, w1, [w2] + rest, n - 1);
        if n > 2 {
          PerformFirst(d2, w2, rest, n - 2);
        }
      }
    }
  }

  lemma LastTwo(d: Directory, a: Step, b: Step, n: nat)
    ensures Perform(d, [a, b], n) == if n == 0 then d else if n == 1 then Apply(d, a) else Apply(Apply(d, a), b)
  {
    if n > 0 {
      assert [a, b] == [a] + [b];
      PerformFirst(d, a, [b], n);
      if n > 1 {
        assert [b] == [b] + [];
        PerformFirst(Apply(d, a), b, [], n - 1);
      }
    }
  }

  lemma InstallStopped(d: Directory, r: Request, x: Scratch, n: nat)
    requires IsState(r.stateName) && r.stateName !in d
    ensures SameNamed(Perform(d, InstallSteps(r, x), n), if n < 4 then d else d[r.stateName := File(r.state)])
  {
    var t := Temporary(x.first);
    var rest := [Link(t, r.stateName), Remove(t)];
    assert InstallSteps(r, x) == [Create(t), Write(t, x.torn), Write(t, r.state)] + rest;
    FilledTemporary(d, t, x.torn, r.state, rest, n);
    if n >= 3 {
      LastTwo(d[t := File(r.state)], Link(t, r.stateName), Remove(t), n - 3);
    }
  }

  lemma MarkStopped(d: Directory, r: Request, x: Scratch, n: nat)
    ensures SameNamed(Perform(d, MarkSteps(r, x), n), if n < 4 then d else d[MarkerFile := File(MarkerOf(r))])
  {
    var t := Temporary(x.second);
    var rest := [Rename(t, MarkerFile), Remove(t)];
    assert MarkSteps(r, x) == [Create(t), Write(t, x.torn), Write(t, MarkerOf(r))] + rest;
    FilledTemporary(d, t, x.torn, MarkerOf(r), rest, n);
    if n >= 3 {
      LastTwo(d[t := File(MarkerOf(r))], Rename(t, MarkerFile), Remove(t), n - 3);
    }
  }

  /** The named files of a finished import. */
  function Finished(d: Directory, r: Request): Directory {
    (if r.stateName in d then d else d[r.stateName := File(r.state)])[MarkerFile := File(MarkerOf(r))]
  }

  /** However far an import got, the named files are those before it, those with the state installed,
  or those of the finished import; and only the last is left when it was not stopped. */
  lemma StoppedInOneOfThreePlaces(p: Platform, d: Directory, r: Request, x: Scratch, n: nat)
    requires ValidRequest(p, r) && Decide(p, d, r).Ok?
    ensures var after := ImportUpTo(p, d, r, x, n);
      || SameNamed(after, d)
      || (r.stateName !in d && SameNamed(after, d[r.stateName := File(r.state)]))
      || SameNamed(after, Finished(d, r))
    ensures SameNamed(Import(p, d, r, x), Finished(d, r))
  {
    var todo := Decide(p, d, r).value;
    match todo
    case AlreadyDone =>
    case MarkOnly =>
      MarkStopped(d, r, x, n);
      MarkStopped(d, r, x, 5);
    case InstallAndMark =>
      InstallThenMark(d, r, x, n);
      InstallThenMark(d, r, x, 10);
  }

  lemma InstallThenMark(d: Directory, r: Request, x: Scratch, n: nat)
    requires IsState(r.stateName) && r.stateName !in d
    ensures var after := Perform(d, InstallSteps(r, x) + MarkSteps(r, x), n);
      var installed := d[r.stateName := File(r.state)];
      SameNamed(after, if n < 4 then d else if n < 9 then installed else installed[MarkerFile := File(MarkerOf(r))])
  {
    PerformConcat(d, InstallSteps(r, x), MarkSteps(r, x), n);
    InstallStopped(d, r, x, n);
    InstallStopped(d, r, x, 5);
    if n > 5 {
      MarkStopped(Perform(d, InstallSteps(r, x), 5), r, x, n - 5);
    }
  }

  /** No import, stopped or not, changes or removes a named file that was there. */
  lemma NeverOverwrites(p: Platform, d: Directory, r: Request, x: Scratch, n: nat, name: Name)
    requires ValidRequest(p, r) && name in d && !name.Temporary?
    ensures name in ImportUpTo(p, d, r, x, n) && ImportUpTo(p, d, r, x, n)[name] == d[name]
  {
    if Decide(p, d, r).Ok? {
      StoppedInOneOfThreePlaces(p, d, r, x, n);
    }
  }

  // ---------- Any number of interrupted attempts ----------

  /** An attempt that stops after `steps` steps; `swept` are the temporary files it, or anybody after
  it, removed. */
  datatype Attempt = Attempt(scratch: Scratch, steps: nat, swept: set<nat>)

  function Sweep(d: Directory, swept: set<nat>): Directory {
    map n | n in d && !(n.Temporary? && n.id in swept) :: d[n]
  }

  function AfterAttempt(p: Platform, d: Directory, r: Request, a: Attempt): Directory {
    Sweep(ImportUpTo(p, d, r, a.scratch, a.steps), a.swept)
  }

  function AfterAttempts(p: Platform, d: Directory, r: Request, attempts: seq<Attempt>): Directory {
    if attempts == [] then d
    else AfterAttempt(p, AfterAttempts(p, d, r, attempts[..|attempts| - 1]), r, attempts[|attempts| - 1])
  }

  /** One interrupted attempt changes neither the verdict of the next nor where it ends. */
  lemma AttemptKeepsGoal(p: Platform, d: Directory, r: Request, a: Attempt)
    requires ValidRequest(p, r)
    ensures var after := AfterAttempt(p, d, r, a);
      && (Decide(p, after, r).Ok? <==> Decide(p, d, r).Ok?)
      && (Decide(p, d, r).Err? ==> Decide(p, after, r) == Decide(p, d, r) && SameNamed(after, d))
      && (Decide(p, d, r).Ok? ==> SameNamed(Finished(after, r), Finished(d, r)))
  {
    var stopped := ImportUpTo(p, d, r, a.scratch, a.steps);
    var after := AfterAttempt(p, d, r, a);
    assert SameNamed(stopped, after);
    DecisionIgnoresTemporaries(p, stopped, after, r);
    if Decide(p, d, r).Ok? {
      StoppedInOneOfThreePlaces(p, d, r, a.scratch, a.steps);
      if SameNamed(stopped, d) {
        DecisionIgnoresTemporaries(p, stopped, d, r);
      } else if r.stateName !in d && SameNamed(stopped, d[r.stateName := File(r.state)]) {
        DecisionIgnoresTemporaries(p, stopped, d[r.stateName := File(r.state)], r);
      } else {
        DecisionIgnoresTemporaries(p, stopped, Finished(d, r), r);
        FinishedIsDone(p, d, r);
      }
    }
  }

  lemma FinishedIsDone(p: Platform, d: Directory, r: Request)
    requires ValidRequest(p, r) && Decide(p, d, r).Ok?
    ensures Decide(p, Finished(d, r), r) == Ok(AlreadyDone)
  {
  }

  lemma {:induction false} AttemptsKeepGoal(p: Platform, d: Directory, r: Request, attempts: seq<Attempt>)
    requires ValidRequest(p, r)
    ensures var after := AfterAttempts(p, d, r, attempts);
      && (Decide(p, after, r).Ok? <==> Decide(p, d, r).Ok?)
      && (Decide(p, d, r).Err? ==> Decide(p, after, r) == Decide(p, d, r) && SameNamed(after, d))
      && (Decide(p, d, r).Ok? ==> SameNamed(Finished(after, r), Finished(d, r)))
  {
    if attempts != [] {
      var init := attempts[..|attempts| - 1];
      AttemptsKeepGoal(p, d, r, init);
      AttemptKeepsGoal(p, AfterAttempts(p, d, r, init), r, attempts[|attempts| - 1]);
    }
  }

  /** Stopped any number of times, each time after any step, an import that is then run to its end
  leaves the same named files as one run that was never stopped, or fails with the same error. */
  lemma InterruptedImportFinishesAlike(p: Platform, d: Directory, r: Request, attempts: seq<Attempt>, x: Scratch, y: Scratch)
    requires ValidRequest(p, r)
    ensures var after := AfterAttempts(p, d, r, attempts);
      && SameNamed(Import(p, after, r, x), Import(p, d, r, y))
      && (match Decide(p, d, r)
          case Err(e) => Decide(p, after, r) == Err(e) && SameNamed(after, d)
          case Ok(_) => Decide(p, after, r).Ok? && Decide(p, Import(p, after, r, x), r) == Ok(AlreadyDone))
  {
    var after := AfterAttempts(p, d, r, attempts);
    AttemptsKeepGoal(p, d, r, attempts);
    if Decide(p, d, r).Ok? {
      StoppedInOneOfThreePlaces(p, after, r, x, 0);
      StoppedInOneOfThreePlaces(p, d, r, y, 0);
      FinishedIsDone(p, after, r);
      DecisionIgnoresTemporaries(p, Import(p, after, r, x), Finished(after, r), r);
    }
  }

  /** Once finished, the same import can be repeated for nothing exactly as long as the state file
  has the imported digest. After a monitoring cycle has changed the state, it is refused. */
  lemma RepeatedWhileStateUnchanged(p: Platform, d: Directory, r: Request, x: Scratch, state: Body)
    requires ValidRequest(p, r) && Decide(p, d, r).Ok?
    ensures var later := Import(p, d, r, x)[r.stateName := File(state)];
      Decide(p, later, r) == if p.digest(state) == r.stateDigest then Ok(AlreadyDone) else Err(StateChanged)
  {
    StoppedInOneOfThreePlaces(p, d, r, x, 0);
    var after := Import(p, d, r, x);
    assert MarkerFile in Finished(d, r);
    assert after[MarkerFile] == File(MarkerOf(r));
    assert OtherStateName(r.stateName) !in Finished(d, r);
  }

  /** After one archive was imported, any other is refused. */
  lemma AnotherArchiveIsRefused(p: Platform, d: Directory, r: Request, x: Scratch, another: Request, y: Scratch)
    requires ValidRequest(p, r) && ValidRequest(p, another) && Decide(p, d, r).Ok?
    requires another.archive != r.archive || another.stateName != r.stateName || another.stateDigest != r.stateDigest
    ensures Decide(p, Import(p, d, r, x), another).Err?
    ensures Import(p, Import(p, d, r, x), another, y) == Import(p, d, r, x)
  {
    StoppedInOneOfThreePlaces(p, d, r, x, 0);
    var after := Import(p, d, r, x);
    assert MarkerFile in Finished(d, r);
    assert after[MarkerFile] == File(MarkerOf(r));
  }

  // ---------- What an archive may hold ----------

  lemma {:induction false} FindsOnly(members: seq<Member>, m: Member)
    requires m in members
    requires forall other :: other in members && other.name == m.name ==> other == m
    ensures Find(members, m.name) == Some(m.body)
  {
    if members[0].name == m.name {
      assert members[0] in members;
    } else {
      assert forall other :: other in members[1..] ==> other in members;
      FindsOnly(members[1..], m);
    }
  }

  lemma ThreeNamesThreeMembers(members: seq<Member>, a: Member, b: Member, c: Member)
    requires a.name != b.name && a.name != c.name && b.name != c.name
    requires a in members && b in members && c in members && |members| == 3
    ensures multiset(members) == multiset{a, b, c}
  {
    assert members == [members[0], members[1], members[2]];
    assert multiset(members) == multiset{members[0], members[1], members[2]};
  }

  lemma HoldsEachOnce(members: seq<Member>, a: Member, b: Member, c: Member)
    requires a.name != b.name && a.name != c.name && b.name != c.name
    requires multiset(members) == multiset{a, b, c}
    ensures NameSet(members) == {a.name, b.name, c.name} && |members| == |NameSet(members)|
    ensures Find(members, a.name) == Some(a.body)
    ensures Find(members, b.name) == Some(b.body)
    ensures Find(members, c.name) == Some(c.body)
  {
    assert |multiset(members)| == 3;
    forall m ensures m in members <==> m == a || m == b || m == c {
      assert m in members <==> m in multiset(members);
    }
    assert NameSet(members) == {a.name, b.name, c.name} by {
      assert a in members && b in members && c in members;
    }
    FindsOnly(members, a);
    FindsOnly(members, b);
    FindsOnly(members, c);
  }

  lemma ReadHolds(p: Platform, members: seq<Member>, c: Contents) returns (m: Manifest)
    requires ReadArchive(p, Archive(members)) == Ok(c)
    ensures Holds(p, members, m, c)
  {
    m := ReadManifest(p, members).value;
    assert ReadPayloads(p, members, m) == Ok(c);
    ThreeNamesThreeMembers(members,
      Member(ManifestFile, ManifestText(m)), Member(OptionsFile, c.options), Member(c.stateName, c.state));
  }

  lemma HoldingReads(p: Platform, members: seq<Member>, m: Manifest, c: Contents)
    requires Holds(p, members, m, c)
    ensures ReadArchive(p, Archive(members)) == Ok(c)
  {
    HoldsEachOnce(members,
      Member(ManifestFile, ManifestText(m)), Member(OptionsFile, c.options), Member(c.stateName, c.state));
    assert ReadManifest(p, members) == Ok(m);
  }

  /** An archive is read exactly if it holds one manifest, the options and the state it describes,
  and nothing else, in any order. */
  lemma ReadsExactlyWhatHolds(p: Platform, members: seq<Member>, c: Contents)
    ensures ReadArchive(p, Archive(members)) == Ok(c) <==> exists m :: Holds(p, members, m, c)
  {
    if ReadArchive(p, Archive(members)) == Ok(c) {
      var m := ReadHolds(p, members, c);
    }
    if m :| Holds(p, members, m, c) {
      HoldingReads(p, members, m, c);
    }
  }

  // ---------- From export to import ----------

  datatype Exported = Exported(archive: Archive, digest: Digest, stateName: Name)

  /** A database is copied through SQLite's backup, a JSON document as it is. */
  function CopyOf(p: Platform, name: Name, body: Body): Body {
    if name == CatalogState then p.backup(body) else body
  }

  function Export(p: Platform, d: Directory, taken: bool, options: Options, at: Timestamp, version: string): Result<Exported, Error> {
    if p.blank(version) then Err(BlankVersion)
    else match ActiveStateName(options)
      case Err(e) => Err(e)
      case Ok(name) =>
        if name !in d || !d[name].File? then Err(NoActiveState)
        else if taken then Err(ArchiveExists)
        else
          var state := CopyOf(p, name, d[name].body);
          if !p.validState(name, state) then Err(InvalidState)
          else match CanonicalOptions(options)
            case Err(e) => Err(e)
            case Ok(text) =>
              var archive := WriteArchive(p, version, at, name, state, text);
              Ok(Exported(archive, p.archiveDigest(archive), name))
  }

  /** The state file an installation's options select. */
  function SelectedName(options: Options): Name {
    if MODE_KEY in options && options[MODE_KEY] == Boolean(true) then CatalogState else JsonState
  }

  /** What an export copies: a database through its backup, a document as it is. */
  function SelectedState(p: Platform, d: Directory, options: Options): Body
    requires SelectedName(options) in d && d[SelectedName(options)].File?
  {
    var body := d[SelectedName(options)].body;
    if SelectedName(options).CatalogState? then p.backup(body) else body
  }

  /** When an export succeeds, and everything its archive holds. */
  lemma ExportsExactly(p: Platform, d: Directory, taken: bool, options: Options, at: Timestamp, version: string)
    ensures var r := Export(p, d, taken, options, at, version);
      && (r.Ok? <==>
            && !p.blank(version) && !taken
            && (MODE_KEY in options ==> options[MODE_KEY].Boolean?)
            && SelectedName(options) in d && d[SelectedName(options)].File?
            && p.validState(SelectedName(options), SelectedState(p, d, options))
            && (forall key :: key in options && key !in IMPORT_OPTION_KEYS ==> options[key] != NotFinite))
      && (r.Ok? ==>
            var name, state, text := SelectedName(options), SelectedState(p, d, options), OptionsText(options - IMPORT_OPTION_KEYS);
            var manifest := Manifest(
                              SCHEMA_VERSION, version, at, true, Description(name, p.size(state), p.digest(state)),
                              Description(OptionsFile, p.size(text), p.digest(text)));
            && r.value.stateName == name && r.value.digest == p.archiveDigest(r.value.archive)
            && r.value.archive == Archive([
                 Member(ManifestFile, ManifestText(manifest)), Member(OptionsFile, text), Member(name, state)]))
  {
    FiniteOptions(options);
  }

  /** What is verified before the data directory is looked at. */
  function Requested(p: Platform, source: Option<Archive>, digest: Digest, options: Options): Result<Request, Error> {
    match source
    case None => Err(NoArchive)
    case Some(archive) =>
      if p.archiveSize(archive) > MAX_ARCHIVE_BYTES then Err(ArchiveTooLarge)
      else if p.archiveDigest(archive) != digest then Err(ArchiveDigestDiffers)
      else match ReadArchive(p, archive)
        case Err(e) => Err(e)
        case Ok(c) => match CanonicalOptions(options)
          case Err(e) => Err(e)
          case Ok(text) =>
            if c.options != text then Err(OptionsDiffer) else Ok(Request(digest, c.stateName, c.state, c.stateDigest))
  }

  /** Only an archive with the given digest, within the limit, that holds what its manifest describes, and
  whose options are this installation's own, is carried out; and then exactly what it holds. */
  lemma RequestedExactly(p: Platform, source: Option<Archive>, digest: Digest, options: Options, r: Request)
    ensures Requested(p, source, digest, options) == Ok(r) <==>
            && source.Some? && source.value.Archive?
            && p.archiveSize(source.value) <= 536_870_912 && p.archiveDigest(source.value) == digest
            && (forall key :: key in options && key !in IMPORT_OPTION_KEYS ==> options[key] != NotFinite)
            && r.archive == digest
            && exists m ::
                 Holds(
                   p, source.value.members, m,
                   Contents(OptionsText(options - IMPORT_OPTION_KEYS), r.stateName, r.state, r.stateDigest))
  {
    if source.Some? && source.value.Archive? {
      var text := OptionsText(options - IMPORT_OPTION_KEYS);
      var c := Contents(text, r.stateName, r.state, r.stateDigest);
      ReadsExactlyWhatHolds(p, source.value.members, c);
      FiniteOptions(options);
    }
  }

  lemma FiniteOptions(options: Options)
    ensures CanonicalOptions(options).Ok? <==>
            forall key :: key in options && key !in IMPORT_OPTION_KEYS ==> options[key] != NotFinite
    ensures CanonicalOptions(options).Ok? ==> CanonicalOptions(options).value == OptionsText(options - IMPORT_OPTION_KEYS)
  {
    forall key ensures key in Filtered(options) <==> key in options && key !in IMPORT_OPTION_KEYS {
    }
  }

  /** The errors found before the archive is opened. */
  lemma EarlyRefusals(p: Platform, source: Option<Archive>, digest: Digest, options: Options)
    ensures Requested(p, source, digest, options) == Err(NoArchive) <==> source.None?
    ensures source.Some? && p.archiveSize(source.value) > MAX_ARCHIVE_BYTES ==>
        Requested(p, source, digest, options) == Err(ArchiveTooLarge)
    ensures source.Some? && p.archiveSize(source.value) <= MAX_ARCHIVE_BYTES && p.archiveDigest(source.value) != digest ==>
        Requested(p, source, digest, options) == Err(ArchiveDigestDiffers)
  {
  }

  lemma RequestsAreValid(p: Platform, source: Option<Archive>, digest: Digest, options: Options)
    requires Requested(p, source, digest, options).Ok?
    ensures ValidRequest(p, Requested(p, source, digest, options).value)
  {
    var c := ReadArchive(p, source.value).value;
    var m := ReadHolds(p, source.value.members, c);
  }

  /** The limits that only the import checks. */
  predicate Importable(p: Platform, e: Exported, state: Body, options: Options, version: string, at: Timestamp) {
    && p.archiveSize(e.archive) <= MAX_ARCHIVE_BYTES
    && (var text := OptionsText(Filtered(options));
        WithinLimits(p, ManifestFor(p, version, at, e.stateName, state, text), text, state))
  }

  /** A written archive can be read back exactly if it is within the limits. */
  lemma WrittenReads(p: Platform, m: Manifest, text: Body, name: Name, state: Body)
    requires ValidManifest(p, m) && p.validState(name, state)
    requires m.state == Describe(p, name, state) && m.options == Describe(p, OptionsFile, text)
    ensures var members := [Member(ManifestFile, ManifestText(m)), Member(OptionsFile, text), Member(name, state)];
      var r := ReadArchive(p, Archive(members));
      && (r.Ok? <==> WithinLimits(p, m, text, state))
      && (r.Ok? ==> r.value == Contents(text, name, state, p.digest(state)))
  {
    var a, b, s := Member(ManifestFile, ManifestText(m)), Member(OptionsFile, text), Member(name, state);
    var members := [a, b, s];
    assert multiset(members) == multiset{a, b, s};
    HoldsEachOnce(members, a, b, s);
    if ReadArchive(p, Archive(members)).Ok? {
      assert ReadManifest(p, members) == Ok(m);
    }
    if WithinLimits(p, m, text, state) {
      HoldingReads(p, members, m, Contents(text, name, state, p.digest(state)));
    }
  }

  lemma ExportedReads(p: Platform, d: Directory, options: Options, at: Timestamp, version: string)
    requires Export(p, d, false, options, at, version).Ok?
    ensures var e := Export(p, d, false, options, at, version).value;
      var state := CopyOf(p, e.stateName, d[e.stateName].body);
      var text := OptionsText(Filtered(options));
      var r := ReadArchive(p, e.archive);
      && (r.Ok? <==> WithinLimits(p, ManifestFor(p, version, at, e.stateName, state, text), text, state))
      && (r.Ok? ==> r.value == Contents(text, e.stateName, state, p.digest(state)))
  {
    var e := Export(p, d, false, options, at, version).value;
    var state := CopyOf(p, e.stateName, d[e.stateName].body);
    var text := OptionsText(Filtered(options));
    WrittenReads(p, ManifestFor(p, version, at, e.stateName, state, text), text, e.stateName, state);
  }

  /** An exported archive is accepted by an empty installation exactly if the options agree outside the
  import-only keys and the sizes are within the limits, which the export itself does not check; the
  installation then holds exactly the exported state, under the name its own options select. */
  lemma ExportedStateArrives(p: Platform, d: Directory, options: Options, at: Timestamp, version: string,
                             importing: Options, x: Scratch)
    requires Export(p, d, false, options, at, version).Ok?
    ensures var e := Export(p, d, false, options, at, version).value;
      var state := CopyOf(p, e.stateName, d[e.stateName].body);
      var r := Requested(p, Some(e.archive), e.digest, importing);
      && (r.Ok? <==> Filtered(importing) == Filtered(options) && Importable(p, e, state, options, version, at))
      && (r.Ok? ==>
            && Decide(p, map[], r.value) == Ok(InstallAndMark)
            && SameNamed(Import(p, map[], r.value, x), map[e.stateName := File(state), MarkerFile := File(MarkerOf(r.value))])
            && ActiveStateName(importing) == Ok(e.stateName))
  {
    var e := Export(p, d, false, options, at, version).value;
    var r := Requested(p, Some(e.archive), e.digest, importing);
    ExportedReads(p, d, options, at, version);
    if Filtered(importing) == Filtered(options) {
      SameOptionsSameState(importing, options);
    }
    if r.Ok? {
      RequestsAreValid(p, Some(e.archive), e.digest, importing);
      StoppedInOneOfThreePlaces(p, map[], r.value, x, 0);
    }
  }

  datatype Outcome = Imported | Refused(error: Error) | Stopped

  function OutcomeOf(decision: Result<Todo, Error>, r: Request, x: Scratch, remaining: nat): Outcome {
    match decision
    case Err(e) => Refused(e)
    case Ok(todo) => if remaining < |Steps(todo, r, x)| then Stopped else Imported
  }

  /** What the operator may import: an archive with the digest given, not too large, holding what its
  manifest describes for just these options, into a directory that accepts it. */
  ghost predicate Acceptable(p: Platform, d: Directory, source: Option<Archive>, digest: Digest, options: Options) {
    && source.Some? && source.value.Archive? && p.archiveDigest(source.value) == digest
    && p.archiveSize(source.value) <= MAX_ARCHIVE_BYTES
    && (forall key :: key in options && key !in IMPORT_OPTION_KEYS ==> options[key] != NotFinite)
    && exists m: Manifest, c: Contents ::
         && Holds(p, source.value.members, m, c) && c.options == OptionsText(options - IMPORT_OPTION_KEYS)
         && Accepts(p, d, Request(digest, c.stateName, c.state, c.stateDigest))
  }

  /** The archive's state has arrived in the directory, and the marker names it. */
  ghost predicate Arrived(p: Platform, before: Directory, archive: Archive, digest: Digest, after: Directory) {
    archive.Archive? && exists m: Manifest, c: Contents ::
      && Holds(p, archive.members, m, c)
      && SameNamed(after, Finished(before, Request(digest, c.stateName, c.state, c.stateDigest)))
  }

  lemma HeldContents(p: Platform, members: seq<Member>, m: Manifest, c: Contents, n: Manifest, other: Contents)
    requires Holds(p, members, m, c) && Holds(p, members, n, other)
    ensures c == other
  {
    HoldingReads(p, members, m, c);
    HoldingReads(p, members, n, other);
  }

  lemma RequestHolds(p: Platform, source: Option<Archive>, digest: Digest, options: Options) returns (m: Manifest, c: Contents)
    requires Requested(p, source, digest, options).Ok?
    ensures source.Some? && source.value.Archive? && Holds(p, source.value.members, m, c)
    ensures c.options == OptionsText(options - IMPORT_OPTION_KEYS)
    ensures Requested(p, source, digest, options).value == Request(digest, c.stateName, c.state, c.stateDigest)
  {
    var r := Requested(p, source, digest, options).value;
    RequestedExactly(p, source, digest, options, r);
    c := Contents(OptionsText(options - IMPORT_OPTION_KEYS), r.stateName, r.state, r.stateDigest);
    m :| Holds(p, source.value.members, m, c);
  }

  lemma AcceptableIsCarriedOut(p: Platform, d: Directory, source: Option<Archive>, digest: Digest, options: Options)
    requires Acceptable(p, d, source, digest, options)
    ensures Requested(p, source, digest, options).Ok? && Decide(p, d, Requested(p, source, digest, options).value).Ok?
  {
    var m: Manifest, c: Contents :|
      && Holds(p, source.value.members, m, c) && c.options == OptionsText(options - IMPORT_OPTION_KEYS)
      && Accepts(p, d, Request(digest, c.stateName, c.state, c.stateDigest));
    var r := Request(digest, c.stateName, c.state, c.stateDigest);
    RequestedExactly(p, source, digest, options, r);
    DecidesExactly(p, d, r);
  }

  lemma CarriedOutIsAcceptable(p: Platform, d: Directory, source: Option<Archive>, digest: Digest, options: Options)
    requires Requested(p, source, digest, options).Ok? && Decide(p, d, Requested(p, source, digest, options).value).Ok?
    ensures Acceptable(p, d, source, digest, options)
  {
    var r := Requested(p, source, digest, options).value;
    var m, c := RequestHolds(p, source, digest, options);
    RequestedExactly(p, source, digest, options, r);
    DecidesExactly(p, d, r);
  }

  /** Exactly which imports are carried out, and what one that is not stopped leaves. */
  lemma ImportMeans(
    p: Platform, d: Directory, source: Option<Archive>, digest: Digest, options: Options, x: Scratch, n: nat)
    ensures var request := Requested(p, source, digest, options);
      && ((request.Ok? && Decide(p, d, request.value).Ok?) <==> Acceptable(p, d, source, digest, options))
      && (request.Ok? ==> source.Some? && p.archiveDigest(source.value) == digest)
      && (request.Ok? && OutcomeOf(Decide(p, d, request.value), request.value, x, n).Imported? ==>
            Arrived(p, d, source.value, digest, ImportUpTo(p, d, request.value, x, n)))
  {
    var request := Requested(p, source, digest, options);
    if request.Ok? && Decide(p, d, request.value).Ok? {
      CarriedOutIsAcceptable(p, d, source, digest, options);
      var m, c := RequestHolds(p, source, digest, options);
      RequestsAreValid(p, source, digest, options);
      if n >= |Steps(Decide(p, d, request.value).value, request.value, x)| {
        FullRunFinishes(p, d, request.value, x, n);
      }
    }
    if Acceptable(p, d, source, digest, options) {
      AcceptableIsCarriedOut(p, d, source, digest, options);
    }
  }

  lemma FullRunFinishes(p: Platform, d: Directory, r: Request, x: Scratch, n: nat)
    requires ValidRequest(p, r) && Decide(p, d, r).Ok? && n >= |Steps(Decide(p, d, r).value, r, x)|
    ensures SameNamed(ImportUpTo(p, d, r, x, n), Finished(d, r))
  {
    match Decide(p, d, r).value
    case AlreadyDone =>
    case MarkOnly => MarkStopped(d, r, x, n);
    case InstallAndMark => InstallThenMark(d, r, x, n);
  }

  // ---------- The data directory and the archive adapter ----------

  /** A data directory whose process will stop after `remaining` more steps. */
  class DataDirectory {
    var nodes: Directory
    var remaining: nat

    constructor (nodes: Directory, remaining: nat)
      ensures this.nodes == nodes && this.remaining == remaining
    {
      this.nodes, this.remaining := nodes, remaining;
    }

    /** One step, unless the process has stopped. */
    method Do(s: Step) returns (stopped: bool)
      modifies this
      ensures stopped <==> old(remaining) == 0
      ensures nodes == if stopped then old(nodes) else Apply(old(nodes), s)
      ensures remaining == if stopped then 0 else old(remaining) - 1
    {
      if remaining == 0 {
        return true;
      }
      nodes, remaining := Apply(nodes, s), remaining - 1;
      stopped := false;
    }
  }

  lemma FiveSteps(d: Directory, s: seq<Step>, n: nat)
    requires |s| == 5
    ensures Perform(d, s, n) ==
      if n == 0 then d else
      var d1 := Apply(d, s[0]);
      if n == 1 then d1 else
      var d2 := Apply(d1, s[1]);
      if n == 2 then d2 else
      var d3 := Apply(d2, s[2]);
      if n == 3 then d3 else if n == 4 then Apply(d3, s[3]) else Apply(Apply(d3, s[3]), s[4])
  {
    assert s == [s[0]] + ([s[1]] + ([s[2]] + [s[3], s[4]]));
    if n > 0 {
      PerformFirst(d, s[0], [s[1]] + ([s[2]] + [s[3], s[4]]), n);
      if n > 1 {
        PerformFirst(Apply(d, s[0]), s[1], [s[2]] + [s[3], s[4]], n - 1);
        if n > 2 {
          PerformFirst(Apply(Apply(d, s[0]), s[1]), s[2], [s[3], s[4]], n - 2);
          LastTwo(Apply(Apply(Apply(d, s[0]), s[1]), s[2]), s[3], s[4], n - 3);
        }
      }
    }
  }

  /** Write the state to a temporary file and link it under its name. */
  method InstallState(data: DataDirectory, r: Request, x: Scratch) returns (stopped: bool)
    modifies data
    ensures data.nodes == Perform(old(data.nodes), InstallSteps(r, x), old(data.remaining))
    ensures stopped <==> old(data.remaining) < 5
    ensures !stopped ==> data.remaining == old(data.remaining) - 5
  {
    FiveSteps(data.nodes, InstallSteps(r, x), data.remaining);
    var temporary := Temporary(x.first);
    stopped := data.Do(Create(temporary));
    if stopped { return; }
    stopped := data.Do(Write(temporary, x.torn));
    if stopped { return; }
    stopped := data.Do(Write(temporary, r.state));
    if stopped { return; }
    stopped := data.Do(Link(temporary, r.stateName));
    if stopped { return; }
    stopped := data.Do(Remove(temporary));
  }

  /** Write the marker to a temporary file and rename it. */
  method WriteMarker(data: DataDirectory, r: Request, x: Scratch) returns (stopped: bool)
    modifies data
    ensures data.nodes == Perform(old(data.nodes), MarkSteps(r, x), old(data.remaining))
    ensures stopped <==> old(data.remaining) < 5
  {
    FiveSteps(data.nodes, MarkSteps(r, x), data.remaining);
    var temporary := Temporary(x.second);
    stopped := data.Do(Create(temporary));
    if stopped { return; }
    stopped := data.Do(Write(temporary, x.torn));
    if stopped { return; }
    stopped := data.Do(Write(temporary, MarkerOf(r)));
    if stopped { return; }
    stopped := data.Do(Rename(temporary, MarkerFile));
    if stopped { return; }
    stopped := data.Do(Remove(temporary));
  }

  /** Installing and then marking, in one run or stopped in either half. */
  lemma InstallThenMarkSteps(d: Directory, r: Request, x: Scratch, n: nat)
    ensures n < 5 ==> Perform(d, InstallSteps(r, x) + MarkSteps(r, x), n) == Perform(d, InstallSteps(r, x), n)
    ensures n >= 5 ==>
      Perform(d, InstallSteps(r, x) + MarkSteps(r, x), n) == Perform(Perform(d, InstallSteps(r, x), n), MarkSteps(r, x), n - 5)
  {
    PerformConcat(d, InstallSteps(r, x), MarkSteps(r, x), n);
    FiveSteps(d, InstallSteps(r, x), 5);
    FiveSteps(d, InstallSteps(r, x), n);
    if n == 5 {
      assert Perform(Perform(d, InstallSteps(r, x), 5), MarkSteps(r, x), 0) == Perform(d, InstallSteps(r, x), 5);
    }
  }

  class ZipMigrationArchive {
    const p: Platform
    /** The archives by the instant in their file name. */
    var archives: map<Timestamp, Archive>

    constructor (p: Platform)
      ensures this.p == p && archives == map[]
    {
      this.p, archives := p, map[];
    }

    /** Add one archive; the data directory and the other archives stay as they are. */
    method ExportState(data: DataDirectory, options: Options, at: Timestamp, version: string)
      returns (r: Result<Exported, Error>)
      modifies this
      ensures r == Export(p, data.nodes, at in old(archives), options, at, version)
      ensures r.Ok? ==> at !in old(archives) && archives == old(archives)[at := r.value.archive]
      ensures r.Err? ==> archives == old(archives)
    {
      r := Export(p, data.nodes, at in archives, options, at, version);
      if r.Ok? {
        archives := archives[at := r.value.archive];
      }
    }

    /** Install what is missing and mark it, unless the directory refuses. */
    method CarryOut(data: DataDirectory, r: Request, x: Scratch) returns (outcome: Outcome)
      modifies data
      ensures data.nodes == ImportUpTo(p, old(data.nodes), r, x, old(data.remaining))
      ensures outcome == OutcomeOf(Decide(p, old(data.nodes), r), r, x, old(data.remaining))
    {
      if OtherStateName(r.stateName) in data.nodes {
        return Refused(OtherState);
      }
      var completed := CompletedImport(p, data.nodes, r);
      if completed.Err? {
        return Refused(completed.error);
      }
      if completed.value {
        return Imported;
      }
      if r.stateName in data.nodes {
        match data.nodes[r.stateName]
        case Symlink => return Refused(UnrelatedState);
        case Folder => return Refused(Unreadable);
        case File(body) =>
          if p.digest(body) != r.stateDigest {
            return Refused(UnrelatedState);
          }
      } else {
        InstallThenMarkSteps(data.nodes, r, x, data.remaining);
        var stopped := InstallState(data, r, x);
        if stopped {
          return Stopped;
        }
      }
      var stopped := WriteMarker(data, r, x);
      outcome := if stopped then Stopped else Imported;
    }

    method ImportState(data: DataDirectory, file: Timestamp, digest: Digest, options: Options, x: Scratch)
      returns (outcome: Outcome)
      modifies data
      ensures match Requested(p, Source(file), digest, options)
        case Err(e) => outcome == Refused(e) && data.nodes == old(data.nodes)
        case Ok(r) =>
          && data.nodes == ImportUpTo(p, old(data.nodes), r, x, old(data.remaining))
          && outcome == OutcomeOf(Decide(p, old(data.nodes), r), r, x, old(data.remaining))
      ensures !outcome.Refused? || data.nodes != old(data.nodes) ==>
          file in archives && p.archiveDigest(archives[file]) == digest
      ensures !outcome.Refused? <==> Acceptable(p, old(data.nodes), Source(file), digest, options)
      ensures outcome.Refused? ==> data.nodes == old(data.nodes)
      ensures outcome.Imported? ==> file in archives && Arrived(p, old(data.nodes), archives[file], digest, data.nodes)
    {
      var request := Requested(p, Source(file), digest, options);
      ImportMeans(p, data.nodes, Source(file), digest, options, x, data.remaining);
      if request.Err? {
        return Refused(request.error);
      }
      outcome := CarryOut(data, request.value, x);
    }

    function Source(file: Timestamp): Option<Archive>
      reads this
    {
      if file in archives then Some(archives[file]) else None
    }
  }
}
