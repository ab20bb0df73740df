/**
  * One sync run as a function of what it observes: the scan, the base, the remote view, the edits
  * made meanwhile and the fate each planned write meets. `Run` bundles those inputs; everything
  * else is derived path by path, so a law about a run is a law about one path.
  */
module SyncRun {
  import opened Prelude
  import opened SyncPlan

  type Home = map<StorePath, Text>

  /** Device policy and adapter declarations, reduced to what the engine asks of them. */
  datatype Config = Config(
    declared: set<Surface>,
    disabled: set<Surface>,
    optedIn: set<Surface>,
    prune: bool,
    ignored: StorePath -> bool,
    conflictCopy: StorePath -> bool)

  datatype MergeResult = Same | Clean(content: Text) | Conflicted

  /** A surface's merge strategy: base, local, remote. */
  type MergeFn = (StorePath, Text, Text, Text) -> MergeResult

  /** How the apply phase ends for one planned path. */
  datatype Fate = Applied | Deferred | WrittenThenDeferred | Blocked

  /**
    * `home` is what the opening scan reads. The user goes on editing: `found` is what each path
    * holds when the loops come to it, `late` what is done to it between then and the closing scan.
    */
  datatype Run = Run(
    cfg: Config,
    roots: set<Surface>,
    home: Home,
    found: Home,
    late: map<StorePath, Option<Text>>,
    base: Option<Manifest>,
    remote: Option<Manifest>,
    fate: StorePath -> Fate,
    headUploads: set<Hash>,
    merge: MergeFn)

  /** Nobody edits while the run is under way. */
  predicate Quiet(run: Run) {
    run.found == run.home && run.late == map[]
  }

  // ----- Authority -----

  predicate Syncable(cfg: Config, p: StorePath) {
    && p.surface in cfg.declared && p.surface !in cfg.disabled
    && (p.policy == OptIn ==> p.surface in cfg.optedIn)
  }

  predicate IgnoreProtects(run: Run, p: StorePath) {
    run.cfg.ignored(p) && (!run.cfg.prune || p in run.home)
  }

  predicate Excluded(run: Run, p: StorePath) {
    run.cfg.conflictCopy(p) || IgnoreProtects(run, p)
  }

  /** The surfaces the run may commit deletions for. */
  predicate Live(run: Run, s: Surface) {
    s in run.cfg.declared && s !in run.cfg.disabled && (s in run.roots || run.cfg.prune)
  }

  /** Paths the run answers for; every other entry is carried forward. */
  predicate InAuthority(run: Run, p: StorePath) {
    !IgnoreProtects(run, p) && Live(run, p.surface) && Syncable(run.cfg, p)
  }

  predicate Managed(run: Run, p: StorePath) {
    InAuthority(run, p) && !run.cfg.conflictCopy(p)
  }

  // ----- Planning -----

  function LocalAt(run: Run, p: StorePath): Option<Hash> {
    if p in run.home && Syncable(run.cfg, p) && !Excluded(run, p) then Some(HashOf(run.home[p])) else None
  }

  function BaseAt(run: Run, p: StorePath): Option<Entry> { EntryAt(run.base, p) }

  function RemoteAt(run: Run, p: StorePath): Option<Entry> { EntryAt(run.remote, p) }

  predicate Planned(run: Run, p: StorePath) {
    && !Excluded(run, p) && Syncable(run.cfg, p)
    && (LocalAt(run, p).Some? || RemoteAt(run, p).Some?)
  }

  function ResolutionAt(run: Run, p: StorePath): Resolution {
    if Planned(run, p) then Classify(BaseAt(run, p), LocalAt(run, p), RemoteAt(run, p)) else Unchanged
  }

  // ----- Applying -----

  /** The remote side can be fetched; an entry without ciphertext is skipped, not deferred. */
  predicate Fetchable(run: Run, p: StorePath) {
    IsFile(RemoteAt(run, p)) && RemoteAt(run, p).value.blob.Some?
  }

  function Blobbed(e: Option<Entry>): Option<Entry> {
    if IsFile(e) && e.value.blob.Some? then e else None
  }

  /** The loop's guard: the path still reads as the scan left it. */
  predicate UnchangedSinceScan(run: Run, p: StorePath) {
    Get(run.found, p) == Get(run.home, p)
  }

  /** A merge reads the text it finds, whatever the scan saw; without one it cannot settle. */
  predicate Mergeable(run: Run, p: StorePath) {
    Fetchable(run, p) && p in run.found
  }

  /** Merge input for a path: without a base file to fetch the remote text stands in for it. */
  function MergeAt(run: Run, p: StorePath): MergeResult
    requires ResolutionAt(run, p) == Merge && Mergeable(run, p)
  {
    var remote := RemoteAt(run, p).value.hash.text;
    var base := if Blobbed(BaseAt(run, p)).Some? then BaseAt(run, p).value.hash.text else remote;
    run.merge(p, base, run.found[p], remote)
  }

  /** The text a merge leaves on disk: conflicts and no-op merges keep the local text. */
  function MergedText(run: Run, p: StorePath): Text
    requires ResolutionAt(run, p) == Merge && Mergeable(run, p)
  {
    match MergeAt(run, p)
    case Clean(content) => content
    case _ => run.found[p]
  }

  /** What a path holds once its turn is over. */
  function AppliedAt(run: Run, p: StorePath): Option<Text> {
    match ResolutionAt(run, p)
    case Download =>
      if Fetchable(run, p) && UnchangedSinceScan(run, p) && run.fate(p) == Applied
      then Some(RemoteAt(run, p).value.hash.text) else Get(run.found, p)
    case Merge =>
      if Mergeable(run, p) && (run.fate(p) == Applied || run.fate(p) == WrittenThenDeferred)
      then Some(MergedText(run, p)) else Get(run.found, p)
    case DeleteLocal =>
      if UnchangedSinceScan(run, p) && run.fate(p) == Applied then None else Get(run.found, p)
    case _ => Get(run.found, p)
  }

  /** What the closing scan finds. */
  function HomeAfterAt(run: Run, p: StorePath): Option<Text> {
    if p in run.late then run.late[p] else AppliedAt(run, p)
  }

  function HomeAfter(run: Run): (home: Home) {
    map p | p in run.found.Keys + run.late.Keys + Keys(run.remote) && HomeAfterAt(run, p).Some? ::
      HomeAfterAt(run, p).value
  }

  lemma HomeAfterIsPathwise(run: Run, p: StorePath)
    ensures Get(HomeAfter(run), p) == HomeAfterAt(run, p)
  {
  }

  /** Put off for a later run; a deletion whose file is already gone has nothing to put off. */
  predicate DeferredAt(run: Run, p: StorePath) {
    match ResolutionAt(run, p)
    case Download => Fetchable(run, p) && !(UnchangedSinceScan(run, p) && run.fate(p) == Applied)
    case Merge => Fetchable(run, p) && !(p in run.found && run.fate(p) == Applied)
    case DeleteLocal => p in run.found && !(UnchangedSinceScan(run, p) && run.fate(p) == Applied)
    case _ => false
  }

  predicate BlockedAt(run: Run, p: StorePath) {
    ResolutionAt(run, p) == Upload && p in run.found && run.fate(p) == Blocked
  }

  /** The turn ended with the path's content sealed and sent. */
  predicate UploadedAt(run: Run, p: StorePath) {
    || (ResolutionAt(run, p) == Upload && p in run.found && run.fate(p) != Blocked)
    || (ResolutionAt(run, p) == Merge && Mergeable(run, p) && run.fate(p) == Applied)
  }

  lemma UploadedHasText(run: Run, p: StorePath)
    requires UploadedAt(run, p)
    ensures p in run.home && p in run.found && AppliedAt(run, p).Some?
  {
  }

  function UploadedHashes(run: Run): set<Hash> {
    set p | p in run.home && UploadedAt(run, p) && AppliedAt(run, p).Some? :: HashOf(AppliedAt(run, p).value)
  }

  // ----- Assembling the next manifest -----

  function FileHashes(m: Option<Manifest>): set<Hash> {
    set p | p in Keys(m) && m.value[p].File? && m.value[p].blob.Some? :: m.value[p].hash
  }

  /** A hash has ciphertext behind it: carried by base, by the remote view, or uploaded just now. */
  predicate HasRef(run: Run, h: Hash) {
    h in FileHashes(run.base) || h in FileHashes(run.remote) || h in run.headUploads || h in UploadedHashes(run)
  }

  predicate TombstonedAt(run: Run, p: StorePath) {
    ResolutionAt(run, p) == DeleteRemote && Live(run, p.surface)
  }

  /** The entry a blocked or unpushed local edit falls back to. */
  function FallbackAt(run: Run, p: StorePath): Option<Entry> {
    Blobbed(if BaseAt(run, p).Some? then BaseAt(run, p) else RemoteAt(run, p))
  }

  function CarriedAt(run: Run, p: StorePath): Option<Entry> {
    if InAuthority(run, p) then None
    else if RemoteAt(run, p).Some? then RemoteAt(run, p)
    else BaseAt(run, p)
  }

  /** The closing scan reports the path. */
  predicate Scanned(run: Run, p: StorePath) {
    p in HomeAfter(run) && !Excluded(run, p) && Syncable(run.cfg, p)
  }

  /** The closing scan's contribution: the content if it has ciphertext, else the fallback. */
  function ScannedAt(run: Run, p: StorePath): Option<Entry> {
    if !Scanned(run, p) then None
    else if HasRef(run, HashOf(HomeAfter(run)[p])) then Some(File(HashOf(HomeAfter(run)[p]), None))
    else FallbackAt(run, p)
  }

  /**
    * The last entry listed for a path counts: a tombstone comes after a scanned file, and an entry
    * is carried only where neither is listed.
    */
  function NewEntryAt(run: Run, p: StorePath): Option<Entry> {
    if TombstonedAt(run, p) then Some(Tombstone)
    else if ScannedAt(run, p).Some? then ScannedAt(run, p)
    else CarriedAt(run, p)
  }

  /** Both a file and a tombstone are listed: the file came back after its deletion was planned. */
  predicate RecreatedAt(run: Run, p: StorePath) {
    TombstonedAt(run, p) && ScannedAt(run, p).Some?
  }

  /** The file listed for a path, shadowed by a tombstone or not. */
  function ListedAt(run: Run, p: StorePath): Option<Hash> {
    FileHash(if ScannedAt(run, p).Some? then ScannedAt(run, p) else NewEntryAt(run, p))
  }

  /** The files a run lists: what it compares with the head and the base. */
  function Listed(run: Run): map<StorePath, Hash> {
    map p | p in HomeAfter(run).Keys + Keys(run.base) + Keys(run.remote) && ListedAt(run, p).Some? ::
      ListedAt(run, p).value
  }

  /** A file is listed twice over: the local copy of such a manifest cannot be saved. */
  predicate Collides(run: Run) {
    exists p | p in Keys(run.remote) :: RecreatedAt(run, p)
  }

  /**
    * `m` is a manifest this run may assemble. Kinds and hashes are fixed path by path; which of
    * several ciphertexts of one content backs a scanned file is not, but every file entry has
    * one unless it was carried over without.
    */
  ghost predicate Assembles(run: Run, m: Manifest) {
    && (forall p :: SameContent(Get(m, p), NewEntryAt(run, p)))
    && (forall p | p in m && m[p].File? :: m[p].blob.Some? || CarriedAt(run, p) == Some(m[p]))
  }

  predicate Unresolved(run: Run) {
    exists p | p in run.home.Keys + Keys(run.remote) ::
      DeferredAt(run, p) && !SameContent(RemoteAt(run, p), BaseAt(run, p))
  }

  /** The files of a manifest; tombstones and blob references drop out. */
  function Files(m: Manifest): map<StorePath, Hash> {
    map p | p in m && m[p].File? :: m[p].hash
  }

  lemma FilesAt(m: Manifest, p: StorePath)
    ensures Get(Files(m), p) == FileHash(Get(m, p))
  {
  }
}
