/**
  * The run itself: loops over the plan that open, merge, write, delete, upload and assemble,
  * each shown to do to every path what `SyncRun` says, and nothing to any other path.
  */
module SyncSession {
  import opened Prelude
  import opened SyncPlan
  import opened SyncRun
  import opened SyncLaws
  import opened Blobs

  /** Ciphertext references by content hash, as a run collects them. */
  type Refs = map<Hash, Ref>

  function PathsOf(files: seq<PlanFile>): set<StorePath> {
    set f | f in files :: f.path
  }

  /** The plan names each path once and carries the table's verdict on its three sides. */
  ghost predicate Plans(files: seq<PlanFile>, base: Option<Manifest>, local: LocalManifest, remote: Option<Manifest>) {
    && (forall i, j :: 0 <= i < j < |files| ==> files[i].path != files[j].path)
    && (forall f :: f in files ==>
          && f.base == EntryAt(base, f.path)
          && f.local == Get(local, f.path)
          && f.remote == EntryAt(remote, f.path)
          && f.resolution == Classify(f.base, f.local, f.remote))
  }

  method ComputeSyncPlan(base: Option<Manifest>, local: LocalManifest, remote: Option<Manifest>,
                         excluded: set<StorePath>)
    returns (files: seq<PlanFile>)
    ensures Plans(files, base, local, remote)
    ensures PathsOf(files) == Keys(base) + local.Keys + Keys(remote) - excluded
  {
    files := [];
    var all := Keys(base) + local.Keys + Keys(remote) - excluded;
    var paths := all;
    while paths != {}
      invariant paths <= all && PathsOf(files) == all - paths
      invariant Plans(files, base, local, remote)
    {
      var p :| p in paths;
      var b, l, r := EntryAt(base, p), Get(local, p), EntryAt(remote, p);
      var file := PlanFile(p, Classify(b, l, r), b, l, r);
      forall f | f in files ensures f.path != p { assert f.path in PathsOf(files); }
      assert PathsOf(files + [file]) == PathsOf(files) + {p};
      files := files + [file];
      paths := paths - {p};
    }
  }

  // ----- References -----

  function RefsFor(m: Option<Manifest>, h: Hash): set<Ref> {
    set p | p in Keys(m) && m.value[p].File? && m.value[p].hash == h && m.value[p].blob.Some? ::
      m.value[p].blob.value
  }

  /** Uploads of this run win over the base's references, and those over the remote's. */
  ghost predicate Collected(run: Run, uploaded: Refs, refs: Refs) {
    && refs.Keys == FileHashes(run.base) + FileHashes(run.remote) + uploaded.Keys
    && forall h :: h in refs ==>
         if h in uploaded then refs[h] == uploaded[h]
         else if h in FileHashes(run.base) then refs[h] in RefsFor(run.base, h)
         else refs[h] in RefsFor(run.remote, h)
  }

  method AddRefs(m: Option<Manifest>, refs: Refs) returns (more: Refs)
    ensures more.Keys == refs.Keys + FileHashes(m)
    ensures forall h :: h in more ==> if h in refs then more[h] == refs[h] else more[h] in RefsFor(m, h)
  {
    more := refs;
    var paths := Keys(m);
    ghost var seen: set<Hash> := {};
    while paths != {}
      invariant paths <= Keys(m)
      invariant seen == set p | p in Keys(m) - paths && m.value[p].File? && m.value[p].blob.Some? :: m.value[p].hash
      invariant more.Keys == refs.Keys + seen
      invariant forall h :: h in more ==> if h in refs then more[h] == refs[h] else more[h] in RefsFor(m, h)
    {
      var p :| p in paths;
      var e := m.value[p];
      if e.File? && e.blob.Some? {
        if e.hash !in more {
          assert e.blob.value in RefsFor(m, e.hash);
          more := more[e.hash := e.blob.value];
        }
        seen := seen + {e.hash};
      }
      paths := paths - {p};
    }
  }

  method CollectRefs(run: Run, uploaded: Refs) returns (refs: Refs)
    ensures Collected(run, uploaded, refs)
  {
    refs := AddRefs(run.base, map[]);
    refs := AddRefs(run.remote, refs);
    refs := refs + uploaded;
  }

  /** The closing scan's share of the next manifest. */
  function ScanEntry(run: Run, refs: Refs, p: StorePath): Option<Entry> {
    if !Scanned(run, p) then None
    else if HashOf(HomeAfter(run)[p]) in refs then
      var h := HashOf(HomeAfter(run)[p]); Some(File(h, Some(refs[h])))
    else FallbackAt(run, p)
  }

  /** The entry of the next manifest, reference included. */
  function EntryWith(run: Run, refs: Refs, p: StorePath): Option<Entry> {
    if TombstonedAt(run, p) then Some(Tombstone)
    else if ScanEntry(run, refs, p).Some? then ScanEntry(run, refs, p)
    else CarriedAt(run, p)
  }

  ghost predicate AssembledWith(run: Run, refs: Refs, m: Manifest) {
    forall p :: Get(m, p) == EntryWith(run, refs, p)
  }

  lemma AssembledWithAssembles(run: Run, uploaded: Refs, refs: Refs, m: Manifest)
    requires Collected(run, uploaded, refs) && AssembledWith(run, refs, m)
    requires uploaded.Keys == run.headUploads + UploadedHashes(run)
    ensures Assembles(run, m)
  {
    forall p
      ensures SameContent(Get(m, p), NewEntryAt(run, p))
      ensures p in m && m[p].File? ==> m[p].blob.Some? || CarriedAt(run, p) == Some(m[p])
    {
      assert Get(m, p) == EntryWith(run, refs, p);
      assert forall h :: h in refs <==> HasRef(run, h);
    }
  }

  /** What the tombstones shadow: scanned files listed before them. */
  ghost predicate Shadows(run: Run, refs: Refs, shadowed: Manifest) {
    forall p :: Get(shadowed, p) == if TombstonedAt(run, p) then ScanEntry(run, refs, p) else None
  }

  ghost function ShadowedBy(run: Run, refs: Refs): (shadowed: Manifest)
    ensures Shadows(run, refs, shadowed)
  {
    map p | p in Keys(run.remote) && TombstonedAt(run, p) && ScanEntry(run, refs, p).Some? ::
      ScanEntry(run, refs, p).value
  }

  lemma ListedAtIsEither(run: Run, refs: Refs, p: StorePath)
    requires forall h :: h in refs <==> HasRef(run, h)
    ensures ListedAt(run, p) ==
            if TombstonedAt(run, p) && ScanEntry(run, refs, p).Some? then FileHash(ScanEntry(run, refs, p))
            else FileHash(EntryWith(run, refs, p))
    ensures ScanEntry(run, refs, p).Some? ==> IsFile(ScanEntry(run, refs, p))
    ensures ListedAt(run, p) == Get(Listed(run), p)
  {
  }

  lemma ListedIsBoth(run: Run, uploaded: Refs, refs: Refs, m: Manifest, shadowed: Manifest)
    requires Collected(run, uploaded, refs) && AssembledWith(run, refs, m) && Shadows(run, refs, shadowed)
    requires uploaded.Keys == run.headUploads + UploadedHashes(run)
    ensures Files(m) + Files(shadowed) == Listed(run)
  {
    assert forall h :: h in refs <==> HasRef(run, h);
    forall p ensures Get(Files(m) + Files(shadowed), p) == Get(Listed(run), p) {
      assert Get(m, p) == EntryWith(run, refs, p);
      assert Get(shadowed, p) == if TombstonedAt(run, p) then ScanEntry(run, refs, p) else None;
      ListedAtIsEither(run, refs, p);
      FilesAt(m, p);
      FilesAt(shadowed, p);
    }
    SameLookups(Files(m) + Files(shadowed), Listed(run));
  }

  // ----- Integrity -----

  predicate OpensAll(blobs: Ciphertexts, key: Key, refs: Refs) {
    forall h :: h in refs ==> Opens(blobs, key, refs[h], h)
  }

  lemma CollectedOpens(blobs: Ciphertexts, key: Key, run: Run, uploaded: Refs, refs: Refs)
    requires Collected(run, uploaded, refs) && OpensAll(blobs, key, uploaded)
    requires IntactView(blobs, key, run.base) && IntactView(blobs, key, run.remote)
    ensures OpensAll(blobs, key, refs)
  {
  }

  predicate EntryOpens(blobs: Ciphertexts, key: Key, e: Option<Entry>) {
    IsFile(e) && e.value.blob.Some? ==> Opens(blobs, key, e.value.blob.value, e.value.hash)
  }

  lemma EntryWithOpens(blobs: Ciphertexts, key: Key, run: Run, refs: Refs, p: StorePath)
    requires OpensAll(blobs, key, refs)
    requires EntryOpens(blobs, key, BaseAt(run, p)) && EntryOpens(blobs, key, RemoteAt(run, p))
    ensures EntryOpens(blobs, key, ScanEntry(run, refs, p)) && EntryOpens(blobs, key, EntryWith(run, refs, p))
  {
  }

  lemma EntriesOpen(blobs: Ciphertexts, key: Key, m: Manifest)
    ensures Intact(blobs, key, m) <==> forall p :: EntryOpens(blobs, key, Get(m, p))
  {
    if forall p :: EntryOpens(blobs, key, Get(m, p)) {
      forall p | p in m && m[p].File? && m[p].blob.Some? ensures Opens(blobs, key, m[p].blob.value, m[p].hash) {
        assert EntryOpens(blobs, key, Get(m, p));
      }
    }
  }

  /**
    * Manifest integrity: if both manifests a run starts from open under its key, so does the one it
    * assembles, and so do the files it lists under a tombstone. Carried, fallback and freshly
    * uploaded entries included.
    */
  lemma AssembledIsIntact(blobs: Ciphertexts, key: Key, run: Run, uploaded: Refs, refs: Refs,
                          m: Manifest, shadowed: Manifest)
    requires Collected(run, uploaded, refs) && AssembledWith(run, refs, m) && Shadows(run, refs, shadowed)
    requires OpensAll(blobs, key, uploaded)
    requires IntactView(blobs, key, run.base) && IntactView(blobs, key, run.remote)
    ensures Intact(blobs, key, m) && Intact(blobs, key, shadowed)
  {
    CollectedOpens(blobs, key, run, uploaded, refs);
    forall p ensures EntryOpens(blobs, key, Get(m, p)) && EntryOpens(blobs, key, Get(shadowed, p)) {
      EntryWithOpens(blobs, key, run, refs, p);
      assert Get(m, p) == EntryWith(run, refs, p);
      assert Get(shadowed, p) == if TombstonedAt(run, p) then ScanEntry(run, refs, p) else None;
    }
    EntriesOpen(blobs, key, m);
    EntriesOpen(blobs, key, shadowed);
  }

  /**
    * The entry's reference comes from the base: the scanned content was not sent by this run but is
    * in the base, or has no ciphertext and falls back to it, or the entry is carried from the base.
    */
  predicate TakesFromBase(run: Run, uploaded: Refs, p: StorePath) {
    && !TombstonedAt(run, p)
    && if Scanned(run, p) then
         var h := HashOf(HomeAfter(run)[p]);
         h !in uploaded && (h in FileHashes(run.base) ||
                            (h !in FileHashes(run.remote) && Blobbed(BaseAt(run, p)).Some?))
       else !InAuthority(run, p) && RemoteAt(run, p).None? && Blobbed(BaseAt(run, p)).Some?
  }

  lemma RefTaken(blobs: Ciphertexts, key: Key, run: Run, uploaded: Refs, refs: Refs, h: Hash)
    requires Collected(run, uploaded, refs) && OpensAll(blobs, key, uploaded) && IntactView(blobs, key, run.remote)
    ensures h in refs <==> h in uploaded || h in FileHashes(run.base) || h in FileHashes(run.remote)
    ensures h !in uploaded && h in FileHashes(run.base) ==> refs[h] in RefsFor(run.base, h)
    ensures h in refs && (h in uploaded || h !in FileHashes(run.base)) ==> Opens(blobs, key, refs[h], h)
  {
  }

  /** One entry: what is not taken from the base opens, what is names one of the base's references. */
  lemma EntryTaken(blobs: Ciphertexts, key: Key, run: Run, uploaded: Refs, refs: Refs, p: StorePath)
    requires Collected(run, uploaded, refs) && OpensAll(blobs, key, uploaded) && IntactView(blobs, key, run.remote)
    ensures var e := EntryWith(run, refs, p);
            if TakesFromBase(run, uploaded, p) then
              IsFile(e) && e.value.blob.Some? && e.value.blob.value in RefsFor(run.base, e.value.hash)
            else EntryOpens(blobs, key, e)
  {
    if Scanned(run, p) { RefTaken(blobs, key, run, uploaded, refs, HashOf(HomeAfter(run)[p])); }
    var base, remote := BaseAt(run, p), RemoteAt(run, p);
    assert Blobbed(base).Some? ==> base.value.blob.value in RefsFor(run.base, base.value.hash);
    assert EntryOpens(blobs, key, remote);
  }

  /**
    * Where integrity is lost: with everything else in order, the manifest opens exactly when every
    * reference it takes from the base does.
    */
  lemma IntactExactlyWhen(blobs: Ciphertexts, key: Key, run: Run, uploaded: Refs, refs: Refs, m: Manifest)
    requires Collected(run, uploaded, refs) && AssembledWith(run, refs, m)
    requires OpensAll(blobs, key, uploaded) && IntactView(blobs, key, run.remote)
    ensures Intact(blobs, key, m) <==>
              forall p :: TakesFromBase(run, uploaded, p) ==> EntryOpens(blobs, key, Get(m, p))
  {
    forall p ensures !TakesFromBase(run, uploaded, p) ==> EntryOpens(blobs, key, Get(m, p)) {
      EntryTaken(blobs, key, run, uploaded, refs, p);
      assert Get(m, p) == EntryWith(run, refs, p);
    }
    EntriesOpen(blobs, key, m);
  }

  /** A run on this base, against a head and with uploads that open, assembles `m`. */
  ghost predicate RunsOn(blobs: Ciphertexts, key: Key, base: Manifest,
                         run: Run, uploaded: Refs, refs: Refs, m: Manifest)
  {
    && run.base == Some(base) && run.remote.Some? && IntactView(blobs, key, run.remote)
    && OpensAll(blobs, key, uploaded)
    && Collected(run, uploaded, refs) && AssembledWith(run, refs, m) && !Unresolved(run)
  }

  /** A device that has everything switched off carries its base over a head that dropped every entry. */
  function DormantRun(base: Manifest): Run {
    Run(Config({}, {}, {}, false, _ => false, _ => false), {}, map[], map[], map[], Some(base), Some(map[]),
        _ => Applied, {}, (_, _, _, _) => Same)
  }

  /** References and a manifest for a run that sends nothing. */
  lemma AssembleWithoutUploads(run: Run) returns (refs: Refs, m: Manifest)
    ensures Collected(run, map[], refs) && AssembledWith(run, refs, m)
  {
    refs := CollectWithoutUploads(run);
    m := map p | p in HomeAfter(run).Keys + Keys(run.base) + Keys(run.remote) && EntryWith(run, refs, p).Some? ::
           EntryWith(run, refs, p).value;
    forall p ensures Get(m, p) == EntryWith(run, refs, p) { EntryIsAnOldPath(run, refs, p); }
  }

  lemma EntryIsAnOldPath(run: Run, refs: Refs, p: StorePath)
    ensures EntryWith(run, refs, p).Some? ==> p in HomeAfter(run).Keys + Keys(run.base) + Keys(run.remote)
  {
  }

  lemma CollectWithoutUploads(run: Run) returns (refs: Refs)
    ensures Collected(run, map[], refs)
  {
    var hashes := FileHashes(run.base) + FileHashes(run.remote);
    forall h | h in hashes ensures KnownRefs(run, h) != {} {
      RefsForHash(run.base, h);
      RefsForHash(run.remote, h);
    }
    refs := map h | h in hashes :: Choice(KnownRefs(run, h));
  }

  function KnownRefs(run: Run, h: Hash): set<Ref> {
    if h in FileHashes(run.base) then RefsFor(run.base, h) else RefsFor(run.remote, h)
  }

  lemma RefsForHash(m: Option<Manifest>, h: Hash)
    ensures h in FileHashes(m) <==> RefsFor(m, h) != {}
  {
    if p :| p in Keys(m) && m.value[p].File? && m.value[p].blob.Some? && m.value[p].hash == h {
      assert m.value[p].blob.value in RefsFor(m, h);
    }
  }

  ghost function Choice(refs: set<Ref>): (r: Ref)
    requires refs != {}
    ensures r in refs
  {
    var x :| x in refs; x
  }

  lemma DormantRunKeepsItsBase(blobs: Ciphertexts, key: Key, base: Manifest) returns (refs: Refs)
    ensures RunsOn(blobs, key, base, DormantRun(base), map[], refs, base)
  {
    var run, m := DormantRun(base), base;
    refs, m := AssembleWithoutUploads(run);
    forall p ensures Get(base, p) == EntryWith(run, refs, p) { HomeAfterIsPathwise(run, p); }
  }

  /** A base is safe to run on exactly when it opens itself. */
  lemma BaseIsSafeExactlyWhen(blobs: Ciphertexts, key: Key, base: Manifest)
    ensures (forall run, uploaded, refs, m :: RunsOn(blobs, key, base, run, uploaded, refs, m) ==>
              Intact(blobs, key, m))
            <==> Intact(blobs, key, base)
  {
    var dormant := DormantRunKeepsItsBase(blobs, key, base);
    if Intact(blobs, key, base) {
      forall run, uploaded, refs, m | RunsOn(blobs, key, base, run, uploaded, refs, m)
        ensures Intact(blobs, key, m)
      {
        AssembledIsIntact(blobs, key, run, uploaded, refs, m, ShadowedBy(run, refs));
      }
    }
  }

  // ----- The session -----

  /** The active plan: every planned path once, with its three sides. */
  ghost predicate Active(run: Run, files: seq<PlanFile>) {
    && (forall i, j :: 0 <= i < j < |files| ==> files[i].path != files[j].path)
    && (forall f :: f in files ==>
          Planned(run, f.path) && f == PlanFile(f.path, ResolutionAt(run, f.path), BaseAt(run, f.path),
                                                LocalAt(run, f.path), RemoteAt(run, f.path)))
    && (forall p :: Planned(run, p) ==> p in PathsOf(files))
  }

  /** The paths of `files` with one resolution. */
  function With(files: seq<PlanFile>, r: Resolution): set<StorePath> {
    set f | f in files && f.resolution == r :: f.path
  }

  /** The plan entries with one resolution, in plan order. */
  function Only(files: seq<PlanFile>, r: Resolution): seq<PlanFile> {
    if files == [] then []
    else Only(files[..|files| - 1], r) +
         (if files[|files| - 1].resolution == r then [files[|files| - 1]] else [])
  }

  lemma {:induction false} OnlyIsWith(files: seq<PlanFile>, r: Resolution)
    ensures PathsOf(Only(files, r)) == With(files, r)
    ensures forall f :: f in Only(files, r) ==> f in files && f.resolution == r
  {
    if files != [] {
      var rest, last := files[..|files| - 1], files[|files| - 1];
      OnlyIsWith(rest, r);
      assert files == rest + [last];
      assert With(files, r) == With(rest, r) + if last.resolution == r then {last.path} else {};
      assert PathsOf(Only(rest, r) + [last]) == PathsOf(Only(rest, r)) + {last.path};
    }
  }

  function Sendable(run: Run, paths: set<StorePath>): set<StorePath> {
    set p | p in paths && UploadedAt(run, p)
  }

  function Held(run: Run, paths: set<StorePath>): set<StorePath> {
    set p | p in paths && BlockedAt(run, p)
  }

  lemma SendableStep(run: Run, paths: set<StorePath>, p: StorePath)
    ensures Sendable(run, paths + {p}) == Sendable(run, paths) + if UploadedAt(run, p) then {p} else {}
    ensures Held(run, paths + {p}) == Held(run, paths) + if BlockedAt(run, p) then {p} else {}
  {
  }

  lemma UploadStep(run: Run, uploads: seq<PlanFile>, i: nat)
    requires i < |uploads|
    ensures var before, p := PathsOf(uploads[..i]), uploads[i].path;
            && Sendable(run, PathsOf(uploads[..i + 1])) == Sendable(run, before) +
                  (if UploadedAt(run, p) then {p} else {})
            && Held(run, PathsOf(uploads[..i + 1])) == Held(run, before) + (if BlockedAt(run, p) then {p} else {})
  {
    assert uploads[..i + 1] == uploads[..i] + [uploads[i]];
    assert PathsOf(uploads[..i + 1]) == PathsOf(uploads[..i]) + {uploads[i].path};
    SendableStep(run, PathsOf(uploads[..i]), uploads[i].path);
  }

  lemma WithStep(files: seq<PlanFile>, i: nat, r: Resolution)
    requires i < |files| && forall a, b :: 0 <= a < b < |files| ==> files[a].path != files[b].path
    ensures With(files[..i + 1], r) ==
            With(files[..i], r) + if files[i].resolution == r then {files[i].path} else {}
    ensures files[i].path !in With(files[..i], r)
    ensures files[i].resolution == r ==> files[i].path in With(files, r)
  {
    assert files[..i + 1] == files[..i] + [files[i]];
  }

  lemma WithDisjoint(run: Run, files: seq<PlanFile>)
    requires Active(run, files)
    ensures forall a, b :: a != b ==> With(files, a) !! With(files, b)
  {
  }

  lemma ActiveFind(run: Run, files: seq<PlanFile>)
    requires Active(run, files)
    ensures forall p :: p in (set q | q in With(files, DeleteRemote) && TombstonedAt(run, q)) <==> TombstonedAt(run, p)
    ensures forall p :: p in Held(run, With(files, Upload)) <==> BlockedAt(run, p)
  {
    forall p | Planned(run, p) ensures p in With(files, ResolutionAt(run, p)) {
      assert p in PathsOf(files);
      var f :| f in files && f.path == p;
    }
  }

  lemma OverlaysAssemble(run: Run, refs: Refs, scanned: Manifest, tombstones: set<StorePath>, carried: Manifest,
                         m: Manifest)
    requires forall p :: Get(scanned, p) == ScanEntry(run, refs, p)
    requires forall p :: p in tombstones <==> TombstonedAt(run, p)
    requires forall p :: Get(carried, p) == CarriedAt(run, p)
    requires m == carried + scanned + (map p | p in tombstones :: Tombstone)
    ensures AssembledWith(run, refs, m)
  {
    forall p ensures Get(m, p) == EntryWith(run, refs, p) {
      assert Get(scanned, p) == ScanEntry(run, refs, p);
      assert Get(carried, p) == CarriedAt(run, p);
    }
  }

  /** How a run ends: wait for deferred work, adopt the head, stay on the base, or ask to commit. */
  datatype Conclusion = Wait | Adopt | Stay | Propose

  class Session {
    const run: Run
    const key: Key
    const store: BlobStore
    var home: Home
    var uploaded: Refs
    var changed: set<StorePath>
    var deferred: set<StorePath>
    var blocked: set<StorePath>
    ghost var done: set<StorePath>
    ghost var sent: set<StorePath>

    /**
      * Between any two steps the paths in `done` hold what their turn left and every other path is
      * what its turn will find.
      */
    ghost predicate Valid()
      reads this, store
    {
      && store.Valid()
      && IntactView(store.blobs, key, run.base) && IntactView(store.blobs, key, run.remote)
      && (forall p :: Get(home, p) == if p in done then AppliedAt(run, p) else Get(run.found, p))
      && Sent()
      && OpensAll(store.blobs, key, uploaded)
      && deferred == (set p | p in done && DeferredAt(run, p))
    }

    /** The references held are those of the fold and one for each text sent. */
    ghost predicate Sent()
      reads this
    {
      && (forall p :: p in sent ==> UploadedAt(run, p) && AppliedAt(run, p).Some?)
      && uploaded.Keys == run.headUploads + (set p | p in sent :: HashOf(AppliedAt(run, p).value))
    }

    constructor (run: Run, key: Key, store: BlobStore, headUploads: Refs)
      requires store.Valid() && headUploads.Keys == run.headUploads
      requires IntactView(store.blobs, key, run.base) && IntactView(store.blobs, key, run.remote)
      requires OpensAll(store.blobs, key, headUploads)
      ensures Valid() && this.run == run && this.key == key && this.store == store
      ensures done == {} && sent == {}
    {
      this.run, this.key, this.store := run, key, store;
      home, uploaded := run.found, headUploads;
      changed, deferred, blocked := {}, {}, {};
      done, sent := {}, {};
    }

    /** Seals and uploads a projection unless this run already holds ciphertext for its hash. */
    method SealUpload(projection: Text) returns (ref: Ref)
      requires Valid()
      modifies this`uploaded, store
      ensures store.Valid() && Extends(old(store.blobs), store.blobs)
      ensures uploaded == old(uploaded)[HashOf(projection) := ref] && OpensAll(store.blobs, key, uploaded)
      ensures HashOf(projection) in old(uploaded) ==> store.blobs == old(store.blobs)
    {
      var h := HashOf(projection);
      if h in uploaded { return uploaded[h]; }
      ref := store.Put(Sealed(key, projection));
      uploaded := uploaded[h := ref];
    }

    /** Uploads one file's current content, unless it is gone or a secret rule blocks it. */
    method UploadLocalFile(p: StorePath) returns (ok: bool)
      requires Valid() && Get(home, p) == AppliedAt(run, p)
      requires p in home && run.fate(p) != Blocked ==> UploadedAt(run, p)
      modifies this`uploaded, this`sent, this`changed, this`blocked, store
      ensures Valid() && Extends(old(store.blobs), store.blobs)
      ensures ok == (p in home && run.fate(p) != Blocked)
      ensures sent == if ok then old(sent) + {p} else old(sent)
      ensures changed == if ok then old(changed) + {p} else old(changed)
      ensures blocked == if p in home && !ok then old(blocked) + {p} else old(blocked)
    {
      if p !in home { return false; }
      if run.fate(p) == Blocked {
        blocked := blocked + {p};
        return false;
      }
      var _ := SealUpload(home[p]);
      sent := sent + {p};
      changed := changed + {p};
      ok := true;
    }

    /** Fetches and opens the ciphertext behind a manifest entry. */
    method Fetch(e: Entry) returns (text: Text)
      requires e.File? && e.blob.Some? && Opens(store.blobs, key, e.blob.value, e.hash)
      ensures text == e.hash.text
    {
      text := Open(key, store.blobs[e.blob.value]).value;
    }

    method DownloadOne(f: PlanFile)
      requires Valid() && f.path !in done && ResolutionAt(run, f.path) == Download
      requires f.remote == RemoteAt(run, f.path)
      modifies this`home, this`deferred, this`done, this`changed
      ensures Valid() && done == old(done) + {f.path}
    {
      if f.remote.value.blob.Some? {
        var remoteText := Fetch(f.remote.value);
        if Get(home, f.path) != Get(run.home, f.path) || run.fate(f.path) != Applied {
          deferred := deferred + {f.path};
        } else {
          home := home[f.path := remoteText];
          changed := changed + {f.path};
        }
      }
      done := done + {f.path};
    }

    /** Merges three texts and writes a clean result; a conflict or a no-op leaves the local text. */
    method WriteMerged(p: StorePath, baseText: Text, remoteText: Text)
      requires Valid() && p !in done && ResolutionAt(run, p) == Merge && Mergeable(run, p)
      requires remoteText == RemoteAt(run, p).value.hash.text
      requires baseText == if Blobbed(BaseAt(run, p)).Some? then BaseAt(run, p).value.hash.text else remoteText
      modifies this`home, this`done, this`deferred
      ensures Valid() && done == old(done) + {p}
    {
      var fate := run.fate(p);
      if fate == Applied || fate == WrittenThenDeferred {
        match run.merge(p, baseText, home[p], remoteText) {
          case Clean(content) => home := home[p := content];
          case Same =>
          case Conflicted =>
        }
      }
      if fate != Applied { deferred := deferred + {p}; }
      done := done + {p};
    }

    method MergeOne(f: PlanFile)
      requires Valid() && f.path !in done && ResolutionAt(run, f.path) == Merge
      requires f.remote == RemoteAt(run, f.path) && f.base == BaseAt(run, f.path)
      modifies this`home, this`deferred, this`done, this`changed, this`uploaded, this`sent, this`blocked, store
      ensures Valid() && Extends(old(store.blobs), store.blobs)
      ensures done == old(done) + {f.path}
      ensures sent == if UploadedAt(run, f.path) then old(sent) + {f.path} else old(sent)
      ensures blocked == old(blocked)
    {
      if f.remote.value.blob.None? {
        done := done + {f.path};
        return;
      }
      if f.path !in home {
        deferred := deferred + {f.path};
        done := done + {f.path};
        return;
      }
      var remoteText := Fetch(f.remote.value);
      var baseText := remoteText;
      if Blobbed(f.base).Some? { baseText := Fetch(f.base.value); }
      WriteMerged(f.path, baseText, remoteText);
      if run.fate(f.path) == Applied {
        var _ := UploadLocalFile(f.path);
      }
    }

    method DeleteOne(f: PlanFile)
      requires Valid() && f.path !in done && ResolutionAt(run, f.path) == DeleteLocal
      modifies this`home, this`deferred, this`done, this`changed
      ensures Valid() && done == old(done) + {f.path}
    {
      if f.path in home {
        if Get(home, f.path) != Get(run.home, f.path) || run.fate(f.path) != Applied {
          deferred := deferred + {f.path};
        } else {
          home := home - {f.path};
          changed := changed + {f.path};
        }
      }
      done := done + {f.path};
    }

    method ApplyDownloads(files: seq<PlanFile>)
      requires Valid() && Active(run, files) && done !! With(files, Download)
      modifies this`home, this`deferred, this`done, this`changed
      ensures Valid() && done == old(done) + With(files, Download)
    {
      for i := 0 to |files|
        invariant Valid() && done == old(done) + With(files[..i], Download)
      {
        WithStep(files, i, Download);
        assert files[i] in files;
        if files[i].resolution == Download { DownloadOne(files[i]); }
      }
      assert files[..|files|] == files;
    }

    method ApplyMerges(files: seq<PlanFile>)
      requires Valid() && Active(run, files) && done !! With(files, Merge)
      modifies this`home, this`deferred, this`done, this`changed, this`uploaded, this`sent, this`blocked, store
      ensures Valid() && Extends(old(store.blobs), store.blobs)
      ensures done == old(done) + With(files, Merge) && blocked == old(blocked)
      ensures sent == old(sent) + Sendable(run, With(files, Merge))
    {
      for i := 0 to |files|
        invariant Valid() && Extends(old(store.blobs), store.blobs) && blocked == old(blocked)
        invariant done == old(done) + With(files[..i], Merge)
        invariant sent == old(sent) + Sendable(run, With(files[..i], Merge))
      {
        WithStep(files, i, Merge);
        SendableStep(run, With(files[..i], Merge), files[i].path);
        assert files[i] in files;
        if files[i].resolution == Merge { MergeOne(files[i]); }
      }
      assert files[..|files|] == files;
    }

    method ApplyDeletes(files: seq<PlanFile>)
      requires Valid() && Active(run, files) && done !! With(files, DeleteLocal)
      modifies this`home, this`deferred, this`done, this`changed
      ensures Valid() && done == old(done) + With(files, DeleteLocal)
    {
      for i := 0 to |files|
        invariant Valid() && done == old(done) + With(files[..i], DeleteLocal)
      {
        WithStep(files, i, DeleteLocal);
        assert files[i] in files;
        if files[i].resolution == DeleteLocal { DeleteOne(files[i]); }
      }
      assert files[..|files|] == files;
    }

    /** Splits the remaining work: tombstones the run may commit, and files to upload. */
    method CollectWork(files: seq<PlanFile>) returns (tombstones: set<StorePath>, uploads: seq<PlanFile>)
      requires Active(run, files)
      modifies this`changed
      ensures tombstones == (set p | p in With(files, DeleteRemote) && TombstonedAt(run, p))
      ensures uploads == Only(files, Upload)
      ensures changed == old(changed) + tombstones
    {
      tombstones, uploads := {}, [];
      for i := 0 to |files|
        invariant tombstones == (set p | p in With(files[..i], DeleteRemote) && TombstonedAt(run, p))
        invariant uploads == Only(files[..i], Upload)
        invariant changed == old(changed) + tombstones
      {
        WithStep(files, i, DeleteRemote);
        assert files[i] in files;
        assert files[..i + 1][..i] == files[..i];
        if files[i].resolution == DeleteRemote {
          if Live(run, files[i].path.surface) {
            tombstones := tombstones + {files[i].path};
            changed := changed + {files[i].path};
          }
        } else if files[i].resolution == Upload {
          uploads := uploads + [files[i]];
        }
      }
      assert files[..|files|] == files;
    }

    method UploadOne(p: StorePath)
      requires Valid() && ResolutionAt(run, p) == Upload && p !in done
      modifies this`uploaded, this`sent, this`changed, this`blocked, store
      ensures Valid() && Extends(old(store.blobs), store.blobs)
      ensures sent == old(sent) + if UploadedAt(run, p) then {p} else {}
      ensures blocked == old(blocked) + if BlockedAt(run, p) then {p} else {}
    {
      var _ := UploadLocalFile(p);
    }

    method UploadAll(uploads: seq<PlanFile>)
      requires Valid()
      requires forall f :: f in uploads ==> ResolutionAt(run, f.path) == Upload && f.path !in done
      modifies this`uploaded, this`sent, this`changed, this`blocked, store
      ensures Valid() && Extends(old(store.blobs), store.blobs)
      ensures sent == old(sent) + Sendable(run, PathsOf(uploads))
      ensures blocked == old(blocked) + Held(run, PathsOf(uploads))
    {
      for i := 0 to |uploads|
        invariant Valid() && Extends(old(store.blobs), store.blobs)
        invariant sent == old(sent) + Sendable(run, PathsOf(uploads[..i]))
        invariant blocked == old(blocked) + Held(run, PathsOf(uploads[..i]))
      {
        UploadStep(run, uploads, i);
        assert uploads[i] in uploads;
        UploadOne(uploads[i].path);
      }
      assert uploads[..|uploads|] == uploads;
    }

    method ScanEntries(refs: Refs) returns (m: Manifest)
      requires home == HomeAfter(run)
      ensures forall p :: Get(m, p) == ScanEntry(run, refs, p)
    {
      m := map[];
      var paths := home.Keys;
      while paths != {}
        invariant paths <= home.Keys
        invariant forall p :: Get(m, p) == if p in paths then None else ScanEntry(run, refs, p)
      {
        var p :| p in paths;
        if !Excluded(run, p) && Syncable(run.cfg, p) {
          var h := HashOf(home[p]);
          if h in refs {
            m := m[p := File(h, Some(refs[h]))];
          } else {
            var fallback := if BaseAt(run, p).Some? then BaseAt(run, p) else RemoteAt(run, p);
            if IsFile(fallback) && fallback.value.blob.Some? { m := m[p := fallback.value]; }
          }
        }
        paths := paths - {p};
      }
    }

    /** Entries of one manifest that lie outside the run's authority, over those collected so far. */
    method Carry(source: Option<Manifest>, carried: Manifest) returns (more: Manifest)
      ensures forall p :: Get(more, p) ==
                if EntryAt(source, p).Some? && !InAuthority(run, p) then EntryAt(source, p) else Get(carried, p)
    {
      more := carried;
      var paths := Keys(source);
      while paths != {}
        invariant paths <= Keys(source)
        invariant forall p :: Get(more, p) ==
                    if p !in paths && EntryAt(source, p).Some? && !InAuthority(run, p) then EntryAt(source, p)
                    else Get(carried, p)
      {
        var p :| p in paths;
        if IgnoreProtects(run, p) || !Live(run, p.surface) || !Syncable(run.cfg, p) {
          more := more[p := source.value[p]];
        }
        paths := paths - {p};
      }
    }

    method Assemble(refs: Refs, tombstones: set<StorePath>) returns (m: Manifest, shadowed: Manifest)
      requires home == HomeAfter(run)
      requires forall p :: p in tombstones <==> TombstonedAt(run, p)
      ensures AssembledWith(run, refs, m) && Shadows(run, refs, shadowed)
    {
      var scanned := ScanEntries(refs);
      var carried := Carry(run.base, map[]);
      carried := Carry(run.remote, carried);
      forall p ensures Get(carried, p) == CarriedAt(run, p) {}
      m := carried + scanned + (map p | p in tombstones :: Tombstone);
      OverlaysAssemble(run, refs, scanned, tombstones, carried, m);
      shadowed := map p | p in scanned && p in tombstones :: scanned[p];
      forall p ensures Get(shadowed, p) == if TombstonedAt(run, p) then ScanEntry(run, refs, p) else None {
        assert Get(scanned, p) == ScanEntry(run, refs, p);
      }
    }

    /** Downloads, merges and deletions in turn. */
    method ApplyLocal(files: seq<PlanFile>)
      requires Valid() && Active(run, files) && done == {} && sent == {} && blocked == {}
      modifies this, store
      ensures Valid() && Extends(old(store.blobs), store.blobs)
      ensures done == With(files, Download) + With(files, Merge) + With(files, DeleteLocal)
      ensures sent == Sendable(run, With(files, Merge)) && blocked == {}
    {
      WithDisjoint(run, files);
      ApplyDownloads(files);
      ApplyMerges(files);
      ApplyDeletes(files);
    }

    /** The local changes, then the uploads: every planned path is dealt with. */
    method Apply(files: seq<PlanFile>) returns (tombstones: set<StorePath>)
      requires Valid() && Active(run, files) && done == {} && sent == {} && blocked == {}
      modifies this, store
      ensures Valid() && Extends(old(store.blobs), store.blobs)
      ensures done == With(files, Download) + With(files, Merge) + With(files, DeleteLocal)
      ensures sent == Sendable(run, With(files, Merge)) + Sendable(run, With(files, Upload))
      ensures blocked == Held(run, With(files, Upload))
      ensures tombstones == (set p | p in With(files, DeleteRemote) && TombstonedAt(run, p))
    {
      ApplyLocal(files);
      var uploads;
      tombstones, uploads := CollectWork(files);
      OnlyIsWith(files, Upload);
      UploadAll(uploads);
    }

    /** The user's edits between the loops and the closing scan. */
    method CatchLateEdits()
      requires forall p :: Get(home, p) == AppliedAt(run, p)
      modifies this`home
      ensures home == HomeAfter(run)
    {
      home := map p | p in home.Keys + run.late.Keys && (p in run.late ==> run.late[p].Some?) ::
                if p in run.late then run.late[p].value else home[p];
      forall p ensures Get(home, p) == Get(HomeAfter(run), p) {
        assert Get(old(home), p) == AppliedAt(run, p);
        HomeAfterIsPathwise(run, p);
      }
      SameLookups(home, HomeAfter(run));
    }

    /**
      * The whole run up to the commit request: the home ends as `HomeAfter`, the manifest is one
      * the run may assemble, it opens under the key, and every blob it names is listed. `shadowed`
      * are the files listed besides, in front of a tombstone for the same path.
      */
    method Execute() returns (m: Manifest, shadowed: Manifest, listed: set<Ref>)
      requires Valid() && done == {} && sent == {} && blocked == {}
      modifies this, store
      ensures store.Valid() && home == HomeAfter(run)
      ensures Assembles(run, m) && Files(m) + Files(shadowed) == Listed(run)
      ensures Intact(store.blobs, key, m) && Intact(store.blobs, key, shadowed)
      ensures listed == ListedBlobs(m) + ListedBlobs(shadowed)
      ensures Extends(old(store.blobs), store.blobs)
      ensures forall p :: p in deferred <==> DeferredAt(run, p)
      ensures forall p :: p in blocked <==> BlockedAt(run, p)
    {
      var files := Prepare();
      var tombstones := Apply(files);
      Settled(files);
      ActiveFind(run, files);
      CatchLateEdits();
      var refs := CollectRefs(run, uploaded);
      m, shadowed := Assemble(refs, tombstones);
      AssembledWithAssembles(run, uploaded, refs, m);
      ListedIsBoth(run, uploaded, refs, m, shadowed);
      AssembledIsIntact(store.blobs, key, run, uploaded, refs, m, shadowed);
      listed := ListedBlobs(m) + ListedBlobs(shadowed);
    }

    /**
      * The decision after assembling. Nothing is committed while a deferred path's remote side has
      * moved; a single head is adopted when its files are the listed ones, the base is kept when it
      * is the head and has them; anything else, a fork always, becomes a revision.
      */
    method Conclude(files: map<StorePath, Hash>, heads: seq<nat>, baseRevision: Option<nat>) returns (c: Conclusion)
      requires files == Listed(run) && forall p :: p in deferred <==> DeferredAt(run, p)
      ensures c == Wait <==> Unresolved(run)
      ensures c == Adopt <==>
                !Unresolved(run) && |heads| == 1 && run.remote.Some? && Listed(run) == Files(run.remote.value)
      ensures c == Stay <==>
                && !Unresolved(run) && |heads| == 1 && !(run.remote.Some? && Listed(run) == Files(run.remote.value))
                && run.base.Some? && Listed(run) == Files(run.base.value) && baseRevision == Some(heads[0])
    {
      var paths := deferred;
      while paths != {}
        invariant paths <= deferred
        invariant forall p :: p in deferred && p !in paths ==> SameContent(RemoteAt(run, p), BaseAt(run, p))
      {
        var p :| p in paths;
        if !SameContent(RemoteAt(run, p), BaseAt(run, p)) {
          assert DeferredAt(run, p);
          return Wait;
        }
        paths := paths - {p};
      }
      if |heads| == 1 {
        if run.remote.Some? && files == Files(run.remote.value) { return Adopt; }
        if run.base.Some? && files == Files(run.base.value) && baseRevision == Some(heads[0]) { return Stay; }
      }
      return Propose;
    }

    lemma Settled(files: seq<PlanFile>)
      requires Valid() && Active(run, files)
      requires done == With(files, Download) + With(files, Merge) + With(files, DeleteLocal)
      requires sent == Sendable(run, With(files, Merge)) + Sendable(run, With(files, Upload))
      ensures forall p :: Get(home, p) == AppliedAt(run, p)
      ensures uploaded.Keys == run.headUploads + UploadedHashes(run)
      ensures forall p :: p in deferred <==> DeferredAt(run, p)
    {
      forall p
        ensures Get(home, p) == AppliedAt(run, p)
        ensures DeferredAt(run, p) ==> p in done
        ensures UploadedAt(run, p) ==> p in sent
      {
        if Planned(run, p) {
          assert p in PathsOf(files);
          var f :| f in files && f.path == p;
          assert f.resolution == ResolutionAt(run, p);
        }
      }
      forall p | UploadedAt(run, p) ensures p in run.home && AppliedAt(run, p).Some? { UploadedHasText(run, p); }
      assert sent == set p | p in run.home && UploadedAt(run, p) && AppliedAt(run, p).Some?;
    }

    /** Scans, plans, and keeps the entries the run may act on. */
    method Prepare() returns (files: seq<PlanFile>)
      ensures Active(run, files)
    {
      var all := run.home.Keys + Keys(run.base) + Keys(run.remote);
      var excluded := set p | p in all && Excluded(run, p);
      var local: LocalManifest :=
        map p | p in run.home && Syncable(run.cfg, p) && !Excluded(run, p) :: HashOf(run.home[p]);
      var planned := ComputeSyncPlan(run.base, local, run.remote, excluded);
      files := [];
      for i := 0 to |planned|
        invariant forall f :: f in files ==> f in planned && Planned(run, f.path)
        invariant forall j :: 0 <= j < i && Planned(run, planned[j].path) ==> planned[j] in files
        invariant forall f, j :: f in files && i <= j < |planned| ==> f.path != planned[j].path
        invariant forall a, b :: 0 <= a < b < |files| ==> files[a].path != files[b].path
      {
        var f := planned[i];
        assert f.path in PathsOf(planned);
        assert !Excluded(run, f.path) && f.local == LocalAt(run, f.path);
        if (f.local.Some? || f.remote.Some?) && Syncable(run.cfg, f.path) {
          files := files + [f];
        }
      }
      forall p | Planned(run, p) ensures p in PathsOf(files) {
        assert p in PathsOf(planned);
        var f :| f in planned && f.path == p;
        assert f in files;
      }
    }
  }
}
