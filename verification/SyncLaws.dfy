/** What one sync run promises: no unseen overwrite, carry-forward, crash and rerun, convergence. */
module SyncLaws {
  import opened Prelude
  import opened SyncPlan
  import opened SyncRun

  /** Every file entry names ciphertext. Committed manifests keep this: `AssembledIsBacked`. */
  predicate Backed(m: Option<Manifest>) {
    forall p :: p in Keys(m) && m.value[p].File? ==> m.value[p].blob.Some?
  }

  /** Scans report files only under roots that exist, and both manifests are fully backed. */
  predicate WellFormed(run: Run) {
    && Backed(run.base) && Backed(run.remote)
    && forall p :: p in run.home ==> p.surface in run.roots
  }

  /** So every committed manifest is backed as soon as the two it was built from are. */
  lemma AssembledIsBacked(run: Run, m: Manifest)
    requires Backed(run.base) && Backed(run.remote) && Assembles(run, m)
    ensures Backed(Some(m))
  {
  }

  lemma HasRefOf(run: Run, p: StorePath)
    requires WellFormed(run)
    ensures IsFile(BaseAt(run, p)) ==> HasRef(run, BaseAt(run, p).value.hash)
    ensures IsFile(RemoteAt(run, p)) ==> HasRef(run, RemoteAt(run, p).value.hash)
    ensures UploadedAt(run, p) ==> AppliedAt(run, p).Some? && HasRef(run, HashOf(AppliedAt(run, p).value))
  {
    if UploadedAt(run, p) { UploadedHasText(run, p); }
  }

  lemma ResolvedAt(run: Run, p: StorePath)
    requires !Unresolved(run)
    ensures DeferredAt(run, p) ==> SameContent(RemoteAt(run, p), BaseAt(run, p))
  {
  }

  function OnDisk(home: Home, p: StorePath): Option<Hash> {
    if p in home then Some(HashOf(home[p])) else None
  }

  // ----- What a commit does to a file of the head -----

  /** The closing scan does not find what the run left: the user got in between. */
  predicate Disturbed(run: Run, p: StorePath) {
    var untouched := ResolutionAt(run, p) == Unchanged || ResolutionAt(run, p) == DeleteRemote;
    HomeAfterAt(run, p) != if untouched then Get(run.home, p) else AppliedAt(run, p)
  }

  /** A merge whose two moved sides meet again at the base text. */
  predicate MergesToBase(run: Run, p: StorePath) {
    && ResolutionAt(run, p) == Merge && Mergeable(run, p) && IsFile(BaseAt(run, p))
    && MergedText(run, p) == BaseAt(run, p).value.hash.text
  }

  /** The new manifest holds the merge of the head's text with the local one. */
  predicate MergedInto(run: Run, m: Manifest, p: StorePath) {
    && ResolutionAt(run, p) == Merge && Mergeable(run, p)
    && FileHash(Get(m, p)) == Some(HashOf(MergedText(run, p)))
  }

  /**
    * A commit replaces a head file its base did not know, other than by merging with it, exactly
    * when the user changed the path under the run: deleted it, gave it content that has ciphertext
    * already, or gave it new content where the base has an entry that then stands in for it.
    */
  lemma UnknownHeadFileReplacedExactlyWhen(run: Run, m: Manifest, p: StorePath)
    requires WellFormed(run) && Assembles(run, m) && !Unresolved(run) && Managed(run, p)
    requires IsFile(RemoteAt(run, p)) && FileHash(RemoteAt(run, p)) != FileHash(BaseAt(run, p))
    ensures var head, closing := FileHash(RemoteAt(run, p)), OnDisk(HomeAfter(run), p);
            FileHash(Get(m, p)) != head && !MergedInto(run, m, p) <==>
              && Disturbed(run, p) && closing != head
              && (closing.None? || HasRef(run, closing.value) || (BaseAt(run, p).Some? && !MergesToBase(run, p)))
  {
    HasRefOf(run, p);
    ResolvedAt(run, p);
    HomeAfterIsPathwise(run, p);
    assert SameContent(Get(m, p), NewEntryAt(run, p));
  }

  /** So without edits under the run, one run replaces a managed file only knowingly or by a merge. */
  lemma NoUnseenOverwriteAt(run: Run, m: Manifest, p: StorePath)
    requires WellFormed(run) && Assembles(run, m) && !Unresolved(run)
    requires Managed(run, p) && !Disturbed(run, p)
    ensures var head := FileHash(RemoteAt(run, p));
            || FileHash(Get(m, p)) == head
            || head.None?
            || head == FileHash(BaseAt(run, p))
            || MergedInto(run, m, p)
  {
    if IsFile(RemoteAt(run, p)) && FileHash(RemoteAt(run, p)) != FileHash(BaseAt(run, p)) {
      UnknownHeadFileReplacedExactlyWhen(run, m, p);
    }
  }

  /** One file, scanned with the text `local` and given the text `edited` before the closing scan. */
  function EditedRun(p: StorePath, base: Entry, local: Text, head: Entry, edited: Text): Run {
    Run(Config({p.surface}, {}, {p.surface}, false, _ => false, _ => false), {p.surface},
        map[p := local], map[p := local], map[p := Some(edited)],
        Some(map[p := base]), Some(map[p := head]), _ => Applied, {}, (_, _, _, _) => Same)
  }

  /** A settled file over a base tombstone, edited during the run: the commit drops the head's file. */
  lemma EditUnderTheRunDrops(p: StorePath, x: Text, y: Text, m: Manifest)
    requires x != y && Assembles(EditedRun(p, Tombstone, x, File(HashOf(x), Some(0)), y), m)
    ensures var run := EditedRun(p, Tombstone, x, File(HashOf(x), Some(0)), y);
            WellFormed(run) && Managed(run, p) && !Unresolved(run) && FileHash(Get(m, p)) == None
  {
    var run := EditedRun(p, Tombstone, x, File(HashOf(x), Some(0)), y);
    HomeAfterIsPathwise(run, p);
    assert ResolutionAt(run, p) == Unchanged && UploadedHashes(run) == {};
    assert SameContent(Get(m, p), NewEntryAt(run, p));
  }

  /** A file just downloaded, edited before the closing scan: the commit turns the head back to the base's text. */
  lemma EditUnderTheRunReverts(p: StorePath, b: Text, x: Text, y: Text, m: Manifest)
    requires x != y && x != b && y != b
    requires Assembles(EditedRun(p, File(HashOf(b), Some(1)), b, File(HashOf(x), Some(0)), y), m)
    ensures var run := EditedRun(p, File(HashOf(b), Some(1)), b, File(HashOf(x), Some(0)), y);
            WellFormed(run) && Managed(run, p) && !Unresolved(run) && FileHash(Get(m, p)) == Some(HashOf(b))
  {
    var run := EditedRun(p, File(HashOf(b), Some(1)), b, File(HashOf(x), Some(0)), y);
    HomeAfterIsPathwise(run, p);
    assert ResolutionAt(run, p) == Download && UploadedHashes(run) == {};
    assert SameContent(Get(m, p), NewEntryAt(run, p));
  }

  // ----- Authority: what a commit keeps and what it may delete -----

  /**
    * An entry outside the run's authority is carried over with its kind and hash, unless a file
    * turned up there after the opening scan found the root missing, and then exactly when that
    * file's content, or the base's in its place, differs.
    */
  lemma CarriedForwardExactlyWhen(run: Run, m: Manifest, p: StorePath)
    requires WellFormed(run) && Assembles(run, m)
    requires !InAuthority(run, p)
    ensures var kept := if RemoteAt(run, p).Some? then RemoteAt(run, p) else BaseAt(run, p);
            !SameContent(Get(m, p), kept) <==>
              && Scanned(run, p)
              && var closing := HashOf(HomeAfter(run)[p]);
                 if HasRef(run, closing) then FileHash(kept) != Some(closing)
                 else IsFile(BaseAt(run, p)) && !SameContent(kept, BaseAt(run, p))
    ensures Scanned(run, p) ==> p.surface !in run.roots && p !in run.home && !run.cfg.prune
  {
    HasRefOf(run, p);
    HomeAfterIsPathwise(run, p);
    assert SameContent(Get(m, p), NewEntryAt(run, p));
  }

  /** Without edits under the run everything outside its authority is carried over as it is. */
  lemma CarryForwardAt(run: Run, m: Manifest, p: StorePath)
    requires WellFormed(run) && Assembles(run, m)
    requires !InAuthority(run, p) && HomeAfterAt(run, p) == AppliedAt(run, p) && UnchangedSinceScan(run, p)
    ensures RemoteAt(run, p).Some? ==> SameContent(Get(m, p), RemoteAt(run, p))
    ensures RemoteAt(run, p).None? ==> SameContent(Get(m, p), BaseAt(run, p))
  {
    CarriedForwardExactlyWhen(run, m, p);
    HasRefOf(run, p);
    HomeAfterIsPathwise(run, p);
  }

  /**
    * A file of the head leaves the store through this run exactly when the path is managed and
    * was gone at the opening scan and unchanged since the base, is gone at the closing scan, or was
    * given new content over a base tombstone; or when it is a conflict copy inside the authority.
    */
  lemma HeadFileDroppedExactlyWhen(run: Run, m: Manifest, p: StorePath)
    requires WellFormed(run) && Assembles(run, m) && !Unresolved(run)
    requires IsFile(RemoteAt(run, p))
    ensures var closing := OnDisk(HomeAfter(run), p);
            FileHash(Get(m, p)).None? <==>
              || (Managed(run, p) && p !in run.home && FileHash(BaseAt(run, p)) == FileHash(RemoteAt(run, p)))
              || (Managed(run, p) && closing.None?)
              || (Managed(run, p) && !HasRef(run, closing.value) && BaseAt(run, p) == Some(Tombstone))
              || (InAuthority(run, p) && run.cfg.conflictCopy(p))
    ensures Get(m, p) == Some(Tombstone) <==>
              Managed(run, p) && p !in run.home && FileHash(BaseAt(run, p)) == FileHash(RemoteAt(run, p))
  {
    HasRefOf(run, p);
    ResolvedAt(run, p);
    HomeAfterIsPathwise(run, p);
    assert SameContent(Get(m, p), NewEntryAt(run, p));
  }

  /** A commit writes a new tombstone only on ground the run owns, over a file its base knew. */
  lemma TombstonesOnlyInsideAuthority(run: Run, m: Manifest, p: StorePath)
    requires WellFormed(run) && Assembles(run, m)
    requires Get(m, p) == Some(Tombstone) && RemoteAt(run, p) != Some(Tombstone) && BaseAt(run, p) != Some(Tombstone)
    ensures Managed(run, p) && p !in run.home
    ensures IsFile(RemoteAt(run, p)) && FileHash(BaseAt(run, p)) == FileHash(RemoteAt(run, p))
  {
    HomeAfterIsPathwise(run, p);
    assert SameContent(Get(m, p), NewEntryAt(run, p));
  }

  /** A listed file is shadowed only where a file came back under a planned deletion. */
  lemma ListedIsFiles(run: Run, m: Manifest)
    requires WellFormed(run) && Assembles(run, m)
    ensures Listed(run) == Files(m) <==> !Collides(run)
    ensures forall p :: RecreatedAt(run, p) <==> TombstonedAt(run, p) && p in HomeAfter(run)
  {
    forall p
      ensures RecreatedAt(run, p) <==> TombstonedAt(run, p) && p in HomeAfter(run)
      ensures Get(Listed(run), p) == ListedAt(run, p)
      ensures ListedAt(run, p) == Get(Files(m), p) <==> !RecreatedAt(run, p)
      ensures RecreatedAt(run, p) ==> p in Keys(run.remote)
    {
      HomeAfterIsPathwise(run, p);
      FilesAt(m, p);
      assert SameContent(Get(m, p), NewEntryAt(run, p));
    }
    if !Collides(run) {
      forall p ensures Get(Listed(run), p) == Get(Files(m), p) {
        assert !RecreatedAt(run, p);
      }
      SameLookups(Listed(run), Files(m));
    }
  }

  lemma SameLookups<K(!new), V>(a: map<K, V>, b: map<K, V>)
    requires forall k :: Get(a, k) == Get(b, k)
    ensures a == b
  {
    forall k ensures k in a <==> k in b { assert Get(a, k) == Get(b, k); }
    forall k | k in a ensures a[k] == b[k] { assert Get(a, k) == Get(b, k); }
  }

  // ----- Roots that come and go -----

  /** Every path the run has heard of. */
  function Known(run: Run): set<StorePath> {
    run.home.Keys + Keys(run.base) + Keys(run.remote)
  }

  /** The run deletes the path here, and has. */
  predicate WentWithRoot(run: Run, home: Home, p: StorePath) {
    p in run.home && p !in home && ResolutionAt(run, p) == DeleteLocal
  }

  /**
    * What a later scan may find of the roots: those of the files on disk at least, and none is gone
    * except with its files, as a surface that is one file goes. Any others may have appeared, by
    * directories alone too.
    */
  ghost predicate RootsFollow(run: Run, home: Home, roots: set<Surface>) {
    && (forall p :: p in home ==> p.surface in roots)
    && forall p | p in Known(run) :: p.surface in run.roots && p.surface !in roots ==> WentWithRoot(run, home, p)
  }

  /**
    * A file the run carried over because its root was missing, and would not carry with these
    * roots: its root is there now, and the file is not on disk, or is a conflict copy.
    */
  predicate LostWithRoots(run: Run, roots: set<Surface>, p: StorePath) {
    && p.surface !in run.roots && p.surface in roots && !run.cfg.prune
    && Syncable(run.cfg, p) && !run.cfg.ignored(p)
    && IsFile(if RemoteAt(run, p).Some? then RemoteAt(run, p) else BaseAt(run, p))
    && (run.cfg.conflictCopy(p) || p !in HomeAfter(run))
  }

  /** A file the run deleted together with its root, which only the base still lists. */
  predicate RevivedWithoutRoot(run: Run, roots: set<Surface>, p: StorePath) {
    && p.surface in run.roots && p.surface !in roots && !run.cfg.prune
    && ResolutionAt(run, p) == DeleteLocal && RemoteAt(run, p).None?
  }

  // ----- Crash and rerun -----

  /**
    * What crashes leave at a path: it is untouched or fully applied, see the journal; or a crash came
    * after the write of a merge that gave back the base text, and a rerun has fetched the head's.
    */
  predicate CrashedAt(run: Run, home: Home, p: StorePath) {
    || Get(home, p) == Get(run.home, p) || Get(home, p) == HomeAfterAt(run, p)
    || (MergesToBase(run, p) && Get(home, p) == Some(RemoteAt(run, p).value.hash.text))
  }

  ghost predicate CrashedHome(run: Run, home: Home) {
    forall p :: CrashedAt(run, home, p)
  }

  /** The same run from what a crash left, files and roots. */
  function Rerun(run: Run, home: Home, roots: set<Surface>): Run {
    run.(home := home, found := home, late := map[], roots := roots)
  }

  /** The crashes left files as `CrashedHome` says and roots that follow from them. */
  ghost predicate CrashLeaves(run: Run, home: Home, roots: set<Surface>) {
    CrashedHome(run, home) && RootsFollow(run, home, roots)
  }

  /** Nothing is put off and nobody edits: only an upload may end differently from plain success. */
  ghost predicate Uninterrupted(run: Run) {
    Quiet(run) && forall p :: run.fate(p) == Applied || ResolutionAt(run, p) == Upload
  }

  function MergeValue(f: MergeFn, p: StorePath, base: Text, local: Text, remote: Text): Text {
    match f(p, base, local, remote)
    case Clean(content) => content
    case _ => local
  }

  /** Agreeing sides stay put, and merging a merge's own result again changes nothing. */
  ghost predicate StableMerge(f: MergeFn) {
    && (forall p, b, x :: MergeValue(f, p, b, x, x) == x)
    && (forall p, b, l, r :: MergeValue(f, p, b, MergeValue(f, p, b, l, r), r) == MergeValue(f, p, b, l, r))
  }

  /** An unmoved local side takes the remote one. */
  ghost predicate FollowsRemote(f: MergeFn) {
    forall p, b, r :: MergeValue(f, p, b, b, r) == r
  }

  lemma FollowingMergeLeavesBase(run: Run, p: StorePath)
    requires WellFormed(run) && StableMerge(run.merge) && FollowsRemote(run.merge)
    ensures !MergesToBase(run, p)
  {
    if ResolutionAt(run, p) == Merge && Mergeable(run, p) && IsFile(BaseAt(run, p)) {
      var b, l, r := BaseAt(run, p).value.hash.text, run.found[p], RemoteAt(run, p).value.hash.text;
      assert MergeValue(run.merge, p, b, MergedText(run, p), r) == MergeValue(run.merge, p, b, l, r);
      assert MergeValue(run.merge, p, b, b, r) == r;
    }
  }

  /** A crash came after the write of a merge whose result equals the base text. */
  predicate Relapses(run: Run, home: Home, p: StorePath) {
    MergesToBase(run, p) && Get(home, p) != Get(run.home, p)
  }

  /**
    * One path, crashed and rerun. The rerun reaches the uninterrupted result in every case but
    * one: a merge that gave back the base text, which a rerun reads as an untouched file. Then the
    * head's text replaces it, now and after any further crash.
    */
  lemma RerunExactlyWhen(run: Run, home: Home, roots: set<Surface>, p: StorePath)
    requires WellFormed(run) && Uninterrupted(run) && StableMerge(run.merge) && CrashLeaves(run, home, roots)
    ensures HomeAfterAt(Rerun(run, home, roots), p) == HomeAfterAt(run, p) <==> !Relapses(run, home, p)
    ensures Relapses(run, home, p) ==> HomeAfterAt(Rerun(run, home, roots), p) == Some(RemoteAt(run, p).value.hash.text)
  {
    var again := Rerun(run, home, roots);
    assert CrashedAt(run, home, p);
    if ResolutionAt(run, p) == Merge {
      var b := if IsFile(BaseAt(run, p)) then BaseAt(run, p).value.hash.text else RemoteAt(run, p).value.hash.text;
      var l, r := run.home[p], RemoteAt(run, p).value.hash.text;
      assert MergedText(run, p) == MergeValue(run.merge, p, b, l, r);
      assert MergeValue(run.merge, p, b, MergedText(run, p), r) == MergedText(run, p);
      assert MergeValue(run.merge, p, b, r, r) == r;
      if ResolutionAt(again, p) == Merge { assert MergedText(again, p) == MergeValue(run.merge, p, b, home[p], r); }
    }
    if ResolutionAt(run, p) == Download {
      var r := RemoteAt(run, p).value.hash.text;
      if ResolutionAt(again, p) == Merge {
        assert MergedText(again, p) == MergeValue(run.merge, p, BaseAt(run, p).value.hash.text, home[p], r);
        assert MergeValue(run.merge, p, BaseAt(run, p).value.hash.text, r, r) == r;
      }
    }
  }

  lemma RerunHomeExactlyWhen(run: Run, home: Home, roots: set<Surface>)
    requires WellFormed(run) && Uninterrupted(run) && StableMerge(run.merge) && CrashLeaves(run, home, roots)
    ensures HomeAfter(Rerun(run, home, roots)) == HomeAfter(run) <==> forall p :: !Relapses(run, home, p)
    ensures WellFormed(Rerun(run, home, roots))
  {
    var again := Rerun(run, home, roots);
    forall p
      ensures Get(HomeAfter(again), p) == Get(HomeAfter(run), p) <==> !Relapses(run, home, p)
    {
      RerunExactlyWhen(run, home, roots, p);
      HomeAfterIsPathwise(again, p);
      HomeAfterIsPathwise(run, p);
    }
    if forall p :: !Relapses(run, home, p) { SameLookups(HomeAfter(again), HomeAfter(run)); }
  }

  /** Every upload the rerun makes, the uninterrupted run made or had already, and the reverse. */
  lemma RerunUploads(run: Run, home: Home, roots: set<Surface>, p: StorePath)
    requires WellFormed(run) && Uninterrupted(run) && StableMerge(run.merge) && CrashLeaves(run, home, roots)
    ensures UploadedAt(Rerun(run, home, roots), p) ==>
              || (UploadedAt(run, p) && AppliedAt(run, p) == AppliedAt(Rerun(run, home, roots), p))
              || FileHash(RemoteAt(run, p)) == Some(HashOf(AppliedAt(Rerun(run, home, roots), p).value))
    ensures UploadedAt(run, p) ==>
              || (UploadedAt(Rerun(run, home, roots), p) && AppliedAt(run, p) == AppliedAt(Rerun(run, home, roots), p))
              || FileHash(RemoteAt(run, p)) == Some(HashOf(AppliedAt(run, p).value))
              || FileHash(BaseAt(run, p)) == Some(HashOf(AppliedAt(run, p).value))
  {
    assert CrashedAt(run, home, p);
    RerunExactlyWhen(run, home, roots, p);
  }

  lemma RerunRefs(run: Run, home: Home, roots: set<Surface>, h: Hash)
    requires WellFormed(run) && Uninterrupted(run) && StableMerge(run.merge) && CrashLeaves(run, home, roots)
    ensures HasRef(Rerun(run, home, roots), h) <==> HasRef(run, h)
  {
    var again := Rerun(run, home, roots);
    forall p
      ensures UploadedAt(again, p) && AppliedAt(again, p).Some? ==> HasRef(run, HashOf(AppliedAt(again, p).value))
      ensures UploadedAt(run, p) && AppliedAt(run, p).Some? ==> HasRef(again, HashOf(AppliedAt(run, p).value))
    {
      RerunUploads(run, home, roots, p);
      RerunHomeExactlyWhen(run, home, roots);
      HasRefOf(run, p);
      HasRefOf(again, p);
    }
  }

  lemma RerunNotDeferred(run: Run, home: Home, roots: set<Surface>, p: StorePath)
    requires Uninterrupted(run) && CrashLeaves(run, home, roots)
    ensures !DeferredAt(run, p) && !DeferredAt(Rerun(run, home, roots), p)
  {
    assert run.fate(p) == Applied || ResolutionAt(run, p) == Upload;
    assert CrashedAt(run, home, p);
  }

  /** One path that both runs leave alike: their entries differ exactly when a root gained or lost tells them apart. */
  lemma RerunEntryAt(run: Run, home: Home, roots: set<Surface>, p: StorePath)
    requires Quiet(run) && (run.fate(p) == Applied || ResolutionAt(run, p) == Upload)
    requires Get(home, p) == Get(run.home, p) || Get(home, p) == HomeAfterAt(run, p)
    requires HomeAfterAt(Rerun(run, home, roots), p) == HomeAfterAt(run, p)
    requires p in HomeAfter(run) ==>
               (HasRef(run, HashOf(HomeAfter(run)[p])) <==>
                  HasRef(Rerun(run, home, roots), HashOf(HomeAfter(run)[p])))
    requires p in run.home ==> p.surface in run.roots
    requires p in home ==> p.surface in roots
    requires p.surface in run.roots && p.surface !in roots && p in Known(run) ==> WentWithRoot(run, home, p)
    requires IsFile(RemoteAt(run, p)) ==> RemoteAt(run, p).value.blob.Some? && HasRef(run, RemoteAt(run, p).value.hash)
    requires IsFile(BaseAt(run, p)) ==> BaseAt(run, p).value.blob.Some? && HasRef(run, BaseAt(run, p).value.hash)
    ensures FileHash(NewEntryAt(Rerun(run, home, roots), p)) == FileHash(NewEntryAt(run, p)) <==>
              !LostWithRoots(run, roots, p) && !RevivedWithoutRoot(run, roots, p)
  {
    HomeAfterIsPathwise(run, p);
    HomeAfterIsPathwise(Rerun(run, home, roots), p);
  }

  /** A relapsed merge: the head's text comes back instead of the base's. */
  lemma RelapsedEntryAt(run: Run, home: Home, roots: set<Surface>, p: StorePath)
    requires WellFormed(run) && Uninterrupted(run) && StableMerge(run.merge) && CrashLeaves(run, home, roots)
    requires Relapses(run, home, p)
    ensures FileHash(NewEntryAt(Rerun(run, home, roots), p)) != FileHash(NewEntryAt(run, p))
  {
    var again := Rerun(run, home, roots);
    RerunExactlyWhen(run, home, roots, p);
    RerunHomeExactlyWhen(run, home, roots);
    HomeAfterIsPathwise(run, p);
    HomeAfterIsPathwise(again, p);
    HasRefOf(run, p);
    HasRefOf(again, p);
    assert HomeAfterAt(run, p) == Some(BaseAt(run, p).value.hash.text);
    assert HomeAfterAt(again, p) == Some(RemoteAt(run, p).value.hash.text);
  }

  lemma RerunEntry(run: Run, home: Home, roots: set<Surface>, p: StorePath)
    requires WellFormed(run) && Uninterrupted(run) && StableMerge(run.merge) && CrashLeaves(run, home, roots)
    ensures FileHash(NewEntryAt(Rerun(run, home, roots), p)) == FileHash(NewEntryAt(run, p)) <==>
              !Relapses(run, home, p) && !LostWithRoots(run, roots, p) && !RevivedWithoutRoot(run, roots, p)
  {
    if Relapses(run, home, p) {
      RelapsedEntryAt(run, home, roots, p);
    } else {
      RerunExactlyWhen(run, home, roots, p);
      RerunHomeExactlyWhen(run, home, roots);
      if p in HomeAfter(run) { RerunRefs(run, home, roots, HashOf(HomeAfter(run)[p])); }
      HasRefOf(run, p);
      assert CrashedAt(run, home, p);
      assert run.fate(p) == Applied || ResolutionAt(run, p) == Upload;
      RerunEntryAt(run, home, roots, p);
    }
  }

  /**
    * Crash and rerun equals no crash. From any crash point the rerun leaves the same local files
    * exactly when no merge relapses, and assembles the same file set exactly when, besides, no file
    * is lost with a root that appeared, nor revived by one that went with its file.
    */
  lemma CrashAndRerunExactlyWhen(run: Run, home: Home, roots: set<Surface>, m: Manifest, again: Manifest)
    requires WellFormed(run) && Uninterrupted(run) && StableMerge(run.merge) && CrashLeaves(run, home, roots)
    requires Assembles(run, m) && Assembles(Rerun(run, home, roots), again)
    ensures HomeAfter(Rerun(run, home, roots)) == HomeAfter(run) <==> forall p :: !Relapses(run, home, p)
    ensures Files(again) == Files(m) <==>
              forall p :: !Relapses(run, home, p) && !LostWithRoots(run, roots, p) && !RevivedWithoutRoot(run, roots, p)
    ensures !Unresolved(run) && !Unresolved(Rerun(run, home, roots))
  {
    var rerun := Rerun(run, home, roots);
    RerunHomeExactlyWhen(run, home, roots);
    forall p
      ensures Get(Files(again), p) == Get(Files(m), p) <==>
                !Relapses(run, home, p) && !LostWithRoots(run, roots, p) && !RevivedWithoutRoot(run, roots, p)
    {
      RerunEntry(run, home, roots, p);
      FilesAt(again, p);
      FilesAt(m, p);
      assert SameContent(Get(m, p), NewEntryAt(run, p));
      assert SameContent(Get(again, p), NewEntryAt(rerun, p));
    }
    if forall p :: !Relapses(run, home, p) && !LostWithRoots(run, roots, p) && !RevivedWithoutRoot(run, roots, p) {
      SameLookups(Files(again), Files(m));
    }
    forall p ensures !DeferredAt(run, p) && !DeferredAt(rerun, p) { RerunNotDeferred(run, home, roots, p); }
  }

  lemma CrashedAgainAt(run: Run, home: Home, roots: set<Surface>, later: Home, p: StorePath)
    requires WellFormed(run) && Uninterrupted(run) && StableMerge(run.merge)
    requires CrashLeaves(run, home, roots) && CrashedAt(Rerun(run, home, roots), later, p)
    ensures CrashedAt(run, later, p)
    ensures WentWithRoot(run, home, p) ==> p !in later && p in Keys(run.base) + Keys(run.remote)
    ensures WentWithRoot(Rerun(run, home, roots), later, p) ==> WentWithRoot(run, later, p)
    ensures p in run.home && p !in home ==> WentWithRoot(run, home, p)
  {
    assert CrashedAt(run, home, p);
    RerunExactlyWhen(run, home, roots, p);
  }

  /** Crashing the rerun as well, relapsed or not, is no different from crashing the first run later. */
  lemma CrashesCompose(run: Run, home: Home, roots: set<Surface>, later: Home, rootsLater: set<Surface>)
    requires WellFormed(run) && Uninterrupted(run) && StableMerge(run.merge)
    requires CrashLeaves(run, home, roots) && CrashLeaves(Rerun(run, home, roots), later, rootsLater)
    ensures CrashLeaves(run, later, rootsLater)
    ensures Rerun(Rerun(run, home, roots), later, rootsLater) == Rerun(run, later, rootsLater)
  {
    var again := Rerun(run, home, roots);
    forall p ensures CrashedAt(run, later, p) {
      assert CrashedAt(again, later, p);
      CrashedAgainAt(run, home, roots, later, p);
    }
    forall p | p in Known(run) && p.surface in run.roots && p.surface !in rootsLater
      ensures WentWithRoot(run, later, p)
    {
      assert CrashedAt(again, later, p);
      CrashedAgainAt(run, home, roots, later, p);
      assert p.surface in roots ==> p in Known(again);
    }
  }

  // ----- Convergence -----

  /** No edits meanwhile, nothing deferred, nothing blocked. */
  ghost predicate Complete(run: Run) {
    Quiet(run) && forall p :: run.fate(p) == Applied
  }

  /** The next run on the same device, once `head` is both its base and the remote head. */
  function NextRun(run: Run, head: Manifest, roots: set<Surface>): Run {
    run.(home := HomeAfter(run), found := HomeAfter(run), late := map[], roots := roots,
         base := Some(head), remote := Some(head))
  }

  /** After a complete run, a managed path reads the same on disk and in the new manifest. */
  lemma LocalMatchesManifestAt(run: Run, m: Manifest, p: StorePath)
    requires WellFormed(run) && Complete(run) && Assembles(run, m)
    requires Managed(run, p)
    ensures FileHash(Get(m, p)) == OnDisk(HomeAfter(run), p)
  {
    HasRefOf(run, p);
    HomeAfterIsPathwise(run, p);
    assert run.fate(p) == Applied;
    assert SameContent(Get(m, p), NewEntryAt(run, p));
  }

  /** A complete run leaves the next one, on the ground it already owns, nothing to plan. */
  lemma NextRunIsIdleAt(run: Run, m: Manifest, head: Manifest, roots: set<Surface>, p: StorePath)
    requires WellFormed(run) && Complete(run) && Assembles(run, m) && Files(head) == Files(m)
    requires RootsFollow(run, HomeAfter(run), roots)
    ensures var next := NextRun(run, head, roots);
            && (ResolutionAt(next, p) != Unchanged ==> ResolutionAt(next, p) == DeleteRemote && !InAuthority(run, p))
            && HomeAfterAt(next, p) == Get(next.home, p)
  {
    var next := NextRun(run, head, roots);
    FilesAt(head, p);
    FilesAt(m, p);
    HomeAfterIsPathwise(run, p);
    assert run.fate(p) == Applied;
    assert SameContent(Get(m, p), NewEntryAt(run, p));
    HasRefOf(run, p);
    if Managed(run, p) { LocalMatchesManifestAt(run, m, p); }
  }

  lemma NextRunManagedEntry(run: Run, m: Manifest, head: Manifest, roots: set<Surface>, p: StorePath)
    requires WellFormed(run) && Complete(run) && Assembles(run, m) && Managed(run, p)
    requires Files(head) == Files(m) && Backed(Some(head)) && RootsFollow(run, HomeAfter(run), roots)
    ensures FileHash(NewEntryAt(NextRun(run, head, roots), p)) == FileHash(Get(head, p))
  {
    NextRunIsIdleAt(run, m, head, roots, p);
    FilesAt(head, p);
    FilesAt(m, p);
    HomeAfterIsPathwise(NextRun(run, head, roots), p);
    LocalMatchesManifestAt(run, m, p);
    assert IsFile(Get(head, p)) ==> head[p].hash in FileHashes(NextRun(run, head, roots).base);
  }

  /** One path the run did not manage: the next run's entry, from the facts about this path alone. */
  lemma NextRunCarriedAt(run: Run, head: Manifest, roots: set<Surface>, p: StorePath)
    requires Quiet(run) && run.fate(p) == Applied && !Managed(run, p)
    requires HomeAfterAt(NextRun(run, head, roots), p) == Get(HomeAfter(run), p)
    requires FileHash(Get(head, p)) == FileHash(NewEntryAt(run, p))
    requires IsFile(Get(head, p)) ==> head[p].blob.Some? && HasRef(NextRun(run, head, roots), head[p].hash)
    requires IsFile(RemoteAt(run, p)) ==> RemoteAt(run, p).value.blob.Some? && HasRef(run, RemoteAt(run, p).value.hash)
    requires p in run.home ==> p.surface in run.roots
    requires p in HomeAfter(run) ==> p.surface in roots
    requires p.surface in run.roots && p.surface !in roots && p in Known(run) ==> WentWithRoot(run, HomeAfter(run), p)
    ensures FileHash(NewEntryAt(NextRun(run, head, roots), p)) == FileHash(Get(head, p)) <==>
              !LostWithRoots(run, roots, p)
  {
    HomeAfterIsPathwise(run, p);
    HomeAfterIsPathwise(NextRun(run, head, roots), p);
  }

  lemma NextRunCarriedEntry(run: Run, m: Manifest, head: Manifest, roots: set<Surface>, p: StorePath)
    requires WellFormed(run) && Complete(run) && Assembles(run, m) && !Managed(run, p)
    requires Files(head) == Files(m) && Backed(Some(head)) && RootsFollow(run, HomeAfter(run), roots)
    ensures FileHash(NewEntryAt(NextRun(run, head, roots), p)) == FileHash(Get(head, p)) <==>
              !LostWithRoots(run, roots, p)
  {
    NextRunIsIdleAt(run, m, head, roots, p);
    FilesAt(head, p);
    FilesAt(m, p);
    assert SameContent(Get(m, p), NewEntryAt(run, p));
    HasRefOf(run, p);
    assert IsFile(Get(head, p)) ==> head[p].hash in FileHashes(Some(head));
    NextRunCarriedAt(run, head, roots, p);
  }

  lemma NextRunEntry(run: Run, m: Manifest, head: Manifest, roots: set<Surface>, p: StorePath)
    requires WellFormed(run) && Complete(run) && Assembles(run, m)
    requires Files(head) == Files(m) && Backed(Some(head)) && RootsFollow(run, HomeAfter(run), roots)
    ensures FileHash(NewEntryAt(NextRun(run, head, roots), p)) == FileHash(Get(head, p)) <==>
              !LostWithRoots(run, roots, p)
  {
    if Managed(run, p) {
      NextRunManagedEntry(run, m, head, roots, p);
    } else {
      NextRunCarriedEntry(run, m, head, roots, p);
    }
  }

  /**
    * Convergence on one device: a complete run is followed by a run that changes no local file. It
    * assembles the same file set, and so commits nothing, exactly when no file is lost with a root
    * that appeared since. `head` is the new manifest, or the head it matched.
    */
  lemma NextRunCommitsNothingExactlyWhen(run: Run, m: Manifest, head: Manifest, roots: set<Surface>, next: Manifest)
    requires WellFormed(run) && Complete(run) && Assembles(run, m)
    requires Files(head) == Files(m) && Backed(Some(head)) && RootsFollow(run, HomeAfter(run), roots)
    requires Assembles(NextRun(run, head, roots), next)
    ensures HomeAfter(NextRun(run, head, roots)) == HomeAfter(run)
    ensures Files(next) == Files(head) <==> forall p :: !LostWithRoots(run, roots, p)
    ensures !Unresolved(NextRun(run, head, roots))
  {
    var again := NextRun(run, head, roots);
    forall p
      ensures Get(Files(next), p) == Get(Files(head), p) <==> !LostWithRoots(run, roots, p)
    {
      NextRunEntry(run, m, head, roots, p);
      FilesAt(next, p);
      FilesAt(head, p);
      assert SameContent(Get(next, p), NewEntryAt(again, p));
    }
    if forall p :: !LostWithRoots(run, roots, p) { SameLookups(Files(next), Files(head)); }
    forall p ensures Get(HomeAfter(again), p) == Get(HomeAfter(run), p) {
      NextRunIsIdleAt(run, m, head, roots, p);
      HomeAfterIsPathwise(again, p);
    }
    SameLookups(HomeAfter(again), HomeAfter(run));
    assert forall p :: again.fate(p) == Applied;
  }

  /** A device whose disk lost the root of `p` and `q`, while another device added `p`. */
  function LostRootRun(p: StorePath, q: StorePath, x: Hash, y: Hash): Run {
    Run(Config({p.surface}, {}, {p.surface}, false, _ => false, _ => false), {}, map[], map[], map[],
        Some(map[q := File(y, Some(1))]), Some(map[p := File(x, Some(0)), q := File(y, Some(1))]),
        _ => Applied, {}, (_, _, _, _) => Same)
  }

  /** It happens: the run downloads `p`, which creates the root, and the next run deletes `q` for everyone. */
  lemma NewRootTurnsAbsenceIntoDeletion(p: StorePath, q: StorePath, x: Hash, y: Hash, m: Manifest, next: Manifest)
    requires p != q && p.surface == q.surface
    requires var run := LostRootRun(p, q, x, y);
             Assembles(run, m) && Assembles(NextRun(run, m, {p.surface}), next)
    ensures var run := LostRootRun(p, q, x, y);
            && WellFormed(run) && Complete(run) && Get(HomeAfter(run), p) == Some(x.text)
            && RootsFollow(run, HomeAfter(run), {p.surface})
            && FileHash(Get(m, p)) == Some(x) && FileHash(Get(m, q)) == Some(y)
            && LostWithRoots(run, {p.surface}, q) && Get(next, q) == Some(Tombstone)
  {
    var run := LostRootRun(p, q, x, y);
    HasRefOf(run, p);
    HomeAfterIsPathwise(run, p);
    HomeAfterIsPathwise(run, q);
    assert ResolutionAt(run, p) == Download && ResolutionAt(run, q) == DeleteRemote;
    assert SameContent(Get(m, p), NewEntryAt(run, p)) && SameContent(Get(m, q), NewEntryAt(run, q));
    var again := NextRun(run, m, {p.surface});
    assert p in HomeAfter(run) && q !in HomeAfter(run);
    assert TombstonedAt(again, q);
    assert SameContent(Get(next, q), NewEntryAt(again, q));
  }

  /** It takes no file: a crash after the directory is made and before the rename is enough. */
  lemma NewDirectoryTurnsAbsenceIntoDeletion(p: StorePath, q: StorePath, x: Hash, y: Hash, m: Manifest, again: Manifest)
    requires p != q && p.surface == q.surface
    requires var run := LostRootRun(p, q, x, y);
             Assembles(run, m) && Assembles(Rerun(run, map[], {p.surface}), again)
    ensures var run := LostRootRun(p, q, x, y);
            && Uninterrupted(run) && CrashLeaves(run, map[], {p.surface}) && LostWithRoots(run, {p.surface}, q)
            && FileHash(Get(m, q)) == Some(y) && Get(again, q) == Some(Tombstone)
  {
    var run := LostRootRun(p, q, x, y);
    HomeAfterIsPathwise(run, q);
    assert ResolutionAt(run, q) == DeleteRemote;
    assert SameContent(Get(m, q), NewEntryAt(run, q));
    var rerun := Rerun(run, map[], {p.surface});
    assert TombstonedAt(rerun, q);
    assert SameContent(Get(again, q), NewEntryAt(rerun, q));
  }

  /** A surface that is one file, still in the base and no longer in the head. */
  function DroppedFileRun(p: StorePath, x: Text): Run {
    Run(Config({p.surface}, {}, {p.surface}, false, _ => false, _ => false), {p.surface},
        map[p := x], map[p := x], map[], Some(map[p := File(HashOf(x), Some(0))]), Some(map[]),
        _ => Applied, {}, (_, _, _, _) => Same)
  }

  /** A crash after the deletion of such a file: its root is gone with it, and the rerun brings it back to the head. */
  lemma DeletedFileSurfaceComesBack(p: StorePath, x: Text, m: Manifest, again: Manifest)
    requires var run := DroppedFileRun(p, x);
             Assembles(run, m) && Assembles(Rerun(run, map[], {}), again)
    ensures var run := DroppedFileRun(p, x);
            && WellFormed(run) && Uninterrupted(run) && CrashLeaves(run, map[], {}) && RevivedWithoutRoot(run, {}, p)
            && FileHash(Get(m, p)) == None && FileHash(Get(again, p)) == Some(HashOf(x))
  {
    var run := DroppedFileRun(p, x);
    HomeAfterIsPathwise(run, p);
    assert ResolutionAt(run, p) == DeleteLocal;
    assert WentWithRoot(run, map[], p);
    assert SameContent(Get(m, p), NewEntryAt(run, p));
    HomeAfterIsPathwise(Rerun(run, map[], {}), p);
    assert SameContent(Get(again, p), NewEntryAt(Rerun(run, map[], {}), p));
  }

  /** The local side of a managed path differs from the base, and not by a deletion the head has overtaken. */
  predicate PushesAt(run: Run, p: StorePath) {
    && Managed(run, p) && LocalAt(run, p) != FileHash(BaseAt(run, p))
    && (LocalAt(run, p).None? ==> FileHash(RemoteAt(run, p)) == FileHash(BaseAt(run, p)))
  }

  ghost predicate NothingToPush(run: Run) {
    forall p :: !PushesAt(run, p)
  }

  /** The device's next run starts from what this one left, over a base with its file set. */
  ghost predicate Follows(run: Run, m: Manifest, later: Run) {
    && later.cfg == run.cfg && later.home == HomeAfter(run) && RootsFollow(run, HomeAfter(run), later.roots)
    && later.base.Some? && Files(later.base.value) == Files(m)
  }

  /** A file lost with a root, which the head still has as the base has it: the next run deletes it. */
  predicate LosesAt(run: Run, later: Run, p: StorePath) {
    && LostWithRoots(run, later.roots, p) && !run.cfg.conflictCopy(p)
    && FileHash(RemoteAt(later, p)) == FileHash(BaseAt(later, p))
  }

  lemma FollowerPushesAt(run: Run, m: Manifest, later: Run, p: StorePath)
    requires WellFormed(run) && Complete(run) && Assembles(run, m) && Follows(run, m, later)
    ensures PushesAt(later, p) <==> LosesAt(run, later, p)
  {
    FilesAt(later.base.value, p);
    FilesAt(m, p);
    HomeAfterIsPathwise(run, p);
    HasRefOf(run, p);
    assert run.fate(p) == Applied;
    assert SameContent(Get(m, p), NewEntryAt(run, p));
    if Managed(run, p) { LocalMatchesManifestAt(run, m, p); }
  }

  /** A complete run leaves the next one nothing to push, except where a root appeared without all its files. */
  lemma CompleteLeavesNothingExactlyWhen(run: Run, m: Manifest, later: Run)
    requires WellFormed(run) && Complete(run) && Assembles(run, m) && Follows(run, m, later)
    ensures NothingToPush(later) <==> forall p :: !LosesAt(run, later, p)
  {
    forall p ensures PushesAt(later, p) <==> LosesAt(run, later, p) { FollowerPushesAt(run, m, later, p); }
  }

  /** A file only the base carries, on ground the run does not own: carrying it forward revives it. */
  predicate RevivedAt(run: Run, p: StorePath) {
    !InAuthority(run, p) && RemoteAt(run, p).None? && IsFile(BaseAt(run, p))
  }

  /** A conflict copy the head holds inside the authority: assembling drops it. */
  predicate StrayCopyAt(run: Run, p: StorePath) {
    InAuthority(run, p) && run.cfg.conflictCopy(p) && IsFile(RemoteAt(run, p))
  }

  lemma CatchUpAt(run: Run, m: Manifest, p: StorePath)
    requires WellFormed(run) && Complete(run) && Assembles(run, m) && NothingToPush(run)
    ensures Managed(run, p) ==> FileHash(RemoteAt(run, p)) == OnDisk(HomeAfter(run), p)
    ensures FileHash(Get(m, p)) == FileHash(RemoteAt(run, p)) <==> !RevivedAt(run, p) && !StrayCopyAt(run, p)
  {
    HasRefOf(run, p);
    HomeAfterIsPathwise(run, p);
    assert run.fate(p) == Applied;
    assert SameContent(Get(m, p), NewEntryAt(run, p));
    if Managed(run, p) {
      assert !PushesAt(run, p);
      LocalMatchesManifestAt(run, m, p);
    } else if !InAuthority(run, p) {
      CarryForwardAt(run, m, p);
    }
  }

  /**
    * Convergence across devices: a device with nothing to push ends one sync with every
    * managed file equal to the head. It adds no revision exactly when it revives nothing the
    * head dropped and drops no conflict copy the head carries.
    */
  lemma CatchUpAddsNoRevisionExactlyWhen(run: Run, m: Manifest)
    requires WellFormed(run) && Complete(run) && Assembles(run, m) && NothingToPush(run)
    requires run.remote.Some?
    ensures Files(m) == Files(run.remote.value) <==> forall p :: !RevivedAt(run, p) && !StrayCopyAt(run, p)
  {
    var head := run.remote.value;
    if Files(m) == Files(head) {
      forall p ensures !RevivedAt(run, p) && !StrayCopyAt(run, p) {
        CatchUpAt(run, m, p);
        FilesAt(m, p);
        FilesAt(head, p);
      }
    }
    if forall p :: !RevivedAt(run, p) && !StrayCopyAt(run, p) {
      forall p ensures Get(Files(m), p) == Get(Files(head), p) {
        CatchUpAt(run, m, p);
        FilesAt(m, p);
        FilesAt(head, p);
      }
      SameLookups(Files(m), Files(head));
    }
  }

  /** The run after a complete one brings the head nothing: nothing lost with a root, revived or stray. */
  ghost predicate Calm(run: Run, later: Run) {
    forall p :: !LosesAt(run, later, p) && !RevivedAt(later, p) && !StrayCopyAt(later, p)
  }

  lemma LostIsDropped(run: Run, m: Manifest, later: Run, again: Manifest, p: StorePath)
    requires WellFormed(run) && Complete(run) && Assembles(run, m) && Follows(run, m, later)
    requires WellFormed(later) && Complete(later) && Assembles(later, again) && LosesAt(run, later, p)
    ensures FileHash(Get(again, p)) != FileHash(RemoteAt(later, p))
  {
    FollowerPushesAt(run, m, later, p);
    HasRefOf(later, p);
    HomeAfterIsPathwise(later, p);
    assert later.fate(p) == Applied;
    LocalMatchesManifestAt(later, again, p);
  }

  /** Two complete runs of one device: the second adds no revision to what it observes exactly when it is calm. */
  lemma FollowerAddsNoRevisionExactlyWhen(run: Run, m: Manifest, later: Run, again: Manifest)
    requires WellFormed(run) && Complete(run) && Assembles(run, m) && Follows(run, m, later)
    requires WellFormed(later) && Complete(later) && Assembles(later, again) && later.remote.Some?
    ensures Files(again) == Files(later.remote.value) <==> Calm(run, later)
  {
    CompleteLeavesNothingExactlyWhen(run, m, later);
    if p :| LosesAt(run, later, p) {
      LostIsDropped(run, m, later, again, p);
      FilesAt(again, p);
      FilesAt(later.remote.value, p);
    } else {
      CatchUpAddsNoRevisionExactlyWhen(later, again);
    }
  }

  // ----- Merging without a base -----

  /** A local side that alone moved is kept. */
  ghost predicate KeepsLocal(f: MergeFn) {
    forall p, b, l :: MergeValue(f, p, b, l, b) == l
  }

  /**
    * A merge is not always one of both sides. Without a base text the head's text stands in for it,
    * so a merge that keeps a lone local change returns the local text: the head's file is replaced
    * by one that knows nothing of it.
    */
  lemma MergeKeepsOnlyLocalExactlyWhen(run: Run, m: Manifest, p: StorePath)
    requires WellFormed(run) && Complete(run) && Assembles(run, m) && KeepsLocal(run.merge)
    requires Managed(run, p) && ResolutionAt(run, p) == Merge
    ensures FileHash(Get(m, p)) == LocalAt(run, p) <==>
              !IsFile(BaseAt(run, p)) || MergedText(run, p) == run.home[p]
    ensures !IsFile(BaseAt(run, p)) ==> LocalAt(run, p) != FileHash(RemoteAt(run, p))
  {
    LocalMatchesManifestAt(run, m, p);
    HomeAfterIsPathwise(run, p);
    assert run.fate(p) == Applied;
    if !IsFile(BaseAt(run, p)) {
      var l, r := run.home[p], RemoteAt(run, p).value.hash.text;
      assert MergedText(run, p) == MergeValue(run.merge, p, r, l, r);
    }
  }
}
