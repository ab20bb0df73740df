/**
  * What one run does to one path, told from the device's settings and the three sides alone: not
  * through the plan, the authority or the assembly the other modules speak of.
  */
module SyncOutcome {
  import opened Prelude
  import opened SyncPlan
  import opened SyncRun
  import opened SyncLaws

  // ----- What the settings switch off -----

  /**
    * An undeclared or disabled surface, an opt-in file whose surface is left off, a conflict copy,
    * a protected ignored file: the run never writes, deletes or sends it.
    */
  lemma SwitchedOffIsNotTouched(run: Run, p: StorePath)
    requires
      || p.surface !in run.cfg.declared || p.surface in run.cfg.disabled
      || (p.policy == OptIn && p.surface !in run.cfg.optedIn)
      || run.cfg.conflictCopy(p)
      || (run.cfg.ignored(p) && (!run.cfg.prune || p in run.home))
    ensures HomeAfterAt(run, p) == if p in run.late then run.late[p] else Get(run.found, p)
    ensures !UploadedAt(run, p) && !DeferredAt(run, p)
  {
  }

  /** And the commit carries the head's entry there, or the base's where the head has none. */
  lemma SwitchedOffIsCarried(run: Run, m: Manifest, p: StorePath)
    requires WellFormed(run) && Assembles(run, m)
    requires
      || p.surface !in run.cfg.declared || p.surface in run.cfg.disabled
      || (p.policy == OptIn && p.surface !in run.cfg.optedIn)
      || (run.cfg.ignored(p) && (!run.cfg.prune || p in run.home))
    ensures SameContent(Get(m, p), if RemoteAt(run, p).Some? then RemoteAt(run, p) else BaseAt(run, p))
  {
    assert SameContent(Get(m, p), NewEntryAt(run, p));
  }

  /** A conflict copy is carried only where the run may not delete. */
  lemma ConflictCopyIsCarriedExactlyWhen(run: Run, m: Manifest, p: StorePath)
    requires WellFormed(run) && Assembles(run, m) && run.cfg.conflictCopy(p)
    requires p.surface in run.cfg.declared && p.surface !in run.cfg.disabled
    requires p.policy == Sync || p.surface in run.cfg.optedIn
    ensures var kept := if RemoteAt(run, p).Some? then RemoteAt(run, p) else BaseAt(run, p);
            if (run.cfg.ignored(p) && (!run.cfg.prune || p in run.home)) ||
               (p.surface !in run.roots && !run.cfg.prune)
            then SameContent(Get(m, p), kept) else Get(m, p).None?
  {
    assert SameContent(Get(m, p), NewEntryAt(run, p));
  }

  // ----- What it does to a path that is switched on -----

  /** The text a merge of two files leaves: without a base file the head's text stands in for the base's. */
  function MergeOfSides(run: Run, p: StorePath, base: Option<Hash>, local: Text, remote: Text): Text {
    match run.merge(p, if base.Some? then base.value.text else remote, local, remote)
    case Clean(content) => content
    case _ => local
  }

  /**
    * A complete run over a path the settings leave on, its root there: disk and manifest end with
    * the same file. A side that alone moved wins, a local edit outlives a deletion, two moved files
    * are merged; and a tombstone deletes a file the base never had.
    */
  lemma CompleteRunIsThreeWay(run: Run, m: Manifest, p: StorePath)
    requires WellFormed(run) && Complete(run) && Assembles(run, m)
    requires p.surface in run.cfg.declared && p.surface !in run.cfg.disabled
    requires p.policy == Sync || p.surface in run.cfg.optedIn
    requires p.surface in run.roots || run.cfg.prune
    requires !run.cfg.conflictCopy(p) && (run.cfg.ignored(p) ==> run.cfg.prune && p !in run.home)
    ensures var b, l, r := FileHash(BaseAt(run, p)), OnDisk(run.home, p), FileHash(RemoteAt(run, p));
            var result := OnDisk(HomeAfter(run), p);
            && FileHash(Get(m, p)) == result
            && (l == b ==> result == r)
            && (r == b && l != b ==> result == if RemoteAt(run, p) == Some(Tombstone) && b.None? then None else l)
            && (l != b && r != b && (l.None? || r.None?) ==> result == if l.Some? then l else r)
            && (l != b && r != b && l.Some? && r.Some? ==>
                  result == if b.None? && l == r then l
                            else Some(HashOf(MergeOfSides(run, p, b, run.home[p], r.value.text))))
  {
    LocalMatchesManifestAt(run, m, p);
    HomeAfterIsPathwise(run, p);
    HasRefOf(run, p);
    assert run.fate(p) == Applied;
  }

  /** Without its root, and without pruning, a missing file is fetched if the head moved, and never deleted. */
  lemma MissingRootDeletesNothing(run: Run, m: Manifest, p: StorePath)
    requires WellFormed(run) && Complete(run) && Assembles(run, m)
    requires p.surface in run.cfg.declared && p.surface !in run.cfg.disabled
    requires p.policy == Sync || p.surface in run.cfg.optedIn
    requires p.surface !in run.roots && !run.cfg.prune
    requires !run.cfg.conflictCopy(p) && !run.cfg.ignored(p)
    ensures var b, r := FileHash(BaseAt(run, p)), FileHash(RemoteAt(run, p));
            && OnDisk(HomeAfter(run), p) == (if r != b then r else None)
            && SameContent(Get(m, p), if RemoteAt(run, p).Some? then RemoteAt(run, p) else BaseAt(run, p))
  {
    HomeAfterIsPathwise(run, p);
    HasRefOf(run, p);
    assert run.fate(p) == Applied;
    assert SameContent(Get(m, p), NewEntryAt(run, p));
  }

  /** So a file only this device has is committed exactly when the settings leave it on. */
  lemma NewFileCommittedExactlyWhen(run: Run, m: Manifest, p: StorePath)
    requires WellFormed(run) && Complete(run) && Assembles(run, m)
    requires p in run.home && BaseAt(run, p).None? && RemoteAt(run, p).None?
    ensures FileHash(Get(m, p)) == Some(HashOf(run.home[p])) <==>
              && p.surface in run.cfg.declared && p.surface !in run.cfg.disabled
              && (p.policy == Sync || p.surface in run.cfg.optedIn)
              && !run.cfg.conflictCopy(p) && !run.cfg.ignored(p)
  {
    if run.cfg.conflictCopy(p) && InAuthority(run, p) {
      ConflictCopyIsCarriedExactlyWhen(run, m, p);
    } else if Managed(run, p) {
      CompleteRunIsThreeWay(run, m, p);
      HomeAfterIsPathwise(run, p);
    } else {
      SwitchedOffIsCarried(run, m, p);
    }
  }

  /** A head file the base knew and this device lacks is tombstoned exactly on ground the run may delete on. */
  lemma MissingFileTombstonedExactlyWhen(run: Run, m: Manifest, p: StorePath)
    requires WellFormed(run) && Assembles(run, m)
    requires p !in run.home && IsFile(RemoteAt(run, p)) && FileHash(BaseAt(run, p)) == FileHash(RemoteAt(run, p))
    ensures Get(m, p) == Some(Tombstone) <==>
              && p.surface in run.cfg.declared && p.surface !in run.cfg.disabled
              && (p.policy == Sync || p.surface in run.cfg.optedIn)
              && !run.cfg.conflictCopy(p) && (run.cfg.ignored(p) ==> run.cfg.prune)
              && (p.surface in run.roots || run.cfg.prune)
  {
    HomeAfterIsPathwise(run, p);
    HasRefOf(run, p);
    assert SameContent(Get(m, p), NewEntryAt(run, p));
  }

  // ----- What is put off, what is refused, and what the user does meanwhile -----

  /** The disk moved, and the head has not moved with a file of its own. */
  predicate PushAt(run: Run, p: StorePath) {
    var b, l, r := FileHash(BaseAt(run, p)), OnDisk(run.home, p), FileHash(RemoteAt(run, p));
    l.Some? && l != b && (r.None? || r == b) && !(RemoteAt(run, p) == Some(Tombstone) && b.None?)
  }

  /** The head has a file this device lacks, or still has as the base has it. */
  predicate FetchAt(run: Run, p: StorePath) {
    var b, l, r := FileHash(BaseAt(run, p)), OnDisk(run.home, p), FileHash(RemoteAt(run, p));
    r.Some? && r != b && (l.None? || l == b)
  }

  /** The head has no file, and the one on disk is the base's, or meets a tombstone over an empty base. */
  predicate ClearAt(run: Run, p: StorePath) {
    var b, l, r := FileHash(BaseAt(run, p)), OnDisk(run.home, p), FileHash(RemoteAt(run, p));
    l.Some? && r.None? && (l == b || (RemoteAt(run, p) == Some(Tombstone) && b.None?))
  }

  /** Disk and head moved, both to a file. */
  predicate MeetAt(run: Run, p: StorePath) {
    var b, l, r := FileHash(BaseAt(run, p)), OnDisk(run.home, p), FileHash(RemoteAt(run, p));
    l.Some? && r.Some? && l != b && r != b && (b.Some? || l != r)
  }

  /**
    * A quiet run is left unresolved exactly by a path that is switched on, whose head entry moved
    * away from the base's, whose file on disk neither is the head's already nor edits what the head
    * deleted, and whose turn did not end as planned.
    */
  lemma UnresolvedExactlyWhen(run: Run)
    requires WellFormed(run) && Quiet(run)
    ensures Unresolved(run) <==> exists p :: AwaitsAt(run, p) && run.fate(p) != Applied
  {
    forall p ensures DeferredAt(run, p) && !SameContent(RemoteAt(run, p), BaseAt(run, p)) <==>
                     AwaitsAt(run, p) && run.fate(p) != Applied
    {
    }
    if p :| AwaitsAt(run, p) && run.fate(p) != Applied {
      assert p in run.home.Keys + Keys(run.remote);
      assert DeferredAt(run, p);
    }
  }

  /** The head's entry is not the base's, and the disk has yet to follow. */
  predicate AwaitsAt(run: Run, p: StorePath) {
    && p.surface in run.cfg.declared && p.surface !in run.cfg.disabled
    && (p.policy == Sync || p.surface in run.cfg.optedIn)
    && !run.cfg.conflictCopy(p) && (run.cfg.ignored(p) ==> run.cfg.prune && p !in run.home)
    && !SameContent(RemoteAt(run, p), BaseAt(run, p))
    && (FetchAt(run, p) || ClearAt(run, p) || MeetAt(run, p))
  }

  /**
    * What a run sends, of the paths that are switched on and still there: every local move the rules
    * let through, and every merge that settles. It reports every local move they stop.
    */
  lemma SentExactlyWhen(run: Run, p: StorePath)
    requires WellFormed(run)
    requires p.surface in run.cfg.declared && p.surface !in run.cfg.disabled
    requires p.policy == Sync || p.surface in run.cfg.optedIn
    requires !run.cfg.conflictCopy(p) && (run.cfg.ignored(p) ==> run.cfg.prune && p !in run.home)
    ensures UploadedAt(run, p) <==>
              && p in run.found
              && ((PushAt(run, p) && run.fate(p) != Blocked) || (MeetAt(run, p) && run.fate(p) == Applied))
    ensures BlockedAt(run, p) <==> p in run.found && PushAt(run, p) && run.fate(p) == Blocked
  {
  }

  /** A local edit the secret rules refuse leaves the store with the entry it had: the base's, or the head's. */
  lemma BlockedEditKeepsTheEntry(run: Run, m: Manifest, p: StorePath)
    requires WellFormed(run) && Quiet(run) && Assembles(run, m) && p in run.home && run.fate(p) == Blocked
    requires p.surface in run.cfg.declared && p.surface !in run.cfg.disabled
    requires p.policy == Sync || p.surface in run.cfg.optedIn
    requires !run.cfg.conflictCopy(p) && !run.cfg.ignored(p)
    requires FileHash(RemoteAt(run, p)) == FileHash(BaseAt(run, p)) != Some(HashOf(run.home[p]))
    requires RemoteAt(run, p) == Some(Tombstone) ==> IsFile(BaseAt(run, p))
    requires var h := HashOf(run.home[p]);
             h !in FileHashes(run.base) + FileHashes(run.remote) + run.headUploads + UploadedHashes(run)
    ensures Get(HomeAfter(run), p) == Some(run.home[p])
    ensures FileHash(Get(m, p)) == if BaseAt(run, p).Some? then FileHash(BaseAt(run, p)) else FileHash(RemoteAt(run, p))
  {
    HomeAfterIsPathwise(run, p);
    assert SameContent(Get(m, p), NewEntryAt(run, p));
  }

  /**
    * What a run reports as put off, of the paths that are switched on: a download or deletion that
    * met an edit or ended otherwise than planned, unless the file to delete is gone already, and a
    * merge that found no file or did not settle.
    */
  lemma DeferredExactlyWhen(run: Run, p: StorePath)
    requires WellFormed(run)
    requires p.surface in run.cfg.declared && p.surface !in run.cfg.disabled
    requires p.policy == Sync || p.surface in run.cfg.optedIn
    requires !run.cfg.conflictCopy(p) && (run.cfg.ignored(p) ==> run.cfg.prune && p !in run.home)
    ensures DeferredAt(run, p) <==>
              || (FetchAt(run, p) && (Get(run.found, p) != Get(run.home, p) || run.fate(p) != Applied))
              || (ClearAt(run, p) && p in run.found &&
                  (Get(run.found, p) != Get(run.home, p) || run.fate(p) != Applied))
              || (MeetAt(run, p) && (p !in run.found || run.fate(p) != Applied))
  {
  }

  /**
    * A path the user edited before its turn, or whose turn did not end as planned, keeps what the
    * turn found, unless it takes a merge of exactly that; nothing replaces it unread.
    */
  lemma OnlyAMergeReplaces(run: Run, p: StorePath)
    requires Get(run.found, p) != Get(run.home, p) || run.fate(p) != Applied
    ensures run.fate(p) == Deferred || run.fate(p) == Blocked ==> AppliedAt(run, p) == Get(run.found, p)
    ensures AppliedAt(run, p) != Get(run.found, p) ==>
              && p in run.home && p in run.found && IsFile(RemoteAt(run, p))
              && var r := RemoteAt(run, p).value.hash.text;
                 var b := if Blobbed(BaseAt(run, p)).Some? then BaseAt(run, p).value.hash.text else r;
                 run.merge(p, b, run.found[p], r) == Clean(AppliedAt(run, p).value)
  {
  }

  /** A head file that names no ciphertext is passed over: nothing is written, and nothing put off. */
  lemma EntryWithoutCiphertextIsPassedOver(run: Run, p: StorePath)
    requires IsFile(RemoteAt(run, p)) && RemoteAt(run, p).value.blob.None?
    ensures AppliedAt(run, p) == Get(run.found, p) && !DeferredAt(run, p)
  {
  }

  /** A merge that is put off after its write has left its result on disk, and has not sent it. */
  lemma PutOffMergeIsWritten(run: Run, p: StorePath)
    requires WellFormed(run) && Quiet(run) && MeetAt(run, p) && run.fate(p) == WrittenThenDeferred
    requires p.surface in run.cfg.declared && p.surface !in run.cfg.disabled
    requires p.policy == Sync || p.surface in run.cfg.optedIn
    requires !run.cfg.conflictCopy(p) && !run.cfg.ignored(p)
    ensures HomeAfterAt(run, p) ==
            Some(MergeOfSides(run, p, FileHash(BaseAt(run, p)), run.home[p], RemoteAt(run, p).value.hash.text))
    ensures !UploadedAt(run, p) && DeferredAt(run, p)
  {
  }
}
