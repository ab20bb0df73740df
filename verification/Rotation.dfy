/**
  * Passphrase rotation as a protocol over remote and local state: commit, pending record, profile
  * and vault heads, cached key, base, published parameters, confirmation. The machine may die between any
  * two of these, and `Resume` picks the rotation up from whatever is left.
  */
module Rotation {
  import opened Prelude
  import opened SyncPlan
  import opened Blobs
  import opened StoreRotation

  type RevisionId = nat

  datatype SealedManifest = SealedManifest(key: Key, manifest: Manifest)

  /** A profile or vault head: one ciphertext and the generation its writers compare. */
  datatype Side = Side(sealed: Sealed, generation: nat)

  datatype Kdf = Kdf(salt: string, generation: nat)

  datatype Remote = Remote(revisions: map<RevisionId, SealedManifest>, heads: seq<RevisionId>,
                           profile: Option<Side>, vault: Option<Side>, kdf: Option<Kdf>)

  datatype Pending = Pending(salt: string, expectedGeneration: nat, revision: RevisionId)

  datatype Local = Local(cached: Key, pending: Option<Pending>, base: Option<Manifest>)

  datatype Failure =
    | Crashed | RotationPending | NoKdf | NothingToRotate | ForkedStore | SamePassphrase | WrongPassphrase
    | NothingToResume | RotationConflict | BrokenStore

  // ----- The chain every crash and rerun keeps -----

  /** What a rotation started from, the key its device had cached, and what it committed. */
  datatype Plan = Plan(before: Remote, oldKey: Key, newKey: Key, cached: Key, revision: RevisionId, manifest: Manifest)

  /** The side as the rotation leaves it: same plaintext under the new key, one generation on. */
  function Resealed(side: Option<Side>, newKey: Key): Option<Side> {
    if side.None? then None else Some(Side(Sealed(newKey, side.value.sealed.text), side.value.generation + 1))
  }

  predicate UnderKey(side: Option<Side>, key: Key) {
    side.Some? ==> side.value.sealed.key == key
  }

  /** At most re-sealed: the plaintext is the old one, and the generation is one on exactly if the key changed. */
  predicate SamePlaintext(was: Option<Side>, now: Option<Side>) {
    && (was.Some? <==> now.Some?)
    && (was.Some? ==>
          && now.value.sealed.text == was.value.sealed.text
          && now.value.generation ==
             was.value.generation + (if now.value.sealed.key == was.value.sealed.key then 0 else 1))
  }

  predicate Committed(p: Plan, r: Remote) {
    && r.heads == [p.revision]
    && r.revisions == p.before.revisions[p.revision := SealedManifest(p.newKey, p.manifest)]
  }

  predicate SidesRotated(p: Plan, r: Remote) {
    r.profile == Resealed(p.before.profile, p.newKey) && r.vault == Resealed(p.before.vault, p.newKey)
  }

  predicate Published(p: Plan, r: Remote) {
    && p.before.kdf.Some?
    && r.kdf == Some(Kdf(p.newKey.salt, p.before.kdf.value.generation + 1))
  }

  /**
    * Published parameters imply the new key is cached, which implies both side heads are sealed
    * under it, which the committed head always is; and nothing but keys ever changed.
    */
  predicate Chain(p: Plan, r: Remote, l: Local) {
    && Committed(p, r)
    && r.profile in {p.before.profile, Resealed(p.before.profile, p.newKey)}
    && r.vault in {p.before.vault, Resealed(p.before.vault, p.newKey)}
    && (r.kdf == p.before.kdf || Published(p, r))
    && (Published(p, r) ==> l.cached == p.newKey)
    && (l.cached == p.newKey ==> SidesRotated(p, r))
    && (l.cached == p.newKey || l.cached == p.cached)
  }

  /** So at every point of a rotation both side heads hold what they held before it. */
  lemma ChainKeepsPlaintexts(p: Plan, r: Remote, l: Local)
    requires Sound(p) && Chain(p, r, l)
    ensures SamePlaintext(p.before.profile, r.profile) && SamePlaintext(p.before.vault, r.vault)
    ensures l.cached == p.newKey ==> UnderKey(r.profile, p.newKey) && UnderKey(r.vault, p.newKey)
  {
  }

  /** The pending record is on disk, or the rotation is over. */
  predicate Underway(p: Plan, r: Remote, l: Local) {
    && Chain(p, r, l) && p.before.kdf.Some?
    && match l.pending
       case Some(pending) => pending == Pending(p.newKey.salt, p.before.kdf.value.generation, p.revision)
       case None => Published(p, r)
  }

  /** Resuming re-seals with the key the device had cached, so each side must open under that or the new one. */
  predicate CanResume(p: Plan, r: Remote) {
    && (UnderKey(r.profile, p.newKey) || UnderKey(r.profile, p.cached))
    && (UnderKey(r.vault, p.newKey) || UnderKey(r.vault, p.cached))
  }

  /** The salt is new: no key in use anywhere was derived from it. */
  predicate NewSalt(r: Remote, cached: Key, salt: string) {
    && (r.kdf.Some? ==> r.kdf.value.salt != salt) && cached.salt != salt
    && (r.profile.Some? ==> r.profile.value.sealed.key.salt != salt)
    && (r.vault.Some? ==> r.vault.value.sealed.key.salt != salt)
  }

  /** The old key belongs to the published parameters, the new one to a new salt. */
  predicate Sound(p: Plan) {
    && p.before.kdf.Some? && p.oldKey.salt == p.before.kdf.value.salt
    && NewSalt(p.before, p.cached, p.newKey.salt)
  }

  /**
    * The first gap: the commit landed and its pending record did not. The new salt is then known
    * nowhere, so no passphrase opens the head, whatever the device still holds.
    */
  predicate Stranded(p: Plan, r: Remote, l: Local) {
    && Committed(p, r) && r.kdf == p.before.kdf && l.pending.None? && l.cached == p.cached
    && r.profile == p.before.profile && r.vault == p.before.vault
  }

  lemma StrandedHeadNeverOpens(p: Plan, r: Remote, l: Local, guess: string)
    requires Sound(p) && Stranded(p, r, l)
    ensures r.revisions[r.heads[0]].key != DerivedKey(guess, r.kdf.value.salt)
    ensures r.revisions[r.heads[0]].key != l.cached
    ensures !Underway(p, r, l)
  {
  }

  /** The second gap: a rotation that cannot be resumed. The published salt does not open the head either. */
  lemma StuckHeadNeverOpens(p: Plan, r: Remote, l: Local, guess: string)
    requires Sound(p) && Underway(p, r, l) && !CanResume(p, r)
    ensures r.kdf.Some? && r.revisions[r.heads[0]].key != DerivedKey(guess, r.kdf.value.salt)
    ensures r.revisions[r.heads[0]].key != l.cached
  {
  }

  // ----- How far re-sealing the side heads gets -----

  predicate Needs(side: Option<Side>, newKey: Key) {
    side.Some? && side.value.sealed.key != newKey
  }

  predicate Shut(side: Option<Side>, oldKey: Key, newKey: Key) {
    Needs(side, newKey) && side.value.sealed.key != oldKey
  }

  function Cost(side: Option<Side>, newKey: Key): nat {
    if Needs(side, newKey) then 1 else 0
  }

  function ResealedOnce(side: Option<Side>, newKey: Key): Option<Side> {
    if Needs(side, newKey) then Resealed(side, newKey) else side
  }

  /** The store after that many writes of re-sealing: the profile, then the vault, up to one that neither key opens. */
  function SidesAfter(r: Remote, oldKey: Key, newKey: Key, steps: nat): Remote {
    if Shut(r.profile, oldKey, newKey) || Cost(r.profile, newKey) > steps then r
    else
      var halfway := r.(profile := ResealedOnce(r.profile, newKey));
      if Shut(r.vault, oldKey, newKey) || Cost(r.profile, newKey) + Cost(r.vault, newKey) > steps then halfway
      else halfway.(vault := ResealedOnce(r.vault, newKey))
  }

  /** However far it gets, and whatever opens, re-sealing loses no plaintext and changes nothing else. */
  lemma ResealingKeepsPlaintexts(r: Remote, oldKey: Key, newKey: Key, steps: nat)
    ensures var r' := SidesAfter(r, oldKey, newKey, steps);
            && SamePlaintext(r.profile, r'.profile) && SamePlaintext(r.vault, r'.vault)
            && r' == r.(profile := r'.profile, vault := r'.vault)
  {
  }

  /** Re-sealing with the cached key keeps the chain and whether it can be completed. */
  lemma ResealingKeeps(p: Plan, r: Remote, l: Local, steps: nat)
    requires Sound(p) && Underway(p, r, l) && l.cached != p.newKey
    ensures var r' := SidesAfter(r, l.cached, p.newKey, steps);
            && Underway(p, r', l) && r'.kdf == r.kdf && r'.revisions == r.revisions && r'.heads == r.heads
            && (CanResume(p, r') <==> CanResume(p, r))
            && (UnderKey(r'.profile, p.newKey) && UnderKey(r'.vault, p.newKey) ==> SidesRotated(p, r'))
    ensures Shut(r.profile, l.cached, p.newKey) || Shut(r.vault, l.cached, p.newKey) <==> !CanResume(p, r)
  {
  }

  /**
    * Wherever a rotation is cut off after its pending record, it can be resumed, exactly when the
    * cached key opens both side heads as the rotation found them. When the passphrase's key does,
    * that means: the cached key is the passphrase's, or there are no side heads.
    */
  lemma EveryCutResumesExactlyWhen(p: Plan)
    requires Sound(p)
    ensures (forall k: nat :: CanResume(p, SidesAfter(p.before, p.oldKey, p.newKey, k))) <==>
              UnderKey(p.before.profile, p.cached) && UnderKey(p.before.vault, p.cached)
    ensures UnderKey(p.before.profile, p.oldKey) && UnderKey(p.before.vault, p.oldKey) ==>
              (UnderKey(p.before.profile, p.cached) && UnderKey(p.before.vault, p.cached) <==>
                 p.cached == p.oldKey || (p.before.profile.None? && p.before.vault.None?))
  {
    assert SidesAfter(p.before, p.oldKey, p.newKey, 0) == p.before;
  }

  /**
    * The input: another device rotated before, so this one caches a key of an older salt, and there is
    * a vault. The rotation starts all the same, and dead right after its pending record it is stuck.
    */
  lemma LaggingKeyGetsStuck(passphrase: string, next: string, older: Key, salt: string, newSalt: string, text: Text)
    returns (p: Plan, before: Local, r: Remote, l: Local)
    requires passphrase != next && older.salt != salt && newSalt != salt && newSalt != older.salt
    ensures Sound(p) && p.cached == before.cached == older && p.newKey == DerivedKey(next, newSalt)
    ensures Refusal(p.before, before, passphrase, next) == None
    ensures r == SidesAfter(p.before.(heads := r.heads, revisions := r.revisions), p.oldKey, p.newKey, 0)
    ensures Underway(p, r, l) && l == before.(pending := Some(Pending(newSalt, 1, p.revision)))
    ensures !CanResume(p, r)
  {
    var key := DerivedKey(passphrase, salt);
    before := Local(older, None, None);
    var vault := Some(Side(Sealed(key, text), 1));
    p := Plan(Remote(map[0 := SealedManifest(key, map[])], [0], None, vault, Some(Kdf(salt, 1))),
              key, DerivedKey(next, newSalt), older, 1, map[]);
    r := p.before.(heads := [1], revisions := p.before.revisions[1 := SealedManifest(p.newKey, map[])]);
    l := before.(pending := Some(Pending(newSalt, 1, 1)));
  }

  /** The parameters the store answers with after a publish attempt, or a generation conflict. */
  function PublishKdf(kdf: Option<Kdf>, salt: string, expected: nat): Option<Kdf> {
    if kdf.None? then
      if expected != 1 then None else Some(Kdf(salt, 1))
    else if kdf.value.salt == salt then kdf
    else if kdf.value.generation != expected then None
    else Some(Kdf(salt, kdf.value.generation + 1))
  }

  /**
    * Publishing never replaces parameters its writer has not seen: they are the writer's own already,
    * or at the generation it expects, the first for an empty store; then they are one generation on.
    */
  lemma PublishesExactlyWhen(kdf: Option<Kdf>, salt: string, expected: nat)
    ensures var after := PublishKdf(kdf, salt, expected);
            && (after.Some? <==>
                  || (kdf.None? && expected == 1)
                  || (kdf.Some? && (kdf.value.salt == salt || kdf.value.generation == expected)))
            && (after.Some? ==> after.value.salt == salt)
            && (after.Some? && after != kdf ==>
                  after.value.generation == expected + (if kdf.Some? then 1 else 0))
            && (kdf.Some? && kdf.value.salt == salt ==> after == kdf)
  {
  }

  /** Why a rotation refuses to start; nothing has been written when it does. */
  function Refusal(r: Remote, l: Local, passphrase: string, newPassphrase: string): Option<Failure> {
    if l.pending.Some? then Some(RotationPending)
    else if r.kdf.None? then Some(NoKdf)
    else if r.heads == [] then Some(NothingToRotate)
    else if |r.heads| > 1 then Some(ForkedStore)
    else if r.heads[0] !in r.revisions then Some(BrokenStore)
    else if newPassphrase == passphrase then Some(SamePassphrase)
    else if r.revisions[r.heads[0]].key != DerivedKey(passphrase, r.kdf.value.salt) then Some(WrongPassphrase)
    else None
  }

  /** A rotation starts exactly on an unforked head which the passphrase opens, with no other rotation pending. */
  lemma StartsExactlyWhen(r: Remote, l: Local, passphrase: string, newPassphrase: string)
    ensures Refusal(r, l, passphrase, newPassphrase) == None <==>
              && l.pending == None && newPassphrase != passphrase
              && r.kdf.Some? && |r.heads| == 1 && r.heads[0] in r.revisions
              && r.revisions[r.heads[0]].key == DerivedKey(passphrase, r.kdf.value.salt)
    ensures l.pending.Some? ==> Refusal(r, l, passphrase, newPassphrase) == Some(RotationPending)
  {
  }

  class Rotator {
    const store: BlobStore
    var remote: Remote
    var local: Local
    var fuel: nat

    constructor (store: BlobStore, remote: Remote, local: Local)
      ensures this.store == store && this.remote == remote && this.local == local
    {
      this.store, this.remote, this.local, this.fuel := store, remote, local, 0;
    }

    /** One remote or local write; nothing happens once the fuel is spent. */
    method Step() returns (alive: bool)
      modifies this`fuel
      ensures alive == (old(fuel) > 0) && fuel == if alive then old(fuel) - 1 else 0
    {
      alive := fuel > 0;
      if alive { fuel := fuel - 1; }
    }

    /** Re-seals the profile head unless it already opens under the new key, then the vault head. */
    method EnsureSidesRotated(oldKey: Key, newKey: Key) returns (failure: Option<Failure>)
      modifies this`remote, this`fuel
      ensures remote == SidesAfter(old(remote), oldKey, newKey, old(fuel))
      ensures SamePlaintext(old(remote).profile, remote.profile) && SamePlaintext(old(remote).vault, remote.vault)
      ensures failure.None? ==> UnderKey(remote.profile, newKey) && UnderKey(remote.vault, newKey)
      ensures var cost := Cost(old(remote).profile, newKey) + Cost(old(remote).vault, newKey);
              && (failure.None? <==> !Shut(old(remote).profile, oldKey, newKey) &&
                                     !Shut(old(remote).vault, oldKey, newKey) && cost <= old(fuel))
              && (failure.None? ==> fuel == old(fuel) - cost)
              && (failure.Some? && old(fuel) >= 2 ==> failure == Some(BrokenStore))
              && (failure.Some? ==> failure == Some(BrokenStore) || failure == Some(Crashed))
      ensures failure == Some(BrokenStore) ==>
                Shut(old(remote).profile, oldKey, newKey) || Shut(old(remote).vault, oldKey, newKey)
    {
      if remote.profile.Some? && Open(newKey, remote.profile.value.sealed).None? {
        var text := Open(oldKey, remote.profile.value.sealed);
        if text.None? { return Some(BrokenStore); }
        var alive := Step();
        if !alive { return Some(Crashed); }
        remote := remote.(profile := Some(Side(Sealed(newKey, text.value), remote.profile.value.generation + 1)));
      }
      if remote.vault.Some? && Open(newKey, remote.vault.value.sealed).None? {
        var text := Open(oldKey, remote.vault.value.sealed);
        if text.None? { return Some(BrokenStore); }
        var alive := Step();
        if !alive { return Some(Crashed); }
        remote := remote.(vault := Some(Side(Sealed(newKey, text.value), remote.vault.value.generation + 1)));
      }
      failure := None;
    }

    /** Publishes the pending parameters, confirms them, and clears the record. */
    method PublishPending(pending: Pending) returns (failure: Option<Failure>)
      modifies this`remote, this`local, this`fuel
      ensures local == old(local) || local == old(local).(pending := None)
      ensures var kdf := PublishKdf(old(remote).kdf, pending.salt, pending.expectedGeneration);
              && (remote == old(remote) || (kdf.Some? && remote == old(remote).(kdf := kdf)))
              && (local == old(local) || (kdf.Some? && remote.kdf == kdf && local == old(local).(pending := None)))
              && (failure.None? ==> kdf.Some? && remote.kdf == kdf && local.pending.None?)
              && (kdf.Some? ==> failure.None? || (failure == Some(Crashed) && old(fuel) < 2))
              && (kdf.None? ==> failure == Some(RotationConflict) && remote == old(remote) && local == old(local))
    {
      var kdf := PublishKdf(remote.kdf, pending.salt, pending.expectedGeneration);
      if kdf.None? { return Some(RotationConflict); }
      var alive := Step();
      if !alive { return Some(Crashed); }
      remote := remote.(kdf := kdf);
      alive := Step();
      if !alive { return Some(Crashed); }
      local := local.(pending := None);
      failure := None;
    }

    /** Commits the re-encrypted head. */
    method CommitRotation(oldKey: Key, newKey: Key, revision: RevisionId) returns (r: Result<Manifest, Failure>)
      requires store.Valid() && |remote.heads| == 1 && remote.heads[0] in remote.revisions
      modifies this`remote, this`fuel, store
      ensures store.Valid() && Extends(old(store.blobs), store.blobs)
      ensures var head := old(remote).revisions[old(remote).heads[0]].manifest;
              && (r.Ok? ==>
                    && SameContents(r.value, head)
                    && (Intact(old(store.blobs), oldKey, head) ==> Intact(store.blobs, newKey, r.value))
                    && remote == old(remote).(heads := [revision],
                         revisions := old(remote).revisions[revision := SealedManifest(newKey, r.value)]))
              && (Intact(old(store.blobs), oldKey, head) ==> r.Ok? || (r.error == Crashed && old(fuel) < 1))
      ensures r.Err? ==> remote == old(remote)
      ensures r.Ok? ==> fuel == old(fuel) - 1
    {
      var head := remote.revisions[remote.heads[0]].manifest;
      if Intact(store.blobs, oldKey, head) { IntactManifestsRotate(store.blobs, oldKey, head); }
      var rotated, _ := RotateManifest(store, oldKey, newKey, head);
      if rotated.Err? { return Err(BrokenStore); }
      var alive := Step();
      if !alive { return Err(Crashed); }
      remote := remote.(heads := [revision],
                                 revisions := remote.revisions[revision := SealedManifest(newKey, rotated.value)]);
      r := Ok(rotated.value);
    }

    /** Everything after the pending record: sides, cached key, base, publication. */
    method Complete(pending: Pending, oldKey: Key, newKey: Key, entries: Manifest, ghost p: Plan)
      returns (failure: Option<Failure>)
      requires local.pending == Some(pending)
      modifies this`remote, this`local, this`fuel
      ensures Sound(p) && oldKey == p.oldKey && newKey == p.newKey && old(Underway(p, remote, local)) &&
              old(remote).kdf == p.before.kdf && old(local).cached == p.cached &&
              old(remote).profile == p.before.profile && old(remote).vault == p.before.vault ==>
                && Underway(p, remote, local)
                && remote.profile == SidesAfter(p.before, oldKey, newKey, old(fuel)).profile
                && remote.vault == SidesAfter(p.before, oldKey, newKey, old(fuel)).vault
                && (failure.None? ==> Published(p, remote) && local.pending.None?)
                && (old(fuel) >= 6 ==>
                      failure == if UnderKey(p.before.profile, oldKey) && UnderKey(p.before.vault, oldKey)
                                 then None else Some(BrokenStore))
      ensures failure.None? ==> local.base == Some(entries)
    {
      failure := EnsureSidesRotated(oldKey, newKey);
      if failure.Some? { return; }
      var alive := Step();
      if !alive { return Some(Crashed); }
      local := local.(cached := newKey);
      alive := Step();
      if !alive { return Some(Crashed); }
      local := local.(base := Some(entries));
      failure := PublishPending(pending);
    }

    /**
      * A rotation under any local and remote state. It refuses without a write, or starts; then,
      * however it is cut off, the store is untouched, stranded between the commit and the pending record,
      * or underway with its side heads as far as `SidesAfter` says. With enough steps it is
      * published exactly when the passphrase's key opens the side heads. The cached key is not asked.
      */
    method Run(passphrase: string, newPassphrase: string, salt: string, revision: RevisionId)
      returns (failure: Option<Failure>, ghost p: Plan)
      requires store.Valid()
      modifies this`remote, this`local, this`fuel, store
      ensures store.Valid() && Extends(old(store.blobs), store.blobs)
      ensures p.before == old(remote) && p.cached == old(local).cached && p.revision == revision
      ensures old(Refusal(remote, local, passphrase, newPassphrase)).Some? ==>
                failure == old(Refusal(remote, local, passphrase, newPassphrase)) &&
                remote == old(remote) && local == old(local)
      ensures old(Refusal(remote, local, passphrase, newPassphrase)).None? &&
              NewSalt(old(remote), old(local).cached, salt) ==>
                && Sound(p) && p.newKey == DerivedKey(newPassphrase, salt)
                && p.oldKey == DerivedKey(passphrase, old(remote).kdf.value.salt)
                && ((remote == old(remote) && local == old(local)) || Stranded(p, remote, local)
                    || Underway(p, remote, local))
                && SamePlaintext(old(remote).profile, remote.profile)
                && SamePlaintext(old(remote).vault, remote.vault)
                && (failure.None? ==> Underway(p, remote, local) && Published(p, remote) && local.pending.None? &&
                                      local.base == Some(p.manifest))
                && (old(Intact(store.blobs, p.oldKey, remote.revisions[remote.heads[0]].manifest)) ==>
                      && (old(fuel) == 0 ==> remote == old(remote) && local == old(local))
                      && (old(fuel) == 1 ==> Stranded(p, remote, local))
                      && (old(fuel) >= 2 ==>
                            && Underway(p, remote, local)
                            && remote.profile == SidesAfter(p.before, p.oldKey, p.newKey, old(fuel) - 2).profile
                            && remote.vault == SidesAfter(p.before, p.oldKey, p.newKey, old(fuel) - 2).vault)
                      && (old(fuel) >= 8 ==>
                            failure == if UnderKey(p.before.profile, p.oldKey) && UnderKey(p.before.vault, p.oldKey)
                                       then None else Some(BrokenStore))
                      && (Committed(p, remote) ==>
                            && Intact(store.blobs, p.newKey, p.manifest)
                            && SameContents(p.manifest, old(remote).revisions[old(remote).heads[0]].manifest)))
    {
      p := Plan(remote, DerivedKey(passphrase, ""), DerivedKey(newPassphrase, salt), local.cached, revision, map[]);
      failure := Refusal(remote, local, passphrase, newPassphrase);
      if failure.Some? { return; }
      var oldKey, newKey := DerivedKey(passphrase, remote.kdf.value.salt), DerivedKey(newPassphrase, salt);
      p := p.(oldKey := oldKey);
      var pending := Pending(salt, remote.kdf.value.generation, revision);
      var committed := CommitRotation(oldKey, newKey, revision);
      if committed.Err? { return Some(committed.error), p; }
      p := p.(manifest := committed.value);
      var alive := Step();
      if !alive { return Some(Crashed), p; }
      local := local.(pending := Some(pending));
      failure := Complete(pending, oldKey, newKey, committed.value, p);
    }

    /** The key a pending rotation needs: the cached one if it opens the revision, else derived anew. */
    method EnsurePendingKey(pending: Pending, newPassphrase: string)
      returns (r: Result<(Key, bool), Failure>)
      ensures pending.revision !in remote.revisions ==> r == Err(BrokenStore)
      ensures pending.revision in remote.revisions ==>
                var needed, derived := remote.revisions[pending.revision].key, DerivedKey(newPassphrase, pending.salt);
                r == if needed == local.cached then Ok((local.cached, false))
                     else if needed == derived then Ok((derived, true))
                     else Err(WrongPassphrase)
    {
      if pending.revision !in remote.revisions { return Err(BrokenStore); }
      var needed := remote.revisions[pending.revision].key;
      if needed == local.cached { return Ok((local.cached, false)); }
      var derived := DerivedKey(newPassphrase, pending.salt);
      if needed != derived { return Err(WrongPassphrase); }
      r := Ok((derived, true));
    }

    /**
      * Resuming keeps the chain whatever happens. Run long enough, with the new passphrase or with the
      * key cached already, it publishes exactly when `CanResume`; otherwise neither the parameters nor
      * anything local changes, now or on a later resume.
      */
    method Resume(newPassphrase: string, ghost p: Plan) returns (failure: Option<Failure>)
      modifies this`remote, this`local, this`fuel
      ensures failure == Some(NothingToResume) <==> old(local).pending.None?
      ensures old(local).pending.None? ==> remote == old(remote) && local == old(local)
      ensures local.base == old(local).base
      ensures Sound(p) && old(Underway(p, remote, local)) ==>
                && Underway(p, remote, local)
                && (CanResume(p, remote) <==> old(CanResume(p, remote)))
                && (old(Published(p, remote)) ==> remote == old(remote))
                && (failure.None? ==> Published(p, remote) && local.pending.None?)
                && (failure.Some? && failure.value !in {Crashed, BrokenStore} ==>
                      remote == old(remote) && local == old(local))
                && (old(fuel) >= 6 && (newPassphrase == p.newKey.passphrase || old(local).cached == p.newKey) ==>
                      && (Published(p, remote) && local.pending.None? <==> old(CanResume(p, remote)))
                      && (old(local).pending.Some? ==>
                            failure == if old(CanResume(p, remote)) then None else Some(BrokenStore)))
                && (!old(CanResume(p, remote)) ==> remote.kdf == old(remote).kdf && local == old(local))
    {
      if local.pending.None? { return Some(NothingToResume); }
      var pending := local.pending.value;
      if remote.kdf.Some? && remote.kdf.value.salt == pending.salt {
        var alive := Step();
        if !alive { return Some(Crashed); }
        local := local.(pending := None);
        return None;
      }
      if remote.kdf.Some? && remote.kdf.value.generation != pending.expectedGeneration {
        return Some(RotationConflict);
      }
      var key := EnsurePendingKey(pending, newPassphrase);
      if key.Err? { return Some(key.error); }
      if key.value.1 {
        failure := Repair(key.value.0, p);
        if failure.Some? { return; }
      }
      failure := PublishPending(pending);
    }

    /** Re-seals the side heads with the cached key, then caches the new one. */
    method Repair(newKey: Key, ghost p: Plan) returns (failure: Option<Failure>)
      modifies this`remote, this`local, this`fuel
      ensures local == old(local) || local == old(local).(cached := newKey)
      ensures failure.None? ==> local == old(local).(cached := newKey)
      ensures Sound(p) && newKey == p.newKey && old(local).cached != newKey && old(Underway(p, remote, local)) ==>
                && Underway(p, remote, local) && remote.kdf == old(remote).kdf
                && (CanResume(p, remote) <==> old(CanResume(p, remote)))
                && (old(fuel) >= 3 ==> failure == if old(CanResume(p, remote)) then None else Some(BrokenStore))
                && (!old(CanResume(p, remote)) ==> failure.Some? && local == old(local))
                && (failure.Some? ==> local == old(local))
      ensures failure.Some? ==> failure.value in {Crashed, BrokenStore}
      ensures failure.None? ==> fuel + 3 >= old(fuel)
    {
      if Sound(p) && newKey == p.newKey && local.cached != newKey && Underway(p, remote, local) {
        ResealingKeeps(p, remote, local, fuel);
      }
      failure := EnsureSidesRotated(local.cached, newKey);
      if failure.Some? { return; }
      var alive := Step();
      if !alive { return Some(Crashed); }
      local := local.(cached := newKey);
    }

    /**
      * Any number of resumes, each cut off anywhere and run with any passphrase, followed by one that
      * is not cut off and has the right one: the rotation ends published exactly when it can be
      * resumed at all. If not, all of them leave the parameters and the device as they were.
      */
    method Recover(attempts: seq<(string, nat)>, newPassphrase: string, ghost p: Plan)
      requires Sound(p) && Underway(p, remote, local) && newPassphrase == p.newKey.passphrase
      modifies this`remote, this`local, this`fuel
      ensures Underway(p, remote, local)
      ensures SamePlaintext(p.before.profile, remote.profile) && SamePlaintext(p.before.vault, remote.vault)
      ensures old(CanResume(p, remote)) ==> UnderKey(remote.profile, p.newKey) && UnderKey(remote.vault, p.newKey)
      ensures Published(p, remote) && SidesRotated(p, remote) && local.cached == p.newKey && local.pending.None? <==>
                old(CanResume(p, remote))
      ensures !old(CanResume(p, remote)) ==> remote.kdf == old(remote).kdf && local == old(local)
      ensures old(Published(p, remote)) ==> remote == old(remote)
    {
      for i := 0 to |attempts|
        invariant Underway(p, remote, local) && (CanResume(p, remote) <==> old(CanResume(p, remote)))
        invariant !old(CanResume(p, remote)) ==> remote.kdf == old(remote).kdf && local == old(local)
        invariant old(Published(p, remote)) ==> remote == old(remote)
      {
        fuel := attempts[i].1;
        var _ := Resume(attempts[i].0, p);
      }
      fuel := 6;
      var _ := Resume(newPassphrase, p);
    }

    /** A stranded store stays stranded: neither command finds a key or writes anything. */
    method RetryStranded(guess: string, another: string, salt: string, revision: RevisionId, ghost p: Plan)
      returns (ran: Option<Failure>, resumed: Option<Failure>)
      requires store.Valid() && Sound(p) && Stranded(p, remote, local)
      modifies this`remote, this`local, this`fuel, store
      ensures resumed == Some(NothingToResume)
      ensures ran == Some(if guess == another then SamePassphrase else WrongPassphrase)
      ensures remote == old(remote) && local == old(local)
    {
      StrandedHeadNeverOpens(p, remote, local, guess);
      resumed := Resume(another, p);
      ghost var q;
      ran, q := Run(guess, another, salt, revision);
    }
  }
}
