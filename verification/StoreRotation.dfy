/** Re-encrypting the head revision: every referenced blob opened, re-sealed and swapped in. */
module StoreRotation {
  import opened Prelude
  import opened SyncPlan
  import opened SyncRun
  import opened Blobs

  datatype RotationError = MissingBlob(ref: Ref) | WrongKey(ref: Ref)

  /** The manifests agree on every path, kind and hash, and carry blobs for the same entries. */
  ghost predicate SameContents(a: Manifest, b: Manifest) {
    && a.Keys == b.Keys
    && forall p | p in a :: SameShape(a[p], b[p])
  }

  predicate SameShape(a: Entry, b: Entry) {
    a.File? == b.File? && (a.File? ==> a.hash == b.hash && a.blob.Some? == b.blob.Some?)
  }

  lemma SameContentsSameFiles(a: Manifest, b: Manifest)
    requires SameContents(a, b)
    ensures Files(a) == Files(b)
  {
    assert forall p :: p in a ==> SameShape(a[p], b[p]);
  }

  predicate Readable(blobs: Ciphertexts, key: Key, ref: Ref) {
    ref in blobs && Open(key, blobs[ref]).Some?
  }

  /** Opens each blob under the old key; the first one that is missing or does not open stops it. */
  method OpenAll(blobs: Ciphertexts, key: Key, refs: set<Ref>) returns (r: Result<map<Ref, Text>, RotationError>)
    ensures r.Ok? <==> forall ref :: ref in refs ==> Readable(blobs, key, ref)
    ensures r.Ok? ==> r.value.Keys == refs && forall ref :: ref in refs ==> Open(key, blobs[ref]) == Some(r.value[ref])
  {
    var texts: map<Ref, Text> := map[];
    var todo := refs;
    while todo != {}
      invariant todo <= refs && texts.Keys == refs - todo
      invariant forall ref :: ref in texts ==> ref in blobs && Open(key, blobs[ref]) == Some(texts[ref])
    {
      var ref :| ref in todo;
      if ref !in blobs {
        assert !Readable(blobs, key, ref);
        return Err(MissingBlob(ref));
      }
      var text := Open(key, blobs[ref]);
      if text.None? {
        assert !Readable(blobs, key, ref);
        return Err(WrongKey(ref));
      }
      texts := texts[ref := text.value];
      todo := todo - {ref};
    }
    r := Ok(texts);
  }

  /** Seals every text under the new key and uploads it: each old reference gets a new one. */
  method ResealAll(store: BlobStore, key: Key, texts: map<Ref, Text>) returns (swapped: map<Ref, Ref>)
    requires store.Valid()
    modifies store
    ensures store.Valid() && Extends(old(store.blobs), store.blobs) && swapped.Keys == texts.Keys
    ensures forall ref :: ref in texts ==>
              swapped[ref] in store.blobs && store.blobs[swapped[ref]] == Sealed(key, texts[ref]) &&
              swapped[ref] !in old(store.blobs)
  {
    swapped := map[];
    var todo := texts.Keys;
    while todo != {}
      invariant store.Valid() && Extends(old(store.blobs), store.blobs)
      invariant todo <= texts.Keys && swapped.Keys == texts.Keys - todo
      invariant forall ref :: ref in swapped ==>
                  swapped[ref] in store.blobs && store.blobs[swapped[ref]] == Sealed(key, texts[ref]) &&
                  swapped[ref] !in old(store.blobs)
    {
      var ref :| ref in todo;
      var resealed := store.Put(Sealed(key, texts[ref]));
      swapped := swapped[ref := resealed];
      todo := todo - {ref};
    }
  }

  /** An entry with its blob swapped for the re-sealed one. */
  function SwapEntry(e: Entry, swapped: map<Ref, Ref>): Entry
    requires e.File? && e.blob.Some? ==> e.blob.value in swapped
  {
    if e.File? && e.blob.Some? then e.(blob := Some(swapped[e.blob.value])) else e
  }

  /**
    * Rotation keeps every path, hash and plaintext. It succeeds exactly when every blob the head
    * references opens under the old key; the new manifest then opens under the new one and shares
    * no ciphertext with anything stored before.
    */
  method RotateManifest(store: BlobStore, key: Key, newKey: Key, m: Manifest)
    returns (r: Result<Manifest, RotationError>, replaced: set<Ref>)
    requires store.Valid()
    modifies store
    ensures store.Valid() && Extends(old(store.blobs), store.blobs)
    ensures r.Ok? <==> forall ref :: ref in ListedBlobs(m) ==> Readable(old(store.blobs), key, ref)
    ensures r.Err? ==> store.blobs == old(store.blobs)
    ensures r.Ok? ==> SameContents(r.value, m) && replaced == ListedBlobs(m)
    ensures r.Ok? && Intact(old(store.blobs), key, m) ==> Intact(store.blobs, newKey, r.value)
    ensures r.Ok? ==> ListedBlobs(r.value) !! old(store.blobs).Keys
  {
    replaced := ListedBlobs(m);
    var plain := OpenAll(store.blobs, key, replaced);
    if plain.Err? { return Err(plain.error), replaced; }
    var swapped := ResealAll(store, newKey, plain.value);
    var entries := map p | p in m :: SwapEntry(m[p], swapped);
    assert forall p | p in m :: SameShape(entries[p], m[p]);
    if Intact(old(store.blobs), key, m) {
      forall p | p in entries && entries[p].File? && entries[p].blob.Some?
        ensures Opens(store.blobs, newKey, entries[p].blob.value, entries[p].hash)
      {
        assert m[p].blob.value in ListedBlobs(m);
        assert Opens(old(store.blobs), key, m[p].blob.value, m[p].hash);
      }
    }
    return Ok(entries), replaced;
  }

  /** So an intact head always rotates. */
  lemma IntactManifestsRotate(blobs: Ciphertexts, key: Key, m: Manifest)
    requires Intact(blobs, key, m)
    ensures forall ref :: ref in ListedBlobs(m) ==> Readable(blobs, key, ref)
  {
    forall ref | ref in ListedBlobs(m) ensures Readable(blobs, key, ref) {
      var p :| p in m && m[p].File? && m[p].blob.Some? && m[p].blob.value == ref;
      assert Opens(blobs, key, m[p].blob.value, m[p].hash);
    }
  }
}
