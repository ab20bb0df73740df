/** The remote's ciphertext store: content goes in sealed under a key and never changes. */
module Blobs {
  import opened Prelude
  import opened SyncPlan

  /** A master key is fixed by the passphrase and the public derivation salt. */
  datatype Key = DerivedKey(passphrase: string, salt: string)

  /** Ciphertext: it opens under the key that sealed it and under no other. */
  datatype Sealed = Sealed(key: Key, text: Text)

  type Ciphertexts = map<Ref, Sealed>

  function Open(key: Key, s: Sealed): Option<Text> {
    if s.key == key then Some(s.text) else None
  }

  /** The reference leads to ciphertext that opens to the content with this hash. */
  predicate Opens(blobs: Ciphertexts, key: Key, ref: Ref, h: Hash) {
    ref in blobs && Open(key, blobs[ref]) == Some(h.text)
  }

  /** Every file entry carrying a blob reference names ciphertext of its own content. */
  predicate Intact(blobs: Ciphertexts, key: Key, m: Manifest) {
    forall p :: p in m && m[p].File? && m[p].blob.Some? ==> Opens(blobs, key, m[p].blob.value, m[p].hash)
  }

  predicate IntactView(blobs: Ciphertexts, key: Key, m: Option<Manifest>) {
    m.Some? ==> Intact(blobs, key, m.value)
  }

  /** The blobs a commit lists: every reference its manifest carries. */
  function ListedBlobs(m: Manifest): set<Ref> {
    set p | p in m && m[p].File? && m[p].blob.Some? :: m[p].blob.value
  }

  /** Ciphertext is only ever added. */
  predicate Extends(older: Ciphertexts, newer: Ciphertexts) {
    forall r :: r in older ==> r in newer && newer[r] == older[r]
  }

  class BlobStore {
    var blobs: Ciphertexts
    var next: Ref

    ghost predicate Valid()
      reads this
    {
      forall r :: r in blobs ==> r < next
    }

    constructor ()
      ensures Valid() && blobs == map[]
    {
      blobs := map[];
      next := 0;
    }

    method Put(s: Sealed) returns (ref: Ref)
      requires Valid()
      modifies this
      ensures Valid() && ref !in old(blobs) && blobs == old(blobs)[ref := s]
    {
      ref := next;
      blobs := blobs[ref := s];
      next := next + 1;
    }
  }
}
