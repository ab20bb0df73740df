/** The three-way decision table of a sync run: entries, manifests and `classify`. */
module SyncPlan {
  import opened Prelude

  type Text = string
  type Surface = string

  /** The effective per-file policy a scan records on an entry. */
  datatype Policy = Sync | OptIn

  /** A store path together with the surface and policy every entry at that path carries. */
  datatype StorePath = StorePath(surface: Surface, policy: Policy, name: string)

  /** A collision-free content hash: equal hashes come from equal texts. */
  datatype Hash = HashOf(text: Text)

  type Ref = nat

  datatype Entry = File(hash: Hash, blob: Option<Ref>) | Tombstone

  type Manifest = map<StorePath, Entry>

  /** What a scan reports: every local file with the hash of its projection. */
  type LocalManifest = map<StorePath, Hash>

  datatype Resolution = Unchanged | Upload | Download | Merge | DeleteLocal | DeleteRemote

  datatype PlanFile = PlanFile(path: StorePath, resolution: Resolution,
                               base: Option<Entry>, local: Option<Hash>, remote: Option<Entry>)

  function EntryAt(m: Option<Manifest>, p: StorePath): Option<Entry> {
    if m.None? then None else Get(m.value, p)
  }

  function Keys(m: Option<Manifest>): set<StorePath> {
    if m.None? then {} else m.value.Keys
  }

  predicate IsFile(e: Option<Entry>) {
    e.Some? && e.value.File?
  }

  /** The file content an entry stands for; a tombstone and a missing entry both mean "no file". */
  function FileHash(e: Option<Entry>): Option<Hash> {
    if IsFile(e) then Some(e.value.hash) else None
  }

  /** Two optional entries agree in kind and hash; two absent entries agree. */
  predicate SameContent(a: Option<Entry>, b: Option<Entry>) {
    if a.None? || b.None? then a.None? && b.None?
    else a.value.File? == b.value.File? && (a.value.File? ==> a.value.hash == b.value.hash)
  }

  function Classify(base: Option<Entry>, local: Option<Hash>, remote: Option<Entry>): Resolution {
    if remote.Some? && remote.value.Tombstone? then
      if local.None? then Unchanged
      else if IsFile(base) && local.value != base.value.hash then Upload
      else DeleteLocal
    else if IsFile(remote) then
      if local.None? then
        if !IsFile(base) || base.value.hash != remote.value.hash then Download else DeleteRemote
      else if !IsFile(base) then
        if local.value == remote.value.hash then Unchanged else Merge
      else if remote.value.hash == base.value.hash then
        if local.value == base.value.hash then Unchanged else Upload
      else
        if local.value == base.value.hash then Download else Merge
    else if local.None? then Unchanged
    else if !IsFile(base) then Upload
    else if local.value == base.value.hash then DeleteLocal
    else Upload
  }

  /** One side of a path changed relative to base when its file content differs from base's. */
  predicate Changed(base: Option<Entry>, side: Option<Hash>) {
    side != FileHash(base)
  }

  /**
    * The table read as a three-way merge of file contents: a side that alone moved wins, a double
    * move is merged (even when both sides moved to the same content), and a move against a
    * deletion keeps the local edit. Deletion has one extra cause: a tombstone over an empty base.
    */
  lemma ClassifyIsThreeWay(base: Option<Entry>, local: Option<Hash>, remote: Option<Entry>)
    ensures var r := FileHash(remote); var c := Classify(base, local, remote);
            && (c == Unchanged <==> local == r && (local.Some? && IsFile(base) ==> !Changed(base, r)))
            && (c == Download <==> r.Some? && Changed(base, r) && !(local.Some? && Changed(base, local)))
            && (c == Merge <==> local.Some? && r.Some? && Changed(base, local) && Changed(base, r) &&
                                (IsFile(base) || local != r))
            && (c == Upload <==> local.Some? && Changed(base, local) && !(r.Some? && Changed(base, r)) &&
                                 !(remote.Some? && r.None? && FileHash(base).None?))
            && (c == DeleteRemote <==> local.None? && r.Some? && !Changed(base, r))
            && (c == DeleteLocal <==> local.Some? && r.None? &&
                                      (!Changed(base, local) || (remote.Some? && FileHash(base).None?)))
  {
  }

  /**
    * A local file the base never recorded is deleted by the plan exactly when the head holds a
    * tombstone there and the base holds no file: the content was never uploaded anywhere.
    */
  lemma UnseenLocalFileDeletedExactlyWhen(base: Option<Entry>, local: Hash, remote: Option<Entry>)
    ensures Classify(base, Some(local), remote) == DeleteLocal && FileHash(base) != Some(local)
            <==> remote == Some(Tombstone) && !IsFile(base)
  {
  }
}
