/** Several heads folded into one remote view, each path merged with its surface's strategy. */
module Fold {
  import opened Prelude
  import opened SyncPlan
  import opened SyncRun
  import opened SyncLaws
  import opened Blobs

  /** What a fold decides for one path of a later head. */
  datatype Verdict = Keep | Replace(text: Text) | Stuck

  predicate HasBlob(e: Option<Entry>) {
    IsFile(e) && e.value.blob.Some?
  }

  /** The merge base of a fold; without a base file it is the empty text. */
  function BaseText(base: Option<Entry>): Text {
    if HasBlob(base) then base.value.hash.text else ""
  }

  function VerdictAt(merge: MergeFn, base: Option<Manifest>, p: StorePath,
                     previous: Option<Entry>, next: Option<Entry>): Verdict
  {
    if next.None? || previous.None? || SameContent(previous, next) then Keep
    else if !HasBlob(previous) || !HasBlob(next) then Stuck
    else
      match merge(p, BaseText(EntryAt(base, p)), previous.value.hash.text, next.value.hash.text)
      case Same => Keep
      case Conflicted => Stuck
      case Clean(content) => Replace(content)
  }

  // ----- The fold by content -----

  /** An entry up to the choice of ciphertext. */
  datatype Shape = Gone | Held(hash: Hash, blobbed: bool)

  function ShapeOf(e: Entry): Shape {
    if e.File? then Held(e.hash, e.blob.Some?) else Gone
  }

  function ShapeAt(m: Manifest, p: StorePath): Option<Shape> {
    if p in m then Some(ShapeOf(m[p])) else None
  }

  /** An entry of that shape; the reference is immaterial. */
  function Example(s: Option<Shape>): Option<Entry> {
    match s
    case None => None
    case Some(Gone) => Some(Tombstone)
    case Some(Held(h, blobbed)) => Some(File(h, if blobbed then Some(0) else None))
  }

  /** The shape at a path once the first `n` heads are folded, or None when some head got stuck there. */
  function FoldedShape(merge: MergeFn, base: Option<Manifest>, heads: seq<Manifest>,
                       n: nat, p: StorePath): Option<Option<Shape>>
    requires 0 < n <= |heads|
  {
    if n == 1 then Some(ShapeAt(heads[0], p))
    else
      var before := FoldedShape(merge, base, heads, n - 1, p);
      if before.None? then None
      else
        match VerdictAt(merge, base, p, Example(before.value), Get(heads[n - 1], p))
        case Keep => before
        case Replace(text) => Some(Some(Held(HashOf(text), true)))
        case Stuck => None
  }

  /** The path set of a fold is the first head's: what only later heads carry is dropped. */
  lemma {:induction false} FoldKeepsTheFirstHeadsPaths(merge: MergeFn, base: Option<Manifest>, heads: seq<Manifest>,
                                                       n: nat, p: StorePath)
    requires 0 < n <= |heads| && FoldedShape(merge, base, heads, n, p).Some?
    ensures FoldedShape(merge, base, heads, n, p).value.Some? <==> p in heads[0]
  {
    if n > 1 { FoldKeepsTheFirstHeadsPaths(merge, base, heads, n - 1, p); }
  }

  /** Where every head that has the path agrees with the first, the fold leaves it as the first has it. */
  lemma {:induction false} FoldKeepsAgreement(merge: MergeFn, base: Option<Manifest>, heads: seq<Manifest>,
                                              n: nat, p: StorePath)
    requires 0 < n <= |heads|
    requires forall i | 0 < i < n :: p in heads[i] && p in heads[0] ==> SameContent(Get(heads[0], p), Get(heads[i], p))
    ensures FoldedShape(merge, base, heads, n, p) == Some(ShapeAt(heads[0], p))
  {
    if n > 1 {
      FoldKeepsAgreement(merge, base, heads, n - 1, p);
      if p in heads[0] && p in heads[n - 1] { assert SameContent(Get(heads[0], p), Get(heads[n - 1], p)); }
    }
  }

  lemma {:induction false} StaysStuck(merge: MergeFn, base: Option<Manifest>, heads: seq<Manifest>, n: nat, m: nat,
                                      p: StorePath)
    requires 0 < n <= m <= |heads| && FoldedShape(merge, base, heads, n, p).None?
    ensures FoldedShape(merge, base, heads, m, p).None?
  {
    if n < m { StaysStuck(merge, base, heads, n, m - 1, p); }
  }

  /** As long as a fold succeeds, a path stays what it is in the first head, a file or a tombstone. */
  lemma {:induction false} FoldKeepsTheKind(merge: MergeFn, base: Option<Manifest>, heads: seq<Manifest>, n: nat,
                                            p: StorePath)
    requires 0 < n <= |heads| && p in heads[0] && FoldedShape(merge, base, heads, n, p).Some?
    ensures var shape := FoldedShape(merge, base, heads, n, p).value;
            shape.Some? && (shape.value.Held? <==> heads[0][p].File?)
  {
    if n > 1 { FoldKeepsTheKind(merge, base, heads, n - 1, p); }
  }

  /** A deletion against a surviving file is never decided, whichever of the heads meet there. */
  lemma DeletionAgainstFileIsStuck(merge: MergeFn, base: Option<Manifest>, heads: seq<Manifest>, i: nat, p: StorePath)
    requires 0 < i < |heads| && p in heads[0] && p in heads[i] && heads[0][p].File? != heads[i][p].File?
    ensures FoldedShape(merge, base, heads, |heads|, p) == None
  {
    if FoldedShape(merge, base, heads, i, p).Some? { FoldKeepsTheKind(merge, base, heads, i, p); }
    StaysStuck(merge, base, heads, i + 1, |heads|, p);
  }

  /**
    * One more head over a path folded to `text` so far: another text there is merged in over the
    * base's text, or over nothing where the base has no file; the same text changes nothing, and
    * neither a tombstone nor a file without ciphertext can be decided.
    */
  lemma NextHeadIsMergedIn(merge: MergeFn, base: Option<Manifest>, heads: seq<Manifest>, n: nat, p: StorePath,
                           text: Text)
    requires 0 < n < |heads| && FoldedShape(merge, base, heads, n, p) == Some(Some(Held(HashOf(text), true)))
    ensures var before, after := FoldedShape(merge, base, heads, n, p), FoldedShape(merge, base, heads, n + 1, p);
            var baseEntry: Option<Entry> := EntryAt(base, p);
            var baseText := match baseEntry
                            case Some(File(h, Some(_))) => h.text
                            case _ => "";
            var entry: Option<Entry> := Get(heads[n], p);
            match entry
            case None => after == before
            case Some(Tombstone) => after == None
            case Some(File(h, blob)) =>
              if h.text == text then after == before
              else if blob.None? then after == None
              else match merge(p, baseText, text, h.text)
                   case Same => after == before
                   case Conflicted => after == None
                   case Clean(content) => after == Some(Some(Held(HashOf(content), true)))
  {
  }

  // ----- The code -----

  function PathsUnion(heads: seq<Manifest>): set<StorePath> {
    set i, p | 0 <= i < |heads| && p in heads[i] :: p
  }

  class Folder {
    const store: BlobStore
    const key: Key
    const merge: MergeFn
    const base: Option<Manifest>
    /** Ciphertexts sealed by this fold, by content. */
    var uploads: map<Hash, Ref>

    ghost predicate Valid()
      reads this, store
    {
      && store.Valid() && IntactView(store.blobs, key, base)
      && forall h :: h in uploads ==> Opens(store.blobs, key, uploads[h], h)
    }

    constructor (store: BlobStore, key: Key, merge: MergeFn, base: Option<Manifest>)
      requires store.Valid() && IntactView(store.blobs, key, base)
      ensures Valid() && this.store == store && this.key == key && this.merge == merge && this.base == base
    {
      this.store, this.key, this.merge, this.base, this.uploads := store, key, merge, base, map[];
    }

    /** Seals merged content unless this fold already did. */
    method RefFor(text: Text) returns (ref: Ref)
      requires Valid()
      modifies this, store
      ensures Valid() && Extends(old(store.blobs), store.blobs) && Opens(store.blobs, key, ref, HashOf(text))
    {
      if HashOf(text) in uploads { return uploads[HashOf(text)]; }
      ref := store.Put(Sealed(key, text));
      uploads := uploads[HashOf(text) := ref];
    }

    /** The two texts of a path both sides hold, opened and merged. */
    method MergeTexts(p: StorePath, previous: Entry, next: Entry) returns (r: MergeResult)
      requires Valid() && previous.File? && previous.blob.Some? && next.File? && next.blob.Some?
      requires Opens(store.blobs, key, previous.blob.value, previous.hash)
      requires Opens(store.blobs, key, next.blob.value, next.hash)
      ensures r == merge(p, BaseText(EntryAt(base, p)), previous.hash.text, next.hash.text)
      ensures var e := EntryAt(base, p);
              IsFile(e) && e.value.blob.Some? ==> r == merge(p, e.value.hash.text, previous.hash.text, next.hash.text)
    {
      var baseEntry := EntryAt(base, p);
      var baseText := "";
      if IsFile(baseEntry) && baseEntry.value.blob.Some? {
        baseText := Open(key, store.blobs[baseEntry.value.blob.value]).value;
      }
      var previousText := Open(key, store.blobs[previous.blob.value]).value;
      var nextText := Open(key, store.blobs[next.blob.value]).value;
      r := merge(p, baseText, previousText, nextText);
    }

    /** What folding one path must leave. */
    ghost predicate PlacedAt(folded: Manifest, next: Manifest, out: Manifest, stuck: set<StorePath>, p: StorePath)
      reads this, store
    {
      match VerdictAt(merge, base, p, Get(folded, p), Get(next, p))
      case Keep => Get(out, p) == Get(folded, p) && p !in stuck
      case Stuck => Get(out, p) == Get(folded, p) && p in stuck
      case Replace(text) =>
        && p in out && out[p].File? && out[p].hash == HashOf(text) && out[p].blob.Some?
        && Opens(store.blobs, key, out[p].blob.value, HashOf(text)) && p !in stuck
    }

    method FoldOne(folded: Manifest, next: Manifest, out: Manifest, stuck: set<StorePath>, p: StorePath)
      returns (out': Manifest, stuck': set<StorePath>)
      requires Valid() && Intact(store.blobs, key, folded) && Intact(store.blobs, key, next)
      requires p in next && Get(out, p) == Get(folded, p) && p !in stuck
      modifies this, store
      ensures Valid() && Extends(old(store.blobs), store.blobs)
      ensures PlacedAt(folded, next, out', stuck', p)
      ensures forall q :: q != p ==> Get(out', q) == Get(out, q) && (q in stuck' <==> q in stuck)
    {
      out', stuck' := out, stuck;
      if p !in folded || SameContent(Some(folded[p]), Some(next[p])) { return; }
      if !folded[p].File? || !next[p].File? || folded[p].blob.None? || next[p].blob.None? {
        stuck' := stuck + {p};
        return;
      }
      var r := MergeTexts(p, folded[p], next[p]);
      match r
      case Same =>
      case Conflicted => stuck' := stuck + {p};
      case Clean(content) =>
        var ref := RefFor(content);
        out' := out[p := File(HashOf(content), Some(ref))];
    }

    /** Folds one more head in; the paths it gets stuck on are reported together. */
    method FoldHead(folded: Manifest, next: Manifest) returns (out: Manifest, stuck: set<StorePath>)
      requires Valid() && Intact(store.blobs, key, folded) && Intact(store.blobs, key, next)
      modifies this, store
      ensures Valid() && Extends(old(store.blobs), store.blobs)
      ensures forall p :: PlacedAt(folded, next, out, stuck, p)
    {
      out, stuck := folded, {};
      var paths := next.Keys;
      while paths != {}
        invariant paths <= next.Keys && Valid() && Extends(old(store.blobs), store.blobs)
        invariant forall p :: if p in paths then Get(out, p) == Get(folded, p) && p !in stuck
                              else PlacedAt(folded, next, out, stuck, p)
      {
        var p :| p in paths;
        ghost var before, blobs := out, store.blobs;
        ghost var stuckBefore := stuck;
        assert Intact(store.blobs, key, folded) && Intact(store.blobs, key, next);
        out, stuck := FoldOne(folded, next, out, stuck, p);
        paths := paths - {p};
      }
    }

    /** One head's verdict at a path, in terms of shapes. */
    lemma PlacedShape(folded: Manifest, next: Manifest, out: Manifest, stuck: set<StorePath>, p: StorePath)
      requires PlacedAt(folded, next, out, stuck, p)
      ensures var v := VerdictAt(merge, base, p, Example(ShapeAt(folded, p)), Get(next, p));
              && (p in stuck <==> v.Stuck?)
              && (v.Keep? ==> ShapeAt(out, p) == ShapeAt(folded, p))
              && (v.Replace? ==> ShapeAt(out, p) == Some(Held(HashOf(v.text), true)))
    {
    }

    lemma FoldedIsIntact(folded: Manifest, next: Manifest, out: Manifest)
      requires Intact(store.blobs, key, folded) && forall p :: PlacedAt(folded, next, out, {}, p)
      ensures Intact(store.blobs, key, out)
    {
      forall p | p in out && out[p].File? && out[p].blob.Some?
        ensures Opens(store.blobs, key, out[p].blob.value, out[p].hash)
      {
        assert PlacedAt(folded, next, out, {}, p);
      }
    }

    /** The first `n` heads are folded into `m`, without getting stuck anywhere. */
    ghost predicate FoldedTo(heads: seq<Manifest>, n: nat, m: Manifest)
      requires 0 < n <= |heads|
      reads this, store
    {
      && Valid() && Intact(store.blobs, key, m)
      && (forall i | 0 <= i < |heads| :: Intact(store.blobs, key, heads[i]))
      && forall p :: FoldedShape(merge, base, heads, n, p) == Some(ShapeAt(m, p))
    }

    /**
      * The remote view. A single head is itself; several are folded in order, and the fold succeeds
      * exactly when no path gets stuck. The result opens under the key whenever all heads do.
      */
    method ResolveRemoteView(heads: seq<Manifest>) returns (r: Result<Option<Manifest>, set<StorePath>>)
      requires Valid() && forall i | 0 <= i < |heads| :: Intact(store.blobs, key, heads[i])
      modifies this, store
      ensures Valid() && Extends(old(store.blobs), store.blobs)
      ensures heads == [] <==> r == Ok(None)
      ensures r.Ok? && heads != [] ==> FoldedTo(heads, |heads|, r.value.value)
      ensures r.Err? ==> r.error != {} && |heads| > 1 && forall p :: p in r.error ==> GetsStuck(heads, p)
    {
      if heads == [] { return Ok(None); }
      var folded := heads[0];
      for n := 1 to |heads|
        invariant FoldedTo(heads, n, folded) && Extends(old(store.blobs), store.blobs)
      {
        var next := heads[n];
        var out, stuck := FoldHead(folded, next);
        AllShapes(heads, n, folded, next, out, stuck);
        if stuck != {} { return Err(stuck); }
        folded := out;
      }
      r := Ok(Some(folded));
    }

    ghost predicate GetsStuck(heads: seq<Manifest>, p: StorePath)
      reads this, store
    {
      heads != [] && FoldedShape(merge, base, heads, |heads|, p).None?
    }

    lemma AllShapes(heads: seq<Manifest>, n: nat, folded: Manifest, next: Manifest, out: Manifest,
                    stuck: set<StorePath>)
      requires 0 < n < |heads| && heads[n] == next && Valid() && Intact(store.blobs, key, folded)
      requires forall i | 0 <= i < |heads| :: Intact(store.blobs, key, heads[i])
      requires forall p :: FoldedShape(merge, base, heads, n, p) == Some(ShapeAt(folded, p))
      requires forall p :: PlacedAt(folded, next, out, stuck, p)
      ensures forall p :: p in stuck ==> GetsStuck(heads, p)
      ensures stuck == {} ==> FoldedTo(heads, n + 1, out)
    {
      forall p
        ensures p in stuck ==> GetsStuck(heads, p)
        ensures p !in stuck ==> FoldedShape(merge, base, heads, n + 1, p) == Some(ShapeAt(out, p))
      {
        PlacedShape(folded, next, out, stuck, p);
        if p in stuck { StaysStuck(merge, base, heads, n + 1, |heads|, p); }
      }
      if stuck == {} { FoldedIsIntact(folded, next, out); }
    }
  }

  /**
    * A fold holds the union of its heads' paths exactly when the first head already has them all:
    * paths that only later heads carry are lost from the view.
    */
  lemma FoldIsTheUnionExactlyWhen(merge: MergeFn, base: Option<Manifest>, heads: seq<Manifest>, m: Manifest)
    requires heads != [] && forall p :: FoldedShape(merge, base, heads, |heads|, p) == Some(ShapeAt(m, p))
    ensures m.Keys == PathsUnion(heads) <==> forall i | 0 <= i < |heads| :: heads[i].Keys <= heads[0].Keys
  {
    forall p ensures p in m <==> p in heads[0] {
      FoldKeepsTheFirstHeadsPaths(merge, base, heads, |heads|, p);
      assert FoldedShape(merge, base, heads, |heads|, p) == Some(ShapeAt(m, p));
    }
    forall i, p | 0 <= i < |heads| && p in heads[i] ensures p in PathsUnion(heads) {}
  }
}
