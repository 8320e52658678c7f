/** The content-addressed layer store (store.rs): sealing into it, adopting files, and collecting
    the layers no root reaches. */
module Store {
  import opened Bytes
  import opened Blocks
  import opened Layers
  import opened Sealed
  import opened SealedLaws

  /** The stored layer files, by the content id that is their file name. */
  type Files = map<Digest, seq<Byte>>

  predicate Readable(files: Files, id: Digest)
    requires id in files
  {
    OpenSpec(files[id]).Success?
  }

  /** The parent edges recorded in a stored layer. */
  function Parents(files: Files, id: Digest): (r: seq<Digest>)
    requires id in files
  {
    if Readable(files, id) then OpenSpec(files[id]).value.parents else []
  }

  /** `p` walks stored layers along parent edges. */
  predicate Path(files: Files, p: seq<Digest>) {
    && (forall i :: 0 <= i < |p| ==> p[i] in files)
    && (forall i :: 0 <= i < |p| - 1 ==> p[i + 1] in Parents(files, p[i]))
  }

  predicate Walk(files: Files, roots: seq<Digest>, id: Digest, p: seq<Digest>) {
    p != [] && p[0] in roots && p[|p| - 1] == id && Path(files, p)
  }

  /** A stored layer that some root reaches through stored parents. */
  ghost predicate Reached(files: Files, roots: seq<Digest>, id: Digest) {
    exists p: seq<Digest> :: Walk(files, roots, id, p)
  }

  /** The layers a collection keeps. */
  ghost function Kept(files: Files, roots: seq<Digest>): set<Digest> {
    set id | id in files && Reached(files, roots, id)
  }

  lemma RootReached(files: Files, roots: seq<Digest>, id: Digest)
    requires id in roots && id in files
    ensures Reached(files, roots, id)
  {
    assert Walk(files, roots, id, [id]);
  }

  lemma ParentReached(files: Files, roots: seq<Digest>, id: Digest, parent: Digest)
    requires id in files && Reached(files, roots, id) && parent in Parents(files, id) && parent in files
    ensures Reached(files, roots, parent)
  {
    hide Parents;
    var p: seq<Digest> :| Walk(files, roots, id, p);
    assert Walk(files, roots, parent, p + [parent]);
  }

  /** `s` holds every stored root and every stored parent of its members. */
  ghost predicate Closed(files: Files, roots: seq<Digest>, s: set<Digest>) {
    && (forall r :: r in roots && r in files ==> r in s)
    && (forall x, y :: x in s && x in files && y in Parents(files, x) && y in files ==> y in s)
  }

  lemma {:induction false} WalkInside(files: Files, roots: seq<Digest>, s: set<Digest>, p: seq<Digest>, i: nat)
    requires Closed(files, roots, s) && Path(files, p) && i < |p| && p[0] in roots
    ensures p[i] in s
  {
    hide Parents;
    if i > 0 { WalkInside(files, roots, s, p, i - 1); }
  }

  lemma ReachedInside(files: Files, roots: seq<Digest>, s: set<Digest>, id: Digest)
    requires Closed(files, roots, s) && Reached(files, roots, id)
    ensures id in s
  {
    hide Closed, Path;
    var p: seq<Digest> :| Walk(files, roots, id, p);
    WalkInside(files, roots, s, p, |p| - 1);
  }

  class LayerStore {
    var files: Files

    /** Open the store directory with whatever it holds. */
    constructor (files: Files)
      ensures this.files == files
    {
      this.files := files;
    }

    /** Seal a scratch into the store under its content id. A layer already there is kept. */
    method SealInto(scratch: ScratchLayer, sha: seq<Byte> -> Digest, parents: seq<Digest>, dest: Media) returns (r: Result<Digest>)
      requires scratch.Loose()
      modifies this
      ensures r == Failure(TooManyParents) <==> |parents| >= U16
      ensures scratch.media != MayFail && dest == Reliable && scratch.Whole() && |parents| < U16 ==> r.Success?
      ensures r.Failure? ==> files == old(files)
      ensures r.Success? ==> r.value == ContentId(sha, scratch.geometry, parents, scratch.Readout())
      ensures r.Success? ==> files == Stored(old(files), r.value, SealFile(sha, scratch.geometry, parents, scratch.Readout()))
    {
      hide SealFile, ContentId;
      var sealed := Seal(scratch, sha, parents, dest);
      if sealed.Failure? { return sealed.PropagateFailure(); }
      var id := sealed.value.contentId;
      if id !in files { files := files[id := sealed.value.file]; }
      r := Success(id);
    }

    /** Move an already sealed file into the store. A file that does not open is refused. */
    method AdoptSealed(file: seq<Byte>) returns (r: Result<Digest>)
      modifies this
      ensures r.Failure? <==> OpenSpec(file).Failure?
      ensures r.Failure? ==> files == old(files)
      ensures r.Success? ==> r.value == OpenSpec(file).value.contentId && files == Stored(old(files), r.value, file)
    {
      hide OpenSpec;
      var layer := OpenSealed(file);
      if layer.Failure? { return layer.PropagateFailure(); }
      var id := layer.value.contentId;
      if id !in files { files := files[id := file]; }
      r := Success(id);
    }

    // Mark with an explicit stack. Terminates on any parent graph, cyclic ones included.
    method Mark(roots: seq<Digest>) returns (ok: bool, reachable: set<Digest>)
      ensures ok <==> forall id :: id in Kept(files, roots) ==> Readable(files, id)
      ensures ok ==> reachable == Kept(files, roots)
    {
      hide OpenSpec, Reached, Readable, Parents;
      ok, reachable := true, {};
      var stack := roots;
      RootsReached(files, roots);
      while stack != []
        invariant reachable <= files.Keys
        invariant forall x :: x in reachable ==> Reached(files, roots, x) && Readable(files, x)
        invariant forall x :: x in stack && x in files ==> Reached(files, roots, x)
        invariant Pending(files, roots, reachable, stack)
        decreases files.Keys - reachable, |stack|
      {
        var id := stack[|stack| - 1];
        ghost var before := stack;
        stack := stack[..|stack| - 1];
        assert before == stack + [id];
        if id in files && id !in reachable {
          var layer := OpenSealed(files[id]);
          if layer.Failure? {
            NotReadable(files, id);
            assert id in Kept(files, roots);
            return false, reachable;
          }
          ParentsReached(files, roots, id);
          PendingPush(files, roots, reachable, stack, id);
          ParentsRead(files, id);
          reachable := reachable + {id};
          stack := stack + layer.value.parents;
        }
      }
      AllMarked(files, roots, reachable);
    }

    /** Collect: remove every stored layer no root reaches. A reachable layer that does not open
        stops the collection before anything is removed. */
    method Gc(roots: seq<Digest>) returns (ok: bool, removed: set<Digest>)
      modifies this
      ensures ok <==> forall id :: id in Kept(old(files), roots) ==> Readable(old(files), id)
      ensures files == if ok then Collected(old(files), roots) else old(files)
      ensures removed == if ok then old(files).Keys - Kept(old(files), roots) else {}
    {
      hide OpenSpec, Reached, Readable, Parents, Kept;
      var reachable;
      ok, reachable := Mark(roots);
      removed := {};
      if !ok { return; }
      ghost var before := files;
      var list := files.Keys;
      while list != {}
        invariant list <= files.Keys
        invariant removed == before.Keys - list - reachable
        invariant files == before - removed
        decreases list
      {
        var id :| id in list;
        list := list - {id};
        if id !in reachable {
          files := files - {id};
          removed := removed + {id};
        }
      }
    }
  }

  // ---- the mark loop's invariant --------------------------------------------------------------------

  // Every stored root, and every stored parent of a marked layer, is marked or still on the stack.
  ghost predicate Pending(files: Files, roots: seq<Digest>, marked: set<Digest>, stack: seq<Digest>) {
    && (forall r :: r in roots && r in files ==> r in marked || r in stack)
    && (forall x, y :: x in marked && x in files && y in Parents(files, x) && y in files ==> y in marked || y in stack)
  }

  lemma NotReadable(files: Files, id: Digest)
    requires id in files && OpenSpec(files[id]).Failure?
    ensures !Readable(files, id)
  {
  }

  lemma ParentsRead(files: Files, id: Digest)
    requires id in files && OpenSpec(files[id]).Success?
    ensures Readable(files, id) && Parents(files, id) == OpenSpec(files[id]).value.parents
  {
  }

  lemma RootsReached(files: Files, roots: seq<Digest>)
    ensures forall id :: id in roots && id in files ==> Reached(files, roots, id)
  {
    hide Reached;
    forall id | id in roots && id in files
      ensures Reached(files, roots, id)
    {
      RootReached(files, roots, id);
    }
  }

  lemma ParentsReached(files: Files, roots: seq<Digest>, id: Digest)
    requires id in files && Reached(files, roots, id)
    ensures forall y :: y in Parents(files, id) && y in files ==> Reached(files, roots, y)
  {
    hide Reached, Parents;
    forall y | y in Parents(files, id) && y in files
      ensures Reached(files, roots, y)
    {
      ParentReached(files, roots, id, y);
    }
  }

  lemma PendingPush(files: Files, roots: seq<Digest>, marked: set<Digest>, stack: seq<Digest>, id: Digest)
    requires id in files && Pending(files, roots, marked, stack + [id])
    ensures Pending(files, roots, marked + {id}, stack + Parents(files, id))
  {
    hide Parents;
    assert forall y :: y in stack + [id] <==> y in stack || y == id;
    assert forall y :: y in stack + Parents(files, id) <==> y in stack || y in Parents(files, id);
  }

  lemma AllMarked(files: Files, roots: seq<Digest>, marked: set<Digest>)
    requires Pending(files, roots, marked, []) && marked <= files.Keys
    requires forall x :: x in marked ==> Reached(files, roots, x)
    ensures marked == Kept(files, roots)
  {
    hide Parents, Reached;
    assert Closed(files, roots, marked);
    forall id | id in Kept(files, roots)
      ensures id in marked
    {
      ReachedInside(files, roots, marked, id);
    }
  }

  // ---- what a collection promises --------------------------------------------------------------------

  /** The store after filing `file` under `id`. */
  function Stored(files: Files, id: Digest, file: seq<Byte>): Files {
    if id in files then files else files[id := file]
  }

  /** The store after a collection. */
  ghost function Collected(files: Files, roots: seq<Digest>): Files {
    files - (files.Keys - Kept(files, roots))
  }

  /** A kept layer keeps its stored parents, and its own bytes. */
  lemma KeptKeepsParents(files: Files, roots: seq<Digest>, id: Digest)
    requires id in Collected(files, roots)
    ensures Collected(files, roots)[id] == files[id]
    ensures forall p :: p in Parents(files, id) && p in files ==> p in Collected(files, roots)
  {
    hide Parents, Reached;
    ParentsReached(files, roots, id);
  }

  /** A second collection from the same roots removes nothing. */
  lemma GcIdempotent(files: Files, roots: seq<Digest>)
    ensures Kept(Collected(files, roots), roots) == Collected(files, roots).Keys
    ensures Collected(Collected(files, roots), roots) == Collected(files, roots)
  {
    hide Parents, Reached;
    var left := Collected(files, roots);
    forall id | id in left
      ensures Reached(left, roots, id)
    {
      StillReached(files, roots, id);
    }
  }

  lemma StillReached(files: Files, roots: seq<Digest>, id: Digest)
    requires id in Kept(files, roots)
    ensures Reached(Collected(files, roots), roots, id)
  {
    hide Parents;
    var p: seq<Digest> :| Walk(files, roots, id, p);
    var left := Collected(files, roots);
    forall i | 0 <= i < |p|
      ensures p[i] in left && Parents(left, p[i]) == Parents(files, p[i])
    {
      assert p[..i + 1][i] == p[i];
      assert Walk(files, roots, p[i], p[..i + 1]);
      SameParents(files, left, p[i]);
    }
    assert Walk(left, roots, id, p);
  }

  lemma SameParents(files: Files, left: Files, id: Digest)
    requires id in files && id in left && left[id] == files[id]
    ensures Parents(left, id) == Parents(files, id)
  {
  }

  // ---- content addressing ------------------------------------------------------------------------------

  ghost predicate SealedAs(sha: seq<Byte> -> Digest, hashed: set<seq<Byte>>, id: Digest, file: seq<Byte>,
                           g: Geometry, parents: seq<Digest>, m: BlockMap)
  {
    && Sealable(sha, g, parents, m) && Hashed(sha, g, parents, m) <= hashed
    && id == ContentId(sha, g, parents, m) && file == SealFile(sha, g, parents, m)
  }

  /** Every stored file is a sealed layer filed under its own content id; `hashed` holds every
      input hashed to name them. */
  ghost predicate Addressed(sha: seq<Byte> -> Digest, hashed: set<seq<Byte>>, files: Files) {
    forall id :: id in files ==>
      exists g: Geometry, parents: seq<Digest>, m: BlockMap :: SealedAs(sha, hashed, id, files[id], g, parents, m)
  }

  /** Filing a sealed layer keeps the store content-addressed, and what is found under its id
      afterwards is that very file, whether it was new or deduplicated. */
  lemma FiledUnderItsId(sha: seq<Byte> -> Digest, hashed: set<seq<Byte>>, files: Files,
                        g: Geometry, parents: seq<Digest>, m: BlockMap)
    requires CollisionFree(sha, hashed) && Addressed(sha, hashed, files)
    requires Sealable(sha, g, parents, m) && Hashed(sha, g, parents, m) <= hashed
    ensures var id, file := ContentId(sha, g, parents, m), SealFile(sha, g, parents, m);
            Stored(files, id, file)[id] == file && Addressed(sha, hashed, Stored(files, id, file))
  {
    hide SealFile, ContentId, Sealable, Hashed;
    var id, file := ContentId(sha, g, parents, m), SealFile(sha, g, parents, m);
    if id in files {
      var g': Geometry, parents': seq<Digest>, m': BlockMap :| SealedAs(sha, hashed, id, files[id], g', parents', m');
      SameIdSameLayer(sha, g, parents, m, g', parents', m');
    } else {
      assert SealedAs(sha, hashed, id, file, g, parents, m);
    }
  }
}
