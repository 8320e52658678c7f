/** Parent chains in the image stores (image.rs).

    A stored layer stands at the end of one chain of records. Under a hash without collisions on
    what was hashed, that chain is unique and the walk over the stores finds exactly it.
 */
module Chains {
  import opened Bytes
  import opened Blocks
  import opened Layers
  import opened Stack
  import opened Sealed
  import opened SealedLaws
  import opened Store
  import opened Images

  // ---- chains --------------------------------------------------------------------------------------

  /** What a sealed layer means. */
  datatype Record = Record(g: Geometry, parents: seq<Digest>, m: BlockMap) {
    function Id(sha: seq<Byte> -> Digest): Digest { ContentId(sha, g, parents, m) }

    function File(sha: seq<Byte> -> Digest): seq<Byte> { SealFile(sha, g, parents, m) }

    function Layer(sha: seq<Byte> -> Digest): ImmutableLayer { SealedLayer(sha, g, parents, m) }

    predicate Ok(sha: seq<Byte> -> Digest, hashed: set<seq<Byte>>) {
      Sealable(sha, g, parents, m) && g.blockSize == DEFAULT_BLOCK_SIZE && Hashed(sha, g, parents, m) <= hashed
    }
  }

  /** Records bottom-first, each sealed over the one below, all of one geometry. */
  ghost predicate Linked(sha: seq<Byte> -> Digest, hashed: set<seq<Byte>>, c: seq<Record>) {
    forall i :: 0 <= i < |c| ==> LinkedAt(sha, hashed, c, i)
  }

  predicate LinkedAt(sha: seq<Byte> -> Digest, hashed: set<seq<Byte>>, c: seq<Record>, i: nat)
    requires i < |c|
  {
    && c[i].Ok(sha, hashed) && c[i].g == c[0].g
    && c[i].parents == ParentIds(End(sha, c[..i]))
  }

  /** Where a chain ends: nowhere, or at the id of its top record. */
  function End(sha: seq<Byte> -> Digest, c: seq<Record>): Option<Digest> {
    if c == [] then None else Some(c[|c| - 1].Id(sha))
  }

  lemma LinkedInit(sha: seq<Byte> -> Digest, hashed: set<seq<Byte>>, c: seq<Record>)
    requires Linked(sha, hashed, c) && c != []
    ensures Linked(sha, hashed, c[..|c| - 1])
    ensures c[|c| - 1].parents == ParentIds(End(sha, c[..|c| - 1]))
    ensures c[|c| - 1].Ok(sha, hashed)
  {
    hide Record.Ok, Record.Id;
    var n := |c| - 1;
    assert LinkedAt(sha, hashed, c, n);
    forall i | 0 <= i < n
      ensures LinkedAt(sha, hashed, c[..n], i)
    {
      assert LinkedAt(sha, hashed, c, i);
      assert c[..n][..i] == c[..i];
    }
  }

  // One record more on top.
  lemma LinkedSnoc(sha: seq<Byte> -> Digest, hashed: set<seq<Byte>>, c: seq<Record>, r: Record)
    requires Linked(sha, hashed, c) && r.Ok(sha, hashed)
    requires r.parents == ParentIds(End(sha, c)) && (c != [] ==> r.g == c[0].g)
    ensures Linked(sha, hashed, c + [r])
  {
    hide Record.Ok, Record.Id;
    var c' := c + [r];
    forall i | 0 <= i < |c'|
      ensures LinkedAt(sha, hashed, c', i)
    {
      if i < |c| {
        assert LinkedAt(sha, hashed, c, i);
        assert c'[..i] == c[..i];
      } else {
        assert c'[..i] == c;
      }
    }
  }

  lemma SameIdSameRecord(sha: seq<Byte> -> Digest, hashed: set<seq<Byte>>, r: Record, r': Record)
    requires CollisionFree(sha, hashed) && r.Ok(sha, hashed) && r'.Ok(sha, hashed) && r.Id(sha) == r'.Id(sha)
    ensures r == r'
  {
    hide Hashed, ContentId, Sealable;
    SameIdSameLayer(sha, r.g, r.parents, r.m, r'.g, r'.parents, r'.m);
  }

  /** One end, one chain. */
  lemma {:induction false} ChainUnique(sha: seq<Byte> -> Digest, hashed: set<seq<Byte>>, c: seq<Record>, c': seq<Record>)
    requires CollisionFree(sha, hashed) && Linked(sha, hashed, c) && Linked(sha, hashed, c')
    requires End(sha, c) == End(sha, c')
    ensures c == c'
    decreases |c|
  {
    hide CollisionFree, Linked, Record.Ok, Record.Id;
    if c != [] {
      var init, init' := c[..|c| - 1], c'[..|c'| - 1];
      LinkedInit(sha, hashed, c);
      LinkedInit(sha, hashed, c');
      SameIdSameRecord(sha, hashed, c[|c| - 1], c'[|c'| - 1]);
      ChainUnique(sha, hashed, init, init');
      assert c == init + [c[|c| - 1]] && c' == init' + [c'[|c'| - 1]];
    }
  }

  function Maps(c: seq<Record>): (r: seq<BlockMap>)
    ensures |r| == |c| && forall i :: 0 <= i < |c| ==> r[i] == c[i].m
  {
    seq(|c|, i requires 0 <= i < |c| => c[i].m)
  }

  function LayersOf(sha: seq<Byte> -> Digest, c: seq<Record>): (r: seq<ImmutableLayer>)
    ensures |r| == |c| && forall i :: 0 <= i < |c| ==> r[i] == c[i].Layer(sha)
  {
    seq(|c|, i requires 0 <= i < |c| => c[i].Layer(sha))
  }

  lemma LayersOfMaps(sha: seq<Byte> -> Digest, hashed: set<seq<Byte>>, c: seq<Record>)
    requires Linked(sha, hashed, c)
    ensures LayerMaps(LayersOf(sha, c)) == Maps(c)
    ensures c != [] ==> SameGeometry(LayersOf(sha, c), c[0].g) && AllSized(Maps(c), c[0].g.blockSize) && c[0].g.Valid()
    ensures Intact(LayersOf(sha, c))
  {
    hide SealedLayer, IntactLayer, Hashed, MetaOf, ParentIds, End, Geometry.Valid, Geometry.BlockCount;
    forall i | 0 <= i < |c|
      ensures c[i].Layer(sha).Blocks() == c[i].m && Sized(c[i].m, c[0].g.blockSize)
      ensures c[i].Layer(sha).geometry == c[0].g && IntactLayer(c[i].Layer(sha))
    {
      assert LinkedAt(sha, hashed, c, i);
      SealedBlocks(sha, c[i].g, c[i].parents, c[i].m);
      LayerGeometry(sha, c[i]);
    }
    if c != [] { assert LinkedAt(sha, hashed, c, 0); }
  }

  lemma LayerGeometry(sha: seq<Byte> -> Digest, r: Record)
    ensures r.Layer(sha).geometry == r.g && FirstParent(r.Layer(sha)) == if r.parents == [] then None else Some(r.parents[0])
  {
  }

  // ---- the stores ------------------------------------------------------------------------------------

  /** A chain whose every layer some store holds. */
  ghost predicate Held(sha: seq<Byte> -> Digest, hashed: set<seq<Byte>>, images: Images, c: seq<Record>) {
    && Linked(sha, hashed, c)
    && forall i :: 0 <= i < |c| ==> Somewhere(images, c[i].Id(sha))
  }

  /** The file stored under `id` is the sealed file of the top record of a chain that is wholly stored. */
  ghost predicate FiledAs(sha: seq<Byte> -> Digest, hashed: set<seq<Byte>>, images: Images, name: string, id: Digest)
    requires name in images && id in images[name].files
  {
    exists c: seq<Record> :: c != [] && Held(sha, hashed, images, c) && End(sha, c) == Some(id)
                             && images[name].files[id] == c[|c| - 1].File(sha)
  }

  ghost predicate StoreOk(sha: seq<Byte> -> Digest, hashed: set<seq<Byte>>, images: Images) {
    forall name, id :: name in images && id in images[name].files ==> FiledAs(sha, hashed, images, name, id)
  }

  lemma HeldInit(sha: seq<Byte> -> Digest, hashed: set<seq<Byte>>, images: Images, c: seq<Record>)
    requires Held(sha, hashed, images, c) && c != []
    ensures Held(sha, hashed, images, c[..|c| - 1])
  {
    hide Record.Ok, Record.Id, Somewhere;
    LinkedInit(sha, hashed, c);
  }

  // What any store holds under the id at the end of a chain is the chain's top layer.
  lemma OpensTop(sha: seq<Byte> -> Digest, hashed: set<seq<Byte>>, images: Images, c: seq<Record>, name: string)
    requires CollisionFree(sha, hashed) && StoreOk(sha, hashed, images) && Linked(sha, hashed, c) && c != []
    requires name in images && End(sha, c).value in images[name].files
    ensures images[name].files[End(sha, c).value] == c[|c| - 1].File(sha)
    ensures OpenSpec(images[name].files[End(sha, c).value]) == Success(c[|c| - 1].Layer(sha))
  {
    hide CollisionFree, Linked, Record.Id, SealFile, OpenSpec, SealedLayer, Sealable, Hashed, Somewhere;
    var top, id := c[|c| - 1], End(sha, c).value;
    var c': seq<Record> :| c' != [] && Held(sha, hashed, images, c') && End(sha, c') == Some(id)
              && images[name].files[id] == c'[|c'| - 1].File(sha);
    ChainUnique(sha, hashed, c, c');
    LinkedInit(sha, hashed, c);
    SealOpenRoundTrip(sha, top.g, top.parents, top.m);
  }

  // The first step of a walk from the end of a chain.
  lemma WalkTop(sha: seq<Byte> -> Digest, hashed: set<seq<Byte>>, images: Images,
                c: seq<Record>, layers: seq<ImmutableLayer>, stop: Option<Digest>)
    requires CollisionFree(sha, hashed) && StoreOk(sha, hashed, images) && Linked(sha, hashed, c)
    requires Walked(images, End(sha, c), layers, stop) && layers != []
    ensures c != [] && layers[|layers| - 1] == c[|c| - 1].Layer(sha)
    ensures Linked(sha, hashed, c[..|c| - 1])
    ensures Walked(images, End(sha, c[..|c| - 1]), layers[..|layers| - 1], stop)
  {
    hide CollisionFree, StoreOk, Linked, Record.Id, Record.Layer, Record.Ok, Record.File, OpenSpec, ImmutableLayer.Blocks;
    var n, top, id := |c| - 1, layers[|layers| - 1], End(sha, c).value;
    var name :| name in images && id in images[name].files && OpenSpec(images[name].files[id]) == Success(top);
    OpensTop(sha, hashed, images, c, name);
    LinkedInit(sha, hashed, c);
    LayerGeometry(sha, c[n]);
  }

  /** A walk from the end of a stored chain follows the chain down. */
  lemma {:induction false} WalkFollowsChain(sha: seq<Byte> -> Digest, hashed: set<seq<Byte>>, images: Images,
                                            c: seq<Record>, layers: seq<ImmutableLayer>, stop: Option<Digest>)
    requires CollisionFree(sha, hashed) && StoreOk(sha, hashed, images) && Linked(sha, hashed, c)
    requires Walked(images, End(sha, c), layers, stop)
    ensures |layers| <= |c|
    ensures layers == LayersOf(sha, c[|c| - |layers|..]) && stop == End(sha, c[..|c| - |layers|])
    decreases |layers|
  {
    hide CollisionFree, StoreOk, Linked, Record.Id, Record.Layer, LayersOf, Opens;
    if layers == [] {
      assert c[..|c|] == c && c[|c|..] == [];
      assert LayersOf(sha, []) == [];
    } else {
      var n, k := |c| - 1, |layers| - 1;
      WalkTop(sha, hashed, images, c, layers, stop);
      WalkFollowsChain(sha, hashed, images, c[..n], layers[..k], stop);
      assert c[..n][..n - k] == c[..n - k];
      assert c[n - k..] == c[..n][n - k..] + [c[n]];
      LayersOfSnoc(sha, c[..n][n - k..], c[n]);
      assert layers == layers[..k] + [layers[k]];
    }
  }

  lemma LayersOfSnoc(sha: seq<Byte> -> Digest, c: seq<Record>, r: Record)
    ensures LayersOf(sha, c + [r]) == LayersOf(sha, c) + [r.Layer(sha)]
  {
    hide Record.Layer;
  }

  /** A walk that runs out has followed the whole chain. */
  lemma WholeWalk(sha: seq<Byte> -> Digest, hashed: set<seq<Byte>>, images: Images, c: seq<Record>, layers: seq<ImmutableLayer>)
    requires CollisionFree(sha, hashed) && StoreOk(sha, hashed, images) && Linked(sha, hashed, c)
    requires Walked(images, End(sha, c), layers, None)
    ensures layers == LayersOf(sha, c)
  {
    hide CollisionFree, StoreOk, Linked, Record.Id, Walked, LayersOf;
    WalkFollowsChain(sha, hashed, images, c, layers, None);
    assert c[..|c| - |layers|] == [];
    assert c[0..] == c;
  }

  /** The whole chain is a walk. */
  lemma {:induction false} ChainIsWalk(sha: seq<Byte> -> Digest, hashed: set<seq<Byte>>, images: Images, c: seq<Record>)
    requires CollisionFree(sha, hashed) && StoreOk(sha, hashed, images) && Held(sha, hashed, images, c)
    ensures Walked(images, End(sha, c), LayersOf(sha, c), None)
    decreases |c|
  {
    hide CollisionFree, StoreOk, Linked, Record.Id, Record.Layer, Record.Ok, Record.File, OpenSpec, ImmutableLayer.Blocks;
    if c != [] {
      var n := |c| - 1;
      HeldInit(sha, hashed, images, c);
      LinkedInit(sha, hashed, c);
      ChainIsWalk(sha, hashed, images, c[..n]);
      var id := c[n].Id(sha);
      var name :| name in images && id in images[name].files;
      OpensTop(sha, hashed, images, c, name);
      LayerGeometry(sha, c[n]);
      ItOpens(images, name, id, c[n].Layer(sha));
      assert LayersOf(sha, c)[..n] == LayersOf(sha, c[..n]);
    }
  }
}
