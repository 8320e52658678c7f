/** Every run of create, serve, write and freeze over any number of images (image.rs).

    A serve opens a session: an empty scratch over the image's chain. Writes change the scratch.
    A freeze seals the scratch over the image's current parent. `EveryRun` is the invariant over all
    runs; `FreezeShowsIff` says when a freeze keeps the bytes its session shows.
 */
module ImageRuns {
  import opened Bytes
  import opened Blocks
  import opened Layers
  import opened Stack
  import opened Sealed
  import opened SealedLaws
  import opened Store
  import opened Images
  import opened Chains

  // ---- worlds ----------------------------------------------------------------------------------------

  /** A live export: the layers found when it was served, the overlays frozen from it since, oldest
      first, and the scratch on top. */
  datatype LiveSession = LiveSession(g: Geometry, lower: seq<BlockMap>, frozen: seq<BlockMap>, top: BlockMap) {
    predicate Ok() {
      && g.Valid() && g.blockSize == DEFAULT_BLOCK_SIZE && AllSized(lower, g.blockSize) && AllSized(frozen, g.blockSize)
      && InDisk(g, top)
    }

    /** The bytes the session shows. */
    function Bytes(): seq<Byte>
      requires Ok()
    {
      ResolveTop(lower, top, 0, g.blockSize);
      Flatten(g, lower + [top])
    }

    /** Block `q` was stored by an earlier freeze of this session and is no longer in the scratch, and
        what the last such freeze stored is not what the layers it was served over show. */
    predicate Resurfaces(q: nat)
      requires Ok()
    {
      q !in top && LastFrozen(frozen, q).Some? && LastFrozen(frozen, q).value != Resolve(lower, q, g.blockSize)
    }

    /** No such block. */
    predicate Faithful()
      requires Ok()
    {
      forall q :: 0 <= q < g.BlockCount() ==> !Resurfaces(q)
    }
  }

  /** What the latest of the overlays `ms` that stores block `q` stores there. */
  function LastFrozen(ms: seq<BlockMap>, q: nat): Option<seq<Byte>> {
    if ms == [] then None
    else if q in ms[|ms| - 1] then Some(ms[|ms| - 1][q])
    else LastFrozen(ms[..|ms| - 1], q)
  }

  predicate InDisk(g: Geometry, m: BlockMap)
    requires g.Valid()
  {
    Sized(m, g.blockSize) && forall b :: b in m ==> b < g.BlockCount()
  }

  /** `hashed` is everything hashed so far. */
  datatype World = World(images: Images, sessions: map<string, LiveSession>, hashed: set<seq<Byte>>)

  const Empty: World := World(map[], map[], {})

  datatype Event =
    | Create(name: string, gib: Option<nat>)
    | Derive(name: string, baseName: string, baseTag: string)
    | Serve(name: string, layers: seq<ImmutableLayer>)
    | Write(name: string, top: BlockMap)
    | Freeze(name: string, tag: string)

  /** The geometry a serve picks. */
  function ServedGeometry(size: Size, layers: seq<ImmutableLayer>): Geometry {
    if layers == [] then Geometry(size, DEFAULT_BLOCK_SIZE) else layers[0].geometry
  }

  /** Outside `top` both stacks resolve every block alike. */
  ghost predicate Agree(g: Geometry, a: seq<BlockMap>, b: seq<BlockMap>, top: BlockMap)
    requires g.Valid() && AllSized(a, g.blockSize) && AllSized(b, g.blockSize)
  {
    forall q :: 0 <= q < g.BlockCount() && q !in top ==> Resolve(a, q, g.blockSize) == Resolve(b, q, g.blockSize)
  }

  predicate CreateStep(w: World, w': World, name: string, gib: Option<nat>) {
    name !in w.images && w' == w.(images := w.images[name := FreshImage(SizeOf(gib), None)])
  }

  predicate DeriveStep(w: World, w': World, name: string, baseName: string, baseTag: string) {
    && name !in w.images && BaseOf(w.images, baseName, baseTag).Some?
    && var size := BaseOf(w.images, baseName, baseTag).value.geometry.virtualSize;
    && size < U64
    && w' == w.(images := w.images[name := FreshImage(size, Some(LayerByTag(w.images[baseName].layers, baseTag).value.id))])
  }

  ghost predicate ServeStep(w: World, w': World, name: string, layers: seq<ImmutableLayer>) {
    && name in w.images && w.images[name].scratch.Some?
    && var parent, size := w.images[name].scratch.value.parent, w.images[name].scratch.value.size;
    && Walked(w.images, parent, layers, None) && Uniform(size, layers)
    && w' == w.(sessions := w.sessions[name := LiveSession(ServedGeometry(size, layers), LayerMaps(layers), [], map[])])
  }

  predicate WriteStep(w: World, w': World, name: string, top: BlockMap) {
    && name in w.sessions && w.sessions[name].g.Valid() && InDisk(w.sessions[name].g, top)
    && w' == w.(sessions := w.sessions[name := w.sessions[name].(top := top)])
  }

  ghost predicate FreezeStep(sha: seq<Byte> -> Digest, w: World, w': World, name: string, tag: string) {
    && name in w.images && name in w.sessions && FreezeTag(tag) && w.sessions[name].Ok()
    && w' == Frozen(sha, w, name, tag)
  }

  /** One successful operation. (A refused one changes nothing.) */
  ghost predicate Step(sha: seq<Byte> -> Digest, w: World, e: Event, w': World) {
    match e
    case Create(name, gib) => CreateStep(w, w', name, gib)
    case Derive(name, baseName, baseTag) => DeriveStep(w, w', name, baseName, baseTag)
    case Serve(name, layers) => ServeStep(w, w', name, layers)
    case Write(name, top) => WriteStep(w, w', name, top)
    case Freeze(name, tag) => FreezeStep(sha, w, w', name, tag)
  }

  ghost function Frozen(sha: seq<Byte> -> Digest, w: World, name: string, tag: string): World
    requires name in w.images && name in w.sessions && w.sessions[name].Ok()
  {
    var img, s := w.images[name], w.sessions[name];
    var id := FreezeId(sha, img, s.g, s.top);
    World(w.images[name := AfterFreeze(sha, img, id, s.g, s.top, tag)],
          w.sessions[name := s.(frozen := s.frozen + [s.top])],
          w.hashed + Hashed(sha, s.g, ParentIds(img.ScratchParent()), s.top))
  }

  // ---- the invariant -----------------------------------------------------------------------------------

  /** `c` is the chain a scratch with this parent and size sits on. */
  ghost predicate Under(sha: seq<Byte> -> Digest, hashed: set<seq<Byte>>, images: Images,
                        parent: Option<Digest>, size: nat, c: seq<Record>)
  {
    && Held(sha, hashed, images, c) && End(sha, c) == parent
    && Geometry(size, DEFAULT_BLOCK_SIZE).Valid() && (c != [] ==> c[0].g == Geometry(size, DEFAULT_BLOCK_SIZE))
  }

  ghost predicate ImageOk(sha: seq<Byte> -> Digest, w: World, img: Image) {
    && img.scratch.Some?
    && (exists c :: Under(sha, w.hashed, w.images, img.scratch.value.parent, img.scratch.value.size, c))
    && (forall l :: l in img.layers ==> l.id in img.files)
  }

  /** The image sits on the layers its session was served over, with what was frozen from it on top. */
  ghost predicate SessionOk(sha: seq<Byte> -> Digest, w: World, name: string, s: LiveSession) {
    && s.Ok() && name in w.images && w.images[name].scratch.Some? && s.g.virtualSize == w.images[name].scratch.value.size
    && exists c :: Under(sha, w.hashed, w.images, w.images[name].scratch.value.parent, s.g.virtualSize, c) && Maps(c) == s.lower + s.frozen
  }

  /** The chain flattens to `bytes`. */
  ghost predicate Depicts(c: seq<Record>, bytes: seq<Byte>)
    requires c != []
  {
    c[0].g.Valid() && AllSized(Maps(c), c[0].g.blockSize) && Flatten(c[0].g, Maps(c)) == bytes
  }

  ghost predicate WorldInv(sha: seq<Byte> -> Digest, w: World) {
    && StoreOk(sha, w.hashed, w.images)
    && (forall name :: name in w.images ==> ImageOk(sha, w, w.images[name]))
    && (forall name :: name in w.sessions ==> SessionOk(sha, w, name, w.sessions[name]))
  }

  // ---- growth --------------------------------------------------------------------------------------------

  /** Nothing stored or hashed is lost. */
  ghost predicate Grows(w: World, w': World) {
    && w.hashed <= w'.hashed
    && forall name :: name in w.images ==> name in w'.images && w.images[name].files.Keys <= w'.images[name].files.Keys
  }

  lemma HeldGrows(sha: seq<Byte> -> Digest, w: World, w': World, c: seq<Record>)
    requires Grows(w, w') && Held(sha, w.hashed, w.images, c)
    ensures Held(sha, w'.hashed, w'.images, c)
  {
    hide Sealable, Record.Id, Hashed, ParentIds, End;
    forall i | 0 <= i < |c|
      ensures LinkedAt(sha, w'.hashed, c, i) && Somewhere(w'.images, c[i].Id(sha))
    {
      assert LinkedAt(sha, w.hashed, c, i);
      assert Somewhere(w.images, c[i].Id(sha));
    }
  }

  lemma UnderGrows(sha: seq<Byte> -> Digest, w: World, w': World, parent: Option<Digest>, size: nat)
    requires Grows(w, w') && exists c :: Under(sha, w.hashed, w.images, parent, size, c)
    ensures exists c :: Under(sha, w'.hashed, w'.images, parent, size, c)
  {
    hide Held, Grows;
    var c :| Under(sha, w.hashed, w.images, parent, size, c);
    HeldGrows(sha, w, w', c);
    assert Under(sha, w'.hashed, w'.images, parent, size, c);
  }

  lemma ImageGrows(sha: seq<Byte> -> Digest, w: World, w': World, img: Image)
    requires Grows(w, w') && ImageOk(sha, w, img)
    ensures ImageOk(sha, w', img)
  {
    hide Under, Grows;
    UnderGrows(sha, w, w', img.scratch.value.parent, img.scratch.value.size);
  }

  lemma SessionGrows(sha: seq<Byte> -> Digest, w: World, w': World, name: string, s: LiveSession)
    requires Grows(w, w') && SessionOk(sha, w, name, s)
    requires name in w'.images && w'.images[name].scratch == w.images[name].scratch
    ensures SessionOk(sha, w', name, s)
  {
    hide Held, Grows, LiveSession.Ok;
    var parent := w.images[name].scratch.value.parent;
    var c :| Under(sha, w.hashed, w.images, parent, s.g.virtualSize, c) && Maps(c) == s.lower + s.frozen;
    HeldGrows(sha, w, w', c);
    assert Under(sha, w'.hashed, w'.images, parent, s.g.virtualSize, c);
  }

  lemma FiledGrows(sha: seq<Byte> -> Digest, w: World, w': World, name: string, id: Digest)
    requires Grows(w, w') && name in w.images && name in w'.images && id in w.images[name].files
    requires id in w'.images[name].files && w'.images[name].files[id] == w.images[name].files[id]
    requires FiledAs(sha, w.hashed, w.images, name, id)
    ensures FiledAs(sha, w'.hashed, w'.images, name, id)
  {
    hide Held, Record.File, Grows;
    var c: seq<Record> :| c != [] && Held(sha, w.hashed, w.images, c) && End(sha, c) == Some(id)
                          && w.images[name].files[id] == c[|c| - 1].File(sha);
    HeldGrows(sha, w, w', c);
  }

  // No store changed.
  lemma StoresGrow(sha: seq<Byte> -> Digest, w: World, w': World)
    requires Grows(w, w') && StoreOk(sha, w.hashed, w.images)
    requires forall name :: name in w'.images ==>
               w'.images[name].files == map[] || (name in w.images && w'.images[name].files == w.images[name].files)
    ensures StoreOk(sha, w'.hashed, w'.images)
  {
    hide FiledAs, Grows;
    forall name, id | name in w'.images && id in w'.images[name].files
      ensures FiledAs(sha, w'.hashed, w'.images, name, id)
    {
      FiledGrows(sha, w, w', name, id);
    }
  }

  // Everything but the stores and the changed image carries over to a grown world.
  lemma RestGrows(sha: seq<Byte> -> Digest, w: World, w': World, changed: string)
    requires Grows(w, w') && WorldInv(sha, w)
    requires forall name :: name in w'.images && name != changed ==> name in w.images && w'.images[name] == w.images[name]
    ensures forall name :: name in w'.images && name != changed ==> ImageOk(sha, w', w'.images[name])
  {
    hide ImageOk, Grows, StoreOk, SessionOk;
    forall name | name in w'.images && name != changed
      ensures ImageOk(sha, w', w'.images[name])
    {
      ImageGrows(sha, w, w', w.images[name]);
    }
  }

  lemma SessionsGrow(sha: seq<Byte> -> Digest, w: World, w': World, changed: string)
    requires Grows(w, w') && WorldInv(sha, w)
    requires forall name :: name in w'.sessions && name != changed ==> name in w.sessions && w'.sessions[name] == w.sessions[name]
    requires forall name :: name in w.images && name != changed ==> name in w'.images && w'.images[name] == w.images[name]
    ensures forall name :: name in w'.sessions && name != changed ==> SessionOk(sha, w', name, w'.sessions[name])
  {
    hide ImageOk, Grows, StoreOk;
    forall name | name in w'.sessions && name != changed
      ensures SessionOk(sha, w', name, w'.sessions[name])
    {
      SessionGrows(sha, w, w', name, w.sessions[name]);
    }
  }

  // ---- the steps ---------------------------------------------------------------------------------------------

  lemma NewImageKeeps(sha: seq<Byte> -> Digest, w: World, name: string, size: Size, parent: Option<Digest>)
    requires WorldInv(sha, w) && name !in w.images
    requires exists c :: Under(sha, w.hashed, w.images, parent, size, c)
    ensures WorldInv(sha, w.(images := w.images[name := FreshImage(size, parent)]))
  {
    hide StoreOk, SessionOk, Under;
    var w' := w.(images := w.images[name := FreshImage(size, parent)]);
    assert Grows(w, w');
    StoresGrow(sha, w, w');
    RestGrows(sha, w, w', name);
    UnderGrows(sha, w, w', parent, size);
    NoSession(sha, w, name);
    SessionsGrow(sha, w, w', name);
  }

  lemma NoSession(sha: seq<Byte> -> Digest, w: World, name: string)
    requires WorldInv(sha, w) && name !in w.images
    ensures name !in w.sessions
  {
  }

  lemma CreateKeeps(sha: seq<Byte> -> Digest, w: World, w': World, name: string, gib: Option<nat>)
    requires WorldInv(sha, w) && CreateStep(w, w', name, gib)
    ensures WorldInv(sha, w')
  {
    hide WorldInv;
    assert Under(sha, w.hashed, w.images, None, SizeOf(gib), []);
    NewImageKeeps(sha, w, name, SizeOf(gib), None);
  }

  lemma DeriveKeeps(sha: seq<Byte> -> Digest, w: World, w': World, name: string, baseName: string, baseTag: string)
    requires WorldInv(sha, w) && CollisionFree(sha, w.hashed) && DeriveStep(w, w', name, baseName, baseTag)
    ensures WorldInv(sha, w')
  {
    hide CollisionFree, OpenSpec, Held, Record.File, Record.Layer, SessionOk;
    var layer, base := LayerByTag(w.images[baseName].layers, baseTag).value, BaseOf(w.images, baseName, baseTag).value;
    assert ImageOk(sha, w, w.images[baseName]);
    var id := layer.id;
    assert FiledAs(sha, w.hashed, w.images, baseName, id);
    var c: seq<Record> :| c != [] && Held(sha, w.hashed, w.images, c) && End(sha, c) == Some(id)
                          && w.images[baseName].files[id] == c[|c| - 1].File(sha);
    HeldFacts(sha, w.hashed, w.images, c);
    OpensTop(sha, w.hashed, w.images, c, baseName);
    LayerGeometry(sha, c[|c| - 1]);
    assert Under(sha, w.hashed, w.images, Some(id), base.geometry.virtualSize, c);
    NewImageKeeps(sha, w, name, base.geometry.virtualSize, Some(id));
  }

  lemma HeldFacts(sha: seq<Byte> -> Digest, hashed: set<seq<Byte>>, images: Images, c: seq<Record>)
    requires Held(sha, hashed, images, c)
    ensures Linked(sha, hashed, c)
    ensures forall i :: 0 <= i < |c| ==> c[i].g.Valid() && c[i].g.blockSize == DEFAULT_BLOCK_SIZE && c[i].g == c[0].g
  {
    hide Hashed, MetaOf, ParentIds, End, Geometry.BlockCount;
    forall i | 0 <= i < |c|
      ensures c[i].g.Valid() && c[i].g.blockSize == DEFAULT_BLOCK_SIZE && c[i].g == c[0].g
    {
      assert LinkedAt(sha, hashed, c, i);
    }
  }

  // What a serve finds: exactly the chain under the image.
  lemma ServeFinds(sha: seq<Byte> -> Digest, w: World, parent: Option<Digest>, size: nat, c: seq<Record>, layers: seq<ImmutableLayer>)
    requires StoreOk(sha, w.hashed, w.images) && CollisionFree(sha, w.hashed)
    requires Under(sha, w.hashed, w.images, parent, size, c) && Walked(w.images, parent, layers, None)
    ensures layers == LayersOf(sha, c) && LayerMaps(layers) == Maps(c)
    ensures AllSized(Maps(c), DEFAULT_BLOCK_SIZE) && SameGeometry(layers, Geometry(size, DEFAULT_BLOCK_SIZE))
  {
    hide StoreOk, CollisionFree, Walked, Linked, LayersOf, Maps, LayerMaps, AllSized, SameGeometry, Intact, Geometry.Valid;
    WholeWalk(sha, w.hashed, w.images, c, layers);
    LayersOfMaps(sha, w.hashed, c);
    if c == [] { NoLayers(sha, size); }
  }

  lemma NoLayers(sha: seq<Byte> -> Digest, size: nat)
    ensures AllSized(Maps([]), DEFAULT_BLOCK_SIZE) && SameGeometry(LayersOf(sha, []), Geometry(size, DEFAULT_BLOCK_SIZE))
  {
  }

  lemma ServeKeeps(sha: seq<Byte> -> Digest, w: World, w': World, name: string, layers: seq<ImmutableLayer>)
    requires WorldInv(sha, w) && CollisionFree(sha, w.hashed) && ServeStep(w, w', name, layers)
    ensures WorldInv(sha, w')
  {
    hide StoreOk, CollisionFree, Walked, Held, LayersOf, Maps, LayerMaps, AllSized;
    var scratch := w.images[name].scratch.value;
    assert ImageOk(sha, w, w.images[name]);
    var c :| Under(sha, w.hashed, w.images, scratch.parent, scratch.size, c);
    ServeFinds(sha, w, scratch.parent, scratch.size, c, layers);
    assert SessionOk(sha, w', name, w'.sessions[name]) by {
      assert Under(sha, w'.hashed, w'.images, scratch.parent, scratch.size, c);
      assert Maps(c) == Maps(c) + [];
      NothingFrozen(DEFAULT_BLOCK_SIZE);
    }
    OtherSessions(sha, w, w', name);
  }

  lemma NothingFrozen(bs: nat)
    ensures AllSized([], bs)
  {
  }

  // Nothing changed but one session.
  lemma OtherSessions(sha: seq<Byte> -> Digest, w: World, w': World, name: string)
    requires WorldInv(sha, w) && name in w'.sessions && w' == w.(sessions := w.sessions[name := w'.sessions[name]])
    requires SessionOk(sha, w', name, w'.sessions[name])
    ensures WorldInv(sha, w')
  {
    hide StoreOk, Under, LiveSession.Ok, Held;
    forall other | other in w'.sessions
      ensures SessionOk(sha, w', other, w'.sessions[other])
    {
      if other != name { assert SessionOk(sha, w, other, w.sessions[other]); }
    }
    forall n | n in w'.images
      ensures ImageOk(sha, w', w'.images[n])
    {
      assert ImageOk(sha, w, w.images[n]);
    }
  }

  lemma WriteKeeps(sha: seq<Byte> -> Digest, w: World, w': World, name: string, top: BlockMap)
    requires WorldInv(sha, w) && WriteStep(w, w', name, top)
    ensures WorldInv(sha, w')
  {
    hide StoreOk, Under, ImageOk;
    var s := w.sessions[name];
    assert SessionOk(sha, w, name, s);
    var c :| Under(sha, w.hashed, w.images, w.images[name].scratch.value.parent, s.g.virtualSize, c) && Maps(c) == s.lower + s.frozen;
    assert SessionOk(sha, w', name, w'.sessions[name]);
    OtherSessions(sha, w, w', name);
  }

  // ---- freezing ----------------------------------------------------------------------------------------------

  lemma DefaultFits(g: Geometry)
    requires g.Valid() && g.blockSize == DEFAULT_BLOCK_SIZE
    ensures IndexFits(g)
  {
  }

  /** What a freeze of the image's session seals. */
  function FreezeRecord(w: World, name: string): Record
    requires name in w.images && name in w.sessions
  {
    Record(w.sessions[name].g, ParentIds(w.images[name].ScratchParent()), w.sessions[name].top)
  }

  // It goes on top of the chain under the image.
  lemma FreezeExtends(sha: seq<Byte> -> Digest, w: World, w': World, name: string, tag: string, c: seq<Record>)
    requires FreezeStep(sha, w, w', name, tag)
    requires Under(sha, w.hashed, w.images, w.images[name].ScratchParent(), w.sessions[name].g.virtualSize, c)
    ensures Grows(w, w')
    ensures Under(sha, w'.hashed, w'.images, w'.images[name].ScratchParent(), w.sessions[name].g.virtualSize,
                  c + [FreezeRecord(w, name)])
  {
    hide Linked, ContentId, SealFile, Hashed, Sealable, LiveSession.Bytes, Somewhere, Geometry.Valid;
    var img, s, r := w.images[name], w.sessions[name], FreezeRecord(w, name);
    DefaultFits(s.g);
    ContentsSealable(sha, s.g, r.parents, s.top);
    HeldGrows(sha, w, w', c);
    LinkedSnoc(sha, w'.hashed, c, r);
    FoundIn(w'.images, name, r.Id(sha));
    forall i | 0 <= i < |c + [r]|
      ensures Somewhere(w'.images, (c + [r])[i].Id(sha))
    {
      if i < |c| { assert (c + [r])[i] == c[i]; }
    }
  }

  lemma FoundIn(images: Images, name: string, id: Digest)
    requires name in images && id in images[name].files
    ensures Somewhere(images, id)
  {
  }

  // ---- what a freeze shows -------------------------------------------------------------------------------------

  lemma BlockOfBytes(g: Geometry, x: seq<BlockMap>, y: seq<BlockMap>, q: nat)
    requires g.Valid() && AllSized(x, g.blockSize) && AllSized(y, g.blockSize) && q < g.BlockCount()
    requires Flatten(g, x) == Flatten(g, y)
    ensures Resolve(x, q, g.blockSize) == Resolve(y, q, g.blockSize)
  {
    hide Resolve, AllSized, Flatten;
    BlockEnds(g, q);
    BlockIsSlice(g, x, q);
    BlockIsSlice(g, y, q);
  }

  lemma BytesOfBlocks(g: Geometry, x: seq<BlockMap>, y: seq<BlockMap>)
    requires g.Valid() && AllSized(x, g.blockSize) && AllSized(y, g.blockSize)
    requires forall q :: 0 <= q < g.BlockCount() ==> Resolve(x, q, g.blockSize) == Resolve(y, q, g.blockSize)
    ensures Flatten(g, x) == Flatten(g, y)
  {
    hide Resolve, AllSized, Flatten;
    var v, u := Flatten(g, x), Flatten(g, y);
    forall i | 0 <= i < g.virtualSize
      ensures v[i] == u[i]
    {
      BlockFits(g, i);
    }
    assert v == u;
  }

  lemma BlockEnds(g: Geometry, q: nat)
    requires g.Valid() && q < g.BlockCount()
    ensures q * g.blockSize + g.blockSize <= g.virtualSize
  {
    DivMod(g.virtualSize, g.blockSize);
    MulMono(q + 1, g.BlockCount(), g.blockSize);
  }

  /** Two stacks under one scratch show the same bytes exactly when they agree outside it. */
  lemma AgreeIff(g: Geometry, a: seq<BlockMap>, b: seq<BlockMap>, top: BlockMap)
    requires g.Valid() && AllSized(a, g.blockSize) && AllSized(b, g.blockSize) && Sized(top, g.blockSize)
    ensures AllSized(a + [top], g.blockSize) && AllSized(b + [top], g.blockSize)
    ensures Flatten(g, a + [top]) == Flatten(g, b + [top]) <==> Agree(g, a, b, top)
  {
    hide Resolve, AllSized, Geometry.Valid, Geometry.BlockCount, Flatten;
    var bs, x, y := g.blockSize, a + [top], b + [top];
    ResolveTop(a, top, 0, bs);
    ResolveTop(b, top, 0, bs);
    if Flatten(g, x) == Flatten(g, y) {
      forall q | 0 <= q < g.BlockCount() && q !in top
        ensures Resolve(a, q, bs) == Resolve(b, q, bs)
      {
        BlockOfBytes(g, x, y, q);
        ResolveTop(a, top, q, bs);
        ResolveTop(b, top, q, bs);
      }
    }
    if Agree(g, a, b, top) {
      forall q | 0 <= q < g.BlockCount()
        ensures Resolve(x, q, bs) == Resolve(y, q, bs)
      {
        ResolveTop(a, top, q, bs);
        ResolveTop(b, top, q, bs);
      }
      BytesOfBlocks(g, x, y);
    }
  }

  // The chain after a freeze, flattened.
  lemma ExtendedBytes(w: World, name: string, c: seq<Record>, bs: nat)
    requires name in w.images && name in w.sessions && AllSized(Maps(c), bs) && Sized(w.sessions[name].top, bs)
    ensures Maps(c + [FreezeRecord(w, name)]) == Maps(c) + [w.sessions[name].top]
    ensures AllSized(Maps(c + [FreezeRecord(w, name)]), bs)
  {
  }

  // What a session's own freezes left on the layers it was served over.
  lemma {:induction false} ResolveFrozen(lower: seq<BlockMap>, frozen: seq<BlockMap>, q: nat, bs: nat)
    requires AllSized(lower, bs) && AllSized(frozen, bs)
    ensures AllSized(lower + frozen, bs)
    ensures Resolve(lower + frozen, q, bs) ==
            if LastFrozen(frozen, q).Some? then LastFrozen(frozen, q).value else Resolve(lower, q, bs)
    decreases |frozen|
  {
    if frozen == [] {
      assert lower + frozen == lower;
    } else {
      var init, last := frozen[..|frozen| - 1], frozen[|frozen| - 1];
      assert lower + frozen == (lower + init) + [last];
      ResolveFrozen(lower, init, q, bs);
      ResolveTop(lower + init, last, q, bs);
    }
  }

  lemma FrozenAgree(s: LiveSession)
    requires s.Ok()
    ensures AllSized(s.lower + s.frozen, s.g.blockSize)
    ensures Agree(s.g, s.lower + s.frozen, s.lower, s.top) <==> s.Faithful()
  {
    hide Resolve, AllSized, Geometry.Valid, Geometry.BlockCount, LastFrozen, InDisk;
    var all, bs := s.lower + s.frozen, s.g.blockSize;
    ResolveFrozen(s.lower, s.frozen, 0, bs);
    if Agree(s.g, all, s.lower, s.top) {
      forall q | 0 <= q < s.g.BlockCount()
        ensures !s.Resurfaces(q)
      {
        ResolveFrozen(s.lower, s.frozen, q, bs);
      }
    }
    if s.Faithful() {
      forall q | 0 <= q < s.g.BlockCount() && q !in s.top
        ensures Resolve(all, q, bs) == Resolve(s.lower, q, bs)
      {
        assert !s.Resurfaces(q);
        ResolveFrozen(s.lower, s.frozen, q, bs);
      }
    }
  }

  /** A freeze leaves a chain that shows the session's bytes exactly when no block resurfaces: none that
      an earlier freeze of the session stored has left the scratch while the layers below differ. */
  lemma FreezeShowsIff(sha: seq<Byte> -> Digest, w: World, name: string, c: seq<Record>)
    requires name in w.images && name in w.sessions && w.sessions[name].Ok()
    requires Under(sha, w.hashed, w.images, w.images[name].ScratchParent(), w.sessions[name].g.virtualSize, c)
    requires Maps(c) == w.sessions[name].lower + w.sessions[name].frozen
    ensures Depicts(c + [FreezeRecord(w, name)], w.sessions[name].Bytes()) <==> w.sessions[name].Faithful()
  {
    hide Held, Maps, AllSized, Agree, Flatten, Geometry.Valid, LiveSession.Faithful;
    var s := w.sessions[name];
    FrozenAgree(s);
    AgreeIff(s.g, Maps(c), s.lower, s.top);
    ExtendedBytes(w, name, c, s.g.blockSize);
    assert (c + [FreezeRecord(w, name)])[0].g == s.g;
  }

  lemma Stores(sha: seq<Byte> -> Digest, w: World)
    requires WorldInv(sha, w)
    ensures StoreOk(sha, w.hashed, w.images)
  {
  }

  // The stores after a freeze: one file more, or none when it was there already.
  lemma FreezeStores(sha: seq<Byte> -> Digest, w: World, w': World, name: string, tag: string, c: seq<Record>)
    requires WorldInv(sha, w) && FreezeStep(sha, w, w', name, tag)
    requires Under(sha, w.hashed, w.images, w.images[name].ScratchParent(), w.sessions[name].g.virtualSize, c)
    ensures StoreOk(sha, w'.hashed, w'.images)
  {
    hide WorldInv, FreezeStep, Grows, Held, FiledAs, Record.File, Record.Id;
    Stores(sha, w);
    FreezeExtends(sha, w, w', name, tag, c);
    NewFile(sha, w, w', name, tag);
    var r := FreezeRecord(w, name);
    forall n, id | n in w'.images && id in w'.images[n].files
      ensures FiledAs(sha, w'.hashed, w'.images, n, id)
    {
      if n in w.images && id in w.images[n].files {
        FiledGrows(sha, w, w', n, id);
      } else {
        TopFiled(sha, w', name, c + [r]);
      }
    }
  }

  lemma TopFiled(sha: seq<Byte> -> Digest, w: World, name: string, c: seq<Record>)
    requires c != [] && Held(sha, w.hashed, w.images, c) && name in w.images
    requires var id := c[|c| - 1].Id(sha); id in w.images[name].files && w.images[name].files[id] == c[|c| - 1].File(sha)
    ensures FiledAs(sha, w.hashed, w.images, name, c[|c| - 1].Id(sha))
  {
    hide Held, Record.File;
  }

  lemma NewFile(sha: seq<Byte> -> Digest, w: World, w': World, name: string, tag: string)
    requires FreezeStep(sha, w, w', name, tag)
    ensures name in w.images && name in w'.images && w'.images == w.images[name := w'.images[name]]
    ensures name in w.sessions && w'.images[name].ScratchParent() == Some(FreezeRecord(w, name).Id(sha))
    ensures var r := FreezeRecord(w, name);
            w'.images[name].files == Stored(w.images[name].files, r.Id(sha), r.File(sha))
  {
    hide ContentId, SealFile, Hashed, LiveSession.Bytes;
  }

  lemma FreezeImage(sha: seq<Byte> -> Digest, w: World, w': World, name: string, tag: string, c: seq<Record>)
    requires WorldInv(sha, w) && FreezeStep(sha, w, w', name, tag)
    requires Under(sha, w.hashed, w.images, w.images[name].ScratchParent(), w.sessions[name].g.virtualSize, c)
    ensures ImageOk(sha, w', w'.images[name])
    ensures w'.images[name].scratch.value.size == w.sessions[name].g.virtualSize
  {
    hide Under, ContentId, LiveSession.Bytes, SealFile, StoreOk, SessionOk, Hashed;
    FreezeExtends(sha, w, w', name, tag, c);
    assert ImageOk(sha, w, w.images[name]);
  }

  lemma FreezeSession(sha: seq<Byte> -> Digest, w: World, w': World, name: string, tag: string, c: seq<Record>)
    requires WorldInv(sha, w) && FreezeStep(sha, w, w', name, tag)
    requires Under(sha, w.hashed, w.images, w.images[name].ScratchParent(), w.sessions[name].g.virtualSize, c)
    requires Maps(c) == w.sessions[name].lower + w.sessions[name].frozen
    ensures SessionOk(sha, w', name, w'.sessions[name])
  {
    hide WorldInv, Under, ContentId, SealFile, Hashed, Maps, AllSized, Geometry.Valid, InDisk;
    var s, s' := w.sessions[name], w'.sessions[name];
    FreezeExtends(sha, w, w', name, tag, c);
    ExtendedMaps(w, name, c);
    assert s.lower + s.frozen + [s.top] == s.lower + (s.frozen + [s.top]);
    SizedSnoc(s.frozen, s.top, s.g);
  }

  lemma ExtendedMaps(w: World, name: string, c: seq<Record>)
    requires name in w.images && name in w.sessions
    ensures Maps(c + [FreezeRecord(w, name)]) == Maps(c) + [w.sessions[name].top]
  {
  }

  lemma SizedSnoc(ms: seq<BlockMap>, m: BlockMap, g: Geometry)
    requires g.Valid() && AllSized(ms, g.blockSize) && InDisk(g, m)
    ensures AllSized(ms + [m], g.blockSize)
  {
  }

  // The chain under an image with a session: what it was served over and what was frozen since.
  lemma ChainUnder(sha: seq<Byte> -> Digest, w: World, name: string) returns (c: seq<Record>)
    requires WorldInv(sha, w) && name in w.sessions
    ensures name in w.images && w.sessions[name].Ok()
    ensures Under(sha, w.hashed, w.images, w.images[name].ScratchParent(), w.sessions[name].g.virtualSize, c)
    ensures Maps(c) == w.sessions[name].lower + w.sessions[name].frozen
    ensures w.images[name].scratch.Some? && w.images[name].scratch.value.size == w.sessions[name].g.virtualSize
  {
    hide Under, StoreOk, LiveSession.Ok;
    var s := w.sessions[name];
    assert SessionOk(sha, w, name, s);
    c :| Under(sha, w.hashed, w.images, w.images[name].scratch.value.parent, s.g.virtualSize, c) && Maps(c) == s.lower + s.frozen;
  }

  lemma FreezeKeeps(sha: seq<Byte> -> Digest, w: World, w': World, name: string, tag: string)
    requires WorldInv(sha, w) && FreezeStep(sha, w, w', name, tag)
    ensures WorldInv(sha, w')
  {
    hide Under, StoreOk, ImageOk, SessionOk, Grows, LiveSession.Bytes, LiveSession.Ok, ContentId, SealFile, Hashed, Maps;
    var c := ChainUnder(sha, w, name);
    FreezeExtends(sha, w, w', name, tag, c);
    FreezeStores(sha, w, w', name, tag, c);
    FreezeImage(sha, w, w', name, tag, c);
    FreezeSession(sha, w, w', name, tag, c);
    RestGrows(sha, w, w', name);
    SessionsGrow(sha, w, w', name);
  }

  // ---- every run ----------------------------------------------------------------------------------------------

  /** `trace` is a run of operations from no images at all. */
  ghost predicate Run(sha: seq<Byte> -> Digest, trace: seq<World>, events: seq<Event>) {
    && |trace| == |events| + 1 && trace[0] == Empty
    && forall i :: 0 <= i < |events| ==> Step(sha, trace[i], events[i], trace[i + 1])
  }

  lemma HashedGrows(sha: seq<Byte> -> Digest, w: World, e: Event, w': World)
    requires Step(sha, w, e, w')
    ensures w.hashed <= w'.hashed
  {
    hide Walked, BaseOf, AfterFreeze, LiveSession.Bytes;
  }

  lemma StepKeeps(sha: seq<Byte> -> Digest, w: World, e: Event, w': World)
    requires WorldInv(sha, w) && CollisionFree(sha, w.hashed) && Step(sha, w, e, w')
    ensures WorldInv(sha, w')
  {
    hide WorldInv, CollisionFree, CreateStep, DeriveStep, ServeStep, WriteStep, FreezeStep;
    match e
    case Create(name, gib) => CreateKeeps(sha, w, w', name, gib);
    case Derive(name, baseName, baseTag) => DeriveKeeps(sha, w, w', name, baseName, baseTag);
    case Serve(name, layers) => ServeKeeps(sha, w, w', name, layers);
    case Write(name, top) => WriteKeeps(sha, w, w', name, top);
    case Freeze(name, tag) => FreezeKeeps(sha, w, w', name, tag);
  }

  /** The invariant holds along every run that hashed no collision. */
  lemma {:induction false} EveryRun(sha: seq<Byte> -> Digest, trace: seq<World>, events: seq<Event>)
    requires Run(sha, trace, events) && CollisionFree(sha, trace[|events|].hashed)
    ensures WorldInv(sha, trace[|events|])
    decreases |events|
  {
    hide WorldInv, Step;
    if events == [] {
      assert WorldInv(sha, Empty) by { EmptyInv(sha); }
    } else {
      var n := |events| - 1;
      assert Step(sha, trace[n], events[n], trace[n + 1]);
      HashedGrows(sha, trace[n], events[n], trace[n + 1]);
      EveryRun(sha, trace[..n + 1], events[..n]);
      StepKeeps(sha, trace[n], events[n], trace[n + 1]);
    }
  }

  lemma EmptyInv(sha: seq<Byte> -> Digest)
    ensures WorldInv(sha, Empty)
  {
  }
}
