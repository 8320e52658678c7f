/** What serves show after freezes, over whole runs of image operations (image.rs).

    `FreezeThenServe` follows one freeze to any later serve of the image, `FreezeThenDerive` to any
    serve of an image derived from it. The methods at the end join the step system to `ImageRoot`.
 */
module ImageRounds {
  import opened Bytes
  import opened Blocks
  import opened Layers
  import opened Stack
  import opened Sealed
  import opened SealedLaws
  import opened Store
  import opened Images
  import opened Chains
  import opened ImageRuns

  // ---- a serve in a reachable world -----------------------------------------------------------------------

  ghost predicate Ends(sha: seq<Byte> -> Digest, hashed: set<seq<Byte>>, images: Images, id: Digest, c: seq<Record>) {
    Held(sha, hashed, images, c) && End(sha, c) == Some(id)
  }

  /** How many layers a stored layer stands on, itself included. */
  ghost function Depth(sha: seq<Byte> -> Digest, hashed: set<seq<Byte>>, images: Images, id: Digest): (n: nat)
    ensures (exists c :: Ends(sha, hashed, images, id, c)) ==> exists c :: Ends(sha, hashed, images, id, c) && n == |c|
  {
    if exists c :: Ends(sha, hashed, images, id, c) then
      var c :| Ends(sha, hashed, images, id, c); |c|
    else 0
  }

  lemma DepthOf(sha: seq<Byte> -> Digest, hashed: set<seq<Byte>>, images: Images, id: Digest, c: seq<Record>)
    requires CollisionFree(sha, hashed) && Ends(sha, hashed, images, id, c)
    ensures Depth(sha, hashed, images, id) == |c|
  {
    hide CollisionFree, LinkedAt, Record.Id, Somewhere;
    var d: seq<Record> :| Ends(sha, hashed, images, id, d) && Depth(sha, hashed, images, id) == |d|;
    assert Ends(sha, hashed, images, id, d);
    ChainUnique(sha, hashed, c, d);
  }

  /** The stores of a reachable world have no cycles, so the walk terminates. */
  lemma WalkTerminates(sha: seq<Byte> -> Digest, w: World)
    requires WorldInv(sha, w) && CollisionFree(sha, w.hashed)
    ensures Ranked(w.images, id => Depth(sha, w.hashed, w.images, id))
  {
    hide WorldInv, CollisionFree, Opens, Depth;
    forall id, layer: ImmutableLayer | Opens(w.images, id, layer) && FirstParent(layer).Some?
      ensures Depth(sha, w.hashed, w.images, FirstParent(layer).value) < Depth(sha, w.hashed, w.images, id)
    {
      ParentLower(sha, w, id, layer);
    }
  }

  lemma ParentLower(sha: seq<Byte> -> Digest, w: World, id: Digest, layer: ImmutableLayer)
    requires WorldInv(sha, w) && CollisionFree(sha, w.hashed) && Opens(w.images, id, layer) && FirstParent(layer).Some?
    ensures Depth(sha, w.hashed, w.images, FirstParent(layer).value) < Depth(sha, w.hashed, w.images, id)
  {
    hide WorldInv, CollisionFree, OpenSpec, Linked, Record.Id, Record.File, Record.Layer, Depth;
    var name :| name in w.images && id in w.images[name].files && OpenSpec(w.images[name].files[id]) == Success(layer);
    Stores(sha, w);
    assert FiledAs(sha, w.hashed, w.images, name, id);
    var c: seq<Record> :| c != [] && Held(sha, w.hashed, w.images, c) && End(sha, c) == Some(id)
                          && w.images[name].files[id] == c[|c| - 1].File(sha);
    OpensTop(sha, w.hashed, w.images, c, name);
    LayerGeometry(sha, c[|c| - 1]);
    LinkedInit(sha, w.hashed, c);
    HeldInit(sha, w.hashed, w.images, c);
    DepthOf(sha, w.hashed, w.images, id, c);
    DepthOf(sha, w.hashed, w.images, FirstParent(layer).value, c[..|c| - 1]);
  }

  /** In every reachable world a serve of any image meets only layers that are there, open and share
      one geometry; it reaches the bottom; and without a parent it shows zeroes. */
  lemma NextServe(sha: seq<Byte> -> Digest, w: World, name: string)
    requires WorldInv(sha, w) && CollisionFree(sha, w.hashed) && name in w.images
    ensures Servable(w.images, name)
    ensures exists layers: seq<ImmutableLayer> :: Walked(w.images, w.images[name].scratch.value.parent, layers, None)
    ensures forall layers: seq<ImmutableLayer> :: Walked(w.images, w.images[name].scratch.value.parent, layers, None) ==>
              Stacked(w.images[name].scratch.value, layers)
  {
    hide WorldInv, CollisionFree, StoreOk, Walked, Held, LayersOf, Stacked, Geometry.Valid;
    assert ImageOk(sha, w, w.images[name]) by { Imaged(sha, w, name); }
    var scratch := w.images[name].scratch.value;
    var c :| Under(sha, w.hashed, w.images, scratch.parent, scratch.size, c);
    Stores(sha, w);
    ChainIsWalk(sha, w.hashed, w.images, c);
    forall layers: seq<ImmutableLayer> | Walked(w.images, scratch.parent, layers, None)
      ensures Stacked(scratch, layers) && Uniform(scratch.size, layers)
    {
      ServeFinds(sha, w, scratch.parent, scratch.size, c, layers);
      StackedUnder(sha, w, scratch, c);
    }
    forall layers: seq<ImmutableLayer>, id | Walked(w.images, scratch.parent, layers, Some(id))
      ensures Whole(w.images, id)
    {
      WalkMeets(sha, w, c, layers, id);
    }
  }

  lemma Imaged(sha: seq<Byte> -> Digest, w: World, name: string)
    requires WorldInv(sha, w) && name in w.images
    ensures ImageOk(sha, w, w.images[name])
  {
  }

  // A walk part way down meets a layer that is stored, and opens wherever it is.
  lemma WalkMeets(sha: seq<Byte> -> Digest, w: World, c: seq<Record>, layers: seq<ImmutableLayer>, id: Digest)
    requires WorldInv(sha, w) && CollisionFree(sha, w.hashed) && Held(sha, w.hashed, w.images, c)
    requires Walked(w.images, End(sha, c), layers, Some(id))
    ensures Whole(w.images, id)
  {
    hide WorldInv, CollisionFree, StoreOk, Walked, LayersOf, Record.Id, Record.File, Record.Layer, OpenSpec, Somewhere, LinkedAt;
    Stores(sha, w);
    WalkFollowsChain(sha, w.hashed, w.images, c, layers, Some(id));
    var d := c[..|c| - |layers|];
    assert d[|d| - 1] == c[|d| - 1];
    LinkedPrefix(sha, w.hashed, c, |d|);
    forall name | name in w.images && id in w.images[name].files
      ensures OpenSpec(w.images[name].files[id]).Success?
    {
      OpensTop(sha, w.hashed, w.images, d, name);
    }
  }

  lemma LinkedPrefix(sha: seq<Byte> -> Digest, hashed: set<seq<Byte>>, c: seq<Record>, n: nat)
    requires Linked(sha, hashed, c) && n <= |c|
    ensures Linked(sha, hashed, c[..n])
  {
    hide Record.Ok, Record.Id;
    forall i | 0 <= i < n
      ensures LinkedAt(sha, hashed, c[..n], i)
    {
      assert LinkedAt(sha, hashed, c, i);
      assert c[..n][..i] == c[..i];
    }
  }

  /** The layers make a sound stack for this scratch. */
  ghost predicate Stacked(scratch: ScratchMeta, layers: seq<ImmutableLayer>) {
    var g := Geometry(scratch.size, DEFAULT_BLOCK_SIZE);
    && g.Valid() && SameGeometry(layers, g) && AllSized(LayerMaps(layers), g.blockSize) && Intact(layers)
    && (scratch.parent.None? ==> Flatten(g, LayerMaps(layers)) == Zeros(scratch.size))
  }

  lemma StackedUnder(sha: seq<Byte> -> Digest, w: World, scratch: ScratchMeta, c: seq<Record>)
    requires Under(sha, w.hashed, w.images, scratch.parent, scratch.size, c)
    ensures Stacked(scratch, LayersOf(sha, c))
  {
    hide Linked, LayersOf, Maps, LayerMaps, AllSized, SameGeometry, Intact, Geometry.Valid, Flatten, Record.Id;
    LayersOfMaps(sha, w.hashed, c);
    if c == [] {
      NoLayers(sha, scratch.size);
      ZeroDisk(Geometry(scratch.size, DEFAULT_BLOCK_SIZE));
      assert Maps(c) == [];
    }
  }

  lemma ZeroDisk(g: Geometry)
    requires g.Valid()
    ensures Flatten(g, []) == Zeros(g.virtualSize)
  {
  }

  /** What a serve that finds `layers` shows. */
  function Shown(scratch: ScratchMeta, layers: seq<ImmutableLayer>): seq<Byte>
    requires Geometry(scratch.size, DEFAULT_BLOCK_SIZE).Valid() && AllSized(LayerMaps(layers), DEFAULT_BLOCK_SIZE)
  {
    Flatten(Geometry(scratch.size, DEFAULT_BLOCK_SIZE), LayerMaps(layers))
  }

  /** Every serve of the image shows `bytes`. */
  ghost predicate AlwaysShows(w: World, name: string, bytes: seq<Byte>)
    requires name in w.images && w.images[name].scratch.Some?
  {
    forall layers: seq<ImmutableLayer> :: Walked(w.images, w.images[name].scratch.value.parent, layers, None) ==>
      Stacked(w.images[name].scratch.value, layers) && Shown(w.images[name].scratch.value, layers) == bytes
  }

  // An image whose parent ends a stored chain always shows that chain.
  lemma ShowsItsChain(sha: seq<Byte> -> Digest, w: World, name: string, c: seq<Record>, bytes: seq<Byte>)
    requires WorldInv(sha, w) && CollisionFree(sha, w.hashed) && name in w.images && c != []
    requires Held(sha, w.hashed, w.images, c) && End(sha, c) == w.images[name].ScratchParent()
    ensures w.images[name].scratch.Some?
    ensures AlwaysShows(w, name, bytes) <==> Depicts(c, bytes)
  {
    hide WorldInv, CollisionFree, StoreOk, Walked, Linked, LayersOf, Maps, LayerMaps, AllSized, Stacked, Geometry.Valid, Flatten;
    assert ImageOk(sha, w, w.images[name]) by { Imaged(sha, w, name); }
    var scratch := w.images[name].scratch.value;
    var d :| Under(sha, w.hashed, w.images, scratch.parent, scratch.size, d);
    ChainUnique(sha, w.hashed, c, d);
    Stores(sha, w);
    ChainIsWalk(sha, w.hashed, w.images, c);
    forall layers: seq<ImmutableLayer> | Walked(w.images, scratch.parent, layers, None)
      ensures Stacked(scratch, layers) && LayerMaps(layers) == Maps(c) && AllSized(Maps(c), DEFAULT_BLOCK_SIZE)
    {
      ServeFinds(sha, w, scratch.parent, scratch.size, c, layers);
      StackedUnder(sha, w, scratch, c);
    }
    assert Walked(w.images, scratch.parent, LayersOf(sha, c), None);
  }

  // ---- along a run ---------------------------------------------------------------------------------------------

  lemma StepGrows(sha: seq<Byte> -> Digest, w: World, e: Event, w': World)
    requires Step(sha, w, e, w')
    ensures Grows(w, w')
  {
    hide Walked, BaseOf, Uniform, InDisk, Hashed, SealFile, ContentId, LiveSession.Ok, SizeOf, Retain, LayerByTag, LayerMaps;
  }

  lemma GrowsTrans(u: World, v: World, w: World)
    requires Grows(u, v) && Grows(v, w)
    ensures Grows(u, w)
  {
  }

  lemma {:induction false} GrowsAlong(sha: seq<Byte> -> Digest, trace: seq<World>, events: seq<Event>, i: nat, j: nat)
    requires Run(sha, trace, events) && i <= j <= |events|
    ensures Grows(trace[i], trace[j])
    decreases j
  {
    hide Step, Grows;
    if i == j {
      assert Grows(trace[i], trace[j]) by { GrowsSelf(trace[i]); }
    } else {
      GrowsAlong(sha, trace, events, i, j - 1);
      StepGrows(sha, trace[j - 1], events[j - 1], trace[j]);
      GrowsTrans(trace[i], trace[j - 1], trace[j]);
    }
  }

  lemma GrowsSelf(w: World)
    ensures Grows(w, w)
  {
  }

  // Every world of a run without collisions satisfies the invariant.
  lemma InvAt(sha: seq<Byte> -> Digest, trace: seq<World>, events: seq<Event>, j: nat)
    requires Run(sha, trace, events) && CollisionFree(sha, trace[|events|].hashed) && j <= |events|
    ensures WorldInv(sha, trace[j]) && CollisionFree(sha, trace[j].hashed)
  {
    hide Step, WorldInv;
    GrowsAlong(sha, trace, events, j, |events|);
    var t, e := trace[..j + 1], events[..j];
    EveryRun(sha, t, e);
  }

  predicate FreezeOf(e: Event, name: string) { e.Freeze? && e.name == name }

  /** No event from `i` up to `j` freezes the image. */
  predicate NotFrozen(events: seq<Event>, name: string, i: nat, j: nat)
    requires j <= |events|
  {
    forall m :: i <= m < j ==> !FreezeOf(events[m], name)
  }

  // Only a freeze of the image changes it.
  lemma ImageStays(sha: seq<Byte> -> Digest, w: World, e: Event, w': World, name: string)
    requires Step(sha, w, e, w') && name in w.images && !FreezeOf(e, name)
    ensures name in w'.images && w'.images[name] == w.images[name]
  {
    hide Walked, BaseOf, Uniform, InDisk, Hashed, SealFile, ContentId, LiveSession.Ok, SizeOf, Retain, LayerByTag, LayerMaps;
  }

  lemma {:induction false} ImageKept(sha: seq<Byte> -> Digest, trace: seq<World>, events: seq<Event>, name: string, i: nat, j: nat)
    requires Run(sha, trace, events) && i <= j <= |events| && name in trace[i].images && NotFrozen(events, name, i, j)
    ensures name in trace[j].images && trace[j].images[name] == trace[i].images[name]
    decreases j
  {
    hide Step;
    if i < j {
      ImageKept(sha, trace, events, name, i, j - 1);
      ImageStays(sha, trace[j - 1], events[j - 1], trace[j], name);
    }
  }

  // A session that was just served has nothing frozen, until it is frozen.
  lemma {:induction false} NothingFrozenYet(sha: seq<Byte> -> Digest, trace: seq<World>, events: seq<Event>, name: string, k: nat, i: nat)
    requires Run(sha, trace, events) && k < i <= |events| && events[k].Serve? && events[k].name == name
    requires NotFrozen(events, name, k + 1, i)
    ensures name in trace[i].sessions && trace[i].sessions[name].frozen == []
    decreases i
  {
    hide Step;
    if k + 1 < i { NothingFrozenYet(sha, trace, events, name, k, i - 1); }
    SessionStays(sha, trace[i - 1], events[i - 1], trace[i], name);
  }

  lemma SessionStays(sha: seq<Byte> -> Digest, w: World, e: Event, w': World, name: string)
    requires Step(sha, w, e, w') && !FreezeOf(e, name)
    requires (e.Serve? && e.name == name) || (name in w.sessions && w.sessions[name].frozen == [])
    ensures name in w'.sessions && w'.sessions[name].frozen == []
  {
    hide Walked, BaseOf, Uniform, InDisk, Hashed, SealFile, ContentId, LiveSession.Ok, SizeOf, Retain, LayerByTag, LayerMaps;
  }

  // ---- one freeze, followed to any later serve ---------------------------------------------------------------------

  // The chain a freeze leaves, in every later world of the run.
  lemma FrozenChain(sha: seq<Byte> -> Digest, trace: seq<World>, events: seq<Event>, name: string, tag: string, i: nat, j: nat)
    returns (c: seq<Record>)
    requires Run(sha, trace, events) && CollisionFree(sha, trace[|events|].hashed)
    requires i < j <= |events| && events[i] == Freeze(name, tag)
    ensures name in trace[i].sessions && trace[i].sessions[name].Ok()
    ensures name in trace[i + 1].images && c != [] && Held(sha, trace[j].hashed, trace[j].images, c)
    ensures trace[i + 1].images[name].ScratchParent() == End(sha, c)
    ensures Depicts(c, trace[i].sessions[name].Bytes()) <==> trace[i].sessions[name].Faithful()
  {
    hide WorldInv, CollisionFree, Held, Depicts, LiveSession.Faithful, LiveSession.Bytes, LiveSession.Ok, Grows, FreezeStep, End;
    InvAt(sha, trace, events, i);
    assert Step(sha, trace[i], events[i], trace[i + 1]);
    c := FreezeLeaves(sha, trace[i], trace[i + 1], name, tag);
    GrowsAlong(sha, trace, events, i + 1, j);
    HeldGrows(sha, trace[i + 1], trace[j], c);
  }

  // The chain a freeze leaves under the image.
  lemma FreezeLeaves(sha: seq<Byte> -> Digest, w: World, w': World, name: string, tag: string) returns (c: seq<Record>)
    requires WorldInv(sha, w) && FreezeStep(sha, w, w', name, tag)
    ensures name in w.sessions && w.sessions[name].Ok() && name in w'.images
    ensures c != [] && Held(sha, w'.hashed, w'.images, c) && w'.images[name].ScratchParent() == End(sha, c)
    ensures Depicts(c, w.sessions[name].Bytes()) <==> w.sessions[name].Faithful()
  {
    hide WorldInv, Held, Depicts, LiveSession.Faithful, LiveSession.Bytes, LiveSession.Ok, Maps, Grows, FreezeStep;
    hide End, Geometry.Valid;
    FrozenBy(sha, w, w', name, tag);
    var base := ChainUnder(sha, w, name);
    FreezeExtends(sha, w, w', name, tag, base);
    FreezeShowsIff(sha, w, name, base);
    c := base + [FreezeRecord(w, name)];
  }

  lemma FrozenBy(sha: seq<Byte> -> Digest, w: World, w': World, name: string, tag: string)
    requires FreezeStep(sha, w, w', name, tag)
    ensures name in w.images && name in w.sessions && name in w'.images && w.sessions[name].Ok()
    ensures w'.images[name].ScratchParent() == Some(FreezeRecord(w, name).Id(sha))
    ensures LayerByTag(w'.images[name].layers, tag).Some?
    ensures LayerByTag(w'.images[name].layers, tag).value.id == FreezeRecord(w, name).Id(sha)
  {
    hide ContentId, SealFile, Hashed, Retain, LayerByTag;
    var img, r := w.images[name], FreezeRecord(w, name);
    NewestTag(img.layers, LayerMeta(r.Id(sha), tag, img.ScratchParent(), |r.File(sha)|));
  }

  /** Freeze, then serve. Let event `i` freeze the image and no event after it, up to world `j`, freeze
      it again. Then the image can be served in world `j`, and every serve shows exactly the bytes the
      frozen session showed in world `i` — if and only if no block of that session resurfaces. */
  lemma FreezeThenServe(sha: seq<Byte> -> Digest, trace: seq<World>, events: seq<Event>, name: string, tag: string, i: nat, j: nat)
    requires Run(sha, trace, events) && CollisionFree(sha, trace[|events|].hashed)
    requires i < j <= |events| && events[i] == Freeze(name, tag) && NotFrozen(events, name, i + 1, j)
    ensures name in trace[i].sessions && trace[i].sessions[name].Ok()
    ensures name in trace[j].images && trace[j].images[name].scratch.Some? && Servable(trace[j].images, name)
    ensures AlwaysShows(trace[j], name, trace[i].sessions[name].Bytes()) <==> trace[i].sessions[name].Faithful()
  {
    hide WorldInv, CollisionFree, Held, Depicts, LiveSession.Faithful, LiveSession.Bytes, LiveSession.Ok, AlwaysShows;
    hide Step, Servable;
    var c := FrozenChain(sha, trace, events, name, tag, i, j);
    InvAt(sha, trace, events, j);
    ImageKept(sha, trace, events, name, i + 1, j);
    NextServe(sha, trace[j], name);
    ShowsItsChain(sha, trace[j], name, c, trace[i].sessions[name].Bytes());
  }

  /** Serve, write, freeze, serve: the first freeze after a serve always keeps the bytes, through any
      number of other operations before, between and after. */
  lemma RoundTrip(sha: seq<Byte> -> Digest, trace: seq<World>, events: seq<Event>, name: string, tag: string, k: nat, i: nat, j: nat)
    requires Run(sha, trace, events) && CollisionFree(sha, trace[|events|].hashed)
    requires k < i < j <= |events| && events[k].Serve? && events[k].name == name && events[i] == Freeze(name, tag)
    requires NotFrozen(events, name, k + 1, i) && NotFrozen(events, name, i + 1, j)
    ensures name in trace[i].sessions && trace[i].sessions[name].Ok()
    ensures name in trace[j].images && trace[j].images[name].scratch.Some? && Servable(trace[j].images, name)
    ensures AlwaysShows(trace[j], name, trace[i].sessions[name].Bytes())
  {
    hide LiveSession.Bytes, LiveSession.Ok, AlwaysShows, Step, Servable, CollisionFree;
    FreezeThenServe(sha, trace, events, name, tag, i, j);
    NothingFrozenYet(sha, trace, events, name, k, i);
  }

  // ---- derived images -------------------------------------------------------------------------------------------------

  lemma TagStays(sha: seq<Byte> -> Digest, w: World, e: Event, w': World, name: string, tag: string)
    requires Step(sha, w, e, w') && name in w.images && e != Freeze(name, tag)
    ensures name in w'.images && LayerByTag(w'.images[name].layers, tag) == LayerByTag(w.images[name].layers, tag)
  {
    hide Walked, BaseOf, Uniform, InDisk, Hashed, SealFile, ContentId, LiveSession.Ok, SizeOf, Retain, LayerByTag, LayerMaps;
    if FreezeOf(e, name) {
      var img, r := w.images[name], FreezeRecord(w, name);
      OtherTag(img.layers, LayerMeta(r.Id(sha), e.tag, img.ScratchParent(), |r.File(sha)|), tag);
    } else {
      ImageStays(sha, w, e, w', name);
    }
  }

  lemma {:induction false} TagKept(sha: seq<Byte> -> Digest, trace: seq<World>, events: seq<Event>, name: string, tag: string, i: nat, d: nat)
    requires Run(sha, trace, events) && i <= d <= |events| && name in trace[i].images
    requires forall m :: i <= m < d ==> events[m] != Freeze(name, tag)
    ensures name in trace[d].images && LayerByTag(trace[d].images[name].layers, tag) == LayerByTag(trace[i].images[name].layers, tag)
    decreases d
  {
    hide Step, LayerByTag;
    if i < d {
      TagKept(sha, trace, events, name, tag, i, d - 1);
      TagStays(sha, trace[d - 1], events[d - 1], trace[d], name, tag);
    }
  }

  // The derived image stands on the layer that was frozen.
  lemma DerivedOnto(sha: seq<Byte> -> Digest, trace: seq<World>, events: seq<Event>,
                    base: string, tag: string, name: string, i: nat, d: nat)
    requires Run(sha, trace, events) && i < d < |events|
    requires events[i] == Freeze(base, tag) && events[d] == Derive(name, base, tag)
    requires forall m :: i < m < d ==> events[m] != Freeze(base, tag)
    ensures base in trace[i + 1].images && name in trace[d + 1].images
    ensures trace[d + 1].images[name].ScratchParent() == trace[i + 1].images[base].ScratchParent()
  {
    hide LayerByTag, FreezeStep, BaseOf, LiveSession.Ok;
    assert Step(sha, trace[i], events[i], trace[i + 1]);
    FrozenBy(sha, trace[i], trace[i + 1], base, tag);
    TagKept(sha, trace, events, base, tag, i + 1, d);
    assert Step(sha, trace[d], events[d], trace[d + 1]);
  }

  /** Freeze, derive, serve. Let event `i` freeze `base:tag`, event `d` derive `name` from `base:tag` before
      the tag is frozen again, and nothing freeze `name` up to world `j`. Then every serve of `name` in world
      `j` shows exactly the bytes of the session frozen in world `i`, under the same condition. */
  lemma FreezeThenDerive(sha: seq<Byte> -> Digest, trace: seq<World>, events: seq<Event>,
                         base: string, tag: string, name: string, i: nat, d: nat, j: nat)
    requires Run(sha, trace, events) && CollisionFree(sha, trace[|events|].hashed)
    requires i < d < j <= |events| && events[i] == Freeze(base, tag) && events[d] == Derive(name, base, tag)
    requires (forall m :: i < m < d ==> events[m] != Freeze(base, tag)) && NotFrozen(events, name, d + 1, j)
    ensures base in trace[i].sessions && trace[i].sessions[base].Ok()
    ensures name in trace[j].images && trace[j].images[name].scratch.Some? && Servable(trace[j].images, name)
    ensures AlwaysShows(trace[j], name, trace[i].sessions[base].Bytes()) <==> trace[i].sessions[base].Faithful()
  {
    hide WorldInv, CollisionFree, Held, Depicts, LiveSession.Faithful, LiveSession.Bytes, LiveSession.Ok, AlwaysShows, Servable;
    hide Step;
    var c := FrozenChain(sha, trace, events, base, tag, i, j);
    DerivedOnto(sha, trace, events, base, tag, name, i, d);
    InvAt(sha, trace, events, j);
    ImageKept(sha, trace, events, name, d + 1, j);
    NextServe(sha, trace[j], name);
    ShowsItsChain(sha, trace[j], name, c, trace[i].sessions[base].Bytes());
  }

  /** The same when that freeze is the first of its session. */
  lemma DerivedRoundTrip(sha: seq<Byte> -> Digest, trace: seq<World>, events: seq<Event>,
                         base: string, tag: string, name: string, k: nat, i: nat, d: nat, j: nat)
    requires Run(sha, trace, events) && CollisionFree(sha, trace[|events|].hashed)
    requires k < i < d < j <= |events| && events[k].Serve? && events[k].name == base
    requires events[i] == Freeze(base, tag) && events[d] == Derive(name, base, tag) && NotFrozen(events, base, k + 1, i)
    requires (forall m :: i < m < d ==> events[m] != Freeze(base, tag)) && NotFrozen(events, name, d + 1, j)
    ensures base in trace[i].sessions && trace[i].sessions[base].Ok()
    ensures name in trace[j].images && trace[j].images[name].scratch.Some? && Servable(trace[j].images, name)
    ensures AlwaysShows(trace[j], name, trace[i].sessions[base].Bytes())
  {
    hide LiveSession.Bytes, LiveSession.Ok, AlwaysShows, Step, Servable, CollisionFree;
    FreezeThenDerive(sha, trace, events, base, tag, name, i, d, j);
    NothingFrozenYet(sha, trace, events, base, k, i);
  }

  // ---- freezing one session twice ----------------------------------------------------------------------------------------

  /** Freezing a session and then trimming a block it had written, where the layers below differ, makes
      that block resurface at the next freeze. */
  lemma TrimResurfaces(s: LiveSession, b: nat)
    requires s.Ok() && b in s.top && s.top[b] != Resolve(s.lower, b, s.g.blockSize)
    ensures var s' := s.(frozen := s.frozen + [s.top], top := s.top - {b});
            s'.Ok() && s'.Resurfaces(b) && !s'.Faithful()
  {
    hide Resolve, Geometry.Valid, Geometry.BlockCount;
    var s' := s.(frozen := s.frozen + [s.top], top := s.top - {b});
    SizedSnoc(s.frozen, s.top, s.g);
    assert (s.frozen + [s.top])[|s.frozen|] == s.top;
    assert s'.Resurfaces(b);
  }

  /** The shortest such run: write a block, freeze, trim it, freeze again. The session reads zeroes there,
      but the next serve does not. */
  lemma RefreezeExample(sha: seq<Byte> -> Digest) returns (trace: seq<World>, events: seq<Event>)
    ensures Run(sha, trace, events) && |events| == 6
    ensures CollisionFree(sha, trace[6].hashed) ==>
              && "a" in trace[5].sessions && trace[5].sessions["a"].Ok()
              && "a" in trace[6].images && trace[6].images["a"].scratch.Some?
              && !AlwaysShows(trace[6], "a", trace[5].sessions["a"].Bytes())
  {
    hide Step, FreezeStep, WriteStep, Resolve, Frozen, LiveSession.Ok, LiveSession.Bytes, LiveSession.Faithful;
    hide AlwaysShows, FreshImage;
    var top: BlockMap := map[0 := [1] + Zeros(DEFAULT_BLOCK_SIZE - 1)];
    var w3 := ExampleWorld(top);
    var first := [Empty, Empty.(images := w3.images), ExampleWorld(map[]), w3];
    var begin := [Create("a", Some(1)), Serve("a", []), Write("a", top)];
    var w4, w5, w6 := ExampleFreezes(sha, top);
    trace := first + [w4, w5, w6];
    events := begin + [Freeze("a", "x"), Write("a", map[]), Freeze("a", "y")];
    ExampleBegins(sha, top);
    if CollisionFree(sha, w6.hashed) {
      FreezeThenServe(sha, trace, events, "a", "y", 5, 6);
    }
  }

  /** One blank image of 1 GiB with a session that holds `top`. */
  function ExampleWorld(top: BlockMap): World {
    World(map["a" := FreshImage(SizeOf(Some(1)), None)],
          map["a" := LiveSession(Geometry(GIB, DEFAULT_BLOCK_SIZE), [], [], top)], {})
  }

  lemma ExampleBegins(sha: seq<Byte> -> Digest, top: BlockMap)
    requires top.Keys == {0} && Sized(top, DEFAULT_BLOCK_SIZE)
    ensures var w3 := ExampleWorld(top);
            Run(sha, [Empty, Empty.(images := w3.images), ExampleWorld(map[]), w3],
                [Create("a", Some(1)), Serve("a", []), Write("a", top)])
  {
    hide FreezeStep, DeriveStep, Walked, SizeOf;
    var w1 := Empty.(images := ExampleWorld(top).images);
    FirstBlock(Geometry(GIB, DEFAULT_BLOCK_SIZE));
    Standing(w1.images, None);
    OneGib();
    assert CreateStep(Empty, w1, "a", Some(1));
    assert ServeStep(w1, ExampleWorld(map[]), "a", []);
    assert WriteStep(ExampleWorld(map[]), ExampleWorld(top), "a", top);
  }

  lemma OneGib()
    ensures SizeOf(Some(1)) == GIB
  {
  }

  /** Any session that froze a block differing from the layers below may trim it and freeze again. */
  lemma TrimAndRefreeze(sha: seq<Byte> -> Digest, w: World, name: string, b: nat) returns (w1: World, w2: World, w3: World)
    requires name in w.images && name in w.sessions && w.sessions[name].Ok()
    requires b in w.sessions[name].top && w.sessions[name].top[b] != Resolve(w.sessions[name].lower, b, w.sessions[name].g.blockSize)
    ensures Step(sha, w, Freeze(name, "x"), w1)
    ensures Step(sha, w1, Write(name, w.sessions[name].top - {b}), w2) && Step(sha, w2, Freeze(name, "y"), w3)
    ensures name in w2.sessions && w2.sessions[name].Ok() && !w2.sessions[name].Faithful()
  {
    hide AfterFreeze, Hashed, FreezeId, CreateStep, DeriveStep, ServeStep, LiveSession.Faithful, Resolve, Geometry.BlockCount;
    var s := w.sessions[name];
    w1 := Frozen(sha, w, name, "x");
    w2 := w1.(sessions := w1.sessions[name := w1.sessions[name].(top := s.top - {b})]);
    TrimResurfaces(s, b);
    w3 := Frozen(sha, w2, name, "y");
  }

  lemma ExampleFreezes(sha: seq<Byte> -> Digest, top: BlockMap) returns (w4: World, w5: World, w6: World)
    requires top.Keys == {0} && Sized(top, DEFAULT_BLOCK_SIZE) && top[0][0] == 1
    ensures Step(sha, ExampleWorld(top), Freeze("a", "x"), w4)
    ensures Step(sha, w4, Write("a", map[]), w5) && Step(sha, w5, Freeze("a", "y"), w6)
    ensures "a" in w5.sessions && w5.sessions["a"].Ok() && !w5.sessions["a"].Faithful()
  {
    hide Step, SizeOf, LiveSession.Faithful, Resolve, Geometry.BlockCount;
    FirstBlock(Geometry(GIB, DEFAULT_BLOCK_SIZE));
    BlankBlock(0);
    assert top - {0} == map[];
    w4, w5, w6 := TrimAndRefreeze(sha, ExampleWorld(top), "a", 0);
  }

  lemma FirstBlock(g: Geometry)
    requires g == Geometry(GIB, DEFAULT_BLOCK_SIZE)
    ensures g.Valid() && 0 < g.BlockCount()
  {
  }

  lemma BlankBlock(b: nat)
    ensures Resolve([], b, DEFAULT_BLOCK_SIZE) == Zeros(DEFAULT_BLOCK_SIZE)
  {
  }

  // ---- the steps are the methods ---------------------------------------------------------------------------------------------

  /** Creating an image is the create step, or changes nothing. */
  method CreateReachable(root: ImageRoot, name: string, gib: Option<nat>, ghost w: World) returns (error: Option<ImageError>)
    requires root.images == w.images
    modifies root
    ensures if error.None? then CreateStep(w, w.(images := root.images), name, gib) else root.images == w.images
  {
    hide SizeOf;
    error := root.Create(name, gib);
  }

  /** Deriving an image is the derive step, or changes nothing. */
  method DeriveReachable(root: ImageRoot, name: string, baseName: string, baseTag: string, ghost w: World) returns (error: Option<ImageError>)
    requires root.images == w.images
    modifies root
    ensures if error.None? then DeriveStep(w, w.(images := root.images), name, baseName, baseTag) else root.images == w.images
  {
    hide OpenSpec, LayerByTag;
    error := root.CreateFrom(name, baseName, baseTag);
    if error.None? { OpenedValid(w.images[baseName].files[LayerByTag(w.images[baseName].layers, baseTag).value.id]); }
  }

  /** Serving an image of a reachable world always succeeds, is the serve step, and the disk shows what
      every serve of the image shows. */
  method ServeReachable(root: ImageRoot, name: string, ghost sha: seq<Byte> -> Digest, ghost w: World) returns (disk: LayeredDisk?)
    requires WorldInv(sha, w) && CollisionFree(sha, w.hashed) && root.images == w.images && name in w.images
    ensures w.images[name].scratch.Some?
    ensures disk != null && disk.Valid() && disk.Dependable() && disk.scratch.Contents() == map[]
    ensures ServeStep(w, w.(sessions := w.sessions[name := LiveSession(disk.geometry, LayerMaps(disk.lower), [], map[])]), name, disk.lower)
    ensures forall bytes :: AlwaysShows(w, name, bytes) ==> disk.view == bytes
  {
    hide WorldInv, CollisionFree, Walked, Ranked, Depth, Servable, Stacked, SameGeometry, LayeredDisk.Valid;
    hide LayeredDisk.Dependable, LayerMaps, Shown;
    WalkTerminates(sha, w);
    NextServe(sha, w, name);
    var error;
    disk, error := root.ServeScratch(name, Reliable, id => Depth(sha, w.hashed, w.images, id));
    assert Walked(w.images, w.images[name].scratch.value.parent, disk.lower, None);
    StackedDisk(w.images[name].scratch.value, disk);
  }

  lemma StackedDisk(scratch: ScratchMeta, disk: LayeredDisk)
    requires Stacked(scratch, disk.lower) && disk.Valid() && disk.view == disk.base && disk.scratch.media == Reliable
    requires disk.geometry == if disk.lower == [] then Geometry(scratch.size, DEFAULT_BLOCK_SIZE) else disk.lower[0].geometry
    ensures disk.Dependable() && disk.view == Shown(scratch, disk.lower) && Uniform(scratch.size, disk.lower)
  {
    hide LayerMaps, Flatten, Intact, ScratchLayer.Valid, AllSized;
  }

  /** Freezing the live disk of an image's session is the freeze step, or changes nothing. Unless the medium
      fails it succeeds for every legal tag. */
  method FreezeReachable(root: ImageRoot, name: string, disk: LayeredDisk, tag: string, sha: seq<Byte> -> Digest, dest: Media, ghost w: World)
    returns (id: Option<Digest>)
    requires WorldInv(sha, w) && root.images == w.images && name in w.sessions && disk.Framed()
    requires disk.geometry == w.sessions[name].g && disk.scratch.Readout() == w.sessions[name].top
    requires LayerMaps(disk.lower) == w.sessions[name].lower
    modifies root
    ensures w.sessions[name].Ok() && (disk.Sound() ==> disk.view == w.sessions[name].Bytes())
    ensures id.Some? ==> FreezeTag(tag)
    ensures FreezeTag(tag) && disk.scratch.media != MayFail && dest == Reliable && disk.scratch.Whole() ==> id.Some?
    ensures id.Some? ==> name in w.images && FreezeStep(sha, w, Frozen(sha, w, name, tag), name, tag) && root.images == Frozen(sha, w, name, tag).images
    ensures id.None? ==> root.images == w.images
  {
    hide WorldInv, ContentId, SealFile, Hashed, IndexFits, LayerMaps, Flatten;
    ghost var c := ChainUnder(sha, w, name);
    if disk.Sound() { disk.scratch.Solid(); }
    DefaultFits(disk.geometry);
    var error;
    id, error := root.AutoFreeze(name, disk, tag, sha, dest);
  }
}
