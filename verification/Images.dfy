/** Named images (image.rs): a scratch over a chain of sealed layers, frozen and re-served.

    An image holds its metadata and its own layer store; a scratch's parent may live in any
    image's store. `Lower` walks a parent chain across the stores; `AutoFreeze` seals the live
    scratch and rolls a new one on top.
 */
module Images {
  import opened Bytes
  import opened Blocks
  import opened Layers
  import opened Stack
  import opened Sealed
  import opened SealedLaws
  import opened Store

  const SCRATCH_TAG: string := "scratch"
  const GIB: nat := 1024 * 1024 * 1024
  const DEFAULT_BLOCK_SIZE: nat := 65536

  type Size = n: nat | n < U64

  datatype ScratchMeta = ScratchMeta(size: Size, parent: Option<Digest>)

  datatype LayerMeta = LayerMeta(id: Digest, tag: string, parent: Option<Digest>, size: nat)

  datatype Image = Image(scratch: Option<ScratchMeta>, layers: seq<LayerMeta>, files: Files) {
    function ScratchParent(): Option<Digest> {
      if scratch.Some? then scratch.value.parent else None
    }
  }

  type Images = map<string, Image>

  datatype ImageError =
    | AlreadyExists | NoSuchImage | NoScratch | NotFrozen | BadTag | SizeNotAligned | MixedGeometry
    | LayerMissing | Unreadable(cause: LayerError)

  // ---- metadata ------------------------------------------------------------------------------------

  /** The first layer with this tag. */
  function LayerByTag(layers: seq<LayerMeta>, tag: string): (r: Option<LayerMeta>)
    ensures r.Some? ==> r.value in layers && r.value.tag == tag
    ensures r.None? ==> forall l :: l in layers ==> l.tag != tag
  {
    if layers == [] then None
    else if layers[0].tag == tag then Some(layers[0])
    else LayerByTag(layers[1..], tag)
  }

  lemma {:induction false} FirstOfTag(layers: seq<LayerMeta>, i: nat)
    requires i < |layers| && forall j :: 0 <= j < i ==> layers[j].tag != layers[i].tag
    ensures LayerByTag(layers, layers[i].tag) == Some(layers[i])
    decreases |layers|
  {
    if i > 0 {
      assert layers[0].tag != layers[i].tag;
      FirstOfTag(layers[1..], i - 1);
    }
  }

  /** The layers that do not have this tag, in order. */
  function Retain(layers: seq<LayerMeta>, tag: string): (r: seq<LayerMeta>)
    ensures forall l :: l in r <==> l in layers && l.tag != tag
  {
    if layers == [] then []
    else if layers[0].tag == tag then Retain(layers[1..], tag)
    else [layers[0]] + Retain(layers[1..], tag)
  }

  /** A layer recorded over its tag is the one the tag finds from then on. */
  lemma {:induction false} NewestTag(layers: seq<LayerMeta>, l: LayerMeta)
    ensures LayerByTag(Retain(layers, l.tag) + [l], l.tag) == Some(l)
    decreases |layers|
  {
    if layers == [] {
      assert Retain(layers, l.tag) + [l] == [l];
    } else {
      NewestTag(layers[1..], l);
      if layers[0].tag != l.tag {
        assert (Retain(layers, l.tag) + [l])[1..] == Retain(layers[1..], l.tag) + [l];
      }
    }
  }

  /** Recording a layer does not change what any other tag finds. */
  lemma {:induction false} OtherTag(layers: seq<LayerMeta>, l: LayerMeta, tag: string)
    requires tag != l.tag
    ensures LayerByTag(Retain(layers, l.tag) + [l], tag) == LayerByTag(layers, tag)
    decreases |layers|
  {
    if layers == [] {
      assert Retain(layers, l.tag) + [l] == [l] && [l][1..] == [];
    } else {
      OtherTag(layers[1..], l, tag);
      if layers[0].tag != l.tag {
        assert (Retain(layers, l.tag) + [l])[1..] == Retain(layers[1..], l.tag) + [l];
      }
    }
  }

  predicate FreezeTag(tag: string) {
    tag != "" && ':' !in tag && tag != SCRATCH_TAG
  }

  /** Every tag may be frozen to but the empty one, the reserved "scratch", and those with a colon in them. */
  lemma TagMeans(tag: string)
    ensures FreezeTag(tag) <==> !(tag == "" || tag == "scratch" || exists a: string, b: string :: tag == a + ":" + b)
  {
    if ':' in tag {
      var i :| 0 <= i < |tag| && tag[i] == ':';
      assert tag == tag[..i] + ":" + tag[i + 1..];
    }
    forall a: string, b: string | tag == a + ":" + b
      ensures ':' in tag
    {
      assert tag[|a|] == ':';
    }
  }

  /** Split a `name:tag` reference at its first colon; both parts must be there. */
  function ParseImageRef(s: string): (r: Option<(string, string)>) {
    var i := FirstColon(s);
    if i == 0 || i + 1 >= |s| then None else Some((s[..i], s[i + 1..]))
  }

  function FirstColon(s: string): (i: nat)
    ensures i <= |s|
  {
    if s == "" || s[0] == ':' then 0 else 1 + FirstColon(s[1..])
  }

  lemma {:induction false} FirstColonAt(name: string, rest: string)
    requires ':' !in name
    ensures FirstColon(name + ":" + rest) == |name| && FirstColon(name) == |name|
    decreases |name|
  {
    var s := name + ":" + rest;
    if name != "" {
      assert s[1..] == name[1..] + ":" + rest;
      FirstColonAt(name[1..], rest);
    }
  }

  /** A reference names an image and a tag exactly when it is a non-empty name without a colon, a colon and a
      non-empty tag; so every tag that can be frozen to can be referred to. */
  lemma RefMeans(s: string, name: string, tag: string)
    ensures ParseImageRef(s) == Some((name, tag)) <==> s == name + ":" + tag && name != "" && ':' !in name && tag != ""
  {
    if s == name + ":" + tag && name != "" && ':' !in name && tag != "" {
      FirstColonAt(name, tag);
      assert s[..|name|] == name && s[|name| + 1..] == tag;
    }
    if ParseImageRef(s) == Some((name, tag)) {
      NoneBefore(s);
      var i := FirstColon(s);
      assert s == s[..i] + [s[i]] + s[i + 1..];
    }
  }

  lemma {:induction false} NoneBefore(s: string)
    ensures ':' !in s[..FirstColon(s)] && (FirstColon(s) < |s| ==> s[FirstColon(s)] == ':')
    decreases |s|
  {
    if s != "" && s[0] != ':' {
      NoneBefore(s[1..]);
      var i := FirstColon(s[1..]);
      assert s[..i + 1] == [s[0]] + s[1..][..i];
    }
  }

  function ParentIds(parent: Option<Digest>): (r: seq<Digest>)
    ensures |r| <= 1
  {
    if parent.Some? then [parent.value] else []
  }

  /** A fresh image: an empty scratch, no layers. */
  function FreshImage(size: Size, parent: Option<Digest>): Image {
    Image(Some(ScratchMeta(size, parent)), [], map[])
  }

  /** The image after a layer was sealed over its scratch parent, adopted, tagged and stacked. */
  function FrozenImage(img: Image, id: Digest, file: seq<Byte>, tag: string, g: Geometry): Image
    requires g.Valid()
  {
    Image(Some(ScratchMeta(g.virtualSize, Some(id))),
          Retain(img.layers, tag) + [LayerMeta(id, tag, img.ScratchParent(), |file|)],
          Stored(img.files, id, file))
  }

  // ---- walking a parent chain ------------------------------------------------------------------------

  predicate Somewhere(images: Images, id: Digest) {
    exists name :: name in images && id in images[name].files
  }

  /** Some image's store holds `layer` under `id`. */
  ghost predicate Opens(images: Images, id: Digest, layer: ImmutableLayer) {
    exists name :: name in images && id in images[name].files && OpenSpec(images[name].files[id]) == Success(layer)
  }

  function FirstParent(layer: ImmutableLayer): Option<Digest> {
    if layer.Sealed? && layer.parents != [] then Some(layer.parents[0]) else None
  }

  /** Following first-parent edges from `start` reaches `stop` through `layers` (bottom-first). */
  ghost predicate Walked(images: Images, start: Option<Digest>, layers: seq<ImmutableLayer>, stop: Option<Digest>)
    decreases |layers|
  {
    if layers == [] then start == stop
    else
      var top := layers[|layers| - 1];
      && start.Some? && Opens(images, start.value, top)
      && Walked(images, FirstParent(top), layers[..|layers| - 1], stop)
  }

  /** A walk to the bottom, layer by layer: the top layer is the one asked for, each other is the first parent
      of the one above it, and the lowest has no parent. */
  lemma {:induction false} WalkMeans(images: Images, start: Option<Digest>, layers: seq<ImmutableLayer>)
    requires Walked(images, start, layers, None)
    ensures start.None? <==> layers == []
    ensures start.Some? ==> Opens(images, start.value, layers[|layers| - 1])
    ensures forall i :: 0 < i < |layers| ==>
              layers[i].Sealed? && layers[i].parents != [] && Opens(images, layers[i].parents[0], layers[i - 1])
    ensures layers != [] && layers[0].Sealed? ==> layers[0].parents == []
    decreases |layers|
  {
    hide Opens;
    if layers != [] {
      var n := |layers| - 1;
      WalkMeans(images, FirstParent(layers[n]), layers[..n]);
    }
  }

  /** Parents sit lower than their children. Nothing else makes the walk terminate. */
  ghost predicate Ranked(images: Images, depth: Digest -> nat) {
    forall id, layer: ImmutableLayer ::
      Opens(images, id, layer) && FirstParent(layer).Some? ==> depth(FirstParent(layer).value) < depth(id)
  }

  function Reversed(s: seq<ImmutableLayer>): (r: seq<ImmutableLayer>)
    ensures |r| == |s|
  {
    if s == [] then [] else [s[|s| - 1]] + Reversed(s[..|s| - 1])
  }

  lemma {:induction false} WalkedOn(images: Images, start: Option<Digest>, upper: seq<ImmutableLayer>, mid: Digest,
                                    layer: ImmutableLayer)
    requires Walked(images, start, upper, Some(mid)) && Opens(images, mid, layer)
    ensures Walked(images, start, [layer] + upper, FirstParent(layer))
    decreases |upper|
  {
    hide Opens;
    var all := [layer] + upper;
    if upper == [] {
      assert all == [layer] && all[..0] == [];
      assert Walked(images, FirstParent(layer), [], FirstParent(layer));
    } else {
      var init := upper[..|upper| - 1];
      WalkedOn(images, FirstParent(upper[|upper| - 1]), init, mid, layer);
      assert all[..|all| - 1] == [layer] + init;
    }
  }

  /** The layers a scratch sits on, bottom-first, from whichever stores hold them. The walk stops
      at a layer that is in no store or does not open. */
  method Lower(images: Images, parent: Option<Digest>, ghost depth: Digest -> nat)
    returns (layers: seq<ImmutableLayer>, error: Option<ImageError>,
             ghost upper: seq<ImmutableLayer>, ghost stop: Option<Digest>)
    requires Ranked(images, depth)
    ensures Walked(images, parent, upper, stop)
    ensures error.None? ==> stop.None? && layers == upper
    ensures error.Some? ==> stop.Some?
    ensures error.Some? ==> error.value.LayerMissing? || error.value.Unreadable?
    ensures error == Some(LayerMissing) ==> stop.Some? && !Somewhere(images, stop.value)
    ensures error.Some? && error.value != LayerMissing ==>
              exists name :: stop.Some? && name in images && stop.value in images[name].files
                             && OpenSpec(images[name].files[stop.value]).Failure?
  {
    hide OpenSpec, Opens, Walked;
    var chain, cursor := [], parent;
    error := None;
    Standing(images, parent);
    while cursor.Some?
      invariant Walked(images, parent, Reversed(chain), cursor)
      decreases cursor.Some?, if cursor.Some? then depth(cursor.value) else 0
    {
      var id := cursor.value;
      if !Somewhere(images, id) {
        return [], Some(LayerMissing), Reversed(chain), cursor;
      }
      var name :| name in images && id in images[name].files;
      var layer := OpenSealed(images[name].files[id]);
      if layer.Failure? {
        return [], Some(Unreadable(layer.error)), Reversed(chain), cursor;
      }
      ItOpens(images, name, id, layer.value);
      WalkedOn(images, parent, Reversed(chain), id, layer.value);
      assert (chain + [layer.value])[..|chain|] == chain;
      cursor := FirstParent(layer.value);
      chain := chain + [layer.value];
    }
    layers, upper, stop := Reversed(chain), Reversed(chain), None;
  }

  lemma Standing(images: Images, start: Option<Digest>)
    ensures Walked(images, start, [], start)
  {
  }

  lemma ItOpens(images: Images, name: string, id: Digest, layer: ImmutableLayer)
    requires name in images && id in images[name].files && OpenSpec(images[name].files[id]) == Success(layer)
    ensures Opens(images, id, layer)
  {
  }

  // ---- the operations -----------------------------------------------------------------------------------

  /** The size in bytes of a new image, as a 64-bit product (8 GiB unless given). */
  function SizeOf(gib: Option<nat>): (r: Size)
    ensures Geometry(r, DEFAULT_BLOCK_SIZE).Valid()
  {
    ((if gib.Some? then gib.value else 8) * GIB) % U64
  }

  /** 8 GiB unless given, and otherwise that many GiB as long as they fit 64 bits. */
  lemma SizeMeans(gib: nat)
    ensures SizeOf(None) == 8 * 1024 * 1024 * 1024
    ensures gib * (1024 * 1024 * 1024) < U64 ==> SizeOf(Some(gib)) == gib * (1024 * 1024 * 1024)
  {
  }

  /** The id and geometry of a frozen layer that can serve as a base. */
  function BaseOf(images: Images, baseName: string, baseTag: string): (r: Option<ImmutableLayer>)
  {
    if baseTag == SCRATCH_TAG || baseName !in images then None else
      var layer := LayerByTag(images[baseName].layers, baseTag);
      if layer.None? || layer.value.id !in images[baseName].files then None else
        var base := OpenSpec(images[baseName].files[layer.value.id]);
        if base.Failure? then None else Some(base.value)
  }

  /** The id a freeze gives the sealed scratch `m`. */
  function FreezeId(sha: seq<Byte> -> Digest, img: Image, g: Geometry, m: BlockMap): Digest {
    ContentId(sha, g, ParentIds(img.ScratchParent()), m)
  }

  /** The image after its scratch `m` was frozen under `id`. */
  function AfterFreeze(sha: seq<Byte> -> Digest, img: Image, id: Digest, g: Geometry, m: BlockMap, tag: string): Image
    requires g.Valid()
  {
    FrozenImage(img, id, SealFile(sha, g, ParentIds(img.ScratchParent()), m), tag, g)
  }

  lemma OpenedValid(file: seq<Byte>)
    requires OpenSpec(file).Success?
    ensures OpenSpec(file).value.Sealed? && OpenSpec(file).value.geometry.Valid()
  {
  }

  lemma {:induction false} WalkedValid(images: Images, start: Option<Digest>, layers: seq<ImmutableLayer>, stop: Option<Digest>)
    requires Walked(images, start, layers, stop)
    ensures forall i :: 0 <= i < |layers| ==> layers[i].geometry.Valid()
    decreases |layers|
  {
    hide OpenSpec;
    if layers != [] {
      var n := |layers| - 1;
      WalkedValid(images, FirstParent(layers[n]), layers[..n], stop);
      var name :| name in images && start.value in images[name].files
                  && OpenSpec(images[name].files[start.value]) == Success(layers[n]);
      OpenedValid(images[name].files[start.value]);
      forall i | 0 <= i < |layers|
        ensures layers[i].geometry.Valid()
      {
        if i < n { assert layers[i] == layers[..n][i]; }
      }
    }
  }

  lemma ScratchOf(disk: LayeredDisk)
    requires disk.Framed()
    ensures disk.scratch.Loose() && disk.geometry.Valid() && disk.scratch.geometry == disk.geometry
    ensures Sized(disk.scratch.Readout(), disk.geometry.blockSize)
    ensures forall b :: b in disk.scratch.Readout() ==> b < disk.geometry.BlockCount()
  {
  }

  /** Every walk from the image's scratch meets only stored layers that open, and ends in layers of
      one geometry. */
  ghost predicate Servable(images: Images, name: string) {
    && name in images && images[name].scratch.Some?
    && (forall layers: seq<ImmutableLayer>, id ::
          Walked(images, images[name].ScratchParent(), layers, Some(id)) ==> Whole(images, id))
    && (forall layers: seq<ImmutableLayer> :: Walked(images, images[name].ScratchParent(), layers, None) ==>
          Uniform(images[name].scratch.value.size, layers))
  }

  /** The layers share a geometry; without layers the recorded size gives one. */
  ghost predicate Uniform(size: Size, layers: seq<ImmutableLayer>) {
    if layers == [] then Geometry(size, DEFAULT_BLOCK_SIZE).Valid() else SameGeometry(layers, layers[0].geometry)
  }

  ghost predicate Whole(images: Images, id: Digest) {
    && Somewhere(images, id)
    && forall name :: name in images && id in images[name].files ==> OpenSpec(images[name].files[id]).Success?
  }

  class ImageRoot {
    var images: Images

    /** A blank image with an empty scratch. */
    method Create(name: string, sizeGib: Option<nat>) returns (error: Option<ImageError>)
      modifies this
      ensures error.Some? <==> name in old(images)
      ensures images == if error.None? then old(images)[name := FreshImage(SizeOf(sizeGib), None)] else old(images)
    {
      if name in images { return Some(AlreadyExists); }
      var size := SizeOf(sizeGib);
      var geometry := NewGeometry(size, DEFAULT_BLOCK_SIZE);
      if geometry.None? { return Some(SizeNotAligned); }
      images := images[name := FreshImage(size, None)];
      error := None;
    }

    /** An image whose empty scratch sits on a frozen layer of another and inherits its geometry. */
    method CreateFrom(name: string, baseName: string, baseTag: string) returns (error: Option<ImageError>)
      modifies this
      ensures error.None? <==> name !in old(images) && BaseOf(old(images), baseName, baseTag).Some?
      ensures error.Some? ==> images == old(images)
      ensures error.None? ==>
                var layer := LayerByTag(old(images)[baseName].layers, baseTag).value;
                var size := BaseOf(old(images), baseName, baseTag).value.geometry.virtualSize;
                images == old(images)[name := FreshImage(size, Some(layer.id))]
    {
      hide OpenSpec;
      if name in images { return Some(AlreadyExists); }
      if baseTag == SCRATCH_TAG { return Some(NotFrozen); }
      if baseName !in images { return Some(NoSuchImage); }
      var layer := LayerByTag(images[baseName].layers, baseTag);
      if layer.None? { return Some(NotFrozen); }
      if layer.value.id !in images[baseName].files { return Some(LayerMissing); }
      var base := OpenSealed(images[baseName].files[layer.value.id]);
      if base.Failure? { return Some(Unreadable(base.error)); }
      images := images[name := FreshImage(base.value.geometry.virtualSize, Some(layer.value.id))];
      error := None;
    }

    /** Export an empty scratch stacked on the image's chain. */
    method ServeScratch(name: string, media: Media, ghost depth: Digest -> nat)
      returns (disk: LayeredDisk?, error: Option<ImageError>)
      requires Ranked(images, depth)
      ensures disk != null <==> error.None?
      ensures disk != null ==>
                && fresh(disk) && fresh(disk.scratch) && disk.Valid() && disk.view == disk.base
                && disk.scratch.media == media && disk.scratch.Contents() == map[]
                && name in images && images[name].scratch.Some?
                && Walked(images, images[name].ScratchParent(), disk.lower, None)
                && disk.geometry == (if disk.lower == [] then Geometry(images[name].scratch.value.size, DEFAULT_BLOCK_SIZE)
                                     else disk.lower[0].geometry)
      ensures error == Some(NoSuchImage) <==> name !in images
      ensures Servable(images, name) ==> disk != null
    {
      hide Walked, Ranked, LayeredDisk.Framed, ScratchLayer.Valid;
      if name !in images { return null, Some(NoSuchImage); }
      if images[name].scratch.None? { return null, Some(NoScratch); }
      var scratchMeta := images[name].scratch.value;
      var lower, failure;
      ghost var upper, stop;
      lower, failure, upper, stop := Lower(images, scratchMeta.parent, depth);
      assert Walked(images, images[name].ScratchParent(), upper, stop);
      if failure.Some? { return null, failure; }
      WalkedValid(images, scratchMeta.parent, lower, None);
      var geometry;
      if lower == [] {
        var g := NewGeometry(scratchMeta.size, DEFAULT_BLOCK_SIZE);
        if g.None? { return null, Some(SizeNotAligned); }
        geometry := g.value;
      } else {
        geometry := lower[0].geometry;
      }
      var scratch := new ScratchLayer.Create(geometry, media);
      disk := LayeredDisk.New(lower, scratch);
      if disk == null { return null, Some(MixedGeometry); }
      error := None;
    }

    /** Seal the live scratch of `disk` over the image's current parent, adopt the file, tag it and
        roll a fresh scratch on top. */
    method AutoFreeze(name: string, disk: LayeredDisk, tag: string, sha: seq<Byte> -> Digest, dest: Media)
      returns (id: Option<Digest>, error: Option<ImageError>)
      requires disk.Framed()
      modifies this
      ensures id.Some? <==> error.None?
      ensures error == Some(BadTag) <==> !FreezeTag(tag)
      ensures id.None? ==> images == old(images)
      ensures id.Some? && IndexFits(disk.geometry) ==>
                name in old(images) && id == Some(FreezeId(sha, old(images)[name], disk.geometry, disk.scratch.Readout()))
      ensures FreezeTag(tag) && name in old(images) && IndexFits(disk.geometry) && disk.scratch.media != MayFail && dest == Reliable && disk.scratch.Whole() ==>
                id == Some(FreezeId(sha, old(images)[name], disk.geometry, disk.scratch.Readout()))
      ensures id.Some? ==>
                && name in old(images)
                && images == old(images)[name := AfterFreeze(sha, old(images)[name], id.value, disk.geometry, disk.scratch.Readout(), tag)]
    {
      hide OpenSpec, LayeredDisk.Framed, SealFile, ContentId, Sealable, ScratchLayer.Readout, ScratchLayer.Loose;
      ScratchOf(disk);
      ghost var m := disk.scratch.Readout();
      if !FreezeTag(tag) { return None, Some(BadTag); }
      if name !in images { return None, Some(NoSuchImage); }
      var img := images[name];
      var parents := ParentIds(img.ScratchParent());
      var sealed := Seal(disk.scratch, sha, parents, dest);
      if sealed.Failure? { return None, Some(Unreadable(sealed.error)); }
      var geometry, file := sealed.value.geometry, sealed.value.file;
      var store := new LayerStore(img.files);
      var adopted := store.AdoptSealed(file);
      if IndexFits(geometry) {
        ContentsSealable(sha, geometry, parents, m);
        SealOpenRoundTrip(sha, geometry, parents, m);
      }
      if adopted.Failure? { return None, Some(Unreadable(adopted.error)); }
      RecordFrozen(name, adopted.value, store.files, |file|, geometry, tag);
      id, error := Some(adopted.value), None;
    }

    /** Replace any layer of the same tag and roll a fresh scratch on the new one. */
    method RecordFrozen(name: string, id: Digest, files: Files, size: nat, geometry: Geometry, tag: string)
      requires name in images && geometry.Valid()
      modifies this
      ensures images == old(images)[name := Image(Some(ScratchMeta(geometry.virtualSize, Some(id))),
                          Retain(old(images)[name].layers, tag) + [LayerMeta(id, tag, old(images)[name].ScratchParent(), size)],
                          files)]
      ensures LayerByTag(images[name].layers, tag) == Some(LayerMeta(id, tag, old(images)[name].ScratchParent(), size))
      ensures forall t :: t != tag ==> LayerByTag(images[name].layers, t) == LayerByTag(old(images)[name].layers, t)
      ensures forall other :: other in images && other != name ==> other in old(images) && images[other] == old(images)[other]
    {
      hide LayerByTag, Retain;
      var img := images[name];
      var entry := LayerMeta(id, tag, img.ScratchParent(), size);
      var layers := Retain(img.layers, tag) + [entry];
      NewestTag(img.layers, entry);
      forall t | t != tag
        ensures LayerByTag(layers, t) == LayerByTag(img.layers, t)
      {
        OtherTag(img.layers, entry, t);
      }
      images := images[name := Image(Some(ScratchMeta(geometry.virtualSize, Some(id))), layers, files)];
    }
  }
}
