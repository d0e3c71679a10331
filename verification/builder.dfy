/** The glTF document builder: append-only registries for every top-level array, byte
    regions queued per logical buffer, and `build`, which lays the regions out end to end,
    assigns each buffer view its offset and drops the empty arrays. */
module Builder {
  import opened Wrappers
  import opened GlTF

  /** One queued region of a logical buffer: the view it backs and the requested alignment
      (recorded, never used). The bytes themselves live in `Builder.regions[index]`. */
  datatype Keep = Keep(index: nat, align: int)

  /** No view is queued twice on one buffer. */
  predicate DistinctIndices(ks: seq<Keep>) {
    forall j1, j2 :: 0 <= j1 < j2 < |ks| ==> ks[j1].index != ks[j2].index
  }

  datatype Builder = Builder(
    accessors: seq<Accessor>,
    animations: seq<Animation>,
    bufferViews: seq<BufferView>,
    images: seq<Image>,
    materials: seq<Material>,
    meshes: seq<Mesh>,
    nodes: seq<Node>,
    samplers: seq<Sampler>,
    scenes: seq<Scene>,
    skins: seq<Skin>,
    textures: seq<Texture>,
    extensionsUsed: seq<string>,
    keeps: seq<seq<Keep>>,         // per logical buffer, the regions in creation order
    regions: seq<seq<byte>>)       // regions[v] is the storage of buffer view v

  /** The builder's invariant: regions are parallel to the views and sized like them, every
      queued region names a view of its own buffer (so no view is queued on two buffers), no
      view is queued twice on one buffer, and buffer 0 exists. */
  ghost predicate Valid(b: Builder) {
    && |b.keeps| >= 1
    && |b.regions| == |b.bufferViews|
    && (forall v :: 0 <= v < |b.regions| ==> |b.regions[v]| == b.bufferViews[v].byteLength)
    && (forall i, j :: 0 <= i < |b.keeps| && 0 <= j < |b.keeps[i]| ==>
          b.keeps[i][j].index < |b.bufferViews| && b.bufferViews[b.keeps[i][j].index].buffer == i)
    && (forall i :: 0 <= i < |b.keeps| ==> DistinctIndices(b.keeps[i]))
  }

  function Zeros(n: nat): (z: seq<byte>)
    ensures |z| == n && forall k :: 0 <= k < n ==> z[k] == 0
  {
    seq(n, _ => 0)
  }

  /** The constructor: every registry empty and a single logical buffer with no regions. */
  function Init(): (b: Builder)
    ensures Valid(b)
    ensures b.keeps == [[]] && b.bufferViews == [] && b.accessors == [] && b.nodes == []
    ensures b.meshes == [] && b.skins == [] && b.scenes == [] && b.animations == []
    ensures b.materials == [] && b.textures == [] && b.samplers == [] && b.images == []
    ensures b.extensionsUsed == []
  {
    Builder([], [], [], [], [], [], [], [], [], [], [], [], [[]], [])
  }

  // ------------------------------------------------------------ registries

  /** Pushes `x` and returns its index, which is the previous length. */
  function Append<T>(s: seq<T>, x: T): (r: (seq<T>, nat))
    ensures r.1 == |s| && |r.0| == |s| + 1
    ensures r.0[r.1] == x && s <= r.0
  {
    (s + [x], |s|)
  }

  function AddAccessor(b: Builder, a: Accessor): (r: (Builder, nat))
    ensures r.1 == |b.accessors| && |r.0.accessors| == r.1 + 1
    ensures r.0.accessors[r.1] == a && b.accessors <= r.0.accessors
    ensures r.0 == b.(accessors := r.0.accessors)
  {
    var (s, i) := Append(b.accessors, a); (b.(accessors := s), i)
  }

  function AddAnimation(b: Builder, a: Animation): (r: (Builder, nat))
    ensures r.1 == |b.animations| && |r.0.animations| == r.1 + 1
    ensures r.0.animations[r.1] == a && b.animations <= r.0.animations
    ensures r.0 == b.(animations := r.0.animations)
  {
    var (s, i) := Append(b.animations, a); (b.(animations := s), i)
  }

  function AddImage(b: Builder, x: Image): (r: (Builder, nat))
    ensures r.1 == |b.images| && |r.0.images| == r.1 + 1
    ensures r.0.images[r.1] == x && b.images <= r.0.images
    ensures r.0 == b.(images := r.0.images)
  {
    var (s, i) := Append(b.images, x); (b.(images := s), i)
  }

  function AddMaterial(b: Builder, m: Material): (r: (Builder, nat))
    ensures r.1 == |b.materials| && |r.0.materials| == r.1 + 1
    ensures r.0.materials[r.1] == m && b.materials <= r.0.materials
    ensures r.0 == b.(materials := r.0.materials)
  {
    var (s, i) := Append(b.materials, m); (b.(materials := s), i)
  }

  function AddMesh(b: Builder, m: Mesh): (r: (Builder, nat))
    ensures r.1 == |b.meshes| && |r.0.meshes| == r.1 + 1
    ensures r.0.meshes[r.1] == m && b.meshes <= r.0.meshes
    ensures r.0 == b.(meshes := r.0.meshes)
  {
    var (s, i) := Append(b.meshes, m); (b.(meshes := s), i)
  }

  function AddSkin(b: Builder, k: Skin): (r: (Builder, nat))
    ensures r.1 == |b.skins| && |r.0.skins| == r.1 + 1
    ensures r.0.skins[r.1] == k && b.skins <= r.0.skins
    ensures r.0 == b.(skins := r.0.skins)
  {
    var (s, i) := Append(b.skins, k); (b.(skins := s), i)
  }

  function AddNode(b: Builder, n: Node): (r: (Builder, nat))
    ensures r.1 == |b.nodes| && |r.0.nodes| == r.1 + 1
    ensures r.0.nodes[r.1] == n && b.nodes <= r.0.nodes
    ensures r.0 == b.(nodes := r.0.nodes)
  {
    var (s, i) := Append(b.nodes, n); (b.(nodes := s), i)
  }

  function AddSampler(b: Builder, x: Sampler): (r: (Builder, nat))
    ensures r.1 == |b.samplers| && |r.0.samplers| == r.1 + 1
    ensures r.0.samplers[r.1] == x && b.samplers <= r.0.samplers
    ensures r.0 == b.(samplers := r.0.samplers)
  {
    var (s, i) := Append(b.samplers, x); (b.(samplers := s), i)
  }

  function AddScene(b: Builder, x: Scene): (r: (Builder, nat))
    ensures r.1 == |b.scenes| && |r.0.scenes| == r.1 + 1
    ensures r.0.scenes[r.1] == x && b.scenes <= r.0.scenes
    ensures r.0 == b.(scenes := r.0.scenes)
  {
    var (s, i) := Append(b.scenes, x); (b.(scenes := s), i)
  }

  function AddTexture(b: Builder, x: Texture): (r: (Builder, nat))
    ensures r.1 == |b.textures| && |r.0.textures| == r.1 + 1
    ensures r.0.textures[r.1] == x && b.textures <= r.0.textures
    ensures r.0 == b.(textures := r.0.textures)
  {
    var (s, i) := Append(b.textures, x); (b.(textures := s), i)
  }

  /** Records an extension name the first time it is used. */
  function UseExtension(b: Builder, name: string): (r: Builder)
    ensures name in r.extensionsUsed
    ensures |r.extensionsUsed| >= |b.extensionsUsed|
    ensures r.extensionsUsed[..|b.extensionsUsed|] == b.extensionsUsed
    ensures name in b.extensionsUsed ==> r == b
    ensures name !in b.extensionsUsed ==> r.extensionsUsed == b.extensionsUsed + [name]
    ensures r == b.(extensionsUsed := r.extensionsUsed)
  {
    if name in b.extensionsUsed then b else b.(extensionsUsed := b.extensionsUsed + [name])
  }

  predicate NoDuplicates<T(==)>(s: seq<T>) {
    forall i, j :: 0 <= i < j < |s| ==> s[i] != s[j]
  }

  /** Using an extension twice is using it once; the list never holds a name twice, and
      names keep the order of their first use. */
  lemma UseExtensionIdempotent(b: Builder, name: string, other: string)
    requires NoDuplicates(b.extensionsUsed)
    ensures UseExtension(UseExtension(b, name), name) == UseExtension(b, name)
    ensures NoDuplicates(UseExtension(b, name).extensionsUsed)
    ensures other in b.extensionsUsed ==>
      UseExtension(UseExtension(b, name), other).extensionsUsed == UseExtension(b, name).extensionsUsed
  {
  }

  // ------------------------------------------------------------ buffer views

  /** Appends a view of `byteLength` bytes on `buffer` with a zero-filled region queued
      behind the earlier regions of that buffer. For a buffer that does not exist the
      source first pushes the view and only then throws, when it indexes the undefined
      keep list; the model returns Failure and drops that half-done update with the
      builder, since nothing catches the exception. */
  function CreateBufferView(b: Builder, byteLength: nat, align: int, buffer: nat): (r: Result<(Builder, nat)>)
    requires Valid(b)
    ensures r.Success? <==> buffer < |b.keeps|
    ensures r.Failure? ==> r.error == NoSuchBuffer(buffer)
    ensures r.Success? ==>
      var (b', index) := r.value;
      && Valid(b')
      && index == |b.bufferViews|
      && |b'.bufferViews| == index + 1 && b.bufferViews <= b'.bufferViews
      && b'.bufferViews[index] == BufferView(buffer, byteLength, None, None, None)
      && b.regions <= b'.regions
      && |b'.regions[index]| == byteLength
      && (forall k :: 0 <= k < byteLength ==> b'.regions[index][k] == 0)
      && |b'.keeps| == |b.keeps|
      && b'.keeps[buffer] == b.keeps[buffer] + [Keep(index, align)]
      && (forall i :: 0 <= i < |b.keeps| && i != buffer ==> b'.keeps[i] == b.keeps[i])
      && b' == b.(bufferViews := b'.bufferViews, regions := b'.regions, keeps := b'.keeps)
  {
    if buffer >= |b.keeps| then Failure(NoSuchBuffer(buffer))
    else
      var index := |b.bufferViews|;
      var b' := b.(
        bufferViews := b.bufferViews + [BufferView(buffer, byteLength, None, None, None)],
        regions := b.regions + [Zeros(byteLength)],
        keeps := b.keeps[buffer := b.keeps[buffer] + [Keep(index, align)]]);
      Success((b', index))
  }

  /** Sets `byteStride` and `target` of a view through the reference the caller holds. */
  function SetStrideAndTarget(b: Builder, view: nat, stride: nat, target: nat): (r: Builder)
    requires Valid(b) && view < |b.bufferViews|
    ensures Valid(r) && |r.bufferViews| == |b.bufferViews|
    ensures r.bufferViews[view] == b.bufferViews[view].(byteStride := Some(stride), target := Some(target))
    ensures forall v :: 0 <= v < |b.bufferViews| && v != view ==> r.bufferViews[v] == b.bufferViews[v]
    ensures r == b.(bufferViews := r.bufferViews)
  {
    b.(bufferViews := b.bufferViews[view := b.bufferViews[view].(byteStride := Some(stride), target := Some(target))])
  }

  /** `new Uint8Array(region).set(bytes)`: overwrites the start of the region; the typed
      array `set` demands that the bytes fit. */
  function WriteRegion(b: Builder, view: nat, bytes: seq<byte>): (r: Builder)
    requires Valid(b) && view < |b.regions| && |bytes| <= |b.regions[view]|
    ensures Valid(r) && |r.regions| == |b.regions|
    ensures |r.regions[view]| == |b.regions[view]|
    ensures r.regions[view][..|bytes|] == bytes
    ensures r.regions[view][|bytes|..] == b.regions[view][|bytes|..]
    ensures forall v :: 0 <= v < |b.regions| && v != view ==> r.regions[v] == b.regions[v]
    ensures r == b.(regions := r.regions)
  {
    var region := b.regions[view];
    b.(regions := b.regions[view := bytes + region[|bytes|..]])
  }

  /** A builder after any sequence of these operations stays valid; the operations above
      already promise it, this packages `AddX` for callers. */
  lemma AddKeepsValid(b: Builder, b': Builder)
    requires Valid(b)
    requires b'.bufferViews == b.bufferViews && b'.regions == b.regions && b'.keeps == b.keeps
    ensures Valid(b')
  {
  }

  // ------------------------------------------------------------ build

  predicate IndicesBelow(ks: seq<Keep>, n: nat) {
    forall j :: 0 <= j < |ks| ==> ks[j].index < n
  }

  /** Total length of the regions queued in `ks`. */
  function SumLengths(regions: seq<seq<byte>>, ks: seq<Keep>): nat
    requires IndicesBelow(ks, |regions|)
  {
    if ks == [] then 0
    else SumLengths(regions, ks[..|ks| - 1]) + |regions[ks[|ks| - 1].index]|
  }

  /** The regions queued in `ks`, end to end. */
  function Concat(regions: seq<seq<byte>>, ks: seq<Keep>): seq<byte>
    requires IndicesBelow(ks, |regions|)
  {
    if ks == [] then []
    else Concat(regions, ks[..|ks| - 1]) + regions[ks[|ks| - 1].index]
  }

  lemma {:induction false} ConcatLength(regions: seq<seq<byte>>, ks: seq<Keep>)
    requires IndicesBelow(ks, |regions|)
    ensures |Concat(regions, ks)| == SumLengths(regions, ks)
  {
    if ks != [] {
      ConcatLength(regions, ks[..|ks| - 1]);
    }
  }

  /** Offsets grow along the queue. */
  lemma {:induction false} SumLengthsMonotone(regions: seq<seq<byte>>, ks: seq<Keep>, j: nat, k: nat)
    requires IndicesBelow(ks, |regions|) && j <= k <= |ks|
    ensures SumLengths(regions, ks[..j]) <= SumLengths(regions, ks[..k])
    decreases k
  {
    if j < k {
      assert ks[..k][..k - 1] == ks[..k - 1];
      SumLengthsMonotone(regions, ks, j, k - 1);
    }
  }

  lemma {:induction false} ConcatPrefix(regions: seq<seq<byte>>, ks: seq<Keep>, j: nat)
    requires IndicesBelow(ks, |regions|) && j <= |ks|
    ensures SumLengths(regions, ks[..j]) <= |Concat(regions, ks)|
    ensures Concat(regions, ks)[..SumLengths(regions, ks[..j])] == Concat(regions, ks[..j])
    decreases |ks|
  {
    ConcatLength(regions, ks[..j]);
    ConcatLength(regions, ks);
    if j < |ks| {
      var front := ks[..|ks| - 1];
      assert front[..j] == ks[..j];
      ConcatPrefix(regions, front, j);
      ConcatLength(regions, front);
      SumLengthsMonotone(regions, front, j, |front|);
      assert front[..|front|] == front;
    } else {
      assert ks[..j] == ks;
    }
  }

  /** The j-th queued region sits right after the earlier ones. */
  lemma ConcatSlice(regions: seq<seq<byte>>, ks: seq<Keep>, j: nat)
    requires IndicesBelow(ks, |regions|) && j < |ks|
    ensures SumLengths(regions, ks[..j]) + |regions[ks[j].index]| == SumLengths(regions, ks[..j + 1])
    ensures SumLengths(regions, ks[..j + 1]) <= |Concat(regions, ks)|
    ensures Concat(regions, ks)[SumLengths(regions, ks[..j])..SumLengths(regions, ks[..j + 1])]
            == regions[ks[j].index]
  {
    var pre := ks[..j + 1];
    assert pre[..j] == ks[..j];
    ConcatPrefix(regions, ks, j + 1);
    ConcatLength(regions, pre);
    ConcatLength(regions, ks[..j]);
    ConcatLength(regions, ks);
    SumLengthsMonotone(regions, ks, j + 1, |ks|);
    assert ks[..|ks|] == ks;
  }

  /** Views queued one after another on a buffer do not overlap: a later view starts no
      earlier than an earlier one ends. */
  lemma QueuedViewsDisjoint(regions: seq<seq<byte>>, ks: seq<Keep>, j: nat, k: nat)
    requires IndicesBelow(ks, |regions|) && j < k < |ks|
    ensures SumLengths(regions, ks[..j]) + |regions[ks[j].index]| <= SumLengths(regions, ks[..k])
  {
    ConcatSlice(regions, ks, j);
    SumLengthsMonotone(regions, ks, j + 1, k);
  }

  /** The JSON document `build` returns; `None` marks a top-level array that was deleted. */
  datatype Document = Document(
    asset: Asset,
    accessors: Option<seq<Accessor>>,
    animations: Option<seq<Animation>>,
    bufferViews: Option<seq<BufferView>>,
    images: Option<seq<Image>>,
    materials: Option<seq<Material>>,
    meshes: Option<seq<Mesh>>,
    nodes: Option<seq<Node>>,
    samplers: Option<seq<Sampler>>,
    scenes: Option<seq<Scene>>,
    skins: Option<seq<Skin>>,
    textures: Option<seq<Texture>>,
    extensionsUsed: Option<seq<string>>,
    buffers: seq<Buffer>)

  datatype BuildOutput = BuildOutput(json: Document, buffers: seq<seq<byte>>)

  /** The document holds exactly the non-empty arrays. */
  predicate KeptIffNonEmpty<T(==)>(section: Option<seq<T>>, source: seq<T>) {
    && (section.None? <==> |source| == 0)
    && (section.Some? ==> section.value == source)
  }

  /** Deletes an empty array. */
  function Prune<T(==)>(s: seq<T>): (r: Option<seq<T>>)
    ensures KeptIffNonEmpty(r, s)
  {
    if |s| == 0 then None else Some(s)
  }

  /** Every registry other than the buffer views reaches the document unchanged, and only
      if it is non-empty. */
  predicate RegistriesKept(d: Document, b: Builder) {
    && KeptIffNonEmpty(d.accessors, b.accessors)
    && KeptIffNonEmpty(d.animations, b.animations)
    && KeptIffNonEmpty(d.images, b.images)
    && KeptIffNonEmpty(d.materials, b.materials)
    && KeptIffNonEmpty(d.meshes, b.meshes)
    && KeptIffNonEmpty(d.nodes, b.nodes)
    && KeptIffNonEmpty(d.samplers, b.samplers)
    && KeptIffNonEmpty(d.scenes, b.scenes)
    && KeptIffNonEmpty(d.skins, b.skins)
    && KeptIffNonEmpty(d.textures, b.textures)
    && KeptIffNonEmpty(d.extensionsUsed, b.extensionsUsed)
  }

  /** View v of queue entry (i, j) once `build` has placed it. */
  function Placed(b: Builder, i: nat, j: nat): BufferView
    requires Valid(b) && i < |b.keeps| && j < |b.keeps[i]|
  {
    PlaceView(b.bufferViews[b.keeps[i][j].index], b.regions, b.keeps[i], j, i)
  }

  /** `build` changes only the offset and buffer of a view. */
  predicate SameApartFromPlacement(x: BufferView, y: BufferView) {
    x.byteLength == y.byteLength && x.byteStride == y.byteStride && x.target == y.target
  }

  lemma KeepsBelow(b: Builder, i: nat)
    requires Valid(b) && i < |b.keeps|
    ensures IndicesBelow(b.keeps[i], |b.regions|)
  {
  }

  /** View v has no region queued in `ks`. */
  predicate NotQueued(v: nat, ks: seq<Keep>) {
    forall j :: 0 <= j < |ks| ==> ks[j].index != v
  }

  /** First loop of `build` for one buffer: the sum of its regions' lengths. */
  method BufferByteLength(regions: seq<seq<byte>>, bufferKeep: seq<Keep>) returns (total: nat)
    requires IndicesBelow(bufferKeep, |regions|)
    ensures total == SumLengths(regions, bufferKeep)
  {
    total := 0;
    var j := 0;
    while j < |bufferKeep|
      invariant 0 <= j <= |bufferKeep|
      invariant total == SumLengths(regions, bufferKeep[..j])
    {
      assert bufferKeep[..j + 1][..j] == bufferKeep[..j];
      total := total + |regions[bufferKeep[j].index]|;
      j := j + 1;
    }
    assert bufferKeep[..|bufferKeep|] == bufferKeep;
  }

  /** A view as `build` leaves it when it is entry j of the queue `ks` of buffer `buffer`. */
  function PlaceView(view: BufferView, regions: seq<seq<byte>>, ks: seq<Keep>, j: nat, buffer: nat): BufferView
    requires IndicesBelow(ks, |regions|) && j <= |ks|
  {
    view.(byteOffset := Some(SumLengths(regions, ks[..j])), buffer := buffer)
  }

  /** One step of the copy loop: writing region j at its offset extends the laid-out prefix. */
  lemma CopyStep(regions: seq<seq<byte>>, ks: seq<Keep>, j: nat, total: nat, storage: seq<byte>)
    requires IndicesBelow(ks, |regions|) && j < |ks| && total == SumLengths(regions, ks)
    requires SumLengths(regions, ks[..j]) <= total && |storage| == total
    requires storage == Concat(regions, ks[..j]) + Zeros(total - SumLengths(regions, ks[..j]))
    ensures var off := SumLengths(regions, ks[..j]);
            var data := regions[ks[j].index];
            && off + |data| == SumLengths(regions, ks[..j + 1]) <= total
            && storage[..off] + data + storage[off + |data|..]
               == Concat(regions, ks[..j + 1]) + Zeros(total - SumLengths(regions, ks[..j + 1]))
  {
    var off := SumLengths(regions, ks[..j]);
    var data := regions[ks[j].index];
    ConcatSlice(regions, ks, j);
    SumLengthsMonotone(regions, ks, j + 1, |ks|);
    assert ks[..|ks|] == ks;
    ConcatLength(regions, ks[..j]);
    assert ks[..j + 1][..j] == ks[..j];
    assert Concat(regions, ks[..j + 1]) == Concat(regions, ks[..j]) + data;
    assert storage[..off] == Concat(regions, ks[..j]);
    assert storage[off + |data|..] == Zeros(total - (off + |data|));
  }

  /** Every view queued on buffer i belongs to buffer i, so no view is queued on two buffers. */
  lemma QueuedOnOwnBuffer(b: Builder, i: nat)
    requires Valid(b) && i < |b.keeps|
    ensures forall v :: 0 <= v < |b.bufferViews| && b.bufferViews[v].buffer != i ==> NotQueued(v, b.keeps[i])
  {
  }

  /** Second loop of `build` for buffer `iBuffer`, byte side: copies each queued region to
      the running offset of a zero-filled buffer of the total length. */
  method CopyRegions(regions: seq<seq<byte>>, bufferKeep: seq<Keep>) returns (storage: seq<byte>)
    requires IndicesBelow(bufferKeep, |regions|)
    ensures storage == Concat(regions, bufferKeep)
  {
    var bufferByteLength := BufferByteLength(regions, bufferKeep);
    ConcatLength(regions, bufferKeep);
    storage := Zeros(bufferByteLength);
    var bufferOffset := 0;
    var j := 0;
    while j < |bufferKeep|
      invariant 0 <= j <= |bufferKeep|
      invariant bufferOffset == SumLengths(regions, bufferKeep[..j])
      invariant bufferOffset <= bufferByteLength && |storage| == bufferByteLength
      invariant storage == Concat(regions, bufferKeep[..j]) + Zeros(bufferByteLength - bufferOffset)
    {
      CopyStep(regions, bufferKeep, j, bufferByteLength, storage);
      var data := regions[bufferKeep[j].index];
      storage := storage[..bufferOffset] + data + storage[bufferOffset + |data|..];
      bufferOffset := bufferOffset + |data|;
      j := j + 1;
    }
    assert bufferKeep[..|bufferKeep|] == bufferKeep;
  }

  /** Second loop of `build` for buffer `iBuffer`, view side: records on each queued view its
      offset (the lengths of the regions queued before it) and its buffer. */
  method PlaceViews(regions: seq<seq<byte>>, bufferKeep: seq<Keep>, iBuffer: nat, views: seq<BufferView>)
    returns (views': seq<BufferView>)
    requires IndicesBelow(bufferKeep, |regions|) && |views| == |regions|
    requires DistinctIndices(bufferKeep)
    ensures |views'| == |views|
    ensures forall v :: 0 <= v < |views| ==> SameApartFromPlacement(views'[v], views[v])
    ensures forall j :: 0 <= j < |bufferKeep| ==>
      views'[bufferKeep[j].index] == PlaceView(views[bufferKeep[j].index], regions, bufferKeep, j, iBuffer)
    ensures forall v :: 0 <= v < |views| && NotQueued(v, bufferKeep) ==> views'[v] == views[v]
  {
    views' := views;
    var bufferOffset := 0;
    var j := 0;
    while j < |bufferKeep|
      invariant 0 <= j <= |bufferKeep|
      invariant bufferOffset == SumLengths(regions, bufferKeep[..j])
      invariant |views'| == |views|
      invariant forall v :: 0 <= v < |views| ==> SameApartFromPlacement(views'[v], views[v])
      invariant forall j' :: 0 <= j' < j ==>
        views'[bufferKeep[j'].index] == PlaceView(views[bufferKeep[j'].index], regions, bufferKeep, j', iBuffer)
      invariant forall v :: 0 <= v < |views| && NotQueued(v, bufferKeep[..j]) ==> views'[v] == views[v]
    {
      var v := bufferKeep[j].index;
      assert NotQueued(v, bufferKeep[..j]);
      assert bufferKeep[..j + 1][..j] == bufferKeep[..j];
      views' := views'[v := views'[v].(byteOffset := Some(bufferOffset), buffer := iBuffer)];
      bufferOffset := bufferOffset + |regions[v]|;
      j := j + 1;
    }
    assert bufferKeep[..|bufferKeep|] == bufferKeep;
  }

  /** Laying out buffer `iBuffer` places its own views and leaves every other buffer's alone. */
  lemma PlacementStep(b: Builder, iBuffer: nat, views: seq<BufferView>, views': seq<BufferView>)
    requires Valid(b) && iBuffer < |b.keeps|
    requires |views| == |b.bufferViews| && |views'| == |views|
    requires forall i, j :: 0 <= i < iBuffer && 0 <= j < |b.keeps[i]| ==>
      views[b.keeps[i][j].index] == Placed(b, i, j)
    requires forall i, j :: iBuffer <= i < |b.keeps| && 0 <= j < |b.keeps[i]| ==>
      views[b.keeps[i][j].index] == b.bufferViews[b.keeps[i][j].index]
    requires IndicesBelow(b.keeps[iBuffer], |b.regions|)
    requires forall j :: 0 <= j < |b.keeps[iBuffer]| ==>
      views'[b.keeps[iBuffer][j].index]
        == PlaceView(views[b.keeps[iBuffer][j].index], b.regions, b.keeps[iBuffer], j, iBuffer)
    requires forall v :: 0 <= v < |views| && NotQueued(v, b.keeps[iBuffer]) ==> views'[v] == views[v]
    ensures forall i, j :: 0 <= i <= iBuffer && 0 <= j < |b.keeps[i]| ==>
      views'[b.keeps[i][j].index] == Placed(b, i, j)
    ensures forall i, j :: iBuffer < i < |b.keeps| && 0 <= j < |b.keeps[i]| ==>
      views'[b.keeps[i][j].index] == b.bufferViews[b.keeps[i][j].index]
  {
    QueuedOnOwnBuffer(b, iBuffer);
  }

  /** Each queued region appears in its buffer's storage at its offset. */
  lemma StorageSlices(b: Builder, storages: seq<seq<byte>>)
    requires Valid(b) && |storages| == |b.keeps|
    requires forall i :: 0 <= i < |b.keeps| ==> storages[i] == Concat(b.regions, b.keeps[i])
    ensures forall i, j :: 0 <= i < |b.keeps| && 0 <= j < |b.keeps[i]| ==>
      var off := SumLengths(b.regions, b.keeps[i][..j]);
      var region := b.regions[b.keeps[i][j].index];
      && off + |region| <= |storages[i]|
      && storages[i][off..off + |region|] == region
  {
    forall i, j | 0 <= i < |b.keeps| && 0 <= j < |b.keeps[i]|
      ensures var off := SumLengths(b.regions, b.keeps[i][..j]);
              var region := b.regions[b.keeps[i][j].index];
              && off + |region| <= |storages[i]|
              && storages[i][off..off + |region|] == region
    {
      ConcatSlice(b.regions, b.keeps[i], j);
    }
  }

  /** The document `build` returns once the buffers are laid out: pruned registries, the
      placed views, and one buffer entry per laid-out buffer. */
  function Assemble(b: Builder, views: seq<BufferView>, storages: seq<seq<byte>>,
                    generator: Option<string>, copyright: Option<string>): (d: Document)
    ensures d.asset == Asset("2.0", generator, copyright)
    ensures RegistriesKept(d, b) && KeptIffNonEmpty(d.bufferViews, views)
    ensures |d.buffers| == |storages|
    ensures forall i :: 0 <= i < |storages| ==> d.buffers[i].byteLength == |storages[i]|
  {
    Document(
      Asset("2.0", generator, copyright),
      Prune(b.accessors), Prune(b.animations), Prune(views), Prune(b.images),
      Prune(b.materials), Prune(b.meshes), Prune(b.nodes), Prune(b.samplers),
      Prune(b.scenes), Prune(b.skins), Prune(b.textures), Prune(b.extensionsUsed),
      BufferEntries(storages))
  }

  /** One `{byteLength}` entry per laid-out buffer. */
  function BufferEntries(storages: seq<seq<byte>>): (r: seq<Buffer>)
    ensures |r| == |storages|
    ensures forall i :: 0 <= i < |storages| ==> r[i].byteLength == |storages[i]|
  {
    seq(|storages|, i requires 0 <= i < |storages| => Buffer(|storages[i]|))
  }

  /** The per-buffer loop of `build`: lays out every buffer in turn. */
  method LayOutBuffers(b: Builder) returns (views: seq<BufferView>, storages: seq<seq<byte>>)
    requires Valid(b)
    ensures |views| == |b.bufferViews| && |storages| == |b.keeps|
    ensures forall v :: 0 <= v < |views| ==> SameApartFromPlacement(views[v], b.bufferViews[v])
    ensures forall i, j :: 0 <= i < |b.keeps| && 0 <= j < |b.keeps[i]| ==>
      views[b.keeps[i][j].index] == Placed(b, i, j)
    ensures forall i :: 0 <= i < |b.keeps| ==>
      storages[i] == Concat(b.regions, b.keeps[i]) && |storages[i]| == SumLengths(b.regions, b.keeps[i])
  {
    views := b.bufferViews;
    storages := [];
    var iBuffer := 0;
    while iBuffer < |b.keeps|
      invariant 0 <= iBuffer <= |b.keeps|
      invariant |storages| == iBuffer
      invariant |views| == |b.bufferViews|
      invariant forall v :: 0 <= v < |views| ==> SameApartFromPlacement(views[v], b.bufferViews[v])
      invariant forall i, j :: 0 <= i < iBuffer && 0 <= j < |b.keeps[i]| ==>
        views[b.keeps[i][j].index] == Placed(b, i, j)
      invariant forall i, j :: iBuffer <= i < |b.keeps| && 0 <= j < |b.keeps[i]| ==>
        views[b.keeps[i][j].index] == b.bufferViews[b.keeps[i][j].index]
      invariant forall i :: 0 <= i < iBuffer ==>
        storages[i] == Concat(b.regions, b.keeps[i]) && |storages[i]| == SumLengths(b.regions, b.keeps[i])
    {
      KeepsBelow(b, iBuffer);
      var views' := PlaceViews(b.regions, b.keeps[iBuffer], iBuffer, views);
      var storage := CopyRegions(b.regions, b.keeps[iBuffer]);
      ConcatLength(b.regions, b.keeps[iBuffer]);
      PlacementStep(b, iBuffer, views, views');
      views := views';
      storages := storages + [storage];
      iBuffer := iBuffer + 1;
    }
  }

  /** `build`: assigns every queued region its offset in its buffer, concatenates the regions
      of each buffer, and drops the empty top-level arrays. Every logical buffer yields a
      buffer entry, because pruning happens before the buffers are added. */
  method Build(b: Builder, generator: Option<string>, copyright: Option<string>) returns (out: BuildOutput)
    requires Valid(b)
    ensures out.json.asset == Asset("2.0", generator, copyright)
    ensures RegistriesKept(out.json, b)
    ensures out.json.bufferViews.None? <==> |b.bufferViews| == 0
    ensures out.json.bufferViews.Some? ==>
      && |out.json.bufferViews.value| == |b.bufferViews|
      && forall v :: 0 <= v < |b.bufferViews| ==>
           SameApartFromPlacement(out.json.bufferViews.value[v], b.bufferViews[v])
    ensures forall i, j :: 0 <= i < |b.keeps| && 0 <= j < |b.keeps[i]| ==>
      && out.json.bufferViews.Some?
      && out.json.bufferViews.value[b.keeps[i][j].index] == Placed(b, i, j)
    // one buffer per logical buffer, even an empty one
    ensures |out.json.buffers| == |b.keeps| && |out.buffers| == |b.keeps|
    ensures forall i :: 0 <= i < |b.keeps| ==>
      && out.json.buffers[i].byteLength == |out.buffers[i]|
      && |out.buffers[i]| == SumLengths(b.regions, b.keeps[i])
    ensures forall i, j :: 0 <= i < |b.keeps| && 0 <= j < |b.keeps[i]| ==>
      var off := SumLengths(b.regions, b.keeps[i][..j]);
      var region := b.regions[b.keeps[i][j].index];
      && off + |region| <= |out.buffers[i]|
      && out.buffers[i][off..off + |region|] == region
  {
    var views, storages := LayOutBuffers(b);
    out := BuildOutput(Assemble(b, views, storages, generator, copyright), storages);
    StorageSlices(b, storages);
  }
}
