/** Animations: each FBX animation stack becomes at most one glTF animation. Every round of
    the layer loop walks the node tree and, for each node with curves, samples them and
    allocates fresh storage: a view and a `<node>-Time` accessor for the frame times, then a
    view and a `<node>-<path>` accessor for each of translation, rotation and scale that has a
    curve, with a sampler and a channel per path. Evaluating the curves is floating-point work
    done through the FBX SDK; the model takes each layer's samples as given (frame times and
    sampled values per node, in the order of the tree walk) and models every builder step. */
module Animations {
  import opened Wrappers
  import opened GlTF
  import opened Builder
  import VertexLayout

  /** The sampled curves of one node in one layer: `node` is the glTF node the FBX node maps
      to, `times` the frame times relative to the start, and each present path holds three
      (translation, scale) or four (rotation) numbers per frame. */
  datatype NodeSample = NodeSample(
    node: nat,
    times: seq<real>,
    translation: Option<seq<real>>,
    rotation: Option<seq<real>>,
    scale: Option<seq<real>>)

  /** One entry of the per-node curve record: the path, the accessor type and the values. */
  datatype PathCurve = PathCurve(path: string, accessorType: string, values: seq<real>)

  /** What one channel animates: the target node, its frame times and the curve. */
  datatype Track = Track(node: nat, times: seq<real>, curve: PathCurve)

  /** An animation layer, given by its node samples in the order the tree walk meets them. */
  datatype AnimLayer = AnimLayer(samples: seq<NodeSample>)

  datatype AnimStack = AnimStack(name: string, layers: seq<AnimLayer>)

  /** How the layer loop picks its layer. The source asks for the stack's source object of the
      layer class without an index, which always yields the first layer; `ByIndex` reads layer
      i in round i. */
  datatype LayerReading = FirstLayerOnly | ByIndex

  /** Every channel i drives sampler i, and there are as many channels as samplers. */
  predicate Paired(a: Animation) {
    && |a.channels| == |a.samplers|
    && forall i :: 0 <= i < |a.channels| ==> a.channels[i].sampler == i
  }

  /** The curves of a node in the key order of the record they are gathered in: translation,
      rotation, scale, each only when the node has it. */
  function Curves(n: NodeSample): seq<PathCurve> {
    (if n.translation.Some? then [PathCurve("translation", VEC3, n.translation.value)] else [])
    + (if n.rotation.Some? then [PathCurve("rotation", VEC4, n.rotation.value)] else [])
    + (if n.scale.Some? then [PathCurve("scale", VEC3, n.scale.value)] else [])
  }

  function CurveTracks(node: nat, times: seq<real>, cs: seq<PathCurve>): (r: seq<Track>)
    ensures |r| == |cs| && forall j :: 0 <= j < |cs| ==> r[j] == Track(node, times, cs[j])
  {
    seq(|cs|, j requires 0 <= j < |cs| => Track(node, times, cs[j]))
  }

  /** The tracks of one node sample, one per curve. */
  function TracksOf(n: NodeSample): seq<Track> {
    CurveTracks(n.node, n.times, Curves(n))
  }

  /** The tracks of a list of node samples, in order. */
  function Tracks(samples: seq<NodeSample>): seq<Track> {
    if samples == [] then []
    else Tracks(samples[..|samples| - 1]) + TracksOf(samples[|samples| - 1])
  }

  /** Views (and accessors) a list of node samples allocates: one for the times of each
      sample and one per track. */
  function Allocated(samples: seq<NodeSample>): nat {
    |samples| + |Tracks(samples)|
  }

  lemma {:induction false} TracksAppend(x: seq<NodeSample>, y: seq<NodeSample>)
    ensures Tracks(x + y) == Tracks(x) + Tracks(y)
    decreases |y|
  {
    if y != [] {
      assert (x + y)[..|x + y| - 1] == x + y[..|y| - 1];
      assert (x + y)[|x + y| - 1] == y[|y| - 1];
      TracksAppend(x, y[..|y| - 1]);
    } else {
      assert x + y == x;
    }
  }

  function Numbers(xs: seq<real>): (r: seq<JsNumber>)
    ensures |r| == |xs| && forall i :: 0 <= i < |xs| ==> r[i] == Finite(xs[i])
  {
    seq(|xs|, i requires 0 <= i < |xs| => Finite(xs[i]))
  }

  /** The `<node>-Time` accessor: float scalars, one per frame, with the smallest and largest
      time as bounds (`Math.min`/`Math.max` over the times). */
  function TimeAccessor(name: string, view: nat, times: seq<real>): Accessor {
    Accessor(name + "-Time", view, None, |times|, SCALAR, FLOAT,
             Some([VertexLayout.FoldMin(Numbers(times))]), Some([VertexLayout.FoldMax(Numbers(times))]))
  }

  /** The `<node>-<path>` accessor of one curve: one element per frame, no bounds. */
  function CurveAccessor(name: string, view: nat, c: PathCurve, frames: nat): Accessor {
    Accessor(name + "-" + c.path, view, None, frames, c.accessorType, FLOAT, None, None)
  }

  // ------------------------------------------------------------ what the builder holds

  /** b' is b with more accessors, views, regions and buffer-0 queue entries, and more
      animations after the old ones; nothing else changes. */
  predicate GrowsWithAnimations(b: Builder, b': Builder) {
    && b' == b.(accessors := b'.accessors, bufferViews := b'.bufferViews, regions := b'.regions,
                keeps := b'.keeps, animations := b'.animations)
    && b.accessors <= b'.accessors && b.bufferViews <= b'.bufferViews && b.regions <= b'.regions
    && |b.keeps| >= 1 && |b'.keeps| == |b.keeps| && b.keeps[0] <= b'.keeps[0]
    && (forall i :: 1 <= i < |b.keeps| ==> b'.keeps[i] == b.keeps[i])
    && b.animations <= b'.animations
  }

  /** b' extends b's accessors, views and regions and queues more regions on buffer 0;
      nothing else changes. */
  predicate Grows(b: Builder, b': Builder) {
    GrowsWithAnimations(b, b') && b'.animations == b.animations
  }

  /** Accessor i of b reads a view of its own on buffer 0 whose region holds `values` as
      float32 numbers. */
  ghost predicate HoldsFloats(b: Builder, i: nat, values: seq<real>, f32: Float32Encoder) {
    && FourBytes(f32)
    && i < |b.accessors|
    && b.accessors[i].bufferView < |b.bufferViews|
    && b.accessors[i].bufferView < |b.regions|
    && b.bufferViews[b.accessors[i].bufferView] == BufferView(0, 4 * |values|, None, None, None)
    && b.regions[b.accessors[i].bufferView] == EncodeFloats(f32, Numbers(values))
  }

  /** Accessor i is the time accessor of `node` sampled at `times`. */
  ghost predicate TimeAt(b: Builder, i: nat, node: nat, times: seq<real>, f32: Float32Encoder) {
    && node < |b.nodes|
    && HoldsFloats(b, i, times, f32)
    && b.accessors[i] == TimeAccessor(b.nodes[node].name, b.accessors[i].bufferView, times)
  }

  /** Accessor i is the accessor of curve c of `node`, `frames` elements long. */
  ghost predicate CurveAt(b: Builder, i: nat, node: nat, frames: nat, c: PathCurve, f32: Float32Encoder) {
    && node < |b.nodes|
    && HoldsFloats(b, i, c.values, f32)
    && b.accessors[i] == CurveAccessor(b.nodes[node].name, b.accessors[i].bufferView, c, frames)
  }

  /** Channel j of a targets track t, and sampler j reads t's times and values from
      accessors of b numbered `lo` or more, the times first. */
  ghost predicate Realised(b: Builder, a: Animation, j: nat, t: Track, lo: nat, f32: Float32Encoder) {
    && j < |a.samplers| && j < |a.channels|
    && a.channels[j].node == t.node && a.channels[j].path == t.curve.path
    && lo <= a.samplers[j].input < a.samplers[j].output
    && TimeAt(b, a.samplers[j].input, t.node, t.times, f32)
    && CurveAt(b, a.samplers[j].output, t.node, |t.times|, t.curve, f32)
  }

  /** Channels and samplers `from` onwards realise the tracks ts, in order. */
  ghost predicate Realises(b: Builder, a: Animation, from: nat, ts: seq<Track>, lo: nat, f32: Float32Encoder) {
    && from + |ts| <= |a.samplers|
    && forall j :: 0 <= j < |ts| ==> Realised(b, a, from + j, ts[j], lo, f32)
  }

  /** The output accessors of samplers from .. to-1 are strictly increasing, so no two of
      them share one. */
  predicate Increasing(a: Animation, from: nat, to: nat) {
    forall i, j :: from <= i < j < to && j < |a.samplers| ==> a.samplers[i].output < a.samplers[j].output
  }

  /** Every sampler from `from` onwards reads its output at or above `bound`. */
  predicate Above(a: Animation, from: nat, bound: nat) {
    forall j :: from <= j < |a.samplers| ==> bound <= a.samplers[j].output
  }

  lemma GrowsTransitive(b1: Builder, b2: Builder, b3: Builder)
    requires Grows(b1, b2) && Grows(b2, b3)
    ensures Grows(b1, b3)
  {
  }

  lemma RealisedMoves(b: Builder, b': Builder, a: Animation, a': Animation, j: nat, t: Track, lo: nat, f32: Float32Encoder)
    requires Grows(b, b') && a.samplers <= a'.samplers && a.channels <= a'.channels
    requires Realised(b, a, j, t, lo, f32)
    ensures Realised(b', a', j, t, lo, f32)
  {
    var s := a.samplers[j];
    assert a'.samplers[j] == s && a'.channels[j] == a.channels[j];
    assert b'.accessors[s.input] == b.accessors[s.input];
    assert b'.accessors[s.output] == b.accessors[s.output];
  }

  lemma RealisesMoves(b: Builder, b': Builder, a: Animation, a': Animation, from: nat, ts: seq<Track>, lo: nat, f32: Float32Encoder)
    requires Grows(b, b') && a.samplers <= a'.samplers && a.channels <= a'.channels
    requires Realises(b, a, from, ts, lo, f32)
    ensures Realises(b', a', from, ts, lo, f32)
  {
    forall j | 0 <= j < |ts|
      ensures Realised(b', a', from + j, ts[j], lo, f32)
    {
      RealisedMoves(b, b', a, a', from + j, ts[j], lo, f32);
    }
  }

  /** Tracks realised at or above `lo` have their outputs at or above `lo`. */
  lemma RealisesAbove(b: Builder, a: Animation, from: nat, ts: seq<Track>, lo: nat, f32: Float32Encoder)
    requires Realises(b, a, from, ts, lo, f32) && |a.samplers| == from + |ts|
    ensures Above(a, from, lo)
  {
    forall j | from <= j < |a.samplers|
      ensures lo <= a.samplers[j].output
    {
      assert Realised(b, a, from + (j - from), ts[j - from], lo, f32);
    }
  }

  /** Joins what two consecutive steps realise: the first step's tracks, carried over to the
      later builder, followed by the second step's, whose outputs all lie above the first
      step's accessors. */
  lemma SamplersJoin(b1: Builder, a1: Animation, b2: Builder, a2: Animation, from: nat,
                     t1: seq<Track>, t2: seq<Track>, lo: nat, mid: nat, f32: Float32Encoder)
    requires Grows(b1, b2) && a1.samplers <= a2.samplers && a1.channels <= a2.channels
    requires |a1.samplers| == from + |t1| && |a2.samplers| == |a1.samplers| + |t2| && lo <= mid
    requires Realises(b1, a1, from, t1, lo, f32) && Increasing(a1, from, |a1.samplers|)
    requires Realises(b2, a2, |a1.samplers|, t2, mid, f32) && Increasing(a2, |a1.samplers|, |a2.samplers|)
    requires Above(a2, |a1.samplers|, |b1.accessors|)
    ensures Realises(b2, a2, from, t1 + t2, lo, f32) && Increasing(a2, from, |a2.samplers|)
  {
    var ts := t1 + t2;
    forall j | 0 <= j < |ts|
      ensures Realised(b2, a2, from + j, ts[j], lo, f32)
    {
      if j < |t1| {
        RealisedMoves(b1, b2, a1, a2, from + j, t1[j], lo, f32);
      } else {
        assert Realised(b2, a2, |a1.samplers| + (j - |t1|), t2[j - |t1|], mid, f32);
      }
    }
    forall i, j | from <= i < j < |a2.samplers|
      ensures a2.samplers[i].output < a2.samplers[j].output
    {
      if j < |a1.samplers| {
        assert a2.samplers[i] == a1.samplers[i] && a2.samplers[j] == a1.samplers[j];
      } else if i < |a1.samplers| {
        assert Realised(b1, a1, from + (i - from), t1[i - from], lo, f32);
        assert a2.samplers[i] == a1.samplers[i];
      }
    }
  }

  // ------------------------------------------------------------ one node

  /** Stores a float array the way the conversion does: a new view on buffer 0, four bytes
      per number, whose region receives the numbers' float32 bytes. */
  function AddFloats(b: Builder, xs: seq<real>, f32: Float32Encoder): (r: (Builder, nat))
    requires Valid(b) && FourBytes(f32)
    ensures Valid(r.0) && Grows(b, r.0) && r.0.accessors == b.accessors
    ensures r.1 == |b.bufferViews|
    ensures r.0.bufferViews == b.bufferViews + [BufferView(0, 4 * |xs|, None, None, None)]
    ensures r.0.regions == b.regions + [EncodeFloats(f32, Numbers(xs))]
    ensures r.0.keeps[0] == b.keeps[0] + [Keep(r.1, 0)]
  {
    var data := EncodeFloats(f32, Numbers(xs));
    var created := CreateBufferView(b, |data|, 0, 0);
    var (b1, view) := created.value;
    var b2 := WriteRegion(b1, view, data);
    assert b2.regions[view] == b2.regions[view][..|data|];
    assert b2.regions == b.regions + [data];
    (b2, view)
  }

  /** One pass of the curve loop: a view holding the curve's values, its `<node>-<path>`
      accessor, a sampler reading the node's time accessor `input` and the new accessor, and
      a channel for the node and path driving that sampler. */
  function AddCurve(b: Builder, a: Animation, node: nat, input: nat, times: seq<real>,
                    c: PathCurve, f32: Float32Encoder): (r: (Builder, Animation))
    requires Valid(b) && FourBytes(f32) && Paired(a) && TimeAt(b, input, node, times, f32)
    ensures Valid(r.0) && Grows(b, r.0) && Paired(r.1) && r.1.name == a.name
    ensures |r.0.accessors| == |b.accessors| + 1 && |r.0.bufferViews| == |b.bufferViews| + 1
    ensures |r.1.samplers| == |a.samplers| + 1
    ensures a.samplers <= r.1.samplers && a.channels <= r.1.channels
    ensures Realised(r.0, r.1, |a.samplers|, Track(node, times, c), input, f32)
    ensures r.1.samplers[|a.samplers|].output == |b.accessors|
  {
    var (b1, view) := AddFloats(b, c.values, f32);
    var (b2, output) := AddAccessor(b1, CurveAccessor(b.nodes[node].name, view, c, |times|));
    var a1 := a.(samplers := a.samplers + [AnimationSampler(input, output)],
                 channels := a.channels + [AnimationChannel(|a.samplers|, node, c.path)]);
    assert Grows(b1, b2);
    GrowsTransitive(b, b1, b2);
    assert TimeAt(b2, input, node, times, f32);
    assert CurveAt(b2, output, node, |times|, c, f32);
    (b2, a1)
  }

  /** The loop over a node's curves, in order. */
  function AddCurves(b: Builder, a: Animation, node: nat, input: nat, times: seq<real>,
                     cs: seq<PathCurve>, f32: Float32Encoder): (r: (Builder, Animation))
    requires Valid(b) && FourBytes(f32) && Paired(a) && TimeAt(b, input, node, times, f32)
    ensures Valid(r.0) && Grows(b, r.0) && Paired(r.1) && r.1.name == a.name
    ensures |r.0.accessors| == |b.accessors| + |cs| && |r.0.bufferViews| == |b.bufferViews| + |cs|
    ensures |r.1.samplers| == |a.samplers| + |cs|
    ensures a.samplers <= r.1.samplers && a.channels <= r.1.channels
    ensures Realises(r.0, r.1, |a.samplers|, CurveTracks(node, times, cs), input, f32)
    ensures Above(r.1, |a.samplers|, |b.accessors|) && Increasing(r.1, |a.samplers|, |r.1.samplers|)
    decreases |cs|
  {
    if cs == [] then (b, a)
    else
      var (b1, a1) := AddCurve(b, a, node, input, times, cs[0], f32);
      TimeAtMoves(b, b1, input, node, times, f32);
      var r := AddCurves(b1, a1, node, input, times, cs[1..], f32);
      CurvesJoin(b, a, b1, a1, r.0, r.1, node, input, times, cs, f32);
      AboveJoin(a, a1, r.1, |b.accessors|, |b1.accessors|);
      r
  }

  /** The first curve's step followed by the rest of the loop realises all the curves. */
  lemma CurvesJoin(b: Builder, a: Animation, b1: Builder, a1: Animation, b2: Builder, a2: Animation,
                   node: nat, input: nat, times: seq<real>, cs: seq<PathCurve>, f32: Float32Encoder)
    requires cs != [] && Grows(b, b1) && Grows(b1, b2)
    requires |b1.accessors| == |b.accessors| + 1 && |a1.samplers| == |a.samplers| + 1
    requires a.samplers <= a1.samplers && a1.samplers <= a2.samplers && a1.channels <= a2.channels
    requires |a2.samplers| == |a1.samplers| + |cs| - 1
    requires Realised(b1, a1, |a.samplers|, Track(node, times, cs[0]), input, f32)
    requires a1.samplers[|a.samplers|].output == |b.accessors|
    requires Realises(b2, a2, |a1.samplers|, CurveTracks(node, times, cs[1..]), input, f32)
    requires Above(a2, |a1.samplers|, |b1.accessors|) && Increasing(a2, |a1.samplers|, |a2.samplers|)
    ensures Grows(b, b2)
    ensures Realises(b2, a2, |a.samplers|, CurveTracks(node, times, cs), input, f32)
    ensures Increasing(a2, |a.samplers|, |a2.samplers|)
  {
    var t := Track(node, times, cs[0]);
    GrowsTransitive(b, b1, b2);
    RealisesOne(b1, a1, |a.samplers|, t, input, f32);
    CurveTracksFirst(node, times, cs);
    SamplersJoin(b1, a1, b2, a2, |a.samplers|, [t], CurveTracks(node, times, cs[1..]), input, input, f32);
  }

  lemma RealisesOne(b: Builder, a: Animation, j: nat, t: Track, lo: nat, f32: Float32Encoder)
    requires Realised(b, a, j, t, lo, f32)
    ensures Realises(b, a, j, [t], lo, f32) && Increasing(a, j, j + 1)
  {
    assert [t][0] == t;
  }

  lemma CurveTracksFirst(node: nat, times: seq<real>, cs: seq<PathCurve>)
    requires cs != []
    ensures CurveTracks(node, times, cs) == [Track(node, times, cs[0])] + CurveTracks(node, times, cs[1..])
  {
  }

  /** A sampler reading accessor `bound` followed by samplers reading at or above a higher
      bound: all of them read at or above `bound`. */
  lemma AboveJoin(a: Animation, a1: Animation, a2: Animation, bound: nat, bound1: nat)
    requires a.samplers <= a1.samplers && a1.samplers <= a2.samplers
    requires |a1.samplers| == |a.samplers| + 1 && a1.samplers[|a.samplers|].output == bound
    requires Above(a2, |a1.samplers|, bound1) && bound <= bound1
    ensures Above(a2, |a.samplers|, bound)
  {
    assert a2.samplers[|a.samplers|] == a1.samplers[|a.samplers|];
  }

  lemma TimeAtMoves(b: Builder, b': Builder, i: nat, node: nat, times: seq<real>, f32: Float32Encoder)
    requires Grows(b, b') && TimeAt(b, i, node, times, f32)
    ensures TimeAt(b', i, node, times, f32)
  {
    assert b'.accessors[i] == b.accessors[i];
  }

  /** `convertNodeAnimation` for a node with curves: a view and the `<node>-Time` accessor
      for the frame times, then the curve loop. The accessors it adds come right after the
      existing ones and realise the node's tracks, in translation, rotation, scale order. */
  function ConvertNodeAnimation(b: Builder, a: Animation, n: NodeSample, f32: Float32Encoder): (r: (Builder, Animation))
    requires Valid(b) && FourBytes(f32) && Paired(a) && n.node < |b.nodes|
    ensures Valid(r.0) && Grows(b, r.0) && Paired(r.1) && r.1.name == a.name
    ensures |r.0.accessors| == |b.accessors| + 1 + |Curves(n)|
    ensures |r.0.bufferViews| == |b.bufferViews| + 1 + |Curves(n)|
    ensures |r.1.samplers| == |a.samplers| + |TracksOf(n)|
    ensures a.samplers <= r.1.samplers && a.channels <= r.1.channels
    ensures Realises(r.0, r.1, |a.samplers|, TracksOf(n), |b.accessors|, f32)
    ensures Increasing(r.1, |a.samplers|, |r.1.samplers|)
  {
    var name := b.nodes[n.node].name;
    var (b1, view) := AddFloats(b, n.times, f32);
    var (b2, input) := AddAccessor(b1, TimeAccessor(name, view, n.times));
    assert Grows(b1, b2);
    GrowsTransitive(b, b1, b2);
    assert TimeAt(b2, input, n.node, n.times, f32);
    var r := AddCurves(b2, a, n.node, input, n.times, Curves(n), f32);
    GrowsTransitive(b, b2, r.0);
    r
  }

  // ------------------------------------------------------------ one layer

  /** Every sample targets one of the first `nodes` glTF nodes. */
  predicate Targets(samples: seq<NodeSample>, nodes: nat) {
    forall k :: 0 <= k < |samples| ==> samples[k].node < nodes
  }

  /** `convertNodeAnimationRecursive` over one layer: the node samples in walk order, each
      allocating its time accessor and its curve accessors after everything before it. */
  function ConvertLayer(b: Builder, a: Animation, samples: seq<NodeSample>, f32: Float32Encoder): (r: (Builder, Animation))
    requires Valid(b) && FourBytes(f32) && Paired(a) && Targets(samples, |b.nodes|)
    ensures Valid(r.0) && Grows(b, r.0) && Paired(r.1) && r.1.name == a.name
    ensures |r.0.accessors| == |b.accessors| + Allocated(samples)
    ensures |r.0.bufferViews| == |b.bufferViews| + Allocated(samples)
    ensures |r.1.samplers| == |a.samplers| + |Tracks(samples)|
    ensures a.samplers <= r.1.samplers && a.channels <= r.1.channels
    ensures Realises(r.0, r.1, |a.samplers|, Tracks(samples), |b.accessors|, f32)
    ensures Increasing(r.1, |a.samplers|, |r.1.samplers|)
    decreases |samples|
  {
    if samples == [] then (b, a)
    else
      var front := samples[..|samples| - 1];
      var last := samples[|samples| - 1];
      var (b1, a1) := ConvertLayer(b, a, front, f32);
      var (b2, a2) := ConvertNodeAnimation(b1, a1, last, f32);
      GrowsTransitive(b, b1, b2);
      RealisesAbove(b2, a2, |a1.samplers|, TracksOf(last), |b1.accessors|, f32);
      SamplersJoin(b1, a1, b2, a2, |a.samplers|, Tracks(front), TracksOf(last), |b.accessors|, |b1.accessors|, f32);
      (b2, a2)
  }

  // ------------------------------------------------------------ one stack

  /** The layer read in round i of the layer loop. */
  function LayerRead(s: AnimStack, i: nat, reading: LayerReading): AnimLayer
    requires i < |s.layers|
  {
    match reading
    case FirstLayerOnly => s.layers[0]
    case ByIndex => s.layers[i]
  }

  /** The node samples the first n rounds read, in order. */
  function SamplesRead(s: AnimStack, reading: LayerReading, n: nat): seq<NodeSample>
    requires n <= |s.layers|
  {
    if n == 0 then [] else SamplesRead(s, reading, n - 1) + LayerRead(s, n - 1, reading).samples
  }

  /** The tracks the whole layer loop reads. */
  function StackTracks(s: AnimStack, reading: LayerReading): seq<Track> {
    Tracks(SamplesRead(s, reading, |s.layers|))
  }

  predicate StackTargets(s: AnimStack, nodes: nat) {
    forall i :: 0 <= i < |s.layers| ==> Targets(s.layers[i].samples, nodes)
  }

  /** The layer loop: rounds 0 .. n-1, each converting the layer it reads into new accessors
      and appending its samplers and channels. */
  function LayerLoop(b: Builder, s: AnimStack, reading: LayerReading, a: Animation, n: nat, f32: Float32Encoder): (r: (Builder, Animation))
    requires Valid(b) && FourBytes(f32) && Paired(a) && n <= |s.layers| && StackTargets(s, |b.nodes|)
    ensures Valid(r.0) && Grows(b, r.0) && Paired(r.1) && r.1.name == a.name
    ensures |r.0.accessors| == |b.accessors| + Allocated(SamplesRead(s, reading, n))
    ensures |r.0.bufferViews| == |b.bufferViews| + Allocated(SamplesRead(s, reading, n))
    ensures |r.1.samplers| == |a.samplers| + |Tracks(SamplesRead(s, reading, n))|
    ensures a.samplers <= r.1.samplers && a.channels <= r.1.channels
    ensures Realises(r.0, r.1, |a.samplers|, Tracks(SamplesRead(s, reading, n)), |b.accessors|, f32)
    ensures Increasing(r.1, |a.samplers|, |r.1.samplers|)
    decreases n
  {
    if n == 0 then (b, a)
    else
      var (b1, a1) := LayerLoop(b, s, reading, a, n - 1, f32);
      var layer := LayerRead(s, n - 1, reading);
      assert Targets(layer.samples, |b1.nodes|);
      var (b2, a2) := ConvertLayer(b1, a1, layer.samples, f32);
      GrowsTransitive(b, b1, b2);
      TracksAppend(SamplesRead(s, reading, n - 1), layer.samples);
      RealisesAbove(b2, a2, |a1.samplers|, Tracks(layer.samples), |b1.accessors|, f32);
      SamplersJoin(b1, a1, b2, a2, |a.samplers|, Tracks(SamplesRead(s, reading, n - 1)),
                   Tracks(layer.samples), |b.accessors|, |b1.accessors|, f32);
      (b2, a2)
  }

  /** Animation x is the conversion of stack s: named after it, at least one sampler, and
      its channels and samplers realise the stack's tracks in order, each sampler reading
      accessors numbered `lo` or more, no output accessor shared. */
  ghost predicate Converted(b: Builder, x: Animation, s: AnimStack, reading: LayerReading, lo: nat, f32: Float32Encoder) {
    && x.name == s.name && Paired(x)
    && 0 < |x.samplers| == |StackTracks(s, reading)|
    && Realises(b, x, 0, StackTracks(s, reading), lo, f32)
    && Increasing(x, 0, |x.samplers|)
  }

  /** One iteration of the stack loop: a stack with layers runs the layer loop on an empty
      animation, which is kept when it gathered a sampler. The accessors and views the loop
      allocates stay even when the animation is dropped. */
  function ConvertStack(b: Builder, s: AnimStack, reading: LayerReading, f32: Float32Encoder): (r: (Builder, Option<Animation>))
    requires Valid(b) && FourBytes(f32) && StackTargets(s, |b.nodes|)
    ensures Valid(r.0) && Grows(b, r.0)
    ensures |r.0.accessors| == |b.accessors| + Allocated(SamplesRead(s, reading, |s.layers|))
    ensures |r.0.bufferViews| == |b.bufferViews| + Allocated(SamplesRead(s, reading, |s.layers|))
    ensures r.1.Some? <==> |s.layers| > 0 && |StackTracks(s, reading)| > 0
    ensures r.1.Some? ==> Converted(r.0, r.1.value, s, reading, |b.accessors|, f32)
  {
    if |s.layers| == 0 then (b, None)
    else
      var (b', a) := LayerLoop(b, s, reading, Animation(s.name, [], []), |s.layers|, f32);
      (b', if |a.samplers| > 0 then Some(a) else None)
  }

  // ------------------------------------------------------------ reading the layers

  /** Round n adds the tracks of the layer it reads after those of the rounds before. */
  lemma TracksReadStep(s: AnimStack, reading: LayerReading, n: nat)
    requires 0 < n <= |s.layers|
    ensures Tracks(SamplesRead(s, reading, n)) ==
      Tracks(SamplesRead(s, reading, n - 1)) + Tracks(LayerRead(s, n - 1, reading).samples)
  {
    var prev := SamplesRead(s, reading, n - 1);
    var l := LayerRead(s, n - 1, reading).samples;
    assert SamplesRead(s, reading, n) == prev + l;
    TracksAppend(prev, l);
  }

  /** Reading layer 0 in every round gathers the first layer's tracks once per round. */
  lemma {:induction false} FirstLayerRepeated(s: AnimStack, n: nat)
    requires 0 < |s.layers| && n <= |s.layers|
    ensures |Tracks(SamplesRead(s, FirstLayerOnly, n))| == n * |Tracks(s.layers[0].samples)|
  {
    if n > 0 {
      var m := |Tracks(s.layers[0].samples)|;
      FirstLayerRepeated(s, n - 1);
      TracksReadStep(s, FirstLayerOnly, n);
      assert LayerRead(s, n - 1, FirstLayerOnly) == s.layers[0];
      assert n * m == (n - 1) * m + m;
    }
  }

  /** The tracks of the first r rounds are a prefix of those of the first n. */
  lemma {:induction false} TracksReadPrefix(s: AnimStack, reading: LayerReading, r: nat, n: nat)
    requires r <= n <= |s.layers|
    ensures Tracks(SamplesRead(s, reading, r)) <= Tracks(SamplesRead(s, reading, n))
    decreases n
  {
    if r < n {
      TracksReadPrefix(s, reading, r, n - 1);
      TracksReadStep(s, reading, n);
      PrefixExtended(Tracks(SamplesRead(s, reading, r)), Tracks(SamplesRead(s, reading, n - 1)),
                     Tracks(LayerRead(s, n - 1, reading).samples));
    }
  }

  lemma PrefixExtended<T>(a: seq<T>, b: seq<T>, c: seq<T>)
    requires a <= b
    ensures a <= b + c
  {
    assert (b + c)[..|a|] == b[..|a|];
  }

  /** Under the first-layer reading, round r meets track j of layer 0 right after the tracks
      of the rounds before it. */
  lemma FirstLayerTrackAt(s: AnimStack, r: nat, j: nat)
    requires r < |s.layers| && j < |Tracks(s.layers[0].samples)|
    ensures |Tracks(SamplesRead(s, FirstLayerOnly, r))| + j < |StackTracks(s, FirstLayerOnly)|
    ensures StackTracks(s, FirstLayerOnly)[|Tracks(SamplesRead(s, FirstLayerOnly, r))| + j] ==
      Tracks(s.layers[0].samples)[j]
  {
    var before := Tracks(SamplesRead(s, FirstLayerOnly, r));
    var round := Tracks(s.layers[0].samples);
    var upto := Tracks(SamplesRead(s, FirstLayerOnly, r + 1));
    var all := StackTracks(s, FirstLayerOnly);
    assert upto == before + round by {
      TracksReadStep(s, FirstLayerOnly, r + 1);
      assert LayerRead(s, r, FirstLayerOnly) == s.layers[0];
    }
    assert upto <= all by {
      TracksReadPrefix(s, FirstLayerOnly, r + 1, |s.layers|);
    }
    JoinedIndex(before, round, all, j);
  }

  /** Element j of the second part of a prefix a + c of b sits at |a| + j in b. */
  lemma JoinedIndex<T>(a: seq<T>, c: seq<T>, b: seq<T>, j: nat)
    requires a + c <= b && j < |c|
    ensures |a| + j < |b| && b[|a| + j] == c[j]
  {
    PrefixIndex(a + c, b, |a| + j);
    assert (a + c)[|a| + j] == c[j];
  }

  lemma PrefixIndex<T>(a: seq<T>, b: seq<T>, i: nat)
    requires a <= b && i < |a|
    ensures i < |b| && b[i] == a[i]
  {
    assert b[..|a|][i] == b[i];
  }

  /** Under the first-layer reading, round r > 0 samples layer 0 again into new accessors:
      the sampler at track j of round r realises the same track as round 0's sampler j,
      through a later output accessor. */
  lemma FirstLayerResampled(b: Builder, s: AnimStack, f32: Float32Encoder, r: nat, j: nat)
    requires Valid(b) && FourBytes(f32) && StackTargets(s, |b.nodes|)
    requires 0 < r < |s.layers| && j < |Tracks(s.layers[0].samples)|
    ensures var p := |Tracks(SamplesRead(s, FirstLayerOnly, r))| + j;
      var x := ConvertStack(b, s, FirstLayerOnly, f32);
      && j < p < |StackTracks(s, FirstLayerOnly)|
      && StackTracks(s, FirstLayerOnly)[p] == StackTracks(s, FirstLayerOnly)[j] == Tracks(s.layers[0].samples)[j]
      && x.1.Some? && p < |x.1.value.samplers|
      && x.1.value.samplers[j].output < x.1.value.samplers[p].output
  {
    FirstLayerTrackAt(s, r, j);
    FirstLayerTrackAt(s, 0, j);
    TracksReadPrefix(s, FirstLayerOnly, 1, r);
    assert SamplesRead(s, FirstLayerOnly, 1) == s.layers[0].samples by {
      assert SamplesRead(s, FirstLayerOnly, 1) == [] + s.layers[0].samples;
    }
    var x := ConvertStack(b, s, FirstLayerOnly, f32);
    assert Increasing(x.1.value, 0, |x.1.value.samplers|);
  }

  /** Reading by index gathers every layer's tracks exactly once. */
  lemma {:induction false} ByIndexReadsAll(s: AnimStack, n: nat)
    requires n <= |s.layers|
    ensures |Tracks(SamplesRead(s, ByIndex, n))| == TrackCount(s.layers[..n])
  {
    if n > 0 {
      ByIndexReadsAll(s, n - 1);
      TracksReadStep(s, ByIndex, n);
      assert s.layers[..n][..n - 1] == s.layers[..n - 1];
    }
  }

  /** The number of tracks of a list of layers. */
  function TrackCount(ls: seq<AnimLayer>): nat {
    if ls == [] then 0 else TrackCount(ls[..|ls| - 1]) + |Tracks(ls[|ls| - 1].samples)|
  }

  /** A node rotated over one frame. */
  function Spin(): NodeSample {
    NodeSample(0, [0.0], None, Some([0.0, 0.0, 0.0, 1.0]), None)
  }

  /** A stack whose first layer animates nothing loses the animation of its later layers:
      with the first layer empty and a second layer rotating node 0, the loop as written adds
      no animation, while reading by index adds one with a single sampler. */
  lemma LaterLayersLost(b: Builder, f32: Float32Encoder)
    requires Valid(b) && FourBytes(f32) && |b.nodes| > 0
    ensures var s := AnimStack("Take", [AnimLayer([]), AnimLayer([Spin()])]);
      ConvertStack(b, s, FirstLayerOnly, f32).1.None? && ConvertStack(b, s, ByIndex, f32).1.Some? &&
      |ConvertStack(b, s, ByIndex, f32).1.value.samplers| == 1
  {
    var s := AnimStack("Take", [AnimLayer([]), AnimLayer([Spin()])]);
    assert Curves(Spin()) == [PathCurve("rotation", VEC4, [0.0, 0.0, 0.0, 1.0])];
    assert Tracks([Spin()]) == Tracks([]) + TracksOf(Spin());
    FirstLayerRepeated(s, 2);
    assert SamplesRead(s, ByIndex, 1) == [];
    assert SamplesRead(s, ByIndex, 2) == [Spin()];
  }

  // ------------------------------------------------------------ all stacks

  predicate AllTargets(stacks: seq<AnimStack>, nodes: nat) {
    forall i :: 0 <= i < |stacks| ==> StackTargets(stacks[i], nodes)
  }

  /** The stacks that yield an animation, in order. */
  function Yielding(stacks: seq<AnimStack>, reading: LayerReading): seq<AnimStack> {
    if stacks == [] then []
    else
      var front := Yielding(stacks[..|stacks| - 1], reading);
      var s := stacks[|stacks| - 1];
      if |s.layers| > 0 && |StackTracks(s, reading)| > 0 then front + [s] else front
  }

  /** Accessors (and views) all stacks allocate. */
  function StackAllocation(stacks: seq<AnimStack>, reading: LayerReading): nat {
    if stacks == [] then 0
    else
      var s := stacks[|stacks| - 1];
      StackAllocation(stacks[..|stacks| - 1], reading) + Allocated(SamplesRead(s, reading, |s.layers|))
  }

  /** The animations of b' after those of b are the conversions of the stacks ys, in order,
      each reading accessors that b did not have. */
  ghost predicate ConvertedAfter(b: Builder, b': Builder, ys: seq<AnimStack>, reading: LayerReading, f32: Float32Encoder) {
    && |b'.animations| == |b.animations| + |ys|
    && forall k :: 0 <= k < |ys| ==>
         Converted(b', b'.animations[|b.animations| + k], ys[k], reading, |b.accessors|, f32)
  }

  lemma ConvertedMoves(b: Builder, b': Builder, x: Animation, s: AnimStack, reading: LayerReading, lo: nat, f32: Float32Encoder)
    requires GrowsWithAnimations(b, b')
    requires Converted(b, x, s, reading, lo, f32)
    ensures Converted(b', x, s, reading, lo, f32)
  {
    var ts := StackTracks(s, reading);
    var c := b.(animations := b'.animations);
    assert Grows(c, b');
    forall j | 0 <= j < |ts|
      ensures Realised(b', x, j, ts[j], lo, f32)
    {
      assert Realised(b, x, 0 + j, ts[j], lo, f32);
      assert Realised(c, x, j, ts[j], lo, f32);
      RealisedMoves(c, b', x, x, j, ts[j], lo, f32);
    }
  }

  /** The stack loop: stacks in order, each allocating the storage of its samples and adding
      its animation when it has one. */
  function ConvertAnimations(b: Builder, stacks: seq<AnimStack>, reading: LayerReading, f32: Float32Encoder): (r: Builder)
    requires Valid(b) && FourBytes(f32) && AllTargets(stacks, |b.nodes|)
    ensures Valid(r) && GrowsWithAnimations(b, r)
    ensures |r.accessors| == |b.accessors| + StackAllocation(stacks, reading)
    ensures |r.bufferViews| == |b.bufferViews| + StackAllocation(stacks, reading)
    ensures ConvertedAfter(b, r, Yielding(stacks, reading), reading, f32)
    decreases |stacks|
  {
    if stacks == [] then b
    else
      var front := stacks[..|stacks| - 1];
      var bi := ConvertAnimations(b, front, reading, f32);
      StackRound(b, bi, stacks, reading, f32)
  }

  /** The last round of the stack loop: converts the last stack and adds its animation when
      it has one. */
  function StackRound(b: Builder, bi: Builder, stacks: seq<AnimStack>, reading: LayerReading,
                      f32: Float32Encoder): (r: Builder)
    requires stacks != [] && Valid(bi) && FourBytes(f32) && GrowsWithAnimations(b, bi)
    requires StackTargets(stacks[|stacks| - 1], |b.nodes|)
    requires |bi.accessors| == |b.accessors| + StackAllocation(stacks[..|stacks| - 1], reading)
    requires |bi.bufferViews| == |b.bufferViews| + StackAllocation(stacks[..|stacks| - 1], reading)
    requires ConvertedAfter(b, bi, Yielding(stacks[..|stacks| - 1], reading), reading, f32)
    ensures Valid(r) && GrowsWithAnimations(b, r)
    ensures |r.accessors| == |b.accessors| + StackAllocation(stacks, reading)
    ensures |r.bufferViews| == |b.bufferViews| + StackAllocation(stacks, reading)
    ensures ConvertedAfter(b, r, Yielding(stacks, reading), reading, f32)
  {
    var s := stacks[|stacks| - 1];
    var (b1, a) := ConvertStack(bi, s, reading, f32);
    var b2 := if a.Some? then AddAnimation(b1, a.value).0 else b1;
    StackStep(b, bi, b1, b2, stacks, a, reading, f32);
    b2
  }

  /** The last round of the stack loop keeps what the earlier rounds built and adds the
      animation of the last stack when it yields one. */
  lemma StackStep(b: Builder, bi: Builder, b1: Builder, b2: Builder, stacks: seq<AnimStack>,
                  a: Option<Animation>, reading: LayerReading, f32: Float32Encoder)
    requires stacks != [] && GrowsWithAnimations(b, bi) && Grows(bi, b1)
    requires ConvertedAfter(b, bi, Yielding(stacks[..|stacks| - 1], reading), reading, f32)
    requires var s := stacks[|stacks| - 1];
      && (a.Some? <==> |s.layers| > 0 && |StackTracks(s, reading)| > 0)
      && (a.Some? ==> Converted(b1, a.value, s, reading, |bi.accessors|, f32))
    requires b2 == if a.Some? then AddAnimation(b1, a.value).0 else b1
    ensures GrowsWithAnimations(b, b2)
    ensures ConvertedAfter(b, b2, Yielding(stacks, reading), reading, f32)
  {
    var s := stacks[|stacks| - 1];
    var ys := Yielding(stacks[..|stacks| - 1], reading);
    assert GrowsWithAnimations(b, b1);
    assert GrowsWithAnimations(b, b2);
    assert GrowsWithAnimations(bi, b2);
    assert GrowsWithAnimations(b1, b2);
    forall k | 0 <= k < |ys|
      ensures Converted(b2, b2.animations[|b.animations| + k], ys[k], reading, |b.accessors|, f32)
    {
      assert b2.animations[|b.animations| + k] == bi.animations[|b.animations| + k];
      ConvertedMoves(bi, b2, bi.animations[|b.animations| + k], ys[k], reading, |b.accessors|, f32);
    }
    if a.Some? {
      assert Yielding(stacks, reading) == ys + [s];
      ConvertedMoves(b1, b2, a.value, s, reading, |bi.accessors|, f32);
      ConvertedLower(b2, a.value, s, reading, |bi.accessors|, |b.accessors|, f32);
      assert b2.animations[|b.animations| + |ys|] == a.value;
    }
  }

  lemma ConvertedLower(b: Builder, x: Animation, s: AnimStack, reading: LayerReading, lo: nat, lo': nat, f32: Float32Encoder)
    requires lo' <= lo && Converted(b, x, s, reading, lo, f32)
    ensures Converted(b, x, s, reading, lo', f32)
  {
    var ts := StackTracks(s, reading);
    forall j | 0 <= j < |ts|
      ensures Realised(b, x, j, ts[j], lo', f32)
    {
      assert Realised(b, x, 0 + j, ts[j], lo, f32);
    }
  }
}
