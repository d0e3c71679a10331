/** `convertPrimitive`: the vertices of one material's polygons are fetched from the mesh's
    control points and layers, laid out as interleaved attributes in one buffer view, and
    described by one accessor per attribute. */
module Primitive {
  import opened Wrappers
  import opened GlTF
  import opened LayerElement
  import opened Seqs
  import opened VertexLayout
  import opened Builder
  import Skinning

  /** A triangulated FBX mesh as the converter reads it. Positions are the control points
      after the mesh's geometric transform and normals are stored after the normal
      transform: the transform is applied to every fetched value, so applying it to the
      layer's entries first gives the same vertices. */
  datatype FbxMesh = FbxMesh(
    controlPoints: seq<seq<JsNumber>>,
    polygons: seq<seq<nat>>,
    normal: Option<Element<seq<JsNumber>>>,
    uvs: seq<Element<seq<JsNumber>>>,
    colors: seq<Element<seq<JsNumber>>>)

  /** Entries of a layer have `width` components and every lookup the mesh allows lands inside
      the SDK arrays. */
  predicate LayerFits(e: Element<seq<JsNumber>>, width: nat, nControlPoints: nat, nPolygonVertices: nat) {
    && (forall i :: 0 <= i < |e.directArray| ==> |e.directArray[i]| == width)
    && (forall cp, pv :: 0 <= cp < nControlPoints && 0 <= pv < nPolygonVertices ==> Fetchable(e, cp, pv))
  }

  /** Triangles over existing control points, three-component positions, three-component
      normals, two-component UVs, four-component colours; the skin's influence chunks hold
      an entry of four joints and four weights per control point. */
  predicate MeshFits(m: FbxMesh, influences: seq<seq<Skinning.Influences4>>) {
    var nCP, nPV := |m.controlPoints|, 3 * |m.polygons|;
    && (forall p :: 0 <= p < |m.polygons| ==> |m.polygons[p]| == 3)
    && (forall p, c :: 0 <= p < |m.polygons| && 0 <= c < |m.polygons[p]| ==> m.polygons[p][c] < nCP)
    && (forall cp :: 0 <= cp < nCP ==> |m.controlPoints[cp]| == 3)
    && (m.normal.Some? ==> LayerFits(m.normal.value, 3, nCP, nPV))
    && (forall i :: 0 <= i < |m.uvs| ==> LayerFits(m.uvs[i], 2, nCP, nPV))
    && (forall i :: 0 <= i < |m.colors| ==> LayerFits(m.colors[i], 4, nCP, nPV))
    && (forall q :: 0 <= q < |influences| ==> |influences[q]| == nCP)
    && (forall q, cp :: 0 <= q < |influences| && 0 <= cp < |influences[q]| ==>
          |influences[q][cp].joints| == 4 && |influences[q][cp].weights| == 4)
  }

  /** A material's polygon list as the mesh division produces it: ascending polygon indices. */
  predicate DivisionOf(m: FbxMesh, polygons: seq<nat>) {
    && (forall i, j :: 0 <= i < j < |polygons| ==> polygons[i] < polygons[j])
    && (forall i :: 0 <= i < |polygons| ==> polygons[i] < |m.polygons|)
  }

  /** An ascending list of polygons of the mesh has at most as many entries as the mesh has
      polygons. */
  lemma DivisionSize(m: FbxMesh, polygons: seq<nat>)
    requires DivisionOf(m, polygons)
    ensures |polygons| <= |m.polygons|
  {
    if polygons != [] {
      AscendingAtLeastIndex(polygons, |polygons| - 1);
    }
  }

  lemma {:induction false} AscendingAtLeastIndex(s: seq<nat>, i: nat)
    requires forall a, b :: 0 <= a < b < |s| ==> s[a] < s[b]
    requires i < |s|
    ensures s[i] >= i
  {
    if i > 0 {
      AscendingAtLeastIndex(s, i - 1);
    }
  }

  // ------------------------------------------------------------ fetching layers

  /** Whether `GetVertexAttribute` can read the layer at all. */
  predicate Supported<T>(e: Element<T>) {
    (e.mappingMode == ByControlPoint || e.mappingMode == ByPolygonVertex) &&
    (e.referenceMode == Direct || e.referenceMode == IndexToDirect)
  }

  /** The error `GetVertexAttribute` throws on a layer it cannot read. */
  function ModeError<T>(e: Element<T>): Error {
    if e.mappingMode == ByControlPoint || e.mappingMode == ByPolygonVertex then UnknownReferenceMode
    else UnknownMappingMode
  }

  /** The position of the first layer that cannot be read, or the number of layers. */
  function FirstUnsupported<T>(layers: seq<Element<T>>): (i: nat)
    ensures i <= |layers|
    ensures forall j :: 0 <= j < i ==> Supported(layers[j])
    ensures i < |layers| ==> !Supported(layers[i])
  {
    if layers == [] then 0
    else if !Supported(layers[0]) then 0
    else 1 + FirstUnsupported(layers[1..])
  }

  /** Every layer a vertex is read from, in the order the converter reads them: the normal
      layer, the UV layers, the colour layers. */
  function AllLayers(m: FbxMesh): seq<Element<seq<JsNumber>>> {
    (if m.normal.Some? then [m.normal.value] else []) + m.uvs + m.colors
  }

  /** The error a vertex fetch throws, if any: that of the first unreadable layer. */
  function LayerError(m: FbxMesh): Option<Error> {
    var layers := AllLayers(m);
    var i := FirstUnsupported(layers);
    if i < |layers| then Some(ModeError(layers[i])) else None
  }

  /** One value from each layer, in order; the first unreadable layer's error otherwise. */
  function FetchLayers(layers: seq<Element<seq<JsNumber>>>, cp: nat, pv: nat): (r: Result<seq<seq<JsNumber>>>)
    requires forall i :: 0 <= i < |layers| ==> Fetchable(layers[i], cp, pv)
    ensures r.Success? <==> FirstUnsupported(layers) == |layers|
    ensures r.Failure? ==> r.error == ModeError(layers[FirstUnsupported(layers)])
    ensures r.Success? ==> |r.value| == |layers|
    ensures r.Success? ==>
      forall i :: 0 <= i < |layers| ==> GetVertexAttribute(layers[i], cp, pv) == Success(r.value[i])
  {
    if layers == [] then Success([])
    else
      var x :- GetVertexAttribute(layers[0], cp, pv);
      var rest :- FetchLayers(layers[1..], cp, pv);
      Success([x] + rest)
  }

  /** The first unreadable layer of a concatenation: in the first part if it has one. */
  lemma {:induction false} FirstUnsupportedAppend<T>(a: seq<Element<T>>, b: seq<Element<T>>)
    ensures FirstUnsupported(a) < |a| ==> FirstUnsupported(a + b) == FirstUnsupported(a)
    ensures FirstUnsupported(a) == |a| ==> FirstUnsupported(a + b) == |a| + FirstUnsupported(b)
  {
    if a != [] {
      assert (a + b)[1..] == a[1..] + b;
      assert (a + b)[0] == a[0];
      FirstUnsupportedAppend(a[1..], b);
    } else {
      assert a + b == b;
    }
  }

  /** `JavaScript 1.0 - y`. */
  function OneMinus(y: JsNumber): JsNumber {
    match y
    case Finite(r) => Finite(1.0 - r)
    case NaN => NaN
    case Infinity(negative) => Infinity(!negative)
  }

  /** With `flipV` set, a UV (u, v) becomes (u, 1 - v): glTF's V axis points down. */
  function FlipV(flipV: bool, uv: seq<JsNumber>): (r: seq<JsNumber>)
    requires |uv| == 2
    ensures |r| == 2 && r[0] == uv[0]
    ensures flipV ==> r[1] == OneMinus(uv[1])
    ensures !flipV ==> r == uv
  {
    if flipV then [uv[0], OneMinus(uv[1])] else uv
  }

  /** Flipping twice gives the UV back. */
  lemma FlipVInvolution(uv: seq<JsNumber>)
    requires |uv| == 2
    ensures FlipV(true, FlipV(true, uv)) == uv
  {
    var f := FlipV(true, FlipV(true, uv));
    assert f[1] == uv[1];
  }

  // ------------------------------------------------------------ one vertex

  /** Everything the converter records for one vertex: its position, its normal when the
      mesh has a normal layer, one value per UV layer and per colour layer, and its control
      point's entry in every influence chunk. */
  datatype Vertex = Vertex(
    position: seq<JsNumber>,
    normal: Option<seq<JsNumber>>,
    uvs: seq<seq<JsNumber>>,
    colors: seq<seq<JsNumber>>,
    influences: seq<Skinning.Influences4>)

  /** The first unreadable layer is the normal layer if that cannot be read, else the first
      unreadable UV layer, else the first unreadable colour layer. */
  lemma LayerErrorCases(m: FbxMesh)
    ensures var normalFails := m.normal.Some? && !Supported(m.normal.value);
      var uvFails := FirstUnsupported(m.uvs) < |m.uvs|;
      var colorFails := FirstUnsupported(m.colors) < |m.colors|;
      && (LayerError(m).Some? <==> normalFails || uvFails || colorFails)
      && (normalFails ==> LayerError(m) == Some(ModeError(m.normal.value)))
      && (!normalFails && uvFails ==> LayerError(m) == Some(ModeError(m.uvs[FirstUnsupported(m.uvs)])))
      && (!normalFails && !uvFails && colorFails ==>
            LayerError(m) == Some(ModeError(m.colors[FirstUnsupported(m.colors)])))
  {
    var head: seq<Element<seq<JsNumber>>> := if m.normal.Some? then [m.normal.value] else [];
    assert AllLayers(m) == head + m.uvs + m.colors;
    FirstUnsupportedAppend(head + m.uvs, m.colors);
    FirstUnsupportedAppend(head, m.uvs);
    if m.normal.Some? {
      assert FirstUnsupported(head) == (if Supported(m.normal.value) then 1 else 0);
    }
  }

  /** A fetched UV has two components. */
  lemma UVWidth(m: FbxMesh, influences: seq<seq<Skinning.Influences4>>, cp: nat, pv: nat, i: nat)
    requires MeshFits(m, influences) && cp < |m.controlPoints| && pv < 3 * |m.polygons| && i < |m.uvs|
    requires GetVertexAttribute(m.uvs[i], cp, pv).Success?
    ensures |GetVertexAttribute(m.uvs[i], cp, pv).value| == 2
  {
    var e := m.uvs[i];
    assert LayerFits(e, 2, |m.controlPoints|, 3 * |m.polygons|);
    var x := GetVertexAttribute(e, cp, pv).value;
    var j :| 0 <= j < |e.directArray| && e.directArray[j] == x;
  }

  /** Vertex x is what the layers hold for control point cp and polygon-vertex pv: the control
      point's position, the normal, UV and colour layers' values (UVs flipped when asked),
      and the control point's entry in every influence chunk. */
  predicate VertexFetched(m: FbxMesh, influences: seq<seq<Skinning.Influences4>>, cp: nat, pv: nat, flipV: bool, x: Vertex)
    requires MeshFits(m, influences) && cp < |m.controlPoints| && pv < 3 * |m.polygons|
  {
    && x.position == m.controlPoints[cp]
    && (m.normal.Some? <==> x.normal.Some?)
    && (m.normal.Some? ==> GetVertexAttribute(m.normal.value, cp, pv) == Success(x.normal.value))
    && |x.uvs| == |m.uvs|
    && (forall i :: 0 <= i < |m.uvs| ==>
          GetVertexAttribute(m.uvs[i], cp, pv).Success? &&
          (UVWidth(m, influences, cp, pv, i);
           x.uvs[i] == FlipV(flipV, GetVertexAttribute(m.uvs[i], cp, pv).value)))
    && |x.colors| == |m.colors|
    && (forall i :: 0 <= i < |m.colors| ==> GetVertexAttribute(m.colors[i], cp, pv) == Success(x.colors[i]))
    && |x.influences| == |influences|
    && (forall q :: 0 <= q < |influences| ==> x.influences[q] == influences[q][cp])
  }

  /** The fetch of one vertex at control point cp and polygon-vertex pv: normal, UVs, colours
      in this order, so the first unreadable layer decides the error. Whether it throws does
      not depend on the vertex. */
  function FetchVertex(m: FbxMesh, influences: seq<seq<Skinning.Influences4>>, cp: nat, pv: nat, flipV: bool): (r: Result<Vertex>)
    requires MeshFits(m, influences) && cp < |m.controlPoints| && pv < 3 * |m.polygons|
    ensures r.Failure? <==> LayerError(m).Some?
    ensures r.Failure? ==> r.error == LayerError(m).value
    ensures r.Success? ==> VertexFetched(m, influences, cp, pv, flipV, r.value)
  {
    LayerErrorCases(m);
    var normal :-
      if m.normal.Some? then
        var n :- GetVertexAttribute(m.normal.value, cp, pv); Success(Some(n))
      else Success(None);
    assert forall i :: 0 <= i < |m.uvs| ==> Fetchable(m.uvs[i], cp, pv);
    var uvs :- FetchLayers(m.uvs, cp, pv);
    assert forall i :: 0 <= i < |m.colors| ==> Fetchable(m.colors[i], cp, pv);
    var colors :- FetchLayers(m.colors, cp, pv);
    Success(AssembleVertex(m, influences, cp, pv, flipV, normal, uvs, colors))
  }

  /** The vertex built from the values the layers gave: UVs flipped when asked, and the
      control point's entry of every influence chunk. */
  function AssembleVertex(m: FbxMesh, influences: seq<seq<Skinning.Influences4>>, cp: nat, pv: nat, flipV: bool,
                          normal: Option<seq<JsNumber>>, uvs: seq<seq<JsNumber>>, colors: seq<seq<JsNumber>>): (x: Vertex)
    requires MeshFits(m, influences) && cp < |m.controlPoints| && pv < 3 * |m.polygons|
    requires m.normal.Some? <==> normal.Some?
    requires m.normal.Some? ==> GetVertexAttribute(m.normal.value, cp, pv) == Success(normal.value)
    requires |uvs| == |m.uvs| && forall i :: 0 <= i < |uvs| ==> GetVertexAttribute(m.uvs[i], cp, pv) == Success(uvs[i])
    requires |colors| == |m.colors| &&
      forall i :: 0 <= i < |colors| ==> GetVertexAttribute(m.colors[i], cp, pv) == Success(colors[i])
    ensures VertexFetched(m, influences, cp, pv, flipV, x)
  {
    var flipped := seq(|uvs|, i requires 0 <= i < |uvs| => (UVWidth(m, influences, cp, pv, i); FlipV(flipV, uvs[i])));
    Vertex(m.controlPoints[cp], normal, flipped, colors,
      seq(|influences|, q requires 0 <= q < |influences| => influences[q][cp]))
  }

  // ------------------------------------------------------------ the vertex loop

  /** Which polygon-vertex index a by-polygon-vertex layer is read at. The converter passes
      its running vertex counter, which restarts at 0 for every primitive
      (`PrimitiveCounter`); the layer is indexed by the mesh-wide polygon-vertex, which for a
      triangle mesh is three times the polygon plus the corner (`MeshPolygonVertex`). */
  datatype PolygonVertexIndexing = PrimitiveCounter | MeshPolygonVertex

  /** Vertex v of a primitive is corner v % 3 of the primitive's polygon v / 3. */
  function PolygonOf(polygons: seq<nat>, v: nat): nat
    requires v < 3 * |polygons|
  {
    polygons[v / 3]
  }

  /** The control point of vertex v. */
  function ControlPointOf(m: FbxMesh, polygons: seq<nat>, v: nat): (cp: nat)
    requires MeshFits(m, []) && DivisionOf(m, polygons) && v < 3 * |polygons|
    ensures cp < |m.controlPoints|
  {
    m.polygons[PolygonOf(polygons, v)][v % 3]
  }

  /** The polygon-vertex index vertex v is read at. */
  function PolygonVertexOf(indexing: PolygonVertexIndexing, polygons: seq<nat>, v: nat): nat
    requires v < 3 * |polygons|
  {
    match indexing
    case PrimitiveCounter => v
    case MeshPolygonVertex => 3 * PolygonOf(polygons, v) + v % 3
  }

  lemma PolygonVertexInMesh(m: FbxMesh, indexing: PolygonVertexIndexing, polygons: seq<nat>, v: nat)
    requires DivisionOf(m, polygons) && v < 3 * |polygons|
    ensures PolygonVertexOf(indexing, polygons, v) < 3 * |m.polygons|
  {
    DivisionSize(m, polygons);
  }

  /** The influence chunks matter to fitting only through their shape. */
  lemma MeshFitsWithoutInfluences(m: FbxMesh, influences: seq<seq<Skinning.Influences4>>)
    requires MeshFits(m, influences)
    ensures MeshFits(m, [])
  {
  }

  /** Each vertex of vs was fetched for its corner of the listed polygons: at the corner's
      control point and at the polygon-vertex index the indexing names. */
  predicate FetchedPrefix(m: FbxMesh, influences: seq<seq<Skinning.Influences4>>, polygons: seq<nat>, flipV: bool,
                          indexing: PolygonVertexIndexing, vs: seq<Vertex>)
    requires MeshFits(m, influences) && DivisionOf(m, polygons) && |vs| <= 3 * |polygons|
  {
    forall v :: 0 <= v < |vs| ==> FetchedAt(m, influences, polygons, flipV, indexing, v, vs[v])
  }

  /** x is the vertex fetched for vertex v of the primitive. */
  predicate FetchedAt(m: FbxMesh, influences: seq<seq<Skinning.Influences4>>, polygons: seq<nat>, flipV: bool,
                      indexing: PolygonVertexIndexing, v: nat, x: Vertex)
    requires MeshFits(m, influences) && DivisionOf(m, polygons) && v < 3 * |polygons|
  {
    MeshFitsWithoutInfluences(m, influences);
    PolygonVertexInMesh(m, indexing, polygons, v);
    FetchVertex(m, influences, ControlPointOf(m, polygons, v), PolygonVertexOf(indexing, polygons, v), flipV)
      == Success(x)
  }

  lemma FetchedPrefixAppend(m: FbxMesh, influences: seq<seq<Skinning.Influences4>>, polygons: seq<nat>, flipV: bool,
                            indexing: PolygonVertexIndexing, vs: seq<Vertex>, x: Vertex)
    requires MeshFits(m, influences) && DivisionOf(m, polygons) && |vs| < 3 * |polygons|
    requires FetchedPrefix(m, influences, polygons, flipV, indexing, vs)
    requires FetchedAt(m, influences, polygons, flipV, indexing, |vs|, x)
    ensures FetchedPrefix(m, influences, polygons, flipV, indexing, vs + [x])
  {
    var vs' := vs + [x];
    forall v | 0 <= v < |vs'|
      ensures FetchedAt(m, influences, polygons, flipV, indexing, v, vs'[v])
    {
      if v < |vs| {
        assert FetchedAt(m, influences, polygons, flipV, indexing, v, vs[v]);
        assert vs'[v] == vs[v];
      } else {
        assert vs'[v] == x;
      }
    }
  }

  /** vs holds one vertex per corner of the listed polygons, in order. */
  predicate FetchedAll(m: FbxMesh, influences: seq<seq<Skinning.Influences4>>, polygons: seq<nat>, flipV: bool,
                       indexing: PolygonVertexIndexing, vs: seq<Vertex>)
    requires MeshFits(m, influences) && DivisionOf(m, polygons)
  {
    |vs| == 3 * |polygons| && FetchedPrefix(m, influences, polygons, flipV, indexing, vs)
  }

  /** The loop over the primitive's polygons and their three corners: one vertex per corner,
      in order; the first unreadable layer throws as soon as there is a vertex to read. */
  method FetchVertices(m: FbxMesh, influences: seq<seq<Skinning.Influences4>>, polygons: seq<nat>, flipV: bool,
                       indexing: PolygonVertexIndexing) returns (r: Result<seq<Vertex>>)
    requires MeshFits(m, influences) && DivisionOf(m, polygons)
    ensures r.Failure? <==> |polygons| > 0 && LayerError(m).Some?
    ensures r.Failure? ==> r.error == LayerError(m).value
    ensures r.Success? ==> FetchedAll(m, influences, polygons, flipV, indexing, r.value)
  {
    MeshFitsWithoutInfluences(m, influences);
    DivisionSize(m, polygons);
    var vertices: seq<Vertex> := [];
    var iPolygonVertex := 0;
    var i := 0;
    while i < |polygons|
      invariant i <= |polygons| && |vertices| == iPolygonVertex == 3 * i
      invariant FetchedPrefix(m, influences, polygons, flipV, indexing, vertices)
    {
      var iPolygon := polygons[i];
      var iCorner := 0;
      while iCorner < 3
        invariant iCorner <= 3 && |vertices| == iPolygonVertex == 3 * i + iCorner
        invariant FetchedPrefix(m, influences, polygons, flipV, indexing, vertices)
      {
        var v := iPolygonVertex;
        assert v / 3 == i && v % 3 == iCorner;
        var iControlPoint := m.polygons[iPolygon][iCorner];
        var pv := if indexing == PrimitiveCounter then iPolygonVertex else 3 * iPolygon + iCorner;
        assert iControlPoint == ControlPointOf(m, polygons, v) && pv == PolygonVertexOf(indexing, polygons, v);
        PolygonVertexInMesh(m, indexing, polygons, v);
        var x := FetchVertex(m, influences, iControlPoint, pv, flipV);
        if x.Failure? {
          return Failure(x.error);
        }
        FetchedPrefixAppend(m, influences, polygons, flipV, indexing, vertices, x.value);
        vertices := vertices + [x.value];
        iPolygonVertex := iPolygonVertex + 1;
        iCorner := iCorner + 1;
      }
      i := i + 1;
    }
    if |polygons| > 0 {
      PolygonVertexInMesh(m, indexing, polygons, 0);
      assert FetchedAt(m, influences, polygons, flipV, indexing, 0, vertices[0]);
      assert FetchVertex(m, influences, ControlPointOf(m, polygons, 0), PolygonVertexOf(indexing, polygons, 0), flipV).Success?;
    }
    return Success(vertices);
  }

  /** Vertex v of a primitive, read with the mesh-wide index, takes its by-polygon-vertex
      values from its own polygon's own corner: the index divides back into the polygon and
      the corner. */
  lemma MeshIndexIsOwnCorner(polygons: seq<nat>, v: nat)
    requires v < 3 * |polygons|
    ensures PolygonVertexOf(MeshPolygonVertex, polygons, v) / 3 == PolygonOf(polygons, v)
    ensures PolygonVertexOf(MeshPolygonVertex, polygons, v) % 3 == v % 3
  {
  }

  /** With the mesh-wide index a primitive's vertices are the whole mesh's: vertex v of the
      primitive is the vertex the whole-mesh conversion fetches for the same corner of the
      same polygon. The converter's counter breaks this (`CounterReadsAnotherPolygon`). */
  lemma PrimitiveVertexIsMeshVertex(m: FbxMesh, influences: seq<seq<Skinning.Influences4>>, polygons: seq<nat>,
                                    whole: seq<nat>, flipV: bool, vs: seq<Vertex>, all: seq<Vertex>)
    requires MeshFits(m, influences) && DivisionOf(m, polygons) && DivisionOf(m, whole)
    requires |whole| == |m.polygons| && forall i :: 0 <= i < |whole| ==> whole[i] == i
    requires FetchedAll(m, influences, polygons, flipV, MeshPolygonVertex, vs)
    requires FetchedAll(m, influences, whole, flipV, MeshPolygonVertex, all)
    ensures |all| == 3 * |m.polygons|
    ensures forall v :: 0 <= v < |vs| ==> 3 * polygons[v / 3] + v % 3 < |all| && vs[v] == all[3 * polygons[v / 3] + v % 3]
  {
    forall v | 0 <= v < |vs|
      ensures 3 * polygons[v / 3] + v % 3 < |all| && vs[v] == all[3 * polygons[v / 3] + v % 3]
    {
      var w := 3 * polygons[v / 3] + v % 3;
      MeshIndexIsOwnCorner(polygons, v);
      assert w < |all|;
      assert FetchedAt(m, influences, polygons, flipV, MeshPolygonVertex, v, vs[v]);
      assert FetchedAt(m, influences, whole, flipV, MeshPolygonVertex, w, all[w]);
      SameCornerSameVertex(m, influences, polygons, whole, flipV, v, vs[v], all[w]);
    }
  }

  /** One corner read through a division and through the whole mesh gives the same vertex. */
  lemma SameCornerSameVertex(m: FbxMesh, influences: seq<seq<Skinning.Influences4>>, polygons: seq<nat>,
                             whole: seq<nat>, flipV: bool, v: nat, x: Vertex, y: Vertex)
    requires MeshFits(m, influences) && DivisionOf(m, polygons) && DivisionOf(m, whole)
    requires |whole| == |m.polygons| && forall i :: 0 <= i < |whole| ==> whole[i] == i
    requires v < 3 * |polygons| && 3 * polygons[v / 3] + v % 3 < 3 * |whole|
    requires FetchedAt(m, influences, polygons, flipV, MeshPolygonVertex, v, x)
    requires FetchedAt(m, influences, whole, flipV, MeshPolygonVertex, 3 * polygons[v / 3] + v % 3, y)
    ensures x == y
  {
    var w := 3 * polygons[v / 3] + v % 3;
    MeshIndexIsOwnCorner(polygons, v);
    assert w / 3 == polygons[v / 3] && w % 3 == v % 3;
    assert ControlPointOf(m, whole, w) == ControlPointOf(m, polygons, v);
    assert PolygonVertexOf(MeshPolygonVertex, whole, w) == PolygonVertexOf(MeshPolygonVertex, polygons, v);
  }

  /** The counter agrees with the mesh-wide index exactly when the primitive's polygons are
      the mesh's polygons 0, 1, 2, ... in order, as when the whole mesh has one material. */
  lemma CounterAgreesOnlyForLeadingPolygons(polygons: seq<nat>)
    ensures (forall v :: 0 <= v < 3 * |polygons| ==>
               PolygonVertexOf(PrimitiveCounter, polygons, v) == PolygonVertexOf(MeshPolygonVertex, polygons, v))
        <==> (forall i :: 0 <= i < |polygons| ==> polygons[i] == i)
  {
    if forall v :: 0 <= v < 3 * |polygons| ==>
         PolygonVertexOf(PrimitiveCounter, polygons, v) == PolygonVertexOf(MeshPolygonVertex, polygons, v)
    {
      forall i | 0 <= i < |polygons|
        ensures polygons[i] == i
      {
        assert PolygonVertexOf(MeshPolygonVertex, polygons, 3 * i) == 3 * polygons[i];
      }
    }
  }

  /** The as-written fetch reads the wrong corner: a mesh of two triangles whose UV layer is
      mapped by polygon-vertex, and a primitive holding only the second triangle. The
      converter reads the primitive's first vertex's UV at polygon-vertex 0, which belongs to
      the first triangle; the UV of that vertex is entry 3. */
  lemma CounterReadsAnotherPolygon()
    ensures var uv := Element(ByPolygonVertex, Direct, seq(6, (i: nat) => [Finite(i as real), Finite(0.0)]), []);
      var m := FbxMesh([[Finite(0.0), Finite(0.0), Finite(0.0)]], [[0, 0, 0], [0, 0, 0]], None, [uv], []);
      && MeshFits(m, []) && DivisionOf(m, [1])
      && FetchVertex(m, [], ControlPointOf(m, [1], 0), PolygonVertexOf(PrimitiveCounter, [1], 0), false).value.uvs[0]
           == [Finite(0.0), Finite(0.0)]
      && FetchVertex(m, [], ControlPointOf(m, [1], 0), PolygonVertexOf(MeshPolygonVertex, [1], 0), false).value.uvs[0]
           == [Finite(3.0), Finite(0.0)]
  {
    var uv := Element(ByPolygonVertex, Direct, seq(6, (i: nat) => [Finite(i as real), Finite(0.0)]), []);
    var m := FbxMesh([[Finite(0.0), Finite(0.0), Finite(0.0)]], [[0, 0, 0], [0, 0, 0]], None, [uv], []);
    assert LayerFits(uv, 2, 1, 6);
    assert MeshFits(m, []);
    var a := FetchVertex(m, [], 0, 0, false);
    var b := FetchVertex(m, [], 0, 3, false);
    assert a.Success? && b.Success?;
    assert GetVertexAttribute(uv, 0, 0) == Success([Finite(0.0), Finite(0.0)]);
    assert GetVertexAttribute(uv, 0, 3) == Success([Finite(3.0), Finite(0.0)]);
  }

  // ------------------------------------------------------------ attribute data

  /** The widths every fetched vertex has: what the typed arrays of the attributes expect. */
  predicate VertexShaped(x: Vertex, hasNormal: bool, nUVs: nat, nColors: nat, nChunks: nat) {
    && |x.position| == 3
    && (x.normal.Some? <==> hasNormal) && (x.normal.Some? ==> |x.normal.value| == 3)
    && |x.uvs| == nUVs && (forall i :: 0 <= i < nUVs ==> |x.uvs[i]| == 2)
    && |x.colors| == nColors && (forall i :: 0 <= i < nColors ==> |x.colors[i]| == 4)
    && |x.influences| == nChunks
    && (forall q :: 0 <= q < nChunks ==> |x.influences[q].joints| == 4 && |x.influences[q].weights| == 4)
  }

  /** The attribute kinds a vertex shaped this way has. */
  predicate HasKind(kind: AttributeKind, hasNormal: bool, nUVs: nat, nColors: nat, nChunks: nat) {
    match kind
    case Position => true
    case Normal => hasNormal
    case TexCoord(i) => i < nUVs
    case Color(i) => i < nColors
    case Joints(q) => q < nChunks
    case Weights(q) => q < nChunks
  }

  lemma KindsHave(hasNormal: bool, nUVs: nat, nColors: nat, nChunks: nat)
    ensures var kinds := AttributeKinds(hasNormal, nUVs, nColors, nChunks);
      forall k :: 0 <= k < |kinds| ==> HasKind(kinds[k], hasNormal, nUVs, nColors, nChunks)
  {
    var head, uvs, colors, skin := Head(hasNormal), UVKinds(nUVs), ColorKinds(nColors), SkinKinds(nChunks);
    var kinds := head + uvs + colors + skin;
    forall k | 0 <= k < |kinds|
      ensures HasKind(kinds[k], hasNormal, nUVs, nColors, nChunks)
    {
      var x := kinds[k];
      assert x in head || x in uvs || x in colors || x in skin;
    }
  }

  /** A vertex fetched from a fitting mesh has the widths the attributes expect. */
  lemma FetchedShaped(m: FbxMesh, influences: seq<seq<Skinning.Influences4>>, cp: nat, pv: nat, flipV: bool, x: Vertex)
    requires MeshFits(m, influences) && cp < |m.controlPoints| && pv < 3 * |m.polygons|
    requires VertexFetched(m, influences, cp, pv, flipV, x)
    ensures VertexShaped(x, m.normal.Some?, |m.uvs|, |m.colors|, |influences|)
  {
    var nCP, nPV := |m.controlPoints|, 3 * |m.polygons|;
    if m.normal.Some? {
      var e := m.normal.value;
      assert LayerFits(e, 3, nCP, nPV);
      var j :| 0 <= j < |e.directArray| && e.directArray[j] == x.normal.value;
    }
    forall i | 0 <= i < |m.colors|
      ensures |x.colors[i]| == 4
    {
      var e := m.colors[i];
      assert LayerFits(e, 4, nCP, nPV);
      assert GetVertexAttribute(e, cp, pv) == Success(x.colors[i]);
      var j :| 0 <= j < |e.directArray| && e.directArray[j] == x.colors[i];
    }
  }

  /** The numbers of one vertex for a float attribute, in component order. */
  function Floats(x: Vertex, kind: AttributeKind): (r: seq<JsNumber>)
    requires !kind.Joints?
    requires VertexShaped(x, x.normal.Some?, |x.uvs|, |x.colors|, |x.influences|)
    requires HasKind(kind, x.normal.Some?, |x.uvs|, |x.colors|, |x.influences|)
    ensures 4 * |r| == Size(kind)
  {
    match kind
    case Position => x.position
    case Normal => x.normal.value
    case TexCoord(i) => x.uvs[i]
    case Color(i) => x.colors[i]
    case Weights(q) => x.influences[q].weights
  }

  /** The bytes one vertex contributes to an attribute's typed array: its floats, or its four
      joint indices as unsigned shorts. */
  function ElementBytes(x: Vertex, kind: AttributeKind, f32: Float32Encoder): (r: seq<byte>)
    requires FourBytes(f32)
    requires VertexShaped(x, x.normal.Some?, |x.uvs|, |x.colors|, |x.influences|)
    requires HasKind(kind, x.normal.Some?, |x.uvs|, |x.colors|, |x.influences|)
    ensures |r| == Size(kind)
    ensures kind.Joints? ==> r == EncodeUint16s(x.influences[kind.index].joints)
    ensures !kind.Joints? ==> r == EncodeFloats(f32, Floats(x, kind))
  {
    if kind.Joints? then EncodeUint16s(x.influences[kind.index].joints)
    else EncodeFloats(f32, Floats(x, kind))
  }

  predicate AllShaped(vs: seq<Vertex>, hasNormal: bool, nUVs: nat, nColors: nat, nChunks: nat) {
    forall v :: 0 <= v < |vs| ==> VertexShaped(vs[v], hasNormal, nUVs, nColors, nChunks)
  }

  /** An attribute's typed array as bytes: the vertices' element bytes one after another. */
  function AttributeData(vs: seq<Vertex>, kind: AttributeKind, f32: Float32Encoder,
                         hasNormal: bool, nUVs: nat, nColors: nat, nChunks: nat): (r: seq<byte>)
    requires FourBytes(f32) && AllShaped(vs, hasNormal, nUVs, nColors, nChunks)
    requires HasKind(kind, hasNormal, nUVs, nColors, nChunks)
    ensures |r| == Row(Size(kind), |vs|) == |vs| * Size(kind)
    ensures forall v :: 0 <= v < |vs| ==> RowHolds(r, Size(kind), v, ElementBytes(vs[v], kind, f32))
  {
    var blocks := seq(|vs|, v requires 0 <= v < |vs| => ElementBytes(vs[v], kind, f32));
    ConcatRows(blocks, Size(kind));
    RowIsProduct(Size(kind), |vs|);
    assert forall v :: 0 <= v < |vs| ==> RowHolds(JoinRows(blocks), Size(kind), v, blocks[v]);
    assert forall v :: 0 <= v < |vs| ==> blocks[v] == ElementBytes(vs[v], kind, f32);
    JoinRows(blocks)
  }

  /** Blocks laid end to end. */
  function JoinRows(blocks: seq<seq<byte>>): seq<byte> {
    if blocks == [] then [] else JoinRows(blocks[..|blocks| - 1]) + blocks[|blocks| - 1]
  }

  /** Blocks of one size laid end to end form a table whose row v is block v. */
  lemma {:induction false} ConcatRows(blocks: seq<seq<byte>>, size: nat)
    requires forall v :: 0 <= v < |blocks| ==> |blocks[v]| == size
    ensures |JoinRows(blocks)| == Row(size, |blocks|)
    ensures forall v :: 0 <= v < |blocks| ==> RowHolds(JoinRows(blocks), size, v, blocks[v])
  {
    if blocks != [] {
      var front := blocks[..|blocks| - 1];
      var last := blocks[|blocks| - 1];
      ConcatRows(front, size);
      var d := JoinRows(front);
      forall v | 0 <= v < |blocks|
        ensures RowHolds(JoinRows(blocks), size, v, blocks[v])
      {
        if v < |front| {
          assert blocks[v] == front[v];
          RowKept(d, last, size, v, blocks[v]);
        } else {
          RowAppended(d, last, size, |front|);
        }
      }
    }
  }

  /** Row v of a table of `size`-byte rows holds `bytes`. */
  predicate RowHolds(r: seq<byte>, size: nat, v: nat, bytes: seq<byte>) {
    Row(size, v + 1) <= |r| && r[Row(size, v)..Row(size, v + 1)] == bytes
  }

  lemma RowAppended(d: seq<byte>, bytes: seq<byte>, size: nat, n: nat)
    requires |d| == Row(size, n) && |bytes| == size
    ensures RowHolds(d + bytes, size, n, bytes)
  {
    assert (d + bytes)[|d|..|d| + size] == bytes;
  }

  lemma RowKept(d: seq<byte>, tail: seq<byte>, size: nat, v: nat, bytes: seq<byte>)
    requires RowHolds(d, size, v, bytes)
    ensures RowHolds(d + tail, size, v, bytes)
  {
    assert (d + tail)[Row(size, v)..Row(size, v + 1)] == d[Row(size, v)..Row(size, v + 1)];
  }

  /** The typed arrays of all attributes of a layout, in layout order. */
  function LayoutData(vs: seq<Vertex>, kinds: seq<AttributeKind>, f32: Float32Encoder,
                      hasNormal: bool, nUVs: nat, nColors: nat, nChunks: nat): (r: seq<seq<byte>>)
    requires FourBytes(f32) && AllShaped(vs, hasNormal, nUVs, nColors, nChunks)
    requires kinds == AttributeKinds(hasNormal, nUVs, nColors, nChunks)
    ensures |r| == |kinds|
    ensures forall k :: 0 <= k < |kinds| ==> |r[k]| == |vs| * Size(kinds[k])
  {
    KindsHave(hasNormal, nUVs, nColors, nChunks);
    seq(|kinds|, k requires 0 <= k < |kinds| => AttributeData(vs, kinds[k], f32, hasNormal, nUVs, nColors, nChunks))
  }

  // ------------------------------------------------------------ POSITION bounds

  /** Component c of every vertex's position as the position `Float32Array` holds it
      (`fround` is the rounding to single precision). */
  function PositionColumn(vs: seq<Vertex>, fround: JsNumber -> JsNumber, c: nat): (r: seq<JsNumber>)
    requires c < 3 && forall v :: 0 <= v < |vs| ==> |vs[v].position| == 3
    ensures |r| == |vs| && forall v :: 0 <= v < |vs| ==> r[v] == fround(vs[v].position[c])
  {
    seq(|vs|, v requires 0 <= v < |vs| => fround(vs[v].position[c]))
  }

  /** The position `Float32Array`: three rounded numbers per vertex. */
  function PositionFloats(vs: seq<Vertex>, fround: JsNumber -> JsNumber): (r: seq<JsNumber>)
    requires forall v :: 0 <= v < |vs| ==> |vs[v].position| == 3
    ensures |r| == 3 * |vs|
  {
    seq(3 * |vs|, p requires 0 <= p < 3 * |vs| => fround(vs[p / 3].position[p % 3]))
  }

  /** The scan of the source over the position array visits exactly component c of every
      vertex. */
  lemma PositionColumns(vs: seq<Vertex>, fround: JsNumber -> JsNumber, c: nat)
    requires c < 3 && forall v :: 0 <= v < |vs| ==> |vs[v].position| == 3
    ensures Column(PositionFloats(vs, fround), 3, c, |vs|) == PositionColumn(vs, fround, c)
  {
    var data := PositionFloats(vs, fround);
    var col := Column(data, 3, c, |vs|);
    forall i | 0 <= i < |vs|
      ensures col[i] == fround(vs[i].position[c])
    {
      ColumnStep(data, 3, c, i);
      assert Column(data, 3, c, i + 1)[i] == data[3 * i + c];
      ColumnPrefix(data, 3, c, i + 1, |vs|);
      assert (3 * i + c) / 3 == i && (3 * i + c) % 3 == c;
    }
  }

  /** A column of fewer vertices is a prefix of the column of more. */
  lemma {:induction false} ColumnPrefix(data: seq<JsNumber>, components: nat, c: nat, n: nat, n': nat)
    requires c < components && n <= n' && n' * components <= |data|
    ensures Column(data, components, c, n) == Column(data, components, c, n')[..n]
    decreases n' - n
  {
    if n < n' {
      ColumnPrefix(data, components, c, n, n' - 1);
      ColumnStep(data, components, c, n' - 1);
    }
  }

  /** The POSITION accessor's `min` and `max`. */
  function PositionBounds(vs: seq<Vertex>, fround: JsNumber -> JsNumber): (seq<JsNumber>, seq<JsNumber>)
    requires forall v :: 0 <= v < |vs| ==> |vs[v].position| == 3
  {
    (seq(3, (c: nat) requires c < 3 => FoldMin(PositionColumn(vs, fround, c))),
     seq(3, (c: nat) requires c < 3 => FoldMax(PositionColumn(vs, fround, c))))
  }

  // ------------------------------------------------------------ accessors

  /** The accessor of one attribute: named after the mesh and the key, reading the shared
      view at the given offset, one element per vertex; only POSITION carries bounds. */
  function NewAccessor(meshName: string, kind: AttributeKind, view: nat, byteOffset: nat, vertexCount: nat,
                       bounds: (seq<JsNumber>, seq<JsNumber>)): Accessor
  {
    Accessor(meshName + "-" + Key(kind), view, Some(byteOffset), vertexCount,
             AccessorTypeOf(kind), ComponentTypeOf(kind),
             if kind.Position? then Some(bounds.0) else None,
             if kind.Position? then Some(bounds.1) else None)
  }

  /** The accessor of attribute k of a layout, at the attribute's offset. */
  function AccessorFor(meshName: string, kinds: seq<AttributeKind>, k: nat, view: nat, vertexCount: nat,
                       bounds: (seq<JsNumber>, seq<JsNumber>)): Accessor
    requires k < |kinds|
  {
    NewAccessor(meshName, kinds[k], view, Offset(kinds, k), vertexCount, bounds)
  }

  function AccessorsFor(meshName: string, kinds: seq<AttributeKind>, view: nat, vertexCount: nat,
                        bounds: (seq<JsNumber>, seq<JsNumber>)): (r: seq<Accessor>)
    ensures |r| == |kinds|
    ensures forall k :: 0 <= k < |kinds| ==> r[k] == AccessorFor(meshName, kinds, k, view, vertexCount, bounds)
  {
    seq(|kinds|, k requires 0 <= k < |kinds| => AccessorFor(meshName, kinds, k, view, vertexCount, bounds))
  }

  /** The attribute map: key of attribute k to the k-th new accessor. */
  function AttributeMap(kinds: seq<AttributeKind>, firstAccessor: nat): (r: seq<(string, nat)>)
    ensures |r| == |kinds|
    ensures forall k :: 0 <= k < |kinds| ==> r[k] == (Key(kinds[k]), firstAccessor + k)
  {
    seq(|kinds|, k requires 0 <= k < |kinds| => (Key(kinds[k]), firstAccessor + k))
  }

  /** The accessor loop: one accessor per attribute in layout order, the running byte offset
      advancing by the attribute's size. */
  method EmitAccessors(b: Builder, meshName: string, kinds: seq<AttributeKind>, view: nat, vertexCount: nat,
                       bounds: (seq<JsNumber>, seq<JsNumber>)) returns (b': Builder, attributes: seq<(string, nat)>)
    ensures b' == b.(accessors := b.accessors + AccessorsFor(meshName, kinds, view, vertexCount, bounds))
    ensures attributes == AttributeMap(kinds, |b.accessors|)
  {
    b' := b;
    attributes := [];
    var bufferViewByteOffset := 0;
    var k := 0;
    while k < |kinds|
      invariant k <= |kinds| && bufferViewByteOffset == Offset(kinds, k)
      invariant b' == b.(accessors := b.accessors + AccessorsFor(meshName, kinds, view, vertexCount, bounds)[..k])
      invariant attributes == AttributeMap(kinds, |b.accessors|)[..k]
    {
      var accessor := NewAccessor(meshName, kinds[k], view, bufferViewByteOffset, vertexCount, bounds);
      var added := AddAccessor(b', accessor);
      AccessorsStep(b, meshName, kinds, view, vertexCount, bounds, k, b', added.0);
      b' := added.0;
      AttributesStep(kinds, |b.accessors|, k, attributes);
      attributes := attributes + [(Key(kinds[k]), added.1)];
      bufferViewByteOffset := bufferViewByteOffset + Size(kinds[k]);
      k := k + 1;
    }
    assert AccessorsFor(meshName, kinds, view, vertexCount, bounds)[..k] == AccessorsFor(meshName, kinds, view, vertexCount, bounds);
    assert AttributeMap(kinds, |b.accessors|)[..k] == AttributeMap(kinds, |b.accessors|);
  }

  lemma AttributesStep(kinds: seq<AttributeKind>, first: nat, k: nat, attributes: seq<(string, nat)>)
    requires k < |kinds| && attributes == AttributeMap(kinds, first)[..k]
    ensures attributes + [(Key(kinds[k]), first + k)] == AttributeMap(kinds, first)[..k + 1]
  {
    var all := AttributeMap(kinds, first);
    assert all[..k + 1] == all[..k] + [all[k]];
  }

  lemma AccessorsStep(b: Builder, meshName: string, kinds: seq<AttributeKind>, view: nat, vertexCount: nat,
                      bounds: (seq<JsNumber>, seq<JsNumber>), k: nat, before: Builder, after: Builder)
    requires k < |kinds|
    requires before == b.(accessors := b.accessors + AccessorsFor(meshName, kinds, view, vertexCount, bounds)[..k])
    requires after == before.(accessors := before.accessors + [AccessorFor(meshName, kinds, k, view, vertexCount, bounds)])
    ensures after == b.(accessors := b.accessors + AccessorsFor(meshName, kinds, view, vertexCount, bounds)[..k + 1])
  {
    var all := AccessorsFor(meshName, kinds, view, vertexCount, bounds);
    assert all[..k + 1] == all[..k] + [all[k]];
    assert b.accessors + all[..k + 1] == (b.accessors + all[..k]) + [all[k]];
  }

  // ------------------------------------------------------------ the primitive

  /** Every vertex fetched from a fitting mesh has the widths its attributes expect. */
  lemma VerticesShaped(m: FbxMesh, influences: seq<seq<Skinning.Influences4>>, polygons: seq<nat>, flipV: bool,
                       indexing: PolygonVertexIndexing, vs: seq<Vertex>)
    requires MeshFits(m, influences) && DivisionOf(m, polygons)
    requires FetchedAll(m, influences, polygons, flipV, indexing, vs)
    ensures AllShaped(vs, m.normal.Some?, |m.uvs|, |m.colors|, |influences|)
  {
    MeshFitsWithoutInfluences(m, influences);
    forall v | 0 <= v < |vs|
      ensures VertexShaped(vs[v], m.normal.Some?, |m.uvs|, |m.colors|, |influences|)
    {
      PolygonVertexInMesh(m, indexing, polygons, v);
      var cp, pv := ControlPointOf(m, polygons, v), PolygonVertexOf(indexing, polygons, v);
      assert FetchVertex(m, influences, cp, pv, flipV) == Success(vs[v]);
      FetchedShaped(m, influences, cp, pv, flipV, vs[v]);
    }
  }

  /** The scan of the position array yields the POSITION bounds. */
  lemma ScannedBounds(vs: seq<Vertex>, fround: JsNumber -> JsNumber, min: seq<JsNumber>, max: seq<JsNumber>)
    requires forall v :: 0 <= v < |vs| ==> |vs[v].position| == 3
    requires |min| == 3 && |max| == 3
    requires forall c :: 0 <= c < 3 ==>
      min[c] == FoldMin(Column(PositionFloats(vs, fround), 3, c, |vs|)) &&
      max[c] == FoldMax(Column(PositionFloats(vs, fround), 3, c, |vs|))
    ensures (min, max) == PositionBounds(vs, fround)
  {
    var bounds := PositionBounds(vs, fround);
    forall c | 0 <= c < 3
      ensures min[c] == bounds.0[c] && max[c] == bounds.1[c]
    {
      PositionColumns(vs, fround, c);
    }
    assert min == bounds.0 && max == bounds.1;
  }

  /** Every attribute's bytes of every vertex sit in their cell of the interleaved view. */
  predicate Interleaved(out: seq<byte>, kinds: seq<AttributeKind>, data: seq<seq<byte>>, vertexCount: nat)
    requires |data| == |kinds|
  {
    forall k, v :: 0 <= k < |kinds| && 0 <= v < vertexCount ==> Written(out, kinds, data, k, v)
  }

  datatype Converted = Converted(builder: Builder, primitive: MeshPrimitive, vertices: seq<Vertex>)

  /** What a converted primitive is: the vertices of the listed polygons' corners, their
      by-polygon-vertex values read at the index `indexing` names; one new view
      on buffer 0 of stride times vertex-count bytes, with the stride and the vertex-buffer
      target, holding every attribute's bytes interleaved; one accessor per attribute reading
      that view at the attribute's offset; and the primitive mapping every key to its accessor,
      with no material yet. Nothing else in the builder changes. */
  predicate Converts(b: Builder, m: FbxMesh, influences: seq<seq<Skinning.Influences4>>, polygons: seq<nat>,
                     meshName: string, flipV: bool, indexing: PolygonVertexIndexing, f32: Float32Encoder,
                     fround: JsNumber -> JsNumber, c: Converted)
    requires |b.keeps| >= 1 && FourBytes(f32) && MeshFits(m, influences) && DivisionOf(m, polygons)
  {
    var hasNormal, nUVs, nColors, nChunks := m.normal.Some?, |m.uvs|, |m.colors|, |influences|;
    var kinds := AttributeKinds(hasNormal, nUVs, nColors, nChunks);
    var vs := c.vertices;
    && FetchedAll(m, influences, polygons, flipV, indexing, vs)
    && AllShaped(vs, hasNormal, nUVs, nColors, nChunks)
    && ViewFilled(b, c.builder, kinds, LayoutData(vs, kinds, f32, hasNormal, nUVs, nColors, nChunks), |vs|)
    && AccessorsAdded(b, c, kinds, meshName, PositionBounds(vs, fround), |vs|)
    && c.builder == b.(accessors := c.builder.accessors, bufferViews := c.builder.bufferViews,
                       regions := c.builder.regions, keeps := c.builder.keeps)
  }

  /** b' has one more view than b, on buffer 0 and queued there with alignment 0, of stride
      times vertex-count bytes, with the stride and the vertex-buffer target, holding the
      attributes interleaved; the earlier regions are unchanged. */
  predicate ViewFilled(b: Builder, b': Builder, kinds: seq<AttributeKind>, data: seq<seq<byte>>, vertexCount: nat)
    requires |b.keeps| >= 1 && |data| == |kinds|
  {
    var view := |b.bufferViews|;
    var stride := Stride(kinds);
    && b'.bufferViews == b.bufferViews + [BufferView(0, stride * vertexCount, None, Some(stride), Some(ARRAY_BUFFER))]
    && |b'.regions| == view + 1 && b'.regions[..view] == b.regions
    && |b'.regions[view]| == stride * vertexCount
    && Interleaved(b'.regions[view], kinds, data, vertexCount)
    && b'.keeps == b.keeps[0 := b.keeps[0] + [Keep(view, 0)]]
  }

  /** One new accessor per attribute, all on the new view, and the primitive's attribute map
      pointing at them. */
  predicate AccessorsAdded(b: Builder, c: Converted, kinds: seq<AttributeKind>, meshName: string,
                           bounds: (seq<JsNumber>, seq<JsNumber>), vertexCount: nat)
  {
    && c.primitive == MeshPrimitive(AttributeMap(kinds, |b.accessors|), None)
    && c.builder.accessors == b.accessors + AccessorsFor(meshName, kinds, |b.bufferViews|, vertexCount, bounds)
  }


  /** The shared vertex view: created on buffer 0, given its stride and target, and filled
      with the interleaved attributes. */
  method FillView(b: Builder, kinds: seq<AttributeKind>, data: seq<seq<byte>>, vertexCount: nat)
    returns (b': Builder, view: nat)
    requires Valid(b) && |data| == |kinds|
    requires forall k :: 0 <= k < |kinds| ==> |data[k]| == vertexCount * Size(kinds[k])
    ensures Valid(b') && view == |b.bufferViews|
    ensures ViewFilled(b, b', kinds, data, vertexCount)
    ensures b' == b.(bufferViews := b'.bufferViews, regions := b'.regions, keeps := b'.keeps)
  {
    var stride := Stride(kinds);
    b', view := StridedView(b, stride, vertexCount);
    var bytes := Interleave(kinds, data, vertexCount);
    b' := WriteRegion(b', view, bytes);
    assert b'.regions[view] == bytes;
  }

  /** The vertex view before it is filled: a zeroed view of vertexCount rows on buffer 0,
      with the stride and the vertex-attribute target set. */
  method StridedView(b: Builder, stride: nat, vertexCount: nat) returns (b': Builder, view: nat)
    requires Valid(b)
    ensures Valid(b') && view == |b.bufferViews|
    ensures b'.bufferViews == b.bufferViews + [BufferView(0, stride * vertexCount, None, Some(stride), Some(ARRAY_BUFFER))]
    ensures |b'.regions| == view + 1 && b.regions <= b'.regions
    ensures |b'.regions[view]| == stride * vertexCount
    ensures b'.keeps == b.keeps[0 := b.keeps[0] + [Keep(view, 0)]]
    ensures b' == b.(bufferViews := b'.bufferViews, regions := b'.regions, keeps := b'.keeps)
  {
    var created := CreateBufferView(b, stride * vertexCount, 0, 0);
    b' := created.value.0;
    view := created.value.1;
    b' := SetStrideAndTarget(b', view, stride, ARRAY_BUFFER);
    assert b'.keeps == b.keeps[0 := b.keeps[0] + [Keep(view, 0)]];
  }

  /** One primitive of a mesh: fetch the corners of its polygons, lay the attributes out,
      create the interleaved view, copy every attribute into it and add the accessors. With
      `PrimitiveCounter` the by-polygon-vertex layers are read at the primitive's own running
      counter, as the converter does; with `MeshPolygonVertex` at the corner's mesh-wide index.
      Fails exactly when there is a vertex to read and some layer is unreadable. */
  method ConvertPrimitive(b: Builder, m: FbxMesh, influences: seq<seq<Skinning.Influences4>>, polygons: seq<nat>,
                          meshName: string, flipV: bool, indexing: PolygonVertexIndexing, f32: Float32Encoder,
                          fround: JsNumber -> JsNumber)
    returns (r: Result<Converted>)
    requires Valid(b) && FourBytes(f32) && MeshFits(m, influences) && DivisionOf(m, polygons)
    ensures r.Failure? <==> |polygons| > 0 && LayerError(m).Some?
    ensures r.Failure? ==> r.error == LayerError(m).value
    ensures r.Success? ==> Valid(r.value.builder)
    ensures r.Success? ==> Converts(b, m, influences, polygons, meshName, flipV, indexing, f32, fround, r.value)
  {
    var fetched := FetchVertices(m, influences, polygons, flipV, indexing);
    if fetched.Failure? {
      return Failure(fetched.error);
    }
    var vs := fetched.value;
    var hasNormal, nUVs, nColors, nChunks := m.normal.Some?, |m.uvs|, |m.colors|, |influences|;
    VerticesShaped(m, influences, polygons, flipV, indexing, vs);
    var kinds := AttributeKinds(hasNormal, nUVs, nColors, nChunks);
    var data := LayoutData(vs, kinds, f32, hasNormal, nUVs, nColors, nChunks);
    var vertexCount := |vs|;

    var b2, view := FillView(b, kinds, data, vertexCount);
    var positions := PositionFloats(vs, fround);
    var min, max := ComponentBounds(positions, 3, vertexCount);
    ScannedBounds(vs, fround, min, max);
    var b3, attributes := EmitAccessors(b2, meshName, kinds, view, vertexCount, (min, max));
    r := Success(Converted(b3, MeshPrimitive(attributes, None), vs));
  }
}
