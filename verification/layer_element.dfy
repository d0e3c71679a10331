/** FBX layer elements (normals, UVs, colours, material indices) and the converter's fetch of
    one vertex's value from such a layer. */
module LayerElement {
  import opened Wrappers

  /** What an element's entries are attached to. */
  datatype MappingMode = NoMapping | ByControlPoint | ByPolygonVertex | ByPolygon | ByEdge | AllSame

  /** How an entry is found: directly, or through the index array. */
  datatype ReferenceMode = Direct | Index | IndexToDirect

  datatype Element<T> = Element(
    mappingMode: MappingMode,
    referenceMode: ReferenceMode,
    directArray: seq<T>,
    indexArray: seq<int>)

  /** The position in the mapping the vertex is looked up by: its control point or its
      polygon-vertex, depending on the mapping mode. */
  function MappedIndex<T>(e: Element<T>, controlPointIndex: nat, polygonVertexIndex: nat): nat
    requires e.mappingMode == ByControlPoint || e.mappingMode == ByPolygonVertex
  {
    if e.mappingMode == ByControlPoint then controlPointIndex else polygonVertexIndex
  }

  /** The SDK arrays are large enough for the lookup the converter makes. */
  predicate Fetchable<T>(e: Element<T>, controlPointIndex: nat, polygonVertexIndex: nat) {
    (e.mappingMode == ByControlPoint || e.mappingMode == ByPolygonVertex) ==>
      var i := MappedIndex(e, controlPointIndex, polygonVertexIndex);
      match e.referenceMode
      case Direct => i < |e.directArray|
      case IndexToDirect => i < |e.indexArray| && 0 <= e.indexArray[i] < |e.directArray|
      case Index => true
  }

  /** `GetVertexAttribute`: by control point or by polygon-vertex, directly or through one
      index-array indirection; every other mapping or reference mode throws. */
  function GetVertexAttribute<T>(e: Element<T>, controlPointIndex: nat, polygonVertexIndex: nat): (r: Result<T>)
    requires Fetchable(e, controlPointIndex, polygonVertexIndex)
    ensures r.Success? <==>
      (e.mappingMode == ByControlPoint || e.mappingMode == ByPolygonVertex) &&
      (e.referenceMode == Direct || e.referenceMode == IndexToDirect)
    ensures r.Failure? && e.mappingMode != ByControlPoint && e.mappingMode != ByPolygonVertex ==>
      r.error == UnknownMappingMode
    ensures r.Failure? && (e.mappingMode == ByControlPoint || e.mappingMode == ByPolygonVertex) ==>
      r.error == UnknownReferenceMode
    ensures r.Success? ==> r.value in e.directArray
  {
    match e.mappingMode
    case ByControlPoint =>
      (match e.referenceMode
       case Direct => Success(e.directArray[controlPointIndex])
       case IndexToDirect => Success(e.directArray[e.indexArray[controlPointIndex]])
       case Index => Failure(UnknownReferenceMode))
    case ByPolygonVertex =>
      (match e.referenceMode
       case Direct => Success(e.directArray[polygonVertexIndex])
       case IndexToDirect => Success(e.directArray[e.indexArray[polygonVertexIndex]])
       case Index => Failure(UnknownReferenceMode))
    case _ => Failure(UnknownMappingMode)
  }

  /** A by-control-point value depends on the control point only, a by-polygon-vertex value
      on the polygon-vertex only. */
  lemma FetchDependsOnMappedIndex<T>(e: Element<T>, cp1: nat, pv1: nat, cp2: nat, pv2: nat)
    requires Fetchable(e, cp1, pv1) && Fetchable(e, cp2, pv2)
    requires e.mappingMode == ByControlPoint ==> cp1 == cp2
    requires e.mappingMode == ByPolygonVertex ==> pv1 == pv2
    ensures GetVertexAttribute(e, cp1, pv1) == GetVertexAttribute(e, cp2, pv2)
  {
  }

  /** `IndexToDirect` is `Direct` seen through the index array: the value fetched is the
      direct entry the index array names for the mapped position. */
  lemma IndexToDirectIsOneIndirection<T>(e: Element<T>, cp: nat, pv: nat)
    requires e.mappingMode == ByControlPoint || e.mappingMode == ByPolygonVertex
    requires e.referenceMode == IndexToDirect && Fetchable(e, cp, pv)
    ensures var i := MappedIndex(e, cp, pv);
      var direct := e.(referenceMode := Direct);
      && Fetchable(direct, e.indexArray[i], e.indexArray[i])
      && GetVertexAttribute(e, cp, pv) == GetVertexAttribute(direct, e.indexArray[i], e.indexArray[i])
  {
  }
}
