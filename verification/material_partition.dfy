/** `divideMeshByMaterial`: splits a mesh's polygons by material index, one primitive per
    index. The groups come out in the order JavaScript's `Object.keys` lists the keys of the
    record they are collected in: array-index keys ascending, then the other keys (here the
    negative ones) in the order they were first inserted. */
module MaterialPartition {
  import opened Wrappers
  import opened LayerElement
  import opened Seqs

  /** A material layer: its mapping mode and its index array (one material index per
      polygon, or a single shared one). */
  datatype MaterialLayer = MaterialLayer(mappingMode: MappingMode, indexArray: seq<int>)

  /** The polygons of one material. */
  datatype Division = Division(material: int, polygons: seq<nat>)

  /** How the first layer assigns materials: one index for every polygon, or one per polygon. */
  datatype Assignment = Common(index: int) | PerPolygon(indices: seq<int>)

  /** The SDK index array of the first layer is as long as that layer's mapping needs. */
  predicate FirstLayerCovers(nPolygons: nat, layers: seq<MaterialLayer>) {
    |layers| > 0 ==>
      if layers[0].mappingMode == AllSame then |layers[0].indexArray| >= 1
      else |layers[0].indexArray| >= nPolygons
  }

  /** The first loop of `divideMeshByMaterial`: only the first layer is read; `AllSame` gives
      one shared index, any other mode one index per polygon, and no layer at all the shared
      index -1. */
  function Assign(nPolygons: nat, layers: seq<MaterialLayer>): (r: Assignment)
    requires FirstLayerCovers(nPolygons, layers)
    ensures |layers| == 0 ==> r == Common(-1)
    ensures |layers| > 0 && layers[0].mappingMode == AllSame ==> r == Common(layers[0].indexArray[0])
    ensures r.PerPolygon? ==>
      && |r.indices| == nPolygons
      && forall p :: 0 <= p < nPolygons ==> r.indices[p] == layers[0].indexArray[p]
  {
    if |layers| == 0 then Common(-1)
    else if layers[0].mappingMode == AllSame then Common(layers[0].indexArray[0])
    else PerPolygon(layers[0].indexArray[..nPolygons])
  }

  /** 0, 1, ..., n - 1. */
  function Range(n: nat): (r: seq<nat>)
    ensures |r| == n && forall p :: 0 <= p < n ==> r[p] == p
  {
    seq(n, p requires 0 <= p < n => p as nat)
  }

  predicate StrictlyIncreasing(s: seq<int>) {
    forall i, j :: 0 <= i < j < |s| ==> s[i] < s[j]
  }

  // ------------------------------------------------------------ grouping

  /** The record `divisions` while it is being filled: its keys in insertion order and the
      list under each key. */
  datatype Groups = Groups(keys: seq<int>, lists: map<int, seq<nat>>)

  /** The second loop of `divideMeshByMaterial`: pushes each polygon onto its material's list,
      creating the list (and so inserting the key) the first time the material is seen. */
  function Group(indices: seq<int>): (g: Groups)
    ensures forall k :: k in g.lists <==> k in g.keys
    ensures Distinct(g.keys)
    decreases |indices|
  {
    if indices == [] then Groups([], map[])
    else
      var g := Group(indices[..|indices| - 1]);
      var p := |indices| - 1;
      var m := indices[p];
      if m in g.lists then Groups(g.keys, g.lists[m := g.lists[m] + [p]])
      else Groups(g.keys + [m], g.lists[m := [p]])
  }

  /** The polygons of material k, ascending: the reference the grouping is measured against. */
  function Positions(indices: seq<int>, k: int): (r: seq<nat>)
    decreases |indices|
  {
    if indices == [] then []
    else
      Positions(indices[..|indices| - 1], k) + (if indices[|indices| - 1] == k then [|indices| - 1] else [])
  }

  /** Polygon p is among the positions of k exactly when its material is k; they ascend. */
  lemma {:induction false} PositionsMembers(indices: seq<int>, k: int)
    ensures forall p :: p in Positions(indices, k) <==> 0 <= p < |indices| && indices[p] == k
    ensures StrictlyIncreasing(Positions(indices, k))
    decreases |indices|
  {
    if indices != [] {
      var front := indices[..|indices| - 1];
      PositionsMembers(front, k);
      var last := |indices| - 1;
      var pre := Positions(front, k);
      var tail: seq<nat> := if indices[last] == k then [last] else [];
      assert Positions(indices, k) == pre + tail;
      forall p
        ensures p in pre + tail <==> 0 <= p < |indices| && indices[p] == k
      {
        if 0 <= p < |front| {
          assert indices[p] == front[p];
        }
      }
      forall i, j | 0 <= i < j < |pre + tail|
        ensures (pre + tail)[i] < (pre + tail)[j]
      {
        if j >= |pre| {
          assert (pre + tail)[i] == pre[i] && pre[i] in pre;
        }
      }
    }
  }

  /** The grouping keeps, under each key, exactly the positions of that key, and its keys are
      exactly the materials that occur. */
  lemma {:induction false} GroupLists(indices: seq<int>)
    ensures forall k :: k in Group(indices).keys <==> k in indices
    ensures forall k :: k in Group(indices).lists ==> Group(indices).lists[k] == Positions(indices, k)
    decreases |indices|
  {
    if indices != [] {
      var front := indices[..|indices| - 1];
      GroupLists(front);
      var m := indices[|indices| - 1];
      assert indices == front + [m];
      if m !in Group(front).lists {
        PositionsMembers(front, m);
        assert Positions(front, m) == [] by {
          if Positions(front, m) != [] {
            assert Positions(front, m)[0] in Positions(front, m);
          }
        }
      }
    }
  }

  /** Polygon p is in the list of key k exactly when its material is k; each list ascends and
      is non-empty. */
  lemma GroupMembers(indices: seq<int>)
    ensures forall k :: k in Group(indices).keys <==> k in indices
    ensures forall k, p :: k in Group(indices).lists ==>
      (p in Group(indices).lists[k] <==> 0 <= p < |indices| && indices[p] == k)
    ensures forall k :: k in Group(indices).lists ==>
      StrictlyIncreasing(Group(indices).lists[k]) && |Group(indices).lists[k]| > 0
  {
    GroupLists(indices);
    var g := Group(indices);
    forall k | k in g.lists
      ensures forall p :: p in g.lists[k] <==> 0 <= p < |indices| && indices[p] == k
      ensures StrictlyIncreasing(g.lists[k]) && |g.lists[k]| > 0
    {
      PositionsMembers(indices, k);
      assert k in indices;
      var p :| 0 <= p < |indices| && indices[p] == k;
      assert p in g.lists[k];
    }
  }

  /** Keys are inserted in the order of their first occurrence. */
  lemma {:induction false} GroupOrder(indices: seq<int>)
    ensures forall i, j :: 0 <= i < j < |Group(indices).keys| ==>
      InsertedBefore(indices, Group(indices).keys[i], Group(indices).keys[j])
    decreases |indices|
  {
    if indices != [] {
      var front := indices[..|indices| - 1];
      GroupOrder(front);
      GroupMembers(front);
      var g := Group(front);
      var keys := Group(indices).keys;
      forall i, j | 0 <= i < j < |keys|
        ensures InsertedBefore(indices, keys[i], keys[j])
      {
        assert i < |g.keys|;
        assert keys[i] == g.keys[i];
        assert keys[i] in front;
        var q :| 0 <= q < |front| && front[q] == keys[i] && (j < |g.keys| ==> g.keys[j] !in front[..q]);
        assert indices[..q] == front[..q];
        assert indices[q] == keys[i];
      }
    }
  }

  // ------------------------------------------------------------ Object.keys order

  const ARRAY_INDEX_LIMIT: int := 0xFFFF_FFFF

  /** A key JavaScript treats as an array index, listed first and ascending by `Object.keys`. */
  predicate ArrayIndex(k: int) {
    0 <= k < ARRAY_INDEX_LIMIT
  }

  function ArrayIndexKeys(keys: seq<int>): (r: seq<int>)
    ensures forall k :: k in r <==> k in keys && ArrayIndex(k)
  {
    if keys == [] then []
    else
      assert keys == [keys[0]] + keys[1..];
      (if ArrayIndex(keys[0]) then [keys[0]] else []) + ArrayIndexKeys(keys[1..])
  }

  function OtherKeys(keys: seq<int>): (r: seq<int>)
    ensures forall k :: k in r <==> k in keys && !ArrayIndex(k)
  {
    if keys == [] then []
    else
      assert keys == [keys[0]] + keys[1..];
      (if ArrayIndex(keys[0]) then [] else [keys[0]]) + OtherKeys(keys[1..])
  }

  lemma {:induction false} SplitKeysPermutes(keys: seq<int>)
    ensures multiset(ArrayIndexKeys(keys) + OtherKeys(keys)) == multiset(keys)
  {
    if keys != [] {
      SplitKeysPermutes(keys[1..]);
      assert keys == [keys[0]] + keys[1..];
    }
  }

  predicate Sorted(s: seq<int>) {
    forall i, j :: 0 <= i < j < |s| ==> s[i] <= s[j]
  }

  /** Inserts k into an ascending list. */
  function InsertSorted(s: seq<int>, k: int): (r: seq<int>)
    requires Sorted(s)
    ensures Sorted(r)
    ensures multiset(r) == multiset(s) + multiset{k}
  {
    if s == [] || k <= s[0] then
      [k] + s
    else
      var rest := InsertSorted(s[1..], k);
      InsertAfterHead(s, k, rest);
      [s[0]] + rest
  }

  /** The step of `InsertSorted` that keeps the head in front. */
  lemma InsertAfterHead(s: seq<int>, k: int, rest: seq<int>)
    requires Sorted(s) && s != [] && s[0] < k
    requires Sorted(rest) && multiset(rest) == multiset(s[1..]) + multiset{k}
    ensures Sorted([s[0]] + rest)
    ensures multiset([s[0]] + rest) == multiset(s) + multiset{k}
  {
    assert s == [s[0]] + s[1..];
    var r := [s[0]] + rest;
    forall j | 0 < j < |r|
      ensures r[0] <= r[j]
    {
      var x := rest[j - 1];
      assert x in multiset(rest);
      if x != k {
        assert x in multiset(s[1..]);
        var q :| 0 <= q < |s[1..]| && s[1..][q] == x;
        assert s[q + 1] == x;
      }
    }
  }

  function Sort(s: seq<int>): (r: seq<int>)
    ensures Sorted(r)
    ensures multiset(r) == multiset(s)
  {
    if s == [] then []
    else
      assert s == [s[0]] + s[1..];
      InsertSorted(Sort(s[1..]), s[0])
  }

  /** Distinct values stay distinct under a permutation. */
  lemma DistinctPermutation(s: seq<int>, t: seq<int>)
    requires Distinct(s) && multiset(s) == multiset(t)
    ensures Distinct(t)
  {
    forall i, j | 0 <= i < j < |t|
      ensures t[i] != t[j]
    {
      DistinctCountAtMostOne(s, t[i]);
      RepeatCountsTwice(t, i, j);
    }
  }

  lemma RepeatCountsTwice(t: seq<int>, i: nat, j: nat)
    requires i < j < |t|
    ensures t[i] == t[j] ==> multiset(t)[t[i]] >= 2
  {
    assert t == t[..j] + [t[j]] + t[j + 1..];
    assert t[..j][i] == t[i];
  }

  lemma {:induction false} DistinctCountAtMostOne(s: seq<int>, x: int)
    requires Distinct(s)
    ensures multiset(s)[x] <= 1
  {
    if s != [] {
      assert s == [s[0]] + s[1..];
      assert Distinct(s[1..]);
      DistinctCountAtMostOne(s[1..], x);
      if s[0] == x {
        assert x !in s[1..];
      }
    }
  }

  /** The order `Object.keys` lists a record's keys in, given their insertion order. */
  function ObjectKeys(inserted: seq<int>): (r: seq<int>)
    ensures multiset(r) == multiset(inserted)
    ensures forall k :: k in r <==> k in inserted
  {
    SplitKeysPermutes(inserted);
    var r := Sort(ArrayIndexKeys(inserted)) + OtherKeys(inserted);
    assert forall k :: k in r <==> k in multiset(r);
    r
  }

  /** `Object.keys` lists the array-index keys first, ascending, then the other keys in
      insertion order; no key is lost, added or repeated. */
  lemma ObjectKeysOrder(inserted: seq<int>)
    requires Distinct(inserted)
    ensures var r := ObjectKeys(inserted);
      var split := |ArrayIndexKeys(inserted)|;
      && Distinct(r)
      && split <= |r|
      && (forall i :: 0 <= i < split ==> ArrayIndex(r[i]))
      && (forall i, j :: 0 <= i < j < split ==> r[i] < r[j])
      && r[split..] == OtherKeys(inserted)
  {
    var r := ObjectKeys(inserted);
    DistinctPermutation(inserted, r);
    var sorted := Sort(ArrayIndexKeys(inserted));
    var split := |sorted|;
    assert split == |ArrayIndexKeys(inserted)| by {
      assert |multiset(sorted)| == |multiset(ArrayIndexKeys(inserted))|;
    }
    assert r[..split] == sorted;
    forall i | 0 <= i < split
      ensures ArrayIndex(r[i])
    {
      assert r[i] == sorted[i];
      assert r[i] in multiset(sorted);
      assert r[i] in ArrayIndexKeys(inserted);
    }
    forall i, j | 0 <= i < j < split
      ensures r[i] < r[j]
    {
      assert r[i] == sorted[i] && r[j] == sorted[j];
    }
    assert r[split..] == OtherKeys(inserted);
  }

  // ------------------------------------------------------------ the whole function

  /** `divideMeshByMaterial`: with a shared index, one division holding every polygon (even
      when there are none); otherwise one division per material index that occurs, listed in
      `Object.keys` order. */
  function DivideMeshByMaterial(nPolygons: nat, layers: seq<MaterialLayer>): (r: seq<Division>)
    requires FirstLayerCovers(nPolygons, layers)
    ensures Assign(nPolygons, layers).Common? ==>
      r == [Division(Assign(nPolygons, layers).index, Range(nPolygons))]
    ensures Assign(nPolygons, layers).PerPolygon? ==>
      var keys := ObjectKeys(Group(Assign(nPolygons, layers).indices).keys);
      && |r| == |keys|
      && forall i :: 0 <= i < |r| ==> r[i].material == keys[i]
  {
    match Assign(nPolygons, layers)
    case Common(index) => [Division(index, Range(nPolygons))]
    case PerPolygon(indices) =>
      var g := Group(indices);
      var order := ObjectKeys(g.keys);
      seq(|order|, i requires 0 <= i < |order| => Division(order[i], g.lists[order[i]]))
  }

  /** The material a polygon is given. */
  function MaterialOf(nPolygons: nat, layers: seq<MaterialLayer>, p: nat): int
    requires FirstLayerCovers(nPolygons, layers) && p < nPolygons
  {
    match Assign(nPolygons, layers)
    case Common(index) => index
    case PerPolygon(indices) => indices[p]
  }

  /** Every polygon lands in exactly one division, the one of its material, and each
      division's polygons are ascending: no material is listed twice, a polygon is in a
      division exactly when the division is of its material, and every polygon's material
      has a division. */
  ghost predicate Partitions(r: seq<Division>, nPolygons: nat, layers: seq<MaterialLayer>)
    requires FirstLayerCovers(nPolygons, layers)
  {
    && (forall i, j :: 0 <= i < j < |r| ==> r[i].material != r[j].material)
    && (forall i :: 0 <= i < |r| ==> StrictlyIncreasing(r[i].polygons))
    && (forall i, p :: 0 <= i < |r| ==>
          (p in r[i].polygons <==> 0 <= p < nPolygons && MaterialOf(nPolygons, layers, p) == r[i].material))
    && (forall p :: 0 <= p < nPolygons ==>
          exists i :: 0 <= i < |r| && r[i].material == MaterialOf(nPolygons, layers, p))
  }

  lemma DivisionsPartitionPolygons(nPolygons: nat, layers: seq<MaterialLayer>)
    requires FirstLayerCovers(nPolygons, layers)
    ensures Partitions(DivideMeshByMaterial(nPolygons, layers), nPolygons, layers)
  {
    if Assign(nPolygons, layers).Common? {
      CommonPartitions(nPolygons, layers);
    } else {
      PerPolygonPartitions(nPolygons, layers);
    }
  }

  lemma CommonPartitions(nPolygons: nat, layers: seq<MaterialLayer>)
    requires FirstLayerCovers(nPolygons, layers) && Assign(nPolygons, layers).Common?
    ensures Partitions(DivideMeshByMaterial(nPolygons, layers), nPolygons, layers)
  {
    var r := DivideMeshByMaterial(nPolygons, layers);
    assert |r| == 1 && r[0].polygons == Range(nPolygons);
    forall p
      ensures p in r[0].polygons <==> 0 <= p < nPolygons
    {
      if 0 <= p < nPolygons {
        assert r[0].polygons[p] == p;
      }
    }
  }

  /** A per-polygon division is its key's group. */
  lemma PerPolygonDivisions(nPolygons: nat, layers: seq<MaterialLayer>)
    requires FirstLayerCovers(nPolygons, layers) && Assign(nPolygons, layers).PerPolygon?
    ensures var g := Group(Assign(nPolygons, layers).indices);
      var order := ObjectKeys(g.keys);
      var r := DivideMeshByMaterial(nPolygons, layers);
      && |r| == |order|
      && forall i :: 0 <= i < |r| ==> order[i] in g.lists && r[i] == Division(order[i], g.lists[order[i]])
  {
  }

  lemma PerPolygonPartitions(nPolygons: nat, layers: seq<MaterialLayer>)
    requires FirstLayerCovers(nPolygons, layers) && Assign(nPolygons, layers).PerPolygon?
    ensures Partitions(DivideMeshByMaterial(nPolygons, layers), nPolygons, layers)
  {
    PerPolygonDistinct(nPolygons, layers);
    PerPolygonMembers(nPolygons, layers);
    PerPolygonCovers(nPolygons, layers);
  }

  lemma PerPolygonDistinct(nPolygons: nat, layers: seq<MaterialLayer>)
    requires FirstLayerCovers(nPolygons, layers) && Assign(nPolygons, layers).PerPolygon?
    ensures var r := DivideMeshByMaterial(nPolygons, layers);
      forall i, j :: 0 <= i < j < |r| ==> r[i].material != r[j].material
  {
    var r := DivideMeshByMaterial(nPolygons, layers);
    var order := ObjectKeys(Group(Assign(nPolygons, layers).indices).keys);
    ObjectKeysOrder(Group(Assign(nPolygons, layers).indices).keys);
    PerPolygonDivisions(nPolygons, layers);
    forall i, j | 0 <= i < j < |r|
      ensures r[i].material != r[j].material
    {
      assert r[i].material == order[i] && r[j].material == order[j];
    }
  }

  lemma PerPolygonMembers(nPolygons: nat, layers: seq<MaterialLayer>)
    requires FirstLayerCovers(nPolygons, layers) && Assign(nPolygons, layers).PerPolygon?
    ensures var r := DivideMeshByMaterial(nPolygons, layers);
      forall i :: 0 <= i < |r| ==> StrictlyIncreasing(r[i].polygons)
    ensures var r := DivideMeshByMaterial(nPolygons, layers);
      forall i, p :: 0 <= i < |r| ==>
        (p in r[i].polygons <==> 0 <= p < nPolygons && MaterialOf(nPolygons, layers, p) == r[i].material)
  {
    var indices := Assign(nPolygons, layers).indices;
    var r := DivideMeshByMaterial(nPolygons, layers);
    var g := Group(indices);
    var order := ObjectKeys(g.keys);
    PerPolygonDivisions(nPolygons, layers);
    GroupLists(indices);
    forall p | 0 <= p < nPolygons
      ensures MaterialOf(nPolygons, layers, p) == indices[p]
    {
    }
    forall i | 0 <= i < |r|
      ensures StrictlyIncreasing(r[i].polygons)
      ensures forall p :: p in r[i].polygons <==>
        0 <= p < nPolygons && MaterialOf(nPolygons, layers, p) == r[i].material
    {
      var k := order[i];
      assert r[i].polygons == g.lists[k] && r[i].material == k;
      PositionsMembers(indices, k);
    }
  }

  lemma PerPolygonCovers(nPolygons: nat, layers: seq<MaterialLayer>)
    requires FirstLayerCovers(nPolygons, layers) && Assign(nPolygons, layers).PerPolygon?
    ensures var r := DivideMeshByMaterial(nPolygons, layers);
      forall p :: 0 <= p < nPolygons ==>
        exists i :: 0 <= i < |r| && r[i].material == MaterialOf(nPolygons, layers, p)
  {
    var indices := Assign(nPolygons, layers).indices;
    var r := DivideMeshByMaterial(nPolygons, layers);
    var g := Group(indices);
    var order := ObjectKeys(g.keys);
    ObjectKeysOrder(g.keys);
    PerPolygonDivisions(nPolygons, layers);
    GroupLists(indices);
    forall p | 0 <= p < nPolygons
      ensures exists i :: 0 <= i < |r| && r[i].material == MaterialOf(nPolygons, layers, p)
    {
      var k := indices[p];
      assert k in order;
      var i :| 0 <= i < |order| && order[i] == k;
      assert r[i].material == k;
    }
  }

  /** `Object.keys` of the grouping: the array-index materials first, ascending, then the
      others in order of first occurrence. */
  lemma GroupKeyOrder(indices: seq<int>)
    ensures var order := ObjectKeys(Group(indices).keys);
      var split := |ArrayIndexKeys(Group(indices).keys)|;
      && split <= |order|
      && (forall i :: 0 <= i < split ==> ArrayIndex(order[i]))
      && (forall i, j :: 0 <= i < j < split ==> order[i] < order[j])
      && (forall i :: split <= i < |order| ==> !ArrayIndex(order[i]))
      && (forall i, j :: split <= i < j < |order| ==> InsertedBefore(indices, order[i], order[j]))
  {
    var keys := Group(indices).keys;
    var order := ObjectKeys(keys);
    var split := |ArrayIndexKeys(keys)|;
    var others := OtherKeys(keys);
    ObjectKeysOrder(keys);
    SuffixPointwise(order, split, others);
    GroupOrder(indices);
    OtherKeysKeepOrder(indices, keys);
    forall i | split <= i < |order|
      ensures !ArrayIndex(order[i])
    {
      assert others[i - split] in others;
    }
    forall i, j | split <= i < j < |order|
      ensures InsertedBefore(indices, order[i], order[j])
    {
      assert order[i] == others[i - split] && order[j] == others[j - split];
    }
  }

  /** A suffix equal to t, read index by index. */
  lemma SuffixPointwise(r: seq<int>, split: nat, t: seq<int>)
    requires split <= |r| && r[split..] == t
    ensures |r| - split == |t|
    ensures forall i :: split <= i < |r| ==> r[i] == t[i - split]
  {
    forall i | split <= i < |r|
      ensures r[i] == t[i - split]
    {
      assert r[i] == r[split..][i - split];
    }
  }

  /** The divisions come out in `Object.keys` order: array-index materials first, ascending,
      then the others (the negative ones) in order of first occurrence. */
  lemma DivisionsInKeyOrder(nPolygons: nat, layers: seq<MaterialLayer>)
    requires FirstLayerCovers(nPolygons, layers) && Assign(nPolygons, layers).PerPolygon?
    ensures var r := DivideMeshByMaterial(nPolygons, layers);
      var indices := Assign(nPolygons, layers).indices;
      var split := |ArrayIndexKeys(Group(indices).keys)|;
      && split <= |r|
      && (forall i :: 0 <= i < split ==> ArrayIndex(r[i].material))
      && (forall i, j :: 0 <= i < j < split ==> r[i].material < r[j].material)
      && (forall i :: split <= i < |r| ==> !ArrayIndex(r[i].material))
      && (forall i, j :: split <= i < j < |r| ==> InsertedBefore(indices, r[i].material, r[j].material))
  {
    GroupKeyOrder(Assign(nPolygons, layers).indices);
    PerPolygonDivisions(nPolygons, layers);
  }

  /** Filtering keeps the relative order of the keys it keeps. */
  lemma {:induction false} OtherKeysKeepOrder(indices: seq<int>, keys: seq<int>)
    requires forall i, j :: 0 <= i < j < |keys| ==> InsertedBefore(indices, keys[i], keys[j])
    ensures forall i, j :: 0 <= i < j < |OtherKeys(keys)| ==>
      InsertedBefore(indices, OtherKeys(keys)[i], OtherKeys(keys)[j])
  {
    if keys != [] {
      var tail := keys[1..];
      forall i, j | 0 <= i < j < |tail|
        ensures InsertedBefore(indices, tail[i], tail[j])
      {
        assert tail[i] == keys[i + 1] && tail[j] == keys[j + 1];
      }
      OtherKeysKeepOrder(indices, tail);
      var rest := OtherKeys(tail);
      var r := OtherKeys(keys);
      forall i, j | 0 <= i < j < |r|
        ensures InsertedBefore(indices, r[i], r[j])
      {
        if ArrayIndex(keys[0]) {
          assert r == rest;
        } else if i == 0 {
          assert r[j] == rest[j - 1] && rest[j - 1] in rest;
          var j' :| 0 <= j' < |tail| && tail[j'] == r[j];
          assert keys[j' + 1] == r[j] && keys[0] == r[0];
        } else {
          assert r[i] == rest[i - 1] && r[j] == rest[j - 1];
        }
      }
    }
  }

  /** Only the first material layer is read. */
  lemma OnlyFirstLayerRead(nPolygons: nat, layers: seq<MaterialLayer>)
    requires |layers| > 0 && FirstLayerCovers(nPolygons, layers)
    ensures FirstLayerCovers(nPolygons, layers[..1])
    ensures DivideMeshByMaterial(nPolygons, layers) == DivideMeshByMaterial(nPolygons, layers[..1])
  {
  }
}
