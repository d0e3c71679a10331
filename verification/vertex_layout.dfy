/** The vertex layout of a converted primitive: which attributes it has and in what order,
    how many bytes each takes per vertex, where each sits inside the interleaved vertex
    (stride and offsets), the byte copy that interleaves them, and the POSITION bounds. */
module VertexLayout {
  import opened Wrappers
  import opened GlTF
  import opened Decimal
  import opened Seqs

  /** The attributes a primitive can carry; the number is the set index (`TEXCOORD_0`, ...). */
  datatype AttributeKind = Position | Normal | TexCoord(index: nat) | Color(index: nat) | Joints(index: nat) | Weights(index: nat)

  /** The attribute's key in the primitive's `attributes` object. */
  function Key(kind: AttributeKind): string {
    match kind
    case Position => POSITION
    case Normal => NORMAL
    case TexCoord(i) => TEXCOORD + "_" + NatToString(i)
    case Color(i) => COLOR + "_" + NatToString(i)
    case Joints(i) => JOINTS + "_" + NatToString(i)
    case Weights(i) => WEIGHTS + "_" + NatToString(i)
  }

  function AccessorTypeOf(kind: AttributeKind): string {
    match kind
    case Position => VEC3
    case Normal => VEC3
    case TexCoord(_) => VEC2
    case _ => VEC4
  }

  /** Joint indices are stored as unsigned shorts, everything else as floats. */
  function ComponentTypeOf(kind: AttributeKind): nat {
    if kind.Joints? then UNSIGNED_SHORT else FLOAT
  }

  /** `BYTES_PER_ELEMENT` of the typed array holding the attribute's data. */
  function BytesPerElement(kind: AttributeKind): nat {
    if kind.Joints? then 2 else 4
  }

  /** Bytes per vertex: element size times `GetComponents` of the accessor type. Every
      attribute takes 8, 12 or 16 bytes. */
  function Size(kind: AttributeKind): (n: nat)
    ensures n == 8 || n == 12 || n == 16
    ensures kind.Position? || kind.Normal? ==> n == 12
    ensures kind.TexCoord? || kind.Joints? ==> n == 8
    ensures kind.Color? || kind.Weights? ==> n == 16
  {
    BytesPerElement(kind) * GetComponents(AccessorTypeOf(kind)).value
  }

  /** The attributes in the order they are inserted into `attributes`: POSITION, NORMAL when
      the mesh has normals, every UV set, every colour set, then a JOINTS/WEIGHTS pair per
      influence chunk. `Object.keys` returns them in this order because no key is an array
      index (`KeysAreNotIndices`). */
  function AttributeKinds(hasNormal: bool, nUVs: nat, nColors: nat, nChunks: nat): (r: seq<AttributeKind>)
    ensures |r| == (if hasNormal then 2 else 1) + nUVs + nColors + 2 * nChunks
    ensures r[0] == Position && (hasNormal ==> r[1] == Normal)
  {
    Head(hasNormal) + UVKinds(nUVs) + ColorKinds(nColors) + SkinKinds(nChunks)
  }

  /** After the head (POSITION, then NORMAL when present) come the UV sets in order, ... */
  lemma UVPlaces(hasNormal: bool, nUVs: nat, nColors: nat, nChunks: nat)
    ensures forall i :: 0 <= i < nUVs ==>
      AttributeKinds(hasNormal, nUVs, nColors, nChunks)[|Head(hasNormal)| + i] == TexCoord(i)
  {
    forall i | 0 <= i < nUVs
      ensures AttributeKinds(hasNormal, nUVs, nColors, nChunks)[|Head(hasNormal)| + i] == TexCoord(i)
    {
      InSecondPart(Head(hasNormal), UVKinds(nUVs), ColorKinds(nColors), SkinKinds(nChunks), i);
    }
  }

  /** ... then the colour sets in order, ... */
  lemma ColorPlaces(hasNormal: bool, nUVs: nat, nColors: nat, nChunks: nat)
    ensures forall i :: 0 <= i < nColors ==>
      AttributeKinds(hasNormal, nUVs, nColors, nChunks)[|Head(hasNormal)| + nUVs + i] == Color(i)
  {
    forall i | 0 <= i < nColors
      ensures AttributeKinds(hasNormal, nUVs, nColors, nChunks)[|Head(hasNormal)| + nUVs + i] == Color(i)
    {
      InThirdPart(Head(hasNormal), UVKinds(nUVs), ColorKinds(nColors), SkinKinds(nChunks), i);
    }
  }

  /** ... then one JOINTS/WEIGHTS pair per influence chunk. */
  lemma SkinPlaces(hasNormal: bool, nUVs: nat, nColors: nat, nChunks: nat)
    ensures var off := |Head(hasNormal)| + nUVs + nColors;
      forall i :: 0 <= i < nChunks ==>
        AttributeKinds(hasNormal, nUVs, nColors, nChunks)[off + 2 * i] == Joints(i) &&
        AttributeKinds(hasNormal, nUVs, nColors, nChunks)[off + 2 * i + 1] == Weights(i)
  {
    var off := |Head(hasNormal)| + nUVs + nColors;
    forall i | 0 <= i < nChunks
      ensures AttributeKinds(hasNormal, nUVs, nColors, nChunks)[off + 2 * i] == Joints(i)
      ensures AttributeKinds(hasNormal, nUVs, nColors, nChunks)[off + 2 * i + 1] == Weights(i)
    {
      InFourthPart(Head(hasNormal), UVKinds(nUVs), ColorKinds(nColors), SkinKinds(nChunks), 2 * i);
      InFourthPart(Head(hasNormal), UVKinds(nUVs), ColorKinds(nColors), SkinKinds(nChunks), 2 * i + 1);
    }
  }

  lemma InSecondPart<T>(a: seq<T>, b: seq<T>, c: seq<T>, d: seq<T>, i: nat)
    requires i < |b|
    ensures (a + b + c + d)[|a| + i] == b[i]
  {
    assert (a + b + c + d)[|a| + i] == (a + b)[|a| + i];
  }

  lemma InThirdPart<T>(a: seq<T>, b: seq<T>, c: seq<T>, d: seq<T>, i: nat)
    requires i < |c|
    ensures (a + b + c + d)[|a| + |b| + i] == c[i]
  {
    assert (a + b + c + d)[|a| + |b| + i] == (a + b + c)[|a| + |b| + i];
  }

  lemma InFourthPart<T>(a: seq<T>, b: seq<T>, c: seq<T>, d: seq<T>, i: nat)
    requires i < |d|
    ensures (a + b + c + d)[|a| + |b| + |c| + i] == d[i]
  {
  }



  function Head(hasNormal: bool): seq<AttributeKind> {
    if hasNormal then [Position, Normal] else [Position]
  }

  function UVKinds(n: nat): (r: seq<AttributeKind>)
    ensures |r| == n && forall i :: 0 <= i < n ==> r[i] == TexCoord(i)
    ensures forall x :: x in r ==> x.TexCoord? && x.index < n
  {
    seq(n, (i: nat) => TexCoord(i))
  }

  function ColorKinds(n: nat): (r: seq<AttributeKind>)
    ensures |r| == n && forall i :: 0 <= i < n ==> r[i] == Color(i)
    ensures forall x :: x in r ==> x.Color? && x.index < n
  {
    seq(n, (i: nat) => Color(i))
  }

  /** One JOINTS_i, WEIGHTS_i pair per chunk i of four influences. */
  function SkinKinds(n: nat): (r: seq<AttributeKind>)
    ensures |r| == 2 * n
    ensures forall x :: x in r ==> (x.Joints? || x.Weights?) && x.index < n
    ensures forall i :: 0 <= i < n ==> r[2 * i] == Joints(i) && r[2 * i + 1] == Weights(i)
  {
    if n == 0 then [] else SkinKinds(n - 1) + [Joints(n - 1), Weights(n - 1)]
  }

  /** Different attributes have different keys, so no attribute overwrites another. */
  lemma KeyInjective(a: AttributeKind, b: AttributeKind)
    requires Key(a) == Key(b)
    ensures a == b
  {
    var k := Key(a);
    assert k[0] == Key(b)[0];
    match a
    case Position =>
    case Normal =>
    case TexCoord(i) =>
      assert Key(b) == TEXCOORD + "_" + NatToString(b.index);
      StripAffixes(TEXCOORD + "_", NatToString(i), NatToString(b.index), "");
      NatToStringInjective(i, b.index);
    case Color(i) =>
      assert Key(b) == COLOR + "_" + NatToString(b.index);
      StripAffixes(COLOR + "_", NatToString(i), NatToString(b.index), "");
      NatToStringInjective(i, b.index);
    case Joints(i) =>
      assert Key(b) == JOINTS + "_" + NatToString(b.index);
      StripAffixes(JOINTS + "_", NatToString(i), NatToString(b.index), "");
      NatToStringInjective(i, b.index);
    case Weights(i) =>
      assert Key(b) == WEIGHTS + "_" + NatToString(b.index);
      StripAffixes(WEIGHTS + "_", NatToString(i), NatToString(b.index), "");
      NatToStringInjective(i, b.index);
  }

  function Keys(kinds: seq<AttributeKind>): (r: seq<string>)
    ensures |r| == |kinds| && forall k :: 0 <= k < |kinds| ==> r[k] == Key(kinds[k])
  {
    seq(|kinds|, k requires 0 <= k < |kinds| => Key(kinds[k]))
  }

  /** The keys of a primitive's attributes are pairwise different. */
  lemma KeysDistinct(hasNormal: bool, nUVs: nat, nColors: nat, nChunks: nat)
    ensures Distinct(Keys(AttributeKinds(hasNormal, nUVs, nColors, nChunks)))
  {
    var kinds := AttributeKinds(hasNormal, nUVs, nColors, nChunks);
    KindsDistinct(hasNormal, nUVs, nColors, nChunks);
    var keys := Keys(kinds);
    forall i, j | 0 <= i < j < |keys|
      ensures keys[i] != keys[j]
    {
      if keys[i] == keys[j] {
        KeyInjective(kinds[i], kinds[j]);
      }
    }
  }

  /** A primitive never carries the same attribute twice. */
  lemma KindsDistinct(hasNormal: bool, nUVs: nat, nColors: nat, nChunks: nat)
    ensures Distinct(AttributeKinds(hasNormal, nUVs, nColors, nChunks))
  {
    var head, uvs, colors, skin := Head(hasNormal), UVKinds(nUVs), ColorKinds(nColors), SkinKinds(nChunks);
    SkinDistinct(nChunks);
    DistinctAppend(head, uvs);
    DistinctAppend(head + uvs, colors);
    DistinctAppend(head + uvs + colors, skin);
  }

  lemma {:induction false} SkinDistinct(n: nat)
    ensures Distinct(SkinKinds(n))
  {
    if n > 0 {
      SkinDistinct(n - 1);
      DistinctAppend(SkinKinds(n - 1), [Joints(n - 1), Weights(n - 1)]);
    }
  }

  lemma DistinctAppend(a: seq<AttributeKind>, b: seq<AttributeKind>)
    requires Distinct(a) && Distinct(b)
    requires forall x, y :: x in a && y in b ==> x != y
    ensures Distinct(a + b)
  {
    forall i, j | 0 <= i < j < |a + b|
      ensures (a + b)[i] != (a + b)[j]
    {
      if i < |a| && |a| <= j {
        assert (a + b)[i] in a && (a + b)[j] in b;
      }
    }
  }

  /** Every key starts with a capital letter, so none is an array index: `Object.keys`
      lists them in insertion order. */
  lemma KeysAreNotIndices(kind: AttributeKind)
    ensures |Key(kind)| > 0 && 'A' <= Key(kind)[0] <= 'Z'
  {
  }

  // ------------------------------------------------------------ stride and offsets

  /** Sum of the sizes of the first k attributes: the byte offset of attribute k inside a
      vertex. */
  function Offset(kinds: seq<AttributeKind>, k: nat): nat
    requires k <= |kinds|
  {
    if k == 0 then 0 else Offset(kinds, k - 1) + Size(kinds[k - 1])
  }

  /** The vertex stride: the sum of all sizes. */
  function Stride(kinds: seq<AttributeKind>): nat {
    Offset(kinds, |kinds|)
  }

  /** Offsets grow with the index: attribute j lies wholly before attribute k > j. */
  lemma {:induction false} OffsetMonotone(kinds: seq<AttributeKind>, j: nat, k: nat)
    requires j <= k <= |kinds|
    ensures Offset(kinds, j) <= Offset(kinds, k)
    ensures j < k ==> Offset(kinds, j) + Size(kinds[j]) <= Offset(kinds, k)
    decreases k - j
  {
    if j < k {
      OffsetMonotone(kinds, j, k - 1);
      if j < k - 1 {
        OffsetMonotone(kinds, j + 1, k);
      }
    }
  }

  /** With 8-, 12- and 16-byte attributes every offset, and the stride, is a multiple of four,
      the alignment section 3.6.2.4 of the glTF 2.0 specification asks of vertex
      attributes. */
  lemma {:induction false} OffsetsAligned(kinds: seq<AttributeKind>, k: nat)
    requires k <= |kinds|
    ensures Offset(kinds, k) % 4 == 0
  {
    if k > 0 {
      OffsetsAligned(kinds, k - 1);
    }
  }

  /** The offsets within a concatenation continue from the stride of the first part. */
  lemma {:induction false} OffsetAppend(a: seq<AttributeKind>, b: seq<AttributeKind>, k: nat)
    requires k <= |b|
    ensures Offset(a + b, |a| + k) == Stride(a) + Offset(b, k)
  {
    if k == 0 {
      OffsetPrefix(a + b, a, |a|);
    } else {
      OffsetAppend(a, b, k - 1);
      assert (a + b)[|a| + k - 1] == b[k - 1];
    }
  }

  /** An offset depends only on the attributes before it. */
  lemma {:induction false} OffsetPrefix(s: seq<AttributeKind>, t: seq<AttributeKind>, k: nat)
    requires k <= |s| && k <= |t| && s[..k] == t[..k]
    ensures Offset(s, k) == Offset(t, k)
  {
    if k > 0 {
      assert s[k - 1] == s[..k][k - 1] == t[..k][k - 1] == t[k - 1];
      assert s[..k - 1] == s[..k][..k - 1];
      assert t[..k - 1] == t[..k][..k - 1];
      OffsetPrefix(s, t, k - 1);
    }
  }

  lemma StrideAppend(a: seq<AttributeKind>, b: seq<AttributeKind>)
    ensures Stride(a + b) == Stride(a) + Stride(b)
  {
    OffsetAppend(a, b, |b|);
  }

  /** A run of n attributes of the same size adds n times that size. */
  lemma {:induction false} StrideRun(kinds: seq<AttributeKind>, size: nat)
    requires forall i :: 0 <= i < |kinds| ==> Size(kinds[i]) == size
    ensures Stride(kinds) == size * |kinds|
  {
    if kinds != [] {
      var front := kinds[..|kinds| - 1];
      StrideRun(front, size);
      OffsetPrefix(kinds, front, |front|);
    }
  }

  /** Each JOINTS/WEIGHTS pair adds 8 + 16 bytes. */
  lemma {:induction false} StrideSkin(n: nat)
    ensures Stride(SkinKinds(n)) == 24 * n
  {
    if n > 0 {
      StrideSkin(n - 1);
      StrideAppend(SkinKinds(n - 1), [Joints(n - 1), Weights(n - 1)]);
      var pair := [Joints(n - 1), Weights(n - 1)];
      assert Offset(pair, 1) == 8;
      assert Stride(pair) == Offset(pair, 1) + Size(pair[1]) == 8 + 16;
    }
  }

  /** The stride of a primitive's layout: 12 for POSITION, 12 for NORMAL, 8 per UV set, 16 per
      colour set and 24 per influence chunk; a multiple of four. */
  lemma StrideOfLayout(hasNormal: bool, nUVs: nat, nColors: nat, nChunks: nat)
    ensures Stride(AttributeKinds(hasNormal, nUVs, nColors, nChunks)) ==
      12 + (if hasNormal then 12 else 0) + 8 * nUVs + 16 * nColors + 24 * nChunks
    ensures Stride(AttributeKinds(hasNormal, nUVs, nColors, nChunks)) % 4 == 0
  {
    var head, uvs, colors, skin := Head(hasNormal), UVKinds(nUVs), ColorKinds(nColors), SkinKinds(nChunks);
    assert Offset(head, 1) == 12;
    assert Stride(head) == if hasNormal then 24 else 12;
    StrideAppend(head, uvs);
    StrideRun(uvs, 8);
    assert Stride(head + uvs) == Stride(head) + 8 * nUVs;
    StrideAppend(head + uvs, colors);
    StrideRun(colors, 16);
    assert Stride(head + uvs + colors) == Stride(head) + 8 * nUVs + 16 * nColors;
    StrideAppend(head + uvs + colors, skin);
    StrideSkin(nChunks);
    OffsetsAligned(head + uvs + colors + skin, |head + uvs + colors + skin|);
  }

  // ------------------------------------------------------------ interleaving

  /** Start of row i in a table of rows `width` bytes wide, i.e. `i * width`, written as a
      sum so that the layout proofs stay linear (`RowIsProduct`). */
  function Row(width: nat, i: nat): nat {
    if i == 0 then 0 else Row(width, i - 1) + width
  }

  lemma {:induction false} RowIsProduct(width: nat, i: nat)
    ensures Row(width, i) == i * width
  {
    if i > 0 {
      RowIsProduct(width, i - 1);
    }
  }

  /** Row i ends where row i + 1 starts, at or before the start of any later row. */
  lemma {:induction false} RowBefore(width: nat, i: nat, j: nat)
    requires i < j
    ensures Row(width, i) + width <= Row(width, j)
  {
    if i + 1 < j {
      RowBefore(width, i, j - 1);
    }
  }

  /** Row i of an n-row table of width k ends at or before the table's end. */
  lemma RowInside(k: nat, i: nat, n: nat)
    requires i < n
    ensures k * i + k <= k * n
  {
    RowBefore(k, i, n);
    RowIsProduct(k, i);
    RowIsProduct(k, n);
  }

  /** Vertex v's bytes of attribute k sit at `v * stride + offset_k` in the buffer view and
      equal the attribute's own bytes for vertex v. */
  predicate Written(out: seq<byte>, kinds: seq<AttributeKind>, data: seq<seq<byte>>, k: nat, v: nat)
    requires k < |kinds| == |data|
  {
    var at := CellStart(kinds, k, v);
    var size := Size(kinds[k]);
    && at + size <= |out|
    && Row(size, v + 1) <= |data[k]|
    && out[at..at + size] == data[k][Row(size, v)..Row(size, v + 1)]
  }

  /** Where vertex v's bytes of attribute k start in the interleaved view. */
  function CellStart(kinds: seq<AttributeKind>, k: nat, v: nat): nat
    requires k <= |kinds|
  {
    Row(Stride(kinds), v) + Offset(kinds, k)
  }

  /** Two different (attribute, vertex) cells of the interleaved layout never overlap. */
  lemma CellsDisjoint(kinds: seq<AttributeKind>, k: nat, v: nat, k': nat, v': nat)
    requires k < |kinds| && k' < |kinds|
    requires v' < v || (v' == v && k' < k)
    ensures Row(Stride(kinds), v') + Offset(kinds, k') + Size(kinds[k']) <= Row(Stride(kinds), v) + Offset(kinds, k)
  {
    OffsetMonotone(kinds, k', |kinds|);
    if v' < v {
      RowBefore(Stride(kinds), v', v);
    } else {
      OffsetMonotone(kinds, k', k);
    }
  }

  /** `Uint8Array.prototype.set(block, at)`. */
  function Overwrite(out: seq<byte>, at: nat, block: seq<byte>): (r: seq<byte>)
    requires at + |block| <= |out|
    ensures |r| == |out| && r[at..at + |block|] == block
    ensures forall p :: 0 <= p < |out| && (p < at || at + |block| <= p) ==> r[p] == out[p]
  {
    var r := out[..at] + block + out[at + |block|..];
    assert r[at..at + |block|] == block;
    r
  }

  lemma SliceKept(out: seq<byte>, at: nat, block: seq<byte>, q: nat, n: nat)
    requires at + |block| <= |out| && q + n <= |out|
    requires q + n <= at || at + |block| <= q
    ensures Overwrite(out, at, block)[q..q + n] == out[q..q + n]
  {
    var out' := Overwrite(out, at, block);
    forall p | q <= p < q + n
      ensures out'[p] == out[p]
    {
    }
    assert out'[q..q + n] == out[q..q + n];
  }

  /** The byte range of a cell that `CopyStep` overwrites. */
  predicate CopiedCell(out: seq<byte>, out': seq<byte>, kinds: seq<AttributeKind>, data: seq<seq<byte>>, k: nat, v: nat)
    requires k < |kinds| == |data|
  {
    var at, size := CellStart(kinds, k, v), Size(kinds[k]);
    && at + size <= |out|
    && Row(size, v) <= Row(size, v + 1) <= |data[k]|
    && out' == Overwrite(out, at, data[k][Row(size, v)..Row(size, v + 1)])
  }

  /** One step of the copy: vertex v of attribute k is written and every earlier cell kept. */
  lemma CopyStep(out: seq<byte>, out': seq<byte>, kinds: seq<AttributeKind>, data: seq<seq<byte>>, k: nat, v: nat, vertexCount: nat)
    requires k < |kinds| == |data| && v < vertexCount
    requires CopiedCell(out, out', kinds, data, k, v)
    requires forall k', v' :: 0 <= k' < k && 0 <= v' < vertexCount ==> Written(out, kinds, data, k', v')
    requires forall v' :: 0 <= v' < v ==> Written(out, kinds, data, k, v')
    ensures forall k', v' :: 0 <= k' < k && 0 <= v' < vertexCount ==> Written(out', kinds, data, k', v')
    ensures forall v' :: 0 <= v' <= v ==> Written(out', kinds, data, k, v')
  {
    forall k', v' | 0 <= k' < k && 0 <= v' < vertexCount
      ensures Written(out', kinds, data, k', v')
    {
      CellKept(out, out', kinds, data, k, v, k', v');
    }
    forall v' | 0 <= v' < v
      ensures Written(out', kinds, data, k, v')
    {
      CellKept(out, out', kinds, data, k, v, k, v');
    }
  }

  /** Copying a cell keeps any other written cell. */
  lemma CellKept(out: seq<byte>, out': seq<byte>, kinds: seq<AttributeKind>, data: seq<seq<byte>>, k: nat, v: nat, k': nat, v': nat)
    requires k < |kinds| == |data| && k' < |kinds|
    requires CopiedCell(out, out', kinds, data, k, v)
    requires Written(out, kinds, data, k', v')
    requires (k', v') != (k, v)
    requires k' < k || v' < v
    ensures Written(out', kinds, data, k', v')
  {
    var at, size := CellStart(kinds, k, v), Size(kinds[k]);
    var block := data[k][Row(size, v)..Row(size, v + 1)];
    if v' < v || (v' == v && k' < k) {
      CellsDisjoint(kinds, k, v, k', v');
    } else {
      CellsDisjoint(kinds, k', v', k, v);
    }
    SliceKept(out, at, block, CellStart(kinds, k', v'), Size(kinds[k']));
  }

  /** The cell of vertex v < vertexCount lies inside the view and its bytes inside the
      attribute's data. */
  lemma CellInside(kinds: seq<AttributeKind>, k: nat, v: nat, vertexCount: nat)
    requires k < |kinds| && v < vertexCount
    ensures CellStart(kinds, k, v) + Size(kinds[k]) <= Row(Stride(kinds), vertexCount)
    ensures Row(Size(kinds[k]), v) <= Row(Size(kinds[k]), v + 1) <= Row(Size(kinds[k]), vertexCount)
  {
    OffsetMonotone(kinds, k, |kinds|);
    RowBefore(Stride(kinds), v, vertexCount);
    RowBefore(Size(kinds[k]), v, vertexCount);
  }

  /** The interleaving copy: every attribute's per-vertex bytes land at the vertex's start
      plus the attribute's offset, in a zero-filled view of `stride * vertexCount` bytes. */
  method Interleave(kinds: seq<AttributeKind>, data: seq<seq<byte>>, vertexCount: nat) returns (out: seq<byte>)
    requires |data| == |kinds|
    requires forall k :: 0 <= k < |kinds| ==> |data[k]| == vertexCount * Size(kinds[k])
    ensures |out| == Stride(kinds) * vertexCount
    ensures forall k, v :: 0 <= k < |kinds| && 0 <= v < vertexCount ==> Written(out, kinds, data, k, v)
  {
    var stride := Stride(kinds);
    RowIsProduct(stride, vertexCount);
    out := seq(stride * vertexCount, _ => 0);
    var k := 0;
    var byteOffset := 0;
    while k < |kinds|
      invariant k <= |kinds| && byteOffset == Offset(kinds, k)
      invariant |out| == Row(stride, vertexCount)
      invariant forall k', v' :: 0 <= k' < k && 0 <= v' < vertexCount ==> Written(out, kinds, data, k', v')
    {
      out := CopyAttribute(out, kinds, data, k, byteOffset, vertexCount);
      byteOffset := byteOffset + Size(kinds[k]);
      k := k + 1;
    }
  }

  /** One round of the outer loop: the bytes of attribute k, vertex after vertex, each at the
      vertex's start plus the attribute's offset. Earlier attributes stay written. */
  method CopyAttribute(out: seq<byte>, kinds: seq<AttributeKind>, data: seq<seq<byte>>, k: nat, byteOffset: nat,
                       vertexCount: nat) returns (out': seq<byte>)
    requires k < |kinds| == |data| && byteOffset == Offset(kinds, k)
    requires |data[k]| == vertexCount * Size(kinds[k])
    requires |out| == Row(Stride(kinds), vertexCount)
    requires forall k', v' :: 0 <= k' < k && 0 <= v' < vertexCount ==> Written(out, kinds, data, k', v')
    ensures |out'| == |out|
    ensures forall k', v' :: 0 <= k' <= k && 0 <= v' < vertexCount ==> Written(out', kinds, data, k', v')
  {
    var stride := Stride(kinds);
    var size := Size(kinds[k]);
    RowIsProduct(size, vertexCount);
    out' := out;
    var v := 0;
    var pOut := byteOffset;
    while v < vertexCount
      invariant v <= vertexCount && pOut == Row(stride, v) + byteOffset
      invariant |out'| == Row(stride, vertexCount)
      invariant forall k', v' :: 0 <= k' < k && 0 <= v' < vertexCount ==> Written(out', kinds, data, k', v')
      invariant forall v' :: 0 <= v' < v ==> Written(out', kinds, data, k, v')
    {
      CellInside(kinds, k, v, vertexCount);
      var next := Overwrite(out', pOut, data[k][Row(size, v)..Row(size, v + 1)]);
      CopyStep(out', next, kinds, data, k, v, vertexCount);
      out' := next;
      pOut := pOut + stride;
      v := v + 1;
    }
  }

  // ------------------------------------------------------------ POSITION bounds

  /** `a < b` on numbers that are not NaN. */
  predicate Below(a: JsNumber, b: JsNumber)
    requires !a.NaN? && !b.NaN?
  {
    match (a, b)
    case (Infinity(na), Infinity(nb)) => na && !nb
    case (Infinity(na), _) => na
    case (_, Infinity(nb)) => !nb
    case (Finite(x), Finite(y)) => x < y
  }

  /** `Math.min` of two numbers: NaN if either is, otherwise the smaller. */
  function MathMin(a: JsNumber, b: JsNumber): JsNumber {
    if a.NaN? || b.NaN? then NaN else if Below(b, a) then b else a
  }

  /** `Math.max` of two numbers: NaN if either is, otherwise the larger. */
  function MathMax(a: JsNumber, b: JsNumber): JsNumber {
    if a.NaN? || b.NaN? then NaN else if Below(a, b) then b else a
  }

  /** Component c of the first n vertices of a flat array of `components`-wide vectors. */
  function Column(data: seq<JsNumber>, components: nat, c: nat, n: nat): (r: seq<JsNumber>)
    requires c < components && n * components <= |data|
    ensures |r| == n
  {
    seq(n, (i: nat) requires i < n => (RowInside(components, i, n); data[components * i + c]))
  }

  /** The reference scans: `Math.min` folded over a column from +Infinity, `Math.max` from
      -Infinity. */
  function FoldMin(xs: seq<JsNumber>): JsNumber {
    if xs == [] then Infinity(false) else MathMin(FoldMin(xs[..|xs| - 1]), xs[|xs| - 1])
  }

  function FoldMax(xs: seq<JsNumber>): JsNumber {
    if xs == [] then Infinity(true) else MathMax(FoldMax(xs[..|xs| - 1]), xs[|xs| - 1])
  }

  /** A scan is NaN exactly when some entry of the column is NaN. */
  lemma {:induction false} FoldNaN(xs: seq<JsNumber>)
    ensures (exists i :: 0 <= i < |xs| && xs[i].NaN?) <==> FoldMin(xs).NaN?
    ensures FoldMin(xs).NaN? <==> FoldMax(xs).NaN?
  {
    if xs != [] {
      var front := xs[..|xs| - 1];
      FoldNaN(front);
      assert forall i :: 0 <= i < |front| ==> xs[i] == front[i];
      if FoldMin(front).NaN? {
        var i :| 0 <= i < |front| && front[i].NaN?;
        assert xs[i].NaN?;
      }
    }
  }

  /** What the minimum scan means for a column without NaN: for a non-empty column, an entry of
      the column that no entry is below; for an empty column the starting +Infinity. */
  lemma {:induction false} FoldMinMeaning(xs: seq<JsNumber>)
    requires forall i :: 0 <= i < |xs| ==> !xs[i].NaN?
    ensures !FoldMin(xs).NaN?
    ensures xs == [] ==> FoldMin(xs) == Infinity(false)
    ensures xs != [] ==> FoldMin(xs) in xs
    ensures forall i :: 0 <= i < |xs| ==> !Below(xs[i], FoldMin(xs))
  {
    if xs != [] {
      var front := xs[..|xs| - 1];
      var m := FoldMin(xs);
      assert forall i :: 0 <= i < |front| ==> xs[i] == front[i];
      FoldMinMeaning(front);
      assert xs == front + [xs[|xs| - 1]];
      forall i | 0 <= i < |front|
        ensures !Below(xs[i], m)
      {
        assert xs[i] == front[i];
        BelowTransitive(front[i], FoldMin(front), m);
      }
    }
  }

  /** The maximum scan, symmetrically: an entry no entry is above, or -Infinity for an
      empty column. */
  lemma {:induction false} FoldMaxMeaning(xs: seq<JsNumber>)
    requires forall i :: 0 <= i < |xs| ==> !xs[i].NaN?
    ensures !FoldMax(xs).NaN?
    ensures xs == [] ==> FoldMax(xs) == Infinity(true)
    ensures xs != [] ==> FoldMax(xs) in xs
    ensures forall i :: 0 <= i < |xs| ==> !Below(FoldMax(xs), xs[i])
  {
    if xs != [] {
      var front := xs[..|xs| - 1];
      var m := FoldMax(xs);
      assert forall i :: 0 <= i < |front| ==> xs[i] == front[i];
      FoldMaxMeaning(front);
      assert xs == front + [xs[|xs| - 1]];
      forall i | 0 <= i < |front|
        ensures !Below(m, xs[i])
      {
        assert xs[i] == front[i];
        BelowTransitive(m, FoldMax(front), front[i]);
      }
    }
  }

  /** Not below a value that is not below a third: `!(a < m)` and `!(m < b)` from
      `m <= b` etc.; the order on non-NaN numbers is total. */
  lemma BelowTransitive(a: JsNumber, b: JsNumber, c: JsNumber)
    requires !a.NaN? && !b.NaN? && !c.NaN?
    requires !Below(a, b) && !Below(b, c)
    ensures !Below(a, c)
  {
  }

  /** The scan of the source: for each component a loop over the vertices updating the
      running minimum and maximum, starting from +Infinity and -Infinity. */
  method ComponentBounds(data: seq<JsNumber>, components: nat, vertexCount: nat) returns (min: seq<JsNumber>, max: seq<JsNumber>)
    requires vertexCount * components <= |data|
    ensures |min| == components && |max| == components
    ensures forall c :: 0 <= c < components ==>
      min[c] == FoldMin(Column(data, components, c, vertexCount)) &&
      max[c] == FoldMax(Column(data, components, c, vertexCount))
  {
    min := seq(components, _ => Infinity(false));
    max := seq(components, _ => Infinity(true));
    var c := 0;
    while c < components
      invariant c <= components && |min| == components && |max| == components
      invariant forall c' :: 0 <= c' < c ==>
        min[c'] == FoldMin(Column(data, components, c', vertexCount)) &&
        max[c'] == FoldMax(Column(data, components, c', vertexCount))
    {
      var cMin := Infinity(false);
      var cMax := Infinity(true);
      var i := 0;
      while i < vertexCount
        invariant i <= vertexCount
        invariant cMin == FoldMin(Column(data, components, c, i))
        invariant cMax == FoldMax(Column(data, components, c, i))
      {
        RowInside(components, i, vertexCount);
        var n := data[components * i + c];
        ColumnStep(data, components, c, i);
        cMin := MathMin(cMin, n);
        cMax := MathMax(cMax, n);
        i := i + 1;
      }
      min := min[c := cMin];
      max := max[c := cMax];
      c := c + 1;
    }
  }

  lemma ColumnStep(data: seq<JsNumber>, components: nat, c: nat, i: nat)
    requires c < components && (i + 1) * components <= |data|
    ensures components * i + c < |data|
    ensures Column(data, components, c, i + 1) == Column(data, components, c, i) + [data[components * i + c]]
  {
    RowInside(components, i, i + 1);
    var a, b := Column(data, components, c, i + 1), Column(data, components, c, i);
    forall j | 0 <= j < i
      ensures a[j] == b[j]
    {
      RowInside(components, j, i);
    }
  }
}
