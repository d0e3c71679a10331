# fbx2gltf core, modelled in Dafny

This project models the core of an FBX-to-glTF 2.0 converter and proves properties of the model. The converter reads an FBX scene through the FBX SDK and writes a glTF document. The part modelled here is the index, byte-layout and partition arithmetic between the SDK and the JSON. The SDK's objects become plain datatypes:
- a node tree with unique ids;
- per-polygon material indices;
- skin clusters of (joint node, control points, weights);
- attribute layers with their mapping and reference modes.

The modules follow the source files:

- `Builder` (`builder.dfy`) models the glTF document builder of `src/GLTFBuilder.ts`:
  - the append-only registries and `useExtension`;
  - `createBufferView`, which queues one zero-filled region per view on a logical buffer;
  - `build`, which prunes empty arrays, concatenates each buffer's regions and gives every view its offset.
- `NodeGraph` (`node_graph.dfy`) models the two passes over the node tree:
  - pre-order registration of every node below the root in the conversion context;
  - `getNode` / `getNodeIf`;
  - the second pass, which fills in children and the scene's node list.
- `MaterialPartition` (`material_partition.dfy`) models `divideMeshByMaterial`. This includes the order in which JavaScript's `Object.keys` lists the material keys.
- `LayerElement` (`layer_element.dfy`) models `GetVertexAttribute`.
- `Skinning` (`skinning.dfy`) models `GetSkinData`. It covers:
  - joints without repeats and one inverse bind matrix each;
  - the k-th influence of a control point in chunk k / 4, slot k % 4;
  - the chunk count;
  - weight normalisation.
- `Matrices` (`matrices.dfy`) models `fbxAMatrixArrayToArray`.
- `GlTF` (`gltf.dfy`) models `GetComponents` and the byte encodings.
- `VertexLayout` and `Primitive` (`vertex_layout.dfy`, `primitive.dfy`) model `convertPrimitive`:
  - three vertices per triangle;
  - the attribute order, stride and offsets;
  - the interleaving byte copy;
  - the POSITION bounds scan;
  - the accessors.
- `Materials` (`materials.dfy`) models the conversion of Lambert and Phong surfaces and their textures:
  - wrap modes;
  - metalness;
  - alpha and BLEND.
- `Animations` (`animation.dfy`) models the stack and layer loops of `convertAnimation` and the per-node conversion: the time and curve views and accessors each round allocates, and the sampler and channel per path. An animation is added only when it has a sampler.
- `Writer` (`writer.dfy`) models the MIME-type and buffer-file naming helpers of `src/Writer.ts`.
- `MaterialUsage` (`material_usage.dfy`) models the key of `src/detail/MaterialUsage.ts`.
- `Vec3` and `Quat` (`vec3.dfy`, `quat.dfy`) model the value operations of `src/math`, over the reals.

Some numbers in the converter can become NaN or an infinity: weights divided by a zero sum, and the bounds of an empty scan. Where that can happen they are `GlTF.JsNumber`, which is a finite real, NaN or a signed infinity. Elsewhere coordinates and weights are `real`. Indices and bytes are `nat`.

Three kinds of work done outside the model are passed in as parameters:
- the single-precision encoding of a number into four bytes (`f32`);
- the single-precision rounding of a number (`fround`);
- the roughness derived from a Phong shininess exponent (`roughnessOf`).

Results of SDK calls and file-system access are inputs. These include transformed control points and normals, inverse bind matrices, image URIs and sampled animation curves.

Some details of the code that the model keeps as written:
- The bump-map lookup at `src/Convert.ts:714` reads `NormalMap` again. The normal map's texture is therefore created twice, and the bump property plays no part (`Materials.BumpIgnored`).
- The emissive factor is computed but never stored in the material, so the model does not store it.
- `convertNodeAnimation` (`src/Convert.ts:902-1064`) keeps every sample it reads.
- The texture-info extension is named `COCOS_fbxsdk_texture_info` in `src/Convert.ts`, which is the name the model uses. `src/Extensions.ts` spells it differently.
- `fbxAMatrixArrayToArray` writes element (r, c) of matrix i at 16i + 4r + c. The commented-out alternative would write the transpose.

## Model

| member | source | states |
|---|---|---|
| Builder.Init | src/GLTFBuilder.ts:34-50 | every registry starts empty, there is exactly one logical buffer and it has no queued regions; the builder invariant holds from the start |
| Builder.AddAccessor | src/GLTFBuilder.ts:74-78 | the returned index is the old accessor count, the accessor is stored there, earlier accessors and every other part of the builder are unchanged |
| Builder.AddAnimation | src/GLTFBuilder.ts:80-84 | the returned index is the old animation count, the animation is stored there, nothing else changes |
| Builder.AddImage | src/GLTFBuilder.ts:86-90 | the returned index is the old image count, the image is stored there, nothing else changes |
| Builder.AddMaterial | src/GLTFBuilder.ts:92-96 | the returned index is the old material count, the material is stored there, nothing else changes |
| Builder.AddMesh | src/GLTFBuilder.ts:98-102 | the returned index is the old mesh count, the mesh is stored there, nothing else changes |
| Builder.AddSkin | src/GLTFBuilder.ts:104-108 | the returned index is the old skin count, the skin is stored there, nothing else changes |
| Builder.AddNode | src/GLTFBuilder.ts:110-114 | the returned index is the old node count, the node is stored there, nothing else changes |
| Builder.AddSampler | src/GLTFBuilder.ts:116-120 | the returned index is the old sampler count, the sampler is stored there, nothing else changes |
| Builder.AddScene | src/GLTFBuilder.ts:122-126 | the returned index is the old scene count, the scene is stored there, nothing else changes |
| Builder.AddTexture | src/GLTFBuilder.ts:128-132 | the returned index is the old texture count, the texture is stored there, nothing else changes |
| Builder.UseExtension | src/GLTFBuilder.ts:52-56 | afterwards the name is listed; it is appended only when it was absent, the earlier names keep their order and nothing else changes |
| Builder.UseExtensionIdempotent | src/GLTFBuilder.ts:52-56 | using a name twice is using it once, the list never holds a name twice, and re-using a listed name changes nothing |
| Builder.CreateBufferView | src/GLTFBuilder.ts:58-72 | the new view gets the old view count as its index and records buffer and length; a zero-filled region of that length is queued last on that buffer with its alignment; other buffers' queues are unchanged; the invariant is kept; a buffer that does not exist is an error |
| Builder.SetStrideAndTarget | src/Convert.ts:610-611 | only the stride and target of the one view change; every other view and registry is unchanged and the invariant is kept |
| Builder.WriteRegion | src/Convert.ts:399 | the region starts with the written bytes and keeps its length and its tail; every other region is unchanged and the invariant is kept |
| Builder.BufferByteLength | src/GLTFBuilder.ts:159-162 | the total is the sum of the lengths of the regions queued on the buffer |
| Builder.CopyRegions | src/GLTFBuilder.ts:163-171 | the buffer's storage is its queued regions end to end, in queue order |
| Builder.PlaceViews | src/GLTFBuilder.ts:164-171 | each queued view gets as offset the total length of the regions queued before it, and the buffer it was queued on; length, stride and target stay; views not queued on the buffer are untouched |
| Builder.QueuedViewsDisjoint | src/GLTFBuilder.ts:164-171 | a view queued later on a buffer starts no earlier than an earlier one ends, so the views of a buffer do not overlap |
| Builder.StorageSlices | src/GLTFBuilder.ts:163-171 | every queued region appears in its buffer's storage at the offset given to its view |
| Builder.Prune | src/GLTFBuilder.ts:147-152 | an array is dropped from the document exactly when it is empty, and kept unchanged otherwise |
| Builder.Assemble | src/GLTFBuilder.ts:138-176 | the asset says version "2.0" with the given generator and copyright; every registry reaches the document unchanged exactly when it is non-empty; there is one buffer entry per laid-out buffer, holding its length |
| Builder.LayOutBuffers | src/GLTFBuilder.ts:154-180 | every queued view is placed on its own buffer at its offset, no other property of a view changes, and each buffer's storage is its regions end to end |
| Builder.Build | src/GLTFBuilder.ts:134-187 | combines the above: pruned registries, every queued view placed, one buffer entry per logical buffer even when it is empty, each entry's length equal to its storage, and each region found in the storage at its view's offset |
| NodeGraph.SetNodeMap | src/Convert.ts:1074-1077 | the node's unique id maps to the index and every other id keeps its entry |
| NodeGraph.GetNode | src/Convert.ts:1079-1085 | succeeds exactly for a mapped id, returning its index; an unmapped node is the "not mapped" error carrying the node's name |
| NodeGraph.GetNodeIf | src/Convert.ts:1087-1090 | gives the index of a mapped id and undefined otherwise |
| NodeGraph.GetNodeIfAgrees | src/Convert.ts:1079-1090 | the two lookups agree: the non-throwing one is the throwing one with the error turned into undefined |
| NodeGraph.CreateNodeRecursive | src/Convert.ts:123-134 | the node list only grows, and the nodes registered before are kept |
| NodeGraph.CreateChildren | src/Convert.ts:130-133 | the node list only grows, and the nodes registered before are kept |
| NodeGraph.CreateNodeIsPreOrder | src/Convert.ts:123-134 | one call registers the subtree in pre-order, each under its own name, and maps the k-th node of that order to the k-th new index |
| NodeGraph.CreateChildrenIsPreOrder | src/Convert.ts:115-134 | the loop over siblings registers the forest in pre-order and maps the k-th node of that order to the k-th new index |
| NodeGraph.MapFromUnique | src/Convert.ts:1074-1077 | with unique ids, mapping a list one node after another maps exactly its ids, the k-th to base + k, and leaves every other id as it was |
| NodeGraph.CreateNodesMapsPreOrder | src/Convert.ts:115-134 | starting empty, the k-th node below the root in pre-order becomes glTF node k under its own name; exactly the nodes below the root are mapped and the root itself is not, so looking it up throws |
| NodeGraph.AllMappedIsPreOrder | src/Convert.ts:153-154 | the walk of the second pass finds every node mapped exactly when every id of the forest's pre-order is in the node map |
| NodeGraph.Decorate | src/Convert.ts:157-185 | T/R/S are set only for a non-identity local transform; the mesh index is set when the node has meshes and the skin only when its index is non-negative; name and children are untouched |
| NodeGraph.ConvertNodeRecursive | src/Convert.ts:153-197 | succeeds exactly when the node and all its descendants are mapped, otherwise it throws "not mapped"; it returns the node's mapped index, and the children list is set to the children's indices in order only when there are children; unless a descendant maps to the same index, the node stored there is the decorated one (T/R/S, mesh and skin as `Decorate` gives them); every node outside the subtree's mapped indices is unchanged |
| NodeGraph.ConvertChildren | src/Convert.ts:187-194 | succeeds exactly when the whole forest is mapped, and then returns each child's index in order; nodes outside the forest's mapped indices are unchanged |
| NodeGraph.ConvertScene | src/Convert.ts:136-151 | succeeds exactly when everything below the root is mapped; the scene carries the scene's name and lists the root's children, in order, only when there are some |
| NodeGraph.PassTwoAfterPassOne | src/Convert.ts:115-151 | with unique ids, the second pass never throws after the first: every mapped index names a registered node and the scene converts |
| Decimal.NatToString | src/Convert.ts:564 | the decimal spelling of a non-negative index in a template string: at least one digit, only digits, and two or more for ten and above |
| Decimal.NatToStringInjective | src/Convert.ts:564-590 | distinct indices are spelled differently, so the numbered attribute names built from them never collide |
| Seqs.Dedupe | src/Convert.ts:342-345 | the values of the input, each once: the same members as the input and no repeats |
| Seqs.DedupeOrder | src/Convert.ts:342-345 | the values come in order of their first occurrence in the input |
| Seqs.DedupeOfDistinct | src/Convert.ts:342-345 | a list without repeats is left as it is |
| Seqs.IndexOf | src/Convert.ts:342 | the first position of the value, or -1 exactly when it does not occur |
| GlTF.Divide | src/Convert.ts:392 | JavaScript division of finite numbers: finite exactly when the divisor is not zero, and then the number that times the divisor gives the dividend; NaN exactly for 0/0; otherwise an infinity that is negative exactly when the dividend is |
| GlTF.EncodeFloats | src/Convert.ts:548 | a Float32Array's bytes: four per number, number i at bytes 4i to 4i+3 |
| GlTF.Uint16Bytes | src/Convert.ts:586 | a Uint16Array element: the number modulo 65536 in two bytes, low byte first |
| GlTF.EncodeUint16s | src/Convert.ts:586 | two bytes per number, number i at bytes 2i and 2i+1 |
| GlTF.GetComponents | src/Convert.ts:1243-1255 | succeeds exactly for the seven accessor type tags, with 1 to 16 components; any other tag throws "Unknown component" |
| GlTF.ComponentsFromTag | src/Convert.ts:1243-1255 | for every tag: SCALAR has 1 component, an accepted VECn has n, read from the tag's digit, and an accepted MATn has n times n |
| Matrices.FlattenMatrices | src/Convert.ts:1173-1213 | sixteen numbers per matrix, with entry (r, c) of matrix i written at 16i + 4r + c |
| Matrices.FlattenRoundTrip | src/Convert.ts:1173-1213 | nothing is lost: the blocks of sixteen read back as the input matrices |
| Matrices.ReadBackTransposed | src/Convert.ts:1178-1213 | a reader taking the data as column-major, as glTF does, sees each matrix transposed, which for the SDK's row-vector matrices is the same transform |
| Writer.MimeTypeFromExtension | src/Writer.ts:167-182 | "jpg" and "jpeg" give image/jpeg, "png" gives image/png, a dotted ".X" gives image/X, and anything else passes through unchanged |
| Writer.ExtensionFromMimeType | src/Writer.ts:184-192 | always a dotted extension: ".jpg" for image/jpeg, otherwise a dot before the type with any "image/" prefix removed |
| Writer.ExtensionRoundTrip | src/Writer.ts:167-192 | every dotted extension except ".jpeg" survives the trip to a MIME type and back |
| Writer.JpegComesBackAsJpg | src/Writer.ts:167-192 | ".jpeg" is the one dotted extension that does not come back: it returns as ".jpg" |
| Writer.DottedMimeTypesDistinct | src/Writer.ts:178 | distinct dotted extensions get distinct MIME types |
| Writer.MimeTypeRoundTrip | src/Writer.ts:167-192 | an image/ type other than JPEG survives the trip to an extension and back; a type without the prefix comes back with it |
| Writer.BufferFileName | src/Writer.ts:119-125 | the name starts with the output's base name and ends in ".bin"; the function is exactly `<base>.bin` for a single buffer and `<base>-<i>.bin`, with i in decimal, when there are several |
| Writer.BufferFileNamesDistinct | src/Writer.ts:119-125 | when there are several buffers, no two of them share a file name |
| MaterialUsage.UsageKey | src/detail/MaterialUsage.ts:8-10 | the fixed label followed by one digit, and the digit is '1' exactly when the usage has a transparent vertex |
| MaterialUsage.UsageKeyInjective | src/detail/MaterialUsage.ts:8-10 | different usages never share a key |
| MaterialUsage.UsageKeyRoundTrip | src/detail/MaterialUsage.ts:8-10 | the usage can be read back from its key |
| LayerElement.GetVertexAttribute | src/Convert.ts:1097-1122 | succeeds exactly for the by-control-point and by-polygon-vertex mappings with the direct or index-to-direct reference; another mapping throws "Unknown mapping mode", and another reference with a known mapping throws "Unknown reference mode"; a value found is an entry of the direct array |
| LayerElement.FetchDependsOnMappedIndex | src/Convert.ts:1100-1118 | a by-control-point value depends only on the control point, a by-polygon-vertex value only on the polygon-vertex |
| LayerElement.IndexToDirectIsOneIndirection | src/Convert.ts:1105-1115 | index-to-direct is direct seen through the index array: the value is the direct entry that the index array names for the mapped position |
| MaterialPartition.Assign | src/Convert.ts:254-278 | only the first material layer is read: all-same gives one shared index, any other mapping one index per polygon taken from the index array, and no layer at all the shared index -1 |
| MaterialPartition.Group | src/Convert.ts:289-297 | the groups are keyed exactly by the inserted keys, and no key is inserted twice |
| MaterialPartition.GroupLists | src/Convert.ts:289-297 | the keys are exactly the materials that occur, and each key's list is exactly the ascending polygons of that material |
| MaterialPartition.GroupMembers | src/Convert.ts:289-297 | a polygon is in a key's list exactly when its material is that key; every list ascends and is non-empty |
| MaterialPartition.GroupOrder | src/Convert.ts:292-294 | keys are inserted in the order in which their materials first occur |
| MaterialPartition.ObjectKeysOrder | src/Convert.ts:222 | the order `Object.keys` lists integer keys in: the array-index keys first, ascending, then the other keys in insertion order, none lost, added or repeated |
| MaterialPartition.DivideMeshByMaterial | src/Convert.ts:254-300 | with a shared index, one division holding every polygon, even when there are none; otherwise one division per material that occurs, listed in the order the converter's `Object.keys` loop visits them |
| MaterialPartition.DivisionsPartitionPolygons | src/Convert.ts:254-300 | every polygon is in exactly one division, that of its material; no material has two divisions; each division's polygons ascend; every polygon's material has a division |
| MaterialPartition.PerPolygonDivisions | src/Convert.ts:222-224 | with per-polygon indices, each division is the group of its key, in key order |
| MaterialPartition.PerPolygonDistinct | src/Convert.ts:289-297 | with per-polygon indices, no two divisions have the same material |
| MaterialPartition.PerPolygonMembers | src/Convert.ts:289-297 | with per-polygon indices, each division ascends and holds exactly the polygons of its material |
| MaterialPartition.PerPolygonCovers | src/Convert.ts:289-297 | with per-polygon indices, every polygon's material has a division |
| MaterialPartition.CommonPartitions | src/Convert.ts:282-287 | with a shared index, the single division is a partition of the polygons |
| MaterialPartition.GroupKeyOrder | src/Convert.ts:222 | the grouping's keys come out with the array-index materials first, ascending, then the others in order of first occurrence |
| MaterialPartition.DivisionsInKeyOrder | src/Convert.ts:222-224 | the divisions are visited with the non-negative materials first, ascending, then the negative ones in order of first occurrence |
| MaterialPartition.OnlyFirstLayerRead | src/Convert.ts:264-278 | a second material layer changes nothing: the divisions are those of the first layer alone |
| Skinning.AllClusters | src/Convert.ts:323-328 | the clusters visited are exactly the clusters of the skin deformers, deformer by deformer |
| Skinning.EmptyChunk | src/Convert.ts:312-321 | a new chunk holds, for every control point, four joints 0 and four weights 0 |
| Skinning.MaxCountStep | src/Convert.ts:372 | one more influence on a point raises the largest count to that point's new count, if it is larger |
| Skinning.NoInfluences | src/Convert.ts:305-310 | before any cluster is read every count is zero, there are no chunks and no joints, and the table represents the empty reference |
| Skinning.AddInfluence | src/Convert.ts:360-372 | one influence of a point: its count goes up by one, every other count stays, and every chunk keeps its shape |
| Skinning.AddInfluenceCells | src/Convert.ts:362-370 | the slot written is slot count % 4 of chunk count / 4 of that point, joint and weight together; every other cell is kept; a pushed chunk starts empty |
| Skinning.AddInfluenceLength | src/Convert.ts:363-366 | a chunk is pushed exactly when the point's next slot lies past the last chunk |
| Skinning.ChunkStep | src/Convert.ts:362-366 | the point's chunk exists or is the next one, and the chunk count, the largest count over four rounded up, grows exactly when it is the next one |
| Skinning.AddInfluenceChunks | src/Convert.ts:362-366 | pushing at most one chunk is enough: the table always has as many chunks as its largest count needs |
| Skinning.AddInfluenceRepresents | src/Convert.ts:360-372 | recording an influence in the table is appending (node, weight) to the point's list in the reference |
| Skinning.RepresentsGrowJoints | src/Convert.ts:342-345 | adding a joint later does not change what the slots already written name |
| Skinning.AddPoints | src/Convert.ts:357-373 | the inner loop keeps the table sized, with one count per control point |
| Skinning.AddPointsRepresents | src/Convert.ts:357-373 | the inner loop over a cluster's points appends (node, weight) to each point's reference list, in order |
| Skinning.AddCluster | src/Convert.ts:328-373 | a cluster whose link is not a converted node changes nothing; any other keeps the table sized |
| Skinning.Gather | src/Convert.ts:323-375 | the cluster loops leave a table sized for the control points |
| Skinning.LinkedMembers | src/Convert.ts:330-339 | a node is linked exactly when some cluster's link maps to it |
| Skinning.GatherMatches | src/Convert.ts:323-375 | the table holds each point's influences in cluster order; the joints are the linked nodes without repeats, in order of first use; each joint has the inverse bind matrix of the first cluster linking it |
| Skinning.GatherJoints | src/Convert.ts:341-355 | the joint list is the linked nodes without repeats, with one matrix per joint |
| Skinning.AddClusterJoints | src/Convert.ts:341-345 | a linked cluster adds its node to the joints exactly when the node is new |
| Skinning.GatherTable | src/Convert.ts:323-375 | the table represents the recorded influences |
| Skinning.GatherBindings | src/Convert.ts:342-355 | each joint's matrix is the one of the first cluster linking it |
| Skinning.FirstBindingKept | src/Convert.ts:343 | a later cluster does not change which cluster first links a node |
| Skinning.FirstBindingNew | src/Convert.ts:343-355 | a cluster linking a node no earlier cluster links supplies that node's matrix |
| Skinning.CountsFit | src/Convert.ts:378-387 | every point's count fits in the chunks, so the sum loop reads only existing slots |
| Skinning.Normalize | src/Convert.ts:377-395 | normalisation keeps the counts and the chunk layout |
| Skinning.WeightSumIsReferenceSum | src/Convert.ts:381-387 | the sum loop adds up exactly the point's recorded weights |
| Skinning.NormalizeMatches | src/Convert.ts:377-395 | after normalisation the k-th influence of a point still names its node and carries its weight divided, as JavaScript divides, by the sum of the point's weights; padding keeps joint 0 and weight 0; points without influences are left alone |
| Skinning.NormalizedWeight | src/Convert.ts:388-393 | the k-th normalised weight of a point is its recorded weight divided by the point's sum |
| Skinning.PartialNormalizedSum | src/Convert.ts:388-393 | the first n normalised weights of a point sum to the sum of its first n recorded weights over the total |
| Skinning.WeightsSumToOne | src/Convert.ts:377-395 | a point whose weights do not sum to zero ends with weights summing to one |
| Skinning.MappedOnly | src/Convert.ts:332-339 | only clusters of the input are kept |
| Skinning.UnmappedClustersIgnored | src/Convert.ts:332-339 | a cluster whose link is not a converted node contributes nothing: dropping all of them gives the same joints, matrices and influences |
| Skinning.AddSkinRecords | src/Convert.ts:397-419 | the inverse bind matrices go, sixteen floats each and written row by row, into a new view on buffer 0; their MAT4 float accessor, named "Inverse bind matrices" with one element per joint, is added, then the skin with the joints and that accessor |
| Skinning.GetSkinData | src/Convert.ts:301-420 | end to end: the skin lists the linked nodes without repeats in first-use order; the returned chunks hold the normalised influences; each joint's matrix comes from the first cluster linking it and is stored row by row in the new view, queued on buffer 0; only accessors, views, regions, the queue and skins change |
| VertexLayout.Size | src/Convert.ts:547-596 | every attribute takes 12 (POSITION, NORMAL), 8 (TEXCOORD, JOINTS) or 16 (COLOR, WEIGHTS) bytes per vertex: the element size of its typed array times the components of its accessor type |
| VertexLayout.AttributeKinds | src/Convert.ts:547-596 | a primitive's attributes start with POSITION, then NORMAL exactly when the mesh has a normal layer, and number one per UV set, colour set and two per influence chunk |
| VertexLayout.UVPlaces | src/Convert.ts:562-570 | the UV sets follow the head in their layer order as TEXCOORD_0, TEXCOORD_1, ... |
| VertexLayout.ColorPlaces | src/Convert.ts:572-580 | the colour sets follow the UV sets in layer order as COLOR_0, COLOR_1, ... |
| VertexLayout.SkinPlaces | src/Convert.ts:582-596 | influence chunk i contributes JOINTS_i immediately followed by WEIGHTS_i, after the colour sets |
| VertexLayout.KeyInjective | src/Convert.ts:547-596 | two attributes with the same key are the same attribute, so no assignment to `attributes` overwrites another |
| VertexLayout.KeysDistinct | src/Convert.ts:540-596 | the keys of a primitive's attribute record are pairwise different, so the record holds every attribute inserted |
| VertexLayout.KindsDistinct | src/Convert.ts:540-596 | no attribute occurs twice in a primitive's layout |
| VertexLayout.KeysAreNotIndices | src/Convert.ts:600 | every key starts with a capital letter, so none is an array index and `Object.keys` returns the attributes in insertion order |
| VertexLayout.OffsetMonotone | src/Convert.ts:614-661 | the running byte offset grows with the attribute index: each attribute lies wholly before the next |
| VertexLayout.OffsetsAligned | src/Convert.ts:599-602 | every attribute offset inside a vertex, and the stride, is a multiple of four |
| VertexLayout.StrideOfLayout | src/Convert.ts:599-602 | the vertex stride is 12 + 12 with normals + 8 per UV set + 16 per colour set + 24 per influence chunk, a multiple of four |
| VertexLayout.RowInside | src/Convert.ts:609 | the block of vertex i of an n-vertex view of width `vertexStride` ends inside the view's `vertexStride * vertexCount` bytes |
| VertexLayout.CellsDisjoint | src/Convert.ts:620-628 | the bytes of two different (attribute, vertex) cells of the interleaved view never overlap, in the order the copy writes them |
| VertexLayout.Overwrite | src/Convert.ts:624-627 | `Uint8Array.set` places the block at the given position and leaves every other byte unchanged |
| VertexLayout.Interleave | src/Convert.ts:612-629 | the filled view has `vertexStride * vertexCount` bytes and vertex v's bytes of attribute k sit at `v * vertexStride` plus the attribute's offset, equal to that attribute's own bytes for vertex v |
| VertexLayout.CopyAttribute | src/Convert.ts:620-628 | one attribute's pass writes every vertex's cell of that attribute and keeps every earlier attribute's cells |
| VertexLayout.FoldNaN | src/Convert.ts:643-653 | a component's minimum (and maximum) scan is NaN exactly when some vertex's component is NaN |
| VertexLayout.FoldMinMeaning | src/Convert.ts:641-651 | without NaN the minimum scan is +Infinity for no vertices and otherwise an entry of the column that no entry is below |
| VertexLayout.FoldMaxMeaning | src/Convert.ts:642-652 | without NaN the maximum scan is -Infinity for no vertices and otherwise an entry of the column that no entry is above |
| VertexLayout.ComponentBounds | src/Convert.ts:639-656 | the nested scan loops yield, for every component, the minimum and maximum folds over that component's column of the first `vertexCount` vertices |
| Primitive.DivisionSize | src/Convert.ts:422-429 | a primitive's ascending polygon list has at most as many entries as the mesh has polygons |
| Primitive.FetchLayers | src/Convert.ts:509-523 | reading one value from each layer succeeds exactly when every layer can be read, yields each layer's `GetVertexAttribute` value in order, and otherwise fails with the first unreadable layer's error |
| Primitive.FirstUnsupportedAppend | src/Convert.ts:509-523 | of layers read one after another, the first unreadable one is in the first group when that group has one, and otherwise in the second |
| Primitive.FlipV | src/Convert.ts:517 | with `flipV` a UV (u, v) becomes (u, 1 - v); without it the UV is kept |
| Primitive.FlipVInvolution | src/Convert.ts:517 | flipping a UV twice gives it back |
| Primitive.LayerErrorCases | src/Convert.ts:509-523 | a vertex fetch throws exactly when the normal, some UV or some colour layer cannot be read, with the error of the first of these in that order |
| Primitive.FetchVertex | src/Convert.ts:503-533 | one corner's fetch fails exactly when some layer cannot be read, with that layer's error, independent of the corner; otherwise it holds the control point's position, the layers' values (UVs flipped when asked) and the control point's entry of every influence chunk |
| Primitive.AssembleVertex | src/Convert.ts:505-533 | the vertex built from the layers' values is the vertex the layers hold for that corner |
| Primitive.MeshFitsWithoutInfluences | src/Convert.ts:492-497 | a mesh the layers fit stays fitting when it has no skin |
| Primitive.FetchVertices | src/Convert.ts:499-537 | the corner loop fails exactly when the primitive has a polygon and some layer is unreadable; otherwise it yields one vertex per corner of the listed polygons, in order, each fetched at its corner's control point |
| Primitive.PrimitiveVertexIsMeshVertex | src/Convert.ts:499-536 | with the mesh-wide polygon-vertex index, vertex v of any primitive is the vertex the whole-mesh conversion fetches for the same corner of the same polygon |
| Primitive.CounterAgreesOnlyForLeadingPolygons | src/Convert.ts:499-536 | the primitive's own counter equals the mesh-wide polygon-vertex index for every vertex exactly when the primitive's polygons are 0, 1, 2, ... in order |
| Primitive.CounterReadsAnotherPolygon | src/Convert.ts:499-536 | for a primitive holding only the second of two triangles, the counter reads the first triangle's UV where the vertex's own UV is entry 3 |
| Primitive.FetchedShaped | src/Convert.ts:547-596 | a fetched vertex has the component counts its attributes' typed arrays expect |
| Primitive.VerticesShaped | src/Convert.ts:547-596 | every fetched vertex of a primitive has the component counts its attributes expect |
| Primitive.ElementBytes | src/Convert.ts:547-596 | the bytes one vertex contributes to an attribute are its four joint indices as unsigned shorts for JOINTS and its encoded floats otherwise, of the attribute's size |
| Primitive.AttributeData | src/Convert.ts:547-596 | an attribute's typed array holds, in row v of the attribute's size, vertex v's element bytes |
| Primitive.LayoutData | src/Convert.ts:540-596 | there is one typed array per attribute of the layout, each of vertex-count times the attribute's size bytes |
| Primitive.PositionColumn | src/Convert.ts:548 | component c of the position array is the single-precision rounding of component c of every vertex's position |
| Primitive.PositionColumns | src/Convert.ts:643-650 | the scan reading `data[stride * i + c]` visits exactly component c of every vertex's position |
| Primitive.ColumnPrefix | src/Convert.ts:646-650 | the column of the first n vertices is a prefix of the column of more vertices |
| Primitive.ScannedBounds | src/Convert.ts:639-656 | the scanned min and max are the POSITION accessor's bounds |
| Primitive.AccessorsFor | src/Convert.ts:631-638 | accessor k is named after the mesh and attribute k's key, reads the shared view at attribute k's offset, and has one element per vertex |
| Primitive.AttributeMap | src/Convert.ts:658-659 | the primitive maps the key of attribute k to the k-th new accessor |
| Primitive.EmitAccessors | src/Convert.ts:615-662 | the accessor loop appends exactly one accessor per attribute in layout order and maps every key to its accessor; nothing else in the builder changes |
| Primitive.StridedView | src/Convert.ts:609-612 | the vertex view is a new zero-filled view on buffer 0 of stride times vertex-count bytes, with the stride and the vertex-buffer target; earlier views and regions are kept |
| Primitive.FillView | src/Convert.ts:609-629 | the shared view is appended on buffer 0 with the interleaved attribute bytes, earlier regions unchanged, nothing else in the builder changed |
| Primitive.ConvertPrimitive | src/Convert.ts:422-664 | with `PrimitiveCounter` indexing, the conversion as written (by-polygon-vertex layers read at the primitive's own counter); with `MeshPolygonVertex`, the corrected reading. Either way it fails exactly when it has a polygon and some layer is unreadable; otherwise one interleaved view holds every attribute of every corner, one accessor per attribute reads it at the attribute's offset with POSITION bounds, and the primitive maps every key to its accessor |
| Materials.ConvertWrapMode | src/Convert.ts:800-805 | the glTF wrap mode is REPEAT exactly for the FBX repeat mode and CLAMP_TO_EDGE for every other mode |
| Materials.WrapModeRoundTrip | src/Convert.ts:800-805 | for every mode: the FBX repeat and clamp modes read back unchanged from their glTF modes; no mode becomes MIRRORED_REPEAT; a mode converts like clamp exactly when it is not repeat |
| Materials.ConvertFileTexture | src/Convert.ts:774-798 | a file texture adds, in this order, its image with the texture-info extension recorded as used, a sampler from its U and V wrap modes, and a texture joining the two under the texture's name; nothing else changes |
| Materials.ConvertTextureProperty | src/Convert.ts:765-772 | a property yields -1 and no change exactly when no file texture is connected, and otherwise the index of the texture just created for it, earlier textures and materials untouched |
| Materials.TransparentIff | src/Convert.ts:681-693 | a surface is see-through (alpha below one) exactly when the transparency factor times the channel sum of the transparent colour is positive |
| Materials.MetalnessFromSpecular | src/Convert.ts:1239-1241 | metalness is 0 or 1, and 1 exactly when the specular red channel exceeds one half |
| Materials.MetallicOnlyForPhong | src/Convert.ts:731-742 | for every surface: metallic exactly when it is Phong and its specular red times the specular factor exceeds one half; Lambert surfaces never are |
| Materials.MaterialFromMeans | src/Convert.ts:683-756 | given texture indices that are negative exactly when the property has no texture, the material blends exactly when see-through, takes its alpha from the transparency, takes the diffuse colour unless a diffuse texture replaces it, fills each texture slot exactly when its property has a texture, and takes metalness and roughness from the Phong terms |
| Materials.LambertParts | src/Convert.ts:695-756 | the four texture lookups leave the materials alone, and the material built from their indices means what the surface says, its slots naming the textures created from the properties |
| Materials.ConvertLambertMaterial | src/Convert.ts:675-763 | a Lambert or Phong surface appends exactly one material at the returned index, earlier materials kept, meaning what the surface says, with the normal slot naming the second of the normal map's two textures |
| Materials.BumpIgnored | src/Convert.ts:714-719 | the surface's bump property plays no part: surfaces that differ only there convert identically |
| Materials.ConvertMaterial | src/Convert.ts:667-673 | a surface that is not Lambert yields -1 and leaves the builder unchanged; a Lambert or Phong surface yields the index of a new material that means what the surface says |
| Animations.AddFloats | src/Convert.ts:1037-1039 | a float array gets a view of its own on buffer 0, numbered after the existing views and four bytes per number long; its region holds the numbers as float32 and is queued last on buffer 0; no accessor is added and nothing else changes |
| Animations.AddCurve | src/Convert.ts:1037-1062 | one curve adds exactly one view and one accessor, numbered after the existing ones; the sampler appended reads the node's time accessor and the new `<node>-<path>` accessor of one element per frame over the curve's values, and its channel targets the node and path; earlier samplers and channels are kept and stay paired |
| Animations.AddCurves | src/Convert.ts:1036-1063 | the path loop adds one view and one accessor per curve; the samplers it appends realise the node's curves in order through the shared time accessor and new output accessors, each numbered at or above the old count and strictly increasing |
| Animations.ConvertNodeAnimation | src/Convert.ts:1018-1063 | a node with curves adds 1 + (number of curves) views and accessors: first the `<node>-Time` scalar accessor of the frame times, bounded by their minimum and maximum, then one accessor per curve in translation, rotation, scale order; the samplers appended realise the node's tracks through these new accessors only; only accessors, views, regions and buffer 0's queue change |
| Animations.ConvertLayer | src/Convert.ts:887-900 | walking a layer allocates one view and accessor per node sample plus one per track, after the existing ones; the samplers appended realise the layer's tracks in walk order, each through accessors created by this walk, with no output accessor shared |
| Animations.LayerLoop | src/Convert.ts:876-879 | after n rounds the accessors and views grew by the allocation of every layer read, so a layer read twice is stored twice; the samplers realise the tracks of all rounds in order, through accessors created by the loop, with strictly increasing outputs |
| Animations.ConvertStack | src/Convert.ts:867-883 | a stack yields an animation named after it exactly when it has layers and its loop read at least one track; that animation's samplers and channels are paired and realise exactly the tracks read, through accessors this stack created; the storage is allocated whether or not the animation is kept |
| Animations.FirstLayerRepeated | src/Convert.ts:876-879 | reading layer 0 in every round gathers the first layer's tracks once per layer of the stack |
| Animations.FirstLayerTrackAt | src/Convert.ts:876-879 | under the first-layer reading, round r meets track j of layer 0 right after the tracks of the earlier rounds |
| Animations.FirstLayerResampled | src/Convert.ts:876-878 | under the first-layer reading, round r > 0 samples layer 0 again: the sampler for track j of round r realises the same track as round 0's sampler j, through a different, later output accessor |
| Animations.ByIndexReadsAll | src/Convert.ts:876-879 | reading layer i in round i gathers every layer's tracks exactly once |
| Animations.LaterLayersLost | src/Convert.ts:876-882 | a stack whose first layer is empty and whose second layer rotates a node gets no animation as written, and an animation with one sampler when layers are read by index |
| Animations.ConvertAnimations | src/Convert.ts:861-885 | the stack loop keeps earlier accessors, views, regions and animations; it grows accessors and views by exactly the storage of every stack's samples, and appends, in stack order, one animation per yielding stack that realises that stack's tracks through accessors created during the loop; nothing else changes |
| Vec3.New | src/math/Vec3.ts:8-12 | the constructor takes the given components and zero for every omitted one |
| Vec3.DefaultIsOrigin | src/math/Vec3.ts:8-12 | a vector built without arguments is the origin |
| Vec3.Clone | src/math/Vec3.ts:16-18 | a clone has the components of its source |
| Vec3.Copy | src/math/Vec3.ts:20-24 | after a copy the target holds the source's components, whatever it held before |
| Vec3.CloneAndCopyEqual | src/math/Vec3.ts:16-29 | a clone and a copy compare equal to their source under any positive tolerance |
| Vec3.IsEqualReflexiveSymmetric | src/math/Vec3.ts:26-29 | closeness is reflexive for a positive tolerance and symmetric for any |
| Vec3.FarComponentUnequal | src/math/Vec3.ts:26-29 | one component differing by at least the tolerance makes two vectors unequal |
| Vec3.IsEqualChain | src/math/Vec3.ts:26-29 | tolerances add up along a chain of close vectors |
| Vec3.IsEqualNotTransitive | src/math/Vec3.ts:26-29 | under every positive tolerance closeness is not transitive: two steps of three quarters of the tolerance stay close, their ends do not |
| Quat.New | src/math/Quat.ts:10-15 | the constructor takes the given components, zero for an omitted x, y or z and one for an omitted w |
| Quat.DefaultIsIdentity | src/math/Quat.ts:10-15 | a quaternion built without arguments is the identity rotation, with squared magnitude one |
| Quat.Clone | src/math/Quat.ts:19-21 | a clone has the four components of its source |
| Quat.Copy | src/math/Quat.ts:23-28 | after a copy the target holds the source's four components |
| Quat.CloneAndCopyEqual | src/math/Quat.ts:19-35 | a clone and a copy compare equal to their source under any positive tolerance |
| Quat.IsEqualProperties | src/math/Quat.ts:30-35 | closeness is reflexive for a positive tolerance, symmetric, and fails when one component differs by at least the tolerance |
| Quat.MagnitudeSqr | src/math/Quat.ts:41-43 | the squared magnitude is never negative, zero for the zero quaternion and positive for every other |
| Quat.NegateSameMagnitude | src/math/Quat.ts:61-70 | the negated target of the sign adjustment has the same squared magnitude, and negating twice gives the original back |
| Quat.NegateFlipsDot | src/math/Quat.ts:61-70 | negating the target flips the sign of its cosine with any quaternion |
| Quat.SignAdjust | src/math/Quat.ts:61-70 | after the sign adjustment the cosine is non-negative and is the dot product with the adjusted target, which is the target negated exactly when the original cosine was negative |
| Quat.Lerp | src/math/Quat.ts:81-88 | the linear weights give `from` at t = 0 and the target at t = 1 |
| Quat.Slerp | src/math/Quat.ts:53-90 | nearly parallel rotations (one minus the adjusted cosine at most 0.000001) are interpolated linearly towards the sign-adjusted target; all others combine `from` and that target with the arc weights |
| Quat.SlerpLinearEnds | src/math/Quat.ts:72-89 | in the nearly parallel case the interpolation starts at `from` and ends at the target, negated when it lay on the far side |

## Left out

- FBX SDK import, axis and unit conversion, triangulation and per-material mesh splitting (`src/Convert.ts:40-113`): these are calls into the native SDK. The model's meshes are already triangles.
- `convertMesh` (`src/Convert.ts:200-252`) is not modelled as one operation. It chains `divideMeshByMaterial`, `GetSkinData`, `convertPrimitive` and `convertMaterial` per mesh, and each of those is modelled. Its mesh index enters `NodeGraph.Decorate` as the running mesh count.
- Matrix inverse and multiply, `MultNormalize`, `EvaluateLocalTransform` and `getGeometricTransform`: these are foreign floating-point calls. Control points and normals enter already transformed, node transforms enter as given TRS values, and inverse bind matrices enter as opaque sixteen-number matrices.
- `getRoughnessFromExponentShininess`: it uses logarithms, so it is the `roughnessOf` parameter.
- `Quat.magnitude`, `Quat.normalize`, and the arc-cosine and sine weights of `slerp`: these are square roots and trigonometry. `slerp`'s weights are the `arcScales` parameter, and only the sign adjustment and the linear branch are stated.
- Single-precision rounding (`Float32Array`) is the `f32` and `fround` parameters. Signed zero is not distinguished from zero.
- `EPSILON` is not part of this model (its file is absent). Every comparison takes the tolerance as a parameter.
- Animation sampling (`src/Convert.ts:902-1016`) is floating-point time stepping over SDK curve evaluation. Each layer is given as its node samples, in the order of the tree walk: the target node, the frame times and the sampled values per path. Nodes that the source skips because they have no curve or no frames contribute no sample. Everything from the curve record on is modelled, including the storage it allocates.
- `getNode` throwing for an FBX node with no glTF node (`src/Convert.ts:1018`) is not modelled. A sample carries its target as a glTF node index that exists.
- Image handling outside the naming rules is left out: `getActualImageFile`, URI relativisation, `readImageFileAsDataUri` with its copy of the MIME logic (`src/Convert.ts:834-859`), and base64 encoding. This is file-system access and `urijs`. An image's URI is an input of `Materials.FileTexture`.
- The I/O body of `write` in `src/Writer.ts` (JSON serialisation, GLB packing, file writes) is left out. Only its buffer-file naming expression is modelled.
- `src/Cli.ts`, `src/Util.ts`, `get-fbxsdk.js`, `src/libglTF.ts` and `src/Extensions.ts` are not part of this model. They are the entry point, wrappers over Node buffers, module loading, and constants; the constants used are restated in `GlTF`.
- `Materials.ConvertTextureProperty`: reads at most one file texture per property, as the SDK's first-connected-source lookup does. Which source is first is decided by the SDK and is an input.
- `Primitive.ConvertPrimitive`: the emitted accessors' `min`/`max` are stated over `fround` of the positions. The relation to the exact float32 values is left to that parameter. The by-polygon-vertex index is the `indexing` parameter: `PrimitiveCounter` is the converter as written, and `MeshPolygonVertex` is the corrected reading listed under Findings.
- `Skinning.Normalize`: weights are reals, so the sum-to-one property is exact rather than up to float rounding.
- `Vec3.Copy` and `Quat.Copy` return the updated target rather than mutating it. "The source is left unchanged" holds because the source is a value.

## Findings

| source | as written | input that shows it | evidently intended | confidence | as-written member | corrected member |
|---|---|---|---|---|---|---|
| src/Convert.ts:499-536 | `convertPrimitive` reads by-polygon-vertex layers at its own counter `iPolygonVertex`, which restarts at 0 for every primitive | a mesh of two triangles whose UV layer is mapped by polygon-vertex, where the primitive of the second triangle's material reads its first UV at polygon-vertex 0, a corner of the first triangle, instead of 3 | read each corner at its mesh-wide polygon-vertex index, 3 * polygon + corner | medium, not executed; the SDK's per-material mesh split usually leaves one material per mesh, which hides it | Primitive.CounterReadsAnotherPolygon | Primitive.PrimitiveVertexIsMeshVertex |
| src/Convert.ts:876-879 | the layer loop calls `GetSrcObject(animLayerCriteria)` without the loop index, so every round reads layer 0 | a stack whose first layer animates nothing and whose second layer holds one track gets no animation | round i reads layer i, so every layer's tracks are gathered once | high, not executed | Animations.LaterLayersLost | Animations.ByIndexReadsAll |
