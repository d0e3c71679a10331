/** The two passes over the FBX node tree. The first (`createNodes`) registers one glTF node
    per FBX node below the root, in pre-order, and records FBX id -> glTF index in the
    conversion context. The second (`convertScene` / `convertNodeRecursive`) looks every node
    up again, fills in its transform, mesh, skin and children, and lists the root's children
    as the scene's nodes. The scene root itself is never registered. */
module NodeGraph {
  import opened Wrappers
  import opened GlTF

  /** A local transform that is not the identity, already split into T, R and S. */
  datatype Trs = Trs(translation: seq<real>, rotation: seq<real>, scale: seq<real>)

  /** An FBX node as the converter sees it. `localTransform` is None when the SDK reports the
      identity. `meshSkin` is None when the node has no mesh attribute, otherwise the skin
      index `convertMesh` reports for its meshes (-1 when none of them is skinned). */
  datatype FbxNode = FbxNode(
    id: nat,
    name: string,
    localTransform: Option<Trs>,
    meshSkin: Option<int>,
    children: seq<FbxNode>)

  datatype FbxScene = FbxScene(name: string, root: FbxNode)

  // ------------------------------------------------------------ ConvertContext

  /** The node map of the conversion context: FBX unique id -> glTF node index. */
  datatype Context = Context(nodeMap: map<nat, nat>)

  function SetNodeMap(c: Context, n: FbxNode, index: nat): (r: Context)
    ensures n.id in r.nodeMap && r.nodeMap[n.id] == index
    ensures forall id :: id in c.nodeMap && id != n.id ==> id in r.nodeMap && r.nodeMap[id] == c.nodeMap[id]
    ensures r.nodeMap.Keys == c.nodeMap.Keys + {n.id}
  {
    Context(c.nodeMap[n.id := index])
  }

  /** Throws for a node that was never mapped. */
  function GetNode(c: Context, n: FbxNode): (r: Result<nat>)
    ensures r.Success? <==> n.id in c.nodeMap
    ensures r.Success? ==> r.value == c.nodeMap[n.id]
    ensures r.Failure? ==> r.error == NodeNotMapped(n.name)
  {
    if n.id in c.nodeMap then Success(c.nodeMap[n.id]) else Failure(NodeNotMapped(n.name))
  }

  /** Returns undefined for a node that was never mapped. */
  function GetNodeIf(c: Context, n: FbxNode): (r: Option<nat>)
    ensures r.Some? <==> n.id in c.nodeMap
    ensures r.Some? ==> r.value == c.nodeMap[n.id]
  {
    if n.id in c.nodeMap then Some(c.nodeMap[n.id]) else None
  }

  /** The two lookups agree: `getNodeIf` is `getNode` with the throw turned into undefined. */
  lemma GetNodeIfAgrees(c: Context, n: FbxNode)
    ensures GetNodeIf(c, n).Some? <==> GetNode(c, n).Success?
    ensures GetNode(c, n).Success? ==> GetNodeIf(c, n) == Some(GetNode(c, n).value)
    ensures GetNode(c, n).Failure? ==> GetNode(c, n).error == NodeNotMapped(n.name)
  {
  }

  // ------------------------------------------------------------ pre-order reference

  /** The nodes of a forest in pre-order: each node before its children, siblings in order. */
  function PreOrder(ns: seq<FbxNode>): (r: seq<FbxNode>)
    ensures |ns| > 0 ==> |r| > 0 && r[0] == ns[0]
    decreases ns, 1
  {
    if ns == [] then [] else NodePreOrder(ns[0]) + PreOrder(ns[1..])
  }

  function NodePreOrder(n: FbxNode): (r: seq<FbxNode>)
    ensures |r| > 0 && r[0] == n
    decreases n, 0
  {
    [n] + PreOrder(n.children)
  }

  predicate UniqueIds(ns: seq<FbxNode>) {
    forall i, j :: 0 <= i < j < |ns| ==> ns[i].id != ns[j].id
  }

  /** The ids of a list of nodes. */
  function Ids(ns: seq<FbxNode>): set<nat> {
    set k | 0 <= k < |ns| :: ns[k].id
  }

  function NewNode(name: string): Node {
    Node(name, None, None, None, None, None, None)
  }

  /** The glTF nodes pass one registers for a pre-order list. */
  function Registered(pre: seq<FbxNode>): (r: seq<Node>)
    ensures |r| == |pre|
    ensures forall k :: 0 <= k < |pre| ==> r[k] == NewNode(pre[k].name)
  {
    seq(|pre|, k requires 0 <= k < |pre| => NewNode(pre[k].name))
  }

  /** The node map after mapping `pre[k]` to `base + k`, one after another. */
  function MapFrom(m: map<nat, nat>, pre: seq<FbxNode>, base: nat): map<nat, nat>
    decreases |pre|
  {
    if pre == [] then m else MapFrom(m[pre[0].id := base], pre[1..], base + 1)
  }

  // ------------------------------------------------------------ pass one

  datatype Pass1 = Pass1(nodes: seq<Node>, context: Context)

  /** `createNodeRecursive`: register the node, map it, then its children. */
  function CreateNodeRecursive(n: FbxNode, s: Pass1): (r: Pass1)
    ensures |r.nodes| > |s.nodes| && r.nodes[..|s.nodes|] == s.nodes
    decreases n, 0
  {
    var index := |s.nodes|;
    CreateChildren(n.children, Pass1(s.nodes + [NewNode(n.name)], SetNodeMap(s.context, n, index)))
  }

  function CreateChildren(ns: seq<FbxNode>, s: Pass1): (r: Pass1)
    ensures |r.nodes| >= |s.nodes| && r.nodes[..|s.nodes|] == s.nodes
    decreases ns, 1
  {
    if ns == [] then s else CreateChildren(ns[1..], CreateNodeRecursive(ns[0], s))
  }

  /** `createNodes`: pass one over the children of the scene root (the root is skipped). */
  function CreateNodes(scene: FbxScene, s: Pass1): Pass1 {
    CreateChildren(scene.root.children, s)
  }

  lemma {:induction false} MapFromAppend(m: map<nat, nat>, a: seq<FbxNode>, b: seq<FbxNode>, base: nat)
    ensures MapFrom(m, a + b, base) == MapFrom(MapFrom(m, a, base), b, base + |a|)
    decreases |a|
  {
    if a != [] {
      assert (a + b)[0] == a[0] && (a + b)[1..] == a[1..] + b;
      MapFromAppend(m[a[0].id := base], a[1..], b, base + 1);
    } else {
      assert a + b == b;
    }
  }

  lemma MapFromSingle(m: map<nat, nat>, n: FbxNode, base: nat)
    ensures MapFrom(m, [n], base) == m[n.id := base]
  {
    assert [n][1..] == [];
  }

  lemma SeqAssoc<T>(x: seq<T>, y: seq<T>, z: seq<T>)
    ensures x + y + z == x + (y + z)
  {
  }

  lemma RegisteredAppend(a: seq<FbxNode>, b: seq<FbxNode>)
    ensures Registered(a + b) == Registered(a) + Registered(b)
  {
  }

  /** Pass one registers exactly the pre-order of the forest, mapping the k-th node of the
      pre-order to the k-th new index. */
  lemma {:induction false} CreateChildrenIsPreOrder(ns: seq<FbxNode>, s: Pass1)
    ensures CreateChildren(ns, s).nodes == s.nodes + Registered(PreOrder(ns))
    ensures CreateChildren(ns, s).context.nodeMap == MapFrom(s.context.nodeMap, PreOrder(ns), |s.nodes|)
    decreases ns, 1
  {
    if ns != [] {
      var s1 := CreateNodeRecursive(ns[0], s);
      CreateNodeIsPreOrder(ns[0], s);
      CreateChildrenIsPreOrder(ns[1..], s1);
      var a := NodePreOrder(ns[0]);
      var b := PreOrder(ns[1..]);
      assert CreateChildren(ns, s) == CreateChildren(ns[1..], s1);
      assert PreOrder(ns) == a + b;
      RegisteredAppend(a, b);
      SeqAssoc(s.nodes, Registered(a), Registered(b));
      MapFromAppend(s.context.nodeMap, a, b, |s.nodes|);
      assert |s1.nodes| == |s.nodes| + |a|;
    }
  }

  lemma {:induction false} CreateNodeIsPreOrder(n: FbxNode, s: Pass1)
    ensures CreateNodeRecursive(n, s).nodes == s.nodes + Registered(NodePreOrder(n))
    ensures CreateNodeRecursive(n, s).context.nodeMap == MapFrom(s.context.nodeMap, NodePreOrder(n), |s.nodes|)
    decreases n, 0
  {
    var s1 := Pass1(s.nodes + [NewNode(n.name)], SetNodeMap(s.context, n, |s.nodes|));
    assert CreateNodeRecursive(n, s) == CreateChildren(n.children, s1);
    CreateChildrenIsPreOrder(n.children, s1);
    var kids := PreOrder(n.children);
    assert NodePreOrder(n) == [n] + kids;
    RegisteredAppend([n], kids);
    assert Registered([n]) == [NewNode(n.name)];
    SeqAssoc(s.nodes, Registered([n]), Registered(kids));
    MapFromAppend(s.context.nodeMap, [n], kids, |s.nodes|);
    MapFromSingle(s.context.nodeMap, n, |s.nodes|);
    assert MapFrom(s.context.nodeMap, [n], |s.nodes|) == s1.context.nodeMap;
  }

  /** With unique ids, mapping a pre-order list maps exactly its ids, the k-th to base + k,
      and leaves every other id as it was. */
  lemma MapFromUnique(m: map<nat, nat>, pre: seq<FbxNode>, base: nat)
    requires UniqueIds(pre)
    ensures MapFrom(m, pre, base).Keys == m.Keys + Ids(pre)
    ensures forall k :: 0 <= k < |pre| ==> MapFrom(m, pre, base)[pre[k].id] == base + k
    ensures forall id :: id in m && (forall k :: 0 <= k < |pre| ==> pre[k].id != id) ==>
      MapFrom(m, pre, base)[id] == m[id]
  {
    MapFromKeys(m, pre, base);
    MapFromPositions(m, pre, base);
    forall id | id in m && (forall k :: 0 <= k < |pre| ==> pre[k].id != id)
      ensures MapFrom(m, pre, base)[id] == m[id]
    {
      assert id !in Ids(pre);
      MapFromOthers(m, pre, base, id);
    }
  }

  lemma {:induction false} MapFromKeys(m: map<nat, nat>, pre: seq<FbxNode>, base: nat)
    ensures MapFrom(m, pre, base).Keys == m.Keys + Ids(pre)
    decreases |pre|
  {
    if pre != [] {
      var rest := pre[1..];
      MapFromKeys(m[pre[0].id := base], rest, base + 1);
      assert Ids(pre) == {pre[0].id} + Ids(rest) by {
        forall id | id in Ids(pre)
          ensures id in {pre[0].id} + Ids(rest)
        {
          var k :| 0 <= k < |pre| && pre[k].id == id;
          if k > 0 {
            assert rest[k - 1].id == id;
          }
        }
        forall id | id in Ids(rest)
          ensures id in Ids(pre)
        {
          var k :| 0 <= k < |rest| && rest[k].id == id;
          assert pre[k + 1].id == id;
        }
      }
    }
  }

  /** An id the list does not hold keeps its old entry, if it had one. */
  lemma {:induction false} MapFromOthers(m: map<nat, nat>, pre: seq<FbxNode>, base: nat, id: nat)
    requires id !in Ids(pre)
    ensures id in MapFrom(m, pre, base) <==> id in m
    ensures id in m ==> MapFrom(m, pre, base)[id] == m[id]
    decreases |pre|
  {
    if pre != [] {
      var rest := pre[1..];
      assert pre[0].id in Ids(pre);
      forall k | 0 <= k < |rest|
        ensures rest[k].id != id
      {
        assert rest[k] == pre[k + 1];
      }
      MapFromOthers(m[pre[0].id := base], rest, base + 1, id);
    }
  }

  /** With unique ids, the k-th node of the list is mapped to base + k. */
  lemma {:induction false} MapFromPositions(m: map<nat, nat>, pre: seq<FbxNode>, base: nat)
    requires UniqueIds(pre)
    ensures forall k :: 0 <= k < |pre| ==>
      (pre[k].id in MapFrom(m, pre, base) && MapFrom(m, pre, base)[pre[k].id] == base + k)
    decreases |pre|
  {
    if pre != [] {
      var rest := pre[1..];
      UniqueTail(pre[0], rest);
      assert pre == [pre[0]] + rest;
      var m' := m[pre[0].id := base];
      MapFromPositions(m', rest, base + 1);
      MapFromOthers(m', rest, base + 1, pre[0].id);
      forall k | 0 <= k < |pre|
        ensures pre[k].id in MapFrom(m, pre, base) && MapFrom(m, pre, base)[pre[k].id] == base + k
      {
        if k > 0 {
          assert pre[k] == rest[k - 1];
        }
      }
    }
  }

  lemma UniqueTail(x: FbxNode, rest: seq<FbxNode>)
    requires UniqueIds([x] + rest)
    ensures UniqueIds(rest) && x.id !in Ids(rest)
  {
    var full := [x] + rest;
    forall i, j | 0 <= i < j < |rest|
      ensures rest[i].id != rest[j].id
    {
      assert rest[i] == full[i + 1];
      assert rest[j] == full[j + 1];
    }
    forall k | 0 <= k < |rest|
      ensures rest[k].id != x.id
    {
      assert full[0] == x && full[k + 1] == rest[k];
    }
  }

  /** Unique ids in the whole tree mean unique ids below the root, none of them the root's. */
  lemma UniqueBelowRoot(root: FbxNode)
    requires UniqueIds(NodePreOrder(root))
    ensures UniqueIds(PreOrder(root.children)) && root.id !in Ids(PreOrder(root.children))
  {
    UniqueTail(root, PreOrder(root.children));
  }

  /** The node map pass one builds from an empty state. */
  function PassOneMap(scene: FbxScene): map<nat, nat> {
    CreateNodes(scene, Pass1([], Context(map[]))).context.nodeMap
  }

  /** After pass one from an empty state, the k-th node of the pre-order below the root is
      glTF node k, registered under its own name; with unique ids exactly the nodes below
      the root are mapped, the k-th of them to k, and the root is not. */
  lemma CreateNodesMapsPreOrder(scene: FbxScene)
    requires UniqueIds(NodePreOrder(scene.root))
    ensures CreateNodes(scene, Pass1([], Context(map[]))).nodes == Registered(PreOrder(scene.root.children))
    ensures PassOneMap(scene).Keys == Ids(PreOrder(scene.root.children))
    ensures forall k :: 0 <= k < |PreOrder(scene.root.children)| ==>
      GetNode(Context(PassOneMap(scene)), PreOrder(scene.root.children)[k]) == Success(k)
    ensures GetNode(Context(PassOneMap(scene)), scene.root) == Failure(NodeNotMapped(scene.root.name))
    ensures GetNodeIf(Context(PassOneMap(scene)), scene.root) == None
  {
    var pre := PreOrder(scene.root.children);
    UniqueBelowRoot(scene.root);
    CreateChildrenIsPreOrder(scene.root.children, Pass1([], Context(map[])));
    assert [] + Registered(pre) == Registered(pre);
    MapFromUnique(map[], pre, 0);
  }

  // ------------------------------------------------------------ pass two

  datatype Pass2 = Pass2(nodes: seq<Node>, meshCount: nat)

  /** Every mapped index names a registered node. */
  predicate IndicesInRange(c: Context, nodes: seq<Node>) {
    forall id :: id in c.nodeMap ==> c.nodeMap[id] < |nodes|
  }

  /** Every node of the forest, at any depth, is mapped (structurally, as pass two walks it). */
  predicate AllMapped(c: Context, ns: seq<FbxNode>)
    decreases ns, 1
  {
    ns == [] || (NodeMapped(c, ns[0]) && AllMapped(c, ns[1..]))
  }

  predicate NodeMapped(c: Context, n: FbxNode)
    decreases n, 0
  {
    n.id in c.nodeMap && AllMapped(c, n.children)
  }

  /** The structural predicate is the pre-order one: a forest is mapped exactly when every
      node of its pre-order is. */
  lemma {:induction false} AllMappedIsPreOrder(c: Context, ns: seq<FbxNode>)
    ensures AllMapped(c, ns) <==> Ids(PreOrder(ns)) <= c.nodeMap.Keys
    decreases ns, 1
  {
    if ns != [] {
      NodeMappedIsPreOrder(c, ns[0]);
      AllMappedIsPreOrder(c, ns[1..]);
      IdsAppend(NodePreOrder(ns[0]), PreOrder(ns[1..]));
    }
  }

  lemma {:induction false} NodeMappedIsPreOrder(c: Context, n: FbxNode)
    ensures NodeMapped(c, n) <==> Ids(NodePreOrder(n)) <= c.nodeMap.Keys
    decreases n, 0
  {
    AllMappedIsPreOrder(c, n.children);
    IdsAppend([n], PreOrder(n.children));
    assert [n][0] == n;
    assert Ids([n]) == {n.id};
  }

  lemma IdsAppend(a: seq<FbxNode>, b: seq<FbxNode>)
    ensures Ids(a + b) == Ids(a) + Ids(b)
  {
    forall id | id in Ids(a + b)
      ensures id in Ids(a) + Ids(b)
    {
      var k :| 0 <= k < |a + b| && (a + b)[k].id == id;
      if k >= |a| {
        assert b[k - |a|].id == id;
      }
    }
    forall id | id in Ids(a) + Ids(b)
      ensures id in Ids(a + b)
    {
      if id in Ids(a) {
        var k :| 0 <= k < |a| && a[k].id == id;
        assert (a + b)[k].id == id;
      } else {
        var k :| 0 <= k < |b| && b[k].id == id;
        assert (a + b)[|a| + k].id == id;
      }
    }
  }

  /** The node's own part of `convertNodeRecursive`: T/R/S when the local transform is not the
      identity; the mesh index `convertMesh` gets from `addMesh`, and the skin only when it
      is non-negative. */
  function Decorate(node: Node, n: FbxNode, meshCount: nat): (r: (Node, nat))
    ensures n.localTransform.None? ==>
      r.0.translation == node.translation && r.0.rotation == node.rotation && r.0.scale == node.scale
    ensures n.localTransform.Some? ==>
      && r.0.translation == Some(n.localTransform.value.translation)
      && r.0.rotation == Some(n.localTransform.value.rotation)
      && r.0.scale == Some(n.localTransform.value.scale)
    ensures n.meshSkin.None? ==> r.0.mesh == node.mesh && r.0.skin == node.skin && r.1 == meshCount
    ensures n.meshSkin.Some? ==> r.0.mesh == Some(meshCount) && r.1 == meshCount + 1
    ensures n.meshSkin.Some? && n.meshSkin.value >= 0 ==> r.0.skin == Some(n.meshSkin.value as nat)
    ensures n.meshSkin.Some? && n.meshSkin.value < 0 ==> r.0.skin == node.skin
    ensures r.0.name == node.name && r.0.children == node.children
  {
    var withTrs := match n.localTransform
      case None => node
      case Some(t) => node.(translation := Some(t.translation), scale := Some(t.scale), rotation := Some(t.rotation));
    match n.meshSkin
    case None => (withTrs, meshCount)
    case Some(skin) =>
      var withMesh := withTrs.(mesh := Some(meshCount));
      (if skin >= 0 then withMesh.(skin := Some(skin as nat)) else withMesh, meshCount + 1)
  }

  /** The children list pass two records: the glTF index of every child, in order. */
  predicate ChildIndices(c: Context, ns: seq<FbxNode>, kids: seq<nat>) {
    && |kids| == |ns|
    && forall i :: 0 <= i < |ns| ==> ns[i].id in c.nodeMap && kids[i] == c.nodeMap[ns[i].id]
  }

  /** The glTF indices pass two may write while walking the subtree of n: those of its mapped
      nodes, at any depth. */
  function SubtreeTargets(c: Context, n: FbxNode): set<nat>
    decreases n, 0
  {
    (if n.id in c.nodeMap then {c.nodeMap[n.id]} else {}) + ForestTargets(c, n.children)
  }

  function ForestTargets(c: Context, ns: seq<FbxNode>): set<nat>
    decreases ns, 1
  {
    if ns == [] then {} else SubtreeTargets(c, ns[0]) + ForestTargets(c, ns[1..])
  }

  /** `convertNodeRecursive`: look the node up (throwing when it is not mapped), decorate it,
      then convert its children and, only when it has some, record their indices. */
  function ConvertNodeRecursive(c: Context, n: FbxNode, s: Pass2): (r: Result<(Pass2, nat)>)
    requires IndicesInRange(c, s.nodes)
    ensures r.Success? <==> NodeMapped(c, n)
    ensures r.Failure? ==> r.error.NodeNotMapped?
    ensures r.Success? ==>
      && r.value.1 == c.nodeMap[n.id]
      && |r.value.0.nodes| == |s.nodes|
      && (|n.children| > 0 ==>
            && r.value.0.nodes[r.value.1].children.Some?
            && ChildIndices(c, n.children, r.value.0.nodes[r.value.1].children.value))
      && (|n.children| == 0 ==> r.value.0.nodes[r.value.1].children == s.nodes[r.value.1].children)
    ensures r.Success? && r.value.1 !in ForestTargets(c, n.children) ==>
      r.value.0.nodes[r.value.1]
        == Decorate(s.nodes[r.value.1], n, s.meshCount).0.(children := r.value.0.nodes[r.value.1].children)
    ensures r.Success? ==>
      forall j :: 0 <= j < |s.nodes| && j !in SubtreeTargets(c, n) ==> r.value.0.nodes[j] == s.nodes[j]
    decreases n, 0
  {
    var index :- GetNode(c, n);
    var (node, meshCount) := Decorate(s.nodes[index], n, s.meshCount);
    var s1 := Pass2(s.nodes[index := node], meshCount);
    if |n.children| == 0 then
      Success((s1, index))
    else
      var r :- ConvertChildren(c, n.children, s1);
      var (s2, kids) := r;
      Success((s2.(nodes := s2.nodes[index := s2.nodes[index].(children := Some(kids))]), index))
  }

  function ConvertChildren(c: Context, ns: seq<FbxNode>, s: Pass2): (r: Result<(Pass2, seq<nat>)>)
    requires IndicesInRange(c, s.nodes)
    ensures r.Success? <==> AllMapped(c, ns)
    ensures r.Failure? ==> r.error.NodeNotMapped?
    ensures r.Success? ==> |r.value.0.nodes| == |s.nodes| && ChildIndices(c, ns, r.value.1)
    ensures r.Success? ==>
      forall j :: 0 <= j < |s.nodes| && j !in ForestTargets(c, ns) ==> r.value.0.nodes[j] == s.nodes[j]
    decreases ns, 1
  {
    if ns == [] then Success((s, []))
    else
      var first :- ConvertNodeRecursive(c, ns[0], s);
      var rest :- ConvertChildren(c, ns[1..], first.0);
      Success((rest.0, [first.1] + rest.1))
  }

  /** `convertScene`: the scene lists the root's children only when there are some. */
  function ConvertScene(c: Context, scene: FbxScene, s: Pass2): (r: Result<(Pass2, Scene)>)
    requires IndicesInRange(c, s.nodes)
    ensures r.Success? <==> AllMapped(c, scene.root.children)
    ensures r.Success? ==> r.value.1.name == scene.name && |r.value.0.nodes| == |s.nodes|
    ensures r.Success? ==> (r.value.1.nodes.None? <==> |scene.root.children| == 0)
    ensures r.Success? && r.value.1.nodes.Some? ==> ChildIndices(c, scene.root.children, r.value.1.nodes.value)
  {
    if |scene.root.children| > 0 then
      var r :- ConvertChildren(c, scene.root.children, s);
      Success((r.0, Scene(scene.name, Some(r.1))))
    else
      Success((s, Scene(scene.name, None)))
  }

  /** Pass two never throws after pass one: every node below the root was mapped, to a
      registered node. */
  lemma PassTwoAfterPassOne(scene: FbxScene)
    requires UniqueIds(NodePreOrder(scene.root))
    ensures var p1 := CreateNodes(scene, Pass1([], Context(map[])));
      && IndicesInRange(p1.context, p1.nodes)
      && ConvertScene(p1.context, scene, Pass2(p1.nodes, 0)).Success?
  {
    var pre := PreOrder(scene.root.children);
    var p1 := CreateNodes(scene, Pass1([], Context(map[])));
    CreateNodesMapsPreOrder(scene);
    assert p1.context.nodeMap.Keys == Ids(pre);
    assert |p1.nodes| == |pre|;
    forall id | id in p1.context.nodeMap
      ensures p1.context.nodeMap[id] < |p1.nodes|
    {
      var k :| 0 <= k < |pre| && pre[k].id == id;
      assert GetNode(p1.context, pre[k]) == Success(k);
    }
    AllMappedIsPreOrder(p1.context, scene.root.children);
  }
}
