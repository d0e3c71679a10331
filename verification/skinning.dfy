/** `GetSkinData`: the skin of a mesh. Each cluster names a joint node and the control points
    it moves with their weights. Joints are collected without repeats, one inverse bind
    matrix each; every control point's influences are spread over chunks of four (the k-th
    one in chunk k / 4, slot k % 4), and each point's weights are then divided by their sum. */
module Skinning {
  import opened Wrappers
  import opened GlTF
  import opened NodeGraph
  import opened Matrices
  import opened Builder
  import opened Seqs

  /** A skin cluster as the SDK reports it; `inverseBindMatrix` stands for the product of the
      inverted link matrix and the transform matrix, which the SDK computes. */
  datatype Cluster = Cluster(
    link: FbxNode,
    controlPointIndices: seq<nat>,
    controlPointWeights: seq<real>,
    inverseBindMatrix: seq<seq<real>>)

  /** The SDK's cluster arrays: as many weights as indices, every index a control point. */
  predicate WellFormedCluster(cl: Cluster, nControlPoints: nat) {
    && |cl.controlPointWeights| == |cl.controlPointIndices|
    && (forall i :: 0 <= i < |cl.controlPointIndices| ==> cl.controlPointIndices[i] < nControlPoints)
    && IsMatrix(cl.inverseBindMatrix)
  }

  predicate WellFormedClusters(clusters: seq<Cluster>, nControlPoints: nat) {
    forall i :: 0 <= i < |clusters| ==> WellFormedCluster(clusters[i], nControlPoints)
  }

  /** The clusters of every skin deformer, deformer by deformer. */
  function AllClusters(deformers: seq<seq<Cluster>>): (r: seq<Cluster>)
    ensures forall cl :: cl in r <==> exists d :: 0 <= d < |deformers| && cl in deformers[d]
  {
    if deformers == [] then []
    else
      var rest := AllClusters(deformers[1..]);
      assert forall d :: 1 <= d < |deformers| ==> deformers[d] == deformers[1..][d - 1];
      deformers[0] + rest
  }

  // ------------------------------------------------------------ the influence table

  /** Four joint slots and four weight slots of one control point in one chunk. */
  datatype Influences4 = Influences4(joints: seq<nat>, weights: seq<JsNumber>)

  /** `influenceCounts` and `jointsWeights.elements`: chunk q holds one `Influences4` per
      control point. */
  datatype Table = Table(counts: seq<nat>, elements: seq<seq<Influences4>>)

  /** One influence as the reference records it: the glTF node of the joint and the weight. */
  datatype Influence = Influence(node: nat, weight: real)

  const EMPTY_SLOTS: Influences4 := Influences4([0, 0, 0, 0], [Finite(0.0), Finite(0.0), Finite(0.0), Finite(0.0)])

  /** `makeJointsWeightsLayerElement`: joints 0 and weights 0 for every control point. */
  function EmptyChunk(nControlPoints: nat): (r: seq<Influences4>)
    ensures |r| == nControlPoints && forall cp :: 0 <= cp < nControlPoints ==> r[cp] == EMPTY_SLOTS
  {
    seq(nControlPoints, _ => EMPTY_SLOTS)
  }

  /** Every chunk has one entry per control point, four slots each. */
  predicate Shaped(t: Table) {
    && (forall q :: 0 <= q < |t.elements| ==> |t.elements[q]| == |t.counts|)
    && (forall q, cp :: 0 <= q < |t.elements| && 0 <= cp < |t.elements[q]| ==>
          |t.elements[q][cp].joints| == 4 && |t.elements[q][cp].weights| == 4)
  }

  /** The largest influence count. */
  function MaxCount(counts: seq<nat>): (m: nat)
    ensures forall cp :: 0 <= cp < |counts| ==> counts[cp] <= m
    ensures counts == [] ==> m == 0
    ensures counts != [] ==> exists cp :: 0 <= cp < |counts| && counts[cp] == m
    decreases |counts|
  {
    if counts == [] then 0
    else
      var m := MaxCount(counts[..|counts| - 1]);
      var last := counts[|counts| - 1];
      assert forall cp :: 0 <= cp < |counts| - 1 ==> counts[cp] == counts[..|counts| - 1][cp];
      if last > m then last else m
  }

  /** The number of chunks needed for the largest count: its quotient by four, rounded up. */
  function ChunkCount(counts: seq<nat>): nat {
    (MaxCount(counts) + 3) / 4
  }

  /** One more influence on control point cp raises the largest count to at least its count. */
  lemma MaxCountStep(counts: seq<nat>, cp: nat)
    requires cp < |counts|
    ensures var m := MaxCount(counts);
      MaxCount(counts[cp := counts[cp] + 1]) == if counts[cp] + 1 > m then counts[cp] + 1 else m
  {
    var counts' := counts[cp := counts[cp] + 1];
    var m := MaxCount(counts);
    var m' := MaxCount(counts');
    var want := if counts[cp] + 1 > m then counts[cp] + 1 else m;
    assert counts'[cp] <= m';
    assert m' <= want by {
      var w :| 0 <= w < |counts'| && counts'[w] == m';
    }
    assert want <= m' by {
      if counts[cp] + 1 <= m {
        var w :| 0 <= w < |counts| && counts[w] == m;
        assert counts'[w] >= m;
      }
    }
  }

  /** The table is shaped and has as many chunks as its largest count needs. */
  predicate Sized(t: Table) {
    Shaped(t) && |t.elements| == ChunkCount(t.counts)
  }

  /** Slot c of chunk q for control point cp agrees with the reference: the k-th influence
      (k = 4q + c) names, through the joint list, the reference's node and carries its
      weight; a slot past the point's last influence keeps joint 0 and weight 0. */
  predicate SlotAgrees(t: Table, joints: seq<nat>, infl: seq<seq<Influence>>, q: nat, cp: nat, c: nat)
    requires Shaped(t) && q < |t.elements| && cp < |t.counts| && cp < |infl| && c < 4
  {
    var k := 4 * q + c;
    var s := t.elements[q][cp];
    if k < |infl[cp]| then
      && s.joints[c] < |joints|
      && joints[s.joints[c]] == infl[cp][k].node
      && s.weights[c] == Finite(infl[cp][k].weight)
    else
      s.joints[c] == 0 && s.weights[c] == Finite(0.0)
  }

  /** The table holds exactly the reference influences: one count per control point, as many
      chunks as the largest count needs, and every slot in agreement. */
  predicate Represents(t: Table, joints: seq<nat>, infl: seq<seq<Influence>>) {
    && Sized(t)
    && |t.counts| == |infl|
    && (forall cp :: 0 <= cp < |infl| ==> t.counts[cp] == |infl[cp]|)
    && (forall q, cp, c :: 0 <= q < |t.elements| && 0 <= cp < |infl| && 0 <= c < 4 ==>
          SlotAgrees(t, joints, infl, q, cp, c))
  }

  /** The table and the reference before any cluster is read. */
  function NoInfluences(nControlPoints: nat): (r: (Table, seq<seq<Influence>>))
    ensures Represents(r.0, [], r.1)
    ensures |r.1| == nControlPoints && forall cp :: 0 <= cp < nControlPoints ==> r.1[cp] == []
  {
    var counts := seq(nControlPoints, _ => 0);
    assert MaxCount(counts) == 0 by {
      if nControlPoints > 0 {
        var w :| 0 <= w < |counts| && counts[w] == MaxCount(counts);
      }
    }
    (Table(counts, []), seq(nControlPoints, _ => []))
  }

  /** Records one influence of control point cp: a new chunk is pushed when the point's count
      reaches the chunks' capacity, then slot count % 4 of chunk count / 4 is written. */
  function AddInfluence(t: Table, cp: nat, joint: nat, w: real): (r: Table)
    requires Shaped(t) && cp < |t.counts| && t.counts[cp] / 4 <= |t.elements|
    ensures Shaped(r) && r.counts == t.counts[cp := t.counts[cp] + 1]
  {
    var n := t.counts[cp];
    var q := n / 4;
    var c := n % 4;
    var elements := if q >= |t.elements| then t.elements + [EmptyChunk(|t.counts|)] else t.elements;
    var slots := elements[q][cp];
    var slots' := Influences4(slots.joints[c := joint], slots.weights[c := Finite(w)]);
    Table(t.counts[cp := n + 1], elements[q := elements[q][cp := slots']])
  }

  /** What `AddInfluence` leaves in each cell: the written slot in the cell of the point, the
      old cell elsewhere, an empty cell in a new chunk. */
  lemma AddInfluenceCells(t: Table, cp: nat, joint: nat, w: real, q: nat, p: nat)
    requires Shaped(t) && cp < |t.counts| && t.counts[cp] / 4 <= |t.elements|
    requires q < |AddInfluence(t, cp, joint, w).elements| && p < |t.counts|
    ensures var n := t.counts[cp];
      var cell := AddInfluence(t, cp, joint, w).elements[q][p];
      && q <= |t.elements|
      && (q == |t.elements| ==> n / 4 == q)
      && (p == cp && q == n / 4 ==>
            cell.joints == (if q < |t.elements| then t.elements[q][p] else EMPTY_SLOTS).joints[n % 4 := joint]
            && cell.weights == (if q < |t.elements| then t.elements[q][p] else EMPTY_SLOTS).weights[n % 4 := Finite(w)])
      && (!(p == cp && q == n / 4) ==> cell == if q < |t.elements| then t.elements[q][p] else EMPTY_SLOTS)
  {
  }

  /** A chunk is pushed exactly when the point's count fills the chunks there are, which
      keeps the chunk count at the largest count over four, rounded up. */
  lemma AddInfluenceChunks(t: Table, cp: nat, joint: nat, w: real)
    requires Shaped(t) && cp < |t.counts| && |t.elements| == ChunkCount(t.counts)
    ensures t.counts[cp] / 4 <= |t.elements|
    ensures |AddInfluence(t, cp, joint, w).elements| == ChunkCount(t.counts[cp := t.counts[cp] + 1])
  {
    ChunkStep(t.counts, cp);
    AddInfluenceLength(t, cp, joint, w);
  }

  /** One more influence on control point cp adds a chunk exactly when the point's count
      already fills the chunks there are. */
  lemma ChunkStep(counts: seq<nat>, cp: nat)
    requires cp < |counts|
    ensures counts[cp] / 4 <= ChunkCount(counts)
    ensures ChunkCount(counts[cp := counts[cp] + 1])
      == if counts[cp] / 4 >= ChunkCount(counts) then ChunkCount(counts) + 1 else ChunkCount(counts)
  {
    MaxCountStep(counts, cp);
    ChunkArithmetic(counts[cp], MaxCount(counts), ChunkCount(counts), MaxCount(counts[cp := counts[cp] + 1]));
  }

  /** The chunk arithmetic behind `AddInfluenceChunks`: with n at most the largest count m,
      the chunk n / 4 exists or is the next one, and it is new exactly when the rounded-up
      chunk count of the new largest count m' grows. */
  lemma ChunkArithmetic(n: nat, m: nat, chunks: nat, m': nat)
    requires n <= m && chunks == (m + 3) / 4
    requires m' == if n + 1 > m then n + 1 else m
    ensures n / 4 <= chunks
    ensures (if n / 4 >= chunks then chunks + 1 else chunks) == (m' + 3) / 4
  {
    if n / 4 >= chunks {
      assert n == m && n % 4 == 0;
    } else if n + 1 > m {
      assert n == m && n % 4 != 0;
    }
  }

  /** `AddInfluence` pushes one chunk when the point's next slot lies past the last chunk,
      and none otherwise. */
  lemma AddInfluenceLength(t: Table, cp: nat, joint: nat, w: real)
    requires Shaped(t) && cp < |t.counts| && t.counts[cp] / 4 <= |t.elements|
    ensures |AddInfluence(t, cp, joint, w).elements|
      == if t.counts[cp] / 4 >= |t.elements| then |t.elements| + 1 else |t.elements|
  {
  }

  /** Each slot of the grown table agrees with the grown reference. */
  lemma AddInfluenceSlot(t: Table, joints: seq<nat>, infl: seq<seq<Influence>>, cp: nat, joint: nat, w: real,
                         q: nat, p: nat, c: nat)
    requires Represents(t, joints, infl) && cp < |infl| && joint < |joints|
    requires t.counts[cp] / 4 <= |t.elements|
    requires q < |AddInfluence(t, cp, joint, w).elements| && p < |infl| && c < 4
    ensures SlotAgrees(AddInfluence(t, cp, joint, w), joints,
                       infl[cp := infl[cp] + [Influence(joints[joint], w)]], q, p, c)
  {
    var n := t.counts[cp];
    AddInfluenceCells(t, cp, joint, w, q, p);
    if q < |t.elements| {
      assert SlotAgrees(t, joints, infl, q, p, c);
    } else {
      assert EMPTY_SLOTS.joints[c] == 0 && EMPTY_SLOTS.weights[c] == Finite(0.0);
    }
  }

  /** Recording an influence keeps the table a faithful image of the reference. */
  lemma AddInfluenceRepresents(t: Table, joints: seq<nat>, infl: seq<seq<Influence>>, cp: nat, joint: nat, w: real)
    requires Represents(t, joints, infl) && cp < |infl|
    requires joint < |joints|
    ensures t.counts[cp] / 4 <= |t.elements|
    ensures Represents(AddInfluence(t, cp, joint, w), joints,
                       infl[cp := infl[cp] + [Influence(joints[joint], w)]])
  {
    AddInfluenceChunks(t, cp, joint, w);
    var infl' := infl[cp := infl[cp] + [Influence(joints[joint], w)]];
    var r := AddInfluence(t, cp, joint, w);
    forall q, p, c | 0 <= q < |r.elements| && 0 <= p < |infl'| && 0 <= c < 4
      ensures SlotAgrees(r, joints, infl', q, p, c)
    {
      AddInfluenceSlot(t, joints, infl, cp, joint, w, q, p, c);
    }
  }
  /** The joint list may grow after a slot was written: the slot still names its node. */
  lemma RepresentsGrowJoints(t: Table, joints: seq<nat>, joints': seq<nat>, infl: seq<seq<Influence>>)
    requires Represents(t, joints, infl)
    requires |joints| <= |joints'| && joints'[..|joints|] == joints
    ensures Represents(t, joints', infl)
  {
    forall q, cp, c | 0 <= q < |t.elements| && 0 <= cp < |infl| && 0 <= c < 4
      ensures SlotAgrees(t, joints', infl, q, cp, c)
    {
      assert SlotAgrees(t, joints, infl, q, cp, c);
      var j := t.elements[q][cp].joints[c];
      if 4 * q + c < |infl[cp]| {
        assert joints'[j] == joints'[..|joints|][j];
      }
    }
  }

  // ------------------------------------------------------------ clusters

  /** The inner loop over a cluster's control points: one influence each, in order. */
  function AddPoints(t: Table, joint: nat, cps: seq<nat>, ws: seq<real>): (r: Table)
    requires Sized(t) && |ws| == |cps|
    requires forall i :: 0 <= i < |cps| ==> cps[i] < |t.counts|
    ensures Sized(r) && |r.counts| == |t.counts|
    decreases |cps|
  {
    if cps == [] then t
    else
      AddInfluenceChunks(t, cps[0], joint, ws[0]);
      AddPoints(AddInfluence(t, cps[0], joint, ws[0]), joint, cps[1..], ws[1..])
  }

  /** The reference for the same loop: each point's list grows by (node, weight). */
  function RecordPoints(infl: seq<seq<Influence>>, node: nat, cps: seq<nat>, ws: seq<real>): (r: seq<seq<Influence>>)
    requires |ws| == |cps|
    requires forall i :: 0 <= i < |cps| ==> cps[i] < |infl|
    ensures |r| == |infl|
    decreases |cps|
  {
    if cps == [] then infl
    else RecordPoints(infl[cps[0] := infl[cps[0]] + [Influence(node, ws[0])]], node, cps[1..], ws[1..])
  }

  lemma {:induction false} AddPointsRepresents(t: Table, joints: seq<nat>, infl: seq<seq<Influence>>,
                                               joint: nat, cps: seq<nat>, ws: seq<real>)
    requires Represents(t, joints, infl) && joint < |joints| && |ws| == |cps|
    requires forall i :: 0 <= i < |cps| ==> cps[i] < |infl|
    ensures Represents(AddPoints(t, joint, cps, ws), joints, RecordPoints(infl, joints[joint], cps, ws))
    decreases |cps|
  {
    if cps != [] {
      AddInfluenceRepresents(t, joints, infl, cps[0], joint, ws[0]);
      AddPointsRepresents(AddInfluence(t, cps[0], joint, ws[0]), joints,
                          infl[cps[0] := infl[cps[0]] + [Influence(joints[joint], ws[0])]],
                          joint, cps[1..], ws[1..]);
    }
  }

  /** The state the cluster loop carries: the table, `skinJoints` and
      `skinInverseBindMatrices`. */
  datatype SkinState = SkinState(table: Table, joints: seq<nat>, bindMatrices: seq<seq<seq<real>>>)

  /** One cluster: skipped when its link is not a converted node; otherwise the node becomes
      a joint unless it already is one (its inverse bind matrix is taken on first use only),
      and the cluster's influences are recorded under that joint. */
  function AddCluster(s: SkinState, ctx: Context, cl: Cluster): (r: SkinState)
    requires Sized(s.table) && WellFormedCluster(cl, |s.table.counts|)
    ensures Sized(r.table) && |r.table.counts| == |s.table.counts|
    ensures GetNodeIf(ctx, cl.link).None? ==> r == s
  {
    match GetNodeIf(ctx, cl.link)
    case None => s
    case Some(node) =>
      var found := IndexOf(s.joints, node);
      var joints := if found < 0 then s.joints + [node] else s.joints;
      var bindMatrices := if found < 0 then s.bindMatrices + [cl.inverseBindMatrix] else s.bindMatrices;
      var joint: nat := if found < 0 then |s.joints| else found;
      SkinState(AddPoints(s.table, joint, cl.controlPointIndices, cl.controlPointWeights), joints, bindMatrices)
  }

  /** The deformer and cluster loops, cluster by cluster. */
  function Gather(ctx: Context, clusters: seq<Cluster>, nControlPoints: nat): (r: SkinState)
    requires WellFormedClusters(clusters, nControlPoints)
    ensures Sized(r.table) && |r.table.counts| == nControlPoints
    decreases |clusters|
  {
    if clusters == [] then SkinState(NoInfluences(nControlPoints).0, [], [])
    else
      var front := clusters[..|clusters| - 1];
      assert forall i :: 0 <= i < |front| ==> front[i] == clusters[i];
      AddCluster(Gather(ctx, front, nControlPoints), ctx, clusters[|clusters| - 1])
  }

  // ------------------------------------------------------------ the reference

  /** The nodes the clusters link to, in cluster order, leaving out links that are not
      converted nodes. */
  function Linked(ctx: Context, clusters: seq<Cluster>): (r: seq<nat>)
    decreases |clusters|
  {
    if clusters == [] then []
    else
      var front := Linked(ctx, clusters[..|clusters| - 1]);
      match GetNodeIf(ctx, clusters[|clusters| - 1].link)
      case None => front
      case Some(node) => front + [node]
  }

  /** Each control point's influences in the order the clusters list them: (node, weight)
      for every mention of the point by a cluster whose link is a converted node. */
  function Recorded(ctx: Context, clusters: seq<Cluster>, nControlPoints: nat): (r: seq<seq<Influence>>)
    requires WellFormedClusters(clusters, nControlPoints)
    ensures |r| == nControlPoints
    decreases |clusters|
  {
    if clusters == [] then seq(nControlPoints, _ => [])
    else
      var front := clusters[..|clusters| - 1];
      assert forall i :: 0 <= i < |front| ==> front[i] == clusters[i];
      var cl := clusters[|clusters| - 1];
      var infl := Recorded(ctx, front, nControlPoints);
      match GetNodeIf(ctx, cl.link)
      case None => infl
      case Some(node) => RecordPoints(infl, node, cl.controlPointIndices, cl.controlPointWeights)
  }

  /** A node is linked exactly when some cluster's link maps to it. */
  lemma {:induction false} LinkedMembers(ctx: Context, clusters: seq<Cluster>, node: nat)
    ensures node in Linked(ctx, clusters) <==>
      exists i :: 0 <= i < |clusters| && GetNodeIf(ctx, clusters[i].link) == Some(node)
    decreases |clusters|
  {
    if clusters != [] {
      var front := clusters[..|clusters| - 1];
      LinkedMembers(ctx, front, node);
      assert forall i :: 0 <= i < |front| ==> front[i] == clusters[i];
      if exists i :: 0 <= i < |clusters| && GetNodeIf(ctx, clusters[i].link) == Some(node) {
        var i :| 0 <= i < |clusters| && GetNodeIf(ctx, clusters[i].link) == Some(node);
        if i < |front| {
          assert GetNodeIf(ctx, front[i].link) == Some(node);
        }
      }
    }
  }

  /** m is the inverse bind matrix of the first cluster whose link maps to node. */
  predicate FirstBinding(ctx: Context, clusters: seq<Cluster>, node: nat, m: seq<seq<real>>) {
    exists i :: 0 <= i < |clusters| && GetNodeIf(ctx, clusters[i].link) == Some(node)
      && clusters[i].inverseBindMatrix == m
      && forall i' :: 0 <= i' < i ==> GetNodeIf(ctx, clusters[i'].link) != Some(node)
  }

  /** The cluster loops build the reference: the table holds each point's influences in
      cluster order, the joints are the linked nodes without repeats in first-use order, and
      each joint has the inverse bind matrix of the first cluster linking it. */
  lemma GatherMatches(ctx: Context, clusters: seq<Cluster>, nControlPoints: nat)
    requires WellFormedClusters(clusters, nControlPoints)
    ensures var s := Gather(ctx, clusters, nControlPoints);
      && Represents(s.table, s.joints, Recorded(ctx, clusters, nControlPoints))
      && s.joints == Dedupe(Linked(ctx, clusters))
      && |s.bindMatrices| == |s.joints|
      && forall j :: 0 <= j < |s.joints| ==> FirstBinding(ctx, clusters, s.joints[j], s.bindMatrices[j])
  {
    GatherJoints(ctx, clusters, nControlPoints);
    GatherTable(ctx, clusters, nControlPoints);
    GatherBindings(ctx, clusters, nControlPoints);
  }

  /** The joints are the linked nodes without repeats, with one matrix each. */
  lemma {:induction false} GatherJoints(ctx: Context, clusters: seq<Cluster>, nControlPoints: nat)
    requires WellFormedClusters(clusters, nControlPoints)
    ensures var s := Gather(ctx, clusters, nControlPoints);
      s.joints == Dedupe(Linked(ctx, clusters)) && |s.bindMatrices| == |s.joints|
    decreases |clusters|
  {
    if clusters != [] {
      var front := clusters[..|clusters| - 1];
      assert forall i :: 0 <= i < |front| ==> front[i] == clusters[i];
      GatherJoints(ctx, front, nControlPoints);
      var cl := clusters[|clusters| - 1];
      match GetNodeIf(ctx, cl.link)
      case None =>
      case Some(node) =>
        AddClusterJoints(Gather(ctx, front, nControlPoints), ctx, cl, Linked(ctx, front), node);
    }
  }

  /** One linked cluster adds its node to the joints exactly when it is new. */
  lemma AddClusterJoints(s: SkinState, ctx: Context, cl: Cluster, linked: seq<nat>, node: nat)
    requires Sized(s.table) && WellFormedCluster(cl, |s.table.counts|)
    requires s.joints == Dedupe(linked) && |s.bindMatrices| == |s.joints|
    requires GetNodeIf(ctx, cl.link) == Some(node)
    ensures var r := AddCluster(s, ctx, cl);
      r.joints == Dedupe(linked + [node]) && |r.bindMatrices| == |r.joints|
  {
    assert (linked + [node])[..|linked|] == linked;
  }

  /** The table represents the recorded influences. */
  lemma {:induction false} GatherTable(ctx: Context, clusters: seq<Cluster>, nControlPoints: nat)
    requires WellFormedClusters(clusters, nControlPoints)
    ensures var s := Gather(ctx, clusters, nControlPoints);
      Represents(s.table, s.joints, Recorded(ctx, clusters, nControlPoints))
    decreases |clusters|
  {
    if clusters != [] {
      var front := clusters[..|clusters| - 1];
      assert forall i :: 0 <= i < |front| ==> front[i] == clusters[i];
      GatherTable(ctx, front, nControlPoints);
      var s0 := Gather(ctx, front, nControlPoints);
      var cl := clusters[|clusters| - 1];
      match GetNodeIf(ctx, cl.link)
      case None =>
      case Some(node) =>
        var found := IndexOf(s0.joints, node);
        var joints := if found < 0 then s0.joints + [node] else s0.joints;
        var joint: nat := if found < 0 then |s0.joints| else found;
        assert joints[..|s0.joints|] == s0.joints;
        RepresentsGrowJoints(s0.table, s0.joints, joints, Recorded(ctx, front, nControlPoints));
        AddPointsRepresents(s0.table, joints, Recorded(ctx, front, nControlPoints), joint,
                            cl.controlPointIndices, cl.controlPointWeights);
    }
  }

  /** Each joint's matrix is the one of the first cluster linking it. */
  lemma {:induction false} GatherBindings(ctx: Context, clusters: seq<Cluster>, nControlPoints: nat)
    requires WellFormedClusters(clusters, nControlPoints)
    ensures var s := Gather(ctx, clusters, nControlPoints);
      forall j :: 0 <= j < |s.joints| && j < |s.bindMatrices| ==>
        FirstBinding(ctx, clusters, s.joints[j], s.bindMatrices[j])
    decreases |clusters|
  {
    if clusters != [] {
      var front := clusters[..|clusters| - 1];
      assert forall i :: 0 <= i < |front| ==> front[i] == clusters[i];
      GatherBindings(ctx, front, nControlPoints);
      GatherJoints(ctx, front, nControlPoints);
      var s0 := Gather(ctx, front, nControlPoints);
      var cl := clusters[|clusters| - 1];
      forall j | 0 <= j < |s0.joints| && j < |s0.bindMatrices|
        ensures FirstBinding(ctx, clusters, s0.joints[j], s0.bindMatrices[j])
      {
        FirstBindingKept(ctx, clusters, s0.joints[j], s0.bindMatrices[j]);
      }
      match GetNodeIf(ctx, cl.link)
      case None =>
      case Some(node) =>
        if IndexOf(s0.joints, node) < 0 {
          FirstBindingNew(ctx, clusters, node);
        }
    }
  }

  /** A later cluster does not change which cluster first links a node. */
  lemma FirstBindingKept(ctx: Context, clusters: seq<Cluster>, node: nat, m: seq<seq<real>>)
    requires clusters != []
    requires FirstBinding(ctx, clusters[..|clusters| - 1], node, m)
    ensures FirstBinding(ctx, clusters, node, m)
  {
    var front := clusters[..|clusters| - 1];
    var i :| 0 <= i < |front| && GetNodeIf(ctx, front[i].link) == Some(node)
      && front[i].inverseBindMatrix == m
      && forall i' :: 0 <= i' < i ==> GetNodeIf(ctx, front[i'].link) != Some(node);
    assert clusters[i] == front[i];
    forall i' | 0 <= i' < i
      ensures GetNodeIf(ctx, clusters[i'].link) != Some(node)
    {
      assert clusters[i'] == front[i'];
    }
  }

  /** The last cluster is the first to link a node no earlier cluster links. */
  lemma FirstBindingNew(ctx: Context, clusters: seq<Cluster>, node: nat)
    requires clusters != []
    requires GetNodeIf(ctx, clusters[|clusters| - 1].link) == Some(node)
    requires node !in Linked(ctx, clusters[..|clusters| - 1])
    ensures FirstBinding(ctx, clusters, node, clusters[|clusters| - 1].inverseBindMatrix)
  {
    var front := clusters[..|clusters| - 1];
    LinkedMembers(ctx, front, node);
    forall i' | 0 <= i' < |clusters| - 1
      ensures GetNodeIf(ctx, clusters[i'].link) != Some(node)
    {
      assert clusters[i'] == front[i'];
    }
  }

  // ------------------------------------------------------------ normalisation

  /** The value of a weight slot; before normalisation every slot holds a finite number. */
  function ValueOf(x: JsNumber): real {
    if x.Finite? then x.r else 0.0
  }

  /** The sum of the first n weight slots of control point cp, slot k being slot k % 4 of
      chunk k / 4: the `sum` the normalisation loop computes. */
  function WeightSum(elements: seq<seq<Influences4>>, cp: nat, n: nat): real
    requires n <= 4 * |elements|
    requires forall q :: 0 <= q < |elements| ==> cp < |elements[q]| && |elements[q][cp].weights| == 4
  {
    if n == 0 then 0.0
    else WeightSum(elements, cp, n - 1) + ValueOf(elements[(n - 1) / 4][cp].weights[(n - 1) % 4])
  }

  /** The sum of a point's reference weights. */
  function SumWeights(xs: seq<Influence>): real {
    if xs == [] then 0.0 else SumWeights(xs[..|xs| - 1]) + xs[|xs| - 1].weight
  }

  /** Every count fits in the chunks. */
  lemma CountsFit(t: Table, cp: nat)
    requires Sized(t) && cp < |t.counts|
    ensures t.counts[cp] <= 4 * |t.elements|
  {
    assert t.counts[cp] <= MaxCount(t.counts);
  }

  /** The normalisation loop: for every point with influences, each of its first `count`
      weights is divided by their sum (as a JavaScript division: a zero sum gives NaN or an
      infinity); padding slots and points without influences are left alone. */
  function Normalize(t: Table): (r: Table)
    requires Sized(t)
    ensures Sized(r) && r.counts == t.counts && |r.elements| == |t.elements|
  {
    var e := t.elements;
    var sums := seq(|t.counts|, cp requires 0 <= cp < |t.counts| =>
      CountsFit(t, cp); WeightSum(e, cp, t.counts[cp]));
    Table(t.counts, seq(|e|, q requires 0 <= q < |e| =>
      seq(|t.counts|, cp requires 0 <= cp < |t.counts| =>
        Influences4(e[q][cp].joints, seq(4, c requires 0 <= c < 4 =>
          if 4 * q + c < t.counts[cp] then Divide(ValueOf(e[q][cp].weights[c]), sums[cp])
          else e[q][cp].weights[c])))))
  }

  /** Before normalisation the slot sum of a point is the sum of its reference weights. */
  lemma {:induction false} WeightSumIsReferenceSum(t: Table, joints: seq<nat>, infl: seq<seq<Influence>>, cp: nat, n: nat)
    requires Represents(t, joints, infl) && cp < |infl| && n <= |infl[cp]|
    ensures n <= 4 * |t.elements|
    ensures WeightSum(t.elements, cp, n) == SumWeights(infl[cp][..n])
  {
    CountsFit(t, cp);
    if n > 0 {
      WeightSumIsReferenceSum(t, joints, infl, cp, n - 1);
      assert SlotAgrees(t, joints, infl, (n - 1) / 4, cp, (n - 1) % 4);
      assert infl[cp][..n][..n - 1] == infl[cp][..n - 1];
    }
  }

  /** The table after normalisation, slot by slot: the k-th influence of a point still names
      its node and carries its weight divided by the sum of the point's weights; padding
      keeps joint 0 and weight 0; there are as many chunks as the largest count needs. */
  predicate NormalizedAgrees(elements: seq<seq<Influences4>>, joints: seq<nat>, infl: seq<seq<Influence>>) {
    && (forall q :: 0 <= q < |elements| ==> |elements[q]| == |infl|)
    && (forall q, cp :: 0 <= q < |elements| && 0 <= cp < |elements[q]| ==>
          |elements[q][cp].joints| == 4 && |elements[q][cp].weights| == 4)
    && |elements| == ChunkCount(seq(|infl|, cp requires 0 <= cp < |infl| => |infl[cp]|))
    && (forall q, cp, c :: 0 <= q < |elements| && 0 <= cp < |infl| && 0 <= c < 4 ==>
          var k := 4 * q + c;
          var s := elements[q][cp];
          if k < |infl[cp]| then
            && s.joints[c] < |joints|
            && joints[s.joints[c]] == infl[cp][k].node
            && s.weights[c] == Divide(infl[cp][k].weight, SumWeights(infl[cp]))
          else
            s.joints[c] == 0 && s.weights[c] == Finite(0.0))
  }

  lemma NormalizeMatches(t: Table, joints: seq<nat>, infl: seq<seq<Influence>>)
    requires Represents(t, joints, infl)
    ensures NormalizedAgrees(Normalize(t).elements, joints, infl)
    ensures forall q, cp :: 0 <= q < |t.elements| && 0 <= cp < |infl| && |infl[cp]| == 0 ==>
      Normalize(t).elements[q][cp] == t.elements[q][cp]
  {
    var r := Normalize(t);
    assert t.counts == seq(|infl|, cp requires 0 <= cp < |infl| => |infl[cp]|);
    forall q, cp, c | 0 <= q < |r.elements| && 0 <= cp < |infl| && 0 <= c < 4
      ensures var k := 4 * q + c;
        var s := r.elements[q][cp];
        if k < |infl[cp]| then
          && s.joints[c] < |joints|
          && joints[s.joints[c]] == infl[cp][k].node
          && s.weights[c] == Divide(infl[cp][k].weight, SumWeights(infl[cp]))
        else
          s.joints[c] == 0 && s.weights[c] == Finite(0.0)
    {
      assert SlotAgrees(t, joints, infl, q, cp, c);
      WeightSumIsReferenceSum(t, joints, infl, cp, |infl[cp]|);
      assert infl[cp][..|infl[cp]|] == infl[cp];
    }
    forall q, cp | 0 <= q < |t.elements| && 0 <= cp < |infl| && |infl[cp]| == 0
      ensures r.elements[q][cp] == t.elements[q][cp]
    {
      assert r.elements[q][cp].weights == t.elements[q][cp].weights;
    }
  }

  /** After normalisation the weights of every point whose weights do not sum to zero sum
      to one. */
  lemma WeightsSumToOne(elements: seq<seq<Influences4>>, joints: seq<nat>, infl: seq<seq<Influence>>, cp: nat)
    requires NormalizedAgrees(elements, joints, infl) && cp < |infl|
    requires SumWeights(infl[cp]) != 0.0
    ensures |infl[cp]| <= 4 * |elements|
    ensures WeightSum(elements, cp, |infl[cp]|) == 1.0
  {
    NormalizedFits(elements, joints, infl, cp);
    PartialNormalizedSum(elements, joints, infl, cp, |infl[cp]|);
    assert infl[cp][..|infl[cp]|] == infl[cp];
    SelfQuotient(SumWeights(infl[cp]));
  }

  lemma SelfQuotient(d: real)
    requires d != 0.0
    ensures d / d == 1.0
  {
  }

  lemma NormalizedFits(elements: seq<seq<Influences4>>, joints: seq<nat>, infl: seq<seq<Influence>>, cp: nat)
    requires NormalizedAgrees(elements, joints, infl) && cp < |infl|
    ensures |infl[cp]| <= 4 * |elements|
  {
    var lengths := seq(|infl|, p requires 0 <= p < |infl| => |infl[p]|);
    assert lengths[cp] <= MaxCount(lengths);
  }

  /** The k-th normalised weight of a point. */
  lemma NormalizedWeight(elements: seq<seq<Influences4>>, joints: seq<nat>, infl: seq<seq<Influence>>, cp: nat, k: nat)
    requires NormalizedAgrees(elements, joints, infl) && cp < |infl| && k < |infl[cp]|
    requires k < 4 * |elements|
    ensures elements[k / 4][cp].weights[k % 4] == Divide(infl[cp][k].weight, SumWeights(infl[cp]))
  {
    assert 4 * (k / 4) + k % 4 == k;
  }

  lemma AddQuotients(a: real, b: real, d: real)
    requires d != 0.0
    ensures a / d + b / d == (a + b) / d
  {
    assert (a / d) * d == a && (b / d) * d == b;
    assert (a / d + b / d) * d == a + b;
  }

  lemma {:induction false} PartialNormalizedSum(elements: seq<seq<Influences4>>, joints: seq<nat>,
                                                infl: seq<seq<Influence>>, cp: nat, n: nat)
    requires NormalizedAgrees(elements, joints, infl) && cp < |infl|
    requires SumWeights(infl[cp]) != 0.0 && n <= |infl[cp]| && n <= 4 * |elements|
    ensures WeightSum(elements, cp, n) == SumWeights(infl[cp][..n]) / SumWeights(infl[cp])
  {
    if n > 0 {
      var total := SumWeights(infl[cp]);
      PartialNormalizedSum(elements, joints, infl, cp, n - 1);
      var k := n - 1;
      NormalizedWeight(elements, joints, infl, cp, k);
      assert infl[cp][..n][..k] == infl[cp][..k];
      AddQuotients(SumWeights(infl[cp][..k]), infl[cp][k].weight, total);
    }
  }

  // ------------------------------------------------------------ unmapped links

  /** The clusters whose link is a converted node. */
  function MappedOnly(ctx: Context, clusters: seq<Cluster>): (r: seq<Cluster>)
    ensures forall cl :: cl in r ==> cl in clusters
    decreases |clusters|
  {
    if clusters == [] then []
    else
      var front := clusters[..|clusters| - 1];
      var cl := clusters[|clusters| - 1];
      var rest := MappedOnly(ctx, front);
      assert forall x :: x in rest ==> x in clusters by {
        forall x | x in rest
          ensures x in clusters
        {
          var i :| 0 <= i < |front| && front[i] == x;
          assert clusters[i] == x;
        }
      }
      if GetNodeIf(ctx, cl.link).Some? then rest + [cl] else rest
  }

  /** A cluster whose link is not a converted node contributes nothing: no joint, no matrix,
      no influence. */
  lemma {:induction false} UnmappedClustersIgnored(ctx: Context, clusters: seq<Cluster>, nControlPoints: nat)
    requires WellFormedClusters(clusters, nControlPoints)
    ensures WellFormedClusters(MappedOnly(ctx, clusters), nControlPoints)
    ensures Gather(ctx, clusters, nControlPoints) == Gather(ctx, MappedOnly(ctx, clusters), nControlPoints)
    decreases |clusters|
  {
    var m := MappedOnly(ctx, clusters);
    forall i | 0 <= i < |m|
      ensures WellFormedCluster(m[i], nControlPoints)
    {
      assert m[i] in clusters;
    }
    if clusters != [] {
      var front := clusters[..|clusters| - 1];
      assert forall i :: 0 <= i < |front| ==> front[i] == clusters[i];
      UnmappedClustersIgnored(ctx, front, nControlPoints);
      var cl := clusters[|clusters| - 1];
      if GetNodeIf(ctx, cl.link).Some? {
        assert m[..|m| - 1] == MappedOnly(ctx, front);
      }
    }
  }

  // ------------------------------------------------------------ the whole function

  /** The end of `GetSkinData`: the inverse bind matrices, sixteen floats each written row
      by row, go into a new view of buffer 0; their MAT4 accessor and then the skin are
      added. */
  method AddSkinRecords(b: Builder, joints: seq<nat>, bindMatrices: seq<seq<seq<real>>>, f32: Float32Encoder)
    returns (b': Builder, skin: nat)
    requires Valid(b) && FourBytes(f32) && AllMatrices(bindMatrices) && |bindMatrices| == |joints|
    ensures var view := |b.bufferViews|;
      && Valid(b')
      && skin == |b.skins|
      && b'.skins == b.skins + [Skin(joints, |b.accessors|)]
      && b'.accessors == b.accessors + [Accessor("Inverse bind matrices", view, None, |joints|, MAT4, FLOAT, None, None)]
      && b'.bufferViews == b.bufferViews + [BufferView(0, 64 * |joints|, None, None, None)]
      && |b'.regions| == view + 1 && b'.regions[..view] == b.regions
      && |b'.regions[view]| == 64 * |joints|
      && (forall j, r, c :: 0 <= j < |joints| && 0 <= r < 4 && 0 <= c < 4 ==>
            b'.regions[view][64 * j + 16 * r + 4 * c..64 * j + 16 * r + 4 * c + 4] == f32(Finite(bindMatrices[j][r][c])))
      && b'.keeps == b.keeps[0 := b.keeps[0] + [Keep(view, 0)]]
      && b' == b.(accessors := b'.accessors, bufferViews := b'.bufferViews, regions := b'.regions,
                  keeps := b'.keeps, skins := b'.skins)
  {
    var flat := FlattenMatrices(bindMatrices);
    var numbers := seq(|flat|, i requires 0 <= i < |flat| => Finite(flat[i]));
    var data := EncodeFloats(f32, numbers);
    var created := CreateBufferView(b, |data|, 0, 0);
    var (b1, view) := created.value;
    var b2 := WriteRegion(b1, view, data);
    assert b2.regions[view] == data;
    var (b3, accessor) := AddAccessor(b2, Accessor("Inverse bind matrices", view, None, |joints|, MAT4, FLOAT, None, None));
    var added := AddSkin(b3, Skin(joints, accessor));
    b', skin := added.0, added.1;
    forall j, r, c | 0 <= j < |joints| && 0 <= r < 4 && 0 <= c < 4
      ensures b'.regions[view][64 * j + 16 * r + 4 * c..64 * j + 16 * r + 4 * c + 4] == f32(Finite(bindMatrices[j][r][c]))
    {
      var i := 16 * j + 4 * r + c;
      assert 4 * i == 64 * j + 16 * r + 4 * c && i < |flat|;
      assert numbers[i] == Finite(flat[i]);
    }
  }

  /** b' differs from b only in the accessors, views, regions, buffer queues and skins. */
  predicate OnlySkinPartsChanged(b: Builder, b': Builder) {
    b' == b.(accessors := b'.accessors, bufferViews := b'.bufferViews, regions := b'.regions,
             keeps := b'.keeps, skins := b'.skins)
  }

  /** `GetSkinData`: gathers the joints and influences over every cluster of every skin
      deformer, normalises the weights and adds the skin records. */
  method GetSkinData(b: Builder, ctx: Context, deformers: seq<seq<Cluster>>, nControlPoints: nat, f32: Float32Encoder)
    returns (b': Builder, skin: nat, jointsWeights: seq<seq<Influences4>>, bindMatrices: seq<seq<seq<real>>>)
    requires Valid(b) && FourBytes(f32)
    requires WellFormedClusters(AllClusters(deformers), nControlPoints)
    ensures var clusters := AllClusters(deformers);
      var joints := Dedupe(Linked(ctx, clusters));
      && Valid(b')
      && NormalizedAgrees(jointsWeights, joints, Recorded(ctx, clusters, nControlPoints))
      && |bindMatrices| == |joints|
      && (forall j :: 0 <= j < |joints| ==> FirstBinding(ctx, clusters, joints[j], bindMatrices[j]))
      && skin == |b.skins|
      && b'.skins == b.skins + [Skin(joints, |b.accessors|)]
      && b'.accessors == b.accessors + [Accessor("Inverse bind matrices", |b.bufferViews|, None, |joints|, MAT4, FLOAT, None, None)]
      && b'.bufferViews == b.bufferViews + [BufferView(0, 64 * |joints|, None, None, None)]
      && |b'.regions| == |b.regions| + 1 && b'.regions[..|b.regions|] == b.regions
      && (forall j, r, c :: 0 <= j < |joints| && 0 <= r < 4 && 0 <= c < 4 ==>
            b'.regions[|b.regions|][64 * j + 16 * r + 4 * c..64 * j + 16 * r + 4 * c + 4] == f32(Finite(bindMatrices[j][r][c])))
    ensures b'.keeps == b.keeps[0 := b.keeps[0] + [Keep(|b.bufferViews|, 0)]]
    ensures OnlySkinPartsChanged(b, b')
  {
    var clusters := AllClusters(deformers);
    var s := Gather(ctx, clusters, nControlPoints);
    GatherMatches(ctx, clusters, nControlPoints);
    NormalizeMatches(s.table, s.joints, Recorded(ctx, clusters, nControlPoints));
    jointsWeights := Normalize(s.table).elements;
    bindMatrices := s.bindMatrices;
    forall j | 0 <= j < |bindMatrices|
      ensures IsMatrix(bindMatrices[j])
    {
      assert FirstBinding(ctx, clusters, s.joints[j], bindMatrices[j]);
    }
    b', skin := AddSkinRecords(b, s.joints, bindMatrices, f32);
  }
}
