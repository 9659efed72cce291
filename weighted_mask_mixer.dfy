/** The weighted-mask mixer component: at setup it binds one handle per joint of the
    skeleton (the root excluded) and turns each mask entry into the list of weight-buffer
    slots of its subtree; every frame it writes each entry's weight into those slots and
    hands the global weight and the buffer to the mixer job. */
module WeightedMaskMixerSample {
  import opened Geometry
  import opened AnimationJobs

  /** A mask entry as authored in the inspector: a joint and the weight of its subtree. */
  datatype BoneTransformWeight = BoneTransformWeight(transform: JointId, weight: real)

  /** Array.IndexOf: the first position of `t` in `all`, or -1 when it is absent. */
  function IndexOf(all: seq<JointId>, t: JointId): (r: int)
    ensures -1 <= r < |all|
    ensures r == -1 <==> t !in all
    ensures 0 <= r ==> all[r] == t && forall k :: 0 <= k < r ==> all[k] != t
  {
    if |all| == 0 then -1
    else if all[0] == t then 0
    else
      var r := IndexOf(all[1..], t);
      if r == -1 then -1 else r + 1
  }

  /** Every joint of every subtree is a joint of the skeleton other than its root
      (the asserted condition `boneIndex > 0`). */
  predicate SubtreesResolvable(all: seq<JointId>, subtrees: seq<seq<JointId>>) {
    forall k, j :: 0 <= k < |subtrees| && 0 <= j < |subtrees[k]| ==> IndexOf(all, subtrees[k][j]) > 0
  }

  /** An entry's subtree contains the entry's own joint, as GetComponentsInChildren's
      result always does. */
  predicate OwnJointInSubtree(entry: BoneTransformWeight, subtree: seq<JointId>) {
    entry.transform in subtree
  }

  /** Every stored slot lies inside a buffer of `n` weights. */
  predicate IndicesWithin(lists: seq<seq<int>>, n: int) {
    forall k, j :: 0 <= k < |lists| && 0 <= j < |lists[k]| ==> 0 <= lists[k][j] < n
  }

  /** The weight-buffer slots of one subtree: each joint's position in `all`, less one
      for the root, which has no slot. */
  method SubtreeIndices(all: seq<JointId>, subtree: seq<JointId>) returns (childrenIndices: seq<int>)
    requires forall j :: 0 <= j < |subtree| ==> IndexOf(all, subtree[j]) > 0
    ensures |childrenIndices| == |subtree|
    ensures forall j :: 0 <= j < |subtree| ==> childrenIndices[j] == IndexOf(all, subtree[j]) - 1
    ensures forall j :: 0 <= j < |subtree| ==>
      0 <= childrenIndices[j] < |all| - 1 && all[childrenIndices[j] + 1] == subtree[j]
  {
    childrenIndices := [];
    for j := 0 to |subtree|
      invariant |childrenIndices| == j
      invariant forall m :: 0 <= m < j ==> childrenIndices[m] == IndexOf(all, subtree[m]) - 1
    {
      var boneIndex := IndexOf(all, subtree[j]);
      childrenIndices := childrenIndices + [boneIndex - 1];
    }
  }

  /** The buffer after one entry's slots have all been set to `w`, in list order. */
  function ApplyEntry(weights: seq<real>, indices: seq<int>, w: real): (r: seq<real>)
    requires forall j :: 0 <= j < |indices| ==> 0 <= indices[j] < |weights|
    ensures |r| == |weights|
    decreases |indices|
  {
    if |indices| == 0 then weights
    else ApplyEntry(weights, indices[..|indices| - 1], w)[indices[|indices| - 1] := w]
  }

  /** The buffer after the entries have been applied in declaration order. */
  function ApplyEntries(weights: seq<real>, lists: seq<seq<int>>, entryWeights: seq<real>): (r: seq<real>)
    requires |lists| == |entryWeights| && IndicesWithin(lists, |weights|)
    ensures |r| == |weights|
    decreases |lists|
  {
    if |lists| == 0 then weights
    else
      var n := |lists| - 1;
      ApplyEntry(ApplyEntries(weights, lists[..n], entryWeights[..n]), lists[n], entryWeights[n])
  }

  /** The last entry whose list holds slot `x`, or -1 when none does. */
  function LastCover(lists: seq<seq<int>>, x: int): (k: int)
    ensures -1 <= k < |lists|
    ensures k == -1 <==> forall m :: 0 <= m < |lists| ==> x !in lists[m]
    ensures 0 <= k ==> x in lists[k] && forall m :: k < m < |lists| ==> x !in lists[m]
  {
    if |lists| == 0 then -1
    else if x in lists[|lists| - 1] then |lists| - 1
    else LastCover(lists[..|lists| - 1], x)
  }

  function EntryWeights(entries: seq<BoneTransformWeight>): (ws: seq<real>)
    ensures |ws| == |entries| && forall k :: 0 <= k < |entries| ==> ws[k] == entries[k].weight
  {
    seq(|entries|, k requires 0 <= k < |entries| => entries[k].weight)
  }

  lemma IndicesWithinPrefix(lists: seq<seq<int>>, n: int, m: nat)
    requires IndicesWithin(lists, n) && m <= |lists|
    ensures IndicesWithin(lists[..m], n)
  {
    forall k, j | 0 <= k < m && 0 <= j < |lists[..m][k]| ensures 0 <= lists[..m][k][j] < n {
      assert lists[..m][k] == lists[k];
    }
  }

  /** One entry: a slot in its list takes the entry's weight, any other slot keeps its value. */
  lemma {:induction false} ApplyEntryAt(weights: seq<real>, indices: seq<int>, w: real, x: int)
    requires forall j :: 0 <= j < |indices| ==> 0 <= indices[j] < |weights|
    requires 0 <= x < |weights|
    ensures ApplyEntry(weights, indices, w)[x] == if x in indices then w else weights[x]
    decreases |indices|
  {
    if |indices| > 0 {
      var n := |indices| - 1;
      ApplyEntryAt(weights, indices[..n], w, x);
      assert x in indices <==> x in indices[..n] || x == indices[n] by {
        assert indices == indices[..n] + [indices[n]];
      }
    }
  }

  /** All entries: a slot takes the weight of the last entry whose list holds it, and
      keeps its value when no list holds it. */
  lemma {:induction false} ApplyEntriesAt(weights: seq<real>, lists: seq<seq<int>>, entryWeights: seq<real>, x: int)
    requires |lists| == |entryWeights| && IndicesWithin(lists, |weights|)
    requires 0 <= x < |weights|
    ensures var k := LastCover(lists, x);
            ApplyEntries(weights, lists, entryWeights)[x] == if k < 0 then weights[x] else entryWeights[k]
    decreases |lists|
  {
    if |lists| > 0 {
      var n := |lists| - 1;
      IndicesWithinPrefix(lists, |weights|, n);
      ApplyEntriesAt(weights, lists[..n], entryWeights[..n], x);
      ApplyEntryAt(ApplyEntries(weights, lists[..n], entryWeights[..n]), lists[n], entryWeights[n], x);
      if x !in lists[n] {
        var k := LastCover(lists[..n], x);
        assert LastCover(lists, x) == k;
        if 0 <= k {
          assert entryWeights[..n][k] == entryWeights[k];
        }
      }
    }
  }

  /** Coverage and precedence: a slot in entry `i`'s list that no later entry's list
      holds ends up with entry `i`'s weight. */
  lemma LaterEntryWins(weights: seq<real>, lists: seq<seq<int>>, entryWeights: seq<real>, i: int, x: int)
    requires |lists| == |entryWeights| && IndicesWithin(lists, |weights|)
    requires 0 <= i < |lists| && x in lists[i]
    requires forall m :: i < m < |lists| ==> x !in lists[m]
    ensures 0 <= x < |weights|
    ensures ApplyEntries(weights, lists, entryWeights)[x] == entryWeights[i]
  {
    var j :| 0 <= j < |lists[i]| && lists[i][j] == x;
    ApplyEntriesAt(weights, lists, entryWeights, x);
  }

  /** A slot held by no entry's list keeps its value. */
  lemma UncoveredSlotUnchanged(weights: seq<real>, lists: seq<seq<int>>, entryWeights: seq<real>, x: int)
    requires |lists| == |entryWeights| && IndicesWithin(lists, |weights|)
    requires 0 <= x < |weights|
    requires forall m :: 0 <= m < |lists| ==> x !in lists[m]
    ensures ApplyEntries(weights, lists, entryWeights)[x] == weights[x]
  {
    ApplyEntriesAt(weights, lists, entryWeights, x);
  }

  /** Applying the same entries a second time changes nothing. */
  lemma ApplyEntriesIdempotent(weights: seq<real>, lists: seq<seq<int>>, entryWeights: seq<real>)
    requires |lists| == |entryWeights| && IndicesWithin(lists, |weights|)
    ensures var once := ApplyEntries(weights, lists, entryWeights);
            ApplyEntries(once, lists, entryWeights) == once
  {
    var once := ApplyEntries(weights, lists, entryWeights);
    var twice := ApplyEntries(once, lists, entryWeights);
    forall x | 0 <= x < |weights| ensures twice[x] == once[x] {
      ApplyEntriesAt(weights, lists, entryWeights, x);
      ApplyEntriesAt(once, lists, entryWeights, x);
    }
  }

  /** Setup leaves every bone weight at 0, so a joint that lies in no entry's subtree
      keeps weight 0 after the refresh and the mixer holds it at input 0's pose. */
  lemma UnmaskedJointKeepsInput0(
    pose: map<JointId, LocalTransform>,
    in0: map<JointId, LocalTransform>,
    in1: map<JointId, LocalTransform>,
    handles: seq<JointId>,
    lists: seq<seq<int>>,
    entryWeights: seq<real>,
    weight: real,
    slerp: SlerpFn,
    x: int)
    requires Bound(handles, pose) && Bound(handles, in0) && Bound(handles, in1)
    requires Distinct(handles)
    requires |lists| == |entryWeights| && IndicesWithin(lists, |handles|)
    requires SlerpEndpoints(slerp)
    requires 0 <= x < |handles|
    requires forall m :: 0 <= m < |lists| ==> x !in lists[m]
    ensures var boneWeights := ApplyEntries(seq(|handles|, _ => 0.0), lists, entryWeights);
            var r := BlendedPose(pose, in0, in1, handles, boneWeights, weight, slerp);
            r[handles[x]].position == in0[handles[x]].position &&
            r[handles[x]].rotation == in0[handles[x]].rotation
  {
    var zeros := seq(|handles|, _ => 0.0);
    UncoveredSlotUnchanged(zeros, lists, entryWeights, x);
    assert LastIndex(handles, handles[x]) == x;
    MaskedJointKeepsInput0(pose, in0, in1, handles, ApplyEntries(zeros, lists, entryWeights), weight, slerp, handles[x]);
  }

  /** The slot lists of all mask entries, one `SubtreeIndices` list per subtree, in the
      entries' order. */
  method SubtreeSlotLists(all: seq<JointId>, subtrees: seq<seq<JointId>>) returns (lists: seq<seq<int>>)
    requires SubtreesResolvable(all, subtrees)
    ensures |lists| == |subtrees|
    ensures forall m :: 0 <= m < |subtrees| ==> |lists[m]| == |subtrees[m]|
    ensures forall m, j :: 0 <= m < |subtrees| && 0 <= j < |subtrees[m]| ==>
      lists[m][j] == IndexOf(all, subtrees[m][j]) - 1 &&
      0 <= lists[m][j] < |all| - 1 && all[lists[m][j] + 1] == subtrees[m][j]
  {
    lists := [];
    for k := 0 to |subtrees|
      invariant |lists| == k
      invariant forall m :: 0 <= m < k ==> |lists[m]| == |subtrees[m]|
      invariant forall m, j :: 0 <= m < k && 0 <= j < |subtrees[m]| ==>
        lists[m][j] == IndexOf(all, subtrees[m][j]) - 1 &&
        0 <= lists[m][j] < |all| - 1 && all[lists[m][j] + 1] == subtrees[m][j]
    {
      var childrenIndices := SubtreeIndices(all, subtrees[k]);
      lists := lists + [childrenIndices];
    }
  }

  /** An entry whose joint is in its subtree finds that joint's slot among the subtree's slots. */
  /** The slot of the entry's own joint is among `slots`. */
  predicate OwnSlotListed(all: seq<JointId>, entry: BoneTransformWeight, slots: seq<int>) {
    IndexOf(all, entry.transform) - 1 in slots
  }

  lemma OwnSlotAmongSubtreeSlots(all: seq<JointId>, subtree: seq<JointId>, indices: seq<int>, entry: BoneTransformWeight)
    requires OwnJointInSubtree(entry, subtree)
    requires |indices| == |subtree|
    requires forall j :: 0 <= j < |subtree| ==> indices[j] == IndexOf(all, subtree[j]) - 1
    ensures OwnSlotListed(all, entry, indices)
  {
    var own :| 0 <= own < |subtree| && subtree[own] == entry.transform;
    assert indices[own] == IndexOf(all, entry.transform) - 1;
  }

  /** The component. `boneTransformWeights` and `weight` are the inspector's fields. */
  class WeightedMaskMixer {
    var weight: real
    var boneTransformWeights: seq<BoneTransformWeight>
    var handles: array<JointId>
    var boneWeights: array<real>
    var boneChildrenIndices: seq<seq<int>>
    /** The job data held by the script playable. */
    var job: MixerJob

    ghost predicate Valid()
      reads this
    {
      && handles.Length == boneWeights.Length
      && IndicesWithin(boneChildrenIndices, boneWeights.Length)
    }

    /** Setup. `allTransforms` is the skeleton flattened with its root first, and
        `subtrees[k]` is the joints of entry `k`'s subtree, the entry's joint included.
        `weight` is the inspector value loaded before the component is enabled; setup
        leaves it as is. */
    constructor OnEnable(entries: seq<BoneTransformWeight>, allTransforms: seq<JointId>, subtrees: seq<seq<JointId>>,
                         weight: real)
      requires 1 <= |allTransforms|
      requires |subtrees| == |entries|
      requires forall k :: 0 <= k < |entries| ==> OwnJointInSubtree(entries[k], subtrees[k])
      requires SubtreesResolvable(allTransforms, subtrees)
      ensures Valid()
      ensures this.weight == weight && boneTransformWeights == entries
      ensures fresh(handles) && fresh(boneWeights)
      ensures handles.Length == |allTransforms| - 1
      ensures forall i :: 0 <= i < handles.Length ==> handles[i] == allTransforms[i + 1]
      ensures forall i :: 0 <= i < boneWeights.Length ==> boneWeights[i] == 0.0
      ensures |boneChildrenIndices| == |entries|
      ensures forall k :: 0 <= k < |entries| ==> |boneChildrenIndices[k]| == |subtrees[k]|
      ensures forall k, j :: 0 <= k < |entries| && 0 <= j < |subtrees[k]| ==>
        boneChildrenIndices[k][j] == IndexOf(allTransforms, subtrees[k][j]) - 1 &&
        handles[boneChildrenIndices[k][j]] == subtrees[k][j]
      ensures forall k :: 0 <= k < |entries| ==>
        OwnSlotListed(allTransforms, entries[k], boneChildrenIndices[k])
      ensures job == MixerJob(handles, boneWeights, 1.0)
    {
      var numTransforms := |allTransforms| - 1;

      var newHandles := new JointId[numTransforms];
      for i := 0 to numTransforms
        invariant forall m :: 0 <= m < i ==> newHandles[m] == allTransforms[m + 1]
      {
        newHandles[i] := allTransforms[i + 1];
      }

      var newBoneWeights := new real[numTransforms](_ => 0.0);

      var lists := SubtreeSlotLists(allTransforms, subtrees);
      forall k | 0 <= k < |entries|
        ensures OwnSlotListed(allTransforms, entries[k], lists[k])
      {
        OwnSlotAmongSubtreeSlots(allTransforms, subtrees[k], lists[k], entries[k]);
      }

      this.weight := weight;
      boneTransformWeights := entries;
      handles := newHandles;
      boneWeights := newBoneWeights;
      boneChildrenIndices := lists;
      job := MixerJob(newHandles, newBoneWeights, 1.0);
    }

    /** Writes each entry's weight into the slots of its subtree, entries in order. */
    method UpdateWeights()
      requires Valid()
      requires |boneTransformWeights| <= |boneChildrenIndices|
      modifies boneWeights
      ensures Valid()
      ensures IndicesWithin(boneChildrenIndices[..|boneTransformWeights|], boneWeights.Length)
      ensures boneWeights[..] == ApplyEntries(old(boneWeights[..]), boneChildrenIndices[..|boneTransformWeights|],
                                              EntryWeights(boneTransformWeights))
    {
      ghost var start := boneWeights[..];
      ghost var lists := boneChildrenIndices[..|boneTransformWeights|];
      ghost var entryWeights := EntryWeights(boneTransformWeights);
      IndicesWithinPrefix(boneChildrenIndices, boneWeights.Length, |boneTransformWeights|);
      for i := 0 to |boneTransformWeights|
        invariant IndicesWithin(lists[..i], |start|)
        invariant boneWeights[..] == ApplyEntries(start, lists[..i], entryWeights[..i])
      {
        var boneWeight := boneTransformWeights[i].weight;
        var childrenIndices := boneChildrenIndices[i];
        assert childrenIndices == lists[i];
        ghost var before := boneWeights[..];
        for j := 0 to |childrenIndices|
          invariant boneWeights[..] == ApplyEntry(before, childrenIndices[..j], boneWeight)
        {
          boneWeights[childrenIndices[j]] := boneWeight;
          assert childrenIndices[..j + 1][..j] == childrenIndices[..j];
        }
        assert childrenIndices[..|childrenIndices|] == childrenIndices;
        assert lists[..i + 1][..i] == lists[..i];
        assert entryWeights[..i + 1][..i] == entryWeights[..i];
        IndicesWithinPrefix(lists, |start|, i + 1);
      }
      assert lists[..|boneTransformWeights|] == lists;
      assert entryWeights[..|boneTransformWeights|] == entryWeights;
    }

    /** Per frame: refresh the bone weights, then give the job the global weight and the
        refreshed buffer. */
    method Update()
      requires Valid()
      requires |boneTransformWeights| <= |boneChildrenIndices|
      modifies this`job, boneWeights
      ensures Valid()
      ensures IndicesWithin(boneChildrenIndices[..|boneTransformWeights|], boneWeights.Length)
      ensures boneWeights[..] == ApplyEntries(old(boneWeights[..]), boneChildrenIndices[..|boneTransformWeights|],
                                              EntryWeights(boneTransformWeights))
      ensures job == old(job).(weight := weight, boneWeights := boneWeights)
    {
      var j := job;
      UpdateWeights();
      j := j.(weight := weight);
      j := j.(boneWeights := boneWeights);
      job := j;
    }
  }
}
