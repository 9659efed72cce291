/** The mixer animation job: root-motion blending and the per-joint pose blend
    between input streams 0 and 1 of a pose stream. */
module AnimationJobs {
  import opened Geometry

  /** A joint of the skeleton; a stream handle is the joint it was bound to. */
  type JointId = int

  /** The local (parent-relative) transform of a joint in a pose stream. */
  datatype LocalTransform = LocalTransform(position: Vec3, rotation: Quat, scale: Vec3)

  /** A read-only snapshot of a stream, as an input stream is seen by the job. */
  datatype StreamState = StreamState(
    velocity: Vec3,
    angularVelocity: Vec3,
    localTransforms: map<JointId, LocalTransform>)

  /** The current frame's pose stream, which the job writes. */
  class AnimationStream {
    var velocity: Vec3
    var angularVelocity: Vec3
    var localTransforms: map<JointId, LocalTransform>
    /** The input streams, by slot number. */
    const inputs: seq<StreamState>

    constructor (current: StreamState, inputs: seq<StreamState>)
      ensures velocity == current.velocity && angularVelocity == current.angularVelocity
      ensures localTransforms == current.localTransforms && this.inputs == inputs
    {
      velocity := current.velocity;
      angularVelocity := current.angularVelocity;
      localTransforms := current.localTransforms;
      this.inputs := inputs;
    }
  }

  /** The job struct. Its two arrays are native buffers shared by reference with the
      component that created the job; the struct itself is copied by value. */
  datatype MixerJob = MixerJob(handles: array<JointId>, boneWeights: array<real>, weight: real)

  /** Every handle resolves to a joint of the given pose. */
  predicate Bound(handles: seq<JointId>, pose: map<JointId, LocalTransform>) {
    forall i :: 0 <= i < |handles| ==> handles[i] in pose
  }

  predicate Distinct(handles: seq<JointId>) {
    forall i, j :: 0 <= i < j < |handles| ==> handles[i] != handles[j]
  }

  lemma ProductInUnitRange(x: real, y: real)
    ensures 0.0 <= x <= 1.0 && 0.0 <= y <= 1.0 ==> 0.0 <= x * y <= 1.0
  {
    if 0.0 <= x <= 1.0 && 0.0 <= y <= 1.0 {
      MulNonneg(x, y);
      MulNonneg(1.0 - x, y);
    }
  }

  /** The factor joint `i` is blended by: the global weight scaled by its bone weight. */
  function BlendFactor(weight: real, boneWeight: real): (f: real)
    ensures 0.0 <= weight <= 1.0 && 0.0 <= boneWeight <= 1.0 ==> 0.0 <= f <= 1.0
    ensures weight == 0.0 || boneWeight == 0.0 ==> f == 0.0
    ensures boneWeight == 1.0 ==> f == weight
  {
    ProductInUnitRange(weight, boneWeight);
    weight * boneWeight
  }

  /** One joint after the blend: position and rotation interpolated between the two
      inputs by `f`, everything else kept from the joint's current transform. */
  function BlendJoint(current: LocalTransform, a: LocalTransform, b: LocalTransform, f: real, slerp: SlerpFn)
    : (r: LocalTransform)
    ensures r.scale == current.scale
    ensures Between(a.position, b.position, r.position)
    ensures SlerpEndpoints(slerp) && f <= 0.0 ==> r.position == a.position && r.rotation == a.rotation
    ensures SlerpEndpoints(slerp) && f >= 1.0 ==> r.position == b.position && r.rotation == b.rotation
  {
    current.(position := Lerp(a.position, b.position, f), rotation := Slerp(slerp, a.rotation, b.rotation, f))
  }

  /** The pose after the blend loop has processed every handle of `handles`, in order. */
  function BlendedPose(
    pose: map<JointId, LocalTransform>,
    in0: map<JointId, LocalTransform>,
    in1: map<JointId, LocalTransform>,
    handles: seq<JointId>,
    boneWeights: seq<real>,
    weight: real,
    slerp: SlerpFn): (r: map<JointId, LocalTransform>)
    requires Bound(handles, pose) && Bound(handles, in0) && Bound(handles, in1)
    requires |handles| <= |boneWeights|
    ensures r.Keys == pose.Keys
    decreases |handles|
  {
    if |handles| == 0 then pose
    else
      var n := |handles| - 1;
      var h := handles[n];
      var before := BlendedPose(pose, in0, in1, handles[..n], boneWeights, weight, slerp);
      before[h := BlendJoint(before[h], in0[h], in1[h], BlendFactor(weight, boneWeights[n]), slerp)]
  }

  /** The last position of `h` in `handles`, or -1 when it does not occur. */
  function LastIndex(handles: seq<JointId>, h: JointId): (i: int)
    ensures -1 <= i < |handles|
    ensures i == -1 <==> h !in handles
    ensures 0 <= i ==> handles[i] == h && forall j :: i < j < |handles| ==> handles[j] != h
  {
    if |handles| == 0 then -1
    else if handles[|handles| - 1] == h then |handles| - 1
    else LastIndex(handles[..|handles| - 1], h)
  }

  /** The blend of joint `h` alone: unchanged when no handle names it, otherwise blended
      by the factor of the last handle that names it. */
  lemma {:induction false} BlendedPoseAt(
    pose: map<JointId, LocalTransform>,
    in0: map<JointId, LocalTransform>,
    in1: map<JointId, LocalTransform>,
    handles: seq<JointId>,
    boneWeights: seq<real>,
    weight: real,
    slerp: SlerpFn,
    h: JointId)
    requires Bound(handles, pose) && Bound(handles, in0) && Bound(handles, in1)
    requires |handles| <= |boneWeights|
    requires h in pose
    ensures var r := BlendedPose(pose, in0, in1, handles, boneWeights, weight, slerp);
            var i := LastIndex(handles, h);
            h in r &&
            r[h] == if i < 0 then pose[h]
                    else BlendJoint(pose[h], in0[h], in1[h], BlendFactor(weight, boneWeights[i]), slerp)
    decreases |handles|
  {
    if |handles| > 0 {
      var n := |handles| - 1;
      assert Bound(handles[..n], pose) && Bound(handles[..n], in0) && Bound(handles[..n], in1) by {
        forall i | 0 <= i < n ensures handles[..n][i] == handles[i] {}
      }
      BlendedPoseAt(pose, in0, in1, handles[..n], boneWeights, weight, slerp, h);
    }
  }

  /** With distinct handles, every joint named in `handles` is blended exactly once,
      by its own bone weight, and only its position and rotation change. */
  lemma DistinctHandlesBlendedOnce(
    pose: map<JointId, LocalTransform>,
    in0: map<JointId, LocalTransform>,
    in1: map<JointId, LocalTransform>,
    handles: seq<JointId>,
    boneWeights: seq<real>,
    weight: real,
    slerp: SlerpFn,
    i: int)
    requires Bound(handles, pose) && Bound(handles, in0) && Bound(handles, in1)
    requires |handles| <= |boneWeights|
    requires Distinct(handles)
    requires 0 <= i < |handles|
    ensures var r := BlendedPose(pose, in0, in1, handles, boneWeights, weight, slerp);
            var h := handles[i];
            r[h] == BlendJoint(pose[h], in0[h], in1[h], BlendFactor(weight, boneWeights[i]), slerp) &&
            r[h].scale == pose[h].scale
  {
    BlendedPoseAt(pose, in0, in1, handles, boneWeights, weight, slerp, handles[i]);
  }

  /** The blend writes no joint outside `handles`. */
  lemma UnhandledJointsUnchanged(
    pose: map<JointId, LocalTransform>,
    in0: map<JointId, LocalTransform>,
    in1: map<JointId, LocalTransform>,
    handles: seq<JointId>,
    boneWeights: seq<real>,
    weight: real,
    slerp: SlerpFn,
    h: JointId)
    requires Bound(handles, pose) && Bound(handles, in0) && Bound(handles, in1)
    requires |handles| <= |boneWeights|
    requires h in pose && h !in handles
    ensures BlendedPose(pose, in0, in1, handles, boneWeights, weight, slerp)[h] == pose[h]
  {
    BlendedPoseAt(pose, in0, in1, handles, boneWeights, weight, slerp, h);
  }

  /** A joint whose bone weight is 0 stays at input 0's pose whatever the global weight. */
  lemma MaskedJointKeepsInput0(
    pose: map<JointId, LocalTransform>,
    in0: map<JointId, LocalTransform>,
    in1: map<JointId, LocalTransform>,
    handles: seq<JointId>,
    boneWeights: seq<real>,
    weight: real,
    slerp: SlerpFn,
    h: JointId)
    requires Bound(handles, pose) && Bound(handles, in0) && Bound(handles, in1)
    requires |handles| <= |boneWeights|
    requires SlerpEndpoints(slerp)
    requires h in handles && boneWeights[LastIndex(handles, h)] == 0.0
    ensures var r := BlendedPose(pose, in0, in1, handles, boneWeights, weight, slerp);
            r[h].position == in0[h].position && r[h].rotation == in0[h].rotation
  {
    assert h in pose by {
      var k :| 0 <= k < |handles| && handles[k] == h;
    }
    BlendedPoseAt(pose, in0, in1, handles, boneWeights, weight, slerp, h);
  }

  /** Global weight 0: every handled joint takes input 0's position and rotation. */
  lemma ZeroWeightGivesInput0(
    pose: map<JointId, LocalTransform>,
    in0: map<JointId, LocalTransform>,
    in1: map<JointId, LocalTransform>,
    handles: seq<JointId>,
    boneWeights: seq<real>,
    slerp: SlerpFn)
    requires Bound(handles, pose) && Bound(handles, in0) && Bound(handles, in1)
    requires |handles| <= |boneWeights|
    requires SlerpEndpoints(slerp)
    ensures var r := BlendedPose(pose, in0, in1, handles, boneWeights, 0.0, slerp);
            forall i :: 0 <= i < |handles| ==>
              r[handles[i]].position == in0[handles[i]].position &&
              r[handles[i]].rotation == in0[handles[i]].rotation
  {
    forall i | 0 <= i < |handles|
      ensures var r := BlendedPose(pose, in0, in1, handles, boneWeights, 0.0, slerp);
              r[handles[i]].position == in0[handles[i]].position &&
              r[handles[i]].rotation == in0[handles[i]].rotation
    {
      BlendedPoseAt(pose, in0, in1, handles, boneWeights, 0.0, slerp, handles[i]);
    }
  }

  /** Global weight 1 and every bone weight 1: every handled joint takes input 1's
      position and rotation. */
  lemma FullWeightGivesInput1(
    pose: map<JointId, LocalTransform>,
    in0: map<JointId, LocalTransform>,
    in1: map<JointId, LocalTransform>,
    handles: seq<JointId>,
    boneWeights: seq<real>,
    slerp: SlerpFn)
    requires Bound(handles, pose) && Bound(handles, in0) && Bound(handles, in1)
    requires |handles| <= |boneWeights|
    requires SlerpEndpoints(slerp)
    requires forall i :: 0 <= i < |handles| ==> boneWeights[i] == 1.0
    ensures var r := BlendedPose(pose, in0, in1, handles, boneWeights, 1.0, slerp);
            forall i :: 0 <= i < |handles| ==>
              r[handles[i]].position == in1[handles[i]].position &&
              r[handles[i]].rotation == in1[handles[i]].rotation
  {
    forall i | 0 <= i < |handles|
      ensures var r := BlendedPose(pose, in0, in1, handles, boneWeights, 1.0, slerp);
              r[handles[i]].position == in1[handles[i]].position &&
              r[handles[i]].rotation == in1[handles[i]].rotation
    {
      BlendedPoseAt(pose, in0, in1, handles, boneWeights, 1.0, slerp, handles[i]);
    }
  }

  /** When every bone weight is 1 the mask has no effect: each handled joint is blended
      by the global weight alone. */
  lemma UnitBoneWeightsFollowGlobalWeight(
    pose: map<JointId, LocalTransform>,
    in0: map<JointId, LocalTransform>,
    in1: map<JointId, LocalTransform>,
    handles: seq<JointId>,
    boneWeights: seq<real>,
    weight: real,
    slerp: SlerpFn)
    requires Bound(handles, pose) && Bound(handles, in0) && Bound(handles, in1)
    requires |handles| <= |boneWeights|
    requires forall i :: 0 <= i < |handles| ==> boneWeights[i] == 1.0
    ensures var r := BlendedPose(pose, in0, in1, handles, boneWeights, weight, slerp);
            forall i :: 0 <= i < |handles| ==>
              r[handles[i]] == BlendJoint(pose[handles[i]], in0[handles[i]], in1[handles[i]], weight, slerp)
  {
    forall i | 0 <= i < |handles|
      ensures var r := BlendedPose(pose, in0, in1, handles, boneWeights, weight, slerp);
              r[handles[i]] == BlendJoint(pose[handles[i]], in0[handles[i]], in1[handles[i]], weight, slerp)
    {
      BlendedPoseAt(pose, in0, in1, handles, boneWeights, weight, slerp, handles[i]);
    }
  }

  /** Root motion: velocity and angular velocity are blended by the global weight only. */
  method ProcessRootMotion(job: MixerJob, stream: AnimationStream)
    requires 2 <= |stream.inputs|
    modifies stream`velocity, stream`angularVelocity
    ensures stream.velocity == Lerp(stream.inputs[0].velocity, stream.inputs[1].velocity, job.weight)
    ensures stream.angularVelocity == Lerp(stream.inputs[0].angularVelocity, stream.inputs[1].angularVelocity, job.weight)
  {
    var streamA := stream.inputs[0];
    var streamB := stream.inputs[1];
    var velocity := Lerp(streamA.velocity, streamB.velocity, job.weight);
    var angularVelocity := Lerp(streamA.angularVelocity, streamB.angularVelocity, job.weight);
    stream.velocity := velocity;
    stream.angularVelocity := angularVelocity;
  }

  lemma BoundPrefix(handles: seq<JointId>, pose: map<JointId, LocalTransform>, n: nat)
    requires Bound(handles, pose) && n <= |handles|
    ensures Bound(handles[..n], pose)
  {
    forall i | 0 <= i < n ensures handles[..n][i] in pose {
      assert handles[..n][i] == handles[i];
    }
  }

  /** One more step of the blend loop: handle `i` is blended on top of the first `i`. */
  lemma BlendedPoseStep(
    pose: map<JointId, LocalTransform>,
    in0: map<JointId, LocalTransform>,
    in1: map<JointId, LocalTransform>,
    handles: seq<JointId>,
    boneWeights: seq<real>,
    weight: real,
    slerp: SlerpFn,
    i: nat)
    requires Bound(handles, pose) && Bound(handles, in0) && Bound(handles, in1)
    requires |handles| <= |boneWeights| && i < |handles|
    ensures Bound(handles[..i], pose) && Bound(handles[..i], in0) && Bound(handles[..i], in1)
    ensures Bound(handles[..i + 1], pose) && Bound(handles[..i + 1], in0) && Bound(handles[..i + 1], in1)
    ensures var before := BlendedPose(pose, in0, in1, handles[..i], boneWeights, weight, slerp);
            var h := handles[i];
            BlendedPose(pose, in0, in1, handles[..i + 1], boneWeights, weight, slerp) ==
            before[h := BlendJoint(before[h], in0[h], in1[h], BlendFactor(weight, boneWeights[i]), slerp)]
  {
    BoundPrefix(handles, pose, i);
    BoundPrefix(handles, in0, i);
    BoundPrefix(handles, in1, i);
    BoundPrefix(handles, pose, i + 1);
    BoundPrefix(handles, in0, i + 1);
    BoundPrefix(handles, in1, i + 1);
    assert handles[..i + 1][..i] == handles[..i];
  }

  /** The loop body for one handle: the joint's local position, then its local rotation,
      are set to the blend of the two inputs. */
  method BlendJointInStream(stream: AnimationStream, handle: JointId, a: LocalTransform, b: LocalTransform,
                            factor: real, slerp: SlerpFn)
    requires handle in stream.localTransforms
    modifies stream`localTransforms
    ensures stream.localTransforms ==
      old(stream.localTransforms)[handle := BlendJoint(old(stream.localTransforms)[handle], a, b, factor, slerp)]
  {
    ghost var before := stream.localTransforms;
    var current := stream.localTransforms[handle];
    stream.localTransforms := stream.localTransforms[handle := current.(position := Lerp(a.position, b.position, factor))];
    ghost var positioned := stream.localTransforms;
    current := stream.localTransforms[handle];
    stream.localTransforms := stream.localTransforms[handle := current.(rotation := Slerp(slerp, a.rotation, b.rotation, factor))];
    assert positioned == before[handle := positioned[handle]];
  }

  /** The pose pass: each handle's joint is blended, in handle order, between the two
      input streams; nothing but the local transforms of the stream changes. */
  method ProcessAnimation(job: MixerJob, stream: AnimationStream, slerp: SlerpFn)
    requires 2 <= |stream.inputs|
    requires job.handles.Length <= job.boneWeights.Length
    requires Bound(job.handles[..], stream.localTransforms)
    requires Bound(job.handles[..], stream.inputs[0].localTransforms)
    requires Bound(job.handles[..], stream.inputs[1].localTransforms)
    modifies stream`localTransforms
    ensures stream.localTransforms ==
      BlendedPose(old(stream.localTransforms), stream.inputs[0].localTransforms, stream.inputs[1].localTransforms,
                  job.handles[..], job.boneWeights[..], job.weight, slerp)
  {
    var streamA := stream.inputs[0];
    var streamB := stream.inputs[1];
    ghost var pose := stream.localTransforms;
    ghost var handles := job.handles[..];
    ghost var boneWeights := job.boneWeights[..];
    var numHandles := job.handles.Length;
    BoundPrefix(handles, pose, 0);
    BoundPrefix(handles, streamA.localTransforms, 0);
    BoundPrefix(handles, streamB.localTransforms, 0);
    for i := 0 to numHandles
      invariant Bound(handles[..i], pose)
      invariant Bound(handles[..i], streamA.localTransforms)
      invariant Bound(handles[..i], streamB.localTransforms)
      invariant stream.localTransforms ==
        BlendedPose(pose, streamA.localTransforms, streamB.localTransforms, handles[..i], boneWeights, job.weight, slerp)
    {
      var handle := job.handles[i];
      BlendedPoseStep(pose, streamA.localTransforms, streamB.localTransforms, handles, boneWeights, job.weight, slerp, i);
      var factor := BlendFactor(job.weight, job.boneWeights[i]);
      assert handle == handles[i] && job.boneWeights[i] == boneWeights[i];
      BlendJointInStream(stream, handle, streamA.localTransforms[handle], streamB.localTransforms[handle], factor, slerp);
    }
    assert handles[..numHandles] == handles;
  }
}
