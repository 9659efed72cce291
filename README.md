# Pose mixer bookkeeping of the animation-jobs samples, in Dafny

This project models the discrete part of the animation-jobs samples. These are Unity
animation jobs that run once per frame on a pose stream. The parts modelled are:

- **Mixer job** (`mixer_job.dfy`, module `AnimationJobs`). The root-motion pass blends
  the velocity and angular velocity of input streams 0 and 1 by the global weight.
  The pose pass then runs over the job's handles in order. Each handle's joint gets
  a new local position (`Vector3.Lerp`) and a new local rotation (`Quaternion.Slerp`).
  Both use the factor `weight * boneWeights[i]`. The pose stream is a class whose
  fields the passes assign. The job is a value (a C# struct) that holds its handle
  array and bone-weight array by reference.
- **Weighted mask mixer** (`weighted_mask_mixer.dfy`, module `WeightedMaskMixerSample`).
  - Setup binds one handle per joint of the flattened skeleton, skipping its root.
  - Setup allocates a zeroed bone-weight buffer.
  - For each mask entry, setup records the buffer slot of every joint in that entry's
    subtree. The slot is `Array.IndexOf(allTransforms, joint) - 1`.
  - Every frame, each entry's weight is written into its slots in declaration order,
    so the last write wins. The job then gets the global weight and the buffer.
- **Simple mixer** (`simple_mixer.dfy`, module `SimpleMixerSample`). Setup binds the same
  handles and sets every bone weight to 1. The job starts at weight 0. Each frame only
  the job's weight is replaced.
- **Look-at setup** (`look_at.dfy`, module `LookAtSample`). The axis enumeration maps
  to a unit vector. The authored angle limits are put in order (`Min`, `Max`). This
  ordering keeps the look-at job's `Mathf.Clamp` within range.
- `geometry.dfy` (module `Geometry`) holds vectors, quaternions, `Vector3.Lerp`,
  `Quaternion.Slerp`, and `Mathf.Clamp` with `Mathf.Clamp01` as its [0,1] case.

Modelling choices:

- Floats are reals.
- A stream handle is the id of the joint it was bound to.
- A pose stream maps joint ids to local transforms (position, rotation, scale).
- The flattened skeleton is an input sequence with the root first. So is each mask
  entry's subtree list.
- Unity's `Vector3.Lerp` and `Quaternion.Slerp` clamp their factor to [0,1]. The model
  writes that clamp out.
- The engine's spherical interpolation is a function parameter `slerp`. The only
  behaviour assumed of it is its endpoint law: factor 0 gives the first quaternion and
  factor 1 the second (`SlerpEndpoints`).

Two preconditions come from what the code relies on rather than what it checks:

- When setup resolves a mask entry's joints, `WeightedMaskMixer.cs` calls only
  `Debug.Assert(boneIndex > 0)`. That call logs and does not abort. The model makes the
  condition a precondition of setup (`SubtreesResolvable`).
- The mixer job reads `boneWeights[i]` only for `i` below the handle count. So the model
  requires at least that many bone weights.

## Model

| member | source | states |
|---|---|---|
| `Geometry.Lerp` | Assets/animation-jobs-samples/Runtime/AnimationJobs/MixerJob.cs:32-33 | factor ≤ 0 gives the first vector, factor ≥ 1 the second, and every component of the result lies between the two inputs' components |
| `Geometry.Slerp` | Assets/animation-jobs-samples/Runtime/AnimationJobs/MixerJob.cs:57-59 | for an interpolation with the endpoint law, factor ≤ 0 gives the first rotation and factor ≥ 1 the second (the factor is clamped) |
| `AnimationJobs.BlendFactor` | Assets/animation-jobs-samples/Runtime/AnimationJobs/MixerJob.cs:55 | the factor lies in [0,1] when the global and bone weights do; it is 0 when either weight is 0; it equals the global weight when the bone weight is 1 |
| `AnimationJobs.BlendJoint` | Assets/animation-jobs-samples/Runtime/AnimationJobs/MixerJob.cs:53-59 | a blended joint keeps its scale; its position lies between the inputs' positions; factor ≤ 0 yields input 0's position and rotation, factor ≥ 1 input 1's |
| `AnimationJobs.BlendedPose` | Assets/animation-jobs-samples/Runtime/AnimationJobs/MixerJob.cs:45-60 | the blend loop adds and removes no joint of the stream |
| `AnimationJobs.BlendedPoseAt` | Assets/animation-jobs-samples/Runtime/AnimationJobs/MixerJob.cs:45-60 | after the loop, a joint named by no handle is unchanged; a named joint is its input blend by the factor of the last handle naming it, with its scale kept |
| `AnimationJobs.DistinctHandlesBlendedOnce` | Assets/animation-jobs-samples/Runtime/AnimationJobs/MixerJob.cs:46-59 | with distinct handles, joint `handles[i]` is blended once, by `weight * boneWeights[i]`; only its position and rotation change |
| `AnimationJobs.UnhandledJointsUnchanged` | Assets/animation-jobs-samples/Runtime/AnimationJobs/MixerJob.cs:45-60 | the pose pass writes no joint outside the handles |
| `AnimationJobs.MaskedJointKeepsInput0` | Assets/animation-jobs-samples/Runtime/AnimationJobs/MixerJob.cs:55-59 | a joint whose bone weight is 0 gets input 0's local position and rotation, whatever the global weight |
| `AnimationJobs.ZeroWeightGivesInput0` | Assets/animation-jobs-samples/Runtime/AnimationJobs/MixerJob.cs:50-52 | with global weight 0 every handled joint gets input 0's local position and rotation |
| `AnimationJobs.FullWeightGivesInput1` | Assets/animation-jobs-samples/Runtime/AnimationJobs/MixerJob.cs:50-52 | with global weight 1 and every bone weight 1, every handled joint gets input 1's local position and rotation |
| `AnimationJobs.UnitBoneWeightsFollowGlobalWeight` | Assets/animation-jobs-samples/Samples/Scripts/SimpleMixer/SimpleMixer.cs:40-45 | when all bone weights are 1, every handled joint is blended by the global weight alone |
| `AnimationJobs.ProcessRootMotion` | Assets/animation-jobs-samples/Runtime/AnimationJobs/MixerJob.cs:23-36 | the stream's velocity and angular velocity become the lerp of input 0's and input 1's values by the global weight; no bone weight is involved |
| `AnimationJobs.BlendJointInStream` | Assets/animation-jobs-samples/Runtime/AnimationJobs/MixerJob.cs:53-59 | one loop step sets the joint's local position and then its rotation; together they equal one `BlendJoint` write, and no other joint changes |
| `AnimationJobs.ProcessAnimation` | Assets/animation-jobs-samples/Runtime/AnimationJobs/MixerJob.cs:38-61 | the stream's local transforms become `BlendedPose` of the old ones over all the handles; velocities are not touched |
| `WeightedMaskMixerSample.IndexOf` | Assets/animation-jobs-samples/Samples/Scripts/WeightedMaskMixer/WeightedMaskMixer.cs:78 | -1 exactly when the joint is absent; otherwise the first position that holds it |
| `WeightedMaskMixerSample.SubtreeIndices` | Assets/animation-jobs-samples/Samples/Scripts/WeightedMaskMixer/WeightedMaskMixer.cs:72-82 | one slot per subtree joint, in order. Each slot is `IndexOf - 1`, lies in `[0, numTransforms)` and maps back to that joint: `allTransforms[slot + 1]` is the joint |
| `WeightedMaskMixerSample.SubtreeSlotLists` | Assets/animation-jobs-samples/Samples/Scripts/WeightedMaskMixer/WeightedMaskMixer.cs:66-85 | one slot list per mask entry, in the entries' order; each list holds one `IndexOf - 1` slot per subtree joint, in range, mapping back to that joint |
| `WeightedMaskMixerSample.OwnSlotAmongSubtreeSlots` | Assets/animation-jobs-samples/Samples/Scripts/WeightedMaskMixer/WeightedMaskMixer.cs:72-82 | an entry whose own joint is in its subtree (as `GetComponentsInChildren` always returns it) finds that joint's slot among the subtree's slots |
| `WeightedMaskMixerSample.ApplyEntry` | Assets/animation-jobs-samples/Samples/Scripts/WeightedMaskMixer/WeightedMaskMixer.cs:139-140 | writing one entry keeps the buffer length |
| `WeightedMaskMixerSample.ApplyEntries` | Assets/animation-jobs-samples/Samples/Scripts/WeightedMaskMixer/WeightedMaskMixer.cs:133-141 | writing all entries keeps the buffer length |
| `WeightedMaskMixerSample.ApplyEntryAt` | Assets/animation-jobs-samples/Samples/Scripts/WeightedMaskMixer/WeightedMaskMixer.cs:139-140 | after one entry, a slot in its list holds the entry's weight and any other slot keeps its value |
| `WeightedMaskMixerSample.ApplyEntriesAt` | Assets/animation-jobs-samples/Samples/Scripts/WeightedMaskMixer/WeightedMaskMixer.cs:133-141 | after all entries, a slot holds the weight of the last entry whose list contains it, or keeps its value if no list does |
| `WeightedMaskMixerSample.LaterEntryWins` | Assets/animation-jobs-samples/Samples/Scripts/WeightedMaskMixer/WeightedMaskMixer.cs:133-141 | a slot in entry `i`'s list that no later list contains ends with entry `i`'s weight (subtree coverage, and later entries take precedence) |
| `WeightedMaskMixerSample.UncoveredSlotUnchanged` | Assets/animation-jobs-samples/Samples/Scripts/WeightedMaskMixer/WeightedMaskMixer.cs:139-140 | a slot in no entry's list keeps its value |
| `WeightedMaskMixerSample.ApplyEntriesIdempotent` | Assets/animation-jobs-samples/Samples/Scripts/WeightedMaskMixer/WeightedMaskMixer.cs:130-142 | a second refresh with the same entry weights leaves the buffer as the first one left it |
| `WeightedMaskMixerSample.UnmaskedJointKeepsInput0` | Assets/animation-jobs-samples/Samples/Scripts/WeightedMaskMixer/WeightedMaskMixer.cs:63-64 | starting from the zeroed buffer, a joint in no entry's subtree keeps bone weight 0, and the mixer gives it input 0's position and rotation |
| `WeightedMaskMixerSample.WeightedMaskMixer.OnEnable` | Assets/animation-jobs-samples/Samples/Scripts/WeightedMaskMixer/WeightedMaskMixer.cs:54-93 | both arrays have length `allTransforms.Length - 1` and `handles[i]` is `allTransforms[i+1]`; every bone weight is 0; there is one slot list per entry, one `IndexOf - 1` slot per subtree joint, and that slot's handle is the joint; each entry's own joint has its slot in its list; the inspector weight is left as loaded; the job starts with weight 1 |
| `WeightedMaskMixerSample.WeightedMaskMixer.UpdateWeights` | Assets/animation-jobs-samples/Samples/Scripts/WeightedMaskMixer/WeightedMaskMixer.cs:130-142 | the buffer, in place, becomes `ApplyEntries` of its old contents with the entries' current weights; only the buffer changes, and the component stays valid |
| `WeightedMaskMixerSample.WeightedMaskMixer.Update` | Assets/animation-jobs-samples/Samples/Scripts/WeightedMaskMixer/WeightedMaskMixer.cs:110-121 | the weights are refreshed first; then the job gets the global weight and the refreshed buffer, and its handles are kept |
| `SimpleMixerSample.SimpleMixer.OnEnable` | Assets/animation-jobs-samples/Samples/Scripts/SimpleMixer/SimpleMixer.cs:32-53 | both arrays have length `transforms.Length - 1`; `handles[i]` is `transforms[i+1]`; every bone weight is 1; the inspector weight is left as loaded; the job starts with weight 0 |
| `SimpleMixerSample.SimpleMixer.Update` | Assets/animation-jobs-samples/Samples/Scripts/SimpleMixer/SimpleMixer.cs:72-82 | only the job changes: its weight becomes the inspector's weight, and its handles and bone weights stay the same arrays |
| `LookAtSample.GetAxisVector` | Assets/animation-jobs-samples/Samples/Scripts/LookAt/LookAt.cs:78-97 | every result has exactly one nonzero component, equal to ±1; a value outside the six named ones falls back to forward |
| `LookAtSample.AxisVectorHasUnitLength` | Assets/animation-jobs-samples/Samples/Scripts/LookAt/LookAt.cs:78-97 | every axis vector has squared length 1 |
| `LookAtSample.AxisTable` | Assets/animation-jobs-samples/Samples/Scripts/LookAt/LookAt.cs:80-94 | forward (0,0,1), back (0,0,-1), up (0,1,0), down (0,-1,0), left (-1,0,0), right (1,0,0) |
| `LookAtSample.OppositeAxes` | Assets/animation-jobs-samples/Samples/Scripts/LookAt/LookAt.cs:82-93 | back = -forward, down = -up, left = -right |
| `LookAtSample.GetAxisVectorInjective` | Assets/animation-jobs-samples/Samples/Scripts/LookAt/LookAt.cs:80-94 | the six named values map to six different vectors |
| `LookAtSample.NormalizeAngles` | Assets/animation-jobs-samples/Samples/Scripts/LookAt/LookAt.cs:60-61 | the limits come out ordered; an ordered pair is unchanged and an unordered pair is swapped |
| `Geometry.Clamp` | Assets/animation-jobs-samples/Runtime/AnimationJobs/LookAtJob.cs:46 | with ordered limits the result lies within them; a value already within them is unchanged; a value below the minimum gives the minimum, and with ordered limits a value above the maximum gives the maximum |
| `LookAtSample.ClampedAngleWithinLimits` | Assets/animation-jobs-samples/Samples/Scripts/LookAt/LookAt.cs:60-61 | for any authored limits, clamping with the normalised limits gives an angle within them |
| `LookAtSample.UnorderedLimitsEscape` | Assets/animation-jobs-samples/Runtime/AnimationJobs/LookAtJob.cs:46 | for every pair of limits in the wrong order, a value below the minimum is clamped to that minimum, which lies above the maximum: the case the normalisation prevents |
| `LookAtSample.ConfigureLookAt` | Assets/animation-jobs-samples/Samples/Scripts/LookAt/LookAt.cs:52-62 | the job's axis is the enum value's axis vector (so a signed unit axis), its limits are ordered, and they are the two authored angles |

## Left out

- The two-bone IK job (`TwoBoneIKJob.cs`) and its component (`TwoBoneIK.cs`). They are
  law-of-cosines and quaternion floating-point geometry, with no discrete content.
- The look-at job's solve, apart from its clamp. It uses cross products, normalisation,
  `Vector3.Angle` and `Quaternion.AngleAxis`, which are float geometry.
- The internals of `Quaternion.Slerp`. This is engine code: it is a parameter of the
  model, with only its endpoint law assumed.
- Graph and lifecycle plumbing: clip loading and the early return when a clip is
  missing, `PlayableGraph` and `AnimationScriptPlayable` creation, input wiring, goal
  and target object creation, `OnDisable`, `NativeArray` disposal and `Debug.Log`.
- `GetComponentsInChildren` and the Unity hierarchy. The flattened skeleton and each
  entry's subtree list are given as input sequences. The one property of that call the
  model relies on is that a subtree list contains the entry's own joint
  (`OwnJointInSubtree`).
- Unity's serialization of the inspector fields. The `weight` a component holds when it
  is enabled is a parameter of setup, which leaves it as it is.
- Engine exceptions for bad indices and handles. They are excluded by preconditions:
  at least two input streams; every handle bound in the stream and in both inputs; at
  least as many bone weights as handles; the entry list no longer than the slot lists.
- Float rounding. Weights, positions and their products are exact reals.
- Job scheduling and the sharing of native memory between threads. This is
  concurrency. The host calls the root-motion pass before the pose pass.
