/** The simple mixer component: one handle per joint of the skeleton (the root
    excluded), every bone weight 1, and a global weight the inspector drives. */
module SimpleMixerSample {
  import opened AnimationJobs

  class SimpleMixer {
    /** The inspector's blend weight between the two clips. */
    var weight: real
    var handles: array<JointId>
    var boneWeights: array<real>
    /** The job data held by the script playable. */
    var job: MixerJob

    /** Setup. `transforms` is the skeleton flattened with its root first, and `weight` is
        the inspector value loaded before the component is enabled; setup leaves it as is. */
    constructor OnEnable(transforms: seq<JointId>, weight: real)
      requires 1 <= |transforms|
      ensures this.weight == weight
      ensures fresh(handles) && fresh(boneWeights)
      ensures handles.Length == boneWeights.Length == |transforms| - 1
      ensures forall i :: 0 <= i < handles.Length ==> handles[i] == transforms[i + 1]
      ensures forall i :: 0 <= i < boneWeights.Length ==> boneWeights[i] == 1.0
      ensures job == MixerJob(handles, boneWeights, 0.0)
    {
      var numTransforms := |transforms| - 1;
      var newHandles := new JointId[numTransforms];
      var newBoneWeights := new real[numTransforms](_ => 0.0);
      for i := 0 to numTransforms
        invariant forall m :: 0 <= m < i ==> newHandles[m] == transforms[m + 1]
        invariant forall m :: 0 <= m < i ==> newBoneWeights[m] == 1.0
      {
        newHandles[i] := transforms[i + 1];
        newBoneWeights[i] := 1.0;
      }
      this.weight := weight;
      handles := newHandles;
      boneWeights := newBoneWeights;
      job := MixerJob(newHandles, newBoneWeights, 0.0);
    }

    /** Per frame: copy the job data, set its weight, store it back. */
    method Update()
      modifies this`job
      ensures job.weight == weight
      ensures job.handles == old(job.handles) && job.boneWeights == old(job.boneWeights)
    {
      var j := job;
      j := j.(weight := weight);
      job := j;
    }
  }
}
