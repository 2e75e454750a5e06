/**
 * `cluster_faces`: the density-based clustering itself is a foreign library
 * call, so it is a parameter here (`dbscan`, one integer label per encoding,
 * -1 for noise). What the model keeps is the empty-input short cut and the
 * reported number of clusters.
 */
module Clustering {
  import opened Wrappers
  import opened FaceData

  /** The label DBSCAN gives to points that belong to no cluster. */
  const Noise: int := -1

  /** The distinct labels that name a cluster. */
  function NonNoiseLabels(labels: seq<int>): set<int>
  {
    set l | l in labels && l != Noise
  }

  /** `len(set(labels)) - (1 if -1 in labels else 0)`: the number of clusters, noise excluded. */
  function ClusterCount(labels: seq<int>): (n: int)
    ensures n == |NonNoiseLabels(labels)|
  {
    var distinct := set l | l in labels;
    if Noise in labels then
      assert distinct == NonNoiseLabels(labels) + {Noise};
      |distinct| - 1
    else
      assert distinct == NonNoiseLabels(labels);
      |distinct|
  }

  /** The array handed to DBSCAN: the encodings, in record order. */
  function EncodingsOf<E>(faceData: seq<FaceRecord<E>>): (encodings: seq<E>)
    ensures |encodings| == |faceData|
    ensures forall i :: 0 <= i < |faceData| ==> encodings[i] == faceData[i].encoding
  {
    seq(|faceData|, i requires 0 <= i < |faceData| => faceData[i].encoding)
  }

  /**
   * `cluster_faces`: no labels at all (Python's `None`) when there is no face
   * data; otherwise whatever the clustering gives for the encodings.
   */
  function ClusterFaces<E>(faceData: seq<FaceRecord<E>>, dbscan: seq<E> -> seq<int>): Option<seq<int>>
  {
    if faceData == [] then None else Some(dbscan(EncodingsOf(faceData)))
  }

  /** Each cluster is counted once however many faces carry its label, and noise never counts. */
  lemma ClusterCountExamples()
    ensures ClusterCount([]) == 0
    ensures ClusterCount([Noise, Noise]) == 0
    ensures ClusterCount([3, Noise, 3, 0]) == 2
  {
    assert NonNoiseLabels([]) == {};
    assert NonNoiseLabels([Noise, Noise]) == {};
    assert NonNoiseLabels([3, Noise, 3, 0]) == {3, 0};
  }
}
