/**
 * `organize_photos_by_cluster`: the reducer from cluster labels to person
 * folders, and the copy-skip rule inside each folder.
 *
 * Labels and records are walked together as Python's `zip` does (up to the
 * shorter of the two). Noise records are dropped; every other label collects
 * the set of distinct paths zipped with it; the labels are then named
 * `Person_1`, `Person_2`, ... in the order they were first seen, which is the
 * insertion order of the Python dict. Dafny maps are unordered, so the model
 * keeps that order as a sequence beside the map.
 *
 * The output directory is a map from folder name to the set of file names it
 * holds; `os.path.exists` on a destination is membership in that set.
 */
module Organize {
  import opened Wrappers
  import opened ImageFiles
  import opened FaceData
  import opened Clustering
  import Decimal

  /** A label (`cluster`) together with the path of the record it was zipped with. */
  datatype Tagged = Tagged(cluster: int, path: Path)

  /** `zip(labels, face_data)`, keeping of each record only its path. */
  function Zip<E>(labels: seq<int>, faceData: seq<FaceRecord<E>>): (tagged: seq<Tagged>)
    ensures |tagged| <= |labels| && |tagged| <= |faceData|
    ensures |tagged| == |labels| || |tagged| == |faceData|
    ensures forall i :: 0 <= i < |tagged| ==> tagged[i] == Tagged(labels[i], faceData[i].path)
  {
    var n := if |labels| <= |faceData| then |labels| else |faceData|;
    seq(n, i requires 0 <= i < n => Tagged(labels[i], faceData[i].path))
  }

  /** The labels, other than noise, zipped with some record. */
  function ClusterLabels(tagged: seq<Tagged>): set<int>
  {
    set i | 0 <= i < |tagged| && tagged[i].cluster != Noise :: tagged[i].cluster
  }

  /** The distinct paths of the records zipped with label `cluster`. */
  function PathsWith(tagged: seq<Tagged>, cluster: int): set<Path>
  {
    set i | 0 <= i < |tagged| && tagged[i].cluster == cluster :: tagged[i].path
  }

  /** The position of the first record with label `cluster`, or `|tagged|` when there is none. */
  function FirstIndex(tagged: seq<Tagged>, cluster: int): (r: nat)
    ensures r <= |tagged|
    ensures r < |tagged| ==> tagged[r].cluster == cluster
    ensures forall j :: 0 <= j < r ==> tagged[j].cluster != cluster
    decreases |tagged|
  {
    if tagged == [] then 0
    else if tagged[0].cluster == cluster then 0
    else 1 + FirstIndex(tagged[1..], cluster)
  }

  /** The keys of `images_by_cluster` in insertion order: each non-noise label at its first occurrence. */
  function FirstSeen(tagged: seq<Tagged>): (order: seq<int>)
    ensures |order| <= |tagged|
    ensures forall k :: 0 <= k < |order| ==> order[k] != Noise
    decreases |tagged|
  {
    if tagged == [] then []
    else
      var seen := FirstSeen(tagged[..|tagged| - 1]);
      var cluster := tagged[|tagged| - 1].cluster;
      if cluster == Noise || cluster in seen then seen else seen + [cluster]
  }

  /** One output folder: its name, the cluster label it stands for, and the paths to copy there. */
  datatype PersonFolder = PersonFolder(name: string, cluster: int, paths: set<Path>)

  /** `f"Person_{cluster_count}"`. */
  function PersonName(count: nat): (name: string)
    ensures |name| > |"Person_"| && name[..|"Person_"|] == "Person_"
    ensures Decimal.AllDigits(name[|"Person_"|..]) && Decimal.Value(name[|"Person_"|..]) == count
    ensures count > 0 ==> name[|"Person_"|] != '0'
  {
    Decimal.ValueOfShow(count);
    var name := "Person_" + Decimal.Show(count);
    assert name[|"Person_"|..] == Decimal.Show(count);
    name
  }

  /** The folders named after the labels of `tagged`, in first-seen order. */
  function FoldersOf(tagged: seq<Tagged>): seq<PersonFolder>
  {
    var order := FirstSeen(tagged);
    seq(|order|, k requires 0 <= k < |order| => PersonFolder(PersonName(k + 1), order[k], PathsWith(tagged, order[k])))
  }

  /**
   * The folders `organize_photos_by_cluster` creates, in the order it creates
   * them: none when there are no labels (`labels is None`).
   */
  function Assignment<E>(labels: Option<seq<int>>, faceData: seq<FaceRecord<E>>): (folders: seq<PersonFolder>)
    ensures labels.None? ==> folders == []
    ensures labels.Some? ==> |folders| <= |labels.value| && |folders| <= |faceData|
  {
    match labels
    case None => []
    case Some(ls) => FoldersOf(Zip(ls, faceData))
  }

  function FolderNames(folders: seq<PersonFolder>): set<string>
  {
    set k | 0 <= k < |folders| :: folders[k].name
  }

  function Basenames(paths: set<Path>): set<string>
  {
    set p | p in paths :: Basename(p)
  }

  /** The names a folder holds before copying; `os.makedirs(..., exist_ok=True)` leaves an existing one alone. */
  function Contents(outDir: map<string, set<string>>, folder: string): set<string>
  {
    if folder in outDir then outDir[folder] else {}
  }

  // ---------------------------------------------------------------------------
  // Facts about the specification functions

  lemma ClusterLabelsSnoc(tagged: seq<Tagged>, t: Tagged)
    ensures ClusterLabels(tagged + [t]) == ClusterLabels(tagged) + (if t.cluster != Noise then {t.cluster} else {})
  {
    var all := tagged + [t];
    forall l | l in ClusterLabels(all)
      ensures l in ClusterLabels(tagged) + (if t.cluster != Noise then {t.cluster} else {})
    {
      var i :| 0 <= i < |all| && all[i].cluster != Noise && all[i].cluster == l;
      if i < |tagged| {
        assert tagged[i] == all[i];
      }
    }
    forall l | l in ClusterLabels(tagged)
      ensures l in ClusterLabels(all)
    {
      var i :| 0 <= i < |tagged| && tagged[i].cluster != Noise && tagged[i].cluster == l;
      assert all[i] == tagged[i];
    }
    if t.cluster != Noise {
      assert all[|tagged|] == t;
    }
  }

  lemma PathsWithSnoc(tagged: seq<Tagged>, t: Tagged, cluster: int)
    ensures PathsWith(tagged + [t], cluster) == PathsWith(tagged, cluster) + (if t.cluster == cluster then {t.path} else {})
  {
    var all := tagged + [t];
    forall p | p in PathsWith(all, cluster)
      ensures p in PathsWith(tagged, cluster) + (if t.cluster == cluster then {t.path} else {})
    {
      var i :| 0 <= i < |all| && all[i].cluster == cluster && all[i].path == p;
      if i < |tagged| {
        assert tagged[i] == all[i];
      }
    }
    forall p | p in PathsWith(tagged, cluster)
      ensures p in PathsWith(all, cluster)
    {
      var i :| 0 <= i < |tagged| && tagged[i].cluster == cluster && tagged[i].path == p;
      assert all[i] == tagged[i];
    }
    if t.cluster == cluster {
      assert all[|tagged|] == t;
    }
  }

  /** The first-seen order lists exactly the non-noise labels that occur. */
  lemma {:induction false} FirstSeenElements(tagged: seq<Tagged>)
    ensures forall l :: l in FirstSeen(tagged) ==> l in ClusterLabels(tagged)
    ensures forall l :: l in ClusterLabels(tagged) ==> l in FirstSeen(tagged)
    decreases |tagged|
  {
    if tagged != [] {
      var pre := tagged[..|tagged| - 1];
      FirstSeenElements(pre);
      ClusterLabelsSnoc(pre, tagged[|tagged| - 1]);
      assert tagged == pre + [tagged[|tagged| - 1]];
    }
  }

  /** ... each of them once ... */
  lemma {:induction false} FirstSeenDistinct(tagged: seq<Tagged>)
    ensures forall a, b :: 0 <= a < b < |FirstSeen(tagged)| ==> FirstSeen(tagged)[a] != FirstSeen(tagged)[b]
    decreases |tagged|
  {
    if tagged != [] {
      FirstSeenDistinct(tagged[..|tagged| - 1]);
    }
  }

  lemma FirstIndexSnoc(tagged: seq<Tagged>, t: Tagged, cluster: int)
    ensures FirstIndex(tagged, cluster) < |tagged| ==> FirstIndex(tagged + [t], cluster) == FirstIndex(tagged, cluster)
    ensures FirstIndex(tagged, cluster) == |tagged| && t.cluster == cluster ==> FirstIndex(tagged + [t], cluster) == |tagged|
  {
    var all := tagged + [t];
    var r := FirstIndex(tagged, cluster);
    if r < |tagged| {
      assert all[r] == tagged[r];
    } else if t.cluster == cluster {
      assert all[|tagged|] == t;
    }
  }

  /** ... ordered by where each label first occurs. */
  lemma {:induction false} FirstSeenOrder(tagged: seq<Tagged>)
    ensures forall k :: 0 <= k < |FirstSeen(tagged)| ==> FirstIndex(tagged, FirstSeen(tagged)[k]) < |tagged|
    ensures forall a, b :: 0 <= a < b < |FirstSeen(tagged)| ==>
      FirstIndex(tagged, FirstSeen(tagged)[a]) < FirstIndex(tagged, FirstSeen(tagged)[b])
    decreases |tagged|
  {
    if tagged != [] {
      var pre, t := tagged[..|tagged| - 1], tagged[|tagged| - 1];
      var seen := FirstSeen(pre);
      FirstSeenOrder(pre);
      FirstSeenElements(pre);
      assert tagged == pre + [t];
      forall k | 0 <= k < |seen|
        ensures FirstIndex(tagged, seen[k]) == FirstIndex(pre, seen[k])
      {
        FirstIndexSnoc(pre, t, seen[k]);
      }
      if t.cluster != Noise && t.cluster !in seen {
        assert t.cluster !in ClusterLabels(pre);
        assert FirstIndex(pre, t.cluster) == |pre|;
        FirstIndexSnoc(pre, t, t.cluster);
      }
    }
  }

  /** A sequence without repetitions has as many elements as the set of its elements. */
  lemma {:induction false} DistinctCardinality(s: seq<int>)
    requires forall a, b :: 0 <= a < b < |s| ==> s[a] != s[b]
    ensures |set l | l in s| == |s|
    decreases |s|
  {
    if s != [] {
      var pre := s[..|s| - 1];
      DistinctCardinality(pre);
      assert (set l | l in s) == (set l | l in pre) + {s[|s| - 1]};
      assert s[|s| - 1] !in pre;
    }
  }

  lemma PersonNameInjective(a: nat, b: nat)
    ensures PersonName(a) == PersonName(b) ==> a == b
  {
    if PersonName(a) == PersonName(b) {
      assert PersonName(a)[|"Person_"|..] == Decimal.Show(a);
      assert PersonName(b)[|"Person_"|..] == Decimal.Show(b);
      Decimal.ShowInjective(a, b);
    }
  }

  lemma ClusterLabelsOfZip<E>(labels: seq<int>, faceData: seq<FaceRecord<E>>)
    requires |labels| == |faceData|
    ensures ClusterLabels(Zip(labels, faceData)) == NonNoiseLabels(labels)
  {
    var tagged := Zip(labels, faceData);
    forall l | l in NonNoiseLabels(labels)
      ensures l in ClusterLabels(tagged)
    {
      var i :| 0 <= i < |labels| && labels[i] == l;
      assert tagged[i].cluster == l;
    }
  }

  // ---------------------------------------------------------------------------
  // What the folders are

  /**
   * Folder k is named `Person_<k+1>`; the names run from `Person_1` to
   * `Person_<number of folders>` without a gap or a repeat.
   */
  lemma AssignmentNames<E>(labels: Option<seq<int>>, faceData: seq<FaceRecord<E>>)
    ensures var folders := Assignment(labels, faceData);
      && (forall k :: 0 <= k < |folders| ==> folders[k].name == PersonName(k + 1))
      && (forall a, b :: 0 <= a < b < |folders| ==> folders[a].name != folders[b].name)
      && FolderNames(folders) == set n | 1 <= n <= |folders| :: PersonName(n)
  {
    var folders := Assignment(labels, faceData);
    forall a, b | 0 <= a < b < |folders|
      ensures folders[a].name != folders[b].name
    {
      PersonNameInjective(a + 1, b + 1);
    }
    forall name | name in (set n | 1 <= n <= |folders| :: PersonName(n))
      ensures name in FolderNames(folders)
    {
      var n :| 1 <= n <= |folders| && name == PersonName(n);
      assert folders[n - 1].name == name;
    }
  }

  /**
   * The folders stand for distinct labels, never for noise, in the order the
   * labels first occur among the zipped records; and there is a folder for
   * every non-noise label that occurs.
   */
  lemma AssignmentLabels<E>(labels: seq<int>, faceData: seq<FaceRecord<E>>)
    ensures var folders, tagged := Assignment(Some(labels), faceData), Zip(labels, faceData);
      && (forall k :: 0 <= k < |folders| ==> folders[k].cluster != Noise)
      && (forall a, b :: 0 <= a < b < |folders| ==> folders[a].cluster != folders[b].cluster)
      && (forall a, b :: 0 <= a < b < |folders| ==>
            FirstIndex(tagged, folders[a].cluster) < FirstIndex(tagged, folders[b].cluster))
      && (forall k :: 0 <= k < |folders| ==> FirstIndex(tagged, folders[k].cluster) < |tagged|)
      && (forall i :: 0 <= i < |tagged| && labels[i] != Noise ==>
            exists k :: 0 <= k < |folders| && folders[k].cluster == labels[i])
  {
    var folders, tagged := Assignment(Some(labels), faceData), Zip(labels, faceData);
    var order := FirstSeen(tagged);
    FirstSeenElements(tagged);
    FirstSeenDistinct(tagged);
    FirstSeenOrder(tagged);
    forall k | 0 <= k < |folders|
      ensures folders[k].cluster != Noise
    {
      assert order[k] in ClusterLabels(tagged);
    }
    forall i | 0 <= i < |tagged| && labels[i] != Noise
      ensures exists k :: 0 <= k < |folders| && folders[k].cluster == labels[i]
    {
      assert tagged[i].cluster in ClusterLabels(tagged);
      var k :| 0 <= k < |order| && order[k] == labels[i];
      assert folders[k].cluster == labels[i];
    }
  }

  /**
   * The folder of label L receives exactly the paths of the records zipped
   * with L, each once: a noise record's path reaches a folder only when some
   * non-noise record of that folder's label has the same path.
   */
  lemma AssignmentPaths<E>(labels: seq<int>, faceData: seq<FaceRecord<E>>, k: nat, p: Path)
    requires k < |Assignment(Some(labels), faceData)|
    ensures var folder := Assignment(Some(labels), faceData)[k];
      p in folder.paths <==>
        exists i :: 0 <= i < |labels| && i < |faceData| && labels[i] == folder.cluster && faceData[i].path == p
  {
    var folder, tagged := Assignment(Some(labels), faceData)[k], Zip(labels, faceData);
    if p in folder.paths {
      var i :| 0 <= i < |tagged| && tagged[i].cluster == folder.cluster && tagged[i].path == p;
      assert labels[i] == folder.cluster && faceData[i].path == p;
    }
    if exists i :: 0 <= i < |labels| && i < |faceData| && labels[i] == folder.cluster && faceData[i].path == p {
      var i :| 0 <= i < |labels| && i < |faceData| && labels[i] == folder.cluster && faceData[i].path == p;
      assert tagged[i] == Tagged(folder.cluster, p);
    }
  }

  /**
   * No folder is empty: a key of `images_by_cluster` only comes into being
   * when a path is added under it, so every folder has something to copy.
   */
  lemma AssignmentFoldersNonEmpty<E>(labels: seq<int>, faceData: seq<FaceRecord<E>>)
    ensures var folders := Assignment(Some(labels), faceData);
      forall k :: 0 <= k < |folders| ==> folders[k].paths != {}
  {
    var folders, tagged := Assignment(Some(labels), faceData), Zip(labels, faceData);
    FirstSeenOrder(tagged);
    forall k | 0 <= k < |folders|
      ensures folders[k].paths != {}
    {
      var i := FirstIndex(tagged, folders[k].cluster);
      assert tagged[i].path in folders[k].paths;
    }
  }

  /** Every record with a non-noise label has its path in the one folder of its label. */
  lemma AssignmentCoverage<E>(labels: seq<int>, faceData: seq<FaceRecord<E>>, i: nat)
    requires i < |labels| && i < |faceData| && labels[i] != Noise
    ensures var folders := Assignment(Some(labels), faceData);
      exists k :: 0 <= k < |folders| && folders[k].cluster == labels[i] && faceData[i].path in folders[k].paths
  {
    var folders, tagged := Assignment(Some(labels), faceData), Zip(labels, faceData);
    AssignmentLabels(labels, faceData);
    assert tagged[i] == Tagged(labels[i], faceData[i].path);
    var k :| 0 <= k < |folders| && folders[k].cluster == labels[i];
    AssignmentPaths(labels, faceData, k, faceData[i].path);
  }

  /** A path whose every record is noise reaches no folder. */
  lemma NoiseOnlyPathExcluded<E>(labels: seq<int>, faceData: seq<FaceRecord<E>>, p: Path)
    requires forall i :: 0 <= i < |labels| && i < |faceData| && faceData[i].path == p ==> labels[i] == Noise
    ensures forall folder :: folder in Assignment(Some(labels), faceData) ==> p !in folder.paths
  {
    var folders := Assignment(Some(labels), faceData);
    AssignmentLabels(labels, faceData);
    forall folder | folder in folders
      ensures p !in folder.paths
    {
      var k :| 0 <= k < |folders| && folders[k] == folder;
      AssignmentPaths(labels, faceData, k, p);
    }
  }

  /** With one label per record, there are as many folders as `cluster_faces` reports clusters. */
  lemma AssignmentCount<E>(labels: seq<int>, faceData: seq<FaceRecord<E>>)
    requires |labels| == |faceData|
    ensures |Assignment(Some(labels), faceData)| == ClusterCount(labels)
  {
    var tagged := Zip(labels, faceData);
    var order := FirstSeen(tagged);
    FirstSeenElements(tagged);
    FirstSeenDistinct(tagged);
    DistinctCardinality(order);
    ClusterLabelsOfZip(labels, faceData);
    assert (set l | l in order) == NonNoiseLabels(labels);
  }

  /** No folder when clustering gave no labels, or when every label is noise. */
  lemma NoFoldersWithoutClusters<E>(labels: Option<seq<int>>, faceData: seq<FaceRecord<E>>)
    requires labels.None? || forall i :: 0 <= i < |labels.value| ==> labels.value[i] == Noise
    ensures Assignment(labels, faceData) == []
  {
    if labels.Some? {
      var tagged := Zip(labels.value, faceData);
      FirstSeenElements(tagged);
      assert ClusterLabels(tagged) == {};
      var order := FirstSeen(tagged);
      FirstSeenDistinct(tagged);
      DistinctCardinality(order);
      assert (set l | l in order) == {};
    }
  }

  /**
   * Through the whole pipeline: no face data gives no labels and so no
   * folders; otherwise there is one folder per cluster reported.
   */
  lemma PipelineFolderCount<E>(faceData: seq<FaceRecord<E>>, dbscan: seq<E> -> seq<int>)
    requires faceData != [] ==> |dbscan(EncodingsOf(faceData))| == |faceData|
    ensures var labels := ClusterFaces(faceData, dbscan);
      |Assignment(labels, faceData)| == if labels.None? then 0 else ClusterCount(labels.value)
  {
    var labels := ClusterFaces(faceData, dbscan);
    if labels.Some? {
      AssignmentCount(labels.value, faceData);
    }
  }

  /** An image with two faces in one cluster is listed once in that cluster's folder. */
  lemma TwoFacesOneCluster<E>(p: Path, e1: E, e2: E)
    ensures Assignment(Some([0, 0]), [FaceRecord(p, e1), FaceRecord(p, e2)]) == [PersonFolder("Person_1", 0, {p})]
  {
    var tagged := Zip([0, 0], [FaceRecord(p, e1), FaceRecord(p, e2)]);
    assert tagged == [Tagged(0, p), Tagged(0, p)];
    assert tagged[..1] == [Tagged(0, p)];
    assert tagged[..1][..0] == [];
    assert FirstSeen(tagged[..1][..0]) == [];
    assert FirstSeen(tagged[..1]) == [0];
    assert FirstSeen(tagged) == [0];
    assert PathsWith(tagged, 0) == {p};
    assert PersonName(1) == "Person_1" by {
      assert Decimal.Show(1) == "1";
    }
    assert FoldersOf(tagged)[0] == PersonFolder("Person_1", 0, {p});
  }

  /** An image with faces in two clusters is listed in both folders. */
  lemma TwoFacesTwoClusters<E>(p: Path, e1: E, e2: E)
    ensures Assignment(Some([5, 2]), [FaceRecord(p, e1), FaceRecord(p, e2)]) ==
      [PersonFolder("Person_1", 5, {p}), PersonFolder("Person_2", 2, {p})]
  {
    var tagged := Zip([5, 2], [FaceRecord(p, e1), FaceRecord(p, e2)]);
    assert tagged == [Tagged(5, p), Tagged(2, p)];
    assert tagged[..1] == [Tagged(5, p)];
    assert tagged[..1][..0] == [];
    assert FirstSeen(tagged[..1][..0]) == [];
    assert FirstSeen(tagged[..1]) == [5];
    assert FirstSeen(tagged) == [5, 2];
    assert PathsWith(tagged, 5) == {p};
    assert PathsWith(tagged, 2) == {p};
    assert PersonName(1) == "Person_1" by {
      assert Decimal.Show(1) == "1";
    }
    assert PersonName(2) == "Person_2" by {
      assert Decimal.Show(2) == "2";
    }
    assert FoldersOf(tagged)[0] == PersonFolder("Person_1", 5, {p});
    assert FoldersOf(tagged)[1] == PersonFolder("Person_2", 2, {p});
  }

  // ---------------------------------------------------------------------------
  // The imperative reducer

  /** After the first `n` zipped records: what the grouping loop has built so far. */
  ghost predicate GroupedUpTo(tagged: seq<Tagged>, n: nat, imagesByCluster: map<int, set<Path>>, order: seq<int>)
    requires n <= |tagged|
  {
    && imagesByCluster.Keys == ClusterLabels(tagged[..n])
    && (forall l :: l in imagesByCluster ==> imagesByCluster[l] == PathsWith(tagged[..n], l))
    && order == FirstSeen(tagged[..n])
  }

  /** A noise record changes nothing. */
  lemma GroupedNoise(tagged: seq<Tagged>, i: nat, imagesByCluster: map<int, set<Path>>, order: seq<int>)
    requires i < |tagged| && tagged[i].cluster == Noise
    requires GroupedUpTo(tagged, i, imagesByCluster, order)
    ensures GroupedUpTo(tagged, i + 1, imagesByCluster, order)
  {
    var t := tagged[i];
    assert tagged[..i + 1] == tagged[..i] + [t];
    ClusterLabelsSnoc(tagged[..i], t);
    forall l | l in imagesByCluster
      ensures imagesByCluster[l] == PathsWith(tagged[..i + 1], l)
    {
      PathsWithSnoc(tagged[..i], t, l);
    }
  }

  /** Any other record adds its path to its label's set, and a new label to the end of the order. */
  lemma GroupedAdd(tagged: seq<Tagged>, i: nat, imagesByCluster: map<int, set<Path>>, order: seq<int>)
    requires i < |tagged| && tagged[i].cluster != Noise
    requires GroupedUpTo(tagged, i, imagesByCluster, order)
    ensures var cluster, path := tagged[i].cluster, tagged[i].path;
      var group := if cluster in imagesByCluster then imagesByCluster[cluster] else {};
      GroupedUpTo(tagged, i + 1, imagesByCluster[cluster := group + {path}],
                  if cluster in imagesByCluster then order else order + [cluster])
  {
    var t := tagged[i];
    assert tagged[..i + 1] == tagged[..i] + [t];
    ClusterLabelsSnoc(tagged[..i], t);
    FirstSeenElements(tagged[..i]);
    forall l
      ensures PathsWith(tagged[..i + 1], l) == PathsWith(tagged[..i], l) + (if t.cluster == l then {t.path} else {})
    {
      PathsWithSnoc(tagged[..i], t, l);
    }
  }

  /**
   * The grouping loop: fill `images_by_cluster` (a map from label to a set of
   * paths, created empty on first use like a `defaultdict(set)`) and record the
   * order in which its keys are inserted.
   */
  method GroupByCluster<E>(labels: seq<int>, faceData: seq<FaceRecord<E>>)
    returns (imagesByCluster: map<int, set<Path>>, order: seq<int>)
    ensures imagesByCluster.Keys == ClusterLabels(Zip(labels, faceData))
    ensures forall l :: l in imagesByCluster ==> imagesByCluster[l] == PathsWith(Zip(labels, faceData), l)
    ensures order == FirstSeen(Zip(labels, faceData))
  {
    ghost var tagged := Zip(labels, faceData);
    imagesByCluster, order := map[], [];
    var i := 0;
    while i < |labels| && i < |faceData|
      invariant 0 <= i <= |tagged|
      invariant GroupedUpTo(tagged, i, imagesByCluster, order)
    {
      var cluster, path := labels[i], faceData[i].path;
      if cluster != Noise {
        GroupedAdd(tagged, i, imagesByCluster, order);
        if cluster !in imagesByCluster {
          order := order + [cluster];
        }
        var group := if cluster in imagesByCluster then imagesByCluster[cluster] else {};
        imagesByCluster := imagesByCluster[cluster := group + {path}];
      } else {
        GroupedNoise(tagged, i, imagesByCluster, order);
      }
      i := i + 1;
    }
    assert tagged[..i] == tagged;
  }

  /**
   * The copy loop of one person folder. Paths come out of a set, in no
   * particular order; a path is copied only when no file of its basename is
   * in the folder yet.
   */
  method CopyImages(present: set<string>, imagePaths: set<Path>) returns (copied: seq<Path>, after: set<string>)
    ensures after == present + Basenames(imagePaths)
    ensures forall k :: 0 <= k < |copied| ==> copied[k] in imagePaths && Basename(copied[k]) !in present
    ensures forall a, b :: 0 <= a < b < |copied| ==> Basename(copied[a]) != Basename(copied[b])
    ensures forall name :: name in Basenames(imagePaths) && name !in present ==>
      exists k :: 0 <= k < |copied| && Basename(copied[k]) == name
  {
    copied, after := [], present;
    var remaining := imagePaths;
    while remaining != {}
      invariant remaining <= imagePaths
      invariant after == present + Basenames(imagePaths - remaining)
      invariant forall k :: 0 <= k < |copied| ==> copied[k] in imagePaths - remaining && Basename(copied[k]) !in present
      invariant forall a, b :: 0 <= a < b < |copied| ==> Basename(copied[a]) != Basename(copied[b])
      invariant forall name :: name in after && name !in present ==>
        exists k :: 0 <= k < |copied| && Basename(copied[k]) == name
      decreases remaining
    {
      var imagePath :| imagePath in remaining;
      var destName := Basename(imagePath);
      if destName !in after {
        ghost var before := copied;
        copied := copied + [imagePath];
        after := after + {destName};
        assert forall k :: 0 <= k < |before| ==> copied[k] == before[k];
        assert Basename(copied[|before|]) == destName;
      }
      // otherwise: skipping already copied file
      remaining := remaining - {imagePath};
      assert Basenames(imagePaths - remaining) == Basenames(imagePaths - (remaining + {imagePath})) + {destName};
    }
    assert imagePaths - remaining == imagePaths;
  }

  /**
   * The output directory `out` is `outDir` after copying into `folders`: each
   * folder holds what it held before (nothing if it did not exist) plus the
   * basenames of its paths; every other folder is untouched.
   */
  ghost predicate CopiedInto(outDir: map<string, set<string>>, folders: seq<PersonFolder>, out: map<string, set<string>>)
  {
    && out.Keys == outDir.Keys + FolderNames(folders)
    && (forall k :: 0 <= k < |folders| ==>
          out[folders[k].name] == Contents(outDir, folders[k].name) + Basenames(folders[k].paths))
    && (forall name :: name in outDir && name !in FolderNames(folders) ==> out[name] == outDir[name])
  }

  /** Copying into one more folder, with a name not used yet, extends `CopiedInto`. */
  lemma CopiedIntoSnoc(outDir: map<string, set<string>>, folders: seq<PersonFolder>, out: map<string, set<string>>,
                       folder: PersonFolder)
    requires CopiedInto(outDir, folders, out)
    requires folder.name !in FolderNames(folders)
    ensures CopiedInto(outDir, folders + [folder],
                       out[folder.name := Contents(outDir, folder.name) + Basenames(folder.paths)])
  {
    var all := folders + [folder];
    assert all[|folders|] == folder;
    forall k | 0 <= k < |folders|
      ensures all[k] == folders[k]
    {
    }
    assert FolderNames(all) == FolderNames(folders) + {folder.name};
  }

  /** The first `|folders|` labels of `order` are named `Person_1`, `Person_2`, ... with their paths. */
  ghost predicate NamedInOrder(folders: seq<PersonFolder>, order: seq<int>, imagesByCluster: map<int, set<Path>>)
  {
    && |folders| <= |order|
    && forall k :: 0 <= k < |folders| ==>
         order[k] in imagesByCluster &&
         folders[k] == PersonFolder(PersonName(k + 1), order[k], imagesByCluster[order[k]])
  }

  /** The next counter value gives a name not used by the folders named so far. */
  lemma PersonNameFresh(folders: seq<PersonFolder>, order: seq<int>, imagesByCluster: map<int, set<Path>>)
    requires NamedInOrder(folders, order, imagesByCluster)
    ensures PersonName(|folders| + 1) !in FolderNames(folders)
  {
    forall k | 0 <= k < |folders|
      ensures folders[k].name != PersonName(|folders| + 1)
    {
      PersonNameInjective(k + 1, |folders| + 1);
    }
  }

  lemma NamedInOrderSnoc(folders: seq<PersonFolder>, order: seq<int>, imagesByCluster: map<int, set<Path>>)
    requires NamedInOrder(folders, order, imagesByCluster)
    requires |folders| < |order| && order[|folders|] in imagesByCluster
    ensures NamedInOrder(folders + [PersonFolder(PersonName(|folders| + 1), order[|folders|], imagesByCluster[order[|folders|]])],
                         order, imagesByCluster)
  {
  }

  /**
   * The naming and copy loop: the n-th label of `order` becomes folder
   * `Person_<n>`, created if absent, and receives its paths under the skip rule.
   */
  method CopyClusters(order: seq<int>, imagesByCluster: map<int, set<Path>>, outDir: map<string, set<string>>)
    returns (folders: seq<PersonFolder>, out: map<string, set<string>>)
    requires forall k :: 0 <= k < |order| ==> order[k] in imagesByCluster
    ensures |folders| == |order|
    ensures forall k :: 0 <= k < |order| ==>
      folders[k] == PersonFolder(PersonName(k + 1), order[k], imagesByCluster[order[k]])
    ensures CopiedInto(outDir, folders, out)
  {
    folders, out := [], outDir;
    var clusterCount := 0;
    while clusterCount < |order|
      invariant clusterCount == |folders|
      invariant NamedInOrder(folders, order, imagesByCluster)
      invariant CopiedInto(outDir, folders, out)
    {
      var cluster := order[clusterCount];
      var imagePaths := imagesByCluster[cluster];
      clusterCount := clusterCount + 1;
      var personFolderName := PersonName(clusterCount);
      PersonNameFresh(folders, order, imagesByCluster);
      var present := Contents(out, personFolderName);
      assert present == Contents(outDir, personFolderName);
      var _, after := CopyImages(present, imagePaths);
      var folder := PersonFolder(personFolderName, cluster, imagePaths);
      CopiedIntoSnoc(outDir, folders, out, folder);
      NamedInOrderSnoc(folders, order, imagesByCluster);
      folders := folders + [folder];
      out := out[personFolderName := after];
    }
  }

  /** The labels in first-seen order are the keys of the grouping map, and there are none when it is empty. */
  lemma GroupingOrder(tagged: seq<Tagged>, imagesByCluster: map<int, set<Path>>, order: seq<int>)
    requires imagesByCluster.Keys == ClusterLabels(tagged)
    requires order == FirstSeen(tagged)
    ensures forall k :: 0 <= k < |order| ==> order[k] in imagesByCluster
    ensures |imagesByCluster| == 0 ==> order == []
  {
    FirstSeenElements(tagged);
    forall k | 0 <= k < |order|
      ensures order[k] in imagesByCluster
    {
      var l := order[k];
      assert l in FirstSeen(tagged);
      assert l in ClusterLabels(tagged);
    }
    assert |order| > 0 ==> order[0] in imagesByCluster;
  }

  /** Naming the grouped labels in first-seen order gives the folders of the specification. */
  lemma GroupingFolders(tagged: seq<Tagged>, imagesByCluster: map<int, set<Path>>, order: seq<int>,
                        folders: seq<PersonFolder>)
    requires forall l :: l in imagesByCluster ==> imagesByCluster[l] == PathsWith(tagged, l)
    requires order == FirstSeen(tagged)
    requires forall k :: 0 <= k < |order| ==> order[k] in imagesByCluster
    requires |folders| == |order|
    requires forall k :: 0 <= k < |order| ==>
      folders[k] == PersonFolder(PersonName(k + 1), order[k], imagesByCluster[order[k]])
    ensures folders == FoldersOf(tagged)
  {
    var spec := FoldersOf(tagged);
    forall k | 0 <= k < |folders|
      ensures folders[k] == spec[k]
    {
    }
  }

  /**
   * `organize_photos_by_cluster`: group, then name each label `Person_<n>` in
   * first-seen order and copy its paths into that folder under the skip rule.
   * Returns the folders it made and the new contents of the output directory.
   */
  method OrganizePhotosByCluster<E>(labels: Option<seq<int>>, faceData: seq<FaceRecord<E>>, outDir: map<string, set<string>>)
    returns (folders: seq<PersonFolder>, out: map<string, set<string>>)
    ensures folders == Assignment(labels, faceData)
    ensures CopiedInto(outDir, folders, out)
  {
    folders, out := [], outDir;
    if labels.None? {
      return;
    }
    var imagesByCluster, order := GroupByCluster(labels.value, faceData);
    GroupingOrder(Zip(labels.value, faceData), imagesByCluster, order);
    if |imagesByCluster| == 0 {
      // no valid clusters found
      return;
    }
    folders, out := CopyClusters(order, imagesByCluster, outDir);
    GroupingFolders(Zip(labels.value, faceData), imagesByCluster, order, folders);
  }
}
