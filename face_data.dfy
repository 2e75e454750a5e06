/**
 * The descriptor accumulation of `extract_face_data`: every face encoding
 * found in an image becomes one record carrying that image's path, in the
 * order of the images.
 *
 * The face detector and encoder are a black box here: `extract` maps an image
 * path to `Some(encodings)`, or to `None` when loading or detection raises, or
 * when no face is found. Encodings are of an opaque type `E`.
 */
module FaceData {
  import opened Wrappers
  import opened ImageFiles

  /** One entry of `face_data`: `{'path': path, 'encoding': encoding}`. */
  datatype FaceRecord<E> = FaceRecord(path: Path, encoding: E)

  /** The encodings an image contributes; none when the extractor gives nothing. */
  function EncodingsFor<E>(extract: Path -> Option<seq<E>>, p: Path): seq<E>
  {
    match extract(p)
    case None => []
    case Some(encodings) => encodings
  }

  /** The records the inner loop appends for one image. */
  function RecordsFor<E>(p: Path, encodings: seq<E>): seq<FaceRecord<E>>
    decreases |encodings|
  {
    if encodings == [] then []
    else RecordsFor(p, encodings[..|encodings| - 1]) + [FaceRecord(p, encodings[|encodings| - 1])]
  }

  /** Exactly one record per encoding, in the order of the encodings, each carrying the image's path. */
  lemma {:induction false} RecordsForShape<E>(p: Path, encodings: seq<E>)
    ensures |RecordsFor(p, encodings)| == |encodings|
    ensures forall k :: 0 <= k < |encodings| ==> RecordsFor(p, encodings)[k] == FaceRecord(p, encodings[k])
    decreases |encodings|
  {
    if encodings != [] {
      RecordsForShape(p, encodings[..|encodings| - 1]);
    }
  }

  /** The list `extract_face_data` returns. */
  function FaceDataOf<E>(imagePaths: seq<Path>, extract: Path -> Option<seq<E>>): seq<FaceRecord<E>>
    decreases |imagePaths|
  {
    if imagePaths == [] then []
    else
      var last := imagePaths[|imagePaths| - 1];
      FaceDataOf(imagePaths[..|imagePaths| - 1], extract) + RecordsFor(last, EncodingsFor(extract, last))
  }

  lemma RecordsForPrefix<E>(p: Path, encodings: seq<E>, j: nat)
    requires j < |encodings|
    ensures RecordsFor(p, encodings[..j + 1]) == RecordsFor(p, encodings[..j]) + [FaceRecord(p, encodings[j])]
  {
    assert encodings[..j + 1][..j] == encodings[..j];
  }

  lemma FaceDataOfPrefix<E>(imagePaths: seq<Path>, extract: Path -> Option<seq<E>>, i: nat)
    requires i < |imagePaths|
    ensures FaceDataOf(imagePaths[..i + 1], extract) ==
      FaceDataOf(imagePaths[..i], extract) + RecordsFor(imagePaths[i], EncodingsFor(extract, imagePaths[i]))
  {
    assert imagePaths[..i + 1][..i] == imagePaths[..i];
  }

  /** `extract_face_data`: the loop over the images and, per image, over its encodings. */
  method ExtractFaceData<E>(imagePaths: seq<Path>, extract: Path -> Option<seq<E>>)
    returns (faceData: seq<FaceRecord<E>>)
    ensures faceData == FaceDataOf(imagePaths, extract)
  {
    faceData := [];
    for i := 0 to |imagePaths|
      invariant faceData == FaceDataOf(imagePaths[..i], extract)
    {
      var imagePath := imagePaths[i];
      FaceDataOfPrefix(imagePaths, extract, i);
      match extract(imagePath)
      case None =>
        // no face found, or the image could not be processed: skipped
      case Some(faceEncodings) =>
        for j := 0 to |faceEncodings|
          invariant faceData == FaceDataOf(imagePaths[..i], extract) + RecordsFor(imagePath, faceEncodings[..j])
        {
          RecordsForPrefix(imagePath, faceEncodings, j);
          faceData := faceData + [FaceRecord(imagePath, faceEncodings[j])];
        }
        assert faceEncodings[..|faceEncodings|] == faceEncodings;
    }
    assert imagePaths[..|imagePaths|] == imagePaths;
  }

  /** Records follow the order of the images: the result for a concatenation is the concatenation. */
  lemma {:induction false} FaceDataAppend<E>(paths1: seq<Path>, paths2: seq<Path>, extract: Path -> Option<seq<E>>)
    ensures FaceDataOf(paths1 + paths2, extract) == FaceDataOf(paths1, extract) + FaceDataOf(paths2, extract)
    decreases |paths2|
  {
    if paths2 != [] {
      var pre, last := paths2[..|paths2| - 1], paths2[|paths2| - 1];
      var all := paths1 + paths2;
      var tail := RecordsFor(last, EncodingsFor(extract, last));
      assert FaceDataOf(all, extract) == FaceDataOf(paths1 + pre, extract) + tail by {
        assert all[..|all| - 1] == paths1 + pre;
        assert all[|all| - 1] == last;
      }
      FaceDataAppend(paths1, pre, extract);
      assert FaceDataOf(paths2, extract) == FaceDataOf(pre, extract) + tail;
    } else {
      assert paths1 + paths2 == paths1;
    }
  }

  /**
   * The block of records for an image sits between those of the images before
   * and after it.
   */
  lemma FaceDataAt<E>(before: seq<Path>, imagePath: Path, after: seq<Path>, extract: Path -> Option<seq<E>>)
    ensures FaceDataOf(before + [imagePath] + after, extract) ==
      FaceDataOf(before, extract)
      + RecordsFor(imagePath, EncodingsFor(extract, imagePath))
      + FaceDataOf(after, extract)
  {
    assert FaceDataOf([imagePath], extract) == RecordsFor(imagePath, EncodingsFor(extract, imagePath)) by {
      assert [imagePath][..0] == [];
    }
    FaceDataAppend(before + [imagePath], after, extract);
    FaceDataAppend(before, [imagePath], extract);
  }

  /** A record is produced exactly for each encoding the extractor returns for a scanned image. */
  lemma {:induction false} FaceDataMembership<E>(imagePaths: seq<Path>, extract: Path -> Option<seq<E>>, r: FaceRecord<E>)
    ensures r in FaceDataOf(imagePaths, extract) <==>
      r.path in imagePaths && r.encoding in EncodingsFor(extract, r.path)
    decreases |imagePaths|
  {
    if imagePaths != [] {
      var pre, last := imagePaths[..|imagePaths| - 1], imagePaths[|imagePaths| - 1];
      FaceDataMembership(pre, extract, r);
      var block := RecordsFor(last, EncodingsFor(extract, last));
      RecordsForShape(last, EncodingsFor(extract, last));
      assert r in block <==> r.path == last && r.encoding in EncodingsFor(extract, last) by {
        if r in block {
          var k :| 0 <= k < |block| && block[k] == r;
        }
        if r.path == last && r.encoding in EncodingsFor(extract, last) {
          var k :| 0 <= k < |EncodingsFor(extract, last)| && EncodingsFor(extract, last)[k] == r.encoding;
          assert block[k] == r;
        }
      }
      assert imagePaths == pre + [last];
    }
  }

  /** An image that raises or has no face contributes no record. */
  lemma SkippedImageHasNoRecords<E>(imagePaths: seq<Path>, extract: Path -> Option<seq<E>>, p: Path)
    requires extract(p).None?
    ensures forall r :: r in FaceDataOf(imagePaths, extract) ==> r.path != p
  {
    forall r | r in FaceDataOf(imagePaths, extract)
      ensures r.path != p
    {
      FaceDataMembership(imagePaths, extract, r);
    }
  }
}
