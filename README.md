# Sorting photos by face: a Dafny model

This project models the core of `sort_faces.py`, a tool that sorts a photo collection into one folder per person. It scans a directory tree for image files and collects one face encoding per detected face, each tagged with its image's path. It clusters the encodings with DBSCAN, which gives one integer label per face, with `-1` for noise. It then copies every image into the folder `Person_<n>` of each cluster its faces fall into.

The model keeps everything in that pipeline that is logic rather than I/O or a foreign library:

- **ImageFiles** (`image_files.dfy`): the scan of `find_image_files` (a nested loop over the walk's directories and files) and its case-insensitive extension test against `.jpg .jpeg .png .gif .bmp .tiff`. The directory walk is an input: a sequence of `(root, files)` entries. A joined path is kept as the pair `Path(dir, name)`, so `os.path.basename` of it is `name`.
- **FaceData** (`face_data.dfy`): the accumulation loop of `extract_face_data`. The face detector/encoder is a parameter `extract: Path -> Option<seq<E>>`. It gives `None` when the image raises or has no face. Encodings have an opaque type `E`.
- **Clustering** (`clustering.dfy`): the empty-input short cut of `cluster_faces` and its reported cluster count. DBSCAN is a parameter `seq<E> -> seq<int>`.
- **Decimal** (`decimal.dfy`): the decimal rendering of the counter in `f"Person_{cluster_count}"`, with a round trip that makes the folder names injective.
- **Organize** (`organize.dfy`): the reducer of `organize_photos_by_cluster`. A loop walks the labels and records together, as `zip` does. It fills a map from label to a set of paths and records the first-seen order of labels; Python's dict keeps that order, while a Dafny map does not. A second loop names the labels `Person_1`, `Person_2`, … and copies each folder's paths under the skip rule. The output directory is modelled as a map from folder name to the set of file names it holds.

Each loop but one is a method proved equal to a specification function (`ImageFilesOf`, `FaceDataOf`, `Assignment`), and the properties are lemmas about those functions. The exception is the copy loop `CopyImages`: it takes paths from a set in no fixed order, so its result is pinned down by relations (which names end up in the folder, which paths were copied, at most one copy per basename) rather than by a function.

Two behaviours of the code are modelled as written, where a reader might expect otherwise:

- Noise faces are dropped, not put in an "unclustered" folder.
- Two images with the same basename in one cluster are not disambiguated. The second one met is skipped, and the model does not say which one that is.

## Model

| member | source | states |
|---|---|---|
| `ImageFiles.EndsWithAny` | sort_faces.py:34 | `str.endswith` with a tuple: true exactly when some suffix in the tuple matches |
| `ImageFiles.Lower` | sort_faces.py:34 | `str.lower` on ASCII: same length, each upper-case letter mapped to its lower-case letter, every other character unchanged |
| `ImageFiles.HasImageExtension` | sort_faces.py:34 | a file name is kept exactly when its lower-cased form ends with some entry of `IMAGE_EXTENSIONS` |
| `ImageFiles.HasImageExtensionIff` | sort_faces.py:15 | a file name is kept exactly when its lower-cased form ends with one of `.jpg`, `.jpeg`, `.png`, `.gif`, `.bmp`, `.tiff` |
| `ImageFiles.HasImageExtensionCaseInsensitive` | sort_faces.py:34 | the extension test gives the same answer for a name and for its lower-cased form |
| `ImageFiles.UpperCaseExtensionKept` | sort_faces.py:34 | an upper-case `.JPG` name is kept |
| `ImageFiles.UnlistedExtensionDropped` | sort_faces.py:15 | a `.tif` name is not kept: only the six listed extensions count |
| `ImageFiles.FindImageFiles` | sort_faces.py:28-37 | the nested scan loop returns exactly `ImageFilesOf(walk)` |
| `ImageFiles.ImagesInMembership` | sort_faces.py:33-35 | a path is kept from a directory exactly when the directory lists it and its extension is supported |
| `ImageFiles.ImageFilesMembership` | sort_faces.py:32-35 | a path is in the scan result exactly when some walk entry lists it and its extension is supported |
| `ImageFiles.ImagesInAppend` | sort_faces.py:33-35 | within one directory, kept files keep their input order: filtering distributes over concatenation |
| `ImageFiles.ImageFilesAppend` | sort_faces.py:32-35 | across directories, results keep the walk's order: the scan distributes over concatenation of walks |
| `FaceData.RecordsForShape` | sort_faces.py:63-64 | an image with n encodings yields exactly n records, in encoding order, each carrying that image's path |
| `FaceData.ExtractFaceData` | sort_faces.py:39-70 | the accumulation loop returns exactly `FaceDataOf(imagePaths, extract)` |
| `FaceData.FaceDataAppend` | sort_faces.py:45-64 | records follow image order: the records for a concatenation of image lists are the concatenated records |
| `FaceData.FaceDataAt` | sort_faces.py:45-64 | an image's block of records sits between the blocks of the images before and after it |
| `FaceData.FaceDataMembership` | sort_faces.py:45-67 | a record is present exactly when its path is a scanned image and its encoding is one the extractor returned for that image |
| `FaceData.SkippedImageHasNoRecords` | sort_faces.py:53-55 | an image that raises or has no face contributes no record |
| `Clustering.ClusterCount` | sort_faces.py:87 | `len(set(labels)) - (1 if -1 in labels else 0)` equals the number of distinct labels other than -1 |
| `Clustering.ClusterCountExamples` | sort_faces.py:87 | repeated labels count once and noise never counts |
| `Clustering.EncodingsOf` | sort_faces.py:79 | the array handed to DBSCAN has one encoding per record, the i-th being the i-th record's encoding |
| `Decimal.Show` | sort_faces.py:115 | `str` of the counter: non-empty, all decimal digits, no leading zero for a positive counter |
| `Decimal.ValueOfShow` | sort_faces.py:115 | the decimal rendering of the counter reads back as the counter |
| `Decimal.ShowInjective` | sort_faces.py:115 | distinct counters render differently |
| `Organize.PersonName` | sort_faces.py:115 | the folder name is `Person_` followed by decimal digits, with no leading zero for a positive counter, that read back as the counter |
| `Organize.PersonNameInjective` | sort_faces.py:115 | distinct counters give distinct folder names `Person_<n>` |
| `Organize.Zip` | sort_faces.py:103 | `zip` stops at the shorter input: the pairs are as many as the shorter of labels and records, and the i-th pairs the i-th label with the i-th record's path |
| `Organize.FirstIndex` | sort_faces.py:103-105 | the position of a label's first record: it carries the label and no earlier record does |
| `Organize.FirstSeen` | sort_faces.py:102-105 | the dict's key order has at most one entry per zipped record and never holds the noise label |
| `Organize.FirstSeenElements` | sort_faces.py:102-105 | the dict's key order lists exactly the non-noise labels that occur |
| `Organize.FirstSeenDistinct` | sort_faces.py:102-105 | each label appears once in the key order |
| `Organize.FirstSeenOrder` | sort_faces.py:102-105 | the key order is the order in which labels first occur among the zipped records |
| `Organize.GroupByCluster` | sort_faces.py:101-105 | the grouping loop builds a map whose keys are the non-noise labels, whose value for L is the set of paths zipped with L, and the first-seen key order |
| `Organize.CopyImages` | sort_faces.py:121-129 | afterwards the folder holds its old names plus every basename of its paths; each copied path had a basename not yet present; at most one copy per basename; every new basename comes from a copy |
| `Organize.CopyClusters` | sort_faces.py:111-129 | the k-th label in order becomes folder `Person_<k+1>` with that label's paths, and the output directory is updated as `CopiedInto` says |
| `Organize.OrganizePhotosByCluster` | sort_faces.py:92-133 | the folders made are exactly `Assignment(labels, faceData)`; each folder gains the basenames of its paths and keeps what it held; other folders are untouched |
| `Organize.Assignment` | sort_faces.py:94-115 | the folders of the reducer: none when there are no labels, and never more than there are labels or records |
| `Organize.AssignmentNames` | sort_faces.py:112-115 | folder k is named `Person_<k+1>`; the names are pairwise distinct and are exactly `Person_1` … `Person_<number of folders>` |
| `Organize.AssignmentLabels` | sort_faces.py:102-115 | no folder stands for noise; folders stand for distinct labels, ordered by first occurrence; each folder's label is carried by some zipped record; every non-noise zipped label has a folder |
| `Organize.AssignmentPaths` | sort_faces.py:102-105 | a folder holds path p exactly when some zipped record with the folder's label has path p |
| `Organize.AssignmentFoldersNonEmpty` | sort_faces.py:102-105 | every folder has at least one path to copy: a key enters `images_by_cluster` only when a path is added under it |
| `Organize.AssignmentCoverage` | sort_faces.py:103-105 | every non-noise record's path is in the folder of its label |
| `Organize.NoiseOnlyPathExcluded` | sort_faces.py:104 | a path whose every record is noise is in no folder |
| `Organize.AssignmentCount` | sort_faces.py:87 | with one label per record, the number of folders equals the reported cluster count |
| `Organize.NoFoldersWithoutClusters` | sort_faces.py:94-96 | no folder is produced when there are no labels or when every label is -1 |
| `Organize.PipelineFolderCount` | sort_faces.py:72-90 | through `cluster_faces`: empty face data gives no folder; otherwise there are as many folders as reported clusters |
| `Organize.TwoFacesOneCluster` | sort_faces.py:102 | an image with two faces in one cluster is listed once in that cluster's folder |
| `Organize.TwoFacesTwoClusters` | sort_faces.py:102-115 | an image with faces in two clusters is listed in both folders, named in first-seen order |

Four functions are plain definitions, with their promises stated by the rows above:
- `ImageFiles.Basename` is `os.path.basename` (sort_faces.py:123). `Organize.CopyImages` states what it means for the skip rule.
- `Organize.Contents` is what a person folder holds after `os.makedirs(..., exist_ok=True)`, as the `os.path.exists` test sees it (sort_faces.py:117, 125). `Organize.CopyImages` and `Organize.OrganizePhotosByCluster` state what it means.
- `FaceData.EncodingsFor` folds the `try`/`except` and the no-face `continue` into "no encodings" (sort_faces.py:47-67). `FaceData.FaceDataMembership` and `FaceData.SkippedImageHasNoRecords` state what it means.
- `Clustering.ClusterFaces` is `cluster_faces` (sort_faces.py:72-90). `Organize.PipelineFolderCount` states what its short cut means.

## Left out

- DBSCAN (sort_faces.py:83-86) is a foreign library working on floating-point distances, run in parallel. It is the parameter `dbscan`. `PipelineFolderCount` assumes it returns one label per encoding for a non-empty corpus; it is never called on an empty one.
- `eps` and `min_samples` (sort_faces.py:20-23, 144-145, 155-156) are folded into the parameter `dbscan`. The code does not check them before `DBSCAN(...)` at sort_faces.py:83, and the model says nothing about them.
- Face detection and encoding via `face_recognition` (sort_faces.py:49-59) is a foreign call on image bytes. It is the parameter `extract`, and encodings are opaque.
- `os.walk` is an input, not a directory traversal. `os.path.join` is the pair `Path(dir, name)`. Taking `name` as the basename relies on walk file names containing no separator.
- File contents are not modelled, nor are `shutil.copy2` and its metadata preservation. A copy only adds the destination's name to its folder's set.
- Lower: lower-cases ASCII letters only, where Python's `str.lower` also lower-cases non-ASCII letters. This changes the lowered name but not the extension test's answer: the one non-ASCII upper-case letter that lower-cases to an ASCII letter is the Kelvin sign (to `k`), and no listed extension contains `k`; U+0130 lower-cases to two characters, the second of which is the non-ASCII U+0307. This argument is not proved in the model.
- CopyImages: every attempted copy is taken to succeed. The `except` branch (sort_faces.py:130-131) logs a failed copy and goes on; that failure is not modelled. The set's iteration order is a nondeterministic choice, so the model does not say which of two same-basename paths is copied.
- OrganizePhotosByCluster: the creation of the output root itself (sort_faces.py:99) is not modelled. A person folder is created empty when absent, as `exist_ok=True` allows.
- Logging, `argparse`, the `__main__` flow, exit codes and rebinding the DBSCAN parameters from the command line (sort_faces.py:138-177) are left out. They are scaffolding around the modelled functions.
