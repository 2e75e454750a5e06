/**
 * The image-file scan of `find_image_files`: a recursive directory walk,
 * filtered by a case-insensitive test against a fixed list of extensions.
 * The walk itself (`os.walk`) is an input: the sequence of directories it
 * visits, each with the file names it lists there, in the order it yields them.
 */
module ImageFiles {

  /** A file found by the walk: `os.path.join(dir, name)`, kept as its two parts. */
  datatype Path = Path(dir: string, name: string)

  /** `os.path.basename` of a joined path is the file name the walk listed. */
  function Basename(p: Path): string
  {
    p.name
  }

  /** One step of the walk: a directory and the names of the files in it. */
  datatype WalkEntry = WalkEntry(root: string, files: seq<string>)

  /** The supported extensions, in the order the source lists them. */
  const ImageExtensions: seq<string> := [".jpg", ".jpeg", ".png", ".gif", ".bmp", ".tiff"]

  predicate IsUpper(c: char)
  {
    'A' <= c <= 'Z'
  }

  /** Lower-casing of one character (ASCII letters only). */
  function LowerChar(c: char): (r: char)
    ensures !IsUpper(r)
    ensures IsUpper(c) ==> r as int == c as int + 32
    ensures !IsUpper(c) ==> r == c
  {
    if IsUpper(c) then (c as int + 32) as char else c
  }

  function Lower(s: string): (r: string)
    ensures |r| == |s|
    ensures forall i :: 0 <= i < |s| ==> r[i] == LowerChar(s[i])
  {
    if s == [] then [] else [LowerChar(s[0])] + Lower(s[1..])
  }

  predicate EndsWith(s: string, suffix: string)
  {
    |suffix| <= |s| && s[|s| - |suffix|..] == suffix
  }

  /** `str.endswith` given a tuple: true when any one of the suffixes matches. */
  function EndsWithAny(s: string, suffixes: seq<string>): (r: bool)
    ensures r <==> exists k :: 0 <= k < |suffixes| && EndsWith(s, suffixes[k])
  {
    if suffixes == [] then false
    else
      var rest := EndsWithAny(s, suffixes[1..]);
      assert forall k :: 1 <= k < |suffixes| ==> suffixes[k] == suffixes[1..][k - 1];
      EndsWith(s, suffixes[0]) || rest
  }

  /** The filter of `find_image_files`: `filename.lower().endswith(IMAGE_EXTENSIONS)`. */
  function HasImageExtension(filename: string): (r: bool)
    ensures r <==> exists k :: 0 <= k < |ImageExtensions| && EndsWith(Lower(filename), ImageExtensions[k])
  {
    EndsWithAny(Lower(filename), ImageExtensions)
  }

  /** What one listed file contributes: its joined path, if its extension is supported. */
  function Kept(root: string, filename: string): seq<Path>
  {
    if HasImageExtension(filename) then [Path(root, filename)] else []
  }

  /** The paths kept from one directory, in the order its files are listed. */
  function ImagesIn(root: string, files: seq<string>): seq<Path>
    decreases |files|
  {
    if files == [] then []
    else ImagesIn(root, files[..|files| - 1]) + Kept(root, files[|files| - 1])
  }

  /** The list `find_image_files` returns for a whole walk. */
  function ImageFilesOf(walk: seq<WalkEntry>): seq<Path>
    decreases |walk|
  {
    if walk == [] then []
    else
      var last := walk[|walk| - 1];
      ImageFilesOf(walk[..|walk| - 1]) + ImagesIn(last.root, last.files)
  }

  lemma ImagesInPrefix(root: string, files: seq<string>, j: nat)
    requires j < |files|
    ensures ImagesIn(root, files[..j + 1]) == ImagesIn(root, files[..j]) + Kept(root, files[j])
  {
    assert files[..j + 1][..j] == files[..j];
  }

  lemma ImageFilesOfPrefix(walk: seq<WalkEntry>, i: nat)
    requires i < |walk|
    ensures ImageFilesOf(walk[..i + 1]) == ImageFilesOf(walk[..i]) + ImagesIn(walk[i].root, walk[i].files)
  {
    assert walk[..i + 1][..i] == walk[..i];
  }

  /** `find_image_files`: the nested loop that appends every matching file. */
  method FindImageFiles(walk: seq<WalkEntry>) returns (imageFiles: seq<Path>)
    ensures imageFiles == ImageFilesOf(walk)
  {
    imageFiles := [];
    var i := 0;
    while i < |walk|
      invariant 0 <= i <= |walk|
      invariant imageFiles == ImageFilesOf(walk[..i])
    {
      var entry := walk[i];
      ghost var scanned := imageFiles;
      var j := 0;
      while j < |entry.files|
        invariant 0 <= j <= |entry.files|
        invariant imageFiles == scanned + ImagesIn(entry.root, entry.files[..j])
      {
        var filename := entry.files[j];
        if HasImageExtension(filename) {
          imageFiles := imageFiles + [Path(entry.root, filename)];
        }
        ImagesInPrefix(entry.root, entry.files, j);
        j := j + 1;
      }
      assert entry.files[..j] == entry.files;
      ImageFilesOfPrefix(walk, i);
      i := i + 1;
    }
    assert walk[..i] == walk;
  }

  /** The extension test, written out: one of the six suffixes of the lower-cased name. */
  lemma HasImageExtensionIff(filename: string)
    ensures HasImageExtension(filename) <==>
      var lower := Lower(filename);
      EndsWith(lower, ".jpg") || EndsWith(lower, ".jpeg") || EndsWith(lower, ".png") ||
      EndsWith(lower, ".gif") || EndsWith(lower, ".bmp") || EndsWith(lower, ".tiff")
  {
    var lower := Lower(filename);
    if HasImageExtension(filename) {
      var k :| 0 <= k < |ImageExtensions| && EndsWith(lower, ImageExtensions[k]);
    } else {
      assert !EndsWith(lower, ImageExtensions[0]) && !EndsWith(lower, ImageExtensions[1]);
      assert !EndsWith(lower, ImageExtensions[2]) && !EndsWith(lower, ImageExtensions[3]);
      assert !EndsWith(lower, ImageExtensions[4]) && !EndsWith(lower, ImageExtensions[5]);
    }
  }

  lemma LowerIdempotent(s: string)
    ensures Lower(Lower(s)) == Lower(s)
  {
  }

  /** The test does not depend on case: a name and its lower-cased form are kept alike. */
  lemma HasImageExtensionCaseInsensitive(filename: string)
    ensures HasImageExtension(filename) == HasImageExtension(Lower(filename))
  {
    LowerIdempotent(filename);
  }

  /** An upper-case extension is accepted. */
  lemma UpperCaseExtensionKept()
    ensures HasImageExtension("A.JPG")
  {
    assert Lower("A.JPG") == "a.jpg";
    assert EndsWith(Lower("A.JPG"), ImageExtensions[0]);
  }

  /** `.tif` is not in the list: only the six extensions are accepted. */
  lemma UnlistedExtensionDropped()
    ensures !HasImageExtension("a.tif")
  {
    var lower := Lower("a.tif");
    assert lower == "a.tif";
    assert lower[|lower| - 4..] == ".tif";
    HasImageExtensionIff("a.tif");
  }

  /** A path is kept from one directory exactly when it names a listed file with an image extension. */
  lemma {:induction false} ImagesInMembership(root: string, files: seq<string>, p: Path)
    ensures p in ImagesIn(root, files) <==> p.dir == root && p.name in files && HasImageExtension(p.name)
    decreases |files|
  {
    if files != [] {
      var pre := files[..|files| - 1];
      ImagesInMembership(root, pre, p);
      assert files == pre + [files[|files| - 1]];
    }
  }

  /** The walk listed `p`: it visited `p.dir` and found a file named `p.name` there. */
  predicate Lists(entry: WalkEntry, p: Path)
  {
    entry.root == p.dir && p.name in entry.files
  }

  /** A path is in the scan's result exactly when the walk listed it and its extension is supported. */
  lemma {:induction false} ImageFilesMembership(walk: seq<WalkEntry>, p: Path)
    ensures p in ImageFilesOf(walk) <==>
      HasImageExtension(p.name) && exists i :: 0 <= i < |walk| && Lists(walk[i], p)
    decreases |walk|
  {
    if walk != [] {
      var pre := walk[..|walk| - 1];
      var last := walk[|walk| - 1];
      ImageFilesMembership(pre, p);
      ImagesInMembership(last.root, last.files, p);
      assert ImageFilesOf(walk) == ImageFilesOf(pre) + ImagesIn(last.root, last.files);
      assert (exists i :: 0 <= i < |walk| && Lists(walk[i], p)) <==>
             (exists i :: 0 <= i < |pre| && Lists(pre[i], p)) || Lists(last, p) by {
        if exists i :: 0 <= i < |walk| && Lists(walk[i], p) {
          var i :| 0 <= i < |walk| && Lists(walk[i], p);
          if i < |pre| {
            assert pre[i] == walk[i];
          }
        }
        if exists i :: 0 <= i < |pre| && Lists(pre[i], p) {
          var i :| 0 <= i < |pre| && Lists(pre[i], p);
          assert walk[i] == pre[i];
        }
      }
    }
  }

  /** Kept files stay in the order of the files they came from, within a directory ... */
  lemma {:induction false} ImagesInAppend(root: string, files1: seq<string>, files2: seq<string>)
    ensures ImagesIn(root, files1 + files2) == ImagesIn(root, files1) + ImagesIn(root, files2)
    decreases |files2|
  {
    if files2 != [] {
      var pre, last := files2[..|files2| - 1], files2[|files2| - 1];
      var all := files1 + files2;
      var tail := Kept(root, last);
      assert ImagesIn(root, all) == ImagesIn(root, files1 + pre) + tail by {
        assert all[..|all| - 1] == files1 + pre;
        assert all[|all| - 1] == last;
      }
      ImagesInAppend(root, files1, pre);
      assert ImagesIn(root, files2) == ImagesIn(root, pre) + tail;
    } else {
      assert files1 + files2 == files1;
    }
  }

  /** ... and across the directories of the walk. */
  lemma {:induction false} ImageFilesAppend(walk1: seq<WalkEntry>, walk2: seq<WalkEntry>)
    ensures ImageFilesOf(walk1 + walk2) == ImageFilesOf(walk1) + ImageFilesOf(walk2)
    decreases |walk2|
  {
    if walk2 != [] {
      var pre, last := walk2[..|walk2| - 1], walk2[|walk2| - 1];
      var all := walk1 + walk2;
      var tail := ImagesIn(last.root, last.files);
      assert ImageFilesOf(all) == ImageFilesOf(walk1 + pre) + tail by {
        assert all[..|all| - 1] == walk1 + pre;
        assert all[|all| - 1] == last;
      }
      ImageFilesAppend(walk1, pre);
      assert ImageFilesOf(walk2) == ImageFilesOf(pre) + tail;
    } else {
      assert walk1 + walk2 == walk1;
    }
  }
}
