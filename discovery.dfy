/**
 * How the file-system indexers find a category's photos: `dir.glob("*" + ext)`
 * and `dir.glob("*" + ext.upper())` for each supported extension, first in the
 * category directory and then in each of its subdirectories, followed (where
 * the indexer does so) by the newest-first sort on modification time.
 */
module Discovery {
  import opened Wrappers
  import opened Text
  import opened Sorting
  import Exif
  import Imaging

  /**
   * A file in the source tree: its name, `stat().st_mtime`, the local date of
   * that time, the EXIF tags exifread reports (None where `open` or
   * `exifread.process_file` raises), and what `Image.open` yields (None where
   * it raises).
   */
  datatype SourceFile = SourceFile(
    name: string,
    mtime: real,
    mtimeDate: Exif.Date,
    tags: Option<Exif.Tags>,
    image: Option<Imaging.Image>)

  /** A subdirectory of a category directory and its files, in listing order. */
  datatype Subfolder = Subfolder(name: string, files: seq<SourceFile>)

  /** A category directory: its own files and its subdirectories, in listing order. */
  datatype Folder = Folder(files: seq<SourceFile>, subfolders: seq<Subfolder>)

  /** The directories under the source root that exist, by their path relative to it. */
  type Tree = map<string, Folder>

  /** A found file together with `file_path.parent.name`. */
  datatype Candidate = Candidate(parent: string, file: SourceFile)

  /** `dir.glob("*" + ext)`: the files whose name ends in `ext`, in listing order. */
  function Glob(parent: string, files: seq<SourceFile>, ext: string): seq<Candidate>
    decreases |files|
  {
    if files == [] then []
    else
      var f := files[|files| - 1];
      Glob(parent, files[..|files| - 1], ext) + (if EndsWith(f.name, ext) then [Candidate(parent, f)] else [])
  }

  /** The extension loop over one directory: each extension as given, then upper-cased. */
  function GlobFormats(parent: string, files: seq<SourceFile>, formats: seq<string>): seq<Candidate>
    decreases |formats|
  {
    if formats == [] then []
    else
      var ext := formats[|formats| - 1];
      GlobFormats(parent, files, formats[..|formats| - 1]) + Glob(parent, files, ext) + Glob(parent, files, Upper(ext))
  }

  /** The subdirectory loop: each subdirectory's extension loop, in listing order. */
  function SubfolderMatches(subfolders: seq<Subfolder>, formats: seq<string>): seq<Candidate>
    decreases |subfolders|
  {
    if subfolders == [] then []
    else
      var sub := subfolders[|subfolders| - 1];
      SubfolderMatches(subfolders[..|subfolders| - 1], formats) + GlobFormats(sub.name, sub.files, formats)
  }

  /** The `photo_files` list of a category directory at relative path `directory`. */
  function PhotoFiles(directory: string, folder: Folder, formats: seq<string>): seq<Candidate>
  {
    GlobFormats(LastField(directory, '/'), folder.files, formats) + SubfolderMatches(folder.subfolders, formats)
  }

  /** The extension loop over one directory (`for ext in formats: photo_files.extend(...)` twice). */
  method GlobEach(parent: string, files: seq<SourceFile>, formats: seq<string>) returns (found: seq<Candidate>)
    ensures found == GlobFormats(parent, files, formats)
  {
    found := [];
    for i := 0 to |formats|
      invariant found == GlobFormats(parent, files, formats[..i])
    {
      assert formats[..i + 1][..i] == formats[..i];
      found := found + Glob(parent, files, formats[i]);
      found := found + Glob(parent, files, Upper(formats[i]));
    }
    assert formats[..|formats|] == formats;
  }

  /** The category directory's extension loop, then the same loop in each subdirectory. */
  method FindPhotoFiles(directory: string, folder: Folder, formats: seq<string>) returns (found: seq<Candidate>)
    ensures found == PhotoFiles(directory, folder, formats)
  {
    found := GlobEach(LastField(directory, '/'), folder.files, formats);
    ghost var direct := found;
    var subs := folder.subfolders;
    for j := 0 to |subs|
      invariant found == direct + SubfolderMatches(subs[..j], formats)
    {
      var more := GlobEach(subs[j].name, subs[j].files, formats);
      SubfolderStep(direct, subs, j, formats);
      found := found + more;
    }
    assert subs[..|subs|] == subs;
  }

  /** One step of the subdirectory loop: subdirectory `j`'s matches go at the end. */
  lemma SubfolderStep(direct: seq<Candidate>, subs: seq<Subfolder>, j: nat, formats: seq<string>)
    requires j < |subs|
    ensures direct + SubfolderMatches(subs[..j + 1], formats)
      == (direct + SubfolderMatches(subs[..j], formats)) + GlobFormats(subs[j].name, subs[j].files, formats)
  {
    assert subs[..j + 1][..j] == subs[..j];
    assert subs[..j + 1][j] == subs[j];
  }

  // ---------------------------------------------------------------------
  // What is found
  // ---------------------------------------------------------------------

  /** The name ends in one of the extensions, as written or upper-cased. */
  predicate MatchesFormat(name: string, formats: seq<string>)
  {
    exists i :: 0 <= i < |formats| && (EndsWith(name, formats[i]) || EndsWith(name, Upper(formats[i])))
  }

  lemma {:induction false} GlobMembers(parent: string, files: seq<SourceFile>, ext: string, c: Candidate)
    ensures c in Glob(parent, files, ext) <==> c.parent == parent && c.file in files && EndsWith(c.file.name, ext)
    decreases |files|
  {
    if files != [] {
      var init := files[..|files| - 1];
      GlobMembers(parent, init, ext, c);
      assert files == init + [files[|files| - 1]];
    }
  }

  lemma {:induction false} GlobFormatsMembers(parent: string, files: seq<SourceFile>, formats: seq<string>, c: Candidate)
    ensures c in GlobFormats(parent, files, formats)
      <==> c.parent == parent && c.file in files && MatchesFormat(c.file.name, formats)
    decreases |formats|
  {
    if formats != [] {
      var init := formats[..|formats| - 1];
      var ext := formats[|formats| - 1];
      GlobFormatsMembers(parent, files, init, c);
      GlobMembers(parent, files, ext, c);
      GlobMembers(parent, files, Upper(ext), c);
      if MatchesFormat(c.file.name, formats) {
        var i :| 0 <= i < |formats| && (EndsWith(c.file.name, formats[i]) || EndsWith(c.file.name, Upper(formats[i])));
        if i < |init| {
          assert init[i] == formats[i];
          assert MatchesFormat(c.file.name, init);
        }
      }
      if MatchesFormat(c.file.name, init) {
        var i :| 0 <= i < |init| && (EndsWith(c.file.name, init[i]) || EndsWith(c.file.name, Upper(init[i])));
        assert formats[i] == init[i];
      }
      if EndsWith(c.file.name, ext) || EndsWith(c.file.name, Upper(ext)) {
        assert formats[|formats| - 1] == ext;
      }
    }
  }

  /** `c` is a match inside subdirectory `sub`. */
  predicate FoundIn(sub: Subfolder, formats: seq<string>, c: Candidate)
  {
    c.parent == sub.name && c.file in sub.files && MatchesFormat(c.file.name, formats)
  }

  lemma {:induction false} SubfolderMembers(subfolders: seq<Subfolder>, formats: seq<string>, c: Candidate)
    ensures c in SubfolderMatches(subfolders, formats)
      <==> exists k :: 0 <= k < |subfolders| && FoundIn(subfolders[k], formats, c)
    decreases |subfolders|
  {
    if subfolders != [] {
      var init := subfolders[..|subfolders| - 1];
      var sub := subfolders[|subfolders| - 1];
      SubfolderMembers(init, formats, c);
      GlobFormatsMembers(sub.name, sub.files, formats, c);
      if c in SubfolderMatches(init, formats) {
        var k :| 0 <= k < |init| && FoundIn(init[k], formats, c);
        assert subfolders[k] == init[k];
      }
      if exists k :: 0 <= k < |subfolders| && FoundIn(subfolders[k], formats, c) {
        var k :| 0 <= k < |subfolders| && FoundIn(subfolders[k], formats, c);
        if k < |init| {
          assert init[k] == subfolders[k];
        } else {
          assert subfolders[k] == sub;
        }
      }
    }
  }

  /**
   * A file is found exactly when its name ends in a supported extension (as
   * written or upper-cased) and it lies in the category directory, found with
   * that directory's name as parent, or in one of its subdirectories, found
   * with the subdirectory's name.
   */
  lemma PhotoFilesMembers(directory: string, folder: Folder, formats: seq<string>, c: Candidate)
    ensures c in PhotoFiles(directory, folder, formats)
      <==> MatchesFormat(c.file.name, formats)
           && ((c.parent == LastField(directory, '/') && c.file in folder.files)
               || exists k :: 0 <= k < |folder.subfolders| && FoundIn(folder.subfolders[k], formats, c))
  {
    GlobFormatsMembers(LastField(directory, '/'), folder.files, formats, c);
    SubfolderMembers(folder.subfolders, formats, c);
  }

  // ---------------------------------------------------------------------
  // Newest first
  // ---------------------------------------------------------------------

  function Mtime(c: Candidate): real { c.file.mtime }

  predicate RealLess(a: real, b: real) { a < b }

  /** `photo_files.sort(key=lambda x: x.stat().st_mtime, reverse=True)` */
  function SortByMtime(files: seq<Candidate>): (r: seq<Candidate>)
    ensures multiset(r) == multiset(files) && |r| == |files|
    ensures SortedDesc(r, Mtime, RealLess)
    ensures forall t :: WithKey(r, Mtime, t) == WithKey(files, Mtime, t)
  {
    assert StrictTotalOrder(RealLess);
    SortDescPermutation(files, Mtime, RealLess);
    SortDescSorted(files, Mtime, RealLess);
    forall t { SortDescStable(files, Mtime, RealLess, t); }
    SortDesc(files, Mtime, RealLess)
  }

  /** After the sort, no file is older than a file after it. */
  lemma NewestFirst(files: seq<Candidate>, i: nat, j: nat)
    requires i < j < |SortByMtime(files)|
    ensures SortByMtime(files)[i].file.mtime >= SortByMtime(files)[j].file.mtime
  {
    var r := SortByMtime(files);
    assert !RealLess(Mtime(r[i]), Mtime(r[j]));
  }
}
