/**
 * The GitHub Releases manifest generator: every image directly under
 * `portfolio/` becomes one record whose URLs both point at the release asset
 * of the same name, with a category guessed from the file name and a title
 * taken from the last '_'-separated part of the stem. No image is opened.
 */
module GeneratePhotos {
  import opened Wrappers
  import opened Text
  import opened Sorting
  import opened Manifest
  import opened Naming
  import Exif

  const USERNAME := "jodiejacobs"
  const REPO := "jodiejacobs-photography"
  const RELEASE_TAG := "v1.0.0"
  const BASE_URL := "https://github.com/" + USERNAME + "/" + REPO + "/releases/download/" + RELEASE_TAG

  const STREET := "street"
  const FACES := "faces"
  const NATURE := "nature"

  /** The six patterns globbed (case-sensitively), as suffixes of the name. */
  const IMAGE_EXTENSIONS: set<string> := {".jpg", ".jpeg", ".png", ".JPG", ".JPEG", ".PNG"}

  // ---------------------------------------------------------------------
  // URLs
  // ---------------------------------------------------------------------

  /** `generate_github_url` */
  function GithubUrl(filename: string): string
  {
    BASE_URL + "/" + filename
  }

  /** The URL lies under the release, names the file as its last path segment, and differs for different files. */
  lemma GithubUrlFacts(filename: string, other: string)
    requires forall i :: 0 <= i < |filename| ==> filename[i] != '/'
    ensures StartsWith(GithubUrl(filename), BASE_URL + "/")
    ensures Basename(GithubUrl(filename)) == filename
    ensures GithubUrl(filename) == GithubUrl(other) ==> filename == other
  {
    var head := BASE_URL + "/";
    assert GithubUrl(filename) == head + filename;
    assert GithubUrl(filename)[..|head|] == head;
    LastFieldAfterSep(head, filename, '/');
    if GithubUrl(filename) == GithubUrl(other) {
      assert filename == GithubUrl(filename)[|head|..] == GithubUrl(other)[|head|..] == other;
    }
  }

  // ---------------------------------------------------------------------
  // Category and title
  // ---------------------------------------------------------------------

  /** `extract_category_from_filename`: the first keyword family found in the lower-cased name. */
  function Classify(filename: string): string
  {
    var l := Lower(filename);
    if Contains(l, "street") then STREET
    else if Contains(l, "face") || Contains(l, "portrait") then FACES
    else if Contains(l, "nature") || Contains(l, "landscape") then NATURE
    else STREET
  }

  /**
   * The category is always one of the three; 'street' wins over every other
   * keyword, faces over nature, and a name with no keyword is street.
   */
  lemma ClassifyFacts(filename: string)
    ensures Classify(filename) in {STREET, FACES, NATURE}
    ensures var l := Lower(filename);
      && (Classify(filename) == FACES <==> !Contains(l, "street") && (Contains(l, "face") || Contains(l, "portrait")))
      && (Classify(filename) == NATURE <==>
            !Contains(l, "street") && !Contains(l, "face") && !Contains(l, "portrait")
            && (Contains(l, "nature") || Contains(l, "landscape")))
      && (Contains(l, "street") ==> Classify(filename) == STREET)
  {
  }

  /** Lower-casing twice is lower-casing once. */
  lemma LowerIdempotent(s: string)
    ensures Lower(Lower(s)) == Lower(s)
  {
  }

  /** The classifier ignores case. */
  lemma ClassifyIgnoresCase(filename: string)
    ensures Classify(Lower(filename)) == Classify(filename)
  {
    LowerIdempotent(filename);
  }

  /** `extract_info_from_filename`: the title and the category. */
  function ExtractInfo(filename: string): (string, string)
  {
    var stem := PathStem(filename);
    var parts := Split(stem, '_');
    var title := if |parts| >= 3 then Upper(parts[|parts| - 1]) else stem;
    (title, Classify(filename))
  }

  /**
   * With two or more '_' in the stem the title is the part after the last
   * '_', upper-cased; otherwise it is the stem itself. The category is the
   * keyword classifier's.
   */
  lemma ExtractInfoFacts(filename: string)
    ensures var stem := PathStem(filename);
      && (CountChar(stem, '_') >= 2 ==> ExtractInfo(filename).0 == Upper(LastField(stem, '_')))
      && (CountChar(stem, '_') < 2 ==> ExtractInfo(filename).0 == stem)
      && ExtractInfo(filename).1 == Classify(filename)
  {
    SplitFacts(PathStem(filename), '_');
  }

  /**
   * A name `{a}_{b}_{c}.{e}` whose parts hold no '_' or '.' (the shape the
   * indexers write, `street_001_dscf2561.jpg`) has the stem `{a}_{b}_{c}`
   * and the title `c` upper-cased.
   */
  lemma ExtractInfoPattern(a: string, b: string, c: string, e: string)
    requires Free(a, '_') && Free(b, '_') && Free(c, '_')
    requires Free(a, '.') && Free(b, '.') && Free(c, '.') && Free(e, '.') && e != []
    ensures PathStem(a + "_" + b + "_" + c + "." + e) == a + "_" + b + "_" + c
    ensures ExtractInfo(a + "_" + b + "_" + c + "." + e).0 == Upper(c)
  {
    var ab := a + "_" + b;
    var stem := ab + "_" + c;
    var name := stem + "." + e;
    assert name == a + "_" + b + "_" + c + "." + e;
    assert name[|stem|] == '.';
    forall j | 0 <= j < |stem| ensures name[j] != '.' {
      assert name[j] == stem[j];
      if j < |ab| {
        assert stem[j] == ab[j];
        if j > |a| { assert ab[j] == b[j - |a| - 1]; }
      } else if j > |ab| {
        assert stem[j] == c[j - |ab| - 1];
      }
    }
    forall j | |stem| < j < |name| ensures name[j] != '.' {
      assert name[j] == e[j - |stem| - 1];
    }
    assert LastIndexOf(name, '.') == Some(|stem|);
    assert name[..|stem|] == stem;
    JoinSplitOne(a, '_');
    assert a + "_" + b == a + ['_'] + b && ab + "_" + c == ab + ['_'] + c;
    SplitAppend(a, b, '_');
    SplitAppend(ab, c, '_');
  }

  // ---------------------------------------------------------------------
  // The scan
  // ---------------------------------------------------------------------

  /** A name one of the glob patterns `*{ext}` matches. */
  predicate IsImageName(name: string)
  {
    exists ext :: ext in IMAGE_EXTENSIONS && EndsWith(name, ext)
  }

  function Ascending(a: string, b: string): bool { LexLess(b, a) }

  function Identity(s: string): string { s }

  /**
   * `image_files` after the globs and `sort()`: the image names of the
   * listing in ascending order. Sorting descending by the reversed order is
   * sorting ascending.
   */
  function ImageFiles(listing: seq<string>): seq<string>
  {
    SortDesc(ImageNames(listing), Identity, Ascending)
  }

  /** The listing's image names, in listing order. */
  function ImageNames(listing: seq<string>): (names: seq<string>)
    decreases |listing|
  {
    if listing == [] then []
    else ImageNames(listing[..|listing| - 1]) + (if IsImageName(listing[|listing| - 1]) then [listing[|listing| - 1]] else [])
  }

  lemma {:induction false} ImageNamesMembers(listing: seq<string>)
    ensures forall name :: name in ImageNames(listing) <==> name in listing && IsImageName(name)
    ensures |ImageNames(listing)| <= |listing|
    decreases |listing|
  {
    if listing != [] {
      var init := listing[..|listing| - 1];
      ImageNamesMembers(init);
      assert listing == init + [listing[|listing| - 1]];
    }
  }

  lemma AscendingIsStrictTotalOrder()
    ensures StrictTotalOrder(Ascending)
  {
    LexLessIsStrictTotalOrder();
  }

  /** The files are exactly the listing's image names, each once per listing entry, in ascending order. */
  lemma ImageFilesFacts(listing: seq<string>)
    ensures multiset(ImageFiles(listing)) == multiset(ImageNames(listing))
    ensures forall name :: name in ImageFiles(listing) <==> name in listing && IsImageName(name)
    ensures forall i, j :: 0 <= i < j < |ImageFiles(listing)| ==> !LexLess(ImageFiles(listing)[j], ImageFiles(listing)[i])
  {
    var names := ImageNames(listing);
    SortDescPermutation(names, Identity, Ascending);
    ImageNamesMembers(listing);
    forall name ensures name in ImageFiles(listing) <==> name in names {
      assert name in multiset(ImageFiles(listing)) <==> name in multiset(names);
    }
    AscendingIsStrictTotalOrder();
    SortDescSorted(names, Identity, Ascending);
  }

  /** The dict built for `image_file` with the current `photo_id`; `today` is `datetime.now()`. */
  function PhotoData(filename: string, id: nat, today: Exif.Date): Record
  {
    var info := ExtractInfo(filename);
    var url := GithubUrl(filename);
    Record(
      id := id,
      title := info.0,
      category := info.1,
      thumbnail := url,
      full := url,
      lat := None,
      lng := None,
      location := Place(UNKNOWN),
      date := Exif.IsoDate(today),
      filename := filename,
      originalFile := Some(filename),
      driveFolder := None,
      fileId := None)
  }

  /** What `scan_portfolio_directory` returns; a missing `portfolio/` (None) gives no photos. */
  function PortfolioRecords(portfolio: Option<seq<string>>, today: Exif.Date): seq<Record>
  {
    if portfolio.None? then []
    else
      var files := ImageFiles(portfolio.value);
      NumberedRecords(files, |files|, today)
  }

  /** The records of the first `n` files, numbered from 1. */
  function NumberedRecords(files: seq<string>, n: nat, today: Exif.Date): seq<Record>
    requires n <= |files|
  {
    seq(n, i requires 0 <= i < n => PhotoData(files[i], i + 1, today))
  }

  /** One more file adds its record, numbered `n + 1`, at the end. */
  lemma NumberedRecordsStep(files: seq<string>, n: nat, today: Exif.Date)
    requires n < |files|
    ensures NumberedRecords(files, n + 1, today) ==
      NumberedRecords(files, n, today) + [PhotoData(files[n], n + 1, today)]
  {
  }

  /** `scan_portfolio_directory`: one record per image file, numbered from 1 by the `photo_id` counter. */
  method ScanPortfolioDirectory(portfolio: Option<seq<string>>, today: Exif.Date) returns (photos: seq<Record>)
    ensures photos == PortfolioRecords(portfolio, today)
    ensures forall i :: 0 <= i < |photos| ==> photos[i].id == i + 1
  {
    if portfolio.None? {
      return [];
    }
    var imageFiles := ImageFiles(portfolio.value);
    photos := [];
    var photoId := 1;
    for i := 0 to |imageFiles|
      invariant photoId == i + 1
      invariant photos == NumberedRecords(imageFiles, i, today)
    {
      var filename := imageFiles[i];
      var photoData := PhotoData(filename, photoId, today);
      NumberedRecordsStep(imageFiles, i, today);
      photos := photos + [photoData];
      photoId := photoId + 1;
    }
    NumberedIds(imageFiles, today);
  }

  lemma NumberedIds(files: seq<string>, today: Exif.Date)
    ensures forall i :: 0 <= i < |files| ==> NumberedRecords(files, |files|, today)[i].id == i + 1
  {
  }

  /**
   * The records number the sorted image files 1..n without gaps; each
   * record's URLs are both the release URL of its file, it has no GPS, its
   * location is 'Unknown', its date is today's, its category is one of the
   * three, and `filename` and `original_file` are the file's name.
   */
  lemma PortfolioRecordsFacts(portfolio: Option<seq<string>>, today: Exif.Date)
    requires portfolio.Some?
    ensures var photos := PortfolioRecords(portfolio, today);
      && |photos| == |ImageFiles(portfolio.value)|
      && forall i :: 0 <= i < |photos| ==>
        && photos[i].id == i + 1
        && photos[i].filename == ImageFiles(portfolio.value)[i]
        && photos[i].originalFile == Some(photos[i].filename)
        && photos[i].thumbnail == photos[i].full == GithubUrl(photos[i].filename)
        && photos[i].lat.None? && photos[i].lng.None?
        && photos[i].location == Place(UNKNOWN)
        && photos[i].date == Exif.IsoDate(today)
        && photos[i].category in {STREET, FACES, NATURE}
  {
    var photos := PortfolioRecords(portfolio, today);
    forall i | 0 <= i < |photos| ensures photos[i].category in {STREET, FACES, NATURE} {
      ClassifyFacts(photos[i].filename);
    }
  }

  /** `generate_photos_json`: the list written to `photos.json`, None when the scan found nothing. */
  method GeneratePhotosJson(portfolio: Option<seq<string>>, today: Exif.Date) returns (written: Option<seq<Record>>)
    ensures written.None? <==> PortfolioRecords(portfolio, today) == []
    ensures written.Some? ==> written.value == PortfolioRecords(portfolio, today)
  {
    var photos := ScanPortfolioDirectory(portfolio, today);
    if photos == [] {
      return None;
    }
    written := Some(photos);
  }

  /** No manifest is written exactly when `portfolio/` is missing or holds no image. */
  lemma NothingWritten(portfolio: Option<seq<string>>, today: Exif.Date)
    ensures PortfolioRecords(portfolio, today) == [] <==>
      portfolio.None? || forall name :: name in portfolio.value ==> !IsImageName(name)
  {
    if portfolio.Some? {
      ImageFilesFacts(portfolio.value);
      var files := ImageFiles(portfolio.value);
      if files != [] {
        assert files[0] in files;
        assert |PortfolioRecords(portfolio, today)| == |files|;
      }
    }
  }
}
