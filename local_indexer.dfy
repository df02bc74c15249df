/**
 * The GitHub LFS indexer (`LocalPhotosIndexer`): it walks the three category
 * directories of a local photo tree, writes a thumbnail and a full-size JPEG
 * per photo under `photos/`, and writes the manifest `photos.json` with
 * relative URLs.
 */
module LocalIndexer {
  import opened Wrappers
  import opened Text
  import opened Sorting
  import opened Manifest
  import opened Naming
  import Exif
  import Imaging
  import Discovery

  const PHOTO_DIRECTORIES: seq<(string, string)> := [("faces", "Faces"), ("street", "Street"), ("nature", "Nature")]
  const SUPPORTED_FORMATS: seq<string> := [".jpg", ".jpeg", ".png", ".webp", ".heic"]
  const MAX_PHOTOS_PER_CATEGORY: nat := 500
  const THUMBNAIL_SIZE := Imaging.Envelope(400, 533)
  const FULL_SIZE_MAX := Imaging.Envelope(2000, 2000)
  const THUMBNAILS_DIR := "photos/thumbnails/"
  const FULL_DIR := "photos/full/"
  const THUMBNAIL_URL_PREFIX := "./photos/thumbnails/"
  const FULL_URL_PREFIX := "./photos/full/"

  // ---------------------------------------------------------------------
  // Pieces of `process_photo` shared with the single-size indexer
  // ---------------------------------------------------------------------

  /**
   * The location: the GPS pair if there is one, else the parent folder's label
   * when that folder is not the category's own directory (compared
   * case-insensitively), else "Unknown".
   */
  function FolderLocation(gps: Option<(real, real)>, parent: string, category: string): Location
  {
    if gps.Some? then Coordinates(gps.value.0, gps.value.1)
    else if parent != [] && Lower(parent) != Lower(category) then Place(FolderLabel(parent))
    else Place(UNKNOWN)
  }

  /** `date_taken or datetime.fromtimestamp(st_mtime).strftime('%Y-%m-%d')` */
  function PhotoDate(tags: Exif.Tags, mtimeDate: Exif.Date): string
  {
    match Exif.CaptureDateWithFallback(tags)
    case Some(d) => d
    case None => Exif.IsoDate(mtimeDate)
  }

  /**
   * Without coordinates the location is "Unknown" exactly when the parent
   * folder is unnamed, is the category's own folder (ignoring case), or its
   * label reads "Unknown"; any other parent gives its label.
   */
  lemma FolderLocationRule(gps: Option<(real, real)>, parent: string, category: string)
    ensures gps.Some? ==> FolderLocation(gps, parent, category) == Coordinates(gps.value.0, gps.value.1)
    ensures gps.None? ==> FolderLocation(gps, parent, category).Place?
    ensures gps.None? ==>
      (FolderLocation(gps, parent, category) == Place(UNKNOWN)
       <==> parent == [] || Lower(parent) == Lower(category) || FolderLabel(parent) == UNKNOWN)
    ensures gps.None? && parent != [] && Lower(parent) != Lower(category) ==>
      FolderLocation(gps, parent, category) == Place(FolderLabel(parent))
  {
  }

  /**
   * The date is always a real calendar date: the EXIF capture date when the
   * tags give one, otherwise the modification date.
   */
  lemma PhotoDateRule(tags: Exif.Tags, mtimeDate: Exif.Date)
    ensures Exif.IsIsoDate(PhotoDate(tags, mtimeDate))
    ensures Exif.CaptureDateWithFallback(tags).Some? ==> PhotoDate(tags, mtimeDate) == Exif.CaptureDateWithFallback(tags).value
    ensures Exif.CaptureDateWithFallback(tags).None? ==> PhotoDate(tags, mtimeDate) == Exif.IsoDate(mtimeDate)
  {
    Exif.CaptureDateChain(tags);
  }

  /** The files `scan_directory` processes: found, newest first, at most 500. */
  function Candidates(root: Option<Discovery.Tree>, directory: string): seq<Discovery.Candidate>
  {
    if root.None? || directory !in root.value then []
    else
      var found := Discovery.PhotoFiles(directory, root.value[directory], SUPPORTED_FORMATS);
      Take(Discovery.SortByMtime(found), MAX_PHOTOS_PER_CATEGORY)
  }

  /** The discovery steps of `scan_directory`, as its statements run. */
  method FindCandidates(root: Option<Discovery.Tree>, directory: string) returns (files: seq<Discovery.Candidate>)
    ensures files == Candidates(root, directory)
  {
    if root.None? || directory !in root.value {
      return [];
    }
    files := Discovery.FindPhotoFiles(directory, root.value[directory], SUPPORTED_FORMATS);
    files := Discovery.SortByMtime(files);
    files := Take(files, MAX_PHOTOS_PER_CATEGORY);
  }

  // ---------------------------------------------------------------------
  // One photo
  // ---------------------------------------------------------------------

  /**
   * `process_photo(file_path, category)` with `photo_id` given; `saves` says
   * whether the JPEG encoder succeeds on an output path. None is its
   * "return None": after an unreadable file or EXIF block (the exception
   * handler), or after a failed optimisation.
   */
  function ProcessPhoto(c: Discovery.Candidate, category: string, id: nat, saves: string -> bool): Option<Record>
  {
    var stem := PathStem(c.file.name);
    var safe := SafeName(stem);
    var thumbnailName := ThumbName(category, id, safe);
    var fullName := FullName(category, id, safe);
    var thumbnailOk := Imaging.Optimized(c.file.image, THUMBNAIL_SIZE, saves(THUMBNAILS_DIR + thumbnailName)).Some?;
    var fullOk := Imaging.Optimized(c.file.image, FULL_SIZE_MAX, saves(FULL_DIR + fullName)).Some?;
    if c.file.tags.None? || !(thumbnailOk && fullOk) then None
    else
      var tags := c.file.tags.value;
      var gps := Exif.ExtractGps(tags);
      Some(Record(
        id := id,
        title := Title(stem),
        category := category,
        thumbnail := THUMBNAIL_URL_PREFIX + thumbnailName,
        full := FULL_URL_PREFIX + fullName,
        lat := if gps.Some? then Some(gps.value.0) else None,
        lng := if gps.Some? then Some(gps.value.1) else None,
        location := FolderLocation(gps, c.parent, category),
        date := PhotoDate(tags, c.file.mtimeDate),
        filename := fullName,
        originalFile := Some(c.file.name),
        driveFolder := None,
        fileId := None))
  }

  /** A record is written exactly when the EXIF read succeeds, the file decodes and both JPEG writes succeed. */
  lemma ProcessPhotoGate(c: Discovery.Candidate, category: string, id: nat, saves: string -> bool)
    ensures var safe := SafeName(PathStem(c.file.name));
      ProcessPhoto(c, category, id, saves).Some?
      <==> (c.file.tags.Some? && c.file.image.Some?
            && saves(THUMBNAILS_DIR + ThumbName(category, id, safe)) && saves(FULL_DIR + FullName(category, id, safe)))
  {
  }

  /**
   * The names of a record: the full-size file is `{category}_{id:03d}_{safe}.jpg`,
   * the thumbnail URL points at the same name with `_thumb` before `.jpg`,
   * and the original file name is kept.
   */
  lemma ProcessPhotoNames(c: Discovery.Candidate, category: string, id: nat, saves: string -> bool)
    requires ProcessPhoto(c, category, id, saves).Some?
    ensures var r := ProcessPhoto(c, category, id, saves).value;
      && r.id == id && r.category == category
      && r.filename == FullName(category, id, SafeName(PathStem(c.file.name)))
      && r.full == FULL_URL_PREFIX + r.filename
      && r.thumbnail == THUMBNAIL_URL_PREFIX + r.filename[..|r.filename| - 4] + "_thumb.jpg"
      && r.originalFile == Some(c.file.name)
      && r.title == Title(PathStem(c.file.name))
  {
    ThumbNameOfFullName(category, id, SafeName(PathStem(c.file.name)));
  }

  /**
   * The record's date is a real calendar date (the capture date, else the
   * modification date), and its coordinates and location follow the GPS tags
   * and the parent folder as `FolderLocationRule` states.
   */
  lemma ProcessPhotoMetadata(c: Discovery.Candidate, category: string, id: nat, saves: string -> bool)
    requires ProcessPhoto(c, category, id, saves).Some?
    ensures Exif.IsIsoDate(ProcessPhoto(c, category, id, saves).value.date)
    ensures c.file.tags.Some?
    ensures ProcessPhoto(c, category, id, saves).value.date == PhotoDate(c.file.tags.value, c.file.mtimeDate)
    ensures GpsFieldsAgree(ProcessPhoto(c, category, id, saves).value, Exif.ExtractGps(c.file.tags.value))
    ensures ProcessPhoto(c, category, id, saves).value.location == FolderLocation(Exif.ExtractGps(c.file.tags.value), c.parent, category)
  {
    PhotoDateRule(c.file.tags.value, c.file.mtimeDate);
  }

  /**
   * Two photos of one category and one id get the same output file exactly
   * when their stems have the same safe name; the later write replaces the
   * earlier one.
   */
  lemma SameSafeNameCollides(c1: Discovery.Candidate, c2: Discovery.Candidate, category: string, id: nat, saves: string -> bool)
    requires ProcessPhoto(c1, category, id, saves).Some? && ProcessPhoto(c2, category, id, saves).Some?
    ensures ProcessPhoto(c1, category, id, saves).value.filename == ProcessPhoto(c2, category, id, saves).value.filename
      <==> SafeName(PathStem(c1.file.name)) == SafeName(PathStem(c2.file.name))
  {
    var s1, s2 := SafeName(PathStem(c1.file.name)), SafeName(PathStem(c2.file.name));
    FullNameSafeInjective(category, id, s1, s2);
  }

  // ---------------------------------------------------------------------
  // One category
  // ---------------------------------------------------------------------

  /** `scan_directory(directory, category)` with `len(self.photos) + 1` as `id`. */
  function Scan(root: Option<Discovery.Tree>, saves: string -> bool, category: string, directory: string, id: nat): seq<Record>
  {
    Collected(Candidates(root, directory), Processor(category, id, saves))
  }

  /** `process_photo` for one category and id, as the per-file loop applies it. */
  function Processor(category: string, id: nat, saves: string -> bool): Discovery.Candidate -> Option<Record>
  {
    c => ProcessPhoto(c, category, id, saves)
  }

  /** `scan_directory` as the scanner `generate_index` folds over the categories. */
  function CategoryScan(root: Option<Discovery.Tree>, saves: string -> bool): Scanner
  {
    (category: string, directory: string, id: nat) => Scan(root, saves, category, directory, id)
  }

  /** A candidate is a supported file of the category directory or of one of its subdirectories. */
  lemma CandidatesFound(root: Option<Discovery.Tree>, directory: string, c: Discovery.Candidate)
    requires c in Candidates(root, directory)
    ensures root.Some? && directory in root.value
    ensures c in Discovery.PhotoFiles(directory, root.value[directory], SUPPORTED_FORMATS)
    ensures Discovery.MatchesFormat(c.file.name, SUPPORTED_FORMATS)
  {
    var found := Discovery.PhotoFiles(directory, root.value[directory], SUPPORTED_FORMATS);
    var sorted := Discovery.SortByMtime(found);
    var i :| 0 <= i < |Candidates(root, directory)| && Candidates(root, directory)[i] == c;
    assert c in sorted;
    assert c in multiset(sorted);
    Discovery.PhotoFilesMembers(directory, root.value[directory], SUPPORTED_FORMATS, c);
  }

  /**
   * A scan yields at most 500 records, each stamped with the scan's category
   * and id and made from a supported file under the category directory; a
   * missing directory yields nothing.
   */
  lemma ScanFacts(root: Option<Discovery.Tree>, saves: string -> bool, category: string, directory: string, id: nat)
    ensures |Scan(root, saves, category, directory, id)| <= MAX_PHOTOS_PER_CATEGORY
    ensures root.None? || directory !in root.value ==> Scan(root, saves, category, directory, id) == []
    ensures forall r :: r in Scan(root, saves, category, directory, id) ==>
      && r.category == category && r.id == id
      && exists c :: c in Candidates(root, directory) && ProcessPhoto(c, category, id, saves) == Some(r)
                     && Discovery.MatchesFormat(c.file.name, SUPPORTED_FORMATS)
  {
    var files := Candidates(root, directory);
    var process := Processor(category, id, saves);
    CollectedMembers(files, process);
    forall r | r in Collected(files, process)
      ensures r.category == category && r.id == id
      ensures exists c :: c in files && ProcessPhoto(c, category, id, saves) == Some(r)
                          && Discovery.MatchesFormat(c.file.name, SUPPORTED_FORMATS)
    {
      var i :| 0 <= i < |files| && process(files[i]) == Some(r);
      ProcessPhotoNames(files[i], category, id, saves);
      CandidatesFound(root, directory, files[i]);
    }
  }

  lemma ScanStamped(root: Option<Discovery.Tree>, saves: string -> bool, category: string, directory: string, id: nat)
    ensures Stamped(Scan(root, saves, category, directory, id), category, id)
  {
    ScanFacts(root, saves, category, directory, id);
  }

  lemma ScannerStamps(root: Option<Discovery.Tree>, saves: string -> bool)
    ensures StampsScan(CategoryScan(root, saves))
  {
    forall category, directory, id ensures Stamped(CategoryScan(root, saves)(category, directory, id), category, id) {
      ScanStamped(root, saves, category, directory, id);
    }
  }

  // ---------------------------------------------------------------------
  // The indexer
  // ---------------------------------------------------------------------

  class LocalPhotosIndexer {
    /** The tree under `photos_source_dir`, None when that directory does not exist. */
    const root: Option<Discovery.Tree>
    /** Whether the JPEG encoder succeeds on an output path. */
    const saves: string -> bool
    var photos: seq<Record>
    /** What this indexer has written to `photos.json`; None until it writes it. */
    var manifest: Option<seq<Record>>

    constructor(root: Option<Discovery.Tree>, saves: string -> bool)
      ensures this.root == root && this.saves == saves
      ensures photos == [] && manifest == None
    {
      this.root := root;
      this.saves := saves;
      photos := [];
      manifest := None;
    }

    /** `scan_directory`: the category's records, all with id `len(self.photos) + 1`. */
    method ScanDirectory(directory: string, category: string) returns (found: seq<Record>)
      ensures found == Scan(root, saves, category, directory, |photos| + 1)
    {
      var files := FindCandidates(root, directory);
      found := CollectEach(files, Processor(category, |photos| + 1, saves));
    }

    /**
     * `generate_index`: when the source root exists, each category's records
     * are appended in configuration order, the whole list is sorted newest
     * first and written to the manifest; otherwise nothing changes.
     */
    method GenerateIndex()
      modifies this
      ensures root.None? ==> photos == old(photos) && manifest == old(manifest)
      ensures root.Some? ==> photos == SortByDate(Appended(PHOTO_DIRECTORIES, old(photos), CategoryScan(root, saves)))
      ensures root.Some? ==> manifest == Some(photos)
    {
      if root.None? {
        return;
      }
      var scan := CategoryScan(root, saves);
      for i := 0 to |PHOTO_DIRECTORIES|
        invariant Appended(PHOTO_DIRECTORIES[i..], photos, scan) == Appended(PHOTO_DIRECTORIES, old(photos), scan)
      {
        var (category, directory) := PHOTO_DIRECTORIES[i];
        var categoryPhotos := ScanDirectory(directory, category);
        assert categoryPhotos == scan(category, directory, |photos| + 1);
        AppendedStep(PHOTO_DIRECTORIES, i, photos, scan);
        photos := photos + categoryPhotos;
      }
      photos := SortByDate(photos);
      manifest := Some(photos);
    }
  }

  // ---------------------------------------------------------------------
  // The manifest of a fresh indexer
  // ---------------------------------------------------------------------

  /**
   * A fresh indexer's manifest holds only the three scans' records, and every
   * record's id is fixed by its category: 1 for faces, 1 + the number of
   * faces records for street, 1 + faces + street for nature.
   */
  lemma FreshManifest(root: Option<Discovery.Tree>, saves: string -> bool, r: Record)
    requires r in SortByDate(Appended(PHOTO_DIRECTORIES, [], CategoryScan(root, saves)))
    ensures FromFreshScan(PHOTO_DIRECTORIES, FreshScans(PHOTO_DIRECTORIES, CategoryScan(root, saves)), r)
  {
    ScannerStamps(root, saves);
    FreshThreeIds(PHOTO_DIRECTORIES, CategoryScan(root, saves), r);
  }

  /** Before the sort, the assembled list satisfies the id rule of every indexer. */
  lemma FreshIdsCountEarlierCategories(root: Option<Discovery.Tree>, saves: string -> bool)
    ensures IdsCountEarlierCategories(Appended(PHOTO_DIRECTORIES, [], CategoryScan(root, saves)))
  {
    ScannerStamps(root, saves);
    AppendedIds(PHOTO_DIRECTORIES, [], CategoryScan(root, saves));
  }
}
