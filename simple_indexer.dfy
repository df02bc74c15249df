/**
 * The single-size indexer (`SimplePhotosIndexer`): the same walk as the
 * GitHub LFS indexer, but one JPEG of at most 1200x1200 per photo under
 * `portfolio/`, used as both the thumbnail and the full-size URL.
 */
module SimpleIndexer {
  import opened Wrappers
  import opened Manifest
  import opened Naming
  import Exif
  import Imaging
  import Discovery
  import LocalIndexer

  /** The category directories, formats and per-category cap are those of the GitHub LFS indexer. */
  const PHOTO_DIRECTORIES: seq<(string, string)> := LocalIndexer.PHOTO_DIRECTORIES
  const MAX_SIZE := Imaging.Envelope(1200, 1200)
  const WEB_PHOTOS_DIR := "portfolio/"

  /** `process_photo` with `photo_id` given; None after an unreadable file or EXIF block, or a failed optimisation. */
  function ProcessPhoto(c: Discovery.Candidate, category: string, id: nat, saves: string -> bool): Option<Record>
  {
    var stem := PathStem(c.file.name);
    var filename := FullName(category, id, SafeName(stem));
    if c.file.tags.None? || Imaging.Optimized(c.file.image, MAX_SIZE, saves(WEB_PHOTOS_DIR + filename)).None? then None
    else
      var tags := c.file.tags.value;
      var gps := Exif.ExtractGps(tags);
      var url := WEB_PHOTOS_DIR + filename;
      Some(Record(
        id := id,
        title := Title(stem),
        category := category,
        thumbnail := url,
        full := url,
        lat := if gps.Some? then Some(gps.value.0) else None,
        lng := if gps.Some? then Some(gps.value.1) else None,
        location := LocalIndexer.FolderLocation(gps, c.parent, category),
        date := LocalIndexer.PhotoDate(tags, c.file.mtimeDate),
        filename := filename,
        originalFile := Some(c.file.name),
        driveFolder := None,
        fileId := None))
  }

  /** A record is written exactly when the EXIF read succeeds, the file decodes and its one JPEG write succeeds. */
  lemma ProcessPhotoGate(c: Discovery.Candidate, category: string, id: nat, saves: string -> bool)
    ensures ProcessPhoto(c, category, id, saves).Some?
      <==> c.file.tags.Some? && c.file.image.Some? && saves(WEB_PHOTOS_DIR + FullName(category, id, SafeName(PathStem(c.file.name))))
  {
  }

  /**
   * The record points both URLs at the one written file, whose name is
   * `{category}_{id:03d}_{safe}.jpg`; its date is a real calendar date and its
   * location follows the GitHub LFS indexer's rule.
   */
  lemma ProcessPhotoRecord(c: Discovery.Candidate, category: string, id: nat, saves: string -> bool)
    requires ProcessPhoto(c, category, id, saves).Some?
    ensures var r := ProcessPhoto(c, category, id, saves).value;
      && r.id == id && r.category == category
      && r.filename == FullName(category, id, SafeName(PathStem(c.file.name)))
      && r.thumbnail == r.full == WEB_PHOTOS_DIR + r.filename
      && r.originalFile == Some(c.file.name)
      && Exif.IsIsoDate(r.date)
      && c.file.tags.Some?
      && r.date == LocalIndexer.PhotoDate(c.file.tags.value, c.file.mtimeDate)
      && GpsFieldsAgree(r, Exif.ExtractGps(c.file.tags.value))
      && r.location == LocalIndexer.FolderLocation(Exif.ExtractGps(c.file.tags.value), c.parent, category)
  {
    LocalIndexer.PhotoDateRule(c.file.tags.value, c.file.mtimeDate);
  }

  /** `scan_directory(directory, category)` with `len(self.photos) + 1` as `id`. */
  function Scan(root: Option<Discovery.Tree>, saves: string -> bool, category: string, directory: string, id: nat): seq<Record>
  {
    Collected(LocalIndexer.Candidates(root, directory), Processor(category, id, saves))
  }

  function Processor(category: string, id: nat, saves: string -> bool): Discovery.Candidate -> Option<Record>
  {
    c => ProcessPhoto(c, category, id, saves)
  }

  function CategoryScan(root: Option<Discovery.Tree>, saves: string -> bool): Scanner
  {
    (category: string, directory: string, id: nat) => Scan(root, saves, category, directory, id)
  }

  /** At most 500 records per scan, each with the scan's category and id, none for a missing directory. */
  lemma ScanFacts(root: Option<Discovery.Tree>, saves: string -> bool, category: string, directory: string, id: nat)
    ensures |Scan(root, saves, category, directory, id)| <= LocalIndexer.MAX_PHOTOS_PER_CATEGORY
    ensures root.None? || directory !in root.value ==> Scan(root, saves, category, directory, id) == []
    ensures Stamped(Scan(root, saves, category, directory, id), category, id)
  {
    var files := LocalIndexer.Candidates(root, directory);
    var process := Processor(category, id, saves);
    CollectedMembers(files, process);
    forall r | r in Collected(files, process) ensures r.category == category && r.id == id {
      var i :| 0 <= i < |files| && process(files[i]) == Some(r);
    }
  }

  lemma ScannerStamps(root: Option<Discovery.Tree>, saves: string -> bool)
    ensures StampsScan(CategoryScan(root, saves))
  {
    forall category, directory, id ensures Stamped(CategoryScan(root, saves)(category, directory, id), category, id) {
      ScanFacts(root, saves, category, directory, id);
    }
  }

  class SimplePhotosIndexer {
    /** The tree under `photos_source_dir`, None when that directory does not exist. */
    const root: Option<Discovery.Tree>
    /** Whether the JPEG encoder succeeds on an output path. */
    const saves: string -> bool
    var photos: seq<Record>
    /** What this indexer has written to `photos.json`; None until it writes it. */
    var manifest: Option<seq<Record>>

    constructor(root: Option<Discovery.Tree>, saves: string -> bool)
      ensures this.root == root && this.saves == saves
      ensures photos == [] && manifest == None
    {
      this.root := root;
      this.saves := saves;
      photos := [];
      manifest := None;
    }

    method ScanDirectory(directory: string, category: string) returns (found: seq<Record>)
      ensures found == Scan(root, saves, category, directory, |photos| + 1)
    {
      var files := LocalIndexer.FindCandidates(root, directory);
      found := CollectEach(files, Processor(category, |photos| + 1, saves));
    }

    /** `generate_index`: as the GitHub LFS indexer, with this indexer's scan. */
    method GenerateIndex()
      modifies this
      ensures root.None? ==> photos == old(photos) && manifest == old(manifest)
      ensures root.Some? ==> photos == SortByDate(Appended(PHOTO_DIRECTORIES, old(photos), CategoryScan(root, saves)))
      ensures root.Some? ==> manifest == Some(photos)
    {
      if root.None? {
        return;
      }
      var scan := CategoryScan(root, saves);
      for i := 0 to |PHOTO_DIRECTORIES|
        invariant Appended(PHOTO_DIRECTORIES[i..], photos, scan) == Appended(PHOTO_DIRECTORIES, old(photos), scan)
      {
        var (category, directory) := PHOTO_DIRECTORIES[i];
        var categoryPhotos := ScanDirectory(directory, category);
        assert categoryPhotos == scan(category, directory, |photos| + 1);
        AppendedStep(PHOTO_DIRECTORIES, i, photos, scan);
        photos := photos + categoryPhotos;
      }
      photos := SortByDate(photos);
      manifest := Some(photos);
    }
  }

  /** A fresh indexer's manifest: every record from one of the three scans, with that scan's category and id. */
  lemma FreshManifest(root: Option<Discovery.Tree>, saves: string -> bool, r: Record)
    requires r in SortByDate(Appended(PHOTO_DIRECTORIES, [], CategoryScan(root, saves)))
    ensures FromFreshScan(PHOTO_DIRECTORIES, FreshScans(PHOTO_DIRECTORIES, CategoryScan(root, saves)), r)
  {
    ScannerStamps(root, saves);
    FreshThreeIds(PHOTO_DIRECTORIES, CategoryScan(root, saves), r);
  }
}
