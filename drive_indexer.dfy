/**
 * The Google Drive indexer (`GoogleDrivePublicIndexer`): it walks the synced
 * Drive folder and writes records whose URLs are placeholders built from the
 * file stem, to be replaced by real file ids later. No image is opened or
 * written. The archived copy of this indexer is the same program.
 */
module DriveIndexer {
  import opened Wrappers
  import opened Text
  import opened Sorting
  import opened Manifest
  import opened Naming
  import Exif
  import Discovery

  const PHOTO_DIRECTORIES: seq<(string, string)> :=
    [("faces", "Portfolio/Faces"), ("street", "Portfolio/Street"), ("nature", "Portfolio/Nature")]
  const FACES_FOLDER_ID := "1sx0we1xJCmkILoaw5L9jTH2lx0OiWP_V"
  const STREET_FOLDER_ID := "1BcpXD2whHZAUQxdU4bBDUshg0l4wdus1"
  const NATURE_FOLDER_ID := "13EytsMQzV44JQn6E17QCF_s9LEqOJ0V6"
  const FOLDER_LINK_PREFIX := "https://drive.google.com/drive/folders/"
  /** The configured sharing link of each category folder. */
  const PUBLIC_FOLDER_LINKS: map<string, string> := map[
    "faces" := FOLDER_LINK_PREFIX + FACES_FOLDER_ID,
    "street" := FOLDER_LINK_PREFIX + STREET_FOLDER_ID,
    "nature" := FOLDER_LINK_PREFIX + NATURE_FOLDER_ID]
  const SUPPORTED_FORMATS: seq<string> := [".jpg", ".jpeg", ".png", ".webp"]
  const MAX_PHOTOS_PER_CATEGORY: nat := 500
  const DIRECT_URL_PREFIX := "https://drive.google.com/uc?export=view&id="
  /** The marker a placeholder URL carries where the file id belongs. */
  const PLACEHOLDER_MARKER := "FILE_ID_FOR_"

  // ---------------------------------------------------------------------
  // URL helpers
  // ---------------------------------------------------------------------

  /**
   * `extract_folder_id`: after '/folders/' up to '?', else after 'id=' up to
   * '&', else the last '/'-segment up to '?'.
   */
  function ExtractFolderId(folderLink: string): string
  {
    if Contains(folderLink, "/folders/") then Before(SecondField(folderLink, "/folders/"), "?")
    else if Contains(folderLink, "id=") then Before(SecondField(folderLink, "id="), "&")
    else Before(LastField(folderLink, '/'), "?")
  }

  /** Only the '/' at index 30 of a folder link starts "/folders/". */
  lemma FolderMarkerFirst(id: string)
    ensures Find(FOLDER_LINK_PREFIX + id, "/folders/") == Some(30)
  {
    var s := FOLDER_LINK_PREFIX + id;
    var m := "/folders/";
    assert s[..39] == FOLDER_LINK_PREFIX;
    assert s[30..39] == FOLDER_LINK_PREFIX[30..39] == m;
    forall j | 0 <= j < 30 ensures !OccursAt(s, m, j) {
      assert s[j] == FOLDER_LINK_PREFIX[j] && s[j + 1] == FOLDER_LINK_PREFIX[j + 1];
      assert FOLDER_LINK_PREFIX[j] != '/' || FOLDER_LINK_PREFIX[j + 1] != 'f';
      assert s[j..j + 9][0] == s[j] && s[j..j + 9][1] == s[j + 1];
    }
    FindFirstAt(s, m, 30);
  }

  /** A folder sharing link gives back its folder id, for ids without '/' or '?'. */
  lemma FolderLinkRoundTrip(id: string)
    requires forall i :: 0 <= i < |id| ==> id[i] != '/' && id[i] != '?'
    ensures ExtractFolderId(FOLDER_LINK_PREFIX + id) == id
  {
    var s := FOLDER_LINK_PREFIX + id;
    FolderMarkerFirst(id);
    assert After(s, "/folders/") == id;
    FindAbsent(id, "/folders/");
    FindAbsent(id, "?");
  }

  /** The configured faces link yields its folder id. */
  lemma FacesFolderId()
    ensures ExtractFolderId(PUBLIC_FOLDER_LINKS["faces"]) == "1sx0we1xJCmkILoaw5L9jTH2lx0OiWP_V"
  {
    var id := FACES_FOLDER_ID;
    forall i | 0 <= i < |id| ensures id[i] != '/' && id[i] != '?' {
    }
    FolderLinkRoundTrip(id);
  }

  /**
   * `get_google_drive_file_url`: the same placeholder URL twice, built from
   * the file name with spaces as '_'; the folder id is computed and unused.
   */
  function GoogleDriveFileUrl(folderLink: string, filename: string): (string, string)
  {
    var folderId := ExtractFolderId(folderLink);
    var url := DIRECT_URL_PREFIX + PLACEHOLDER_MARKER + ReplaceChar(filename, ' ', '_');
    (url, url)
  }

  /**
   * Thumbnail and full URL coincide, do not depend on the folder link, carry
   * the placeholder marker right after `id=`, and spell the name with each
   * space replaced by '_'.
   */
  lemma PlaceholderUrl(folderLink: string, otherLink: string, filename: string)
    ensures GoogleDriveFileUrl(folderLink, filename) == GoogleDriveFileUrl(otherLink, filename)
    ensures var (thumbnail, full) := GoogleDriveFileUrl(folderLink, filename);
      && thumbnail == full
      && StartsWith(thumbnail, DIRECT_URL_PREFIX + PLACEHOLDER_MARKER)
      && Contains(thumbnail, PLACEHOLDER_MARKER)
      && |thumbnail| == |DIRECT_URL_PREFIX + PLACEHOLDER_MARKER| + |filename|
      && forall i :: 0 <= i < |filename| ==>
           thumbnail[|DIRECT_URL_PREFIX + PLACEHOLDER_MARKER| + i] == (if filename[i] == ' ' then '_' else filename[i])
  {
    var (thumbnail, _) := GoogleDriveFileUrl(folderLink, filename);
    var p := DIRECT_URL_PREFIX + PLACEHOLDER_MARKER;
    assert thumbnail == p + ReplaceChar(filename, ' ', '_');
    assert thumbnail[|DIRECT_URL_PREFIX|..|DIRECT_URL_PREFIX| + |PLACEHOLDER_MARKER|] == PLACEHOLDER_MARKER;
    assert OccursAt(thumbnail, PLACEHOLDER_MARKER, |DIRECT_URL_PREFIX|);
  }

  // ---------------------------------------------------------------------
  // One photo
  // ---------------------------------------------------------------------

  /** `not folder_link or 'YOUR_' in folder_link`: the category has no usable sharing link. */
  predicate MissingLink(links: map<string, string>, category: string)
  {
    category !in links || links[category] == [] || Contains(links[category], "YOUR_")
  }

  /**
   * The location: the GPS pair if there is one, else the parent folder's
   * label when its name is not exactly `category.title()`, else "Unknown".
   */
  function DriveLocation(gps: Option<(real, real)>, parent: string, category: string): Location
  {
    if gps.Some? then Coordinates(gps.value.0, gps.value.1)
    else if parent != [] && parent != TitleCase(category) then Place(FolderLabel(parent))
    else Place(UNKNOWN)
  }

  /** `date_taken or` the modification date, with only `EXIF DateTimeOriginal` consulted. */
  function DriveDate(tags: Exif.Tags, mtimeDate: Exif.Date): string
  {
    match Exif.CaptureDate(tags)
    case Some(d) => d
    case None => Exif.IsoDate(mtimeDate)
  }

  /**
   * `extract_photo_metadata(file_path, category)` with `len(self.photos) + 1`
   * as `id`. The EXIF block is read before the link is looked at, so an
   * unreadable file gives None (the exception handler) whatever the link.
   */
  function ProcessPhoto(c: Discovery.Candidate, category: string, id: nat, links: map<string, string>): Option<Record>
  {
    if c.file.tags.None? || MissingLink(links, category) then None
    else
      var tags := c.file.tags.value;
      var folderLink := links[category];
      var stem := PathStem(c.file.name);
      var (thumbnail, full) := GoogleDriveFileUrl(folderLink, stem);
      var gps := Exif.ExtractGps(tags);
      Some(Record(
        id := id,
        title := Title(stem),
        category := category,
        thumbnail := thumbnail,
        full := full,
        lat := if gps.Some? then Some(gps.value.0) else None,
        lng := if gps.Some? then Some(gps.value.1) else None,
        location := DriveLocation(gps, c.parent, category),
        date := DriveDate(tags, c.file.mtimeDate),
        filename := c.file.name,
        originalFile := None,
        driveFolder := Some(folderLink),
        fileId := None))
  }

  /** A record exists exactly when the file and its EXIF block can be read and the category has a usable link. */
  lemma ProcessPhotoGate(c: Discovery.Candidate, category: string, id: nat, links: map<string, string>)
    ensures ProcessPhoto(c, category, id, links).None? <==> c.file.tags.None? || MissingLink(links, category)
  {
  }

  /**
   * A record keeps the full source name, takes its title and placeholder URL
   * from the stem, has a real calendar date (capture date from
   * `EXIF DateTimeOriginal`, else the modification date), and records its
   * category's link.
   */
  lemma ProcessPhotoRecord(c: Discovery.Candidate, category: string, id: nat, links: map<string, string>)
    requires ProcessPhoto(c, category, id, links).Some?
    ensures var r := ProcessPhoto(c, category, id, links).value;
      && r.id == id && r.category == category
      && r.filename == c.file.name
      && r.title == Title(PathStem(c.file.name))
      && (r.thumbnail, r.full) == GoogleDriveFileUrl(links[category], PathStem(c.file.name))
      && r.driveFolder == Some(links[category])
      && Exif.IsIsoDate(r.date)
      && c.file.tags.Some?
      && (Exif.CaptureDate(c.file.tags.value).Some? ==> r.date == Exif.CaptureDate(c.file.tags.value).value)
      && (Exif.CaptureDate(c.file.tags.value).None? ==> r.date == Exif.IsoDate(c.file.mtimeDate))
      && GpsFieldsAgree(r, Exif.ExtractGps(c.file.tags.value))
  {
    Exif.CaptureDateChain(c.file.tags.value);
  }

  /**
   * Without coordinates the location is "Unknown" exactly when the parent is
   * unnamed, is exactly `category.title()`, or its label reads "Unknown".
   */
  lemma DriveLocationRule(gps: Option<(real, real)>, parent: string, category: string)
    ensures gps.Some? ==> DriveLocation(gps, parent, category) == Coordinates(gps.value.0, gps.value.1)
    ensures gps.None? ==>
      (DriveLocation(gps, parent, category) == Place(UNKNOWN)
       <==> parent == [] || parent == TitleCase(category) || FolderLabel(parent) == UNKNOWN)
    ensures gps.None? && parent != [] && parent != TitleCase(category) ==>
      DriveLocation(gps, parent, category) == Place(FolderLabel(parent))
  {
  }

  /**
   * The comparison is case-sensitive: a subfolder "faces" of the faces
   * category becomes a location here, where the local indexers say "Unknown".
   */
  lemma CaseSensitiveParent()
    ensures DriveLocation(None, "Faces", "faces") == Place(UNKNOWN)
    ensures DriveLocation(None, "faces", "faces") == Place("faces")
  {
    assert TitleCase("faces") == "Faces";
    assert "faces" != "Faces";
    assert FolderLabel("faces") == "faces";
  }

  /** A folder link whose id has no 'Y' carries no "YOUR_" placeholder. */
  lemma FolderLinkUsable(id: string)
    requires forall i :: 0 <= i < |id| ==> id[i] != 'Y'
    ensures !Contains(FOLDER_LINK_PREFIX + id, "YOUR_")
  {
    var link := FOLDER_LINK_PREFIX + id;
    forall i | 0 <= i < |link| ensures link[i] != 'Y' {
      if i >= |FOLDER_LINK_PREFIX| {
        assert link[i] == id[i - |FOLDER_LINK_PREFIX|];
      }
    }
    FindAbsent(link, "YOUR_");
  }

  /** The three configured links are usable. */
  lemma ConfiguredLinksUsable()
    ensures forall category :: category in PUBLIC_FOLDER_LINKS ==> !MissingLink(PUBLIC_FOLDER_LINKS, category)
  {
    FolderLinkUsable(FACES_FOLDER_ID);
    FolderLinkUsable(STREET_FOLDER_ID);
    FolderLinkUsable(NATURE_FOLDER_ID);
  }

  // ---------------------------------------------------------------------
  // One category
  // ---------------------------------------------------------------------

  /** The files `scan_directory` processes: the first 500 found, in discovery order (no sort). */
  function Candidates(root: Option<Discovery.Tree>, directory: string): seq<Discovery.Candidate>
  {
    if root.None? || directory !in root.value then []
    else Take(Discovery.PhotoFiles(directory, root.value[directory], SUPPORTED_FORMATS), MAX_PHOTOS_PER_CATEGORY)
  }

  method FindCandidates(root: Option<Discovery.Tree>, directory: string) returns (files: seq<Discovery.Candidate>)
    ensures files == Candidates(root, directory)
  {
    if root.None? || directory !in root.value {
      return [];
    }
    files := Discovery.FindPhotoFiles(directory, root.value[directory], SUPPORTED_FORMATS);
    files := Take(files, MAX_PHOTOS_PER_CATEGORY);
  }

  /** The cap keeps a prefix of the discovery order. */
  lemma CandidatesPrefix(root: Option<Discovery.Tree>, directory: string)
    requires root.Some? && directory in root.value
    ensures var found := Discovery.PhotoFiles(directory, root.value[directory], SUPPORTED_FORMATS);
      Candidates(root, directory) == found[..|Candidates(root, directory)|]
      && |Candidates(root, directory)| == if |found| < MAX_PHOTOS_PER_CATEGORY then |found| else MAX_PHOTOS_PER_CATEGORY
  {
  }

  function Scan(root: Option<Discovery.Tree>, links: map<string, string>, category: string, directory: string, id: nat): seq<Record>
  {
    Collected(Candidates(root, directory), Processor(category, id, links))
  }

  function Processor(category: string, id: nat, links: map<string, string>): Discovery.Candidate -> Option<Record>
  {
    c => ProcessPhoto(c, category, id, links)
  }

  function CategoryScan(root: Option<Discovery.Tree>, links: map<string, string>): Scanner
  {
    (category: string, directory: string, id: nat) => Scan(root, links, category, directory, id)
  }

  /** The file and its EXIF block could be read. */
  predicate IsReadable(c: Discovery.Candidate) { c.file.tags.Some? }

  /** The candidates whose EXIF block could be read, in discovery order. */
  function Readable(files: seq<Discovery.Candidate>): (r: seq<Discovery.Candidate>)
  {
    Kept(files, IsReadable)
  }

  /** A readable candidate is a candidate whose file could be read. */
  lemma ReadableMembers(files: seq<Discovery.Candidate>)
    ensures |Readable(files)| <= |files|
    ensures forall c :: c in Readable(files) <==> c in files && c.file.tags.Some?
  {
    KeptMembers(files, IsReadable);
  }

  /**
   * A category with a usable link yields one record per readable candidate
   * file, in discovery order; one without yields nothing. Every record
   * carries the scan's category and id.
   */
  lemma ScanFacts(root: Option<Discovery.Tree>, links: map<string, string>, category: string, directory: string, id: nat)
    ensures MissingLink(links, category) ==> Scan(root, links, category, directory, id) == []
    ensures !MissingLink(links, category) ==>
      && |Scan(root, links, category, directory, id)| == |Readable(Candidates(root, directory))|
      && forall i :: 0 <= i < |Readable(Candidates(root, directory))| ==>
           Scan(root, links, category, directory, id)[i].filename == Readable(Candidates(root, directory))[i].file.name
    ensures |Scan(root, links, category, directory, id)| <= MAX_PHOTOS_PER_CATEGORY
    ensures Stamped(Scan(root, links, category, directory, id), category, id)
  {
    var files := Candidates(root, directory);
    var process := Processor(category, id, links);
    CollectedMembers(files, process);
    if MissingLink(links, category) {
      CollectedNone(files, process);
    } else {
      ReadableScan(files, category, id, links);
    }
    forall r | r in Collected(files, process) ensures r.category == category && r.id == id {
      var i :| 0 <= i < |files| && process(files[i]) == Some(r);
    }
  }

  /** With a usable link, the records are those of the readable candidates, one for one. */
  lemma ReadableScan(files: seq<Discovery.Candidate>, category: string, id: nat, links: map<string, string>)
    requires !MissingLink(links, category)
    ensures var process := Processor(category, id, links);
      && |Collected(files, process)| == |Readable(files)|
      && forall i :: 0 <= i < |Readable(files)| ==> Collected(files, process)[i].filename == Readable(files)[i].file.name
  {
    var process := Processor(category, id, links);
    var kept := Readable(files);
    CollectedKept(files, IsReadable, process);
    ReadableMembers(files);
    forall i | 0 <= i < |kept| ensures process(kept[i]).Some? && process(kept[i]).value.filename == kept[i].file.name {
      assert kept[i] in kept;
    }
    CollectedAll(kept, process);
  }

  lemma ScannerStamps(root: Option<Discovery.Tree>, links: map<string, string>)
    ensures StampsScan(CategoryScan(root, links))
  {
    forall category, directory, id ensures Stamped(CategoryScan(root, links)(category, directory, id), category, id) {
      ScanFacts(root, links, category, directory, id);
    }
  }

  // ---------------------------------------------------------------------
  // The indexer
  // ---------------------------------------------------------------------

  class GoogleDrivePublicIndexer {
    /** The tree under `google_drive_path`, None when that directory does not exist. */
    const root: Option<Discovery.Tree>
    /** `CONFIG['public_folder_links']`. */
    const links: map<string, string>
    var photos: seq<Record>
    /** What this indexer has written to `photos.json`; None until it writes it. */
    var manifest: Option<seq<Record>>

    constructor(root: Option<Discovery.Tree>, links: map<string, string>)
      ensures this.root == root && this.links == links
      ensures photos == [] && manifest == None
    {
      this.root := root;
      this.links := links;
      photos := [];
      manifest := None;
    }

    method ScanDirectory(directory: string, category: string) returns (found: seq<Record>)
      ensures found == Scan(root, links, category, directory, |photos| + 1)
    {
      var files := FindCandidates(root, directory);
      found := CollectEach(files, Processor(category, |photos| + 1, links));
    }

    /**
     * `generate_index`: with the Drive folder present, each category is
     * scanned and appended in configuration order (missing links are only
     * reported), then sorted newest first and written; otherwise nothing
     * changes.
     */
    method GenerateIndex()
      modifies this
      ensures root.None? ==> photos == old(photos) && manifest == old(manifest)
      ensures root.Some? ==> photos == SortByDate(Appended(PHOTO_DIRECTORIES, old(photos), CategoryScan(root, links)))
      ensures root.Some? ==> manifest == Some(photos)
    {
      if root.None? {
        return;
      }
      var scan := CategoryScan(root, links);
      for i := 0 to |PHOTO_DIRECTORIES|
        invariant Appended(PHOTO_DIRECTORIES[i..], photos, scan) == Appended(PHOTO_DIRECTORIES, old(photos), scan)
      {
        var (category, directory) := PHOTO_DIRECTORIES[i];
        var categoryPhotos := ScanDirectory(directory, category);
        assert categoryPhotos == scan(category, directory, |photos| + 1);
        AppendedStep(PHOTO_DIRECTORIES, i, photos, scan);
        photos := photos + categoryPhotos;
      }
      photos := SortByDate(photos);
      manifest := Some(photos);
    }
  }

  /** A fresh indexer's manifest: every record from one of the three scans, with that scan's category and id. */
  lemma FreshManifest(root: Option<Discovery.Tree>, links: map<string, string>, r: Record)
    requires r in SortByDate(Appended(PHOTO_DIRECTORIES, [], CategoryScan(root, links)))
    ensures FromFreshScan(PHOTO_DIRECTORIES, FreshScans(PHOTO_DIRECTORIES, CategoryScan(root, links)), r)
  {
    ScannerStamps(root, links);
    FreshThreeIds(PHOTO_DIRECTORIES, CategoryScan(root, links), r);
  }
}
