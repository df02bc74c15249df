/**
 * The Nextcloud indexer (`NextCloudPhotoIndexer`): it lists each category
 * directory over WebDAV, downloads each photo to read its EXIF tags, and
 * points both URLs at the category's public share. The archived copy of this
 * indexer is the same program.
 */
module NextcloudIndexer {
  import opened Wrappers
  import opened Text
  import opened Sorting
  import opened Manifest
  import opened Naming
  import Exif

  const PHOTO_DIRECTORIES: seq<(string, string)> :=
    [("faces", "Photos/Portfolio/Faces"), ("street", "Photos/Portfolio/Street"), ("nature", "Photos/Portfolio/Nature")]
  const PUBLIC_SHARES: map<string, string> := map[
    "faces" := "https://your-nextcloud-domain.com/s/SHARE_TOKEN_FACES",
    "street" := "https://your-nextcloud-domain.com/s/SHARE_TOKEN_STREET",
    "nature" := "https://your-nextcloud-domain.com/s/SHARE_TOKEN_NATURE"]
  const SUPPORTED_FORMATS: seq<string> := [".jpg", ".jpeg", ".png", ".webp"]
  const MAX_PHOTOS_PER_CATEGORY: nat := 500
  const DOWNLOAD_SEGMENT := "/download/"

  /** `client.ls(path)`: the entry names of a directory, None where the call raises. */
  type Listing = string -> Option<seq<string>>
  /** Download a file and run exifread on it: its tags, None where either step raises. */
  type Download = string -> Option<Exif.Tags>

  // ---------------------------------------------------------------------
  // Listing a category directory
  // ---------------------------------------------------------------------

  /** `any(f.lower().endswith(ext) for ext in supported_formats)` */
  predicate Supported(name: string)
  {
    exists i :: 0 <= i < |SUPPORTED_FORMATS| && EndsWith(Lower(name), SUPPORTED_FORMATS[i])
  }

  /** The list comprehension keeping the supported names, in listing order. */
  function PhotoNames(names: seq<string>): seq<string>
    decreases |names|
  {
    if names == [] then []
    else
      var last := names[|names| - 1];
      PhotoNames(names[..|names| - 1]) + (if Supported(last) then [last] else [])
  }

  /** A name is kept exactly when it is listed and has a supported extension in any letter case. */
  lemma {:induction false} PhotoNamesMembers(names: seq<string>, n: string)
    ensures n in PhotoNames(names) <==> n in names && Supported(n)
    ensures |PhotoNames(names)| <= |names|
    decreases |names|
  {
    if names != [] {
      var init := names[..|names| - 1];
      PhotoNamesMembers(init, n);
      assert names == init + [names[|names| - 1]];
    }
  }

  /** Filtering twice keeps what filtering once keeps. */
  lemma {:induction false} PhotoNamesIdempotent(names: seq<string>)
    ensures PhotoNames(PhotoNames(names)) == PhotoNames(names)
    decreases |names|
  {
    if names != [] {
      var init := names[..|names| - 1];
      var last := names[|names| - 1];
      PhotoNamesIdempotent(init);
      var kept := PhotoNames(init);
      if Supported(last) {
        assert PhotoNames(names) == kept + [last];
        var s := kept + [last];
        assert s[..|s| - 1] == kept && s[|s| - 1] == last;
        assert PhotoNames(s) == PhotoNames(kept) + [last];
      } else {
        assert PhotoNames(names) == kept;
      }
    }
  }

  /** Unlike the file-system indexers' glob, the test ignores letter case. */
  lemma MixedCaseSupported()
    ensures Supported("Sunset.JpG")
  {
    assert Lower("Sunset.JpG") == "sunset.jpg";
    assert EndsWith(Lower("Sunset.JpG"), SUPPORTED_FORMATS[0]);
  }

  /** The names `scan_directory` processes: the first 500 supported ones; none when `ls` raises. */
  function Candidates(listing: Listing, directory: string): seq<string>
  {
    match listing(directory)
    case None => []
    case Some(names) => Take(PhotoNames(names), MAX_PHOTOS_PER_CATEGORY)
  }

  /** `f"{directory}/{file_path}"`, or without the '/' when `directory` already ends in one. */
  function JoinPath(directory: string, name: string): (path: string)
  {
    if EndsWith(directory, "/") then directory + name else directory + "/" + name
  }

  /** Joining puts exactly one '/' between a directory and a name, and the base name gives the name back. */
  lemma JoinPathBasename(directory: string, name: string)
    requires forall i :: 0 <= i < |name| ==> name[i] != '/'
    ensures Basename(JoinPath(directory, name)) == name
    ensures EndsWith(directory, "/") ==> JoinPath(directory, name) == directory + name
    ensures !EndsWith(directory, "/") ==> JoinPath(directory, name) == directory + "/" + name
    ensures StartsWith(JoinPath(directory, name), directory)
  {
    var head := if EndsWith(directory, "/") then directory else directory + "/";
    assert JoinPath(directory, name) == head + name;
    assert head[|head| - 1] == '/';
    LastFieldAfterSep(head, name, '/');
    assert JoinPath(directory, name)[..|directory|] == directory;
  }

  // ---------------------------------------------------------------------
  // One photo
  // ---------------------------------------------------------------------

  /** `CONFIG['public_shares'].get(category, '')` */
  function ShareOf(shares: map<string, string>, category: string): string
  {
    if category in shares then shares[category] else ""
  }

  /** `date_taken or 'Unknown'`, with only `EXIF DateTimeOriginal` consulted. */
  function CloudDate(tags: Exif.Tags): string
  {
    match Exif.CaptureDate(tags)
    case Some(d) => d
    case None => UNKNOWN
  }

  /** `extract_photo_metadata(full_path, category)` with `len(self.photos) + 1` as `id`. */
  function ProcessPhoto(path: string, category: string, id: nat, download: Download, shares: map<string, string>): Option<Record>
  {
    match download(path)
    case None => None
    case Some(tags) =>
      var share := ShareOf(shares, category);
      if share == [] then None
      else
        Some(CloudRecord(path, category, id, tags, share))
  }

  /** The record of a downloaded photo with share `share`. */
  function CloudRecord(path: string, category: string, id: nat, tags: Exif.Tags, share: string): Record
  {
    var filename := Basename(path);
    var url := share + DOWNLOAD_SEGMENT + filename;
    var gps := Exif.ExtractGps(tags);
    Record(
      id := id,
      title := Title(SplitExtRoot(filename)),
      category := category,
      thumbnail := url,
      full := url,
      lat := if gps.Some? then Some(gps.value.0) else None,
      lng := if gps.Some? then Some(gps.value.1) else None,
      location := if gps.Some? then Coordinates(gps.value.0, gps.value.1) else Place(UNKNOWN),
      date := CloudDate(tags),
      filename := filename,
      originalFile := None,
      driveFolder := None,
      fileId := None)
  }

  /** A record carries the category and id it was made with. */
  lemma ProcessPhotoStamp(path: string, category: string, id: nat, download: Download, shares: map<string, string>)
    ensures ProcessPhoto(path, category, id, download, shares).Some? ==>
      ProcessPhoto(path, category, id, download, shares).value.category == category
      && ProcessPhoto(path, category, id, download, shares).value.id == id
  {
  }

  /** A record is made exactly when the download succeeds and the category has a non-empty share. */
  lemma ProcessPhotoGate(path: string, category: string, id: nat, download: Download, shares: map<string, string>)
    ensures ProcessPhoto(path, category, id, download, shares).Some?
      <==> download(path).Some? && category in shares && shares[category] != []
  {
  }

  /**
   * Both URLs are the share's download link for the base name; the date is a
   * real calendar date or "Unknown"; the location is the coordinates exactly
   * when there is a GPS pair, else "Unknown".
   */
  lemma ProcessPhotoRecord(path: string, category: string, id: nat, download: Download, shares: map<string, string>)
    requires ProcessPhoto(path, category, id, download, shares).Some?
    ensures var r := ProcessPhoto(path, category, id, download, shares).value;
      var tags := download(path).value;
      && r.id == id && r.category == category
      && r.filename == Basename(path)
      && r.thumbnail == r.full == shares[category] + DOWNLOAD_SEGMENT + Basename(path)
      && r.title == Title(SplitExtRoot(Basename(path)))
      && (Exif.IsIsoDate(r.date) || r.date == UNKNOWN)
      && (r.date == UNKNOWN <==> Exif.CaptureDate(tags).None?)
      && GpsFieldsAgree(r, Exif.ExtractGps(tags))
      && (r.location.Coordinates? <==> Exif.ExtractGps(tags).Some?)
      && (r.location.Place? ==> r.location.name == UNKNOWN)
  {
    var tags := download(path).value;
    Exif.CaptureDateChain(tags);
    if Exif.CaptureDate(tags).Some? {
      var d :| Exif.ValidDate(d) && Exif.CaptureDate(tags).value == Exif.IsoDate(d);
      Manifest.IsoDateStartsWithDigit(d);
      assert Exif.IsoDate(d)[0] != UNKNOWN[0];
    }
  }

  // ---------------------------------------------------------------------
  // One category
  // ---------------------------------------------------------------------

  /** `scan_directory(directory, category)`; an indexer that never connected has no client and finds nothing. */
  function Scan(connected: bool, listing: Listing, download: Download, shares: map<string, string>,
                category: string, directory: string, id: nat): seq<Record>
  {
    if !connected then []
    else Collected(Candidates(listing, directory), Processor(directory, category, id, download, shares))
  }

  function Processor(directory: string, category: string, id: nat, download: Download, shares: map<string, string>): string -> Option<Record>
  {
    name => ProcessPhoto(JoinPath(directory, name), category, id, download, shares)
  }

  function CategoryScan(connected: bool, listing: Listing, download: Download, shares: map<string, string>): Scanner
  {
    (category: string, directory: string, id: nat) => Scan(connected, listing, download, shares, category, directory, id)
  }

  /** Each record made from listed names carries the scan's category and id. */
  lemma ProcessedStamped(names: seq<string>, directory: string, category: string, id: nat, download: Download, shares: map<string, string>)
    ensures Stamped(Collected(names, Processor(directory, category, id, download, shares)), category, id)
  {
    var process := Processor(directory, category, id, download, shares);
    CollectedMembers(names, process);
    forall r | r in Collected(names, process) ensures r.category == category && r.id == id {
      var i :| 0 <= i < |names| && process(names[i]) == Some(r);
      ProcessPhotoStamp(JoinPath(directory, names[i]), category, id, download, shares);
    }
  }

  /** At most 500 records per scan, each with the scan's category and id. */
  lemma ScanStamped(listing: Listing, download: Download, shares: map<string, string>, category: string, directory: string, id: nat)
    ensures |Scan(true, listing, download, shares, category, directory, id)| <= MAX_PHOTOS_PER_CATEGORY
    ensures Stamped(Scan(true, listing, download, shares, category, directory, id), category, id)
  {
    var names := Candidates(listing, directory);
    CollectedMembers(names, Processor(directory, category, id, download, shares));
    ProcessedStamped(names, directory, category, id, download, shares);
  }

  /** No records when `ls` raises or the category has no share. */
  lemma ScanEmpty(listing: Listing, download: Download, shares: map<string, string>, category: string, directory: string, id: nat)
    requires listing(directory).None? || ShareOf(shares, category) == []
    ensures Scan(true, listing, download, shares, category, directory, id) == []
  {
    var names := Candidates(listing, directory);
    var process := Processor(directory, category, id, download, shares);
    forall i | 0 <= i < |names| ensures process(names[i]).None? {
    }
    CollectedNone(names, process);
  }

  /** With a share and every download succeeding, one record per name, in order, named by its base name. */
  lemma ProcessedAll(names: seq<string>, directory: string, category: string, id: nat, download: Download, shares: map<string, string>)
    requires ShareOf(shares, category) != []
    requires forall n :: n in names ==> download(JoinPath(directory, n)).Some?
    ensures |Collected(names, Processor(directory, category, id, download, shares))| == |names|
    ensures forall i :: 0 <= i < |names| ==>
      Collected(names, Processor(directory, category, id, download, shares))[i].filename == Basename(JoinPath(directory, names[i]))
  {
    var process := Processor(directory, category, id, download, shares);
    forall i | 0 <= i < |names|
      ensures process(names[i]).Some? && process(names[i]).value.filename == Basename(JoinPath(directory, names[i]))
    {
      assert names[i] in names;
      var path := JoinPath(directory, names[i]);
      assert process(names[i]) == Some(CloudRecord(path, category, id, download(path).value, ShareOf(shares, category)));
    }
    CollectedAll(names, process);
  }

  /** With a share and every download succeeding, one record per listed photo, in listing order, named by its listed name. */
  lemma ScanComplete(listing: Listing, download: Download, shares: map<string, string>, category: string, directory: string, id: nat)
    requires ShareOf(shares, category) != []
    requires forall n :: n in Candidates(listing, directory) ==> download(JoinPath(directory, n)).Some?
    ensures |Scan(true, listing, download, shares, category, directory, id)| == |Candidates(listing, directory)|
    ensures forall i :: 0 <= i < |Candidates(listing, directory)| ==>
      Scan(true, listing, download, shares, category, directory, id)[i].filename
        == Basename(JoinPath(directory, Candidates(listing, directory)[i]))
  {
    ProcessedAll(Candidates(listing, directory), directory, category, id, download, shares);
  }

  lemma ScannerStamps(listing: Listing, download: Download, shares: map<string, string>)
    ensures StampsScan(CategoryScan(true, listing, download, shares))
  {
    forall category, directory, id
      ensures Stamped(CategoryScan(true, listing, download, shares)(category, directory, id), category, id)
    {
      ScanStamped(listing, download, shares, category, directory, id);
    }
  }

  // ---------------------------------------------------------------------
  // The indexer
  // ---------------------------------------------------------------------

  class NextCloudPhotoIndexer {
    /** The server's answer to `ls` on each path. */
    const listing: Listing
    /** The server's files as exifread sees them after download. */
    const download: Download
    /** `CONFIG['public_shares']`. */
    const shares: map<string, string>
    /** `self.client is not None` */
    var connected: bool
    var photos: seq<Record>
    /** What this indexer has written to `photos.json`; None until it writes it. */
    var manifest: Option<seq<Record>>

    constructor(listing: Listing, download: Download, shares: map<string, string>)
      ensures this.listing == listing && this.download == download && this.shares == shares
      ensures !connected && photos == [] && manifest == None
    {
      this.listing := listing;
      this.download := download;
      this.shares := shares;
      connected := false;
      photos := [];
      manifest := None;
    }

    /**
     * `connect_to_nextcloud`: `clientOk` says whether the `Client(...)`
     * constructor returns. When it raises, the old client stays and the
     * connection fails; otherwise the client is set and the test is `ls('/')`.
     */
    method ConnectToNextcloud(clientOk: bool) returns (ok: bool)
      modifies this
      ensures connected == (clientOk || old(connected))
      ensures ok == (clientOk && listing("/").Some?)
      ensures photos == old(photos) && manifest == old(manifest)
    {
      if !clientOk {
        return false;
      }
      connected := true;
      ok := listing("/").Some?;
    }

    method ScanDirectory(directory: string, category: string) returns (found: seq<Record>)
      ensures found == Scan(connected, listing, download, shares, category, directory, |photos| + 1)
    {
      if !connected {
        return [];
      }
      var names: seq<string> := [];
      var listed := listing(directory);
      if listed.Some? {
        names := Take(PhotoNames(listed.value), MAX_PHOTOS_PER_CATEGORY);
      }
      found := CollectEach(names, Processor(directory, category, |photos| + 1, download, shares));
    }

    /**
     * `generate_index`: every category is scanned and appended in
     * configuration order, then the whole list is sorted newest first and
     * written; there is no check on the connection here.
     */
    method GenerateIndex()
      modifies this
      ensures connected == old(connected)
      ensures photos == SortByDate(Appended(PHOTO_DIRECTORIES, old(photos), CategoryScan(connected, listing, download, shares)))
      ensures manifest == Some(photos)
    {
      var scan := CategoryScan(connected, listing, download, shares);
      for i := 0 to |PHOTO_DIRECTORIES|
        invariant connected == old(connected)
        invariant Appended(PHOTO_DIRECTORIES[i..], photos, scan) == Appended(PHOTO_DIRECTORIES, old(photos), scan)
      {
        var (category, directory) := PHOTO_DIRECTORIES[i];
        var categoryPhotos := ScanDirectory(directory, category);
        assert categoryPhotos == scan(category, directory, |photos| + 1);
        AppendedStep(PHOTO_DIRECTORIES, i, photos, scan);
        photos := photos + categoryPhotos;
      }
      photos := SortByDate(photos);
      manifest := Some(photos);
    }
  }

  /**
   * What `main` writes: nothing when the client cannot be created or
   * `ls('/')` fails, else the sorted manifest of a connected fresh indexer.
   */
  function RunResult(clientOk: bool, listing: Listing, download: Download, shares: map<string, string>): Option<seq<Record>>
  {
    if !clientOk || listing("/").None? then None
    else Some(SortByDate(Appended(PHOTO_DIRECTORIES, [], CategoryScan(true, listing, download, shares))))
  }

  /** `main`: create the indexer, connect, and generate the index only after a successful connection. */
  method Run(clientOk: bool, listing: Listing, download: Download, shares: map<string, string>) returns (written: Option<seq<Record>>)
    ensures written == RunResult(clientOk, listing, download, shares)
  {
    var indexer := new NextCloudPhotoIndexer(listing, download, shares);
    var ok := indexer.ConnectToNextcloud(clientOk);
    if !ok {
      return None;
    }
    indexer.GenerateIndex();
    written := indexer.manifest;
  }

  /** In a written manifest every record comes from one of the three scans, with that scan's category and id. */
  lemma RunManifest(clientOk: bool, listing: Listing, download: Download, shares: map<string, string>, r: Record)
    requires RunResult(clientOk, listing, download, shares).Some?
    requires r in RunResult(clientOk, listing, download, shares).value
    ensures FromFreshScan(PHOTO_DIRECTORIES, FreshScans(PHOTO_DIRECTORIES, CategoryScan(true, listing, download, shares)), r)
  {
    ScannerStamps(listing, download, shares);
    FreshThreeIds(PHOTO_DIRECTORIES, CategoryScan(true, listing, download, shares), r);
  }

  /** Records without a capture date head the written manifest, before every dated one. */
  lemma UndatedFirst(clientOk: bool, listing: Listing, download: Download, shares: map<string, string>, i: nat, j: nat)
    requires RunResult(clientOk, listing, download, shares).Some?
    requires i < |RunResult(clientOk, listing, download, shares).value| && j < |RunResult(clientOk, listing, download, shares).value|
    requires RunResult(clientOk, listing, download, shares).value[i].date == UNKNOWN
    requires Exif.IsIsoDate(RunResult(clientOk, listing, download, shares).value[j].date)
    ensures i < j
  {
    UnknownSortsFirst(Appended(PHOTO_DIRECTORIES, [], CategoryScan(true, listing, download, shares)), i, j);
  }
}
