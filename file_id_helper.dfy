/**
 * The Drive file-id helper: it replaces the placeholder URLs the Drive
 * indexer writes with direct image URLs, either one photo at a time from
 * typed responses or in a batch from a `filename = file_id` mapping file,
 * and it writes the template of that mapping file.
 */
module FileIdHelper {
  import opened Wrappers
  import opened Text
  import opened Manifest

  /** The direct image URL up to its `id=` parameter, in short pieces. */
  const DIRECT_URL_QUERY := "https://drive." + "google.com/" + "uc?export=" + "view&"
  const DIRECT_URL_PREFIX := DIRECT_URL_QUERY + ID_MARKER
  /** The Drive sharing link up to its file id. */
  const DRIVE_HOST := "https://drive." + "google.com"
  const FILE_LINK_PREFIX := DRIVE_HOST + FILE_MARKER
  const FILE_MARKER := "/file/d/"
  const ID_MARKER := "id="
  /** The text the Drive indexer's placeholder URLs carry. */
  const PLACEHOLDER_MARKER := "FILE_ID_FOR_"
  /** The value the template writes for every file. */
  const PLACEHOLDER_ID := "YOUR_FILE_ID_HERE"

  // ---------------------------------------------------------------------
  // URLs
  // ---------------------------------------------------------------------

  /** `extract_file_id_from_url`: after '/file/d/' up to '/', else after 'id=' up to '&', else None. */
  function ExtractFileIdFromUrl(url: string): Option<string>
  {
    if Contains(url, FILE_MARKER) then Some(Before(SecondField(url, FILE_MARKER), "/"))
    else if Contains(url, ID_MARKER) then Some(Before(SecondField(url, ID_MARKER), "&"))
    else None
  }

  /** `create_direct_image_url` */
  function CreateDirectImageUrl(fileId: string): string
  {
    DIRECT_URL_PREFIX + fileId
  }

  /** The prefix never puts "id" before its `id=` nor "/f" anywhere: the facts the markers' search needs. */
  lemma DirectUrlPairs()
    ensures |DIRECT_URL_QUERY| == 40 && DIRECT_URL_QUERY[39] == '&'
    ensures NoPair(DIRECT_URL_QUERY, 'i', 'd')
    ensures NoPair(DIRECT_URL_PREFIX, '/', 'f')
  {
    var c1, c2, c3, c4 := "https://drive.", "google.com/", "uc?export=", "view&";
    assert NoPair(c1, 'i', 'd') && NoPair(c2, 'i', 'd') && NoPair(c3, 'i', 'd') && NoPair(c4, 'i', 'd');
    assert NoPair(c1, '/', 'f') && NoPair(c2, '/', 'f') && NoPair(c3, '/', 'f') && NoPair(c4, '/', 'f');
    assert NoPair(ID_MARKER, '/', 'f');
    NoPairConcat(c1, c2, 'i', 'd');
    NoPairConcat(c1 + c2, c3, 'i', 'd');
    NoPairConcat(c1 + c2 + c3, c4, 'i', 'd');
    NoPairConcat(c1, c2, '/', 'f');
    NoPairConcat(c1 + c2, c3, '/', 'f');
    NoPairConcat(c1 + c2 + c3, c4, '/', 'f');
    NoPairConcat(DIRECT_URL_QUERY, ID_MARKER, '/', 'f');
  }

  /** The direct URL's prefix holds no '/file/d/', and its first 'id=' is the one before the file id. */
  lemma DirectUrlMarkers(fileId: string)
    requires !Contains(fileId, FILE_MARKER)
    ensures !Contains(CreateDirectImageUrl(fileId), FILE_MARKER)
    ensures Find(CreateDirectImageUrl(fileId), ID_MARKER) == Some(|DIRECT_URL_PREFIX| - |ID_MARKER|)
  {
    var q := DIRECT_URL_QUERY;
    var p := DIRECT_URL_PREFIX;
    var s := p + fileId;
    DirectUrlPairs();
    forall j | 0 <= j < |p| ensures s[j] == p[j] {
    }
    assert FILE_MARKER[0] == '/' && FILE_MARKER[1] == 'f';
    forall j | 0 <= j < 42 ensures s[j] != '/' || s[j + 1] != 'f' {
      assert s[j] == p[j] && s[j + 1] == p[j + 1];
    }
    NoOccurrenceBefore(s, FILE_MARKER, 42);
    assert s[42] == p[42] == ID_MARKER[2];
    assert !OccursAt(s, FILE_MARKER, 42);
    FindAbsentAfter(p, fileId, FILE_MARKER);
    forall j | 0 <= j < 40 ensures s[j] != 'i' || s[j + 1] != 'd' {
      if j < 39 {
        assert s[j] == q[j] && s[j + 1] == q[j + 1];
      } else {
        assert s[j] == q[39];
      }
    }
    assert ID_MARKER[0] == 'i' && ID_MARKER[1] == 'd';
    NoOccurrenceBefore(s, ID_MARKER, 40);
    assert s[40..43] == p[40..43] == ID_MARKER;
    FindFirstAt(s, ID_MARKER, 40);
  }

  /** A direct URL gives back its file id, for ids without '&', 'id=' or '/file/d/'. */
  lemma DirectUrlRoundTrip(fileId: string)
    requires !Contains(fileId, "&") && !Contains(fileId, ID_MARKER) && !Contains(fileId, FILE_MARKER)
    ensures ExtractFileIdFromUrl(CreateDirectImageUrl(fileId)) == Some(fileId)
  {
    var s := CreateDirectImageUrl(fileId);
    DirectUrlMarkers(fileId);
    assert s[|DIRECT_URL_PREFIX|..] == fileId;
    assert After(s, ID_MARKER) == fileId;
  }

  /** A `/file/d/<id>/view` sharing link gives back its file id, for ids without '/'. */
  lemma FileLinkRoundTrip(fileId: string)
    requires forall i :: 0 <= i < |fileId| ==> fileId[i] != '/'
    ensures ExtractFileIdFromUrl(FILE_LINK_PREFIX + fileId + "/view") == Some(fileId)
  {
    var t := fileId + "/view";
    assert FILE_LINK_PREFIX + fileId + "/view" == FILE_LINK_PREFIX + t;
    FileLinkMarker(t);
    ViewTail(fileId);
  }

  /** The first '/file/d/' of a sharing link is the one ending its prefix. */
  lemma FileLinkMarker(t: string)
    ensures Contains(FILE_LINK_PREFIX + t, FILE_MARKER) && After(FILE_LINK_PREFIX + t, FILE_MARKER) == t
  {
    var h := DRIVE_HOST;
    var s := FILE_LINK_PREFIX + t;
    var c1, c2 := "https://drive.", "google.com";
    assert NoPair(c1, '/', 'f') && NoPair(c2, '/', 'f');
    NoPairConcat(c1, c2, '/', 'f');
    assert |h| == 24 && h[23] == 'm';
    assert s == h + (FILE_MARKER + t);
    assert FILE_MARKER[0] == '/' && FILE_MARKER[1] == 'f';
    forall j | 0 <= j < 24 ensures s[j] != '/' || s[j + 1] != 'f' {
      assert s[j] == h[j];
      if j < 23 { assert s[j + 1] == h[j + 1]; }
    }
    NoOccurrenceBefore(s, FILE_MARKER, 24);
    assert s[24..32] == FILE_MARKER;
    FindFirstAt(s, FILE_MARKER, 24);
    assert s[32..] == t;
  }

  /** After the marker, `<id>/view` holds no second marker and its first '/' ends the id. */
  lemma ViewTail(fileId: string)
    requires forall i :: 0 <= i < |fileId| ==> fileId[i] != '/'
    ensures !Contains(fileId + "/view", FILE_MARKER) && Before(fileId + "/view", "/") == fileId
  {
    var t := fileId + "/view";
    forall k | 0 <= k ensures !OccursAt(t, FILE_MARKER, k) {
      if k + |FILE_MARKER| <= |t| {
        assert t[k..k + |FILE_MARKER|][0] == fileId[k];
      }
    }
    forall j | 0 <= j < |fileId| ensures !OccursAt(t, "/", j) {
      assert t[j..j + 1][0] == fileId[j];
    }
    assert t[|fileId|..|fileId| + 1] == "/";
    FindFirstAt(t, "/", |fileId|);
    assert t[..|fileId|] == fileId;
  }

  // ---------------------------------------------------------------------
  // Setting a photo's file id
  // ---------------------------------------------------------------------

  /** The three assignments of an update: both URLs to the direct URL, and `file_id`. */
  function WithFileId(photo: Record, fileId: string): (r: Record)
  {
    var url := CreateDirectImageUrl(fileId);
    photo.(thumbnail := url, full := url, fileId := Some(fileId))
  }

  /**
   * An updated photo keeps every other field; its URLs lead back to the id
   * whenever the id has no '&', 'id=' or '/file/d/'; setting the same id again
   * changes nothing.
   */
  lemma WithFileIdFacts(photo: Record, fileId: string)
    ensures var r := WithFileId(photo, fileId);
      && r.thumbnail == r.full && r.fileId == Some(fileId)
      && r.id == photo.id && r.title == photo.title && r.category == photo.category
      && r.filename == photo.filename && r.date == photo.date && r.location == photo.location
      && r.lat == photo.lat && r.lng == photo.lng
      && r.originalFile == photo.originalFile && r.driveFolder == photo.driveFolder
      && WithFileId(r, fileId) == r
    ensures !Contains(fileId, "&") && !Contains(fileId, ID_MARKER) && !Contains(fileId, FILE_MARKER) ==>
      ExtractFileIdFromUrl(WithFileId(photo, fileId).thumbnail) == Some(fileId)
  {
    if !Contains(fileId, "&") && !Contains(fileId, ID_MARKER) && !Contains(fileId, FILE_MARKER) {
      DirectUrlRoundTrip(fileId);
    }
  }

  // ---------------------------------------------------------------------
  // The mapping file
  // ---------------------------------------------------------------------

  /**
   * One line of the mapping file: stripped; blank lines, '#' lines and lines
   * without '=' give nothing; otherwise the stripped text on either side of
   * the first '='.
   */
  function ParseLine(line: string): Option<(string, string)>
  {
    var l := Strip(line);
    if l != [] && !StartsWith(l, "#") && Contains(l, "=") then
      Some((Strip(Before(l, "=")), Strip(After(l, "="))))
    else None
  }

  /** What each line of the file parses to. */
  function Entries(lines: seq<string>): seq<Option<(string, string)>>
  {
    seq(|lines|, i requires 0 <= i < |lines| => ParseLine(lines[i]))
  }

  /** The map the entries build, a later entry for the same name overwriting an earlier one. */
  function MapOf(entries: seq<Option<(string, string)>>): map<string, string>
    decreases |entries|
  {
    if entries == [] then map[]
    else
      var m := MapOf(entries[..|entries| - 1]);
      var entry := entries[|entries| - 1];
      if entry.Some? then m[entry.value.0 := entry.value.1] else m
  }

  /** `file_id_map` after reading `lines`. */
  function MappingOf(lines: seq<string>): map<string, string>
  {
    MapOf(Entries(lines))
  }

  /** The parsing loop of `update_from_mapping`. */
  method ParseMapping(lines: seq<string>) returns (fileIdMap: map<string, string>)
    ensures fileIdMap == MappingOf(lines)
  {
    ghost var entries := Entries(lines);
    fileIdMap := map[];
    for i := 0 to |lines|
      invariant fileIdMap == MapOf(entries[..i])
    {
      assert entries[..i + 1][..i] == entries[..i];
      var entry := ParseLine(lines[i]);
      assert entry == entries[i];
      if entry.Some? {
        var (name, fileId) := entry.value;
        fileIdMap := fileIdMap[name := fileId];
      }
    }
    assert entries[..|lines|] == entries;
  }

  /** Blank lines, comments and lines without '=' are skipped. */
  lemma ParseLineSkips(line: string)
    ensures Strip(line) == [] ==> ParseLine(line).None?
    ensures StartsWith(Strip(line), "#") ==> ParseLine(line).None?
    ensures !Contains(Strip(line), "=") ==> ParseLine(line).None?
    ensures Strip(line) != [] && !StartsWith(Strip(line), "#") && Contains(Strip(line), "=") ==> ParseLine(line).Some?
  {
  }

  /** A parsed name holds no '=' and neither side keeps surrounding whitespace. */
  lemma ParseLineShape(line: string)
    requires ParseLine(line).Some?
    ensures var (name, fileId) := ParseLine(line).value;
      && (forall i :: 0 <= i < |name| ==> name[i] != '=')
      && (name != [] ==> !IsSpace(name[0]) && !IsSpace(name[|name| - 1]))
      && (fileId != [] ==> !IsSpace(fileId[0]) && !IsSpace(fileId[|fileId| - 1]))
  {
    var l := Strip(line);
    var before := Before(l, "=");
    var k := Find(l, "=").value;
    assert before == l[..k];
    forall j | 0 <= j < k ensures l[j] != '=' {
      assert !OccursAt(l, "=", j);
      assert l[j..j + 1][0] == l[j];
    }
    StripShape(before);
    var a, b :| 0 <= a <= b <= |before| && Strip(before) == before[a..b];
    forall i | 0 <= i < |Strip(before)| ensures Strip(before)[i] != '=' {
      assert Strip(before)[i] == l[a + i];
    }
    StripShape(After(l, "="));
  }

  /** `entry` is an entry for `name`. */
  predicate Names(entry: Option<(string, string)>, name: string)
  {
    entry.Some? && entry.value.0 == name
  }

  lemma {:induction false} MapOfKeys(entries: seq<Option<(string, string)>>, name: string)
    ensures name in MapOf(entries) <==> exists i :: 0 <= i < |entries| && Names(entries[i], name)
    decreases |entries|
  {
    if entries != [] {
      var init := entries[..|entries| - 1];
      MapOfKeys(init, name);
      if exists i :: 0 <= i < |init| && Names(init[i], name) {
        var i :| 0 <= i < |init| && Names(init[i], name);
        assert entries[i] == init[i];
      }
      if exists i :: 0 <= i < |entries| && Names(entries[i], name) {
        var i :| 0 <= i < |entries| && Names(entries[i], name);
        if i < |init| {
          assert init[i] == entries[i];
        }
      }
    }
  }

  lemma {:induction false} MapOfLastWins(entries: seq<Option<(string, string)>>, i: nat, name: string, fileId: string)
    requires i < |entries| && entries[i] == Some((name, fileId))
    requires forall j :: i < j < |entries| ==> !Names(entries[j], name)
    ensures name in MapOf(entries) && MapOf(entries)[name] == fileId
    decreases |entries|
  {
    var init := entries[..|entries| - 1];
    if i < |entries| - 1 {
      assert init[i] == entries[i];
      assert forall j :: i < j < |init| ==> init[j] == entries[j];
      MapOfLastWins(init, i, name, fileId);
    }
  }

  /** A name is in the map exactly when some line parses to an entry for it. */
  lemma MappingKeys(lines: seq<string>, name: string)
    ensures name in MappingOf(lines) <==> exists i :: 0 <= i < |lines| && Names(ParseLine(lines[i]), name)
  {
    var entries := Entries(lines);
    MapOfKeys(entries, name);
    if exists i :: 0 <= i < |lines| && Names(ParseLine(lines[i]), name) {
      var i :| 0 <= i < |lines| && Names(ParseLine(lines[i]), name);
      assert Names(entries[i], name);
    }
  }

  /** The value recorded for a name is the one on the last line that names it. */
  lemma MappingLastWins(lines: seq<string>, i: nat, name: string, fileId: string)
    requires i < |lines| && ParseLine(lines[i]) == Some((name, fileId))
    requires forall j :: i < j < |lines| ==> !Names(ParseLine(lines[j]), name)
    ensures name in MappingOf(lines) && MappingOf(lines)[name] == fileId
  {
    var entries := Entries(lines);
    assert forall j :: i < j < |lines| ==> entries[j] == ParseLine(lines[j]);
    MapOfLastWins(entries, i, name, fileId);
  }

  // ---------------------------------------------------------------------
  // Batch update
  // ---------------------------------------------------------------------

  /** `filename in file_id_map and file_id_map[filename] != 'YOUR_FILE_ID_HERE'` */
  predicate Eligible(photo: Record, fileIdMap: map<string, string>)
  {
    photo.filename in fileIdMap && fileIdMap[photo.filename] != PLACEHOLDER_ID
  }

  function UpdatedPhoto(photo: Record, fileIdMap: map<string, string>): Record
  {
    if Eligible(photo, fileIdMap) then WithFileId(photo, fileIdMap[photo.filename]) else photo
  }

  /** The manifest after the update loop. */
  function Updated(photos: seq<Record>, fileIdMap: map<string, string>): seq<Record>
  {
    seq(|photos|, i requires 0 <= i < |photos| => UpdatedPhoto(photos[i], fileIdMap))
  }

  /** The number of eligible photos. */
  function CountEligible(photos: seq<Record>, fileIdMap: map<string, string>): nat
    decreases |photos|
  {
    if photos == [] then 0
    else CountEligible(photos[..|photos| - 1], fileIdMap) + (if Eligible(photos[|photos| - 1], fileIdMap) then 1 else 0)
  }

  /** The update loop of `update_from_mapping`, on the loaded list in place. */
  method UpdateInPlace(photos: array<Record>, fileIdMap: map<string, string>) returns (updatedCount: nat)
    modifies photos
    ensures photos[..] == Updated(old(photos[..]), fileIdMap)
    ensures updatedCount == CountEligible(old(photos[..]), fileIdMap)
  {
    ghost var original := photos[..];
    updatedCount := 0;
    for i := 0 to photos.Length
      invariant photos[i..] == original[i..]
      invariant forall k :: 0 <= k < i ==> photos[k] == UpdatedPhoto(original[k], fileIdMap)
      invariant updatedCount == CountEligible(original[..i], fileIdMap)
    {
      ghost var before := photos[..];
      assert before[i..][0] == original[i..][0];
      var photo := photos[i];
      if photo.filename in fileIdMap && fileIdMap[photo.filename] != PLACEHOLDER_ID {
        photos[i] := WithFileId(photo, fileIdMap[photo.filename]);
        updatedCount := updatedCount + 1;
      }
      assert photos[..] == before[i := UpdatedPhoto(original[i], fileIdMap)];
      UpdateStep(original, before, photos[..], i, fileIdMap);
      CountEligibleStep(original, i, fileIdMap);
    }
    assert original[..photos.Length] == original;
  }

  /** One pass of the update loop moves the boundary between updated and original photos by one. */
  lemma UpdateStep(original: seq<Record>, before: seq<Record>, after: seq<Record>, i: nat, fileIdMap: map<string, string>)
    requires i < |original| == |before|
    requires before[i..] == original[i..]
    requires forall k :: 0 <= k < i ==> before[k] == UpdatedPhoto(original[k], fileIdMap)
    requires after == before[i := UpdatedPhoto(original[i], fileIdMap)]
    ensures after[i + 1..] == original[i + 1..]
    ensures forall k :: 0 <= k < i + 1 ==> after[k] == UpdatedPhoto(original[k], fileIdMap)
  {
    forall k | i + 1 <= k < |after| ensures after[k] == original[k] {
      assert before[i..][k - i] == original[i..][k - i];
    }
  }

  lemma CountEligibleStep(photos: seq<Record>, i: nat, fileIdMap: map<string, string>)
    requires i < |photos|
    ensures CountEligible(photos[..i + 1], fileIdMap)
      == CountEligible(photos[..i], fileIdMap) + (if Eligible(photos[i], fileIdMap) then 1 else 0)
  {
    assert photos[..i + 1][..i] == photos[..i];
  }

  /**
   * `update_from_mapping`: nothing is written when either file is missing;
   * otherwise the updated manifest, and the number of photos updated.
   */
  method UpdateFromMapping(mappingLines: Option<seq<string>>, manifest: Option<seq<Record>>)
    returns (written: Option<seq<Record>>, updatedCount: nat)
    ensures mappingLines.None? || manifest.None? ==> written.None? && updatedCount == 0
    ensures mappingLines.Some? && manifest.Some? ==>
      && written == Some(Updated(manifest.value, MappingOf(mappingLines.value)))
      && updatedCount == CountEligible(manifest.value, MappingOf(mappingLines.value))
  {
    if mappingLines.None? || manifest.None? {
      return None, 0;
    }
    var fileIdMap := ParseMapping(mappingLines.value);
    var photos := new Record[|manifest.value|](i requires 0 <= i < |manifest.value| => manifest.value[i]);
    assert photos[..] == manifest.value;
    updatedCount := UpdateInPlace(photos, fileIdMap);
    written := Some(photos[..]);
  }

  /**
   * The list keeps its order and length; an eligible photo gets the direct
   * URL of its mapped id in both URLs and that id; every other photo is
   * unchanged.
   */
  lemma UpdatedFacts(photos: seq<Record>, fileIdMap: map<string, string>, i: nat)
    requires i < |photos|
    ensures |Updated(photos, fileIdMap)| == |photos|
    ensures !Eligible(photos[i], fileIdMap) ==> Updated(photos, fileIdMap)[i] == photos[i]
    ensures Eligible(photos[i], fileIdMap) ==>
      var r := Updated(photos, fileIdMap)[i];
      var fileId := fileIdMap[photos[i].filename];
      && r.thumbnail == r.full == CreateDirectImageUrl(fileId)
      && r.fileId == Some(fileId)
      && r.filename == photos[i].filename && r.id == photos[i].id && r.title == photos[i].title
      && r.category == photos[i].category && r.date == photos[i].date
  {
    if Eligible(photos[i], fileIdMap) {
      WithFileIdFacts(photos[i], fileIdMap[photos[i].filename]);
    }
  }

  /** Running the update twice is the same as running it once. */
  lemma UpdatedIdempotent(photos: seq<Record>, fileIdMap: map<string, string>)
    ensures Updated(Updated(photos, fileIdMap), fileIdMap) == Updated(photos, fileIdMap)
  {
    var once := Updated(photos, fileIdMap);
    forall i | 0 <= i < |photos| ensures UpdatedPhoto(once[i], fileIdMap) == once[i] {
      if Eligible(photos[i], fileIdMap) {
        WithFileIdFacts(photos[i], fileIdMap[photos[i].filename]);
      }
    }
  }

  /** The count is at most the list's length, and is its length exactly when every photo is eligible. */
  lemma {:induction false} CountEligibleBound(photos: seq<Record>, fileIdMap: map<string, string>)
    ensures CountEligible(photos, fileIdMap) <= |photos|
    ensures CountEligible(photos, fileIdMap) == |photos| <==> forall i :: 0 <= i < |photos| ==> Eligible(photos[i], fileIdMap)
    ensures CountEligible(photos, fileIdMap) == 0 <==> forall i :: 0 <= i < |photos| ==> !Eligible(photos[i], fileIdMap)
    decreases |photos|
  {
    if photos != [] {
      var init := photos[..|photos| - 1];
      CountEligibleBound(init, fileIdMap);
      assert forall i :: 0 <= i < |init| ==> init[i] == photos[i];
    }
  }

  // ---------------------------------------------------------------------
  // The mapping template
  // ---------------------------------------------------------------------

  /** `'FILE_ID_FOR_' in photo['thumbnail']`: the photo still has the Drive indexer's placeholder URL. */
  predicate HasPlaceholder(photo: Record)
  {
    Contains(photo.thumbnail, PLACEHOLDER_MARKER)
  }

  const TITLE_LINE := "# Google Drive File ID Mapping\n"
  const FORMAT_LINE := "# Format: filename = file_id\n"
  const HINT_LINE := "# Get file IDs " + "by right-clicking photos " + "in Google Drive > Get link\n"
  const TEMPLATE_HEADER: seq<string> := [TITLE_LINE, FORMAT_LINE, HINT_LINE, "\n"]
  const ENTRY_SUFFIX := " = YOUR_FILE_ID_HERE\n"

  function EntryLine(filename: string): string { filename + ENTRY_SUFFIX }

  /** One entry line per photo with a placeholder URL, in manifest order. */
  function TemplateEntries(photos: seq<Record>): seq<string>
    decreases |photos|
  {
    if photos == [] then []
    else
      var last := photos[|photos| - 1];
      TemplateEntries(photos[..|photos| - 1]) + (if HasPlaceholder(last) then [EntryLine(last.filename)] else [])
  }

  /** The lines of `file_id_mapping.txt`. */
  function TemplateLines(photos: seq<Record>): seq<string>
  {
    TEMPLATE_HEADER + TemplateEntries(photos)
  }

  /** `create_batch_update_template`: the template text, None when there is no manifest. */
  method CreateBatchUpdateTemplate(manifest: Option<seq<Record>>) returns (template: Option<string>)
    ensures manifest.None? ==> template.None?
    ensures manifest.Some? ==> template == Some(Concat(TemplateLines(manifest.value)))
  {
    if manifest.None? {
      return None;
    }
    var photos := manifest.value;
    var text := TITLE_LINE;
    text := text + FORMAT_LINE;
    text := text + HINT_LINE + "\n";
    HeaderText();
    assert photos[..0] == [] && TEMPLATE_HEADER + [] == TEMPLATE_HEADER;
    for i := 0 to |photos|
      invariant text == Concat(TEMPLATE_HEADER + TemplateEntries(photos[..i]))
    {
      assert photos[..i + 1][..i] == photos[..i];
      if HasPlaceholder(photos[i]) {
        var lines := TEMPLATE_HEADER + TemplateEntries(photos[..i]);
        assert TEMPLATE_HEADER + TemplateEntries(photos[..i + 1]) == lines + [EntryLine(photos[i].filename)];
        assert (lines + [EntryLine(photos[i].filename)])[..|lines|] == lines;
        text := text + photos[i].filename + ENTRY_SUFFIX;
      } else {
        assert TemplateEntries(photos[..i + 1]) == TemplateEntries(photos[..i]);
      }
    }
    assert photos[..|photos|] == photos;
    return Some(text);
  }

  /** A line starting with '#' is a comment. */
  lemma CommentSkipped(line: string)
    requires line != [] && line[0] == '#'
    ensures ParseLine(line).None?
  {
    assert LStrip(line) == line;
    RStripShape(line);
    var k :| 0 <= k <= |line| && RStrip(line) == line[..k] && forall j :: k <= j < |line| ==> IsSpace(line[j]);
    assert k >= 1;
    assert Strip(line)[..1] == "#";
  }

  /** A stripped line `u` + "=..." where `u` has no '=' splits at the end of `u`. */
  lemma AfterFirstEquals(u: string, v: string)
    requires forall i :: 0 <= i < |u| ==> u[i] != '='
    requires v != [] && v[0] == '='
    ensures Contains(u + v, "=") && After(u + v, "=") == v[1..]
  {
    var l := u + v;
    forall j | 0 <= j < |u| ensures !OccursAt(l, "=", j) {
      assert l[j..j + 1] == [u[j]];
    }
    assert l[|u|..|u| + 1] == "=";
    FindFirstAt(l, "=", |u|);
    assert l[|u| + 1..] == v[1..];
  }

  const ENTRY_VALUE := "= YOUR_FILE_ID_HERE"

  /** Stripping an entry line removes the spaces before the name and the line break. */
  lemma StripEntryLine(filename: string)
    ensures Strip(EntryLine(filename)) == LStrip(filename + " ") + ENTRY_VALUE
  {
    var x := filename + " ";
    var y := ENTRY_VALUE + "\n";
    assert ENTRY_SUFFIX == " " + y;
    assert EntryLine(filename) == x + y;
    LStripConcat(x, y);
    var u := LStrip(x);
    var l := u + y;
    assert LStrip(EntryLine(filename)) == l;
    assert l[|l| - 1] == '\n';
    assert l[..|l| - 1] == u + ENTRY_VALUE;
    assert RStrip(l) == RStrip(u + ENTRY_VALUE);
    assert (u + ENTRY_VALUE)[|u + ENTRY_VALUE| - 1] == 'E';
    assert RStrip(u + ENTRY_VALUE) == u + ENTRY_VALUE;
  }

  lemma PlaceholderStripped()
    ensures Strip(ENTRY_VALUE[1..]) == PLACEHOLDER_ID
  {
    var w := ENTRY_VALUE[1..];
    assert w[0] == ' ' && w[1..][0] == 'Y';
    assert LStrip(w) == w[1..];
    assert w[1..] == PLACEHOLDER_ID;
  }

  /** An entry line whose file name has no '=' can only record the placeholder id. */
  lemma EntryLineValue(filename: string)
    requires forall i :: 0 <= i < |filename| ==> filename[i] != '='
    ensures ParseLine(EntryLine(filename)).Some? ==> ParseLine(EntryLine(filename)).value.1 == PLACEHOLDER_ID
  {
    var u := LStrip(filename + " ");
    StripEntryLine(filename);
    NoEqualsStripped(filename);
    AfterFirstEquals(u, ENTRY_VALUE);
    PlaceholderStripped();
  }

  /** Stripping leading spaces from a name with no '=' leaves none. */
  lemma NoEqualsStripped(filename: string)
    requires forall i :: 0 <= i < |filename| ==> filename[i] != '='
    ensures var u := LStrip(filename + " "); forall i :: 0 <= i < |u| ==> u[i] != '='
  {
    var x := filename + " ";
    LStripShape(x);
    var u := LStrip(x);
    var k :| 0 <= k <= |x| && u == x[k..];
    forall i | 0 <= i < |u| ensures u[i] != '=' {
      assert u[i] == x[k + i];
    }
  }

  /** Every value in a map built from entries with value `v` is `v`. */
  lemma {:induction false} MapOfValues(entries: seq<Option<(string, string)>>, v: string)
    requires forall i :: 0 <= i < |entries| && entries[i].Some? ==> entries[i].value.1 == v
    ensures forall name :: name in MapOf(entries) ==> MapOf(entries)[name] == v
    decreases |entries|
  {
    if entries != [] {
      var init := entries[..|entries| - 1];
      assert forall i :: 0 <= i < |init| ==> init[i] == entries[i];
      MapOfValues(init, v);
    }
  }

  lemma {:induction false} TemplateEntriesAreLines(photos: seq<Record>, i: nat)
    requires i < |TemplateEntries(photos)|
    ensures exists k :: 0 <= k < |photos| && TemplateEntries(photos)[i] == EntryLine(photos[k].filename)
    decreases |photos|
  {
    var init := photos[..|photos| - 1];
    if i < |TemplateEntries(init)| {
      TemplateEntriesAreLines(init, i);
      var k :| 0 <= k < |init| && TemplateEntries(init)[i] == EntryLine(init[k].filename);
      assert photos[k] == init[k];
    } else {
      assert TemplateEntries(photos)[i] == EntryLine(photos[|photos| - 1].filename);
    }
  }

  /** The header lines are lines, and comments or blank. */
  lemma HeaderLines(i: nat)
    requires i < |TEMPLATE_HEADER|
    ensures IsLine(TEMPLATE_HEADER[i]) && ParseLine(TEMPLATE_HEADER[i]).None?
  {
    var h := TEMPLATE_HEADER[i];
    if i == 0 {
      assert h == "# Google Drive File ID Mapping\n";
      assert forall j :: 0 <= j < |h| - 1 ==> h[j] != '\n';
      CommentSkipped(h);
    } else if i == 1 {
      assert h == "# Format: filename = file_id\n";
      assert forall j :: 0 <= j < |h| - 1 ==> h[j] != '\n';
      CommentSkipped(h);
    } else if i == 2 {
      var a, b, c := "# Get file IDs ", "by right-clicking photos ", "in Google Drive > Get link\n";
      assert h == a + b + c;
      assert forall j :: 0 <= j < |a| ==> a[j] != '\n';
      assert forall j :: 0 <= j < |b| ==> b[j] != '\n';
      assert forall j :: 0 <= j < |c| - 1 ==> c[j] != '\n';
      forall j | 0 <= j < |h| - 1 ensures h[j] != '\n' {
        if j < |a| {
          assert h[j] == a[j];
        } else if j < |a| + |b| {
          assert h[j] == b[j - |a|];
        } else {
          assert h[j] == c[j - |a| - |b|];
        }
      }
      assert h[0] == a[0];
      CommentSkipped(h);
    } else {
      assert h == "\n";
      assert Strip(h) == [];
    }
  }

  /** The header lines joined, as `create_batch_update_template` writes them. */
  lemma HeaderText()
    ensures Concat(TEMPLATE_HEADER) == TITLE_LINE + FORMAT_LINE + HINT_LINE + "\n"
  {
    var h := TEMPLATE_HEADER;
    assert h == [h[0]] + [h[1], h[2], h[3]];
    assert [h[1], h[2], h[3]] == [h[1]] + [h[2], h[3]];
    assert [h[2], h[3]] == [h[2]] + [h[3]];
    assert [h[3]] == [h[3]] + [];
    ConcatCons(h[3], []);
    ConcatCons(h[2], [h[3]]);
    ConcatCons(h[1], [h[2], h[3]]);
    ConcatCons(h[0], [h[1], h[2], h[3]]);
  }

  /** An entry line for a name without '=' or line breaks is a line that records at most the placeholder. */
  lemma EntryLineFacts(filename: string)
    requires forall j :: 0 <= j < |filename| ==> filename[j] != '=' && filename[j] != '\n'
    ensures IsLine(EntryLine(filename))
    ensures ParseLine(EntryLine(filename)).Some? ==> ParseLine(EntryLine(filename)).value.1 == PLACEHOLDER_ID
  {
    var e := EntryLine(filename);
    forall i | 0 <= i < |e| - 1 ensures e[i] != '\n' {
      if i < |filename| {
        assert e[i] == filename[i];
      } else {
        assert e[i] == ENTRY_SUFFIX[i - |filename|];
      }
    }
    EntryLineValue(filename);
  }

  predicate PlainNames(photos: seq<Record>)
  {
    forall k :: 0 <= k < |photos| ==> forall j :: 0 <= j < |photos[k].filename| ==>
      photos[k].filename[j] != '=' && photos[k].filename[j] != '\n' && photos[k].filename[j] != '\r'
  }

  lemma TemplateLineFacts(photos: seq<Record>, i: nat)
    requires PlainNames(photos)
    requires i < |TemplateLines(photos)|
    ensures IsLine(TemplateLines(photos)[i])
    ensures ParseLine(TemplateLines(photos)[i]).Some? ==> ParseLine(TemplateLines(photos)[i]).value.1 == PLACEHOLDER_ID
  {
    if i < |TEMPLATE_HEADER| {
      HeaderLines(i);
    } else {
      TemplateEntriesAreLines(photos, i - |TEMPLATE_HEADER|);
      var k :| 0 <= k < |photos| && TemplateEntries(photos)[i - |TEMPLATE_HEADER|] == EntryLine(photos[k].filename);
      EntryLineFacts(photos[k].filename);
    }
  }

  /**
   * Reading the template back and applying it changes nothing, for file
   * names without '=' or line breaks: every entry records only the
   * placeholder id, which the update skips.
   */
  lemma TemplateRoundTrip(photos: seq<Record>)
    requires PlainNames(photos)
    ensures Updated(photos, MappingOf(Lines(Concat(TemplateLines(photos))))) == photos
  {
    var lines := TemplateLines(photos);
    forall i | 0 <= i < |lines|
      ensures IsLine(lines[i])
      ensures ParseLine(lines[i]).Some? ==> ParseLine(lines[i]).value.1 == PLACEHOLDER_ID
    {
      TemplateLineFacts(photos, i);
    }
    LinesOfConcat(lines);
    var entries := Entries(lines);
    MapOfValues(entries, PLACEHOLDER_ID);
    var m := MappingOf(lines);
    forall i | 0 <= i < |photos| ensures UpdatedPhoto(photos[i], m) == photos[i] {
    }
  }

  // ---------------------------------------------------------------------
  // The interactive update
  // ---------------------------------------------------------------------

  /** What one typed response asks for. */
  datatype Decision = Stop | Keep | Assign(fileId: string)

  /**
   * The stripped response: 'done' in any case stops, 'skip' in any case or an
   * empty response keeps the photo; otherwise the id is extracted from an
   * 'http' link or taken as typed, and a missing or empty id keeps the photo.
   */
  function Decide(response: string): Decision
  {
    var r := Strip(response);
    if Lower(r) == "done" then Stop
    else if Lower(r) == "skip" || r == [] then Keep
    else
      var fileId := if StartsWith(r, "http") then ExtractFileIdFromUrl(r) else Some(r);
      if fileId.None? || fileId.value == [] then Keep else Assign(fileId.value)
  }

  /**
   * The loop of `update_photos_with_file_ids` over the photos and the typed
   * responses: the new list and the count, or None when the responses run
   * out (the `EOFError` ends the program before anything is saved).
   */
  function Interact(photos: seq<Record>, responses: seq<string>): Option<(seq<Record>, nat)>
    decreases |photos|
  {
    if photos == [] then Some(([], 0))
    else if !HasPlaceholder(photos[0]) then Prepend(photos[0], 0, Interact(photos[1..], responses))
    else if responses == [] then None
    else
      match Decide(responses[0])
      case Stop => Some((photos, 0))
      case Keep => Prepend(photos[0], 0, Interact(photos[1..], responses[1..]))
      case Assign(fileId) => Prepend(WithFileId(photos[0], fileId), 1, Interact(photos[1..], responses[1..]))
  }

  /** 'done' in any case, around any spaces, stops; an assigned id is never empty. */
  lemma DecideFacts(response: string)
    ensures Decide(response) == Stop <==> Lower(Strip(response)) == "done"
    ensures Strip(response) == [] ==> Decide(response) == Keep
    ensures Decide(response).Assign? ==> Decide(response).fileId != []
    ensures Decide(response).Assign? && !StartsWith(Strip(response), "http") ==> Decide(response).fileId == Strip(response)
  {
    if Strip(response) == [] {
      assert Lower(Strip(response)) == [];
    }
  }

  lemma DecideExamples()
    ensures Decide(" DONE\n") == Stop
    ensures Decide("Skip") == Keep
    ensures Decide("  ") == Keep
    ensures Decide("1AbC") == Assign("1AbC")
  {
    assert LStrip(" DONE\n") == "DONE\n";
    assert RStrip("DONE\n") == "DONE";
    assert Lower("DONE") == "done";
    assert Lower("Skip") == "skip";
    assert LStrip("  ") == [];
    var id := "1AbC";
    assert LStrip(id) == id && RStrip(id) == id;
    assert Lower(id) == "1abc";
    assert !StartsWith(id, "http");
  }

  /** A pasted sharing link assigns the id it carries. */
  lemma DecideFileLink(fileId: string)
    requires fileId != [] && forall i :: 0 <= i < |fileId| ==> fileId[i] != '/'
    ensures Decide(FILE_LINK_PREFIX + fileId + "/view") == Assign(fileId)
  {
    var r := FILE_LINK_PREFIX + fileId + "/view";
    assert r[0] == 'h' && r[|r| - 1] == 'w';
    assert LStrip(r) == r && RStrip(r) == r;
    assert r[..4] == FILE_LINK_PREFIX[..4] == "http";
    assert |Lower(r)| > 4;
    FileLinkRoundTrip(fileId);
  }

  /** A pasted direct URL assigns its id back, when the id ends in a non-space and has no markers. */
  lemma DecideDirectUrl(fileId: string)
    requires fileId != [] && !IsSpace(fileId[|fileId| - 1])
    requires !Contains(fileId, "&") && !Contains(fileId, ID_MARKER) && !Contains(fileId, FILE_MARKER)
    ensures Decide(CreateDirectImageUrl(fileId)) == Assign(fileId)
  {
    var p := DIRECT_URL_PREFIX;
    var r := p + fileId;
    forall j | 0 <= j < 4 ensures r[j] == p[j] {
    }
    assert r[0] == 'h' && r[1] == 't' && r[2] == 't' && r[3] == 'p';
    assert r[|r| - 1] == fileId[|fileId| - 1];
    assert LStrip(r) == r && RStrip(r) == r;
    assert r[..4] == "http";
    assert |Lower(r)| > 4;
    DirectUrlRoundTrip(fileId);
  }

  /** The outcome of the rest of the loop, after `photo` and `count` updates. */
  function Prepend(photo: Record, count: nat, rest: Option<(seq<Record>, nat)>): Option<(seq<Record>, nat)>
  {
    if rest.None? then None else Some(([photo] + rest.value.0, count + rest.value.1))
  }

  /** The outcome of the rest of the loop, after the photos `done` and `count` updates. */
  function Resume(done: seq<Record>, count: nat, rest: Option<(seq<Record>, nat)>): Option<(seq<Record>, nat)>
  {
    if rest.None? then None else Some((done + rest.value.0, count + rest.value.1))
  }

  lemma ResumePrepend(done: seq<Record>, count: nat, photo: Record, n: nat, rest: Option<(seq<Record>, nat)>)
    ensures Resume(done, count, Prepend(photo, n, rest)) == Resume(done + [photo], count + n, rest)
  {
    if rest.Some? {
      assert done + ([photo] + rest.value.0) == (done + [photo]) + rest.value.0;
    }
  }

  /** One step of `Interact`, with the decision for the first response named. */
  lemma InteractStep(photos: seq<Record>, responses: seq<string>)
    requires photos != []
    ensures !HasPlaceholder(photos[0]) ==> Interact(photos, responses) == Prepend(photos[0], 0, Interact(photos[1..], responses))
    ensures HasPlaceholder(photos[0]) && responses == [] ==> Interact(photos, responses) == None
    ensures HasPlaceholder(photos[0]) && responses != [] ==>
      var d := Decide(responses[0]);
      && (d == Stop ==> Interact(photos, responses) == Some((photos, 0)))
      && (d == Keep ==> Interact(photos, responses) == Prepend(photos[0], 0, Interact(photos[1..], responses[1..])))
      && (d.Assign? ==> Interact(photos, responses) == Prepend(WithFileId(photos[0], d.fileId), 1, Interact(photos[1..], responses[1..])))
  {
  }

  /** The interactive loop on the loaded list in place; false when the responses run out. */
  method InteractiveUpdate(photos: array<Record>, responses: seq<string>) returns (finished: bool, updatedCount: nat)
    modifies photos
    ensures finished <==> Interact(old(photos[..]), responses).Some?
    ensures finished ==> photos[..] == Interact(old(photos[..]), responses).value.0
    ensures finished ==> updatedCount == Interact(old(photos[..]), responses).value.1
  {
    ghost var original := photos[..];
    var i, j := 0, 0;
    updatedCount := 0;
    assert photos[..0] == [] && original[0..] == original && responses[0..] == responses;
    assert Interact(original, responses).Some? ==> [] + Interact(original, responses).value.0 == Interact(original, responses).value.0;
    while i < photos.Length
      invariant 0 <= i <= photos.Length && 0 <= j <= |responses|
      invariant photos[i..] == original[i..]
      invariant Interact(original, responses) == Resume(photos[..i], updatedCount, Interact(original[i..], responses[j..]))
      decreases photos.Length - i
    {
      ghost var before := photos[..];
      var photo := photos[i];
      assert before[i] == photo;
      if !Contains(photo.thumbnail, PLACEHOLDER_MARKER) {
        AdvancePass(original, responses, before, i, j, updatedCount);
        i := i + 1;
        continue;
      }
      if j == |responses| {
        Halted(original, responses, before, i, j, updatedCount);
        return false, updatedCount;
      }
      var decision := Decide(responses[j]);
      if decision == Stop {
        Halted(original, responses, before, i, j, updatedCount);
        return true, updatedCount;
      }
      if decision.Assign? {
        photos[i] := WithFileId(photo, decision.fileId);
        assert photos[..] == before[i := WithFileId(photo, decision.fileId)];
        AdvanceAssigned(original, responses, before, photos[..], i, j, updatedCount);
        updatedCount := updatedCount + 1;
      } else {
        AdvanceKept(original, responses, before, i, j, updatedCount);
      }
      i, j := i + 1, j + 1;
    }
    assert photos[..i] == photos[..];
    assert original[i..] == [];
    finished := true;
  }

  /**
   * One iteration of the loop on the photo at `i`: when the rest of the loop
   * from `i` is `photo` prepended to the rest from `i + 1`, writing `photo`
   * at `i` moves the split point one photo on.
   */
  lemma AdvanceInvariant(original: seq<Record>, responses: seq<string>, before: seq<Record>, after: seq<Record>,
                         i: nat, j: nat, j': nat, count: nat, photo: Record, n: nat)
    requires i < |original| == |before| && j <= j' <= |responses|
    requires before[i..] == original[i..] && after == before[i := photo]
    requires Interact(original, responses) == Resume(before[..i], count, Interact(original[i..], responses[j..]))
    requires Interact(original[i..], responses[j..]) == Prepend(photo, n, Interact(original[i + 1..], responses[j'..]))
    ensures after[i + 1..] == original[i + 1..]
    ensures Interact(original, responses) == Resume(after[..i + 1], count + n, Interact(original[i + 1..], responses[j'..]))
  {
    FrameStep(before, after, i, photo);
    ResumePrepend(before[..i], count, photo, n, Interact(original[i + 1..], responses[j'..]));
    assert before[i + 1..] == before[i..][1..] == original[i..][1..] == original[i + 1..];
  }

  /** A photo without a placeholder is passed over: the split point moves on, the responses stay. */
  lemma AdvancePass(original: seq<Record>, responses: seq<string>, before: seq<Record>, i: nat, j: nat, count: nat)
    requires i < |original| == |before| && j <= |responses|
    requires before[i..] == original[i..] && !HasPlaceholder(before[i])
    requires Interact(original, responses) == Resume(before[..i], count, Interact(original[i..], responses[j..]))
    ensures before[i + 1..] == original[i + 1..]
    ensures Interact(original, responses) == Resume(before[..i + 1], count, Interact(original[i + 1..], responses[j..]))
  {
    var ps, rs := original[i..], responses[j..];
    assert ps[0] == before[i] && ps[1..] == original[i + 1..];
    InteractStep(ps, rs);
    assert before[i := before[i]] == before;
    AdvanceInvariant(original, responses, before, before, i, j, j, count, before[i], 0);
  }

  /** A placeholder photo answered by a response that keeps it stays, and the response is used up. */
  lemma AdvanceKept(original: seq<Record>, responses: seq<string>, before: seq<Record>, i: nat, j: nat, count: nat)
    requires i < |original| == |before| && j < |responses|
    requires before[i..] == original[i..] && HasPlaceholder(before[i]) && Decide(responses[j]) == Keep
    requires Interact(original, responses) == Resume(before[..i], count, Interact(original[i..], responses[j..]))
    ensures before[i + 1..] == original[i + 1..]
    ensures Interact(original, responses) == Resume(before[..i + 1], count, Interact(original[i + 1..], responses[j + 1..]))
  {
    var ps, rs := original[i..], responses[j..];
    assert ps[0] == before[i] && ps[1..] == original[i + 1..];
    assert rs[0] == responses[j] && rs[1..] == responses[j + 1..];
    InteractStep(ps, rs);
    assert before[i := before[i]] == before;
    AdvanceInvariant(original, responses, before, before, i, j, j + 1, count, before[i], 0);
  }

  /** A placeholder photo answered with an id takes it, is counted, and the response is used up. */
  lemma AdvanceAssigned(original: seq<Record>, responses: seq<string>, before: seq<Record>, after: seq<Record>,
                        i: nat, j: nat, count: nat)
    requires i < |original| == |before| && j < |responses|
    requires before[i..] == original[i..] && HasPlaceholder(before[i]) && Decide(responses[j]).Assign?
    requires Interact(original, responses) == Resume(before[..i], count, Interact(original[i..], responses[j..]))
    requires after == before[i := WithFileId(before[i], Decide(responses[j]).fileId)]
    ensures after[i + 1..] == original[i + 1..]
    ensures Interact(original, responses) == Resume(after[..i + 1], count + 1, Interact(original[i + 1..], responses[j + 1..]))
  {
    var ps, rs := original[i..], responses[j..];
    assert ps[0] == before[i] && ps[1..] == original[i + 1..];
    assert rs[0] == responses[j] && rs[1..] == responses[j + 1..];
    InteractStep(ps, rs);
    AdvanceInvariant(original, responses, before, after, i, j, j + 1, count, WithFileId(before[i], Decide(responses[j]).fileId), 1);
  }

  /** A placeholder photo with no response left ends the loop unfinished; one answered 'done' ends it as it stands. */
  lemma Halted(original: seq<Record>, responses: seq<string>, before: seq<Record>, i: nat, j: nat, count: nat)
    requires i < |original| == |before| && j <= |responses|
    requires before[i..] == original[i..] && HasPlaceholder(before[i])
    requires Interact(original, responses) == Resume(before[..i], count, Interact(original[i..], responses[j..]))
    ensures j == |responses| ==> Interact(original, responses).None?
    ensures j < |responses| && Decide(responses[j]) == Stop ==> Interact(original, responses) == Some((before, count))
  {
    var ps, rs := original[i..], responses[j..];
    assert ps[0] == before[i];
    if j < |responses| {
      assert rs[0] == responses[j];
    }
    InteractStep(ps, rs);
    assert before == before[..i] + ps;
  }

  /** Overwriting the first photo of the unprocessed part leaves the rest as it was. */
  lemma FrameStep(before: seq<Record>, after: seq<Record>, i: nat, photo: Record)
    requires i < |before| && after == before[i := photo]
    ensures after[..i + 1] == before[..i] + [photo] && after[i + 1..] == before[i + 1..]
  {
  }

  /** What the loop may do to one photo: a photo without a placeholder stays, any other stays or takes a nonempty id. */
  predicate LoopOutcome(before: Record, after: Record)
  {
    && (!HasPlaceholder(before) ==> after == before)
    && (after == before || (after.fileId.Some? && after.fileId.value != [] && after == WithFileId(before, after.fileId.value)))
  }

  /**
   * After the loop every photo is either as it was or updated with a
   * nonempty id, only placeholder photos change, and the count is at most
   * the number of photos.
   */
  lemma {:induction false} InteractShape(photos: seq<Record>, responses: seq<string>)
    requires Interact(photos, responses).Some?
    ensures var (out, count) := Interact(photos, responses).value;
      && |out| == |photos| && count <= |photos|
      && forall i :: 0 <= i < |photos| ==> LoopOutcome(photos[i], out[i])
    decreases |photos|
  {
    if photos != [] {
      var out := Interact(photos, responses).value.0;
      InteractStep(photos, responses);
      if !HasPlaceholder(photos[0]) {
        InteractShape(photos[1..], responses);
        ShiftedShape(photos, out, photos[0]);
      } else if Decide(responses[0]) != Stop {
        InteractShape(photos[1..], responses[1..]);
        DecideFacts(responses[0]);
        ShiftedShape(photos, out, out[0]);
      }
    }
  }

  /** The number of placeholder photos: the photos the loop asks about. */
  function PlaceholderCount(photos: seq<Record>): nat
    decreases |photos|
  {
    if photos == [] then 0 else (if HasPlaceholder(photos[0]) then 1 else 0) + PlaceholderCount(photos[1..])
  }

  /** The position of the first response that says 'done', or the number of responses. */
  function FirstStop(responses: seq<string>): nat
    decreases |responses|
  {
    if responses == [] || Decide(responses[0]) == Stop then 0 else 1 + FirstStop(responses[1..])
  }

  /** The number of responses that assign an id. */
  function AssignCount(responses: seq<string>): nat
    decreases |responses|
  {
    if responses == [] then 0 else (if Decide(responses[0]).Assign? then 1 else 0) + AssignCount(responses[1..])
  }

  /** The responses the loop reads before it ends: one per placeholder photo, up to the first 'done'. */
  function ResponsesRead(photos: seq<Record>, responses: seq<string>): nat
  {
    var n, stop := PlaceholderCount(photos), FirstStop(responses);
    if stop < n then stop else n
  }

  /**
   * The printed `updated_count` is the number of responses that assigned an
   * id, among those read before the loop ended, and the loop never needs more
   * responses than were typed.
   */
  lemma {:induction false} InteractCount(photos: seq<Record>, responses: seq<string>)
    requires Interact(photos, responses).Some?
    ensures ResponsesRead(photos, responses) <= |responses|
    ensures Interact(photos, responses).value.1 == AssignCount(responses[..ResponsesRead(photos, responses)])
    decreases |photos|
  {
    if photos != [] {
      if !HasPlaceholder(photos[0]) {
        InteractCount(photos[1..], responses);
      } else if Decide(responses[0]) == Stop {
        assert responses[..0] == [];
      } else {
        var rest := responses[1..];
        InteractCount(photos[1..], rest);
        var k := ResponsesRead(photos[1..], rest);
        assert ResponsesRead(photos, responses) == k + 1;
        var read := responses[..k + 1];
        assert read[0] == responses[0] && read[1..] == rest[..k];
      }
    }
  }

  /** The per-photo facts of the loop's tail, moved up by one place. */
  lemma ShiftedShape(photos: seq<Record>, out: seq<Record>, first: Record)
    requires photos != [] && |out| == |photos| && out[0] == first
    requires LoopOutcome(photos[0], first)
    requires forall i :: 0 <= i < |photos| - 1 ==> LoopOutcome(photos[1..][i], out[1..][i])
    ensures forall i :: 0 <= i < |photos| ==> LoopOutcome(photos[i], out[i])
  {
    forall i | 1 <= i < |photos| ensures LoopOutcome(photos[i], out[i]) {
      assert out[i] == out[1..][i - 1] && photos[i] == photos[1..][i - 1];
    }
  }

  /** Without placeholder photos the loop asks nothing and changes nothing. */
  lemma {:induction false} InteractNoPlaceholders(photos: seq<Record>, responses: seq<string>)
    requires forall i :: 0 <= i < |photos| ==> !HasPlaceholder(photos[i])
    ensures Interact(photos, responses) == Some((photos, 0))
    decreases |photos|
  {
    if photos != [] {
      InteractNoPlaceholders(photos[1..], responses);
      assert [photos[0]] + photos[1..] == photos;
    }
  }

  /** With no responses at all the loop ends in EOF exactly when some photo has a placeholder. */
  lemma {:induction false} InteractEof(photos: seq<Record>)
    ensures Interact(photos, []).None? <==> exists i :: 0 <= i < |photos| && HasPlaceholder(photos[i])
    decreases |photos|
  {
    if photos != [] {
      InteractEof(photos[1..]);
      if !HasPlaceholder(photos[0]) {
        if exists i :: 0 <= i < |photos| && HasPlaceholder(photos[i]) {
          var i :| 0 <= i < |photos| && HasPlaceholder(photos[i]);
          assert photos[1..][i - 1] == photos[i];
        }
        forall i | 0 <= i < |photos| - 1 && HasPlaceholder(photos[1..][i]) ensures HasPlaceholder(photos[i + 1]) {
        }
      }
    }
  }

  /** `update_photos_with_file_ids`: the list written, None without a manifest or when the responses run out. */
  function InteractiveResult(manifest: Option<seq<Record>>, responses: seq<string>): Option<(seq<Record>, nat)>
  {
    if manifest.None? then None else Interact(manifest.value, responses)
  }

  method UpdatePhotosWithFileIds(manifest: Option<seq<Record>>, responses: seq<string>)
    returns (written: Option<seq<Record>>, updatedCount: nat)
    ensures InteractiveResult(manifest, responses).None? ==> written.None?
    ensures InteractiveResult(manifest, responses).Some? ==>
      written == Some(InteractiveResult(manifest, responses).value.0)
      && updatedCount == InteractiveResult(manifest, responses).value.1
  {
    if manifest.None? {
      return None, 0;
    }
    var photos := new Record[|manifest.value|](i requires 0 <= i < |manifest.value| => manifest.value[i]);
    assert photos[..] == manifest.value;
    var finished;
    finished, updatedCount := InteractiveUpdate(photos, responses);
    if !finished {
      return None, updatedCount;
    }
    written := Some(photos[..]);
  }
}
