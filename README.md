# Photo portfolio indexers, modelled in Dafny

This project models the tools that build the `photos.json` manifest of a photography portfolio site, and proves properties of that model. It covers these producers:

- **The GitHub LFS indexer** (`LocalPhotosIndexer`). It walks the `Faces`, `Street` and `Nature` directories of a local photo tree and their subdirectories. For each photo it writes a 400x533 thumbnail and a 2000x2000 full-size JPEG, then records their relative URLs.
- **The single-size indexer** (`SimplePhotosIndexer`). It does the same walk, but writes one 1200x1200 JPEG under `portfolio/` and uses it for both URLs.
- **The Google Drive indexer** (`GoogleDrivePublicIndexer`, present in two identical copies). It walks a synced Drive folder and writes placeholder URLs (`...&id=FILE_ID_FOR_<stem>`) built from each file's stem.
- **The Nextcloud indexer** (`NextCloudPhotoIndexer`, present in two identical copies). It lists each category over WebDAV and downloads each photo to read its EXIF tags. Both URLs point at the category's public share.
- **The file-id helper**. It replaces the Drive placeholders with direct image URLs, in one of two ways: interactively, one photo per typed response, or in a batch from a `filename = file_id` mapping file. It also writes the template of that mapping file.
- **The GitHub Releases generator**. It turns each image directly under `portfolio/` into a record that points at the release asset of the same name.

The modules follow the programs:

- `Text`, `Sorting`: string helpers, including `str.split`, `strip`, `title` and lexicographic order. `Sorting` also holds Python's stable `sort(key, reverse=True)` and the `[:n]` slice.
- `Exif`: the EXIF rules, with GPS triples converted to signed degrees and camera timestamps converted to `YYYY-MM-DD` dates.
- `Imaging`: the geometry of `optimize_image`, namely the mode normalisation, the EXIF rotation and Pillow's `thumbnail` sizing.
- `Naming`: file stems, the web-safe name, the `{category}_{id:03d}_{safe}` output names, titles and folder labels.
- `Discovery`: the glob walk over a category directory and its subdirectories, and the newest-first sort by modification time.
- `Manifest`: the record, the per-file collection loop, the category-by-category append and the final date sort.
- `LocalIndexer`, `SimpleIndexer`, `DriveIndexer`, `NextcloudIndexer`: one class per indexer. Each has a `ScanDirectory` and a `GenerateIndex` method that update `photos` and the written manifest.
- `FileIdHelper`: the helper. Its loops run over an `array` of records updated in place.
- `GeneratePhotos`: the generator.

All indexers share one quirk, which the model keeps and proves. A record's id is `len(self.photos) + 1` at the time its category is scanned, so every record of a category carries the same id. That id is 1 plus the number of records of the categories scanned before it (`Manifest.AppendedIds`).

## Model

| member | source | states |
|---|---|---|
| `Sorting.Take` | archive/local_photos_indexer.py:271-272 | The cap keeps the first `n` elements, or all of them when there are fewer. |
| `Sorting.SortDescPermutation` | archive/local_photos_indexer.py:316 | The reverse sort returns a permutation of its input. |
| `Sorting.SortDescSorted` | archive/simple_photos_indexer.py:278-279 | For a strict total order on keys, no element of the result has a smaller key than a later one. |
| `Sorting.SortDescStable` | google_drive_indexer.py:253-254 | The reverse sort is stable: elements with equal keys keep their relative order. |
| `Text.SplitFacts` | generate_photos.py:42 | Splitting on `c` gives one more piece than `c` occurs. No piece holds `c`, the last piece is the text after the last `c`, and joining the pieces gives the text back. |
| `Text.JoinSplit` | generate_photos.py:42-46 | Pieces free of the separator, joined and split again, come back unchanged. |
| `Text.StripShape` | google_drive_file_id_helper.py:142 | A stripped line is a slice of the input that neither starts nor ends with whitespace. |
| `Exif.GpsPresence` | archive/local_photos_indexer.py:76-98 | A coordinate pair is returned exactly when both coordinate tags are present and all six components convert. One axis is never returned alone. |
| `Exif.GpsFormula` | archive/simple_photos_indexer.py:67-89 | Each axis is degrees + minutes/60 + seconds/3600. Latitude is negated exactly when its reference reads "S", longitude exactly when it reads "W". A missing reference counts as N or E. |
| `Exif.DegreesWhenConvertible` | nextcloud_indexer.py:87-109 | A triple converts exactly when it has at least three components and none of the first three has a zero denominator. A failed conversion gives no coordinates. |
| `Exif.GpsSanFrancisco` | archive/google_drive_indexer.py:100-122 | Illustration of `Exif.GpsFormula`: 37°46'30" N, 122°25'6" W converts to (37.775, -122.4183...). |
| `Exif.StampRoundTrip` | archive/local_photos_indexer.py:159-164 | Parsing a camera timestamp `YYYY:MM:DD HH:MM:SS` written from a valid date and time gives back that date and time. |
| `Exif.StampParseExact` | archive/simple_photos_indexer.py:149-154 | A string that parses is exactly the timestamp of the date and time it parses to, and those are a valid date and time. |
| `Exif.StampToIsoDateShape` | archive/local_photos_indexer.py:162 | The converted date is the timestamp's date part with '-' for ':'. Any trailing text makes parsing fail. |
| `Exif.CaptureDateChain` | archive/local_photos_indexer.py:158-170 | `DateTime` is read only when `EXIF DateTimeOriginal` is absent, never when it is present but malformed. The Drive and Nextcloud chain reads `EXIF DateTimeOriginal` only. Any date found is a real calendar date. |
| `Exif.IsoDateChronological` | archive/local_photos_indexer.py:315-316 | Date strings compare lexicographically exactly as the calendar dates they denote, so the string sort is a chronological sort. |
| `Imaging.RotationAngle` | archive/local_photos_indexer.py:120-132 | Orientation 3 rotates by 180, 6 by 270 and 8 by 90. Any other value, or none, does not rotate. |
| `Imaging.OptimizeImage` | archive/local_photos_indexer.py:100-144 | The image is written exactly when it decodes and the JPEG save succeeds. The output mode is RGB or L, and the output fits the envelope. |
| `Imaging.ThumbnailFits` | archive/local_photos_indexer.py:134-136 | A thumbnail of an over-size image fits the envelope and grows in neither direction. It reaches the envelope on the limiting side, and the other side is within one of its exact aspect-preserving value. |
| `Imaging.OptimizedMode` | archive/local_photos_indexer.py:109-118 | L stays L, and every other mode (RGBA and LA pasted on white, others converted) becomes RGB. |
| `Imaging.OptimizedOrientation` | archive/simple_photos_indexer.py:99-126 | Only an image whose mode was already RGB or L is rotated, because a replaced image has no EXIF reader. Orientations 6 and 8 swap the dimensions, and the shrink applies to the rotated size. |
| `Imaging.ShrinkOnlyIfOver` | archive/simple_photos_indexer.py:124-126 | An image inside the envelope keeps its size. After the step every image fits, none grows, and the mode is kept. |
| `Imaging.ThumbnailExamples` | archive/local_photos_indexer.py:54-56 | Illustration of `Imaging.ThumbnailFits`: a 4000x3000 photo becomes 400x300 in the thumbnail box and 2000x1500 in the full-size box. A 3000x4000 photo becomes 400x533. |
| `Naming.StemSuffix` | archive/local_photos_indexer.py:177 | Stem and suffix put together give the name. A suffix is '.' plus at least one character with no further '.', and it leaves a non-empty stem. |
| `Naming.SplitExtAgreesWithStem` | nextcloud_indexer.py:161 | For a name that neither starts nor ends with '.', the `splitext` root the Nextcloud title uses equals `Path.stem`. |
| `Naming.SplitExtDiffersOnTrailingDot` | archive/nextcloud_indexer.py:161 | "photo." has stem "photo." but `splitext` root "photo". |
| `Naming.KeepSafe` | archive/local_photos_indexer.py:178 | The filter keeps only alphanumerics, spaces, '-' and '_', and never lengthens the text. |
| `Naming.KeepSafeCounts` | archive/local_photos_indexer.py:178 | Every alphanumeric, space, '-' and '_' is kept as often as it occurs in the text, and every other character is dropped. |
| `Naming.KeepSafeSingle` | archive/local_photos_indexer.py:178 | A single character is kept exactly when it is alphanumeric, a space, '-' or '_'. |
| `Naming.KeepSafeAppend` | archive/local_photos_indexer.py:178 | Filtering a concatenation is the same as concatenating the filtered parts. With KeepSafeSingle, this keeps the characters in their original order. |
| `Naming.SafeNameCharset` | archive/local_photos_indexer.py:177-179 | A safe name holds only lower-case letters, digits, '_' and '-', and is no longer than the stem. |
| `Naming.SafeNameIdempotent` | archive/simple_photos_indexer.py:168-169 | Sanitising a safe name changes nothing. |
| `Naming.SafeNameIgnoresTrailingSpace` | archive/simple_photos_indexer.py:168 | A trailing space of the stem never reaches the safe name. |
| `Naming.SafeNameOfSafeStem` | archive/local_photos_indexer.py:178-179 | A stem of kept characters that does not end in a space only has its spaces and letter case changed. |
| `Naming.SafeNameFixed` | archive/simple_photos_indexer.py:166-169 | A text already made of safe-name characters is its own safe name. |
| `Naming.SafeNameCollision` | archive/local_photos_indexer.py:177-183 | Different stems can share a safe name: "Beach Day" and "beach_day" both give "beach_day". |
| `Naming.ThumbNameOfFullName` | archive/local_photos_indexer.py:182-183 | The thumbnail name is the full-size name with `_thumb` before `.jpg`. |
| `Naming.FullNameId` | archive/simple_photos_indexer.py:172 | The output name carries the id zero-padded to at least three digits, right after `{category}_`, and those digits read back as the id. |
| `Naming.FullNameInjective` | archive/local_photos_indexer.py:176-183 | For one category and safe name, different ids give different output names. |
| `Naming.FullNameSafeInjective` | archive/simple_photos_indexer.py:172-175 | For one category and id, two output names are equal exactly when the safe names are. |
| `Naming.Spaced` | archive/local_photos_indexer.py:218 | The label has the folder name's length, with each '_' and '-' replaced by a space and every other character kept. |
| `Naming.TitleText` | archive/local_photos_indexer.py:222 | The title has the stem's length, and '_' and '-' become spaces. A letter is upper case exactly at the start of a word and lower case inside one. Other characters are kept. |
| `Discovery.GlobEach` | archive/local_photos_indexer.py:251-254 | The extension loop yields, in order, each extension's matches and then the matches of its upper-cased form. |
| `Discovery.FindPhotoFiles` | archive/local_photos_indexer.py:250-261 | The found list is the category directory's matches followed by each subdirectory's, in listing order. |
| `Discovery.GlobMembers` | archive/simple_photos_indexer.py:228 | `glob("*" + ext)` finds a file exactly when its name ends in `ext` (case-sensitively), with the directory as parent. |
| `Discovery.GlobFormatsMembers` | archive/simple_photos_indexer.py:227-229 | A file of one directory is found exactly when its name ends in a supported extension, as written or upper-cased. |
| `Discovery.SubfolderMembers` | archive/simple_photos_indexer.py:231-236 | A subdirectory match is found exactly when it lies in some subdirectory, with that subdirectory's name as parent. |
| `Discovery.PhotoFilesMembers` | google_drive_indexer.py:197-208 | A file is found exactly when its extension is supported and it lies in the category directory or in one of its subdirectories, with the right parent name. |
| `Discovery.SortByMtime` | archive/local_photos_indexer.py:268-269 | The sort is a permutation, runs newest first and keeps files with equal times in found order. |
| `Discovery.NewestFirst` | archive/simple_photos_indexer.py:238-239 | After the sort no file is older than a file after it. |
| `Manifest.CollectEach` | archive/local_photos_indexer.py:275-280 | The per-file loop appends the record of each file that yields one, in file order. |
| `Manifest.CollectedMembers` | archive/simple_photos_indexer.py:245-250 | Every collected record comes from some file, every file's record is collected, and there are no more records than files. |
| `Manifest.AppendedIds` | archive/local_photos_indexer.py:309-313 | After the category loop each record's id is 1 plus the number of records of other, earlier categories. |
| `Manifest.SameCategorySameId` | archive/simple_photos_indexer.py:272-276 | Two records of one category block carry the same id. |
| `Manifest.AppendedExtends` | google_drive_indexer.py:248-251 | The category loop only appends: the earlier list is a prefix of the result. |
| `Manifest.AppendedThree` | nextcloud_indexer.py:211-214 | With three categories the loop is three scans in order. Each scan sees 1 plus the length of the list so far as its id. |
| `Manifest.FreshThreeIds` | archive/nextcloud_indexer.py:211-217 | In the sorted manifest of a fresh run, each record comes from one scan. The first category's records have id 1, the second's 1 plus the first scan's size, the third's 1 plus the first two sizes. |
| `Manifest.SortByDate` | archive/local_photos_indexer.py:315-316 | The date sort is a permutation, runs from the greatest date string down and keeps equal dates in assembled order. |
| `Manifest.UnknownSortsFirst` | nextcloud_indexer.py:216-217 | A record dated "Unknown" comes before every record with a real date. |
| `Manifest.SortedNewestFirst` | archive/simple_photos_indexer.py:278-279 | Among real dates, the sorted manifest never has a date before (earlier than) a later entry's date. |
| `LocalIndexer.FolderLocationRule` | archive/local_photos_indexer.py:209-218 | GPS gives the coordinates. Without GPS the location is "Unknown" exactly when the parent is unnamed, is the category folder (ignoring case), or is labelled "Unknown". Otherwise it is the parent's label. |
| `LocalIndexer.PhotoDateRule` | archive/local_photos_indexer.py:229 | The date is always a real calendar date: the EXIF date when there is one, else the modification date. |
| `LocalIndexer.FindCandidates` | archive/local_photos_indexer.py:243-272 | A missing directory gives no files. Otherwise the found files, newest first, at most 500. |
| `LocalIndexer.CandidatesFound` | archive/local_photos_indexer.py:250-272 | Every processed file is a supported file of the category directory or of a subdirectory. |
| `LocalIndexer.ProcessPhotoGate` | archive/local_photos_indexer.py:154-236 | A record is made exactly when `open` and exifread succeed on the file, the file decodes and both JPEG writes succeed. An exception from the EXIF read reaches the handler, which returns None. |
| `LocalIndexer.ProcessPhotoNames` | archive/local_photos_indexer.py:176-231 | The record carries the scan's id and category and the `{category}_{id:03d}_{safe}.jpg` file name. Its full URL is under `./photos/full/`, and its thumbnail URL is the same name with `_thumb` under `./photos/thumbnails/`. It keeps the source name and takes its title from the stem. |
| `LocalIndexer.ProcessPhotoMetadata` | archive/local_photos_indexer.py:209-229 | The record's date is a real calendar date. `lat` and `lng` are set exactly when there is a GPS pair, and the location follows the folder rule. |
| `LocalIndexer.SameSafeNameCollides` | archive/local_photos_indexer.py:182-187 | Two photos of one category and id get the same output file exactly when their stems have the same safe name. |
| `LocalIndexer.ScanFacts` | archive/local_photos_indexer.py:238-282 | A scan yields at most 500 records, each with the scan's category and id and made from a supported file, and none for a missing directory. |
| `LocalIndexer.LocalPhotosIndexer.constructor` | archive/local_photos_indexer.py:64-74 | A new indexer has no photos and has written nothing. |
| `LocalIndexer.LocalPhotosIndexer.ScanDirectory` | archive/local_photos_indexer.py:238-282 | Returns the category's scan with `len(self.photos) + 1` as the id. |
| `LocalIndexer.LocalPhotosIndexer.GenerateIndex` | archive/local_photos_indexer.py:284-322 | Without the source root nothing changes. Otherwise the categories' records are appended in configuration order, sorted by date newest first, and written. |
| `LocalIndexer.FreshManifest` | archive/local_photos_indexer.py:309-316 | A fresh indexer's manifest holds only the three scans' records, with ids 1, 1 + faces, and 1 + faces + street. |
| `LocalIndexer.FreshIdsCountEarlierCategories` | archive/local_photos_indexer.py:176 | Before the sort, every record's id counts the records of the categories scanned before it. |
| `SimpleIndexer.ProcessPhotoGate` | archive/simple_photos_indexer.py:144-212 | A record is made exactly when `open` and exifread succeed on the file, the file decodes and its one JPEG write succeeds. |
| `SimpleIndexer.ProcessPhotoRecord` | archive/simple_photos_indexer.py:183-208 | Both URLs are `portfolio/{category}_{id:03d}_{safe}.jpg`. The date is a real calendar date, and GPS and location follow the LFS indexer's rules. |
| `SimpleIndexer.ScanFacts` | archive/simple_photos_indexer.py:214-252 | At most 500 records per scan, each with the scan's category and id, and none for a missing directory. |
| `SimpleIndexer.SimplePhotosIndexer.constructor` | archive/simple_photos_indexer.py:59-65 | A new indexer has no photos and has written nothing. |
| `SimpleIndexer.SimplePhotosIndexer.ScanDirectory` | archive/simple_photos_indexer.py:214-252 | Returns the category's scan with `len(self.photos) + 1` as the id. |
| `SimpleIndexer.SimplePhotosIndexer.GenerateIndex` | archive/simple_photos_indexer.py:254-285 | Without the source root nothing changes. Otherwise the categories are appended in order, sorted by date newest first, and written. |
| `SimpleIndexer.FreshManifest` | archive/simple_photos_indexer.py:272-279 | Every record of a fresh manifest comes from one of the three scans, with that scan's category and id. |
| `DriveIndexer.FolderMarkerFirst` | google_drive_indexer.py:71-72 | In a folder link the first "/folders/" is the one in the prefix. |
| `DriveIndexer.FolderLinkRoundTrip` | google_drive_indexer.py:68-77 | A folder link gives back its folder id, for ids without '/' or '?'. |
| `DriveIndexer.FacesFolderId` | archive/google_drive_indexer.py:51-55 | Illustration of `DriveIndexer.FolderLinkRoundTrip`: the configured faces link yields its folder id. |
| `DriveIndexer.PlaceholderUrl` | google_drive_indexer.py:79-98 | Both URLs coincide and ignore the folder link. They carry `FILE_ID_FOR_` right after `id=` and spell the name with spaces as '_'. |
| `DriveIndexer.ProcessPhotoGate` | google_drive_indexer.py:132-184 | No record is made exactly when `open` or exifread raises on the file, or the category has no link, an empty one or one with `YOUR_`. The EXIF read comes first, so an unreadable file gives no record even with a usable link. |
| `DriveIndexer.ProcessPhotoRecord` | google_drive_indexer.py:124-180 | The record keeps the full source name and takes its title and placeholder URLs from the stem. Its date is the `DateTimeOriginal` date, else the modification date, and it records the category's link. |
| `DriveIndexer.DriveLocationRule` | google_drive_indexer.py:158-166 | Without GPS the location is "Unknown" exactly when the parent is unnamed, is exactly `category.title()`, or is labelled "Unknown". |
| `DriveIndexer.CaseSensitiveParent` | archive/google_drive_indexer.py:164-166 | The parent test is case-sensitive: a folder "faces" becomes a location, while "Faces" gives "Unknown". |
| `DriveIndexer.FolderLinkUsable` | archive/google_drive_indexer.py:149 | A folder link whose id has no 'Y' never counts as missing. |
| `DriveIndexer.ConfiguredLinksUsable` | google_drive_indexer.py:234-236 | None of the three configured links counts as missing. |
| `DriveIndexer.FindCandidates` | google_drive_indexer.py:191-213 | A missing directory gives no files. Otherwise the first 500 found files, unsorted. |
| `DriveIndexer.CandidatesPrefix` | archive/google_drive_indexer.py:212-213 | The processed files are a prefix of the found files, of length min(found, 500). |
| `DriveIndexer.ScanFacts` | google_drive_indexer.py:186-223 | A category with a usable link yields one record per readable file (one whose `open` and EXIF read do not raise), in order and named after the file. A category without one yields nothing. Every record carries the scan's category and id. |
| `DriveIndexer.ReadableMembers` | google_drive_indexer.py:132-133 | A readable candidate is exactly a candidate whose file and EXIF block could be read |
| `DriveIndexer.GoogleDrivePublicIndexer.constructor` | google_drive_indexer.py:64-66 | A new indexer has no photos and has written nothing. |
| `DriveIndexer.GoogleDrivePublicIndexer.ScanDirectory` | archive/google_drive_indexer.py:186-223 | Returns the category's scan with `len(self.photos) + 1` as the id. |
| `DriveIndexer.GoogleDrivePublicIndexer.GenerateIndex` | google_drive_indexer.py:225-260 | Without the Drive folder nothing changes. Otherwise each category is appended in order, even with missing links, then sorted by date and written. |
| `DriveIndexer.FreshManifest` | archive/google_drive_indexer.py:248-254 | Every record of a fresh manifest comes from one of the three scans, with that scan's category and id. |
| `NextcloudIndexer.PhotoNamesMembers` | nextcloud_indexer.py:182-186 | A listed name is kept exactly when it has a supported extension in any letter case. |
| `NextcloudIndexer.PhotoNamesIdempotent` | archive/nextcloud_indexer.py:183-186 | Filtering twice keeps what filtering once keeps. |
| `NextcloudIndexer.MixedCaseSupported` | archive/nextcloud_indexer.py:185 | Illustration of `NextcloudIndexer.PhotoNamesMembers`: "Sunset.JpG" is supported: the test ignores case, unlike the glob. |
| `NextcloudIndexer.JoinPathBasename` | nextcloud_indexer.py:196 | Exactly one '/' joins the directory and the name, and the base name of the path is the name. |
| `NextcloudIndexer.ProcessPhotoGate` | nextcloud_indexer.py:111-174 | A record is made exactly when the download succeeds and the category has a non-empty share. |
| `NextcloudIndexer.ProcessPhotoRecord` | nextcloud_indexer.py:141-170 | Both URLs are `{share}/download/{basename}`. The date is a real date or "Unknown", and "Unknown" exactly when there is no capture date. The location is the coordinates exactly when there is GPS, else "Unknown". |
| `NextcloudIndexer.ScanStamped` | nextcloud_indexer.py:176-205 | At most 500 records per scan, each with the scan's category and id. |
| `NextcloudIndexer.ScanEmpty` | archive/nextcloud_indexer.py:179-205 | No records when `ls` raises or the category has no share. |
| `NextcloudIndexer.ScanComplete` | archive/nextcloud_indexer.py:193-200 | With a share and every download succeeding, there is one record per listed photo, in listing order, named by its base name. |
| `NextcloudIndexer.NextCloudPhotoIndexer.constructor` | nextcloud_indexer.py:67-69 | A new indexer has no client, no photos and has written nothing. |
| `NextcloudIndexer.NextCloudPhotoIndexer.ConnectToNextcloud` | nextcloud_indexer.py:71-85 | If the `Client(...)` constructor raises, the old client is kept and the result is False. Otherwise the client is set and the result says whether `ls('/')` succeeds. Nothing else changes. |
| `NextcloudIndexer.NextCloudPhotoIndexer.ScanDirectory` | archive/nextcloud_indexer.py:176-205 | Returns the category's scan with `len(self.photos) + 1` as the id, and nothing without a client. |
| `NextcloudIndexer.NextCloudPhotoIndexer.GenerateIndex` | nextcloud_indexer.py:207-225 | Every category is appended in order, sorted by date newest first and written, with no connection check. |
| `NextcloudIndexer.Run` | nextcloud_indexer.py:240-266 | Nothing is written when the client cannot be created or `ls('/')` fails. Otherwise the manifest of a connected fresh indexer is written. |
| `NextcloudIndexer.RunManifest` | archive/nextcloud_indexer.py:258-266 | Every written record comes from one of the three scans, with that scan's category and id. |
| `NextcloudIndexer.UndatedFirst` | archive/nextcloud_indexer.py:216-217 | Records without a capture date come before every dated record in the written manifest. |
| `FileIdHelper.DirectUrlMarkers` | google_drive_file_id_helper.py:20-23 | A direct URL has no "/file/d/", and its first "id=" is the one just before the file id. |
| `FileIdHelper.DirectUrlRoundTrip` | google_drive_file_id_helper.py:18-28 | A direct URL gives back its file id, for ids without '&', "id=" or "/file/d/". |
| `FileIdHelper.FileLinkRoundTrip` | google_drive_file_id_helper.py:18-21 | The sharing link `.../file/d/<id>/view` gives back its id, for ids without '/'. |
| `FileIdHelper.WithFileIdFacts` | google_drive_file_id_helper.py:81-86 | An update sets both URLs to the direct URL and `file_id` to the id, and keeps every other field. Setting the same id again changes nothing. For ids without '&', "id=" or "/file/d/", the new URL reads back as the id. |
| `FileIdHelper.ParseMapping` | google_drive_file_id_helper.py:138-145 | The parsing loop builds the map of every line's entry, a later line for the same name overwriting an earlier one. |
| `FileIdHelper.ParseLineSkips` | google_drive_file_id_helper.py:141-143 | Blank lines, '#' lines and lines without '=' are skipped, and every other line gives an entry. |
| `FileIdHelper.ParseLineShape` | google_drive_file_id_helper.py:142-145 | A parsed name holds no '=', and neither side keeps surrounding whitespace. |
| `FileIdHelper.MappingKeys` | google_drive_file_id_helper.py:139-145 | A name is in the map exactly when some line parses to an entry for it. |
| `FileIdHelper.MappingLastWins` | google_drive_file_id_helper.py:144-145 | The id recorded for a name is the one on the last line naming it. |
| `FileIdHelper.UpdateInPlace` | google_drive_file_id_helper.py:151-160 | The loop updates in place exactly the eligible photos, that is, those mapped to an id other than `YOUR_FILE_ID_HERE`, and counts them. |
| `FileIdHelper.UpdateFromMapping` | google_drive_file_id_helper.py:125-164 | Nothing is written when either file is missing. Otherwise the updated manifest is written, along with the number of eligible photos. |
| `FileIdHelper.UpdatedFacts` | google_drive_file_id_helper.py:152-159 | Order and length are kept. An eligible photo gets its mapped id and the matching direct URL in both URL fields, and every other photo is unchanged. |
| `FileIdHelper.UpdatedIdempotent` | google_drive_file_id_helper.py:152-160 | Applying the mapping twice is the same as applying it once. |
| `FileIdHelper.CountEligibleBound` | google_drive_file_id_helper.py:151-160 | The count is at most the number of photos. It equals that number exactly when all are eligible, and is 0 exactly when none is. |
| `FileIdHelper.CreateBatchUpdateTemplate` | google_drive_file_id_helper.py:100-120 | No manifest gives no template. Otherwise the template is the three comment lines and a blank line, then one `filename = YOUR_FILE_ID_HERE` line per placeholder photo, in order. |
| `FileIdHelper.TemplateRoundTrip` | google_drive_file_id_helper.py:100-160 | Reading an unfilled template back and applying it changes no photo, for names without '=' or line breaks. |
| `FileIdHelper.DecideFacts` | google_drive_file_id_helper.py:66-79 | 'done' in any case, around any whitespace, stops. An empty response keeps the photo. An assigned id is never empty, and a non-link response assigns itself, stripped. |
| `FileIdHelper.DecideExamples` | google_drive_file_id_helper.py:66-71 | Illustration of `FileIdHelper.DecideFacts`: " DONE\n" stops, "Skip" and a blank response keep, and "1AbC" assigns itself. |
| `FileIdHelper.DecideFileLink` | google_drive_file_id_helper.py:74-76 | A pasted `/file/d/<id>/view` link assigns its id. |
| `FileIdHelper.DecideDirectUrl` | google_drive_file_id_helper.py:74-79 | A pasted direct URL assigns its id back. |
| `FileIdHelper.InteractiveUpdate` | google_drive_file_id_helper.py:53-91 | The in-place loop finishes exactly when the responses do not run out before it ends. It then leaves the list and the count `Interact` defines. |
| `FileIdHelper.InteractShape` | google_drive_file_id_helper.py:55-91 | After the loop each photo is unchanged or updated with a non-empty id. Only placeholder photos change, and the count is at most the number of photos. |
| `FileIdHelper.InteractCount` | google_drive_file_id_helper.py:53-97 | The printed `updated_count` is the number of responses that assigned an id, among those read before the loop ended: one per placeholder photo, up to the first "done". The loop never needs more responses than were typed. |
| `FileIdHelper.InteractNoPlaceholders` | google_drive_file_id_helper.py:61-64 | Without placeholder photos nothing is asked and nothing changes. |
| `FileIdHelper.InteractEof` | google_drive_file_id_helper.py:66 | With no responses the prompt hits end of input exactly when some photo has a placeholder. |
| `FileIdHelper.UpdatePhotosWithFileIds` | google_drive_file_id_helper.py:30-95 | Nothing is written without a manifest or when input ends early. Otherwise the list and count of the loop are written. |
| `GeneratePhotos.GithubUrlFacts` | generate_photos.py:19-22 | The URL lies under the release, ends with the file name as its last segment, and differs for different names. |
| `GeneratePhotos.ClassifyFacts` | generate_photos.py:24-34 | The category is one of the three. 'street' wins over every other keyword, 'face'/'portrait' over 'nature'/'landscape', and a name with no keyword is street. |
| `GeneratePhotos.ClassifyIgnoresCase` | generate_photos.py:26 | The classifier ignores letter case. |
| `GeneratePhotos.ExtractInfoFacts` | generate_photos.py:36-54 | With two or more '_' in the stem the title is the last part upper-cased, else the stem. The category is the keyword classifier's. |
| `GeneratePhotos.ExtractInfoPattern` | generate_photos.py:39-46 | A name `a_b_c.e` has stem `a_b_c` and title `c` upper-cased. |
| `GeneratePhotos.ImageNamesMembers` | generate_photos.py:72-74 | A listed name is an image file exactly when it ends in one of the six globbed extensions. |
| `GeneratePhotos.ImageFilesFacts` | generate_photos.py:68-77 | The files are the listing's image names, as a permutation, in ascending order. |
| `GeneratePhotos.ScanPortfolioDirectory` | generate_photos.py:56-102 | The loop builds one record per sorted image file, with `photo_id` counting from 1. |
| `GeneratePhotos.PortfolioRecordsFacts` | generate_photos.py:79-98 | Ids run 1..n without gaps. Both URLs are the release URL, there is no GPS and the location is "Unknown". The date is today's, the category is one of three, and `filename` and `original_file` are the file's name. |
| `GeneratePhotos.GeneratePhotosJson` | generate_photos.py:104-115 | Nothing is written exactly when the scan found nothing. Otherwise the scan's records are written. |
| `GeneratePhotos.NothingWritten` | generate_photos.py:56-111 | No manifest is written exactly when `portfolio/` is missing or holds no image. |

## Left out

- Floating point: coordinates are exact reals, and `float` rounding is not modelled. The `f"{lat:.4f}, {lng:.4f}"` location text is kept as the exact coordinate pair.
- Characters are ASCII-only in the model. `isalnum`, `lower`, `upper`, `title` and `strip` ignore non-ASCII letters and Unicode whitespace.
- `strptime` is modelled on the canonical 19-character `YYYY:MM:DD HH:MM:SS` form only. Its leniency with single-digit fields is not modelled.
- Pixels: pasting onto white, LANCZOS resampling, HEIC decoding and JPEG encoding are not modelled. An image is its mode, its size and its EXIF orientation. Whether decoding and each save succeed are inputs.
- exifread's binary parse is not modelled. A file's tags are the string-keyed map it returns, or None where `open` or `exifread.process_file` raises; each indexer's handler then returns None for that file.
- `stat()` on a found file is assumed not to raise: its modification time is a field of the file. The LFS and single-size indexers also call it outside the handler, in the newest-first sort, where an exception would end the run.
- File and network I/O become values:
  - the directory tree and each file's modification time and date;
  - the `ls` listing and the downloads;
  - the loaded `photos.json`, the mapping file's lines and the typed responses.
  - What is written is the returned or stored manifest.
  - The directory creation, `rmtree`, `unlink` of old JPEGs and `/tmp` download and removal are not modelled.
- `datetime.now()` and `fromtimestamp` are inputs (`today`, `mtimeDate`).
- Printed progress, the debug listing and the end-of-run summaries are not modelled.
- The indexers' `main` menus, `create_setup_instructions`, `create_sample_config`, the Nextcloud credential check and the generator's username check are not modelled. Those checks compare configured constants that are already set.
- NextcloudIndexer.Run: the WebDAV client's `ls` is assumed to return entry names. The real client returns entry records by default.
- pathlib on Windows matches globs case-insensitively, so there `glob("*.jpg")` and `glob("*.JPG")` both return the same file. POSIX paths, macOS included, match case-sensitively, as the model does; the Windows behaviour is not modelled.
- Python's `set` iteration order for the generator's extensions is left open. The following sort makes it irrelevant.
- FileIdHelper.TemplateRoundTrip: stated only for file names without '=', '\n' or '\r', since such names do not survive a line-based `filename = id` format.
- Text.Lines: reading the mapping file splits lines at '\n' only. Python's universal newlines also end a line at '\r' and "\r\n", which the model does not do.
- FileIdHelper.InteractiveUpdate: ending input raises `EOFError`, and the model treats it as "nothing saved". Interrupts are not modelled.
- `local_server.py`, a static file server, is not part of this model.
