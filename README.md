# Photolog generator: a verified model

This Dafny project models the core of the site-photograph logger, a single
Python program. It reads the photos of a folder, with their capture times and
GPS coordinates from EXIF. It lets the user reorder, remove, sort and rename
them in a preview grid. Then it lays them out two to a letter page in a
fillable PDF, with a numbered caption, an optional coordinate label and two
note fields per photo. A progress callback fires as pages and photos are
drawn.

The project is organised by concern:

| file | module | models |
|---|---|---|
| `text.dfy` | `Wrappers`, `Text`, `Paths` | `Option`; ASCII case mapping, `strip`, decimal rendering, string order; `os.path.splitext` |
| `gps.dfy` | `Gps` | `convert_to_degrees` |
| `metadata.dfy` | `Metadata` | `get_photo_metadata`: the photo record and the tiered timestamp/coordinate resolution |
| `photolog.dfy` | `Photolog` | `create_photolog`: a method that builds the drawing trace and the progress reports |
| `photolog_facts.dfy` | `PhotologFacts` | pagination, numbering, geometry and progress, proved about the trace |
| `ordering.dfy` | `Ordering` | `list.sort(key=...)` as a stable insertion sort, and the name and time orders |
| `preview.dfy` | `Preview` | `PhotoPreviewWindow`: grid, tiles, hit test, drag and drop, remove, sorts, rename |
| `ingest.dfy` | `Ingest` | `preview_photos`: field checks, the extension filter, the name sort |

The model makes these choices:

- Floats are exact `real`s.
- Timestamps are `int`s, because they are only compared and copied.
- Paths are a `(dir, name)` pair.
- The following are function-typed parameters:
  - the EXIF tag reader, as an optional tag map per path;
  - `datetime.strptime`, as a partial parse function;
  - `os.path.getmtime`;
  - `stringWidth`;
  - the six-decimal coordinate formatting;
  - whether a thumbnail can be opened.
- The folder listing and the results of `os.path.exists` are plain parameters.
- Canvas and form calls become a trace of `Op` values.
- `shutil.move` calls become a trace of `FileMove` values.

The window is a class whose fields the methods update, as in the program.
`draggedIndex` and `lastDragX`/`lastDragY` are `Option`s where Python uses
`None`.

`find_photo_at` is modelled even though it is a canvas hit test. The reorder
takes its index as input, and its result is part of the second finding below.
The model reads tile positions from the grid arithmetic of `load_photos`,
not from live canvas coordinates. Until a drag moves a thumbnail, the two
agree.

## Model

| member | source | states |
|---|---|---|
| Gps.ConvertToDegrees | src/photologgen5.0.py:90-96 | The conversion succeeds exactly when there are three components with non-zero denominators. Its result in arc-seconds is d·3600 + m·60 + s, negated exactly when the reference upper-cases to S or W |
| Gps.NegativeRefLetters | src/photologgen5.0.py:95-96 | Under ASCII case mapping, the references that negate are exactly "S", "s", "W" and "w" |
| Gps.ConvertIgnoresCase | src/photologgen5.0.py:95 | The reference is compared after upper-casing, so upper-casing it first changes nothing |
| Gps.HemisphereFlip | src/photologgen5.0.py:90-96 | For any well-formed value, S gives the negation of N and W the negation of E; "s" behaves as "S" |
| Gps.OtherRefsArePositive | src/photologgen5.0.py:96 | Any reference other than S/s/W/w converts as "N" does |
| Gps.FortyAndAHalf | src/photologgen5.0.py:90-96 | 40° 30′ 0″ is 40.5 north and −40.5 south |
| Metadata.ResolveTimestamp | src/photologgen5.0.py:60-67 | The tier that supplies the timestamp is truthful: mtime, or a successful parse of the original-capture tag when it is present, or else of the generic tag |
| Metadata.ResolveCoords | src/photologgen5.0.py:69-81 | Coordinates appear exactly when all four GPS tags are present and both the latitude and the longitude value are well formed |
| Metadata.Resolve | src/photologgen5.0.py:49-87 | The tags decide the result only for an EXIF extension whose tags could be read; a result that names the modification time carries the file's mtime |
| Metadata.GetPhotoMetadata | src/photologgen5.0.py:41-87 | The method updates `dt` and `coords` step by step. What it returns is the timestamp and coordinates of the tiered resolution `Resolve` |
| Metadata.ReadTimestamp | src/photologgen5.0.py:60-67 | The timestamp block yields the timestamp tier of `Resolve`: the first timestamp tag present, parsed, or mtime |
| Metadata.ReadGps | src/photologgen5.0.py:69-81 | The GPS block yields the coordinates of `Resolve`: present only when all four tags are and both conversions succeed |
| Metadata.ExtensionGate | src/photologgen5.0.py:49-87 | A lower-cased extension outside .jpg/.jpeg/.tif/.tiff yields exactly (mtime, no coordinates), whatever the tags are |
| Metadata.UnreadableTagsFallBack | src/photologgen5.0.py:56-84 | When the tags cannot be read, the result is (mtime, no coordinates) |
| Metadata.GpsAllOrNothing | src/photologgen5.0.py:70-81 | Coordinates appear if and only if: the tags are read, all four GPS tags are present, and both latitude and longitude are convertible |
| Metadata.CoordsAreConversions | src/photologgen5.0.py:76-81 | Any coordinates returned are the two conversions of the GPS tags with their references stripped |
| Metadata.DateTimeOriginalDecides | src/photologgen5.0.py:61-67 | When the original-capture tag is present, the result is its parse, or mtime if the parse fails; the generic tag is never used |
| Metadata.ImageDateTimeSecond | src/photologgen5.0.py:61-67 | Without the original-capture tag, the generic tag's parse decides, falling back to mtime |
| Metadata.SourceIsTruthful | src/photologgen5.0.py:50-67 | The reported source tier is consistent with the tags: mtime, or a successful parse of the tag that tier names |
| Metadata.GpsFailureKeepsTimestamp | src/photologgen5.0.py:61-84 | The GPS block cannot change the timestamp: the result is the same as with every GPS tag removed |
| Photolog.CreatePhotolog | src/photologgen5.0.py:124-226 | The output folder is created exactly when it is missing. A missing logo is reported before an empty list. An error emits nothing. Success emits exactly the document trace and the progress reports, counted against the corrected total (see the findings) |
| Photolog.EmitPages | src/photologgen5.0.py:141-223 | The outer loop emits all ceil(n/2) pages and one report per page header and per photo |
| Photolog.EmitPage | src/photologgen5.0.py:142-223 | One pass of the outer loop turns the trace and reports of the first p pages into those of the first p + 1 pages: the drawing calls gain the header, the page's slots and `showPage`, and the reports gain one per header and one per photo |
| Photolog.Step | src/photologgen5.0.py:152-153 | Each step adds one to the counter and appends the next report (the same step at lines 220-221) |
| Photolog.EmitPageSlots | src/photologgen5.0.py:160-221 | The inner loop emits the slot traces of the page's one or two photos, in list order, and one progress report after each |
| Photolog.EmitSlot | src/photologgen5.0.py:164-219 | One slot's calls are the slot trace: picture, box, caption, a coordinate label when there are coordinates, two note fields and two rules |
| Photolog.PageCountBounds | src/photologgen5.0.py:141 | Stepping by two from 0 visits exactly ceil(n/2) page starts |
| PhotologFacts.HeaderLayout | src/photologgen5.0.py:142-150 | A page header (`Photolog.HeaderOps`) is two calls: the title, which ends on the right margin measured in the font and size it is drawn in, then the logo, which starts on the left margin |
| PhotologFacts.SlotLayout | src/photologgen5.0.py:164-219 | Wherever a slot (`Photolog.SlotOps`) starts, it is seven calls, eight when its photo has coordinates. Its photo hangs from that height. The notes box is directly below the photo, as wide and at the same left edge. The third call is the caption, and the two note fields, named after the photo's number, lie inside the box |
| Photolog.DocumentOps | src/photologgen5.0.py:130-225 | The document trace ends by saving the document as photolog.pdf in the output folder |
| Photolog.SourceTotalSteps | src/photologgen5.0.py:138 | The total as written falls short of the steps actually made exactly when there are three photos or more |
| Photolog.ProgressReports | src/photologgen5.0.py:138-226 | As written, the callback fires ceil(n/2)+n+1 times, the last time with 100 |
| PhotologFacts.DocumentPhotoOrder | src/photologgen5.0.py:141-168 | The pictures drawn are exactly the photos, each once, in list order |
| PhotologFacts.DocumentCaptions | src/photologgen5.0.py:178-180 | The k-th caption of the document is "Photo k": numbering is global, not per page |
| PhotologFacts.ExpectedFieldNames | src/photologgen5.0.py:188-213 | The note-field names for the first m photos are `notes_photo_k_1` and `notes_photo_k_2` for k = 1..m |
| PhotologFacts.DocumentFieldNames | src/photologgen5.0.py:188-213 | The document's note fields are `notes_photo_k_1`, `notes_photo_k_2` for k = 1..n, in that order |
| PhotologFacts.FieldNameInjective | src/photologgen5.0.py:189-202 | Different (photo, line) pairs give different field names |
| PhotologFacts.NumberedFieldNamesUnique | src/photologgen5.0.py:189-202 | Two field names per photo, numbered by photo and line, are pairwise distinct |
| PhotologFacts.DocumentFieldNamesUnique | src/photologgen5.0.py:188-213 | No two note fields of a document share a name |
| PhotologFacts.DocumentPageCount | src/photologgen5.0.py:141-223 | There are ceil(n/2) page breaks, and that many pages hold 2p−1 or 2p photos |
| PhotologFacts.PageHoldsPair | src/photologgen5.0.py:141-180 | Page k holds photo 2k, and photo 2k+1 when it exists, captioned "Photo 2k+1" and "Photo 2k+2" |
| PhotologFacts.CoordLabelOnlyWithCoords | src/photologgen5.0.py:182-186 | A slot has a coordinate label exactly when its photo has coordinates |
| PhotologFacts.SlotGeometry | src/photologgen5.0.py:155-219 | photo_x is 144 and slot j starts at y = 720 − 347.4j. Every element of a slot has its exact coordinates and size |
| PhotologFacts.LayoutFits | src/photologgen5.0.py:141-219 | The layout fits the page: the lower box ends at 54, above the 36-point margin; the upper box ends at 401.4, above the lower photo's top at 372.6; the upper photo is below the logo; the photo is centred within the margins (the sizes are the constants of lines 33-37) |
| PhotologFacts.PercentLess | src/photologgen5.0.py:220-221 | Reports grow with the step count (the same report at lines 152-153) |
| PhotologFacts.PercentOver100 | src/photologgen5.0.py:138-221 | A report exceeds 100 exactly when more steps have been counted than the total |
| PhotologFacts.ProgressCount | src/photologgen5.0.py:138-226 | As written, there are ceil(n/2)+n+1 reports. The last is 100 and the first is positive |
| PhotologFacts.ReportsIncrease | src/photologgen5.0.py:138-226 | For any total, the reports before the final 100 strictly increase |
| PhotologFacts.ProgressOvershoots | src/photologgen5.0.py:138-221 | With five or more photos, the report just before the final 100 is above 100 |
| PhotologFacts.FivePhotosReport | src/photologgen5.0.py:138-221 | Five photos report 800/7 just before the final 100 |
| PhotologFacts.ProgressMonotoneIff | src/photologgen5.0.py:138-226 | The report sequence never goes down if and only if there are at most four photos |
| Photolog.IntendedProgress | src/photologgen5.0.py:138-226 | With the corrected total there is still one report per header and per photo, plus the final 100 |
| PhotologFacts.PercentBounds | src/photologgen5.0.py:220-221 | A step before the total reports strictly between 0 and 100 (the same report at lines 152-153) |
| PhotologFacts.IntendedProgressIncreases | src/photologgen5.0.py:138-226 | With the corrected total, every report lies in (0, 100], the reports strictly increase, and the last is 100 |
| Ordering.SortBySorted | src/photologgen5.0.py:392-399 | For any total preorder, the sort result is ordered and has the input's length; its permutation property is in `SortBy`'s contract (the same sort orders the ingested list at line 703) |
| Ordering.SortBySortedIsIdentity | src/photologgen5.0.py:392-399 | Sorting an already ordered list leaves it unchanged |
| Ordering.NameLeIsTotalPreorder | src/photologgen5.0.py:393 | Comparing lower-cased base names is a total preorder (the key of line 703 too) |
| Ordering.SortByNameOrders | src/photologgen5.0.py:392-395 | Sorting by name keeps every photo and orders them by lower-cased file name (and of the ingestion sort at line 703) |
| Ordering.SortByTimeOrders | src/photologgen5.0.py:397-400 | Sorting by timestamp keeps every photo and orders them by capture time |
| Ordering.SortBy | src/photologgen5.0.py:392-399 | The sort result is a permutation of the input (`Ordering.SortBySorted` proves it ordered; the same sort at line 703) |
| Ordering.Insert | src/photologgen5.0.py:392-399 | Inserting one element adds exactly that element to the multiset of the list |
| Ordering.NameLe | src/photologgen5.0.py:393 | Any two photos compare one way or the other by lower-cased base name (the same key at line 703) |
| Ordering.TimeLe | src/photologgen5.0.py:398 | Any two photos compare one way or the other by capture time |
| Preview.GetGridParams | src/photologgen5.0.py:322-327 | A zero width means 800. Tiles are 300 by 300. There is at least one column, and the column count is the largest that fits between the margins |
| Preview.TilesDoNotOverlap | src/photologgen5.0.py:334-338 | The thumbnails of two different grid positions share no point |
| Preview.TileX | src/photologgen5.0.py:337-338 | No tile starts left of the side margin |
| Preview.TileY | src/photologgen5.0.py:336-339 | No tile starts above the top margin |
| Preview.TileInGrid | src/photologgen5.0.py:336-339 | Every tile lies in one of the grid's columns, and the first `cols` positions, and only they, make up the top row |
| Preview.DropIndex | src/photologgen5.0.py:526-529 | The drop position is a valid index of a non-empty list |
| Preview.DropOnTile | src/photologgen5.0.py:526-529 | A release inside position i's cell drops at i |
| Preview.DropBelowGrid | src/photologgen5.0.py:526-529 | A release below the last row drops at the end of the list |
| Preview.Move | src/photologgen5.0.py:532-533 | Pop then insert gives a permutation of the same length with the dragged item at the target. Removing it again gives the list without the item |
| Preview.MoveInPlace | src/photologgen5.0.py:531-533 | Moving an item onto its own position changes nothing, so skipping that case is sound |
| Preview.MoveShifts | src/photologgen5.0.py:532-533 | Element by element, the items between the two positions shift by one toward the source, and all others stay |
| Preview.RemovePath | src/photologgen5.0.py:388-390 | Every entry with the path goes, and every other entry is kept with its multiplicity |
| Preview.RemoveAbsentPath | src/photologgen5.0.py:388-390 | Removing a path that no entry has changes nothing |
| Preview.Tiles | src/photologgen5.0.py:329-384 | Each tile belongs to a photo whose thumbnail loads and sits at that photo's grid position. The tiles follow list order |
| Preview.TilesCoverLoaded | src/photologgen5.0.py:335-384 | Every photo whose thumbnail loads has a tile |
| Preview.AllLoadedTiles | src/photologgen5.0.py:335-384 | When every thumbnail loads, tile t belongs to photo t |
| Preview.FirstHit | src/photologgen5.0.py:448-456 | Returns the first tile whose thumbnail contains the point (edges included), or none if no tile does |
| Preview.PressedPhotoIsUnderCursor | src/photologgen5.0.py:448-468 | The corrected press selects photo i exactly when its thumbnail loaded and the cursor is on it |
| Preview.HitIsPhotoWhenAllLoad | src/photologgen5.0.py:448-456 | When every thumbnail loads, the tile position and the photo position agree (tiles as `load_photos` places them, lines 335-355) |
| Preview.PressAfterFailedThumbnail | src/photologgen5.0.py:448-468 | As written, the hit test returns 0 when the first thumbnail failed and the point is on photo 1's thumbnail. This is a tile index, used as if it were a photo index (tiles placed by lines 345-355, the release at lines 532-533) |
| Preview.NumberedStemKeepsExtension | src/photologgen5.0.py:550-561 | A "temp_i" or "Photo i" stem keeps the extension placed after it |
| Preview.NumberedNameInjective | src/photologgen5.0.py:552-561 | Numbered names with different numbers or extensions differ |
| Preview.RenamedKeepsData | src/photologgen5.0.py:545-564 | Entry i becomes folder/"Photo i+1" plus its extension, keeping its timestamp and coordinates |
| Preview.RenamedDistinct | src/photologgen5.0.py:556-564 | No two photos get the same new name |
| Preview.MoveTarget | src/photologgen5.0.py:549-562 | There are 2n moves: move i < n targets "temp_i", move n + i targets "Photo i+1", each with the photo's extension |
| Preview.MoveTargetsDiffer | src/photologgen5.0.py:549-562 | Any two different moves go to different files |
| Preview.RenameTargetsDistinct | src/photologgen5.0.py:549-562 | No two moves share a target: temporary and final names are all different (files already in the folder are another matter, see the next two rows) |
| Preview.TempTargetMissesOtherNames | src/photologgen5.0.py:549-554 | A first-pass move never lands on a listed photo whose name does not start with `temp_` |
| Preview.TempNameCollision | src/photologgen5.0.py:549-554 | A listed photo that already bears an earlier photo's temporary name is the target of that photo's first-pass move, so it is overwritten before it is moved |
| Preview.TempKeepsExtension | src/photologgen5.0.py:550-552 | A temporary name keeps the original extension, so the second pass reads it back unchanged |
| Preview.TempRecordsKeepData | src/photologgen5.0.py:549-554 | The first pass keeps each entry's extension, timestamp and coordinates |
| Preview.TempPass | src/photologgen5.0.py:549-554 | The first loop moves photo i to "temp_i" with its extension |
| Preview.FinalPass | src/photologgen5.0.py:556-562 | The second loop gives exactly the renamed list |
| Preview.FirstHitIsFirst | src/photologgen5.0.py:448-456 | If no tile before idx is hit and tile idx is (or idx is the end), the first hit is idx (or none) |
| Preview.PressedPhoto | src/photologgen5.0.py:448-468 | No photo is pressed exactly when no tile is under the cursor; otherwise the photo pressed is the one that a tile under the cursor was made for |
| Preview.Renamed | src/photologgen5.0.py:545-564 | One entry per photo, all in the first photo's folder, each keeping its photo's timestamp and coordinates |
| Preview.RenameMoves | src/photologgen5.0.py:549-562 | There are 2n moves: move i takes photo i's file, and move n+i takes the file that move i produced |
| Preview.PhotoPreviewWindow.Cols | src/photologgen5.0.py:324-325 | The window always has at least one column |
| Preview.PhotoPreviewWindow.constructor | src/photologgen5.0.py:241-311 | Holds the given list, with the grid laid out and no drag under way |
| Preview.PhotoPreviewWindow.LoadPhotos | src/photologgen5.0.py:329-386 | The loop places exactly the tiles `Tiles` describes for the current list and width |
| Preview.PhotoPreviewWindow.OnCanvasResize | src/photologgen5.0.py:441-444 | The grid is laid out again for the new width; the list, the dragged position and the last cursor position are unchanged, and the window stays valid |
| Preview.PhotoPreviewWindow.FindPhotoAt | src/photologgen5.0.py:448-456 | The loop returns the first hit tile's position, or none |
| Preview.PhotoPreviewWindow.OnPress | src/photologgen5.0.py:458-468 | A press on a thumbnail starts a drag, at the cursor, of the photo that the hit tile shows (the corrected index, see the findings). A press elsewhere changes nothing |
| Preview.PhotoPreviewWindow.OnDrag | src/photologgen5.0.py:470-480 | During a drag, the last cursor position is updated; otherwise nothing changes |
| Preview.PhotoPreviewWindow.OnRelease | src/photologgen5.0.py:518-543 | Without a drag, nothing changes. Otherwise the list becomes the move of the dragged entry to the drop position, the drag is cleared and the grid is laid out again |
| Preview.PhotoPreviewWindow.RemovePhoto | src/photologgen5.0.py:388-390 | The list becomes the filtered list and the grid is laid out again |
| Preview.PhotoPreviewWindow.SortByName | src/photologgen5.0.py:392-395 | The list becomes the stable sort of the old list by lower-cased name, `Ordering.SortByNameOrders` proves that sort an ordered permutation; no drag is under way before or after (see ## Left out) |
| Preview.PhotoPreviewWindow.SortByTimestamp | src/photologgen5.0.py:397-400 | The list becomes the stable sort of the old list by capture time, `Ordering.SortByTimeOrders` proves that sort an ordered permutation; no drag is under way before or after (see ## Left out) |
| Preview.PhotoPreviewWindow.RenamePhotos | src/photologgen5.0.py:545-564 | The list becomes the renamed list. The moves are every photo to its temporary name, then every temporary name to its final name. An empty list does nothing. Only the list changes, so the tiles keep the old paths and the window is no longer `Valid()`; the program destroys it right after (lines 567-569) |
| Ingest.Collect | src/photologgen5.0.py:687-697 | There are never more entries than listed files; `Ingest.CollectOrder` gives the entries exactly |
| Ingest.SupportedIndicesExact | src/photologgen5.0.py:688-689 | The reference list of positions is strictly increasing and holds exactly the positions of the supported names |
| Ingest.CollectOrder | src/photologgen5.0.py:687-697 | Entry k is the resolved record of the k-th supported listed name, and there are as many entries as supported names: one per supported file, in listing order |
| Ingest.CollectSound | src/photologgen5.0.py:687-697 | Every entry is the resolved record of a supported listed file |
| Ingest.CollectComplete | src/photologgen5.0.py:687-697 | Every supported listed file has its resolved record among the entries |
| Ingest.PreviewPhotos | src/photologgen5.0.py:674-705 | The method's outcome is the specified one: the field check, then the folder check, then the collected list, either empty or sorted by name |
| Ingest.CollectPhotos | src/photologgen5.0.py:687-697 | The listing loop builds the list `Collect` specifies, which `Ingest.CollectOrder` shows to be one resolved record per supported file, in listing order |
| Ingest.PreviewListIsComplete | src/photologgen5.0.py:687-703 | A preview list is sorted by lower-cased name and is a permutation of the collected list: as many entries as supported listed names, each a supported file of the folder with its metadata, and every supported file among them |
| Ingest.NoSupportedImagesIff | src/photologgen5.0.py:679-701 | "No supported images" is reported if and only if the fields are filled in, the folder exists and no listed name has a supported suffix |
| Ingest.LowerEndsWith | src/photologgen5.0.py:689 | A suffix of a name stays a suffix after lower-casing |
| Ingest.TiffSuffixUnsupported | src/photologgen5.0.py:689 | A lower-cased name ending in .tif or .tiff ends in no supported suffix |
| Ingest.TiffNeverIngested | src/photologgen5.0.py:689 | TIFF files, although their tags would be read, never pass the ingestion filter (line 55 reads their tags) |
| Ingest.SupportedTiffExtensionImpossible | src/photologgen5.0.py:689 | No ingested file has a TIFF extension (compare the extension list of line 49) |
| Ingest.OnlyJpegMetadataIsRead | src/photologgen5.0.py:689-697 | Every ingested file whose extension is not .jpg or .jpeg (such as .png, .heic or .heif) gets its modification time and no coordinates (compare lines 49-55) |
| Ingest.IsSupported | src/photologgen5.0.py:689 | A supported name is at least four characters long, the length of the shortest supported suffix |
| Ingest.Record | src/photologgen5.0.py:690-697 | The entry is for folder/name; a file whose tags are not read gets its modification time and no coordinates |
| Ingest.PreviewOutcome | src/photologgen5.0.py:674-705 | Missing fields are reported exactly when one of the three is empty, before any other check. "Folder not found" names the folder and only a missing one. A preview is of an existing folder, is not empty and is a permutation of the collected list |
| Text.DecimalInjective | src/photologgen5.0.py:178-189 | Different numbers render as different digit strings, which keeps captions, field names and file names apart (also the rename numbers of lines 552 and 561) |
| Text.LexLeTotal | src/photologgen5.0.py:393 | String order is total |
| Text.LexLeTransitive | src/photologgen5.0.py:393 | String order is transitive |
| Text.Strip | src/photologgen5.0.py:77-78 | The result is a contiguous slice of the input with no white space at either end |
| Text.Lower | src/photologgen5.0.py:689 | Each character goes through the ASCII lower-case map and the length is kept (the same call at lines 49, 105, 393 and 703) |
| Text.Upper | src/photologgen5.0.py:95 | Each character goes through the ASCII upper-case map and the length is kept |
| Text.Decimal | src/photologgen5.0.py:178-179 | A number renders as a non-empty string of digits, a single digit exactly when it is below 10 |
| Paths.Ext | src/photologgen5.0.py:552 | `splitext` returns either nothing or a suffix of the name that starts with its last dot (also lines 49 and 559) |
| Paths.ExtOfStemAndExt | src/photologgen5.0.py:550-561 | A dot-free stem followed by an extension splits back into that extension |

## Left out

- Case mapping (`lower`, `upper`) covers ASCII letters only. Other characters are left unchanged.
- Python float rounding in the DMS and layout arithmetic is not modelled. `real`s are exact.
- `convert_to_degrees` raises on a short or zero-denominator value. The model returns `None` there, which its only caller treats as the swallowed exception.
- The text form of coordinates (`f"{lat:.6f}, {lon:.6f}"`) is a parameter. A record holds the two numbers, not the string.
- A present but falsy EXIF tag (one that Python truth-tests as false) is treated as present.
- Several foreign components are out of the model:
  - exifread, `strptime`, `getmtime`;
  - PIL and the HEIC opener, `compress_image` and its `os.remove`;
  - reportlab's canvas, form and `ImageReader`, and `stringWidth`.
  They are parameters or `Op` records. A failure inside `compress_image` would abort `create_photolog`; that failure is not modelled.
- Fonts are part of each drawing `Op`, but fill and stroke colours and the text-field styling are not recorded.
- `create_photolog` checks the logo again on every page before drawing it. The model uses the first check's answer, because nothing in between removes the file.
- The file system is modelled only as outcomes:
  - `os.makedirs` is the `madeDir` flag;
  - `os.path.exists` and `os.listdir` are parameters whose order the model keeps;
  - `shutil.move` is the `FileMove` trace.
  Moving onto an existing file is not modelled as a loss of that file. `Preview.TempNameCollision` shows when a first-pass move targets a listed photo and `Preview.TempTargetMissesOtherNames` when it cannot; files outside the list are not known to the model.
- `preview_photos` has an `except` path that calls `getmtime` again after `get_photo_metadata` fails. That path is left out. Only a failing `getmtime` can reach it, and the second call would fail the same way.
- `get_dad_joke`, threading and `root.after` dispatch, `generate_photolog`, `generate_pdf` and window destruction are not modelled. Neither are message boxes, `update_sort_button_styles`, `show_photo_preview`, the mouse wheel and `update_progress`.
- On the canvas, thumbnail, label and button drawing, the moves during a drag, the drop-indicator line and the scroll region are not modelled. The thumbnail cache is folded into the fixed `thumbnailLoads` answer.
- Preview.PhotoPreviewWindow.RemovePhoto, SortByName and SortByTimestamp require that no drag is under way. Tk delivers the button release to the canvas before any button command can run.
- Photolog.EmitPage, EmitPages, EmitPageSlots and CreatePhotolog keep the drawing calls and the progress reports as two separate traces. The order of a report relative to the canvas calls around it is not kept.
- Preview.PhotoPreviewWindow.RenamePhotos leaves the window not `Valid()`: the tiles keep the old paths, as `photo_items` does in the program, which destroys the window next.
- Preview.PhotoPreviewWindow.OnDrag keeps only the cursor position. The dragged thumbnail's canvas position is not modelled, so `FindPhotoAt` reads static grid positions.
- Preview.RemovePath states what is kept and with what multiplicity, not that the order is kept (a list filter keeps it by construction).
- Ordering.SortByNameOrders and Ordering.SortByTimeOrders do not state stability. Stability of `list.sort` holds for `Insert` by construction but is not proved.

## Findings

| source | as written | input that shows it | evidently intended | confidence | as-written member | corrected member |
|---|---|---|---|---|---|---|
| src/photologgen5.0.py:138-221 | `total_steps = len(photos) + 2`, but the counter also steps once per page header, so it reaches ceil(n/2)+n | 5 photos: the reports go up to 800/7 ≈ 114.3, then drop to the final 100 | a total that counts every step, so reports stay within (0, 100] and increase up to 100 | medium, not executed | PhotologFacts.ProgressOvershoots | PhotologFacts.IntendedProgressIncreases |
| src/photologgen5.0.py:345-533 | `load_photos` (lines 345-355) skips a photo whose thumbnail fails to load, so tile positions and list positions diverge. `find_photo_at` returns the tile position, and `on_release` pops that position from the photo list | photos [a, b], a's thumbnail fails, a press at (340, 40) in a 3-column grid on b's thumbnail: the hit is 0 and the release moves a | the photo position the tile was made for | high, not executed | Preview.PressAfterFailedThumbnail | Preview.PressedPhotoIsUnderCursor |

For the first finding, the reports as written are `Photolog.ProgressReports`,
over the total `Photolog.SourceTotalSteps`.
`PhotologFacts.ProgressMonotoneIff` and `PhotologFacts.FivePhotosReport`
exhibit the problem. `Photolog.CreatePhotolog` counts against the corrected
total `Photolog.TotalSteps` and reports `Photolog.IntendedProgress`.

For the second finding, `Preview.FirstHit` and
`Preview.PhotoPreviewWindow.FindPhotoAt` return the tile position as written.
`Preview.PhotoPreviewWindow.OnPress` stores the corrected `Preview.PressedPhoto`:
the list position the hit tile was made for. `Preview.HitIsPhotoWhenAllLoad`
shows that the two agree whenever every thumbnail loads. `on_drag` (line 481)
also reads `photo_items[dragged_index]`, so there `dragged_index` must be the
tile position. A program that stores the photo position, as `OnPress` does,
must keep the tile position as well for `on_drag`, or map the photo position
back to its tile. The model does not show this, because `OnDrag` keeps only
the cursor position (see ## Left out).
