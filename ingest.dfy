/**
  Building the photo list for the preview (`preview_photos`): the three
  fields must be filled in and the folder must exist; then every listed
  file whose lower-cased name ends in a supported suffix is read for its
  metadata, and the list is sorted by lower-cased name. The folder
  listing, modification times and tag reader are parameters.
 */
module Ingest {
  import opened Wrappers
  import opened Text
  import opened Paths
  import opened Metadata
  import opened Ordering

  predicate EndsWith(s: string, suffix: string) {
    |suffix| <= |s| && s[|s| - |suffix|..] == suffix
  }

  /** The suffix test of the ingestion filter, on the lower-cased file name. */
  predicate IsSupported(name: string): (b: bool)
    ensures b ==> |name| >= 4
  {
    var l := Lower(name);
    EndsWith(l, ".jpg") || EndsWith(l, ".jpeg") || EndsWith(l, ".png") || EndsWith(l, ".heic") || EndsWith(l, ".heif")
  }

  datatype Outcome =
    | MissingFields
    | FolderNotFound(folder: string)
    | NoSupportedImages
    | Preview(photos: seq<PhotoRecord>)

  /** The entry made for one listed file. */
  function Record(folder: string, name: string, mtimeOf: Path -> Timestamp, tagsOf: Path -> Option<Tags>,
                  parse: string -> Option<Timestamp>): (r: PhotoRecord)
    ensures r.path == Path(folder, name)
    ensures !ReadsExif(r.path) || tagsOf(r.path).None? ==> r.timestamp == mtimeOf(r.path) && r.coords.None?
  {
    var path := Path(folder, name);
    var r := Resolve(path, mtimeOf(path), tagsOf(path), parse);
    PhotoRecord(path, r.timestamp, r.coords)
  }

  /** The entries for the supported files among `listing`, in listing order. */
  function Collect(folder: string, listing: seq<string>, mtimeOf: Path -> Timestamp, tagsOf: Path -> Option<Tags>,
                   parse: string -> Option<Timestamp>): (r: seq<PhotoRecord>)
    ensures |r| <= |listing|
  {
    if |listing| == 0 then []
    else
      var name := listing[|listing| - 1];
      Collect(folder, listing[..|listing| - 1], mtimeOf, tagsOf, parse)
      + (if IsSupported(name) then [Record(folder, name, mtimeOf, tagsOf, parse)] else [])
  }

  /** The positions of the supported names in `listing`, in increasing order. */
  function SupportedIndices(listing: seq<string>): seq<nat> {
    if |listing| == 0 then []
    else
      SupportedIndices(listing[..|listing| - 1])
      + (if IsSupported(listing[|listing| - 1]) then [|listing| - 1] else [])
  }

  /** The positions are strictly increasing, and they are exactly those of the supported names. */
  lemma {:induction false} SupportedIndicesExact(listing: seq<string>)
    ensures var r := SupportedIndices(listing);
      && (forall k :: 0 <= k < |r| ==> r[k] < |listing|)
      && (forall k, l :: 0 <= k < l < |r| ==> r[k] < r[l])
      && (forall i :: 0 <= i < |listing| ==> (i in r <==> IsSupported(listing[i])))
  {
    if |listing| > 0 {
      var n := |listing| - 1;
      var init := listing[..n];
      SupportedIndicesExact(init);
      var prev := SupportedIndices(init);
      var tail: seq<nat> := if IsSupported(listing[n]) then [n] else [];
      var r := SupportedIndices(listing);
      assert r == prev + tail;
      forall i | 0 <= i < |listing| ensures i in r <==> IsSupported(listing[i]) {
        if i < n {
          assert init[i] == listing[i];
          assert i in r <==> i in prev;
        } else {
          assert i !in prev;
        }
      }
    }
  }

  /** The entry made for a name of the listing, as a function of the name alone. */
  function RecordOf(folder: string, mtimeOf: Path -> Timestamp, tagsOf: Path -> Option<Tags>,
                    parse: string -> Option<Timestamp>): string -> PhotoRecord
  {
    name => Record(folder, name, mtimeOf, tagsOf, parse)
  }

  /** Entry k of `r` is `g` of the name at position `idx[k]` of `listing`. */
  ghost predicate Aligned(r: seq<PhotoRecord>, idx: seq<nat>, listing: seq<string>, g: string -> PhotoRecord) {
    && |r| == |idx|
    && forall k :: 0 <= k < |r| ==> idx[k] < |listing| && r[k] == g(listing[idx[k]])
  }

  /** Appending a name, and its entry when it is kept, keeps the entries aligned with their positions. */
  lemma AlignedAppend(r: seq<PhotoRecord>, idx: seq<nat>, listing: seq<string>, name: string,
                      g: string -> PhotoRecord, keep: bool)
    requires Aligned(r, idx, listing, g)
    ensures Aligned(r + (if keep then [g(name)] else []), idx + (if keep then [|listing|] else []), listing + [name], g)
  {
    var r' := r + (if keep then [g(name)] else []);
    var idx': seq<nat> := idx + (if keep then [|listing|] else []);
    var listing' := listing + [name];
    forall k | 0 <= k < |r'| ensures idx'[k] < |listing'| && r'[k] == g(listing'[idx'[k]]) {
      if k < |r| {
        assert r'[k] == r[k] && idx'[k] == idx[k];
        assert listing'[idx[k]] == listing[idx[k]];
      } else {
        assert idx'[k] == |listing| && listing'[|listing|] == name;
      }
    }
  }

  /**
    Entry k of the list is the record of the k-th supported name: one entry
    per supported file, in listing order, and nothing else.
   */
  lemma CollectOrder(folder: string, listing: seq<string>, mtimeOf: Path -> Timestamp,
                     tagsOf: Path -> Option<Tags>, parse: string -> Option<Timestamp>)
    ensures var r := Collect(folder, listing, mtimeOf, tagsOf, parse);
      var idx := SupportedIndices(listing);
      && |r| == |idx|
      && forall k :: 0 <= k < |r| ==> idx[k] < |listing| && r[k] == Record(folder, listing[idx[k]], mtimeOf, tagsOf, parse)
  {
    var g := RecordOf(folder, mtimeOf, tagsOf, parse);
    CollectAlignedAll(folder, listing, mtimeOf, tagsOf, parse);
    var r := Collect(folder, listing, mtimeOf, tagsOf, parse);
    var idx := SupportedIndices(listing);
    forall k | 0 <= k < |r| ensures idx[k] < |listing| && r[k] == Record(folder, listing[idx[k]], mtimeOf, tagsOf, parse) {
      assert r[k] == g(listing[idx[k]]);
    }
  }

  lemma {:induction false} CollectAlignedAll(folder: string, listing: seq<string>, mtimeOf: Path -> Timestamp,
                                             tagsOf: Path -> Option<Tags>, parse: string -> Option<Timestamp>)
    ensures Aligned(Collect(folder, listing, mtimeOf, tagsOf, parse), SupportedIndices(listing), listing,
                    RecordOf(folder, mtimeOf, tagsOf, parse))
  {
    if |listing| > 0 {
      var n := |listing| - 1;
      var init := listing[..n];
      var name := listing[n];
      var g := RecordOf(folder, mtimeOf, tagsOf, parse);
      CollectAlignedAll(folder, init, mtimeOf, tagsOf, parse);
      AlignedAppend(Collect(folder, init, mtimeOf, tagsOf, parse), SupportedIndices(init), init, name, g, IsSupported(name));
      assert init + [name] == listing;
      assert g(name) == Record(folder, name, mtimeOf, tagsOf, parse);
    }
  }

  /** Every entry comes from a supported listed file. */
  lemma CollectSound(folder: string, listing: seq<string>, mtimeOf: Path -> Timestamp,
                     tagsOf: Path -> Option<Tags>, parse: string -> Option<Timestamp>, k: nat)
    requires k < |Collect(folder, listing, mtimeOf, tagsOf, parse)|
    ensures exists i :: (0 <= i < |listing| && IsSupported(listing[i])
      && Collect(folder, listing, mtimeOf, tagsOf, parse)[k] == Record(folder, listing[i], mtimeOf, tagsOf, parse))
  {
    CollectOrder(folder, listing, mtimeOf, tagsOf, parse);
    SupportedIndicesExact(listing);
    var i := SupportedIndices(listing)[k];
    assert i in SupportedIndices(listing);
  }

  /** Every supported listed file has its entry. */
  lemma CollectComplete(folder: string, listing: seq<string>, mtimeOf: Path -> Timestamp,
                        tagsOf: Path -> Option<Tags>, parse: string -> Option<Timestamp>, i: nat)
    requires i < |listing| && IsSupported(listing[i])
    ensures Record(folder, listing[i], mtimeOf, tagsOf, parse) in Collect(folder, listing, mtimeOf, tagsOf, parse)
  {
    CollectOrder(folder, listing, mtimeOf, tagsOf, parse);
    SupportedIndicesExact(listing);
    var idx := SupportedIndices(listing);
    var k :| 0 <= k < |idx| && idx[k] == i;
    assert Collect(folder, listing, mtimeOf, tagsOf, parse)[k] == Record(folder, listing[i], mtimeOf, tagsOf, parse);
  }

  /** What `preview_photos` hands to the preview window, or the error it shows instead. */
  function PreviewOutcome(photoFolder: string, outputPath: string, logoPath: string, folderExists: bool,
                          listing: seq<string>, mtimeOf: Path -> Timestamp, tagsOf: Path -> Option<Tags>,
                          parse: string -> Option<Timestamp>): (r: Outcome)
    ensures r.MissingFields? <==> photoFolder == [] || outputPath == [] || logoPath == []
    ensures r.FolderNotFound? ==> r.folder == photoFolder && !folderExists
    ensures r.Preview? ==>
      && folderExists && r.photos != []
      && multiset(r.photos) == multiset(Collect(photoFolder, listing, mtimeOf, tagsOf, parse))
  {
    if photoFolder == [] || outputPath == [] || logoPath == [] then MissingFields
    else if !folderExists then FolderNotFound(photoFolder)
    else
      var photos := Collect(photoFolder, listing, mtimeOf, tagsOf, parse);
      if photos == [] then NoSupportedImages else Preview(SortBy(photos, NameLe))
  }

  /** `preview_photos`, with the folder's existence and listing given. */
  method PreviewPhotos(photoFolder: string, outputPath: string, logoPath: string, folderExists: bool,
                       listing: seq<string>, mtimeOf: Path -> Timestamp, tagsOf: Path -> Option<Tags>,
                       parse: string -> Option<Timestamp>)
    returns (outcome: Outcome)
    ensures outcome == PreviewOutcome(photoFolder, outputPath, logoPath, folderExists, listing, mtimeOf, tagsOf, parse)
  {
    if photoFolder == [] || outputPath == [] || logoPath == [] {
      return MissingFields;
    }
    if !folderExists {
      return FolderNotFound(photoFolder);
    }
    var photos := CollectPhotos(photoFolder, listing, mtimeOf, tagsOf, parse);
    if photos == [] {
      return NoSupportedImages;
    }
    photos := SortBy(photos, NameLe);
    return Preview(photos);
  }

  /** The loop over the folder listing: one entry, with its metadata, per supported file. */
  method CollectPhotos(folder: string, listing: seq<string>, mtimeOf: Path -> Timestamp, tagsOf: Path -> Option<Tags>,
                       parse: string -> Option<Timestamp>)
    returns (photos: seq<PhotoRecord>)
    ensures photos == Collect(folder, listing, mtimeOf, tagsOf, parse)
  {
    photos := [];
    var i := 0;
    while i < |listing|
      invariant 0 <= i <= |listing|
      invariant photos == Collect(folder, listing[..i], mtimeOf, tagsOf, parse)
    {
      var filename := listing[i];
      var path := Path(folder, filename);
      if IsSupported(filename) {
        var timestamp, coords := GetPhotoMetadata(path, mtimeOf(path), tagsOf(path), parse);
        CollectExtend(folder, listing, i, mtimeOf, tagsOf, parse, photos, timestamp, coords);
        photos := photos + [PhotoRecord(path, timestamp, coords)];
      } else {
        CollectExtend(folder, listing, i, mtimeOf, tagsOf, parse, photos, mtimeOf(path), None);
      }
      i := i + 1;
    }
    assert listing[..|listing|] == listing;
  }

  /** The metadata read for one file makes up that file's entry. */
  lemma RecordOfMetadata(folder: string, name: string, mtimeOf: Path -> Timestamp, tagsOf: Path -> Option<Tags>,
                         parse: string -> Option<Timestamp>, timestamp: Timestamp, coords: Option<Coord>)
    requires timestamp == Resolve(Path(folder, name), mtimeOf(Path(folder, name)), tagsOf(Path(folder, name)), parse).timestamp
    requires coords == Resolve(Path(folder, name), mtimeOf(Path(folder, name)), tagsOf(Path(folder, name)), parse).coords
    ensures PhotoRecord(Path(folder, name), timestamp, coords) == Record(folder, name, mtimeOf, tagsOf, parse)
  {
  }

  /** One pass of the listing loop: the entry built from the metadata read extends the list to one more name. */
  lemma CollectExtend(folder: string, listing: seq<string>, i: nat, mtimeOf: Path -> Timestamp, tagsOf: Path -> Option<Tags>,
                      parse: string -> Option<Timestamp>, photos: seq<PhotoRecord>, timestamp: Timestamp, coords: Option<Coord>)
    requires i < |listing| && photos == Collect(folder, listing[..i], mtimeOf, tagsOf, parse)
    requires IsSupported(listing[i]) ==>
      && timestamp == Resolve(Path(folder, listing[i]), mtimeOf(Path(folder, listing[i])), tagsOf(Path(folder, listing[i])), parse).timestamp
      && coords == Resolve(Path(folder, listing[i]), mtimeOf(Path(folder, listing[i])), tagsOf(Path(folder, listing[i])), parse).coords
    ensures (if IsSupported(listing[i]) then photos + [PhotoRecord(Path(folder, listing[i]), timestamp, coords)] else photos)
         == Collect(folder, listing[..i + 1], mtimeOf, tagsOf, parse)
  {
    CollectStep(folder, listing, i, mtimeOf, tagsOf, parse);
    if IsSupported(listing[i]) {
      RecordOfMetadata(folder, listing[i], mtimeOf, tagsOf, parse, timestamp, coords);
    }
  }

  lemma CollectStep(folder: string, listing: seq<string>, i: nat, mtimeOf: Path -> Timestamp, tagsOf: Path -> Option<Tags>,
                    parse: string -> Option<Timestamp>)
    requires i < |listing|
    ensures Collect(folder, listing[..i + 1], mtimeOf, tagsOf, parse)
         == Collect(folder, listing[..i], mtimeOf, tagsOf, parse)
            + (if IsSupported(listing[i]) then [Record(folder, listing[i], mtimeOf, tagsOf, parse)] else [])
  {
    assert listing[..i + 1][..i] == listing[..i];
  }

  /**
    A preview list holds exactly the supported files of the folder (each
    with its resolved metadata, none missing), sorted by lower-cased name.
   */
  lemma PreviewListIsComplete(photoFolder: string, outputPath: string, logoPath: string, folderExists: bool,
                              listing: seq<string>, mtimeOf: Path -> Timestamp, tagsOf: Path -> Option<Tags>,
                              parse: string -> Option<Timestamp>)
    ensures var o := PreviewOutcome(photoFolder, outputPath, logoPath, folderExists, listing, mtimeOf, tagsOf, parse);
      o.Preview? ==>
        && Sorted(o.photos, NameLe)
        && multiset(o.photos) == multiset(Collect(photoFolder, listing, mtimeOf, tagsOf, parse))
        && |o.photos| == |SupportedIndices(listing)|
        && (forall k :: 0 <= k < |o.photos| ==> o.photos[k].path.dir == photoFolder && IsSupported(o.photos[k].path.name))
        && (forall i :: 0 <= i < |listing| && IsSupported(listing[i]) ==>
              Record(photoFolder, listing[i], mtimeOf, tagsOf, parse) in o.photos)
  {
    var o := PreviewOutcome(photoFolder, outputPath, logoPath, folderExists, listing, mtimeOf, tagsOf, parse);
    if o.Preview? {
      var photos := Collect(photoFolder, listing, mtimeOf, tagsOf, parse);
      SortByNameOrders(photos);
      NameLeIsTotalPreorder();
      SortBySorted(photos, NameLe);
      CollectOrder(photoFolder, listing, mtimeOf, tagsOf, parse);
      forall k | 0 <= k < |o.photos| ensures o.photos[k].path.dir == photoFolder && IsSupported(o.photos[k].path.name) {
        assert o.photos[k] in multiset(photos);
        var j :| 0 <= j < |photos| && photos[j] == o.photos[k];
        CollectSound(photoFolder, listing, mtimeOf, tagsOf, parse, j);
      }
      forall i | 0 <= i < |listing| && IsSupported(listing[i])
        ensures Record(photoFolder, listing[i], mtimeOf, tagsOf, parse) in o.photos
      {
        CollectComplete(photoFolder, listing, mtimeOf, tagsOf, parse, i);
        assert Record(photoFolder, listing[i], mtimeOf, tagsOf, parse) in multiset(photos);
      }
    }
  }

  /** The "no supported images" error appears exactly when the checks pass and no listed name is supported. */
  lemma NoSupportedImagesIff(photoFolder: string, outputPath: string, logoPath: string, folderExists: bool,
                             listing: seq<string>, mtimeOf: Path -> Timestamp, tagsOf: Path -> Option<Tags>,
                             parse: string -> Option<Timestamp>)
    ensures PreviewOutcome(photoFolder, outputPath, logoPath, folderExists, listing, mtimeOf, tagsOf, parse) == NoSupportedImages
      <==> photoFolder != [] && outputPath != [] && logoPath != [] && folderExists
           && forall i :: 0 <= i < |listing| ==> !IsSupported(listing[i])
  {
    var photos := Collect(photoFolder, listing, mtimeOf, tagsOf, parse);
    if photos == [] {
      forall i | 0 <= i < |listing| ensures !IsSupported(listing[i]) {
        if IsSupported(listing[i]) {
          CollectComplete(photoFolder, listing, mtimeOf, tagsOf, parse, i);
        }
      }
    } else {
      CollectSound(photoFolder, listing, mtimeOf, tagsOf, parse, 0);
    }
  }

  lemma LowerEndsWith(name: string, e: string)
    requires EndsWith(name, e)
    ensures EndsWith(Lower(name), Lower(e))
  {
    LowerSuffix(name, |name| - |e|);
  }

  lemma LastThree(s: string, e: string)
    requires EndsWith(s, e) && |e| >= 3
    ensures s[|s| - 1] == e[|e| - 1] && s[|s| - 2] == e[|e| - 2] && s[|s| - 3] == e[|e| - 3]
  {
    assert s[|s| - 1] == s[|s| - |e|..][|e| - 1];
    assert s[|s| - 2] == s[|s| - |e|..][|e| - 2];
    assert s[|s| - 3] == s[|s| - |e|..][|e| - 3];
  }

  /** A name ending in ".tif" or ".tiff" ends in none of the supported suffixes. */
  lemma TiffSuffixUnsupported(l: string)
    requires EndsWith(l, ".tif") || EndsWith(l, ".tiff")
    ensures !EndsWith(l, ".jpg") && !EndsWith(l, ".jpeg") && !EndsWith(l, ".png")
    ensures !EndsWith(l, ".heic") && !EndsWith(l, ".heif")
  {
    if EndsWith(l, ".tif") { LastThree(l, ".tif"); } else { LastThree(l, ".tiff"); }
    if EndsWith(l, ".jpg") { LastThree(l, ".jpg"); }
    if EndsWith(l, ".jpeg") { LastThree(l, ".jpeg"); }
    if EndsWith(l, ".png") { LastThree(l, ".png"); }
    if EndsWith(l, ".heic") { LastThree(l, ".heic"); }
    if EndsWith(l, ".heif") { LastThree(l, ".heif"); }
  }

  /**
    TIFF files are among the formats whose tags are read, but the ingestion
    filter never admits them.
   */
  lemma TiffNeverIngested(name: string)
    requires EndsWith(Lower(name), ".tif") || EndsWith(Lower(name), ".tiff")
    ensures !IsSupported(name)
  {
    TiffSuffixUnsupported(Lower(name));
  }

  /**
    Of the files ingested, only those with a ".jpg" or ".jpeg" extension
    have tags read: the others (".png", ".heic", ".heif", and names that
    are only an extension) get their modification time and no coordinates.
   */
  lemma OnlyJpegMetadataIsRead(folder: string, name: string, mtimeOf: Path -> Timestamp,
                               tagsOf: Path -> Option<Tags>, parse: string -> Option<Timestamp>)
    requires IsSupported(name)
    requires Lower(Ext(name)) != ".jpg" && Lower(Ext(name)) != ".jpeg"
    ensures Record(folder, name, mtimeOf, tagsOf, parse) == PhotoRecord(Path(folder, name), mtimeOf(Path(folder, name)), None)
  {
    var path := Path(folder, name);
    SupportedTiffExtensionImpossible(name);
    OutsideExifExtensions(Lower(Ext(name)));
    ExtensionGate(path, mtimeOf(path), tagsOf(path), parse);
  }

  lemma OutsideExifExtensions(e: string)
    requires e != ".jpg" && e != ".jpeg" && e != ".tif" && e != ".tiff"
    ensures e !in ExifExtensions
  {
  }

  lemma SupportedTiffExtensionImpossible(name: string)
    requires IsSupported(name)
    ensures Lower(Ext(name)) != ".tif" && Lower(Ext(name)) != ".tiff"
  {
    var e := Ext(name);
    LowerEndsWith(name, e);
    if Lower(e) == ".tif" || Lower(e) == ".tiff" {
      TiffNeverIngested(name);
    }
  }
}
