/**
  Capture time and coordinates of one photo (`get_photo_metadata`). Start
  from the file's modification time and no coordinates; only JPEG and TIFF
  files have their EXIF tags read; the first timestamp tag present is the
  only one tried; the GPS tags count only when all four are present; and a
  failure anywhere in the EXIF block is swallowed, keeping what was already
  found. The tag reader and the date parser are parameters.
 */
module Metadata {
  import opened Wrappers
  import opened Text
  import opened Paths
  import opened Gps

  /** A point in time; the model only compares and copies timestamps. */
  type Timestamp = int

  /** One EXIF tag: its printable form (`str(tag)`) and its numeric values. */
  datatype Tag = Tag(printable: string, values: seq<Ratio>)

  /** The tags of one file, keyed as the tag reader names them. */
  type Tags = map<string, Tag>

  /** Signed decimal degrees, south and west negative. */
  datatype Coord = Coord(lat: real, lon: real)

  /** One photo of the log: its file, its capture time and its coordinates if any. */
  datatype PhotoRecord = PhotoRecord(path: Path, timestamp: Timestamp, coords: Option<Coord>)

  const DateTimeOriginal: string := "EXIF DateTimeOriginal"
  const ImageDateTime: string := "Image DateTime"
  const GpsLatitude: string := "GPS GPSLatitude"
  const GpsLongitude: string := "GPS GPSLongitude"
  const GpsLatitudeRef: string := "GPS GPSLatitudeRef"
  const GpsLongitudeRef: string := "GPS GPSLongitudeRef"

  /** The lower-cased extensions whose tags are read. */
  const ExifExtensions: set<string> := {".jpg", ".jpeg", ".tif", ".tiff"}

  predicate ReadsExif(path: Path) {
    Lower(Ext(path.name)) in ExifExtensions
  }

  predicate HasGps(tags: Tags) {
    GpsLatitude in tags && GpsLongitude in tags && GpsLatitudeRef in tags && GpsLongitudeRef in tags
  }

  /** Which source supplied the timestamp. */
  datatype TimestampSource = FromDateTimeOriginal | FromImageDateTime | FromModificationTime

  /** The outcome of resolution, tagged with the tier that supplied the timestamp. */
  datatype Resolution = Resolution(timestamp: Timestamp, source: TimestampSource, coords: Option<Coord>)

  /**
    The timestamp tier: the original-capture tag if present, else the
    generic one if present, parsed with `parse`; the modification time when
    neither is present or the chosen one does not parse.
   */
  function ResolveTimestamp(tags: Tags, mtime: Timestamp, parse: string -> Option<Timestamp>): (r: (Timestamp, TimestampSource))
    ensures r.1 == FromModificationTime ==> r.0 == mtime
    ensures r.1 == FromDateTimeOriginal ==> DateTimeOriginal in tags && parse(tags[DateTimeOriginal].printable) == Some(r.0)
    ensures r.1 == FromImageDateTime ==>
      DateTimeOriginal !in tags && ImageDateTime in tags && parse(tags[ImageDateTime].printable) == Some(r.0)
  {
    var key := if DateTimeOriginal in tags then DateTimeOriginal else ImageDateTime;
    var source := if DateTimeOriginal in tags then FromDateTimeOriginal else FromImageDateTime;
    if key in tags && parse(tags[key].printable).Some? then (parse(tags[key].printable).value, source)
    else (mtime, FromModificationTime)
  }

  /** The coordinate tier: all four GPS tags, both conversions succeeding, or nothing. */
  function ResolveCoords(tags: Tags): (r: Option<Coord>)
    ensures r.Some? <==> HasGps(tags) && WellFormed(tags[GpsLatitude].values) && WellFormed(tags[GpsLongitude].values)
  {
    if !HasGps(tags) then None
    else
      var lat := ConvertToDegrees(tags[GpsLatitude].values, Strip(tags[GpsLatitudeRef].printable));
      var lon := ConvertToDegrees(tags[GpsLongitude].values, Strip(tags[GpsLongitudeRef].printable));
      if lat.Some? && lon.Some? then Some(Coord(lat.value, lon.value)) else None
  }

  /**
    The tiered resolution. `tags` is None when reading the tags fails (the
    file cannot be opened, or the reader raises).
   */
  function Resolve(path: Path, mtime: Timestamp, tags: Option<Tags>, parse: string -> Option<Timestamp>): (r: Resolution)
    ensures r.source != FromModificationTime || r.coords.Some? ==> ReadsExif(path) && tags.Some?
    ensures r.source == FromModificationTime ==> r.timestamp == mtime
  {
    if !ReadsExif(path) || tags.None? then Resolution(mtime, FromModificationTime, None)
    else
      var (t, source) := ResolveTimestamp(tags.value, mtime, parse);
      Resolution(t, source, ResolveCoords(tags.value))
  }

  /**
    `get_photo_metadata(photo_path)`, step by step as the source does it:
    defaults first, then the timestamp, then the GPS block, leaving the
    block at the first failure.
   */
  method GetPhotoMetadata(path: Path, mtime: Timestamp, tags: Option<Tags>, parse: string -> Option<Timestamp>)
    returns (dt: Timestamp, coords: Option<Coord>)
    ensures dt == Resolve(path, mtime, tags, parse).timestamp
    ensures coords == Resolve(path, mtime, tags, parse).coords
  {
    var ext := Lower(Ext(path.name));
    dt := mtime;
    coords := None;
    if ext in ExifExtensions {
      if tags.Some? {
        dt := ReadTimestamp(tags.value, mtime, parse);
        coords := ReadGps(tags.value);
      }
    }
  }

  /** The timestamp block: the first timestamp tag present, parsed; `dt` is kept when it does not parse. */
  method ReadTimestamp(t: Tags, mtime: Timestamp, parse: string -> Option<Timestamp>) returns (dt: Timestamp)
    ensures dt == ResolveTimestamp(t, mtime, parse).0
  {
    dt := mtime;
    var tsTag: Option<Tag> := None;
    if DateTimeOriginal in t {
      tsTag := Some(t[DateTimeOriginal]);
    } else if ImageDateTime in t {
      tsTag := Some(t[ImageDateTime]);
    }
    if tsTag.Some? {
      var parsed := parse(tsTag.value.printable);
      if parsed.Some? {
        dt := parsed.value;
      }
    }
  }

  /** The GPS block: coordinates only when all four tags are present and both conversions succeed. */
  method ReadGps(t: Tags) returns (coords: Option<Coord>)
    ensures coords == ResolveCoords(t)
  {
    coords := None;
    if HasGps(t) {
      var latRef := Strip(t[GpsLatitudeRef].printable);
      var lonRef := Strip(t[GpsLongitudeRef].printable);
      var latDeg := ConvertToDegrees(t[GpsLatitude].values, latRef);
      if latDeg.Some? {
        var lonDeg := ConvertToDegrees(t[GpsLongitude].values, lonRef);
        if lonDeg.Some? {
          coords := Some(Coord(latDeg.value, lonDeg.value));
        }
      }
    }
  }

  /** Files outside the EXIF extensions (".png", ".heic", ...) get the modification time and no coordinates. */
  lemma ExtensionGate(path: Path, mtime: Timestamp, tags: Option<Tags>, parse: string -> Option<Timestamp>)
    requires Lower(Ext(path.name)) !in ExifExtensions
    ensures Resolve(path, mtime, tags, parse) == Resolution(mtime, FromModificationTime, None)
  {
  }

  /** A failed tag read degrades to the fallback and is not reported. */
  lemma UnreadableTagsFallBack(path: Path, mtime: Timestamp, parse: string -> Option<Timestamp>)
    ensures Resolve(path, mtime, None, parse) == Resolution(mtime, FromModificationTime, None)
  {
  }

  /** Coordinates appear exactly when all four GPS tags are present and both values convert. */
  lemma GpsAllOrNothing(path: Path, mtime: Timestamp, tags: Option<Tags>, parse: string -> Option<Timestamp>)
    ensures Resolve(path, mtime, tags, parse).coords.Some? <==>
      && ReadsExif(path) && tags.Some? && HasGps(tags.value)
      && WellFormed(tags.value[GpsLatitude].values) && WellFormed(tags.value[GpsLongitude].values)
  {
  }

  /** The coordinates are the two conversions of the GPS tags, with their references stripped. */
  lemma CoordsAreConversions(path: Path, mtime: Timestamp, tags: Option<Tags>, parse: string -> Option<Timestamp>)
    requires Resolve(path, mtime, tags, parse).coords.Some?
    ensures tags.Some? && HasGps(tags.value)
    ensures var c := Resolve(path, mtime, tags, parse).coords.value;
      && ConvertToDegrees(tags.value[GpsLatitude].values, Strip(tags.value[GpsLatitudeRef].printable)) == Some(c.lat)
      && ConvertToDegrees(tags.value[GpsLongitude].values, Strip(tags.value[GpsLongitudeRef].printable)) == Some(c.lon)
  {
  }

  /**
    When the original-capture tag is present it alone decides: its parse if
    that succeeds, otherwise the modification time, never the generic tag.
   */
  lemma DateTimeOriginalDecides(path: Path, mtime: Timestamp, tags: Tags, parse: string -> Option<Timestamp>)
    requires ReadsExif(path) && DateTimeOriginal in tags
    ensures var r := Resolve(path, mtime, Some(tags), parse);
      && r.timestamp == parse(tags[DateTimeOriginal].printable).GetOr(mtime)
      && r.source != FromImageDateTime
  {
  }

  /** The generic tag is tried only when the original-capture tag is absent. */
  lemma ImageDateTimeSecond(path: Path, mtime: Timestamp, tags: Tags, parse: string -> Option<Timestamp>)
    requires ReadsExif(path) && DateTimeOriginal !in tags
    ensures var r := Resolve(path, mtime, Some(tags), parse);
      r.timestamp == (if ImageDateTime in tags then parse(tags[ImageDateTime].printable).GetOr(mtime) else mtime)
  {
  }

  /** The source tag tells where the timestamp came from. */
  lemma SourceIsTruthful(path: Path, mtime: Timestamp, tags: Option<Tags>, parse: string -> Option<Timestamp>)
    ensures var r := Resolve(path, mtime, tags, parse);
      && (r.source == FromModificationTime ==> r.timestamp == mtime)
      && (r.source == FromDateTimeOriginal ==>
            tags.Some? && DateTimeOriginal in tags.value && parse(tags.value[DateTimeOriginal].printable) == Some(r.timestamp))
      && (r.source == FromImageDateTime ==>
            tags.Some? && DateTimeOriginal !in tags.value && ImageDateTime in tags.value
            && parse(tags.value[ImageDateTime].printable) == Some(r.timestamp))
  {
  }

  /**
    A failure in the GPS block (missing or malformed GPS tags) leaves the
    timestamp already found: it is the one found with no GPS tags at all.
   */
  lemma GpsFailureKeepsTimestamp(path: Path, mtime: Timestamp, tags: Tags, parse: string -> Option<Timestamp>)
    ensures var gpsKeys := {GpsLatitude, GpsLongitude, GpsLatitudeRef, GpsLongitudeRef};
      Resolve(path, mtime, Some(tags), parse).timestamp == Resolve(path, mtime, Some(tags - gpsKeys), parse).timestamp
  {
    var gpsKeys := {GpsLatitude, GpsLongitude, GpsLatitudeRef, GpsLongitudeRef};
    var rest := tags - gpsKeys;
    assert DateTimeOriginal in tags <==> DateTimeOriginal in rest;
    assert ImageDateTime in tags <==> ImageDateTime in rest;
    assert DateTimeOriginal in tags ==> tags[DateTimeOriginal] == rest[DateTimeOriginal];
    assert ImageDateTime in tags ==> tags[ImageDateTime] == rest[ImageDateTime];
  }
}
