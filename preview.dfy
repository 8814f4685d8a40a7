/**
  The preview window's photo list: the thumbnail grid, the drop position
  of a drag, reordering by pop and insert, removal, the two sorts, and the
  sequential renaming done before the log is generated. The canvas is
  reduced to the tile positions the window computes; whether a thumbnail
  can be loaded is a parameter.
 */
module Preview {
  import opened Wrappers
  import opened Text
  import opened Paths
  import opened Metadata
  import opened Ordering

  const ThumbWidth: int := 220
  const ThumbHeight: int := 160
  const MarginX: int := 40
  const MarginY: int := 40
  const SpacingX: int := 80
  const SpacingY: int := 140
  /** The width assumed while the canvas reports none. */
  const DefaultCanvasWidth: int := 800

  const PerTileWidth: int := ThumbWidth + SpacingX
  const PerTileHeight: int := ThumbHeight + SpacingY

  // ---------- Grid ----------

  datatype GridParams = GridParams(canvasWidth: int, perTileWidth: int, perTileHeight: int, cols: int)

  /**
    `get_grid_params`: as many 300-point columns as fit between the side
    margins, and at least one.
   */
  function GetGridParams(winfoWidth: int): (g: GridParams)
    ensures g.canvasWidth == if winfoWidth == 0 then DefaultCanvasWidth else winfoWidth
    ensures g.perTileWidth == 300 && g.perTileHeight == 300
    ensures g.cols >= 1
    ensures g.cols > 1 ==> 2 * MarginX + g.cols * g.perTileWidth <= g.canvasWidth
    ensures g.canvasWidth < 2 * MarginX + (g.cols + 1) * g.perTileWidth
  {
    var canvasWidth := if winfoWidth == 0 then DefaultCanvasWidth else winfoWidth;
    var fit := (canvasWidth - MarginX * 2) / PerTileWidth;
    GridParams(canvasWidth, PerTileWidth, PerTileHeight, if fit < 1 then 1 else fit)
  }

  /** Left edge of the tile at position `idx`, filled row by row. */
  function TileX(idx: nat, cols: int): (r: int)
    requires cols >= 1
    ensures MarginX <= r
  {
    MarginX + (idx % cols) * PerTileWidth
  }

  /** Top edge of the tile at position `idx`, one row for every `cols` positions. */
  function TileY(idx: nat, cols: int): (r: int)
    requires cols >= 1
    ensures MarginY <= r
  {
    MarginY + (idx / cols) * PerTileHeight
  }

  /** Every tile lies in one of the `cols` columns, and the first `cols` positions form the top row. */
  lemma TileInGrid(idx: nat, cols: int)
    requires cols >= 1
    ensures TileX(idx, cols) <= MarginX + (cols - 1) * PerTileWidth
    ensures idx < cols ==> TileX(idx, cols) == MarginX + idx * PerTileWidth
    ensures idx < cols <==> TileY(idx, cols) == MarginY
  {
  }

  /** The thumbnails of two different positions share no point: 80 and 140 points of gap separate them. */
  lemma TilesDoNotOverlap(i: nat, j: nat, cols: int)
    requires cols >= 1 && i != j
    ensures || TileX(i, cols) + ThumbWidth < TileX(j, cols) || TileX(j, cols) + ThumbWidth < TileX(i, cols)
            || TileY(i, cols) + ThumbHeight < TileY(j, cols) || TileY(j, cols) + ThumbHeight < TileY(i, cols)
  {
    if i % cols == j % cols {
      assert i == (i / cols) * cols + i % cols;
      assert j == (j / cols) * cols + j % cols;
      assert i / cols != j / cols;
    }
  }

  // ---------- Where a drag drops ----------

  function Min(a: int, b: int): int { if a <= b then a else b }

  function Max(a: int, b: int): int { if a >= b then a else b }

  /**
    The drop position of `on_release`: the grid cell under the cursor, the
    column clamped to the grid and the position clamped to the list.
   */
  function DropIndex(cx: real, cy: real, cols: int, count: int): (r: int)
    requires cols >= 1
    ensures 0 <= r && (count >= 1 ==> r < count)
  {
    var col := ((cx - MarginX as real) / PerTileWidth as real).Floor;
    var row := ((cy - MarginY as real) / PerTileHeight as real).Floor;
    var clampedCol := Max(0, Min(cols - 1, col));
    Max(0, Min(row * cols + clampedCol, count - 1))
  }

  /** A coordinate in the band `[lo, lo + 300)` that starts `k` cells after `origin` lies in cell `k`. */
  lemma FloorOfCell(v: real, origin: int, k: int, lo: int)
    requires lo == origin + k * 300
    requires lo as real <= v < (lo + 300) as real
    ensures ((v - origin as real) / 300.0).Floor == k
  {
    var q := (v - origin as real) / 300.0;
    assert q * 300.0 == v - origin as real;
    assert k as real <= q < (k + 1) as real;
  }

  /** Releasing anywhere inside the cell of position `idx` drops the photo at `idx`. */
  lemma DropOnTile(idx: nat, cols: int, count: int, cx: real, cy: real)
    requires cols >= 1 && idx < count
    requires TileX(idx, cols) as real <= cx < (TileX(idx, cols) + PerTileWidth) as real
    requires TileY(idx, cols) as real <= cy < (TileY(idx, cols) + PerTileHeight) as real
    ensures DropIndex(cx, cy, cols, count) == idx
  {
    var col, row := idx % cols, idx / cols;
    FloorOfCell(cx, MarginX, col, TileX(idx, cols));
    FloorOfCell(cy, MarginY, row, TileY(idx, cols));
    DivMod(idx, cols);
    DropInCell(cx, cy, cols, count, col, row);
  }

  lemma DivMod(idx: nat, cols: int)
    requires cols >= 1
    ensures 0 <= idx % cols < cols && (idx / cols) * cols + idx % cols == idx
  {
  }

  /** A cursor over column `col` of row `row`, a cell that holds a photo, drops at that photo's position. */
  lemma DropInCell(cx: real, cy: real, cols: int, count: int, col: int, row: int)
    requires cols >= 1 && 0 <= col < cols && 0 <= row * cols + col < count
    requires ((cx - MarginX as real) / PerTileWidth as real).Floor == col
    requires ((cy - MarginY as real) / PerTileHeight as real).Floor == row
    ensures DropIndex(cx, cy, cols, count) == row * cols + col
  {
  }

  /** Releasing past the last position (below the grid) drops the photo at the end of the list. */
  lemma DropBelowGrid(cols: int, count: int, cx: real, cy: real)
    requires cols >= 1 && count >= 1
    requires cy >= (MarginY + ((count - 1) / cols + 1) * PerTileHeight) as real
    ensures DropIndex(cx, cy, cols, count) == count - 1
  {
    var row := ((cy - MarginY as real) / PerTileHeight as real).Floor;
    var r := (count - 1) / cols + 1;
    RowAtLeast(cy, r);
    var clampedCol := Max(0, Min(cols - 1, ((cx - MarginX as real) / PerTileWidth as real).Floor));
    PastLastCell(cols, count, row, clampedCol);
  }

  /** A cursor at least `r` rows below the grid's top edge lies in row `r` or later. */
  lemma RowAtLeast(cy: real, r: int)
    requires cy >= (MarginY + r * PerTileHeight) as real
    ensures ((cy - MarginY as real) / PerTileHeight as real).Floor >= r
  {
    assert (cy - MarginY as real) / 300.0 * 300.0 == cy - MarginY as real;
    assert (cy - MarginY as real) / 300.0 >= r as real;
  }

  /** Every cell from the row after the last photo's row on comes after the last photo. */
  lemma PastLastCell(cols: int, count: int, row: int, col: int)
    requires cols >= 1 && count >= 1 && col >= 0
    requires row >= (count - 1) / cols + 1
    ensures row * cols + col >= count - 1
  {
    var q := (count - 1) / cols;
    assert count - 1 == q * cols + (count - 1) % cols;
    assert (q + 1) * cols == q * cols + cols;
    MulMonotone(row, q + 1, cols);
  }

  lemma MulMonotone(x: int, y: int, c: int)
    requires x >= y && c >= 0
    ensures x * c >= y * c
  {
    assert x * c - y * c == (x - y) * c;
  }

  // ---------- Reordering ----------

  /** `s` without its element at `i`. */
  function Without<T>(s: seq<T>, i: nat): seq<T>
    requires i < |s|
  {
    s[..i] + s[i + 1..]
  }

  /** `item = s.pop(from); s.insert(to, item)`. */
  function Move<T>(s: seq<T>, from: nat, to: nat): (r: seq<T>)
    requires from < |s| && to < |s|
    ensures |r| == |s| && r[to] == s[from]
    ensures Without(r, to) == Without(s, from)
    ensures multiset(r) == multiset(s)
  {
    var t := Without(s, from);
    var r := t[..to] + [s[from]] + t[to..];
    MultisetWithout(s, from);
    MultisetInsert(t, to, s[from]);
    InsertedWithout(t, to, s[from]);
    r
  }

  lemma InsertedWithout<T>(t: seq<T>, k: nat, x: T)
    requires k <= |t|
    ensures Without(t[..k] + [x] + t[k..], k) == t
  {
    var r := t[..k] + [x] + t[k..];
    assert r[..k] == t[..k] && r[k + 1..] == t[k..];
    assert t[..k] + t[k..] == t;
  }

  lemma MultisetWithout<T>(s: seq<T>, i: nat)
    requires i < |s|
    ensures multiset(Without(s, i)) + multiset{s[i]} == multiset(s)
  {
    assert s == s[..i] + [s[i]] + s[i + 1..];
  }

  lemma MultisetInsert<T>(t: seq<T>, k: nat, x: T)
    requires k <= |t|
    ensures multiset(t[..k] + [x] + t[k..]) == multiset(t) + multiset{x}
  {
    assert t == t[..k] + t[k..];
  }

  /** Moving an element onto its own position changes nothing, which is why the source may skip it. */
  lemma MoveInPlace<T>(s: seq<T>, i: nat)
    requires i < |s|
    ensures Move(s, i, i) == s
  {
    var r := Move(s, i, i);
    assert r[..i] == s[..i] && r[i + 1..] == s[i + 1..] by {
      assert Without(r, i) == Without(s, i);
      assert r[..i] == Without(r, i)[..i];
      assert s[..i] == Without(s, i)[..i];
      assert r[i + 1..] == Without(r, i)[i..];
      assert s[i + 1..] == Without(s, i)[i..];
    }
    assert r == r[..i] + [r[i]] + r[i + 1..];
    assert s == s[..i] + [s[i]] + s[i + 1..];
  }

  /**
    Element by element: the moved item lands at `to`, the ones between the
    two positions shift by one towards `from`, and all others stay.
   */
  lemma MoveShifts<T>(s: seq<T>, from: nat, to: nat, k: nat)
    requires from < |s| && to < |s| && k < |s|
    ensures Move(s, from, to)[k] ==
      if k == to then s[from]
      else if from < to && from <= k < to then s[k + 1]
      else if to < from && to < k <= from then s[k - 1]
      else s[k]
  {
    var r := Move(s, from, to);
    var w := Without(s, from);
    assert Without(r, to) == w;
    if k < to {
      assert r[k] == Without(r, to)[k];
    } else if k > to {
      assert r[k] == Without(r, to)[k - 1];
    }
  }

  // ---------- Removal ----------

  /** `[p for p in photos if p.path != path]` */
  function RemovePath(photos: seq<PhotoRecord>, path: Path): (r: seq<PhotoRecord>)
    ensures forall p :: multiset(r)[p] == if p.path == path then 0 else multiset(photos)[p]
  {
    if |photos| == 0 then []
    else
      assert photos == [photos[0]] + photos[1..];
      (if photos[0].path == path then [] else [photos[0]]) + RemovePath(photos[1..], path)
  }

  /** Removing a path that no photo has leaves the list as it was. */
  lemma {:induction false} RemoveAbsentPath(photos: seq<PhotoRecord>, path: Path)
    requires forall i :: 0 <= i < |photos| ==> photos[i].path != path
    ensures RemovePath(photos, path) == photos
  {
    if |photos| > 0 {
      RemoveAbsentPath(photos[1..], path);
      assert [photos[0]] + photos[1..] == photos;
    }
  }

  // ---------- Tiles ----------

  /** A thumbnail on the canvas: its top-left corner, its file and its position in the list. */
  datatype Tile = Tile(x: int, y: int, path: Path, photoIndex: nat)

  /** `tile` is the tile of one of the first `k` photos, placed where its position puts it. */
  predicate PlacedTile(photos: seq<PhotoRecord>, cols: int, loads: Path -> bool, k: nat, tile: Tile)
    requires cols >= 1 && k <= |photos|
  {
    && tile.photoIndex < k && tile.path == photos[tile.photoIndex].path && loads(tile.path)
    && tile.x == TileX(tile.photoIndex, cols) && tile.y == TileY(tile.photoIndex, cols)
  }

  /**
    The tiles `load_photos` places for the first `k` photos: positions are
    those of the list, but a photo whose thumbnail fails to load gets no
    tile.
   */
  function Tiles(photos: seq<PhotoRecord>, cols: int, loads: Path -> bool, k: nat): (r: seq<Tile>)
    requires cols >= 1 && k <= |photos|
    ensures |r| <= k
    ensures forall t :: 0 <= t < |r| ==> PlacedTile(photos, cols, loads, k, r[t])
    ensures forall t, u :: 0 <= t < u < |r| ==> r[t].photoIndex < r[u].photoIndex
  {
    if k == 0 then []
    else
      var i := k - 1;
      var rest := Tiles(photos, cols, loads, i);
      var tile := Tile(TileX(i, cols), TileY(i, cols), photos[i].path, i);
      var r := rest + (if loads(photos[i].path) then [tile] else []);
      assert loads(photos[i].path) ==> r[|rest|] == tile;
      assert forall t :: 0 <= t < |rest| ==> r[t] == rest[t];
      r
  }

  /** Every photo whose thumbnail loads has a tile. */
  lemma {:induction false} TilesCoverLoaded(photos: seq<PhotoRecord>, cols: int, loads: Path -> bool, k: nat, i: nat)
    requires cols >= 1 && i < k <= |photos| && loads(photos[i].path)
    ensures exists t :: 0 <= t < |Tiles(photos, cols, loads, k)| && Tiles(photos, cols, loads, k)[t].photoIndex == i
  {
    var r := Tiles(photos, cols, loads, k);
    var rest := Tiles(photos, cols, loads, k - 1);
    assert forall t :: 0 <= t < |rest| ==> r[t] == rest[t];
    if i < k - 1 {
      TilesCoverLoaded(photos, cols, loads, k - 1, i);
      var t :| 0 <= t < |rest| && rest[t].photoIndex == i;
      assert r[t].photoIndex == i;
    } else {
      assert r[|rest|].photoIndex == i;
    }
  }

  /** When every thumbnail loads, tile t is the tile of photo t. */
  lemma {:induction false} AllLoadedTiles(photos: seq<PhotoRecord>, cols: int, loads: Path -> bool, k: nat)
    requires cols >= 1 && k <= |photos|
    requires forall i :: 0 <= i < |photos| ==> loads(photos[i].path)
    ensures |Tiles(photos, cols, loads, k)| == k
    ensures forall t :: 0 <= t < k ==> Tiles(photos, cols, loads, k)[t].photoIndex == t
  {
    if k > 0 {
      AllLoadedTiles(photos, cols, loads, k - 1);
      var r := Tiles(photos, cols, loads, k);
      var rest := Tiles(photos, cols, loads, k - 1);
      assert r == rest + [Tile(TileX(k - 1, cols), TileY(k - 1, cols), photos[k - 1].path, k - 1)];
    }
  }

  /** The cursor is on the thumbnail of a tile, edges included. */
  predicate OnTile(tile: Tile, x: real, y: real) {
    tile.x as real <= x <= (tile.x + ThumbWidth) as real && tile.y as real <= y <= (tile.y + ThumbHeight) as real
  }

  /** The first tile under the cursor, as a position among the tiles. */
  function FirstHit(items: seq<Tile>, x: real, y: real): (r: Option<nat>)
    ensures r.Some? ==> r.value < |items| && OnTile(items[r.value], x, y)
    ensures r.Some? ==> forall t :: 0 <= t < r.value ==> !OnTile(items[t], x, y)
    ensures r.None? ==> forall t :: 0 <= t < |items| ==> !OnTile(items[t], x, y)
    decreases |items|
  {
    if |items| == 0 then None
    else if OnTile(items[0], x, y) then Some(0)
    else
      match FirstHit(items[1..], x, y)
      case None => None
      case Some(t) => Some(t + 1)
  }

  /**
    The photo under the cursor, as a position in the photo list: the
    index the tile was created for. This is what a press should start
    dragging.
   */
  function PressedPhoto(items: seq<Tile>, x: real, y: real): (r: Option<nat>)
    ensures r.None? <==> forall t :: 0 <= t < |items| ==> !OnTile(items[t], x, y)
    ensures r.Some? ==> exists t :: 0 <= t < |items| && OnTile(items[t], x, y) && items[t].photoIndex == r.value
  {
    match FirstHit(items, x, y)
    case None => None
    case Some(t) => Some(items[t].photoIndex)
  }

  /** A press names photo i exactly when the cursor is on photo i's thumbnail and that thumbnail loaded. */
  lemma PressedPhotoIsUnderCursor(photos: seq<PhotoRecord>, cols: int, loads: Path -> bool, x: real, y: real, i: nat)
    requires cols >= 1 && i < |photos|
    ensures var items := Tiles(photos, cols, loads, |photos|);
      PressedPhoto(items, x, y) == Some(i) <==>
        loads(photos[i].path) && OnTile(Tile(TileX(i, cols), TileY(i, cols), photos[i].path, i), x, y)
  {
    var items := Tiles(photos, cols, loads, |photos|);
    if loads(photos[i].path) && OnTile(Tile(TileX(i, cols), TileY(i, cols), photos[i].path, i), x, y) {
      TilesCoverLoaded(photos, cols, loads, |photos|, i);
      var t :| 0 <= t < |items| && items[t].photoIndex == i;
      assert OnTile(items[t], x, y);
      var h := FirstHit(items, x, y).value;
      if items[h].photoIndex != i {
        TilesDoNotOverlap(items[h].photoIndex, i, cols);
      }
    }
  }

  /** When every thumbnail loads, the tile position and the photo position agree. */
  lemma HitIsPhotoWhenAllLoad(photos: seq<PhotoRecord>, cols: int, loads: Path -> bool, x: real, y: real)
    requires cols >= 1
    requires forall i :: 0 <= i < |photos| ==> loads(photos[i].path)
    ensures var items := Tiles(photos, cols, loads, |photos|);
      FirstHit(items, x, y) == PressedPhoto(items, x, y)
  {
    AllLoadedTiles(photos, cols, loads, |photos|);
  }

  /**
    As written, a press keeps the position among the tiles and the release
    uses it as a position in the photo list. With photos a and b, a's
    thumbnail failing to load, a press on b's thumbnail (at 340, 40 in a
    three-column grid) yields 0, and the release moves a.
   */
  lemma PressAfterFailedThumbnail(a: PhotoRecord, b: PhotoRecord)
    requires a.path != b.path
    ensures var loads := (p: Path) => p == b.path;
      var items := Tiles([a, b], 3, loads, 2);
      && FirstHit(items, 340.0, 40.0) == Some(0)
      && [a, b][0] == a && items[0].path == b.path
      && PressedPhoto(items, 340.0, 40.0) == Some(1)
  {
    var loads := (p: Path) => p == b.path;
    var items := Tiles([a, b], 3, loads, 2);
    assert Tiles([a, b], 3, loads, 1) == [];
    assert items == [Tile(340, 40, b.path, 1)];
  }

  // ---------- Renaming ----------

  /** One `shutil.move(source, target)`. */
  datatype FileMove = FileMove(source: Path, target: Path)

  function TempPath(folder: string, i: nat, ext: string): Path {
    Path(folder, "temp_" + Decimal(i) + ext)
  }

  function RenamedPath(folder: string, i: nat, ext: string): Path {
    Path(folder, "Photo " + Decimal(i + 1) + ext)
  }

  function RenamedRecord(photo: PhotoRecord, folder: string, i: nat): PhotoRecord {
    PhotoRecord(RenamedPath(folder, i, Ext(photo.path.name)), photo.timestamp, photo.coords)
  }

  function RenamedRecords(photos: seq<PhotoRecord>, folder: string, k: nat): seq<PhotoRecord>
    requires k <= |photos|
  {
    seq(k, i requires 0 <= i < k => RenamedRecord(photos[i], folder, i))
  }

  /** What `rename_photos` leaves in the list: "Photo 1", "Photo 2", ... in the first photo's folder. */
  function Renamed(photos: seq<PhotoRecord>): (r: seq<PhotoRecord>)
    ensures |r| == |photos|
    ensures forall i :: 0 <= i < |r| ==>
      && r[i].path.dir == photos[0].path.dir
      && r[i].timestamp == photos[i].timestamp && r[i].coords == photos[i].coords
  {
    if |photos| == 0 then [] else RenamedRecords(photos, photos[0].path.dir, |photos|)
  }

  function TempRecord(photo: PhotoRecord, folder: string, i: nat): PhotoRecord {
    PhotoRecord(TempPath(folder, i, Ext(photo.path.name)), photo.timestamp, photo.coords)
  }

  function TempRecords(photos: seq<PhotoRecord>, folder: string, k: nat): seq<PhotoRecord>
    requires k <= |photos|
  {
    seq(k, i requires 0 <= i < k => TempRecord(photos[i], folder, i))
  }

  /** The first `k` photos, photo `i` given the record `relabel` picks for position `i` in `folder`. */
  function Relabelled(photos: seq<PhotoRecord>, folder: string, k: nat, relabel: (PhotoRecord, string, nat) -> PhotoRecord): seq<PhotoRecord>
    requires k <= |photos|
  {
    seq(k, i requires 0 <= i < k => relabel(photos[i], folder, i))
  }

  /** One move per entry, from the file of `from[i]` to the file of `to[i]`. */
  function Moves(from: seq<PhotoRecord>, to: seq<PhotoRecord>): (r: seq<FileMove>)
    requires |from| == |to|
    ensures |r| == |from|
  {
    seq(|from|, i requires 0 <= i < |from| => FileMove(from[i].path, to[i].path))
  }

  /** The file moves, in order: every photo to its temporary name, then every temporary name to its final one. */
  function RenameMoves(photos: seq<PhotoRecord>): (r: seq<FileMove>)
    ensures |r| == 2 * |photos|
    ensures forall i :: 0 <= i < |photos| ==> r[i].source == photos[i].path
    ensures forall i :: 0 <= i < |photos| ==> r[|photos| + i].source == r[i].target
  {
    if |photos| == 0 then []
    else
      var folder := photos[0].path.dir;
      var temps := TempRecords(photos, folder, |photos|);
      Moves(photos, temps) + Moves(temps, RenamedRecords(photos, folder, |photos|))
  }

  lemma RelabelledStep(photos: seq<PhotoRecord>, folder: string, k: nat, relabel: (PhotoRecord, string, nat) -> PhotoRecord)
    requires k < |photos|
    ensures Relabelled(photos, folder, k + 1, relabel) == Relabelled(photos, folder, k, relabel) + [relabel(photos[k], folder, k)]
  {
    var longer := Relabelled(photos, folder, k + 1, relabel);
    var shorter := Relabelled(photos, folder, k, relabel);
    assert forall i :: 0 <= i < k ==> longer[i] == shorter[i];
  }

  lemma TempRecordsStep(photos: seq<PhotoRecord>, folder: string, k: nat)
    requires k < |photos|
    ensures TempRecords(photos, folder, k + 1) == TempRecords(photos, folder, k) + [TempRecord(photos[k], folder, k)]
  {
    RelabelledStep(photos, folder, k, TempRecord);
    assert TempRecords(photos, folder, k) == Relabelled(photos, folder, k, TempRecord);
    assert TempRecords(photos, folder, k + 1) == Relabelled(photos, folder, k + 1, TempRecord);
  }

  lemma RenamedRecordsStep(photos: seq<PhotoRecord>, folder: string, k: nat)
    requires k < |photos|
    ensures RenamedRecords(photos, folder, k + 1) == RenamedRecords(photos, folder, k) + [RenamedRecord(photos[k], folder, k)]
  {
    RelabelledStep(photos, folder, k, RenamedRecord);
    assert RenamedRecords(photos, folder, k) == Relabelled(photos, folder, k, RenamedRecord);
    assert RenamedRecords(photos, folder, k + 1) == Relabelled(photos, folder, k + 1, RenamedRecord);
  }

  /** A stem ending in a number keeps whatever extension follows it. */
  lemma NumberedStemKeepsExtension(prefix: string, n: nat, ext: string)
    requires IsExtension(ext) && |prefix| > 0
    requires forall i :: 0 <= i < |prefix| ==> prefix[i] != '.'
    ensures Ext(prefix + Decimal(n) + ext) == ext
  {
    var stem := prefix + Decimal(n);
    assert forall i :: |prefix| <= i < |stem| ==> IsDigit(stem[i]);
    ExtOfStemAndExt(stem, ext);
  }

  lemma NumberedNameInjective(prefix: string, n: nat, e: string, n': nat, e': string)
    requires IsExtension(e) && IsExtension(e')
    requires prefix + Decimal(n) + e == prefix + Decimal(n') + e'
    ensures n == n' && e == e'
  {
    var s := prefix + Decimal(n) + e;
    var s' := prefix + Decimal(n') + e';
    assert Decimal(n) + e == s[|prefix|..];
    assert Decimal(n') + e' == s'[|prefix|..];
    DigitRunSplit(Decimal(n), e, Decimal(n'), e');
    DecimalInjective(n, n');
  }

  /**
    Renaming keeps every timestamp, coordinate pair and extension, and
    puts every photo in the first photo's folder.
   */
  lemma RenamedKeepsData(photos: seq<PhotoRecord>, i: nat)
    requires i < |photos|
    ensures var r := Renamed(photos)[i];
      && r.timestamp == photos[i].timestamp && r.coords == photos[i].coords
      && r.path == Path(photos[0].path.dir, "Photo " + Decimal(i + 1) + Ext(photos[i].path.name))
      && Ext(r.path.name) == Ext(photos[i].path.name)
  {
    NumberedStemKeepsExtension("Photo ", i + 1, Ext(photos[i].path.name));
  }

  lemma TempPathsDiffer(folder: string, i: nat, e: string, j: nat, e': string)
    requires i != j && IsExtension(e) && IsExtension(e')
    ensures TempPath(folder, i, e) != TempPath(folder, j, e')
  {
    if TempPath(folder, i, e).name == TempPath(folder, j, e').name {
      NumberedNameInjective("temp_", i, e, j, e');
    }
  }

  lemma RenamedPathsDiffer(folder: string, i: nat, e: string, j: nat, e': string)
    requires i != j && IsExtension(e) && IsExtension(e')
    ensures RenamedPath(folder, i, e) != RenamedPath(folder, j, e')
  {
    if RenamedPath(folder, i, e).name == RenamedPath(folder, j, e').name {
      NumberedNameInjective("Photo ", i + 1, e, j + 1, e');
    }
  }

  /** A temporary name starts with 't' and a final one with 'P'. */
  lemma TempIsNotFinal(folder: string, i: nat, e: string, j: nat, e': string)
    ensures TempPath(folder, i, e) != RenamedPath(folder, j, e')
  {
    assert TempPath(folder, i, e).name[0] == 't';
    assert RenamedPath(folder, j, e').name[0] == 'P';
  }

  /** No two photos get the same new name. */
  lemma RenamedDistinct(photos: seq<PhotoRecord>)
    ensures var r := Renamed(photos);
      forall i, j :: 0 <= i < j < |r| ==> r[i].path != r[j].path
  {
    var r := Renamed(photos);
    forall i, j | 0 <= i < j < |r| ensures r[i].path != r[j].path {
      RenamedPathsDiffer(photos[0].path.dir, i, Ext(photos[i].path.name), j, Ext(photos[j].path.name));
    }
  }

  /** The target of move `a`: a temporary name in the first pass, a final name in the second. */
  lemma MoveTarget(photos: seq<PhotoRecord>, a: nat)
    requires a < 2 * |photos|
    ensures |RenameMoves(photos)| == 2 * |photos|
    ensures var folder := photos[0].path.dir;
      var n := |photos|;
      RenameMoves(photos)[a].target ==
        if a < n then TempPath(folder, a, Ext(photos[a].path.name))
        else RenamedPath(folder, a - n, Ext(photos[a - n].path.name))
  {
    var folder := photos[0].path.dir;
    var n := |photos|;
    var temps := TempRecords(photos, folder, n);
    var first := Moves(photos, temps);
    var second := Moves(temps, RenamedRecords(photos, folder, n));
    assert RenameMoves(photos) == first + second;
    if a >= n {
      assert RenameMoves(photos)[a] == second[a - n];
    }
  }

  lemma MoveTargetsDiffer(photos: seq<PhotoRecord>, a: nat, b: nat)
    requires a < b < 2 * |photos|
    ensures RenameMoves(photos)[a].target != RenameMoves(photos)[b].target
  {
    var n := |photos|;
    var folder := photos[0].path.dir;
    MoveTarget(photos, a);
    MoveTarget(photos, b);
    if b < n {
      TempPathsDiffer(folder, a, Ext(photos[a].path.name), b, Ext(photos[b].path.name));
    } else if a >= n {
      RenamedPathsDiffer(folder, a - n, Ext(photos[a - n].path.name), b - n, Ext(photos[b - n].path.name));
    } else {
      TempIsNotFinal(folder, a, Ext(photos[a].path.name), b - n, Ext(photos[b - n].path.name));
    }
  }

  /** No move lands on the target of another: the temporary names and the final names are all different. */
  lemma RenameTargetsDistinct(photos: seq<PhotoRecord>)
    ensures var m := RenameMoves(photos);
      forall a, b :: 0 <= a < b < |m| ==> m[a].target != m[b].target
  {
    var m := RenameMoves(photos);
    if |photos| > 0 {
      MoveTarget(photos, 0);
      forall a, b | 0 <= a < b < |m| ensures m[a].target != m[b].target {
        MoveTargetsDiffer(photos, a, b);
      }
    }
  }

  /**
    The first pass cannot overwrite a listed photo whose file name does not
    start with `temp_`: every temporary name does.
   */
  lemma TempTargetMissesOtherNames(photos: seq<PhotoRecord>, a: nat, b: nat)
    requires a < |photos| && b < |photos|
    requires !(5 <= |photos[b].path.name| && photos[b].path.name[..5] == "temp_")
    ensures |RenameMoves(photos)| == 2 * |photos|
    ensures RenameMoves(photos)[a].target != photos[b].path
  {
    MoveTarget(photos, a);
    TempNamePrefix(photos[0].path.dir, a, Ext(photos[a].path.name));
  }

  lemma TempNamePrefix(folder: string, i: nat, ext: string)
    ensures 5 <= |TempPath(folder, i, ext).name| && TempPath(folder, i, ext).name[..5] == "temp_"
  {
    assert TempPath(folder, i, ext).name == "temp_" + (Decimal(i) + ext);
  }

  /**
    A listed photo that already bears the temporary name of an earlier photo
    is overwritten before it is moved: with `a.jpg`, `b.jpg`, `temp_1.jpg` in
    one folder, the second move of the first pass lands on the third photo.
   */
  lemma TempNameCollision(photos: seq<PhotoRecord>, a: nat, b: nat)
    requires a < b < |photos|
    requires photos[b].path == TempPath(photos[0].path.dir, a, Ext(photos[a].path.name))
    ensures |RenameMoves(photos)| == 2 * |photos|
    ensures RenameMoves(photos)[a].target == photos[b].path
  {
    MoveTarget(photos, a);
  }

  // ---------- The window ----------

  /**
    `PhotoPreviewWindow`, reduced to its list, its tiles and its drag
    state. `thumbnailLoads` says whether a file's thumbnail can be opened.
   */
  class PhotoPreviewWindow {
    var photos: seq<PhotoRecord>
    var items: seq<Tile>
    var canvasWidth: int
    const thumbnailLoads: Path -> bool
    var draggedIndex: Option<nat>
    var lastDragX: Option<real>
    var lastDragY: Option<real>

    function Cols(): (c: int)
      reads this
      ensures c >= 1
    {
      GetGridParams(canvasWidth).cols
    }

    /** The tiles are those of the list, and a drag, while under way, holds a list position. */
    ghost predicate Valid()
      reads this
    {
      && items == Tiles(photos, Cols(), thumbnailLoads, |photos|)
      && (draggedIndex.Some? ==> draggedIndex.value < |photos| && lastDragX.Some? && lastDragY.Some?)
      && (draggedIndex.None? ==> lastDragX.None? && lastDragY.None?)
    }

    constructor (initial: seq<PhotoRecord>, width: int, loads: Path -> bool)
      ensures Valid()
      ensures photos == initial && canvasWidth == width && thumbnailLoads == loads && draggedIndex.None?
    {
      photos := initial;
      canvasWidth := width;
      thumbnailLoads := loads;
      draggedIndex := None;
      lastDragX := None;
      lastDragY := None;
      new;
      LoadPhotos();
    }

    /** `load_photos`: one tile per photo whose thumbnail loads, at its grid position. */
    method LoadPhotos()
      modifies this`items
      ensures items == Tiles(photos, Cols(), thumbnailLoads, |photos|)
    {
      var g := GetGridParams(canvasWidth);
      var cols := g.cols;
      var acc: seq<Tile> := [];
      var idx := 0;
      while idx < |photos|
        invariant 0 <= idx <= |photos|
        invariant acc == Tiles(photos, cols, thumbnailLoads, idx)
      {
        var row := idx / cols;
        var col := idx % cols;
        var x := MarginX + col * g.perTileWidth;
        var y := MarginY + row * g.perTileHeight;
        if thumbnailLoads(photos[idx].path) {
          acc := acc + [Tile(x, y, photos[idx].path, idx)];
        }
        idx := idx + 1;
      }
      items := acc;
    }

    /** `on_canvas_resize`: the grid is laid out again for the new width. */
    method OnCanvasResize(width: int)
      requires Valid()
      modifies this`canvasWidth, this`items
      ensures Valid()
      ensures canvasWidth == width && photos == old(photos) && draggedIndex == old(draggedIndex)
      ensures lastDragX == old(lastDragX) && lastDragY == old(lastDragY)
    {
      canvasWidth := width;
      LoadPhotos();
    }

    /** `find_photo_at`: the first tile, in tile order, whose thumbnail is under the cursor. */
    method FindPhotoAt(x: real, y: real) returns (r: Option<nat>)
      ensures r == FirstHit(items, x, y)
    {
      var idx := 0;
      while idx < |items|
        invariant 0 <= idx <= |items|
        invariant forall t :: 0 <= t < idx ==> !OnTile(items[t], x, y)
      {
        var tile := items[idx];
        var x1, y1 := tile.x as real, tile.y as real;
        var x2 := x1 + ThumbWidth as real;
        var y2 := y1 + ThumbHeight as real;
        if x1 <= x <= x2 && y1 <= y <= y2 {
          FirstHitIsFirst(items, x, y, idx);
          return Some(idx);
        }
        idx := idx + 1;
      }
      FirstHitIsFirst(items, x, y, |items|);
      return None;
    }

    /**
      `on_press`: a press on a thumbnail starts a drag of the photo that
      tile shows. The source keeps the tile position instead (see the
      findings); the model keeps the photo's position in the list.
     */
    method OnPress(cx: real, cy: real)
      requires Valid()
      modifies this`draggedIndex, this`lastDragX, this`lastDragY
      ensures Valid()
      ensures PressedPhoto(items, cx, cy).Some? ==>
        draggedIndex == PressedPhoto(items, cx, cy) && lastDragX == Some(cx) && lastDragY == Some(cy)
      ensures PressedPhoto(items, cx, cy).None? ==>
        draggedIndex == old(draggedIndex) && lastDragX == old(lastDragX) && lastDragY == old(lastDragY)
    {
      var idx := FindPhotoAt(cx, cy);
      if idx.Some? {
        draggedIndex := Some(items[idx.value].photoIndex);
        lastDragX := Some(cx);
        lastDragY := Some(cy);
      }
    }

    /** `on_drag`: only the last cursor position is kept; the canvas moves are not modelled. */
    method OnDrag(cx: real, cy: real)
      requires Valid()
      modifies this`lastDragX, this`lastDragY
      ensures Valid()
      ensures draggedIndex.Some? ==> lastDragX == Some(cx) && lastDragY == Some(cy)
      ensures draggedIndex.None? ==> lastDragX == old(lastDragX) && lastDragY == old(lastDragY)
    {
      if draggedIndex.None? {
        return;
      }
      lastDragX := Some(cx);
      lastDragY := Some(cy);
    }

    /**
      `on_release`: the dragged entry is popped and inserted at the drop
      position, the drag state is cleared and the grid is laid out again.
     */
    method OnRelease(cx: real, cy: real)
      requires Valid()
      modifies this
      ensures Valid()
      ensures old(draggedIndex).None? ==> photos == old(photos) && items == old(items)
      ensures old(draggedIndex).Some? ==>
        && old(draggedIndex).value < |old(photos)|
        && photos == Move(old(photos), old(draggedIndex).value, DropIndex(cx, cy, Cols(), |old(photos)|))
      ensures draggedIndex.None? && canvasWidth == old(canvasWidth)
    {
      if draggedIndex.None? {
        return;
      }
      var g := GetGridParams(canvasWidth);
      var newIndex := DropIndex(cx, cy, g.cols, |photos|);
      var from := draggedIndex.value;
      if newIndex != from {
        photos := Move(photos, from, newIndex);
      } else {
        MoveInPlace(photos, from);
      }
      draggedIndex := None;
      lastDragX := None;
      lastDragY := None;
      LoadPhotos();
    }

    /** `remove_photo(path)`: every entry with that path goes, and the grid is laid out again. */
    method RemovePhoto(path: Path)
      requires Valid() && draggedIndex.None?
      modifies this
      ensures Valid() && draggedIndex.None?
      ensures photos == RemovePath(old(photos), path) && canvasWidth == old(canvasWidth)
    {
      photos := RemovePath(photos, path);
      LoadPhotos();
    }

    /**
      `sort_by_name`: ordered by lower-cased file name, ties in their
      previous order; `SortByNameOrders` states what the result holds.
     */
    method SortByName()
      requires Valid() && draggedIndex.None?
      modifies this
      ensures Valid() && draggedIndex.None?
      ensures photos == SortBy(old(photos), NameLe) && canvasWidth == old(canvasWidth)
    {
      photos := SortBy(photos, NameLe);
      LoadPhotos();
    }

    /**
      `sort_by_timestamp`: ordered by capture time, ties in their previous
      order; `SortByTimeOrders` states what the result holds.
     */
    method SortByTimestamp()
      requires Valid() && draggedIndex.None?
      modifies this
      ensures Valid() && draggedIndex.None?
      ensures photos == SortBy(old(photos), TimeLe) && canvasWidth == old(canvasWidth)
    {
      photos := SortBy(photos, TimeLe);
      LoadPhotos();
    }

    /**
      `rename_photos`: two passes of moves, through temporary names so that
      no final name is taken while an old file may still hold it. `moves`
      are the file moves in the order made.
     */
    method RenamePhotos() returns (moves: seq<FileMove>)
      modifies this`photos
      ensures photos == Renamed(old(photos))
      ensures moves == RenameMoves(old(photos))
    {
      if |photos| == 0 {
        return [];
      }
      var folder := photos[0].path.dir;
      var ps := photos;
      var temps := TempPass(photos, folder);
      TempRecordsKeepData(photos, folder);
      var renamed := FinalPass(photos, folder, temps);
      moves := Moves(ps, temps) + Moves(temps, renamed);
      photos := renamed;
    }
  }

  lemma TempKeepsExtension(photo: PhotoRecord, folder: string, i: nat)
    ensures Ext(TempRecord(photo, folder, i).path.name) == Ext(photo.path.name)
  {
    NumberedStemKeepsExtension("temp_", i, Ext(photo.path.name));
  }

  /** Two lists agree entry by entry on extension, timestamp and coordinates. */
  ghost predicate SameData(temps: seq<PhotoRecord>, photos: seq<PhotoRecord>) {
    && |temps| == |photos|
    && forall i :: 0 <= i < |photos| ==>
         && Ext(temps[i].path.name) == Ext(photos[i].path.name)
         && temps[i].timestamp == photos[i].timestamp && temps[i].coords == photos[i].coords
  }

  lemma TempRecordsKeepData(photos: seq<PhotoRecord>, folder: string)
    ensures SameData(TempRecords(photos, folder, |photos|), photos)
  {
    var temps := TempRecords(photos, folder, |photos|);
    forall i | 0 <= i < |photos| ensures Ext(temps[i].path.name) == Ext(photos[i].path.name) {
      TempKeepsExtension(photos[i], folder, i);
    }
  }

  /** The first pass of `rename_photos`: photo i moves to `temp_i` with its extension. */
  method TempPass(photos: seq<PhotoRecord>, folder: string) returns (temps: seq<PhotoRecord>)
    ensures temps == TempRecords(photos, folder, |photos|)
  {
    temps := [];
    var idx := 0;
    while idx < |photos|
      invariant 0 <= idx <= |photos|
      invariant temps == TempRecords(photos, folder, idx)
    {
      var ext := Ext(photos[idx].path.name);
      var tempPath := TempPath(folder, idx, ext);
      TempRecordsStep(photos, folder, idx);
      temps := temps + [PhotoRecord(tempPath, photos[idx].timestamp, photos[idx].coords)];
      idx := idx + 1;
    }
  }

  /**
    The second pass: `temp_i` moves to `Photo i+1` with the extension read
    back from the temporary name, which is the original one.
   */
  method FinalPass(photos: seq<PhotoRecord>, folder: string, temps: seq<PhotoRecord>) returns (renamed: seq<PhotoRecord>)
    requires SameData(temps, photos)
    ensures renamed == RenamedRecords(photos, folder, |photos|)
  {
    renamed := [];
    var idx := 0;
    while idx < |temps|
      invariant 0 <= idx <= |temps|
      invariant renamed == RenamedRecords(photos, folder, idx)
    {
      var ext := Ext(temps[idx].path.name);
      var newPath := RenamedPath(folder, idx, ext);
      RenamedRecordsStep(photos, folder, idx);
      renamed := renamed + [PhotoRecord(newPath, temps[idx].timestamp, temps[idx].coords)];
      idx := idx + 1;
    }
  }

  lemma {:induction false} FirstHitIsFirst(items: seq<Tile>, x: real, y: real, idx: nat)
    requires idx <= |items|
    requires forall t :: 0 <= t < idx ==> !OnTile(items[t], x, y)
    requires idx < |items| ==> OnTile(items[idx], x, y)
    ensures FirstHit(items, x, y) == if idx < |items| then Some(idx) else None
    decreases idx
  {
    if idx > 0 {
      FirstHitIsFirst(items[1..], x, y, idx - 1);
    }
  }
}
