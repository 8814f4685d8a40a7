/**
  The photolog document (`create_photolog`): photos two to a page on a
  letter page, each with a numbered caption, an optional coordinate label
  and two fillable note fields, and a progress callback after every page
  header and every photo. Drawing calls are recorded as a trace of `Op`
  values; text measurement and coordinate formatting are parameters.
 */
module Photolog {
  import opened Wrappers
  import opened Text
  import opened Paths
  import opened Metadata

  // Page geometry, in points (72 to the inch).
  const Inch: real := 72.0
  const PageWidth: real := 8.5 * Inch
  const PageHeight: real := 11.0 * Inch
  const PhotoWidth: real := 4.5 * Inch
  const PhotoHeight: real := 3.3 * Inch
  const Margin: real := 0.5 * Inch
  const BoxHeight: real := 1.125 * Inch
  /** How far `y_pos` moves down from one slot to the next. */
  const SlotAdvance: real := PhotoHeight + BoxHeight + 0.4 * Inch
  /** The photo's left edge: the photo is centred on the page. */
  const PhotoX: real := PageWidth / 2.0 - PhotoWidth / 2.0

  const Title: string := "SITE PHOTOGRAPHS"
  const OutputName: string := "photolog.pdf"

  datatype Font = Helvetica | HelveticaBold

  datatype Image = Logo(file: string) | Compressed(photo: Path)

  /** The canvas and form calls the document is built from, in the order made. */
  datatype Op =
    | DrawString(font: Font, size: real, x: real, y: real, text: string)
    | DrawImage(image: Image, x: real, y: real, width: real, height: real)
    | Rect(x: real, y: real, width: real, height: real)
    | TextField(name: string, x: real, y: real, width: real, height: real)
    | Line(x1: real, y1: real, x2: real, y2: real)
    | ShowPage
    | Save(file: Path)

  /** `stringWidth(text, font, size)`, supplied by the font metrics. */
  type TextWidth = (string, Font, real) -> real

  /** The printed form of a coordinate pair (six decimals each, comma separated). */
  type CoordFormat = Coord -> string

  datatype Outcome = Saved | LogoNotFound(logo: string) | NoPhotos

  function Caption(n: nat): string {
    "Photo " + Decimal(n)
  }

  /** The name of note field `line` (1 or 2) of photo `n`. */
  function FieldName(n: nat, line: nat): string {
    "notes_photo_" + Decimal(n) + "_" + Decimal(line)
  }

  /** The `y_pos` of slot `j` on a page: the top edge of its photo. */
  function SlotTop(j: nat): real {
    PageHeight - 1.0 * Inch - j as real * SlotAdvance
  }

  /** The page header: the title, then the logo. */
  function HeaderOps(logo: string, width: TextWidth): seq<Op> {
    [ DrawString(HelveticaBold, 12.0, PageWidth - Margin - width(Title, HelveticaBold, 12.0),
                 PageHeight - Margin - 0.25 * Inch, Title),
      DrawImage(Logo(logo), Margin, PageHeight - Margin - 0.4 * Inch, 1.25 * Inch, 0.625 * Inch) ]
  }

  /** The coordinate label, right-aligned in the caption row, present only with coordinates. */
  function CoordOps(coords: Option<Coord>, top: real, width: TextWidth, format: CoordFormat): seq<Op> {
    match coords
    case None => []
    case Some(c) =>
      var text := "(" + format(c) + ")";
      [DrawString(Helvetica, 10.0, PhotoX + PhotoWidth - width(text, Helvetica, 10.0) - 10.0,
                  top - PhotoHeight - 20.0, text)]
  }

  /** Everything drawn for photo number `n` whose photo top edge is at `top`. */
  function SlotOps(photo: PhotoRecord, n: nat, top: real, width: TextWidth, format: CoordFormat): seq<Op> {
    var boxY := top - PhotoHeight - BoxHeight;
    [ DrawImage(Compressed(photo.path), PhotoX, top - PhotoHeight, PhotoWidth, PhotoHeight),
      Rect(PhotoX, boxY, PhotoWidth, BoxHeight),
      DrawString(HelveticaBold, 10.0, PhotoX + 10.0, top - PhotoHeight - 20.0, Caption(n)) ]
    + CoordOps(photo.coords, top, width, format)
    + [ TextField(FieldName(n, 1), PhotoX + 10.0, boxY + 30.0, PhotoWidth - 20.0, 15.0),
        TextField(FieldName(n, 2), PhotoX + 10.0, boxY + 10.0, PhotoWidth - 20.0, 15.0),
        Line(PhotoX + 10.0, boxY + 28.0, PhotoX + PhotoWidth - 10.0, boxY + 28.0),
        Line(PhotoX + 10.0, boxY + 8.0, PhotoX + PhotoWidth - 10.0, boxY + 8.0) ]
  }

  /** The first `j` slots of the page that starts at photo `i`. */
  function PageSlotsOps(photos: seq<PhotoRecord>, i: nat, j: nat, width: TextWidth, format: CoordFormat): seq<Op>
    requires j <= 2 && i + j <= |photos|
  {
    if j == 0 then []
    else PageSlotsOps(photos, i, j - 1, width, format)
         + SlotOps(photos[i + j - 1], i + j, SlotTop(j - 1), width, format)
  }

  /** How many photos the page starting at photo `i` holds. */
  function SlotsOnPage(n: nat, i: nat): nat
    requires i < n
  {
    if n - i >= 2 then 2 else 1
  }

  function PageOps(photos: seq<PhotoRecord>, i: nat, logo: string, width: TextWidth, format: CoordFormat): seq<Op>
    requires i < |photos|
  {
    HeaderOps(logo, width) + PageSlotsOps(photos, i, SlotsOnPage(|photos|, i), width, format) + [ShowPage]
  }

  /** ceil(n / 2): the number of pages for n photos. */
  function PageCount(n: nat): nat {
    (n + 1) / 2
  }

  /** How many photos the first `p` pages hold. */
  function PhotosOnPages(n: nat, p: nat): nat {
    if 2 * p <= n then 2 * p else n
  }

  /** The first `p` pages. */
  function PagesOps(photos: seq<PhotoRecord>, p: nat, logo: string, width: TextWidth, format: CoordFormat): seq<Op>
    requires p <= PageCount(|photos|)
  {
    if p == 0 then []
    else PagesOps(photos, p - 1, logo, width, format) + PageOps(photos, 2 * (p - 1), logo, width, format)
  }

  /** The whole trace of a successful run. */
  function DocumentOps(photos: seq<PhotoRecord>, outputDir: string, logo: string, width: TextWidth, format: CoordFormat): (r: seq<Op>)
    ensures |r| >= 1 && r[|r| - 1] == Save(Path(outputDir, OutputName))
  {
    PagesOps(photos, PageCount(|photos|), logo, width, format) + [Save(Path(outputDir, OutputName))]
  }

  /** The percentage reported after `step` units of work out of `total`. */
  function Percent(total: nat, step: nat): real {
    if total == 0 then 0.0 else step as real / total as real * 100.0
  }

  /** The first `k` progress reports, for steps 1..k. */
  function Reports(total: nat, k: nat): seq<real> {
    seq(k, t requires 0 <= t < k => Percent(total, t + 1))
  }

  /** The total of `create_photolog` as written: one step per photo, plus two. */
  function SourceTotalSteps(n: nat): (r: nat)
    ensures r < TotalSteps(n) <==> n >= 3
  {
    n + 2
  }

  /** Every report of a run over n photos as written: one per page header, one per photo, then 100. */
  function ProgressReports(n: nat): (r: seq<real>)
    ensures |r| == PageCount(n) + n + 1 && r[|r| - 1] == 100.0
  {
    Reports(SourceTotalSteps(n), PageCount(n) + n) + [100.0]
  }

  /** The total that counts every step made: each page header, each photo and the final report. */
  function TotalSteps(n: nat): nat {
    PageCount(n) + n + 1
  }

  /** The reports with the total counting every step; the model of `create_photolog` reports these. */
  function IntendedProgress(n: nat): (r: seq<real>)
    ensures |r| == PageCount(n) + n + 1
  {
    Reports(TotalSteps(n), PageCount(n) + n) + [100.0]
  }

  /**
    `create_photolog(photos, output_path, logo_path, progress_callback)`.
    `outputExists` and `logoExists` are what `os.path.exists` answers; the
    returned `madeDir` says whether the output directory was created.
   */
  method CreatePhotolog(photos: seq<PhotoRecord>, outputDir: string, outputExists: bool, logo: string, logoExists: bool,
                        width: TextWidth, format: CoordFormat)
    returns (outcome: Outcome, madeDir: bool, ops: seq<Op>, progress: seq<real>)
    ensures madeDir == !outputExists
    ensures outcome == if !logoExists then LogoNotFound(logo) else if photos == [] then NoPhotos else Saved
    ensures outcome != Saved ==> ops == [] && progress == []
    ensures outcome == Saved ==> ops == DocumentOps(photos, outputDir, logo, width, format)
    ensures outcome == Saved ==> progress == IntendedProgress(|photos|)
  {
    madeDir := !outputExists;
    ops, progress := [], [];
    if !logoExists {
      outcome := LogoNotFound(logo);
      return;
    }
    if |photos| == 0 {
      outcome := NoPhotos;
      return;
    }
    // The source counts n + 2 steps here (see the findings); the model counts every step.
    var totalSteps := TotalSteps(|photos|);
    ops, progress := EmitPages(photos, totalSteps, logo, width, format);
    ops := ops + [Save(Path(outputDir, OutputName))];
    progress := progress + [100.0];
    outcome := Saved;
  }

  /**
    The outer loop of `create_photolog`: for every pair of photos, the page
    header and its progress report, the page's slots, and the page break.
   */
  method EmitPages(photos: seq<PhotoRecord>, totalSteps: nat, logo: string, width: TextWidth, format: CoordFormat)
    returns (ops: seq<Op>, progress: seq<real>)
    requires totalSteps > 0
    ensures ops == PagesOps(photos, PageCount(|photos|), logo, width, format)
    ensures progress == Reports(totalSteps, PageCount(|photos|) + |photos|)
  {
    var n := |photos|;
    ops, progress := [], [];
    var currentStep := 0;
    var i := 0;
    ghost var page := 0;
    while i < n
      invariant i == 2 * page
      invariant PagesEmitted(photos, totalSteps, page, ops, progress, currentStep, logo, width, format)
      decreases n - i
    {
      ghost var next := page + 1;
      ops, progress, currentStep := EmitPage(photos, i, page, next, totalSteps, ops, progress, currentStep, logo, width, format);
      i := i + 2;
      page := next;
    }
    PagesEmittedDone(photos, totalSteps, page, ops, progress, currentStep, logo, width, format);
  }

  /** After `p` pages the trace is their calls and one report has been made per header and per photo. */
  ghost predicate PagesEmitted(photos: seq<PhotoRecord>, totalSteps: nat, p: nat, ops: seq<Op>, progress: seq<real>,
                               currentStep: nat, logo: string, width: TextWidth, format: CoordFormat)
  {
    && p <= PageCount(|photos|)
    && ops == PagesOps(photos, p, logo, width, format)
    && currentStep == p + PhotosOnPages(|photos|, p)
    && progress == Reports(totalSteps, currentStep)
  }

  lemma PagesEmittedStep(photos: seq<PhotoRecord>, totalSteps: nat, p: nat, i: nat, ops: seq<Op>, progress0: seq<real>, step0: nat,
                         pageOps: seq<Op>, progress: seq<real>, currentStep: nat, logo: string, width: TextWidth, format: CoordFormat)
    requires i == 2 * p && i < |photos|
    requires PagesEmitted(photos, totalSteps, p, ops, progress0, step0, logo, width, format)
    requires pageOps == PageOps(photos, i, logo, width, format)
    requires currentStep == step0 + 1 + SlotsOnPage(|photos|, i) && progress == Reports(totalSteps, currentStep)
    ensures PagesEmitted(photos, totalSteps, p + 1, ops + pageOps, progress, currentStep, logo, width, format)
  {
    PageStep(photos, p, i, logo, width, format);
  }

  lemma PagesEmittedDone(photos: seq<PhotoRecord>, totalSteps: nat, p: nat, ops: seq<Op>, progress: seq<real>,
                         currentStep: nat, logo: string, width: TextWidth, format: CoordFormat)
    requires PagesEmitted(photos, totalSteps, p, ops, progress, currentStep, logo, width, format)
    requires |photos| <= 2 * p
    ensures ops == PagesOps(photos, PageCount(|photos|), logo, width, format)
    ensures progress == Reports(totalSteps, PageCount(|photos|) + |photos|)
  {
    PageCountBounds(|photos|, p);
  }

  /**
    One page appended to the trace: the header and its progress report, the
    page's slots, then `showPage`. Page `p` starts at photo `i`; afterwards
    `next` pages are done (the successor is passed in so that the loop's
    invariant is met term for term).
   */
  method EmitPage(photos: seq<PhotoRecord>, i: nat, ghost p: nat, ghost next: nat, totalSteps: nat, ops0: seq<Op>, progress0: seq<real>, step0: nat,
                  logo: string, width: TextWidth, format: CoordFormat)
    returns (ops: seq<Op>, progress: seq<real>, currentStep: nat)
    requires i == 2 * p && next == p + 1 && i < |photos| && totalSteps > 0
    requires PagesEmitted(photos, totalSteps, p, ops0, progress0, step0, logo, width, format)
    ensures PagesEmitted(photos, totalSteps, next, ops, progress, currentStep, logo, width, format)
  {
    var header := HeaderOps(logo, width);
    progress, currentStep := Step(progress0, step0, totalSteps);
    var photoX := PageWidth / 2.0 - PhotoWidth / 2.0;
    var slots;
    slots, progress, currentStep := EmitPageSlots(photos, i, photoX, totalSteps, progress, currentStep, width, format);
    var pageOps := header + slots + [ShowPage];
    PagesEmittedStep(photos, totalSteps, p, i, ops0, progress0, step0, pageOps, progress, currentStep, logo, width, format);
    ops := ops0 + pageOps;
  }

  /**
    The inner loop of `create_photolog`: the (at most two) photos of the
    page starting at photo `i`, each followed by a progress report.
   */
  method EmitPageSlots(photos: seq<PhotoRecord>, i: nat, photoX: real, totalSteps: nat,
                       progress0: seq<real>, step0: nat, width: TextWidth, format: CoordFormat)
    returns (ops: seq<Op>, progress: seq<real>, currentStep: nat)
    requires i < |photos| && photoX == PhotoX && totalSteps > 0
    requires progress0 == Reports(totalSteps, step0)
    ensures ops == PageSlotsOps(photos, i, SlotsOnPage(|photos|, i), width, format)
    ensures currentStep == step0 + SlotsOnPage(|photos|, i)
    ensures progress == Reports(totalSteps, currentStep)
  {
    var n := |photos|;
    ops, progress, currentStep := [], progress0, step0;
    var yPos := PageHeight - 1.0 * Inch;
    var j := 0;
    while j < 2
      invariant 0 <= j <= 2 && i + j <= n
      invariant yPos == SlotTop(j)
      invariant ops == PageSlotsOps(photos, i, j, width, format)
      invariant currentStep == step0 + j
      invariant progress == Reports(totalSteps, currentStep)
    {
      if i + j >= n {
        break;
      }
      var slot := EmitSlot(photos[i + j], i + j + 1, photoX, yPos, width, format);
      PageSlotsStep(photos, i, j, width, format);
      ops := ops + slot;
      yPos := yPos - (PhotoHeight + BoxHeight + 0.4 * Inch);
      SlotTopStep(j);
      progress, currentStep := Step(progress, currentStep, totalSteps);
      j := j + 1;
    }
    assert j == SlotsOnPage(n, i);
  }

  /**
    The body of the inner loop: the calls made for one photo, at the photo
    left edge `photoX` and photo top edge `yPos`.
   */
  method EmitSlot(photo: PhotoRecord, photoNum: nat, photoX: real, yPos: real, width: TextWidth, format: CoordFormat)
    returns (ops: seq<Op>)
    requires photoX == PhotoX
    ensures ops == SlotOps(photo, photoNum, yPos, width, format)
  {
    ops := [DrawImage(Compressed(photo.path), photoX, yPos - PhotoHeight, PhotoWidth, PhotoHeight)];
    var boxY := yPos - PhotoHeight - BoxHeight;
    ops := ops + [Rect(photoX, boxY, PhotoWidth, BoxHeight)];
    ops := ops + [DrawString(HelveticaBold, 10.0, photoX + 10.0, yPos - PhotoHeight - 20.0, Caption(photoNum))];
    if photo.coords.Some? {
      var coordText := "(" + format(photo.coords.value) + ")";
      var coordWidth := width(coordText, Helvetica, 10.0);
      ops := ops + [DrawString(Helvetica, 10.0, photoX + PhotoWidth - coordWidth - 10.0, yPos - PhotoHeight - 20.0, coordText)];
    }
    ops := ops + [TextField(FieldName(photoNum, 1), photoX + 10.0, boxY + 30.0, PhotoWidth - 20.0, 15.0)];
    ops := ops + [TextField(FieldName(photoNum, 2), photoX + 10.0, boxY + 10.0, PhotoWidth - 20.0, 15.0)];
    ops := ops + [Line(photoX + 10.0, boxY + 28.0, photoX + PhotoWidth - 10.0, boxY + 28.0)];
    ops := ops + [Line(photoX + 10.0, boxY + 8.0, photoX + PhotoWidth - 10.0, boxY + 8.0)];
  }

  /** `current_step += 1` followed by a call of the progress callback. */
  method Step(progress0: seq<real>, step0: nat, totalSteps: nat) returns (progress: seq<real>, currentStep: nat)
    requires totalSteps > 0 && progress0 == Reports(totalSteps, step0)
    ensures currentStep == step0 + 1 && progress == Reports(totalSteps, currentStep)
  {
    currentStep := step0 + 1;
    var percent := currentStep as real / totalSteps as real * 100.0;
    ReportsStep(totalSteps, step0);
    progress := progress0 + [percent];
  }

  lemma SlotTopStep(j: nat)
    ensures SlotTop(j + 1) == SlotTop(j) - (PhotoHeight + BoxHeight + 0.4 * Inch)
  {
  }

  lemma PageSlotsStep(photos: seq<PhotoRecord>, i: nat, j: nat, width: TextWidth, format: CoordFormat)
    requires j < 2 && i + j < |photos|
    ensures PageSlotsOps(photos, i, j + 1, width, format)
         == PageSlotsOps(photos, i, j, width, format) + SlotOps(photos[i + j], i + j + 1, SlotTop(j), width, format)
  {
  }

  /** Page `p`, which starts at photo `i`, adds its calls to the trace and its photos to the count. */
  lemma PageStep(photos: seq<PhotoRecord>, p: nat, i: nat, logo: string, width: TextWidth, format: CoordFormat)
    requires i == 2 * p && i < |photos| && p <= PageCount(|photos|)
    ensures p + 1 <= PageCount(|photos|)
    ensures PagesOps(photos, p + 1, logo, width, format) == PagesOps(photos, p, logo, width, format) + PageOps(photos, i, logo, width, format)
    ensures PhotosOnPages(|photos|, p + 1) == PhotosOnPages(|photos|, p) + SlotsOnPage(|photos|, i)
  {
    PageCountBounds(|photos|, p);
  }

  /** `p` pages hold `2p - 1` or `2p` photos exactly when `p` is the page count. */
  lemma PageCountBounds(n: nat, p: nat)
    ensures 2 * p < n ==> p + 1 <= PageCount(n)
    ensures p <= PageCount(n) && n <= 2 * p ==> p == PageCount(n)
  {
  }

  lemma ReportsStep(total: nat, k: nat)
    requires total > 0
    ensures Reports(total, k + 1) == Reports(total, k) + [Percent(total, k + 1)]
  {
  }
}
