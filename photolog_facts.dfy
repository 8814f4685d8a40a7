/**
  What the photolog trace guarantees: ceil(n/2) pages, each photo drawn
  once and in order, captions and note-field names numbered by global
  position (so every field name is unique), slot geometry fixed by the page
  constants, and the progress reports the run makes.
 */
module PhotologFacts {
  import opened Wrappers
  import opened Text
  import opened Paths
  import opened Metadata
  import opened Photolog

  // ---------- Extracting one kind of call from a trace ----------

  /** The concatenation of `f` over the trace: what `f` picks out of each call, in order. */
  function Select<T>(ops: seq<Op>, f: Op -> seq<T>): seq<T> {
    if |ops| == 0 then [] else f(ops[0]) + Select(ops[1..], f)
  }

  lemma {:induction false} SelectAppend<T>(a: seq<Op>, b: seq<Op>, f: Op -> seq<T>)
    ensures Select(a + b, f) == Select(a, f) + Select(b, f)
  {
    if |a| == 0 {
      assert a + b == b;
    } else {
      assert (a + b)[1..] == a[1..] + b;
      SelectAppend(a[1..], b, f);
    }
  }

  lemma SelectOne<T>(a: Op, f: Op -> seq<T>)
    ensures Select([a], f) == f(a)
  {
    assert [a][1..] == [];
  }

  /** The photos drawn (the logo is not one). */
  function PhotoImageOf(op: Op): seq<Path> {
    if op.DrawImage? && op.image.Compressed? then [op.image.photo] else []
  }

  /** Captions: the bold 10-point strings. */
  function CaptionOf(op: Op): seq<string> {
    if op.DrawString? && op.font == HelveticaBold && op.size == 10.0 then [op.text] else []
  }

  /** Coordinate labels: the regular-weight strings. */
  function CoordLabelOf(op: Op): seq<string> {
    if op.DrawString? && op.font == Helvetica then [op.text] else []
  }

  function FieldNameOf(op: Op): seq<string> {
    if op.TextField? then [op.name] else []
  }

  function PageBreakOf(op: Op): seq<Op> {
    if op.ShowPage? then [op] else []
  }

  // ---------- One slot ----------

  /** What each extractor finds in the calls for one photo. */
  lemma SlotSelects(photo: PhotoRecord, n: nat, top: real, width: TextWidth, format: CoordFormat)
    ensures Select(SlotOps(photo, n, top, width, format), PhotoImageOf) == [photo.path]
    ensures Select(SlotOps(photo, n, top, width, format), CaptionOf) == [Caption(n)]
    ensures Select(SlotOps(photo, n, top, width, format), FieldNameOf) == [FieldName(n, 1), FieldName(n, 2)]
    ensures Select(SlotOps(photo, n, top, width, format), PageBreakOf) == []
    ensures |Select(SlotOps(photo, n, top, width, format), CoordLabelOf)| == if photo.coords.Some? then 1 else 0
  {
    var ops := SlotOps(photo, n, top, width, format);
    var coords := CoordOps(photo.coords, top, width, format);
    var a, b, c := ops[0], ops[1], ops[2];
    var d, e, g, h := ops[|ops| - 4], ops[|ops| - 3], ops[|ops| - 2], ops[|ops| - 1];
    assert ops == [a] + [b] + [c] + coords + [d] + [e] + [g] + [h];
    SlotSelectsWith(a, b, c, coords, d, e, g, h, PhotoImageOf);
    SlotSelectsWith(a, b, c, coords, d, e, g, h, CaptionOf);
    SlotSelectsWith(a, b, c, coords, d, e, g, h, FieldNameOf);
    SlotSelectsWith(a, b, c, coords, d, e, g, h, PageBreakOf);
    SlotSelectsWith(a, b, c, coords, d, e, g, h, CoordLabelOf);
    if photo.coords.Some? {
      SelectOne(coords[0], PhotoImageOf);
      SelectOne(coords[0], CaptionOf);
      SelectOne(coords[0], FieldNameOf);
      SelectOne(coords[0], PageBreakOf);
      SelectOne(coords[0], CoordLabelOf);
    }
  }

  lemma SlotSelectsWith<T>(a: Op, b: Op, c: Op, coords: seq<Op>, d: Op, e: Op, g: Op, h: Op, f: Op -> seq<T>)
    ensures Select([a] + [b] + [c] + coords + [d] + [e] + [g] + [h], f)
         == f(a) + f(b) + f(c) + Select(coords, f) + f(d) + f(e) + f(g) + f(h)
  {
    SelectAppend([a] + [b] + [c] + coords + [d] + [e] + [g], [h], f);
    SelectAppend([a] + [b] + [c] + coords + [d] + [e], [g], f);
    SelectAppend([a] + [b] + [c] + coords + [d], [e], f);
    SelectAppend([a] + [b] + [c] + coords, [d], f);
    SelectAppend([a] + [b] + [c], coords, f);
    SelectAppend([a] + [b], [c], f);
    SelectAppend([a], [b], f);
    SelectOne(a, f); SelectOne(b, f); SelectOne(c, f); SelectOne(d, f);
    SelectOne(e, f); SelectOne(g, f); SelectOne(h, f);
  }

  // ---------- Pages, for any extractor that ignores headers and page breaks ----------

  /** `f` finds `g(photo, n)` in the calls for photo number `n`, wherever the slot is. */
  ghost predicate SlotRule<T>(f: Op -> seq<T>, g: (PhotoRecord, nat) -> seq<T>, width: TextWidth, format: CoordFormat) {
    forall r: PhotoRecord, n: nat, top: real :: Select(SlotOps(r, n, top, width, format), f) == g(r, n)
  }

  /** What `g` gives for the photos `lo..hi`, each numbered by its 1-based position. */
  function Expected<T>(photos: seq<PhotoRecord>, lo: nat, hi: nat, g: (PhotoRecord, nat) -> seq<T>): seq<T>
    requires lo <= hi <= |photos|
    decreases hi
  {
    if hi == lo then [] else Expected(photos, lo, hi - 1, g) + g(photos[hi - 1], hi)
  }

  lemma {:induction false} ExpectedSplit<T>(photos: seq<PhotoRecord>, lo: nat, mid: nat, hi: nat, g: (PhotoRecord, nat) -> seq<T>)
    requires lo <= mid <= hi <= |photos|
    ensures Expected(photos, lo, hi, g) == Expected(photos, lo, mid, g) + Expected(photos, mid, hi, g)
    decreases hi
  {
    if hi > mid {
      ExpectedSplit(photos, lo, mid, hi - 1, g);
    }
  }

  lemma {:induction false} PageSlotsSelect<T>(photos: seq<PhotoRecord>, i: nat, j: nat, width: TextWidth, format: CoordFormat,
                                              f: Op -> seq<T>, g: (PhotoRecord, nat) -> seq<T>)
    requires j <= 2 && i + j <= |photos|
    requires SlotRule(f, g, width, format)
    ensures Select(PageSlotsOps(photos, i, j, width, format), f) == Expected(photos, i, i + j, g)
  {
    if j > 0 {
      PageSlotsSelect(photos, i, j - 1, width, format, f, g);
      SelectAppend(PageSlotsOps(photos, i, j - 1, width, format),
                   SlotOps(photos[i + j - 1], i + j, SlotTop(j - 1), width, format), f);
    }
  }

  lemma PageSelect<T>(photos: seq<PhotoRecord>, i: nat, logo: string, width: TextWidth, format: CoordFormat,
                      f: Op -> seq<T>, g: (PhotoRecord, nat) -> seq<T>)
    requires i < |photos|
    requires SlotRule(f, g, width, format)
    requires Select(HeaderOps(logo, width), f) == [] && f(ShowPage) == []
    ensures Select(PageOps(photos, i, logo, width, format), f) == Expected(photos, i, i + SlotsOnPage(|photos|, i), g)
  {
    var slots := PageSlotsOps(photos, i, SlotsOnPage(|photos|, i), width, format);
    PageSlotsSelect(photos, i, SlotsOnPage(|photos|, i), width, format, f, g);
    SelectAppend(HeaderOps(logo, width) + slots, [ShowPage], f);
    SelectAppend(HeaderOps(logo, width), slots, f);
    SelectOne(ShowPage, f);
  }

  /** The first `p` pages yield what `g` gives for the photos they hold. */
  ghost predicate PagesYield<T>(photos: seq<PhotoRecord>, p: nat, logo: string, width: TextWidth, format: CoordFormat,
                                f: Op -> seq<T>, g: (PhotoRecord, nat) -> seq<T>)
    requires p <= PageCount(|photos|)
  {
    && PhotosOnPages(|photos|, p) <= |photos|
    && Select(PagesOps(photos, p, logo, width, format), f) == Expected(photos, 0, PhotosOnPages(|photos|, p), g)
  }

  lemma {:induction false} PagesSelect<T>(photos: seq<PhotoRecord>, p: nat, logo: string, width: TextWidth, format: CoordFormat,
                                          f: Op -> seq<T>, g: (PhotoRecord, nat) -> seq<T>)
    requires p <= PageCount(|photos|)
    requires SlotRule(f, g, width, format)
    requires Select(HeaderOps(logo, width), f) == [] && f(ShowPage) == []
    ensures PagesYield(photos, p, logo, width, format, f, g)
  {
    if p == 0 {
      NoPagesYieldNothing(photos, logo, width, format, f, g);
    } else {
      PagesSelect(photos, p - 1, logo, width, format, f, g);
      PagesSelectStep(photos, p, logo, width, format, f, g);
    }
  }

  lemma NoPagesYieldNothing<T>(photos: seq<PhotoRecord>, logo: string, width: TextWidth, format: CoordFormat,
                               f: Op -> seq<T>, g: (PhotoRecord, nat) -> seq<T>)
    ensures PagesYield(photos, 0, logo, width, format, f, g)
  {
    PhotosOnPagesStep(|photos|, 0);
  }

  /** The induction step of `PagesSelect`: page `p` adds the photos it holds. */
  lemma PagesSelectStep<T>(photos: seq<PhotoRecord>, p: nat, logo: string, width: TextWidth, format: CoordFormat,
                           f: Op -> seq<T>, g: (PhotoRecord, nat) -> seq<T>)
    requires 1 <= p <= PageCount(|photos|)
    requires SlotRule(f, g, width, format)
    requires Select(HeaderOps(logo, width), f) == [] && f(ShowPage) == []
    requires PagesYield(photos, p - 1, logo, width, format, f, g)
    ensures PagesYield(photos, p, logo, width, format, f, g)
  {
    PhotosOnPagesStep(|photos|, p);
    var i := 2 * (p - 1);
    PageSelect(photos, i, logo, width, format, f, g);
    PagesJoin(photos, PagesOps(photos, p - 1, logo, width, format), PageOps(photos, i, logo, width, format), p, f, g);
  }

  /** The calls of the first p - 1 pages followed by those of page p yield the photos of the first p pages. */
  lemma PagesJoin<T>(photos: seq<PhotoRecord>, prev: seq<Op>, page: seq<Op>, p: nat, f: Op -> seq<T>, g: (PhotoRecord, nat) -> seq<T>)
    requires 1 <= p <= PageCount(|photos|)
    requires PhotosOnPages(|photos|, p - 1) <= |photos| && 2 * (p - 1) < |photos|
    requires Select(prev, f) == Expected(photos, 0, PhotosOnPages(|photos|, p - 1), g)
    requires Select(page, f) == Expected(photos, 2 * (p - 1), 2 * (p - 1) + SlotsOnPage(|photos|, 2 * (p - 1)), g)
    ensures PhotosOnPages(|photos|, p) <= |photos|
    ensures Select(prev + page, f) == Expected(photos, 0, PhotosOnPages(|photos|, p), g)
  {
    PhotosOnPagesStep(|photos|, p);
    SelectAppend(prev, page, f);
    ExpectedSplit(photos, 0, 2 * (p - 1), 2 * (p - 1) + SlotsOnPage(|photos|, 2 * (p - 1)), g);
  }

  /** The first `p` pages hold at most all photos; page `p` starts at photo 2(p-1) and adds its slots. */
  lemma PhotosOnPagesStep(n: nat, p: nat)
    requires p <= PageCount(n)
    ensures PhotosOnPages(n, p) <= n
    ensures p > 0 ==> 2 * (p - 1) < n && PhotosOnPages(n, p - 1) == 2 * (p - 1)
                      && PhotosOnPages(n, p) == 2 * (p - 1) + SlotsOnPage(n, 2 * (p - 1))
  {
  }

  lemma DocumentSelect<T>(photos: seq<PhotoRecord>, outputDir: string, logo: string, width: TextWidth, format: CoordFormat,
                          f: Op -> seq<T>, g: (PhotoRecord, nat) -> seq<T>)
    requires SlotRule(f, g, width, format)
    requires Select(HeaderOps(logo, width), f) == [] && f(ShowPage) == []
    requires f(Save(Path(outputDir, OutputName))) == []
    ensures Select(DocumentOps(photos, outputDir, logo, width, format), f) == Expected(photos, 0, |photos|, g)
  {
    var pages := PagesOps(photos, PageCount(|photos|), logo, width, format);
    PagesSelect(photos, PageCount(|photos|), logo, width, format, f, g);
    SelectAppend(pages, [Save(Path(outputDir, OutputName))], f);
    SelectOne(Save(Path(outputDir, OutputName)), f);
  }

  lemma HeaderSelects(logo: string, width: TextWidth)
    ensures Select(HeaderOps(logo, width), PhotoImageOf) == []
    ensures Select(HeaderOps(logo, width), CaptionOf) == []
    ensures Select(HeaderOps(logo, width), FieldNameOf) == []
    ensures Select(HeaderOps(logo, width), PageBreakOf) == []
  {
    var h := HeaderOps(logo, width);
    assert h == [h[0]] + [h[1]];
    SelectAppend([h[0]], [h[1]], PhotoImageOf);
    SelectAppend([h[0]], [h[1]], CaptionOf);
    SelectAppend([h[0]], [h[1]], FieldNameOf);
    SelectAppend([h[0]], [h[1]], PageBreakOf);
    SelectOne(h[0], PhotoImageOf); SelectOne(h[1], PhotoImageOf);
    SelectOne(h[0], CaptionOf); SelectOne(h[1], CaptionOf);
    SelectOne(h[0], FieldNameOf); SelectOne(h[1], FieldNameOf);
    SelectOne(h[0], PageBreakOf); SelectOne(h[1], PageBreakOf);
  }

  lemma {:induction false} ExpectedSingletons<T>(photos: seq<PhotoRecord>, m: nat, g: (PhotoRecord, nat) -> seq<T>,
                                                 h: (PhotoRecord, nat) -> T)
    requires m <= |photos|
    requires forall r: PhotoRecord, n: nat :: g(r, n) == [h(r, n)]
    ensures Expected(photos, 0, m, g) == seq(m, k requires 0 <= k < m => h(photos[k], k + 1))
  {
    if m > 0 {
      ExpectedSingletons(photos, m - 1, g, h);
    }
  }

  // ---------- The document ----------

  /** Every photo is drawn exactly once, in the order given. */
  lemma DocumentPhotoOrder(photos: seq<PhotoRecord>, outputDir: string, logo: string, width: TextWidth, format: CoordFormat)
    ensures Select(DocumentOps(photos, outputDir, logo, width, format), PhotoImageOf)
         == seq(|photos|, k requires 0 <= k < |photos| => photos[k].path)
  {
    var g := (r: PhotoRecord, n: nat) => [r.path];
    forall r: PhotoRecord, n: nat, top: real ensures Select(SlotOps(r, n, top, width, format), PhotoImageOf) == g(r, n) {
      SlotSelects(r, n, top, width, format);
    }
    HeaderSelects(logo, width);
    DocumentSelect(photos, outputDir, logo, width, format, PhotoImageOf, g);
    ExpectedSingletons(photos, |photos|, g, (r: PhotoRecord, n: nat) => r.path);
  }

  /** The k-th photo (from 1) is captioned "Photo k", whatever page it is on. */
  lemma DocumentCaptions(photos: seq<PhotoRecord>, outputDir: string, logo: string, width: TextWidth, format: CoordFormat)
    ensures Select(DocumentOps(photos, outputDir, logo, width, format), CaptionOf)
         == seq(|photos|, k requires 0 <= k < |photos| => Caption(k + 1))
  {
    var g := (r: PhotoRecord, n: nat) => [Caption(n)];
    forall r: PhotoRecord, n: nat, top: real ensures Select(SlotOps(r, n, top, width, format), CaptionOf) == g(r, n) {
      SlotSelects(r, n, top, width, format);
    }
    HeaderSelects(logo, width);
    DocumentSelect(photos, outputDir, logo, width, format, CaptionOf, g);
    ExpectedSingletons(photos, |photos|, g, (r: PhotoRecord, n: nat) => Caption(n));
  }

  lemma {:induction false} ExpectedFieldNames(photos: seq<PhotoRecord>, m: nat)
    requires m <= |photos|
    ensures Expected(photos, 0, m, (r: PhotoRecord, n: nat) => [FieldName(n, 1), FieldName(n, 2)])
         == seq(2 * m, t requires 0 <= t < 2 * m => FieldName(t / 2 + 1, t % 2 + 1))
  {
    if m > 0 {
      ExpectedFieldNames(photos, m - 1);
      FieldNamesStep(m);
    }
  }

  /** The numbered names of `m` photos extend those of `m - 1` photos by photo `m`'s two names. */
  lemma FieldNamesStep(m: nat)
    requires m > 0
    ensures seq(2 * m, t requires 0 <= t < 2 * m => FieldName(t / 2 + 1, t % 2 + 1))
         == seq(2 * (m - 1), t requires 0 <= t < 2 * (m - 1) => FieldName(t / 2 + 1, t % 2 + 1)) + [FieldName(m, 1), FieldName(m, 2)]
  {
    var longer := seq(2 * m, t requires 0 <= t < 2 * m => FieldName(t / 2 + 1, t % 2 + 1));
    var shorter := seq(2 * (m - 1), t requires 0 <= t < 2 * (m - 1) => FieldName(t / 2 + 1, t % 2 + 1));
    assert longer[2 * m - 2] == FieldName(m, 1);
    assert longer[2 * m - 1] == FieldName(m, 2);
    assert forall t :: 0 <= t < 2 * (m - 1) ==> longer[t] == shorter[t];
  }

  /** The note fields are named `notes_photo_k_1`, `notes_photo_k_2` for k = 1..n, in that order. */
  lemma DocumentFieldNames(photos: seq<PhotoRecord>, outputDir: string, logo: string, width: TextWidth, format: CoordFormat)
    ensures Select(DocumentOps(photos, outputDir, logo, width, format), FieldNameOf)
         == seq(2 * |photos|, t requires 0 <= t < 2 * |photos| => FieldName(t / 2 + 1, t % 2 + 1))
  {
    var g := (r: PhotoRecord, n: nat) => [FieldName(n, 1), FieldName(n, 2)];
    forall r: PhotoRecord, n: nat, top: real ensures Select(SlotOps(r, n, top, width, format), FieldNameOf) == g(r, n) {
      SlotSelects(r, n, top, width, format);
    }
    HeaderSelects(logo, width);
    DocumentSelect(photos, outputDir, logo, width, format, FieldNameOf, g);
    ExpectedFieldNames(photos, |photos|);
  }

  lemma FieldNameInjective(n: nat, line: nat, n': nat, line': nat)
    requires FieldName(n, line) == FieldName(n', line')
    ensures n == n' && line == line'
  {
    var prefix := "notes_photo_";
    assert FieldName(n, line) == prefix + (Decimal(n) + ("_" + Decimal(line)));
    assert FieldName(n', line') == prefix + (Decimal(n') + ("_" + Decimal(line')));
    assert Decimal(n) + ("_" + Decimal(line)) == FieldName(n, line)[|prefix|..];
    assert Decimal(n') + ("_" + Decimal(line')) == FieldName(n', line')[|prefix|..];
    DigitRunSplit(Decimal(n), "_" + Decimal(line), Decimal(n'), "_" + Decimal(line'));
    assert Decimal(line) == ("_" + Decimal(line))[1..];
    assert Decimal(line') == ("_" + Decimal(line'))[1..];
    DecimalInjective(n, n');
    DecimalInjective(line, line');
  }

  /** No two note fields of a document share a name (a form needs unique field names). */
  lemma DocumentFieldNamesUnique(photos: seq<PhotoRecord>, outputDir: string, logo: string, width: TextWidth, format: CoordFormat)
    ensures var names := Select(DocumentOps(photos, outputDir, logo, width, format), FieldNameOf);
      forall a, b :: 0 <= a < b < |names| ==> names[a] != names[b]
  {
    DocumentFieldNames(photos, outputDir, logo, width, format);
    NumberedFieldNamesUnique(|photos|);
  }

  /** The two note-field names of each of `n` photos, in order, are pairwise distinct. */
  lemma NumberedFieldNamesUnique(n: nat)
    ensures var names := seq(2 * n, t requires 0 <= t < 2 * n => FieldName(t / 2 + 1, t % 2 + 1));
      forall a, b :: 0 <= a < b < |names| ==> names[a] != names[b]
  {
    var names := seq(2 * n, t requires 0 <= t < 2 * n => FieldName(t / 2 + 1, t % 2 + 1));
    forall a, b | 0 <= a < b < |names| ensures names[a] != names[b] {
      FieldNamesAtDiffer(a, b, names[a], names[b]);
    }
  }

  /** The field names at two distinct positions of the document differ. */
  lemma FieldNamesAtDiffer(a: nat, b: nat, x: string, y: string)
    requires a < b
    requires x == FieldName(a / 2 + 1, a % 2 + 1) && y == FieldName(b / 2 + 1, b % 2 + 1)
    ensures x != y
  {
    HalvesDiffer(a, b);
    if x == y {
      FieldNameInjective(a / 2 + 1, a % 2 + 1, b / 2 + 1, b % 2 + 1);
      assert false;
    }
  }

  /** Distinct positions differ in their photo number or in their line. */
  lemma HalvesDiffer(a: nat, b: nat)
    requires a < b
    ensures a / 2 != b / 2 || a % 2 != b % 2
  {
    assert a == 2 * (a / 2) + a % 2;
    assert b == 2 * (b / 2) + b % 2;
  }

  lemma {:induction false} PagesPageBreaks(photos: seq<PhotoRecord>, p: nat, logo: string, width: TextWidth, format: CoordFormat)
    requires p <= PageCount(|photos|)
    ensures |Select(PagesOps(photos, p, logo, width, format), PageBreakOf)| == p
  {
    if p > 0 {
      var i := 2 * (p - 1);
      var slots := PageSlotsOps(photos, i, SlotsOnPage(|photos|, i), width, format);
      PagesPageBreaks(photos, p - 1, logo, width, format);
      var g := EmptyRule;
      forall r: PhotoRecord, n: nat, top: real ensures Select(SlotOps(r, n, top, width, format), PageBreakOf) == g(r, n) {
        SlotSelects(r, n, top, width, format);
      }
      PageSlotsSelect(photos, i, SlotsOnPage(|photos|, i), width, format, PageBreakOf, g);
      ExpectedEmpty(photos, i, i + SlotsOnPage(|photos|, i));
      HeaderSelects(logo, width);
      SelectAppend(PagesOps(photos, p - 1, logo, width, format), PageOps(photos, i, logo, width, format), PageBreakOf);
      SelectAppend(HeaderOps(logo, width) + slots, [ShowPage], PageBreakOf);
      SelectAppend(HeaderOps(logo, width), slots, PageBreakOf);
      SelectOne(ShowPage, PageBreakOf);
    }
  }

  function EmptyRule(r: PhotoRecord, n: nat): seq<Op> { [] }

  lemma {:induction false} ExpectedEmpty(photos: seq<PhotoRecord>, lo: nat, hi: nat)
    requires lo <= hi <= |photos|
    ensures Expected(photos, lo, hi, EmptyRule) == []
    decreases hi
  {
    if hi > lo {
      ExpectedEmpty(photos, lo, hi - 1);
    }
  }

  /** n photos make ceil(n/2) pages: that many `showPage` calls. */
  lemma DocumentPageCount(photos: seq<PhotoRecord>, outputDir: string, logo: string, width: TextWidth, format: CoordFormat)
    ensures |Select(DocumentOps(photos, outputDir, logo, width, format), PageBreakOf)| == PageCount(|photos|)
    ensures 2 * PageCount(|photos|) - 1 <= |photos| <= 2 * PageCount(|photos|)
  {
    var pages := PagesOps(photos, PageCount(|photos|), logo, width, format);
    PagesPageBreaks(photos, PageCount(|photos|), logo, width, format);
    SelectAppend(pages, [Save(Path(outputDir, OutputName))], PageBreakOf);
    SelectOne(Save(Path(outputDir, OutputName)), PageBreakOf);
  }

  lemma ExpectedPage<T>(photos: seq<PhotoRecord>, i: nat, g: (PhotoRecord, nat) -> seq<T>)
    requires i < |photos|
    ensures Expected(photos, i, i + SlotsOnPage(|photos|, i), g)
         == g(photos[i], i + 1) + (if i + 1 < |photos| then g(photos[i + 1], i + 2) else [])
  {
    assert Expected(photos, i, i + 1, g) == g(photos[i], i + 1);
  }

  /** Page k (from 0) holds photos 2k and, when it exists, 2k+1, captioned with their global numbers. */
  lemma PageHoldsPair(photos: seq<PhotoRecord>, k: nat, logo: string, width: TextWidth, format: CoordFormat)
    requires 2 * k < |photos|
    ensures Select(PageOps(photos, 2 * k, logo, width, format), PhotoImageOf)
         == [photos[2 * k].path] + (if 2 * k + 1 < |photos| then [photos[2 * k + 1].path] else [])
    ensures Select(PageOps(photos, 2 * k, logo, width, format), CaptionOf)
         == [Caption(2 * k + 1)] + (if 2 * k + 1 < |photos| then [Caption(2 * k + 2)] else [])
  {
    PageImages(photos, 2 * k, logo, width, format);
    PageCaptions(photos, 2 * k, logo, width, format);
  }

  lemma PageImages(photos: seq<PhotoRecord>, i: nat, logo: string, width: TextWidth, format: CoordFormat)
    requires i < |photos|
    ensures Select(PageOps(photos, i, logo, width, format), PhotoImageOf)
         == [photos[i].path] + (if i + 1 < |photos| then [photos[i + 1].path] else [])
  {
    var g := (r: PhotoRecord, n: nat) => [r.path];
    forall r: PhotoRecord, n: nat, top: real ensures Select(SlotOps(r, n, top, width, format), PhotoImageOf) == g(r, n) {
      SlotSelects(r, n, top, width, format);
    }
    HeaderSelects(logo, width);
    PageSelect(photos, i, logo, width, format, PhotoImageOf, g);
    ExpectedPage(photos, i, g);
  }

  lemma PageCaptions(photos: seq<PhotoRecord>, i: nat, logo: string, width: TextWidth, format: CoordFormat)
    requires i < |photos|
    ensures Select(PageOps(photos, i, logo, width, format), CaptionOf)
         == [Caption(i + 1)] + (if i + 1 < |photos| then [Caption(i + 2)] else [])
  {
    var g := (r: PhotoRecord, n: nat) => [Caption(n)];
    forall r: PhotoRecord, n: nat, top: real ensures Select(SlotOps(r, n, top, width, format), CaptionOf) == g(r, n) {
      SlotSelects(r, n, top, width, format);
    }
    HeaderSelects(logo, width);
    PageSelect(photos, i, logo, width, format, CaptionOf, g);
    ExpectedPage(photos, i, g);
  }

  /** A slot carries a coordinate label exactly when its photo has coordinates. */
  lemma CoordLabelOnlyWithCoords(photo: PhotoRecord, n: nat, top: real, width: TextWidth, format: CoordFormat)
    ensures |Select(SlotOps(photo, n, top, width, format), CoordLabelOf)| == if photo.coords.Some? then 1 else 0
  {
    SlotSelects(photo, n, top, width, format);
  }

  // ---------- Geometry ----------

  /** The exact coordinates of every element of slot j (0 upper, 1 lower) on a 612 x 792 page. */
  lemma SlotGeometry(photo: PhotoRecord, n: nat, j: nat, width: TextWidth, format: CoordFormat)
    requires j < 2
    ensures PhotoX == 144.0 && SlotTop(j) == 720.0 - 347.4 * j as real
    ensures var ops := SlotOps(photo, n, SlotTop(j), width, format);
      var y := SlotTop(j);
      var k := |ops| - 4;
      && ops[0] == DrawImage(Compressed(photo.path), 144.0, y - 237.6, 324.0, 237.6)
      && ops[1] == Rect(144.0, y - 318.6, 324.0, 81.0)
      && ops[2] == DrawString(HelveticaBold, 10.0, 154.0, y - 257.6, Caption(n))
      && ops[k] == TextField(FieldName(n, 1), 154.0, y - 318.6 + 30.0, 304.0, 15.0)
      && ops[k + 1] == TextField(FieldName(n, 2), 154.0, y - 318.6 + 10.0, 304.0, 15.0)
      && ops[k + 2] == Line(154.0, y - 318.6 + 28.0, 458.0, y - 318.6 + 28.0)
      && ops[k + 3] == Line(154.0, y - 318.6 + 8.0, 458.0, y - 318.6 + 8.0)
  {
  }

  /** The title ends on the right margin, measured with the font it is drawn in; the logo starts on the left margin. */
  lemma HeaderLayout(logo: string, width: TextWidth)
    ensures var r := HeaderOps(logo, width);
      && |r| == 2
      && r[0].DrawString? && r[0].text == Title && r[0].x + width(Title, r[0].font, r[0].size) == PageWidth - Margin
      && r[1].DrawImage? && r[1].image == Logo(logo) && r[1].x == Margin
  {
  }

  /**
    Wherever a slot starts, it is seven calls, eight with a coordinate
    label: its photo hangs from `top`, the notes box sits
    directly under the photo and as wide, the caption comes third, and the
    two note fields, numbered after the photo, lie inside the box.
   */
  lemma SlotLayout(photo: PhotoRecord, n: nat, top: real, width: TextWidth, format: CoordFormat)
    ensures var r := SlotOps(photo, n, top, width, format);
      && |r| == (if photo.coords.Some? then 8 else 7)
      && r[0].DrawImage? && r[0].image == Compressed(photo.path) && r[0].y + r[0].height == top
      && r[1].Rect? && r[1].x == r[0].x && r[1].width == r[0].width && r[1].y + r[1].height == r[0].y
      && r[2].DrawString? && r[2].text == Caption(n)
      && r[|r| - 4].TextField? && r[|r| - 4].name == FieldName(n, 1)
      && r[|r| - 3].TextField? && r[|r| - 3].name == FieldName(n, 2)
      && forall f :: |r| - 4 <= f < |r| - 2 ==>
           r[f].TextField? && r[1].y <= r[f].y && r[f].y + r[f].height <= r[1].y + r[1].height
  {
  }

  /**
    The two slots fit the page: the lower box ends at 54, above the 36-point
    margin; the upper box ends at 401.4, above the lower photo's top at
    372.6; the upper photo's top (720) is below the logo (727.2); and the
    photo is centred between the side margins.
   */
  lemma LayoutFits()
    ensures SlotTop(1) - PhotoHeight - BoxHeight == 54.0 && 54.0 >= Margin
    ensures SlotTop(0) - PhotoHeight - BoxHeight == 401.4 && 401.4 > SlotTop(1) == 372.6
    ensures SlotTop(0) == 720.0 && SlotTop(0) < PageHeight - Margin - 0.4 * Inch
    ensures PhotoX >= Margin && PhotoX + PhotoWidth <= PageWidth - Margin
    ensures PhotoX + PhotoWidth / 2.0 == PageWidth / 2.0
  {
  }

  // ---------- Progress ----------

  ghost predicate NonDecreasing(s: seq<real>) {
    forall a, b :: 0 <= a < b < |s| ==> s[a] <= s[b]
  }

  lemma PercentLess(total: nat, s: nat, t: nat)
    requires total > 0 && s < t
    ensures Percent(total, s) < Percent(total, t)
  {
    var d := total as real;
    assert s as real / d < t as real / d by {
      assert (t as real - s as real) / d > 0.0;
      assert t as real / d - s as real / d == (t as real - s as real) / d;
    }
  }

  /** A report exceeds 100 exactly when more steps have been counted than the total. */
  lemma PercentOver100(total: nat, s: nat)
    requires total > 0
    ensures Percent(total, s) > 100.0 <==> s > total
  {
    var d := total as real;
    if s > total {
      assert s as real / d > 1.0;
    } else {
      assert s as real / d <= 1.0;
    }
  }

  /** As written: one report per page header and per photo, then a final 100, ceil(n/2) + n + 1 in all. */
  lemma ProgressCount(n: nat)
    ensures |ProgressReports(n)| == PageCount(n) + n + 1
    ensures ProgressReports(n)[|ProgressReports(n)| - 1] == 100.0
    ensures n > 0 ==> ProgressReports(n)[0] > 0.0
  {
  }

  /** The reports before the final one strictly increase, whatever the total. */
  lemma ReportsIncrease(total: nat, k: nat)
    requires total > 0
    ensures forall a, b :: 0 <= a < b < k ==> Reports(total, k)[a] < Reports(total, k)[b]
  {
    forall a, b | 0 <= a < b < k ensures Reports(total, k)[a] < Reports(total, k)[b] {
      PercentLess(total, a + 1, b + 1);
    }
  }

  /** As written, from five photos on, the last report before the final 100 is above 100. */
  lemma ProgressOvershoots(n: nat)
    requires n >= 5
    ensures ProgressReports(n)[PageCount(n) + n - 1] > 100.0
  {
    PercentOver100(SourceTotalSteps(n), PageCount(n) + n);
  }

  /** As written, five photos report 800/7 (about 114) before the final 100. */
  lemma FivePhotosReport()
    ensures ProgressReports(5)[7] == 800.0 / 7.0
  {
  }

  /** As written, the whole sequence of reports never goes down exactly when n <= 4. */
  lemma ProgressMonotoneIff(n: nat)
    ensures NonDecreasing(ProgressReports(n)) <==> n <= 4
  {
    var s := ProgressReports(n);
    var k := PageCount(n) + n;
    if n <= 4 {
      forall a, b | 0 <= a < b < |s| ensures s[a] <= s[b] {
        if b < k {
          PercentLess(SourceTotalSteps(n), a + 1, b + 1);
        } else {
          PercentOver100(SourceTotalSteps(n), a + 1);
        }
      }
    } else {
      ProgressOvershoots(n);
      assert s[k - 1] > s[k];
    }
  }

  // ---------- Progress with the corrected total ----------

  lemma PercentBounds(total: nat, step: nat)
    requires 0 < step < total
    ensures 0.0 < Percent(total, step) < 100.0
  {
    BelowOne(step as real, total as real);
  }

  lemma BelowOne(x: real, d: real)
    requires 0.0 < d && x < d
    ensures x / d < 1.0
  {
    assert x / d * d == x;
  }

  /** With the corrected total, every report is positive, at most 100, strictly increasing, and the last is 100. */
  lemma IntendedProgressIncreases(n: nat)
    ensures var s := IntendedProgress(n);
      && s[|s| - 1] == 100.0
      && (forall a :: 0 <= a < |s| ==> 0.0 < s[a] <= 100.0)
      && (forall a, b :: 0 <= a < b < |s| ==> s[a] < s[b])
  {
    var s := IntendedProgress(n);
    var total := TotalSteps(n);
    forall a | 0 <= a < |s| ensures 0.0 < s[a] <= 100.0 {
      if a < |s| - 1 {
        PercentBounds(total, a + 1);
      }
    }
    forall a, b | 0 <= a < b < |s| ensures s[a] < s[b] {
      PercentBounds(total, a + 1);
      if b < |s| - 1 {
        PercentLess(total, a + 1, b + 1);
      }
    }
  }
}
