/** The PDF report export: each rendered report page is placed on the A4
    document either whole or cut into page-high bands, a new PDF page is
    opened before every placement but the first, the finished document is
    registered and saved, and the offscreen renderer is always cleaned up.
    Rasterising and the floating-point placement arithmetic are abstracted:
    a canvas is its pixel height, whether its scaled height fits one page,
    and the band height `floor(pageHeight / scale)`. */
module GenerateReport {
  import opened Base
  import opened ExportsStore
  import Csv

  /** A rendered report page as the placement code sees it. */
  datatype Canvas = Canvas(height: nat, fits: bool, sliceHeightPx: int)

  /** What rendering one report node produced: a canvas, or a rejection. */
  datatype Raster = Rendered(canvas: Canvas) | RenderFailed(reason: string)

  /** A canvas the placement code handles: an empty canvas fits, and one that
      does not fit is cut into bands at least one pixel high. Both hold for a
      canvas at least one pixel wide; for a canvas that does not fit and has
      `sliceHeightPx <= 0` the slicing loop makes no progress. */
  predicate Placeable(c: Canvas)
  {
    (c.height == 0 ==> c.fits) && (!c.fits ==> c.sliceHeightPx >= 1)
  }

  /** One image on a PDF page: rows `top .. top + height` of canvas `canvas`. */
  datatype Placement = Placement(canvas: nat, top: nat, height: nat)

  /** The bands of canvas `canvas` from row `sy` down: each is
      `min(slice, height - sy)` rows high and the next starts where it ends. */
  function Bands(canvas: nat, sy: nat, height: nat, slice: nat): seq<Placement>
    requires slice >= 1
    decreases height - sy
  {
    if sy >= height then []
    else
      var sh := Min(slice, height - sy);
      [Placement(canvas, sy, sh)] + Bands(canvas, sy + sh, height, slice)
  }

  function Heights(ps: seq<Placement>): seq<int>
  {
    seq(|ps|, k requires 0 <= k < |ps| => ps[k].height)
  }

  /** There are ceil((height - sy) / slice) bands. */
  lemma {:induction false} BandsCount(canvas: nat, sy: nat, height: nat, slice: nat)
    requires slice >= 1 && sy <= height
    ensures |Bands(canvas, sy, height, slice)| == CeilDiv(height - sy, slice)
    decreases height - sy
  {
    if sy < height {
      var sh := Min(slice, height - sy);
      BandsCount(canvas, sy + sh, height, slice);
      if height - sy <= slice {
        CeilDivOne(height - sy, slice);
      } else {
        CeilDivStep(height - sy, slice);
      }
    }
  }

  /** The bands are contiguous and non-overlapping from `sy` to `height`,
      each non-empty and at most `slice` rows, and all of exactly `slice`
      rows except possibly the last. */
  lemma {:induction false} BandsLayout(canvas: nat, sy: nat, height: nat, slice: nat)
    requires slice >= 1 && sy <= height
    ensures var b := Bands(canvas, sy, height, slice);
      (forall k :: 0 <= k < |b| ==> b[k].canvas == canvas && 0 < b[k].height <= slice)
      && (forall k :: 0 <= k < |b| - 1 ==> b[k].height == slice && b[k + 1].top == b[k].top + b[k].height)
      && (b != [] ==> b[0].top == sy && b[|b| - 1].top + b[|b| - 1].height == height)
    decreases height - sy
  {
    if sy < height {
      var sh := Min(slice, height - sy);
      BandsLayout(canvas, sy + sh, height, slice);
      var b := Bands(canvas, sy, height, slice);
      var rest := Bands(canvas, sy + sh, height, slice);
      assert b == [Placement(canvas, sy, sh)] + rest;
      assert forall k :: 1 <= k < |b| ==> b[k] == rest[k - 1];
      if rest != [] {
        assert sh == slice;
        assert b[1].top == sy + sh;
      }
    }
  }

  /** The band heights add up to the rows they cover. */
  lemma {:induction false} BandsCover(canvas: nat, sy: nat, height: nat, slice: nat)
    requires slice >= 1 && sy <= height
    ensures Sum(Heights(Bands(canvas, sy, height, slice))) == height - sy
    decreases height - sy
  {
    if sy < height {
      var sh := Min(slice, height - sy);
      BandsCover(canvas, sy + sh, height, slice);
      var b := Bands(canvas, sy, height, slice);
      var rest := Bands(canvas, sy + sh, height, slice);
      assert b == [Placement(canvas, sy, sh)] + rest;
      assert Heights(b) == [sh] + Heights(rest);
    }
  }

  /** What canvas `i` contributes: the whole canvas, or its bands. */
  function CanvasPlacements(i: nat, c: Canvas): seq<Placement>
    requires Placeable(c)
  {
    if c.fits then [Placement(i, 0, c.height)] else Bands(i, 0, c.height, c.sliceHeightPx)
  }

  /** Number of images a canvas produces. */
  function PlacementCount(c: Canvas): nat
    requires Placeable(c)
  {
    if c.fits then 1 else CeilDiv(c.height, c.sliceHeightPx)
  }

  predicate AllPlaceable(cs: seq<Canvas>)
  {
    forall k :: 0 <= k < |cs| ==> Placeable(cs[k])
  }

  lemma AllPlaceablePrefix(cs: seq<Canvas>, n: nat)
    requires AllPlaceable(cs) && n <= |cs|
    ensures AllPlaceable(cs[..n])
  {
    forall k | 0 <= k < n ensures Placeable(cs[..n][k]) {
      assert cs[..n][k] == cs[k];
    }
  }

  /** All placements of the pages, canvas after canvas. */
  function Placements(cs: seq<Canvas>): seq<Placement>
    requires AllPlaceable(cs)
  {
    if cs == [] then []
    else Placements(cs[..|cs| - 1]) + CanvasPlacements(|cs| - 1, cs[|cs| - 1])
  }

  /** The expected number of PDF pages: one per fitting canvas, and one per
      band of every canvas that must be sliced. */
  function ExpectedPages(cs: seq<Canvas>): nat
    requires AllPlaceable(cs)
  {
    if cs == [] then 0 else ExpectedPages(cs[..|cs| - 1]) + PlacementCount(cs[|cs| - 1])
  }

  /** One PDF page per placement. */
  function Singletons(ps: seq<Placement>): (r: seq<seq<Placement>>)
    ensures |r| == |ps| && forall k :: 0 <= k < |ps| ==> r[k] == [ps[k]]
  {
    seq(|ps|, k requires 0 <= k < |ps| => [ps[k]])
  }

  lemma SingletonsAppend(ps: seq<Placement>, p: Placement)
    ensures Singletons(ps + [p]) == Singletons(ps) + [[p]]
  {
  }

  /** The document holds as many pages as ExpectedPages counts. */
  lemma {:induction false} PlacementsCount(cs: seq<Canvas>)
    requires AllPlaceable(cs)
    ensures |Placements(cs)| == ExpectedPages(cs)
  {
    if cs != [] {
      var init := cs[..|cs| - 1];
      var last := cs[|cs| - 1];
      AllPlaceablePrefix(cs, |cs| - 1);
      PlacementsCount(init);
      assert |Placements(cs)| == |Placements(init)| + |CanvasPlacements(|cs| - 1, last)|;
      assert ExpectedPages(cs) == ExpectedPages(init) + PlacementCount(last);
      CanvasPlacementsCount(|cs| - 1, last);
    }
  }

  lemma CanvasPlacementsCount(i: nat, c: Canvas)
    requires Placeable(c)
    ensures |CanvasPlacements(i, c)| == PlacementCount(c)
  {
    if !c.fits {
      BandsCount(i, 0, c.height, c.sliceHeightPx);
    }
  }

  /** Every canvas gives at least one image, so a document with at least one
      canvas has at least one image on every page (none stays blank). */
  lemma CanvasPlacementsNonEmpty(i: nat, c: Canvas)
    requires Placeable(c)
    ensures |CanvasPlacements(i, c)| >= 1
    ensures forall k :: 0 <= k < |CanvasPlacements(i, c)| ==> CanvasPlacements(i, c)[k].canvas == i
  {
    if !c.fits {
      BandsCount(i, 0, c.height, c.sliceHeightPx);
      BandsLayout(i, 0, c.height, c.sliceHeightPx);
    }
  }

  /** The jsPDF document: a list of pages, each a list of images. It starts
      with one empty page. */
  class PdfDoc {
    var pages: seq<seq<Placement>>

    constructor ()
      ensures pages == [[]]
    {
      pages := [[]];
    }

    /** `pdf.addPage()`: a new empty page at the end. */
    method AddPage()
      modifies this
      ensures pages == old(pages) + [[]]
    {
      pages := pages + [[]];
    }

    /** `pdf.addImage(...)`: the image goes on the current (last) page. */
    method AddImage(p: Placement)
      requires pages != []
      modifies this
      ensures pages == old(pages)[..|old(pages)| - 1] + [old(pages)[|old(pages)| - 1] + [p]]
    {
      pages := pages[..|pages| - 1] + [pages[|pages| - 1] + [p]];
    }
  }

  /** An image drawn on a freshly added page becomes that page's only image. */
  lemma ImageOnFreshPage(pages: seq<seq<Placement>>, done: seq<Placement>, p: Placement)
    requires pages == Singletons(done) + [[]]
    ensures pages[..|pages| - 1] + [pages[|pages| - 1] + [p]] == Singletons(done + [p])
  {
    assert pages[..|pages| - 1] == Singletons(done);
    assert pages[|pages| - 1] + [p] == [p];
    SingletonsAppend(done, p);
  }

  /** One iteration of the page loop: a new page unless this is the first
      canvas, then the whole canvas or its slices. */
  method PlaceCanvas(pdf: PdfDoc, i: nat, c: Canvas, ghost done: seq<Placement>)
    requires Placeable(c)
    requires i == 0 ==> done == [] && pdf.pages == [[]]
    requires i > 0 ==> pdf.pages == Singletons(done)
    modifies pdf
    ensures pdf.pages == Singletons(done + CanvasPlacements(i, c))
  {
    if i > 0 {
      pdf.AddPage();
    }
    assert pdf.pages == Singletons(done) + [[]];
    if c.fits {
      ImageOnFreshPage(pdf.pages, done, Placement(i, 0, c.height));
      pdf.AddImage(Placement(i, 0, c.height));
    } else {
      PlaceSlices(pdf, i, c.height, c.sliceHeightPx, done);
    }
  }

  /** The slicing loop: band after band, a new page before every band but
      the first, each band drawn on its own page. */
  method PlaceSlices(pdf: PdfDoc, i: nat, height: nat, slice: int, ghost done: seq<Placement>)
    requires height > 0 && slice >= 1
    requires pdf.pages == Singletons(done) + [[]]
    modifies pdf
    ensures pdf.pages == Singletons(done + Bands(i, 0, height, slice))
  {
    var sy := 0;
    var first := true;
    ghost var placed: seq<Placement> := [];
    while sy < height
      invariant 0 <= sy <= height
      invariant Bands(i, 0, height, slice) == placed + Bands(i, sy, height, slice)
      invariant first ==> sy == 0 && placed == [] && pdf.pages == Singletons(done) + [[]]
      invariant !first ==> sy > 0 && pdf.pages == Singletons(done + placed)
      decreases height - sy
    {
      var sh := Min(slice, height - sy);
      PlaceBand(pdf, Placement(i, sy, sh), first, done, placed);
      placed := placed + [Placement(i, sy, sh)];
      sy := sy + sh;
      first := false;
    }
    assert Bands(i, sy, height, slice) == [];
    assert placed == Bands(i, 0, height, slice);
  }

  /** One iteration of the slicing loop: a new page unless this is the first
      band, then the band on it. */
  method PlaceBand(pdf: PdfDoc, p: Placement, first: bool, ghost done: seq<Placement>, ghost placed: seq<Placement>)
    requires first ==> placed == [] && pdf.pages == Singletons(done) + [[]]
    requires !first ==> pdf.pages == Singletons(done + placed)
    modifies pdf
    ensures pdf.pages == Singletons(done + (placed + [p]))
  {
    if !first {
      pdf.AddPage();
    } else {
      assert done + placed == done;
    }
    ImageOnFreshPage(pdf.pages, done + placed, p);
    pdf.AddImage(p);
    assert done + placed + [p] == done + (placed + [p]);
  }

  predicate AllRendered(rs: seq<Raster>)
  {
    forall k :: 0 <= k < |rs| ==> rs[k].Rendered?
  }

  function Canvases(rs: seq<Raster>): (cs: seq<Canvas>)
    requires AllRendered(rs)
    ensures |cs| == |rs| && forall k :: 0 <= k < |rs| ==> cs[k] == rs[k].canvas
  {
    seq(|rs|, k requires 0 <= k < |rs| => rs[k].canvas)
  }

  /** Every rendered canvas is placeable. */
  predicate RendersPlaceable(rs: seq<Raster>)
  {
    forall k :: 0 <= k < |rs| && rs[k].Rendered? ==> Placeable(rs[k].canvas)
  }

  /** Rendering one more node extends the canvases and their placements. */
  lemma CanvasesStep(rs: seq<Raster>, i: nat)
    requires i < |rs| && AllRendered(rs[..i]) && rs[i].Rendered? && RendersPlaceable(rs)
    requires AllPlaceable(Canvases(rs[..i]))
    ensures AllRendered(rs[..i + 1]) && AllPlaceable(Canvases(rs[..i + 1]))
    ensures Canvases(rs[..i + 1]) == Canvases(rs[..i]) + [rs[i].canvas]
    ensures Placements(Canvases(rs[..i + 1]))
      == (if i == 0 then [] else Placements(Canvases(rs[..i]))) + CanvasPlacements(i, rs[i].canvas)
  {
    assert rs[..i + 1] == rs[..i] + [rs[i]];
    var cs := Canvases(rs[..i + 1]);
    assert cs[..i] == Canvases(rs[..i]);
  }

  datatype Outcome = Done | Failed(message: string)

  /** What the export does outside the document and the registry. */
  datatype ReportEffect = Registered(record: ExportRecord) | Saved(filename: string)
                        | UnmountAttempted | ContainerRemoved

  const NoPagesMessage: string := "No report pages mounted"

  /** The record registered for a finished document whose data URL is `dataUrl`. */
  function PdfRecord(nowIso: string, id: string, createdAt: string, dataUrl: string): (r: ExportRecord)
    ensures r.kind == Pdf && r.mime == "application/pdf" && r.size == |dataUrl|
    ensures r.filename == "analysis-report-" + Csv.FileStamp(nowIso) + ".pdf"
  {
    ExportRecord(id, Pdf, "PDF Report", "analysis-report-" + Csv.FileStamp(nowIso) + ".pdf",
                 "application/pdf", |dataUrl|, createdAt, dataUrl)
  }

  /** `generateReport`. `rasters` are the report nodes found in the mounted
      tree, rendered in order; `output` stands for
      `pdf.output("datauristring")`; the clock and identity values are
      parameters. With no nodes it fails with "No report pages mounted"; a
      rendering rejection aborts the loop with that reason. Only a finished
      document is registered, before it is saved; on every path the unmount
      is attempted (its errors are swallowed) and the container is removed. */
  method GenerateReport(store: ExportsState, rasters: seq<Raster>, output: seq<seq<Placement>> -> string,
                        nowIso: string, id: string, createdAt: string)
    returns (outcome: Outcome, effects: seq<ReportEffect>, ghost pages: seq<seq<Placement>>)
    requires RendersPlaceable(rasters)
    modifies store
    ensures |effects| >= 2 && effects[|effects| - 2..] == [UnmountAttempted, ContainerRemoved]
    ensures outcome.Done? <==> rasters != [] && AllRendered(rasters)
    ensures rasters == [] ==> outcome == Failed(NoPagesMessage)
    ensures outcome.Failed? ==> store.exports == old(store.exports) && effects == [UnmountAttempted, ContainerRemoved]
    ensures outcome.Done? ==>
      pages == Singletons(Placements(Canvases(rasters)))
      && var record := PdfRecord(nowIso, id, createdAt, output(pages));
      store.exports == [record] + old(store.exports)
      && effects == [Registered(record), Saved(record.filename), UnmountAttempted, ContainerRemoved]
  {
    pages := [];
    if rasters == [] {
      outcome := Failed(NoPagesMessage);
      effects := [];
    } else {
      var pdf := new PdfDoc();
      var i := 0;
      var failure: Option<string> := None;
      while i < |rasters| && failure.None?
        invariant 0 <= i <= |rasters|
        invariant AllRendered(rasters[..i])
        invariant store.exports == old(store.exports)
        invariant failure.Some? ==> i < |rasters| && rasters[i].RenderFailed?
        invariant AllPlaceable(Canvases(rasters[..i]))
        invariant i == 0 ==> pdf.pages == [[]]
        invariant i > 0 ==> pdf.pages == Singletons(Placements(Canvases(rasters[..i])))
        decreases |rasters| - i, failure.None?
      {
        match rasters[i]
        case RenderFailed(reason) =>
          failure := Some(reason);
        case Rendered(c) =>
          PlaceCanvas(pdf, i, c, if i == 0 then [] else Placements(Canvases(rasters[..i])));
          CanvasesStep(rasters, i);
          i := i + 1;
      }
      if failure.Some? {
        outcome := Failed(failure.value);
        effects := [];
        assert !AllRendered(rasters);
      } else {
        assert rasters[..i] == rasters;
        pages := pdf.pages;
        var dataUrl := output(pdf.pages);
        var record := PdfRecord(nowIso, id, createdAt, dataUrl);
        store.AddExport(record);
        effects := [Registered(record), Saved(record.filename)];
        outcome := Done;
      }
    }
    effects := effects + [UnmountAttempted, ContainerRemoved];
  }

  /** A finished document has one image per page and ExpectedPages pages: a
      fitting canvas takes one page, a sliced one ceil(height / slice). */
  lemma DocumentShape(cs: seq<Canvas>)
    requires AllPlaceable(cs)
    ensures |Singletons(Placements(cs))| == ExpectedPages(cs)
    ensures forall k :: 0 <= k < |Singletons(Placements(cs))| ==> |Singletons(Placements(cs))[k]| == 1
  {
    PlacementsCount(cs);
  }

  /** Two report pages, one fitting and one 2500 pixels high cut into
      1000-pixel bands, give four PDF pages: the whole first canvas, then
      bands of 1000, 1000 and 500 rows. */
  lemma TwoCanvasExample()
    ensures var cs := [Canvas(800, true, 1200), Canvas(2500, false, 1000)];
      AllPlaceable(cs)
      && Placements(cs) == [Placement(0, 0, 800), Placement(1, 0, 1000), Placement(1, 1000, 1000), Placement(1, 2000, 500)]
  {
    var cs := [Canvas(800, true, 1200), Canvas(2500, false, 1000)];
    assert cs[..1] == [cs[0]];
    assert [cs[0]][..0] == [];
    assert Bands(1, 2000, 2500, 1000) == [Placement(1, 2000, 500)];
  }
}
