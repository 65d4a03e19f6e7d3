/**
 * The three row loops of app.py, each over the chosen source column:
 * "Test First 3 URLs" (lines 157-188), "Generate Excel" (lines 190-237)
 * and "Generate PowerPoint" (lines 257-293). The worksheet and the slide
 * deck they fill are objects updated in place.
 */
module Batch {
  import opened Wrappers
  import opened Text
  import opened Imaging
  import opened Scrape
  import opened Routing
  import opened Report

  /** The active worksheet: the images anchored on it and its row heights. */
  class Worksheet {
    var images: seq<Placement>
    var rowHeights: map<nat, nat>

    constructor (images: seq<Placement>, rowHeights: map<nat, nat>)
      ensures this.images == images && this.rowHeights == rowHeights
    {
      this.images := images;
      this.rowHeights := rowHeights;
    }

    /** `ws.add_image(img, anchor)`. */
    method AddImage(anchor: string, img: Bitmap)
      modifies this
      ensures images == old(images) + [Placement(anchor, img)]
      ensures rowHeights == old(rowHeights)
    {
      images := images + [Placement(anchor, img)];
    }

    /** `ws.row_dimensions[row].height = height`. */
    method SetRowHeight(row: nat, height: nat)
      modifies this
      ensures rowHeights == old(rowHeights)[row := height]
      ensures images == old(images)
    {
      rowHeights := rowHeights[row := height];
    }
  }

  /** A slide: the picture and the text of its caption box. */
  datatype Slide = Slide(picture: Bitmap, caption: string)

  /** The presentation being built. */
  class Deck {
    var slides: seq<Slide>

    constructor ()
      ensures slides == []
    {
      slides := [];
    }

    /** `prs.slides.add_slide(blank)` followed by its picture and caption. */
    method AddSlide(picture: Bitmap, caption: string)
      modifies this
      ensures slides == old(slides) + [Slide(picture, caption)]
    {
      slides := slides + [Slide(picture, caption)];
    }
  }

  /** How many rows the test button tries (`df.head(3)`). */
  const TestRows: nat := 3

  function Min(a: nat, b: nat): nat { if a <= b then a else b }

  /**
   * "Test First 3 URLs": routes the first three rows and counts those that
   * yield an image.
   */
  method TestFirstUrls(cells: seq<Cell>, fetch: string -> Option<Bitmap>, fetchPage: string -> Page)
    returns (successCount: nat)
    ensures successCount == SuccessCount(Outcomes(cells[..Min(TestRows, |cells|)],
                                                  Router(TargetWidthPx, TargetHeightPx, fetch, fetchPage)))
    ensures successCount <= TestRows
  {
    var route := Router(TargetWidthPx, TargetHeightPx, fetch, fetchPage);
    var head := cells[..Min(TestRows, |cells|)];
    successCount := 0;
    ghost var done: seq<Outcome> := [];
    for i := 0 to |head|
      invariant done == Outcomes(head[..i], route)
      invariant successCount == SuccessCount(done)
    {
      var o := RowOutcome(head[i], route);
      OutcomesStep(head, i, route);
      SuccessCountStep(done, o);
      if o.Resolved? {
        successCount := successCount + 1;
      }
      done := done + [o];
    }
    assert head[..|head|] == head;
    ReportTotals(Outcomes(head, route));
  }

  /**
   * The body of "Generate Excel" (app.py lines 206-231) for any way of
   * routing a value: anchors each resolved row's image, sets that row's
   * height and records the non-blank rows that did not resolve.
   */
  method FillWorksheet(ws: Worksheet, cells: seq<Cell>, targetColumn: string,
                       route: string -> Option<Bitmap>)
    returns (count: nat, failed: seq<nat>)
    modifies ws
    ensures var os := Outcomes(cells, route);
            && count == SuccessCount(os)
            && failed == FailedRows(os)
            && ws.images == old(ws.images) + Placements(os, targetColumn)
            && ws.rowHeights == RowHeights(os, old(ws.rowHeights))
  {
    count := 0;
    failed := [];
    ghost var images0, heights0 := ws.images, ws.rowHeights;
    ghost var done: seq<Outcome> := [];
    for i := 0 to |cells|
      invariant done == Outcomes(cells[..i], route)
      invariant count == SuccessCount(done)
      invariant failed == FailedRows(done)
      invariant ws.images == images0 + Placements(done, targetColumn)
      invariant ws.rowHeights == RowHeights(done, heights0)
    {
      var o := RowOutcome(cells[i], route);
      OutcomesStep(cells, i, route);
      SuccessCountStep(done, o);
      ReportStep(done, o, targetColumn, heights0);
      assert |done| == i;
      if o.Resolved? {
        count := count + 1;
        var placed := Placement(Anchor(targetColumn, ExcelRow(i)), o.image);
        ws.AddImage(placed.anchor, placed.image);
        assert ws.images == images0 + (Placements(done, targetColumn) + [placed]);
        ws.SetRowHeight(ExcelRow(i), PlacedRowHeight);
      } else if o.Unresolved? {
        failed := failed + [ExcelRow(i)];
      }
      done := done + [o];
    }
    assert cells[..|cells|] == cells;
  }

  /**
   * "Generate Excel": the output column is the upper-cased text the user
   * typed; for every row, anchor its image at that column on its Excel row
   * and set that row's height, or record the row as failed; then choose
   * the status line.
   */
  method GenerateExcel(ws: Worksheet, cells: seq<Cell>, columnInput: string,
                       fetch: string -> Option<Bitmap>, fetchPage: string -> Page)
    returns (count: nat, failed: seq<nat>, status: ExcelStatus)
    modifies ws
    ensures var os := Outcomes(cells, Router(TargetWidthPx, TargetHeightPx, fetch, fetchPage));
            && count == SuccessCount(os)
            && failed == FailedRows(os)
            && ws.images == old(ws.images) + Placements(os, Upper(columnInput))
            && ws.rowHeights == RowHeights(os, old(ws.rowHeights))
    ensures status == ExcelStatusFor(count, |cells|, failed)
    ensures count <= |cells|
  {
    var route := Router(TargetWidthPx, TargetHeightPx, fetch, fetchPage);
    count, failed := FillWorksheet(ws, cells, Upper(columnInput), route);
    ReportTotals(Outcomes(cells, route));
    status := ExcelStatusFor(count, |cells|, failed);
  }

  /** The caption box text: `f"Source: {value_str}"`. */
  function Caption(value: string): string
  {
    "Source: " + value
  }

  /** The slides the PowerPoint loop adds for `cells`, in row order. */
  function Slides(cells: seq<Cell>, route: string -> Option<Bitmap>): seq<Slide>
  {
    if cells == [] then []
    else
      Slides(cells[..|cells| - 1], route)
      + match RowOutcome(cells[|cells| - 1], route)
        case Resolved(img) => [Slide(img, Caption(Strip(cells[|cells| - 1].text)))]
        case _ => []
  }

  /**
   * "Generate PowerPoint": one slide per row that yields an image, and
   * `count` is the number of slides added.
   */
  method GeneratePowerPoint(cells: seq<Cell>, fetch: string -> Option<Bitmap>, fetchPage: string -> Page)
    returns (deck: Deck, count: nat)
    ensures fresh(deck)
    ensures deck.slides == Slides(cells, Router(SlideWidthPx, SlideHeightPx, fetch, fetchPage))
    ensures count == |deck.slides|
  {
    var route := Router(SlideWidthPx, SlideHeightPx, fetch, fetchPage);
    deck := new Deck();
    count := 0;
    for i := 0 to |cells|
      invariant deck.slides == Slides(cells[..i], route)
      invariant count == |deck.slides|
    {
      assert cells[..i + 1][..i] == cells[..i];
      var o := RowOutcome(cells[i], route);
      if o.Resolved? {
        count := count + 1;
        deck.AddSlide(o.image, Caption(Strip(cells[i].text)));
      }
    }
    assert cells[..|cells|] == cells;
  }

  /** The number of slides is the number of rows that resolved. */
  lemma {:induction false} SlidesMatchSuccesses(cells: seq<Cell>, route: string -> Option<Bitmap>)
    ensures |Slides(cells, route)| == SuccessCount(Outcomes(cells, route))
  {
    if cells != [] {
      var init := cells[..|cells| - 1];
      SlidesMatchSuccesses(init, route);
      SuccessCountStep(Outcomes(init, route), RowOutcome(cells[|cells| - 1], route));
    }
  }

  /**
   * Slide `s` comes from Excel row `n`: data row `n-2` holds a value that
   * resolved to the slide's picture, and the caption is that stripped value.
   */
  predicate SlideFromRow(cells: seq<Cell>, route: string -> Option<Bitmap>, s: Slide, n: nat)
  {
    2 <= n < |cells| + 2 && cells[n - 2].Value?
    && RowOutcome(cells[n - 2], route) == Resolved(s.picture)
    && s.caption == Caption(Strip(cells[n - 2].text))
  }

  /**
   * The deck has one slide per row that resolved, in row order: slide `k`
   * comes from the `k`-th resolved row and is captioned with its value.
   */
  lemma {:induction false} SlidesInRowOrder(cells: seq<Cell>, route: string -> Option<Bitmap>)
    ensures |Slides(cells, route)| == |PlacedRows(Outcomes(cells, route))|
    ensures forall k :: 0 <= k < |Slides(cells, route)| ==>
              SlideFromRow(cells, route, Slides(cells, route)[k], PlacedRows(Outcomes(cells, route))[k])
  {
    if cells != [] {
      var init, last := cells[..|cells| - 1], cells[|cells| - 1];
      SlidesInRowOrder(init, route);
      var os, before := Outcomes(cells, route), Outcomes(init, route);
      var o := RowOutcome(last, route);
      assert os[..|os| - 1] == before;
      var rows: seq<nat> := if o.Resolved? then [ExcelRow(|init|)] else [];
      assert PlacedRows(os) == PlacedRows(before) + rows;
      var added: seq<Slide> := if o.Resolved? then [Slide(o.image, Caption(Strip(last.text)))] else [];
      assert Slides(cells, route) == Slides(init, route) + added;
      forall k | 0 <= k < |Slides(cells, route)|
        ensures SlideFromRow(cells, route, Slides(cells, route)[k], PlacedRows(os)[k])
      {
        if k < |Slides(init, route)| {
          var n := PlacedRows(before)[k];
          assert SlideFromRow(init, route, Slides(init, route)[k], n);
          assert Slides(cells, route)[k] == Slides(init, route)[k];
          assert PlacedRows(os)[k] == n;
          assert cells[n - 2] == init[n - 2];
        }
      }
    }
  }

  /** Every picture in `slides` is `width` by `height`. */
  predicate PicturesSized(slides: seq<Slide>, width: nat, height: nat)
  {
    forall k :: 0 <= k < |slides| ==> slides[k].picture.width == width && slides[k].picture.height == height
  }

  /** Every slide picture is 800 by 600 (app.py lines 271 and 275). */
  lemma {:induction false} SlidePicturesSized(cells: seq<Cell>, fetch: string -> Option<Bitmap>,
                                              fetchPage: string -> Page)
    ensures PicturesSized(Slides(cells, Router(SlideWidthPx, SlideHeightPx, fetch, fetchPage)),
                          SlideWidthPx, SlideHeightPx)
  {
    if cells != [] {
      var route := Router(SlideWidthPx, SlideHeightPx, fetch, fetchPage);
      var init, last := cells[..|cells| - 1], cells[|cells| - 1];
      SlidePicturesSized(init, fetch, fetchPage);
      RoutedImageSized(last, SlideWidthPx, SlideHeightPx, fetch, fetchPage);
      var o := RowOutcome(last, route);
      var added: seq<Slide> := if o.Resolved? then [Slide(o.image, Caption(Strip(last.text)))] else [];
      assert Slides(cells, route) == Slides(init, route) + added;
    }
  }
}
