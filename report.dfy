/**
 * The batch report of the "Generate Excel" loop (app.py lines 198-237) as
 * functions of the sequence of row outcomes: the success counter, the list
 * of failed Excel row numbers, the images anchored in the target column,
 * the row heights set, and the closing status. Data row `i` (from 0) sits
 * on Excel row `i + 2`, below the header row.
 */
module Report {
  import opened Wrappers
  import opened Text
  import opened Imaging
  import opened Routing

  /** Excel row number of data row `i`. */
  function ExcelRow(i: nat): nat { i + 2 }

  /** The cell an image is anchored at: `f"{target_col_letter}{i+2}"`. */
  function Anchor(column: string, row: nat): string
  {
    column + DecimalString(row)
  }

  /** Height given to every row that received an image (app.py line 228). */
  const PlacedRowHeight: nat := 105

  datatype Placement = Placement(anchor: string, image: Bitmap)

  /** The closing status line (app.py lines 234-237), without its wording. */
  datatype ExcelStatus =
    | Complete(count: nat, total: nat)
    | CompleteWithFailures(count: nat, total: nat, failedRows: seq<nat>)

  function ExcelStatusFor(count: nat, total: nat, failed: seq<nat>): (r: ExcelStatus)
    ensures r.CompleteWithFailures? <==> failed != []
    ensures r.count == count && r.total == total
    ensures r.CompleteWithFailures? ==> r.failedRows == failed
  {
    if failed != [] then CompleteWithFailures(count, total, failed) else Complete(count, total)
  }

  /** The outcome of every row of the column, in row order. */
  function Outcomes(cells: seq<Cell>, route: string -> Option<Bitmap>): (os: seq<Outcome>)
    ensures |os| == |cells|
    ensures forall i :: 0 <= i < |cells| ==> (os[i].Skipped? <==> cells[i].Blank?)
  {
    if cells == [] then []
    else Outcomes(cells[..|cells| - 1], route) + [RowOutcome(cells[|cells| - 1], route)]
  }

  /** Routing one more row extends the outcomes by that row's outcome. */
  lemma OutcomesStep(cells: seq<Cell>, i: nat, route: string -> Option<Bitmap>)
    requires i < |cells|
    ensures Outcomes(cells[..i + 1], route) == Outcomes(cells[..i], route) + [RowOutcome(cells[i], route)]
  {
    assert cells[..i + 1][..i] == cells[..i];
  }

  /** Entry `i` of the outcomes is the outcome of row `i`. */
  lemma {:induction false} OutcomesAt(cells: seq<Cell>, route: string -> Option<Bitmap>)
    ensures forall i :: 0 <= i < |cells| ==> Outcomes(cells, route)[i] == RowOutcome(cells[i], route)
  {
    if cells != [] {
      var init := cells[..|cells| - 1];
      OutcomesAt(init, route);
      assert forall i :: 0 <= i < |init| ==> cells[i] == init[i];
    }
  }

  /** `count`: rows that produced an image. */
  function SuccessCount(os: seq<Outcome>): nat
  {
    if os == [] then 0
    else SuccessCount(os[..|os| - 1]) + (if os[|os| - 1].Resolved? then 1 else 0)
  }

  /** Rows that were not blank. */
  function ProcessedCount(os: seq<Outcome>): nat
  {
    if os == [] then 0
    else ProcessedCount(os[..|os| - 1]) + (if os[|os| - 1].Skipped? then 0 else 1)
  }

  predicate Matches(o: Outcome, resolved: bool)
  {
    if resolved then o.Resolved? else o.Unresolved?
  }

  /** The Excel row numbers of the rows that resolved (`resolved`) or failed (`!resolved`). */
  function RowsWhere(os: seq<Outcome>, resolved: bool): seq<nat>
  {
    if os == [] then []
    else RowsWhere(os[..|os| - 1], resolved)
         + (if Matches(os[|os| - 1], resolved) then [ExcelRow(|os| - 1)] else [])
  }

  /** `failed`: Excel row numbers of the non-blank rows without an image. */
  function FailedRows(os: seq<Outcome>): seq<nat> { RowsWhere(os, false) }

  /** Excel row numbers of the rows that received an image. */
  function PlacedRows(os: seq<Outcome>): seq<nat> { RowsWhere(os, true) }

  /** The images `ws.add_image` anchors, in the order it is called. */
  function Placements(os: seq<Outcome>, column: string): seq<Placement>
  {
    if os == [] then []
    else Placements(os[..|os| - 1], column)
         + (match os[|os| - 1]
            case Resolved(img) => [Placement(Anchor(column, ExcelRow(|os| - 1)), img)]
            case _ => [])
  }

  /** `ws.row_dimensions` after the loop, starting from `heights`. */
  function RowHeights(os: seq<Outcome>, heights: map<nat, nat>): map<nat, nat>
  {
    if os == [] then heights
    else
      var before := RowHeights(os[..|os| - 1], heights);
      if os[|os| - 1].Resolved? then before[ExcelRow(|os| - 1) := PlacedRowHeight] else before
  }

  // ------------------------------------------------------------ lemmas

  /** How the success counter advances by one row. */
  lemma SuccessCountStep(os: seq<Outcome>, o: Outcome)
    ensures SuccessCount(os + [o]) == SuccessCount(os) + (if o.Resolved? then 1 else 0)
  {
    assert (os + [o])[..|os|] == os;
  }

  /** How the failure list, the placements and the row heights advance by one row. */
  lemma ReportStep(os: seq<Outcome>, o: Outcome, column: string, heights: map<nat, nat>)
    ensures FailedRows(os + [o]) == FailedRows(os) + (if o.Unresolved? then [ExcelRow(|os|)] else [])
    ensures Placements(os + [o], column) == Placements(os, column)
              + (if o.Resolved? then [Placement(Anchor(column, ExcelRow(|os|)), o.image)] else [])
    ensures RowHeights(os + [o], heights)
            == (if o.Resolved? then RowHeights(os, heights)[ExcelRow(|os|) := PlacedRowHeight]
                else RowHeights(os, heights))
  {
    assert (os + [o])[..|os|] == os;
  }

  /** Every row is counted once: successes plus failures are the non-blank rows. */
  lemma {:induction false} ReportTotals(os: seq<Outcome>)
    ensures SuccessCount(os) + |FailedRows(os)| == ProcessedCount(os)
    ensures ProcessedCount(os) <= |os|
    ensures SuccessCount(os) <= |os|
  {
    if os != [] {
      ReportTotals(os[..|os| - 1]);
    }
  }

  /** The number of non-blank cells of the column. */
  function NonBlankRows(cells: seq<Cell>): nat
  {
    if cells == [] then 0
    else NonBlankRows(cells[..|cells| - 1]) + (if cells[|cells| - 1].Blank? then 0 else 1)
  }

  /** The rows processed are exactly the non-blank cells, whatever the routing. */
  lemma {:induction false} ProcessedAreNonBlank(cells: seq<Cell>, route: string -> Option<Bitmap>)
    ensures ProcessedCount(Outcomes(cells, route)) == NonBlankRows(cells)
  {
    if cells != [] {
      var init := cells[..|cells| - 1];
      ProcessedAreNonBlank(init, route);
      var os := Outcomes(cells, route);
      assert os[..|os| - 1] == Outcomes(init, route);
    }
  }

  /** The counter agrees with the list of rows that received an image. */
  lemma {:induction false} SuccessCountIsPlacedRows(os: seq<Outcome>)
    ensures SuccessCount(os) == |PlacedRows(os)|
  {
    if os != [] {
      SuccessCountIsPlacedRows(os[..|os| - 1]);
    }
  }

  /** Row numbers lie between the first data row (2) and the last (`|os| + 1`). */
  lemma {:induction false} RowsWhereBounds(os: seq<Outcome>, resolved: bool)
    ensures forall k :: 0 <= k < |RowsWhere(os, resolved)| ==> 2 <= RowsWhere(os, resolved)[k] < |os| + 2
  {
    if os != [] {
      RowsWhereBounds(os[..|os| - 1], resolved);
    }
  }

  /** Row numbers are listed in strictly increasing order, hence without repetition. */
  lemma {:induction false} RowsWhereIncreasing(os: seq<Outcome>, resolved: bool)
    ensures forall a, b :: 0 <= a < b < |RowsWhere(os, resolved)| ==>
              RowsWhere(os, resolved)[a] < RowsWhere(os, resolved)[b]
  {
    if os != [] {
      var init := os[..|os| - 1];
      RowsWhereIncreasing(init, resolved);
      RowsWhereBounds(init, resolved);
    }
  }

  /** A row number is listed exactly when that row has the outcome asked for. */
  lemma {:induction false} RowsWhereExact(os: seq<Outcome>, resolved: bool, n: nat)
    ensures n in RowsWhere(os, resolved) <==> 2 <= n < |os| + 2 && Matches(os[n - 2], resolved)
  {
    if os != [] {
      var init := os[..|os| - 1];
      RowsWhereExact(init, resolved, n);
      if 2 <= n < |os| + 1 {
        assert os[n - 2] == init[n - 2];
      }
    }
  }

  /** `failed` is strictly increasing and holds exactly the rows whose image was none. */
  lemma FailedRowsCharacterised(os: seq<Outcome>)
    ensures forall a, b :: 0 <= a < b < |FailedRows(os)| ==> FailedRows(os)[a] < FailedRows(os)[b]
    ensures forall n: nat :: n in FailedRows(os) <==> 2 <= n < |os| + 2 && os[n - 2].Unresolved?
  {
    RowsWhereIncreasing(os, false);
    forall n: nat ensures n in FailedRows(os) <==> 2 <= n < |os| + 2 && os[n - 2].Unresolved? {
      RowsWhereExact(os, false, n);
    }
  }

  /**
   * In terms of the cells: Excel row `n` is listed exactly when data row
   * `n-2` holds a value whose routing gives an image (`resolved`) or gives
   * none (`!resolved`).
   */
  lemma RowListedIffCell(cells: seq<Cell>, route: string -> Option<Bitmap>, resolved: bool, n: nat)
    ensures n in RowsWhere(Outcomes(cells, route), resolved) <==>
              2 <= n < |cells| + 2 && cells[n - 2].Value? && route(Strip(cells[n - 2].text)).Some? == resolved
  {
    var os := Outcomes(cells, route);
    RowsWhereExact(os, resolved, n);
    if 2 <= n < |cells| + 2 {
      OutcomesAt(cells, route);
      assert os[n - 2] == RowOutcome(cells[n - 2], route);
    }
  }

  /** `failed` holds exactly the Excel rows of the values whose routing gave no image. */
  lemma FailedRowsOfCells(cells: seq<Cell>, route: string -> Option<Bitmap>)
    ensures forall n: nat :: n in FailedRows(Outcomes(cells, route)) <==>
              2 <= n < |cells| + 2 && cells[n - 2].Value? && route(Strip(cells[n - 2].text)).None?
  {
    forall n: nat
      ensures n in FailedRows(Outcomes(cells, route)) <==>
              2 <= n < |cells| + 2 && cells[n - 2].Value? && route(Strip(cells[n - 2].text)).None?
    {
      RowListedIffCell(cells, route, false, n);
    }
  }

  /** The placed rows are exactly the Excel rows of the values whose routing gave an image. */
  lemma PlacedRowsOfCells(cells: seq<Cell>, route: string -> Option<Bitmap>)
    ensures forall n: nat :: n in PlacedRows(Outcomes(cells, route)) <==>
              2 <= n < |cells| + 2 && cells[n - 2].Value? && route(Strip(cells[n - 2].text)).Some?
  {
    forall n: nat
      ensures n in PlacedRows(Outcomes(cells, route)) <==>
              2 <= n < |cells| + 2 && cells[n - 2].Value? && route(Strip(cells[n - 2].text)).Some?
    {
      RowListedIffCell(cells, route, true, n);
    }
  }

  /** A blank row is neither a success nor a failure. */
  lemma BlankRowIgnored(os: seq<Outcome>, i: nat)
    requires i < |os| && os[i].Skipped?
    ensures ExcelRow(i) !in FailedRows(os) && ExcelRow(i) !in PlacedRows(os)
    ensures SuccessCount(os[..i + 1]) == SuccessCount(os[..i])
    ensures FailedRows(os[..i + 1]) == FailedRows(os[..i])
  {
    RowsWhereExact(os, false, ExcelRow(i));
    RowsWhereExact(os, true, ExcelRow(i));
    assert os[..i + 1][..i] == os[..i];
  }

  /**
   * There is one placement per row that received an image, in row order,
   * anchored at the target column on that row's Excel row number.
   */
  lemma {:induction false} PlacementsAnchored(os: seq<Outcome>, column: string)
    ensures |Placements(os, column)| == |PlacedRows(os)|
    ensures forall k :: 0 <= k < |Placements(os, column)| ==>
              2 <= PlacedRows(os)[k] < |os| + 2
              && os[PlacedRows(os)[k] - 2] == Resolved(Placements(os, column)[k].image)
              && Placements(os, column)[k].anchor == Anchor(column, PlacedRows(os)[k])
  {
    RowsWhereBounds(os, true);
    if os != [] {
      var init := os[..|os| - 1];
      PlacementsAnchored(init, column);
      RowsWhereBounds(init, true);
      forall k | 0 <= k < |Placements(init, column)|
        ensures os[PlacedRows(init)[k] - 2] == init[PlacedRows(init)[k] - 2]
      {
      }
    }
  }

  /** Images go to the target column only, so distinct rows never share an anchor. */
  lemma AnchorsDistinct(os: seq<Outcome>, column: string)
    ensures forall a, b :: 0 <= a < b < |Placements(os, column)| ==>
              Placements(os, column)[a].anchor != Placements(os, column)[b].anchor
  {
    PlacementsAnchored(os, column);
    RowsWhereIncreasing(os, true);
    forall a, b | 0 <= a < b < |Placements(os, column)|
      ensures Placements(os, column)[a].anchor != Placements(os, column)[b].anchor
    {
      var ra, rb := PlacedRows(os)[a], PlacedRows(os)[b];
      if Anchor(column, ra) == Anchor(column, rb) {
        assert DecimalString(ra) == Anchor(column, ra)[|column|..];
        assert DecimalString(rb) == Anchor(column, rb)[|column|..];
        DecimalInjective(ra, rb);
      }
    }
  }

  /** Exactly the rows that received an image get height 105; every other height is kept. */
  lemma {:induction false} RowHeightsSet(os: seq<Outcome>, heights: map<nat, nat>)
    ensures forall r :: r in RowHeights(os, heights) <==> r in heights || r in PlacedRows(os)
    ensures forall r :: r in PlacedRows(os) ==> RowHeights(os, heights)[r] == PlacedRowHeight
    ensures forall r :: r in heights && r !in PlacedRows(os) ==> RowHeights(os, heights)[r] == heights[r]
  {
    if os != [] {
      RowHeightsSet(os[..|os| - 1], heights);
    }
  }

  /** The warning is shown exactly when some non-blank row got no image. */
  lemma WarningIffSomeRowFailed(os: seq<Outcome>)
    ensures ExcelStatusFor(SuccessCount(os), |os|, FailedRows(os)).CompleteWithFailures?
            <==> exists i :: 0 <= i < |os| && os[i].Unresolved?
  {
    if exists i :: 0 <= i < |os| && os[i].Unresolved? {
      var i :| 0 <= i < |os| && os[i].Unresolved?;
      RowsWhereExact(os, false, ExcelRow(i));
    }
    if FailedRows(os) != [] {
      RowsWhereBounds(os, false);
      RowsWhereExact(os, false, FailedRows(os)[0]);
    }
  }
}
