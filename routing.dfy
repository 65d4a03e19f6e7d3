/**
 * What one spreadsheet cell becomes (app.py lines 162-179, 204-220 and
 * 264-275, three copies of the same routing): a blank cell is skipped; a
 * value that is already an image link is downloaded as it stands; any
 * other value is handed to the scraper, and the URL it returns, if any,
 * is downloaded.
 */
module Routing {
  import opened Wrappers
  import opened Text
  import opened Classify
  import opened Imaging
  import opened Scrape

  /**
   * A cell of the chosen source column: `Blank` when pandas reads it as
   * missing (`pd.notna` is false), otherwise `str(value)`.
   */
  datatype Cell = Blank | Value(text: string)

  /** What became of one row. */
  datatype Outcome = Skipped | Resolved(image: Bitmap) | Unresolved

  /**
   * The URL whose image is downloaded for a stripped value: the value
   * itself when it looks like an image link, otherwise the scraper's
   * answer when it is truthy (`if image_url:`).
   */
  function ImageUrlFor(value: string, fetchPage: string -> Page): (r: Option<string>)
    ensures IsDirectImage(value) ==> r == Some(value)
    ensures !IsDirectImage(value) ==> r == TryScrapeFallback(value, fetchPage)
  {
    if IsDirectImage(value) then Some(value)
    else match TryScrapeFallback(value, fetchPage)
         case Some(imageUrl) => if imageUrl != "" then Some(imageUrl) else None
         case None => None
  }

  /** The image for a stripped value, resized to `width` by `height`. */
  function ResolveValue(value: string, width: nat, height: nat,
                        fetch: string -> Option<Bitmap>, fetchPage: string -> Page): (r: Option<Bitmap>)
    ensures r.Some? ==> ImageUrlFor(value, fetchPage).Some?
    ensures r.Some? ==> r.value.width == width && r.value.height == height
  {
    match ImageUrlFor(value, fetchPage)
    case None => None
    case Some(url) => DownloadDirectImage(url, width, height, fetch)
  }

  /**
   * The routing of one stripped value at a given size, as a function value
   * that the row loops apply to each cell.
   */
  function Router(width: nat, height: nat,
                  fetch: string -> Option<Bitmap>, fetchPage: string -> Page): string -> Option<Bitmap>
  {
    value => ResolveValue(value, width, height, fetch, fetchPage)
  }

  /**
   * One iteration of any of the three row loops, without its side effects:
   * a blank cell is skipped, otherwise the stripped value is routed.
   */
  function RowOutcome(cell: Cell, route: string -> Option<Bitmap>): (r: Outcome)
    ensures r.Skipped? <==> cell.Blank?
    ensures cell.Value? ==> (r.Resolved? <==> route(Strip(cell.text)).Some?)
    ensures r.Resolved? ==> r.image == route(Strip(cell.text)).value
  {
    match cell
    case Blank => Skipped
    case Value(text) =>
      match route(Strip(text))
      case Some(img) => Resolved(img)
      case None => Unresolved
  }

  /** Every image a routed row yields has the requested size. */
  lemma RoutedImageSized(cell: Cell, width: nat, height: nat,
                         fetch: string -> Option<Bitmap>, fetchPage: string -> Page)
    ensures RowOutcome(cell, Router(width, height, fetch, fetchPage)).Resolved? ==>
              RowOutcome(cell, Router(width, height, fetch, fetchPage)).image.width == width
              && RowOutcome(cell, Router(width, height, fetch, fetchPage)).image.height == height
  {
  }

  // ------------------------------------------------------------ lemmas

  /**
   * A direct value is downloaded verbatim and the scraper is never
   * consulted: the result is the same for every page oracle.
   */
  lemma DirectValueDownloadedVerbatim(value: string, width: nat, height: nat,
                                      fetch: string -> Option<Bitmap>,
                                      fetchPage1: string -> Page, fetchPage2: string -> Page)
    requires IsDirectImage(value)
    ensures ResolveValue(value, width, height, fetch, fetchPage1) == DownloadDirectImage(value, width, height, fetch)
    ensures ResolveValue(value, width, height, fetch, fetchPage1) == ResolveValue(value, width, height, fetch, fetchPage2)
  {
  }

  /**
   * Any other value downloads only when the scraper found a URL, and then
   * exactly that URL.
   */
  lemma ScrapedValueDownloadsScrapedUrl(value: string, width: nat, height: nat,
                                        fetch: string -> Option<Bitmap>, fetchPage: string -> Page)
    requires !IsDirectImage(value)
    ensures TryScrapeFallback(value, fetchPage).None? ==> ResolveValue(value, width, height, fetch, fetchPage).None?
    ensures TryScrapeFallback(value, fetchPage).Some? ==>
              ResolveValue(value, width, height, fetch, fetchPage)
              == DownloadDirectImage(TryScrapeFallback(value, fetchPage).value, width, height, fetch)
  {
  }

  /**
   * The image oracle is consulted at one URL only: two oracles that agree
   * there give the same result.
   */
  lemma ResolveReadsOnlyChosenUrl(value: string, width: nat, height: nat,
                                  fetch1: string -> Option<Bitmap>, fetch2: string -> Option<Bitmap>,
                                  fetchPage: string -> Page)
    requires ImageUrlFor(value, fetchPage).Some? ==>
               fetch1(ImageUrlFor(value, fetchPage).value) == fetch2(ImageUrlFor(value, fetchPage).value)
    ensures ResolveValue(value, width, height, fetch1, fetchPage) == ResolveValue(value, width, height, fetch2, fetchPage)
  {
  }

  /** A page URL on a blocked site that is not itself an image link never yields an image. */
  lemma BlockedPageNeverResolved(value: string, width: nat, height: nat,
                                 fetch: string -> Option<Bitmap>, fetchPage: string -> Page)
    requires !IsDirectImage(value) && IsBlocked(value)
    ensures ResolveValue(value, width, height, fetch, fetchPage).None?
  {
  }

  /**
   * The routing depends on the stripped value only: surrounding whitespace
   * in the cell changes nothing.
   */
  lemma SurroundingSpaceIgnored(text: string, width: nat, height: nat,
                                fetch: string -> Option<Bitmap>, fetchPage: string -> Page)
    ensures RowOutcome(Value(text), Router(width, height, fetch, fetchPage))
            == RowOutcome(Value(Strip(text)), Router(width, height, fetch, fetchPage))
  {
    StripIdempotent(text);
  }

  // ------------------------------------------------ column-level sample

  /** `str(df[source_col].iloc[0])`, or `""` for an empty sheet; a missing value prints as `nan`. */
  function SampleValue(cells: seq<Cell>): string
  {
    if |cells| == 0 then ""
    else match cells[0]
         case Blank => "nan"
         case Value(text) => text
  }

  /** `is_direct_images` (app.py line 150), which only chooses the message shown. */
  predicate ColumnLooksDirect(cells: seq<Cell>)
  {
    LooksLikeImageSample(SampleValue(cells))
  }

  /**
   * A first row whose stripped value is a direct link, unless only by a
   * `.gif` or `.webp` ending, makes the column look direct, even though the
   * sample rule reads the value before stripping.
   */
  lemma DirectFirstRowDetected(cells: seq<Cell>)
    requires |cells| > 0 && cells[0].Value?
    requires IsDirectImage(Strip(cells[0].text))
    requires (!EndsWith(Lower(Strip(cells[0].text)), ".gif") && !EndsWith(Lower(Strip(cells[0].text)), ".webp"))
             || Contains(Strip(cells[0].text), EtsyCdn) || Contains(Strip(cells[0].text), NextCdn)
    ensures ColumnLooksDirect(cells)
  {
    DirectImpliesSample(Strip(cells[0].text));
    StrippedSampleDetected(cells[0].text);
  }

  /** The sample rule accepts a value when it accepts the value's stripped form. */
  lemma StrippedSampleDetected(t: string)
    requires LooksLikeImageSample(Strip(t))
    ensures LooksLikeImageSample(t)
  {
    var v := Strip(t);
    var a := LeadingSpace(t);
    assert v == t[a..a + |v|];
    LowerSlice(t, a, a + |v|);
    assert Lower(t)[a..a + |v|] == Lower(v);
    ContainsAnyOfSlice(Lower(t), a, a + |v|, SampleTokens);
  }
}
