# Image Automator (inspiration-gatherer, app.py), modelled in Dafny

This project models the decision core of the Streamlit "Excel & PPT Image
Automator". The tool reads one column of a spreadsheet. Each non-blank value
is either a direct image link, which is downloaded as it stands, or a product
page, whose `og:image` or `twitter:image` meta tag is scraped. Each image is
then resized and placed:

- "Generate Excel" anchors a 179 x 135 thumbnail in the output column on the
  row's Excel row and records the rows that failed.
- "Generate PowerPoint" adds one 800 x 600 picture slide per row that yields an image.
- "Test First 3 URLs" counts the successes among the first three rows.

The network and the image decoder are oracles passed as parameters:

- `fetch: string -> Option<Bitmap>` stands for `requests.get`,
  `raise_for_status` and the whole decode of the image together. The decode
  includes `Image.open` and the pixel decoding PIL defers to `convert` or
  `resize`. `None` means one of these steps raised inside the `try`.
- `fetchPage: string -> Page` gives either `Raised` or a response with its
  status code and its `<meta>` tags in document order.

"No request is made" and "the scraper is not consulted" are stated as
independence of the result from the corresponding oracle.

Modules (one file each):

- `Wrappers` (`wrappers.dfy`): the `Option` type.
- `Text` (`text.dfy`): the Python string operations the core uses.
  - `lower` and `upper`, on ASCII letters only.
  - `strip`, with exactly the Unicode whitespace that `str.isspace` accepts.
  - `endswith`, the `in` substring test, and `str` of a natural number.
- `Classify` (`classify.dfy`): the per-row direct-image rule and the
  column-level sample rule.
- `Imaging` (`imaging.dfy`): `download_direct_image`.
- `Scrape` (`scrape.dfy`): `try_scrape_fallback` as a pure selector over the
  page oracle.
- `Routing` (`routing.dfy`): what one cell becomes (skipped, resolved to an
  image, or unresolved).
- `Report` (`report.dfy`): the Excel loop's report as functions of the row
  outcomes:
  - the counter and the failed rows;
  - the anchors and the row heights;
  - the status line.
- `Batch` (`batch.dfy`): the three row loops as methods with loop
  invariants. The worksheet and the slide deck are classes updated in place.

## Model

| member | source | states |
|---|---|---|
| Text.Strip | app.py:165 | `str.strip()`: the result is the slice of the value found after its leading whitespace. It neither starts nor ends with whitespace, and only whitespace follows it |
| Text.IsSpace | app.py:165 | exactly the characters `str.isspace` accepts, which `strip()` removes |
| Text.StripIdempotent | app.py:165 | stripping a stripped value changes nothing |
| Text.StripSplits | app.py:207 | the value is the leading whitespace, then the stripped value, then the trailing whitespace |
| Text.Lower | app.py:171 | `str.lower()` on ASCII letters: the result has the length of the value. LowerCharacterised states which characters change and to what |
| Text.LowerCharacterised | app.py:171 | every upper-case letter becomes its lower-case partner, 32 code points on, so none is left. Every other character is kept |
| Text.LowerSlice | app.py:150 | lower-casing a slice is slicing the lower-cased value |
| Text.Upper | app.py:146 | `.upper()` of the output column: no lower-case letter is left, every other character is kept, and the result lower-cases like the input |
| Text.EndsWithAny | app.py:171 | `endswith` of a tuple: true iff the value ends with one of the suffixes |
| Text.ContainsAny | app.py:150 | `any(t in s for t in tokens)`: true iff one of the tokens occurs in the value |
| Text.EndsWith | app.py:171 | `str.endswith(suffix)`: the suffix is the tail of the value. The partner lemma EndsWithContains states that a suffix also occurs in the value |
| Text.Contains | app.py:171 | the `in` substring test: the token occurs at some position. It is used by ContainsLower, ContainsOfSlice and AbsentCharNotContained |
| Text.ContainsLower | app.py:150 | an all-lower-case token in the value also occurs in the lower-cased value |
| Text.ContainsOfSlice | app.py:149-150 | a token occurring in a slice of a value occurs in the value |
| Text.DecimalString | app.py:227 | `str(n)`: at least one character, all of them digits, and no leading zero except for 0 |
| Text.DecimalRoundTrip | app.py:227 | `str(i+2)` reads back as `i+2` |
| Text.DecimalInjective | app.py:227 | distinct row numbers print differently |
| Classify.IsDirectImage | app.py:171 | the per-row rule: the lower-cased value ends in an image extension, or the value contains a CDN name. DirectImageIff spells it out |
| Classify.LooksLikeImageSample | app.py:150 | the column rule: some sample token occurs in the lower-cased value. SampleTestIff spells it out |
| Classify.DirectImageIff | app.py:171 | the per-row rule holds iff one of these holds: the lower-cased value ends in .png, .jpg, .jpeg, .gif or .webp, or the value as written contains `etsystatic` or `xcdn` |
| Classify.ExtensionTestIgnoresCase | app.py:213 | for values without a CDN name, values equal after lower-casing are classified alike |
| Classify.SampleTestIff | app.py:150 | the sample rule holds iff the lower-cased sample contains .jpg, .png, .jpeg, etsystatic or xcdn |
| Classify.DirectImpliesSample | app.py:150 | every direct value passes the sample rule, unless its only reason to be direct is a .gif or .webp ending. A CDN link ending in .gif passes |
| Classify.GifIsDirectButNotSample | app.py:150 | `a.gif` passes the per-row rule and fails the sample rule |
| Classify.UpperCdnIsSampleButNotDirect | app.py:270 | `XCDN` passes the sample rule, which lower-cases first. It fails the per-row rule, which tests the CDN names case-sensitively |
| Routing.SampleValue | app.py:149 | `str(df[source_col].iloc[0])` unstripped, `nan` for a missing value, or `""` for an empty sheet |
| Routing.ColumnLooksDirect | app.py:150 | `is_direct_images`: the sample rule applied to the sample value |
| Routing.DirectFirstRowDetected | app.py:149-150 | a first value that the per-row rule calls direct after stripping makes the column look direct, although the sample is not stripped. The exception is a value direct only by a .gif or .webp ending |
| Routing.StrippedSampleDetected | app.py:149-150 | the sample rule accepts a value whenever it accepts the value's stripped form |
| Imaging.DownloadDirectImage | app.py:31-58 | the download yields an image iff the fetch succeeds. The image is exactly width x height, is not in mode RGBA, P or LA, and shows what was fetched. Other alpha and palette modes such as PA, RGBa and La pass through unconverted, as in PIL |
| Imaging.Flatten | app.py:48-49 | the modes of the tuple RGBA, P and LA become mode RGB, at the same size and with the same subject. `subject` does not record the alpha channel that `convert("RGB")` drops, and that loss is not modelled. Every other mode is unchanged |
| Imaging.ConvertedToRgb | app.py:48 | the mode is RGBA, P or LA. Every other mode, PA, RGBa and La included, is passed on unconverted |
| Imaging.Resize | app.py:51 | the result has the requested size, and its mode and content are kept |
| Imaging.DownloadReadsOnlyItsUrl | app.py:43 | only the given URL is requested |
| Imaging.OpaqueModeKept | app.py:48-51 | an image in any mode outside the tuple RGBA, P and LA is resized without conversion |
| Scrape.IsBlocked | app.py:65 | the URL contains `etsy.com` or `next.co.uk`. BlockedNeverFetched states its effect |
| Scrape.HasContent | app.py:80 | `meta.get("content")` is truthy: the attribute is present and non-empty. MetaContent states its use |
| Scrape.FindMeta | app.py:79 | `soup.find` returns the index of the first tag with the property, and `None` iff there is none |
| Scrape.MetaContent | app.py:79-81 | the content of the first tag with the property, when it is non-empty. Otherwise `None`, even if a later tag for the same property has content |
| Scrape.TryScrapeFallback | app.py:60-85 | any URL it returns is non-empty, and it returns one only for a non-blocked URL whose request gave status 200 |
| Scrape.BlockedNeverFetched | app.py:65-66 | a URL containing etsy.com or next.co.uk gives `None` for every page oracle, so no request is made |
| Scrape.FailedRequestGivesNone | app.py:72-74 | a request that raised, or any status other than 200, gives `None` |
| Scrape.SelectImage | app.py:78-81 | the loop over the properties: any content it returns is non-empty. SelectImageFirstQualifying and SelectImageNone characterise it |
| Scrape.SelectImageFirstQualifying | app.py:78-81 | the selection is content `c` iff some property's first tag yields `c` and no earlier property's first tag yields anything |
| Scrape.SelectImageNone | app.py:78-85 | the selection is `None` iff no property's first tag has content |
| Scrape.OpenGraphPreferred | app.py:78-81 | on a 200 page, `og:image` wins whenever its first tag has content |
| Scrape.TwitterFallback | app.py:78-81 | otherwise the answer is the first `twitter:image` tag's content, if it has any |
| Scrape.OnlyFirstTagExamined | app.py:79-80 | an empty first `og:image` tag hides a later `og:image` tag that has content |
| Routing.ImageUrlFor | app.py:213-218 | a direct value is its own image URL. Any other value's URL is what the scraper returns |
| Routing.ResolveValue | app.py:210-219 | an image is produced only when there is an image URL, and it has the requested size |
| Routing.RowOutcome | app.py:206-221 | a row is skipped iff its cell is blank. A non-blank row resolves iff routing the stripped value yields an image, and then to that image |
| Routing.DirectValueDownloadedVerbatim | app.py:213-214 | a direct value is downloaded verbatim, with the same result for every page oracle, so the scraper is not consulted |
| Routing.ScrapedValueDownloadsScrapedUrl | app.py:216-219 | a non-direct value yields nothing when the scraper finds nothing. Otherwise it yields the download of exactly the scraped URL |
| Routing.ResolveReadsOnlyChosenUrl | app.py:210-219 | image oracles that agree at the chosen URL give the same result |
| Routing.BlockedPageNeverResolved | app.py:65-66 | a non-direct value on etsy.com or next.co.uk never yields an image |
| Routing.Router | app.py:210-219 | the routing of a stripped value at a given size, as a function applied to each row. RoutedImageSized states its size guarantee |
| Routing.RoutedImageSized | app.py:214 | a resolved row's image has the requested size |
| Routing.SurroundingSpaceIgnored | app.py:207 | whitespace around the cell value does not change the row's outcome |
| Report.Outcomes | app.py:202-231 | one outcome per row, and an outcome is Skipped iff its cell is blank |
| Report.OutcomesAt | app.py:202-231 | entry `i` of the outcomes is row `i`'s own outcome |
| Report.ExcelRow | app.py:227-230 | data row `i` is on Excel row `i+2`. RowsWhereBounds and RowsWhereExact state its range |
| Report.Anchor | app.py:227 | `f"{target_col_letter}{i+2}"`. PlacementsAnchored and AnchorsDistinct state its use |
| Report.SuccessCount | app.py:198-222 | `count`. SuccessCountStep, SuccessCountIsPlacedRows and ReportTotals state its properties |
| Report.FailedRows | app.py:199-230 | `failed`. FailedRowsCharacterised and FailedRowsOfCells state its properties |
| Report.Placements | app.py:227 | the `ws.add_image` calls in order. PlacementsAnchored states its properties |
| Report.RowHeights | app.py:228 | `ws.row_dimensions` after the loop. RowHeightsSet states its properties |
| Report.ExcelStatusFor | app.py:234-237 | it is the warning status iff `failed` is non-empty, and it carries the count, the total and the failed rows |
| Report.ReportTotals | app.py:198-230 | successes plus failures equal the processed rows, which number at most the rows. The count is at most the total |
| Report.ProcessedAreNonBlank | app.py:206 | the processed rows are exactly the non-blank cells |
| Report.SuccessCountIsPlacedRows | app.py:221-222 | the counter equals the number of rows that received an image |
| Report.RowsWhereBounds | app.py:230 | every listed row number lies between 2 and the number of rows plus 1 |
| Report.RowsWhereIncreasing | app.py:230 | row numbers are listed in strictly increasing order |
| Report.RowsWhereExact | app.py:227-230 | row `n` is listed iff data row `n-2` exists and has the requested outcome |
| Report.FailedRowsCharacterised | app.py:229-230 | `failed` is strictly increasing, and `n` is in it iff data row `n-2` was non-blank and got no image |
| Report.RowListedIffCell | app.py:206-230 | Excel row `n` is listed iff data row `n-2` holds a value whose routing gives an image (placed rows) or gives none (failed rows) |
| Report.FailedRowsOfCells | app.py:229-230 | `failed` holds exactly the Excel rows of the values whose routing gave no image |
| Report.PlacedRowsOfCells | app.py:221-228 | the placed rows are exactly the Excel rows of the values whose routing gave an image |
| Report.BlankRowIgnored | app.py:206 | a blank row is neither counted nor failed, and it changes neither the counter nor `failed` |
| Report.PlacementsAnchored | app.py:227 | there is one placement per resolved row, in row order, holding that row's image at anchor column + str(i+2) |
| Report.AnchorsDistinct | app.py:227 | no two placements share an anchor |
| Report.RowHeightsSet | app.py:228 | exactly the resolved rows get height 105, and every other row keeps its height |
| Report.WarningIffSomeRowFailed | app.py:234-237 | the warning is shown iff some non-blank row got no image |
| Report.OutcomesStep | app.py:202 | routing one more row appends that row's outcome |
| Report.SuccessCountStep | app.py:221-222 | the counter grows by one exactly for a resolved row |
| Report.ReportStep | app.py:221-230 | one row extends `failed`, the placements and the row heights by that row's contribution only |
| Batch.Worksheet.AddImage | app.py:227 | appends one placement and leaves the row heights alone |
| Batch.Worksheet.SetRowHeight | app.py:228 | sets one row height and leaves the images alone |
| Batch.Deck.AddSlide | app.py:279-286 | appends one slide with its picture and caption |
| Batch.TestFirstUrls | app.py:157-188 | the count is the number of successes among the first min(3, rows) rows, so it is at most 3 |
| Batch.FillWorksheet | app.py:202-231 | after the loop the counter and `failed` hold the report of all rows. The worksheet holds its old images plus one placement per resolved row, and the row heights of those rows are 105 |
| Batch.GenerateExcel | app.py:190-237 | the output column is the upper-cased input of line 146. The loop runs as in FillWorksheet at 179 x 135, the status is chosen from `failed`, and count <= total |
| Batch.GeneratePowerPoint | app.py:257-293 | the deck holds one slide per resolved row, in row order, captioned "Source: " + value. The count equals the number of slides |
| Batch.Caption | app.py:286 | the caption text `f"Source: {value_str}"` |
| Batch.Slides | app.py:263-286 | the slides the loop adds, in row order. SlidesInRowOrder and SlidesMatchSuccesses state their properties |
| Batch.SlidesInRowOrder | app.py:277-286 | one slide per resolved row, in row order. Slide `k` holds the picture of the `k`-th resolved row and is captioned "Source: " + that row's stripped value |
| Batch.SlidesMatchSuccesses | app.py:277-278 | the number of slides equals the number of rows that resolved |
| Batch.SlidePicturesSized | app.py:271-275 | every slide picture is 800 x 600 |

## Left out

- The Streamlit UI is not modelled: uploading, the preview, the column picker, progress bars, spinners, `st.image` previews and download buttons. They only display or transfer data.
- The exact wording of status and error messages, and the truncation of values shown in them (`[:40]`, `[:50]`, `[:60]`), is not modelled. `ExcelStatus` keeps only the message's data.
- `requests` headers and timeouts, the HTTP client, the HTML parser and the image decoder are not modelled. They are folded into the two oracles.
- Imaging.Flatten: the model does not capture what `convert("RGB")` does to transparent pixels. It drops the alpha channel, and the abstract `subject` does not record one.
- `time.sleep(0.5)` is not modelled. It has no effect on the results.
- The `print` calls in `download_direct_image` (app.py:36, 53, 57) are not modelled. They have no effect on the results as long as standard output can encode the ✅ and ❌ characters. If standard output cannot encode them, every call raises out of `download_direct_image`. A download that succeeds raises at line 53, and then the handler's print at line 57 raises again. A download that fails raises at line 57. The button action stops. The model does not capture that.
- The oracles are functions, so a URL gets the same answer on every row and every button press. The program sends a new request each time, and a repeated request to the same URL can get a different answer, for example under rate limiting. The model does not capture that.
- The workbook and presentation file formats, `img.save(buf, format='PNG')`, the slide layout and the picture and text-box geometry (`Inches`) are not modelled. The worksheet keeps only anchors, images and row heights; a slide keeps only its picture and caption.
- The model does not capture `img.save(buf, format='PNG')` raising for a mode PNG cannot store (CMYK, F, LAB, HSV, YCbCr and the like). The save is outside any `try`, so on such an image the whole loop would stop. `OpaqueModeKept` states only that such a mode is passed on unconverted.
- `Text.Lower` and `Text.Upper` change only ASCII letters. Python's `str.lower` and `str.upper` also map other Unicode letters.
- `str()` of a cell value is not modelled. A cell is given directly as its text, or as `Blank` when pandas reads it as missing. A missing first value prints as `nan` for the sample rule.
- Row indices are assumed to be 0, 1, 2, ... in order, which holds for the default index of `pd.read_excel`.
- `progress.progress((i + 1) / total)` is not modelled.
- Resolving relative meta-tag URLs, JSON-LD and search-engine look-ups are not modelled. `try_scrape_fallback` in this version does none of them: it returns the tag's `content` as written.
