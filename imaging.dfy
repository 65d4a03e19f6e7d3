/**
 * `download_direct_image` (app.py lines 31-58): fetch an image URL, decode
 * it, flatten palette and alpha modes to RGB and resample it to a fixed
 * box. The HTTP request and the decoder are one oracle, `fetch`, which
 * yields the decoded bitmap or `None` when any step inside the `try`
 * raises: a connection error, a timeout, a non-success status, bytes that
 * are not an image, or pixel data that PIL only decodes (and finds corrupt
 * or truncated) later, in `convert` or `resize`.
 */
module Imaging {
  import opened Wrappers

  /** Thumbnail box for spreadsheet cells (app.py lines 28-29). */
  const TargetWidthPx: nat := 179
  const TargetHeightPx: nat := 135

  /** Box used for slide pictures (app.py lines 271 and 275). */
  const SlideWidthPx: nat := 800
  const SlideHeightPx: nat := 600

  /**
   * The PIL colour modes that matter here. `Other` stands for every other
   * PIL mode (PA, RGBa, La, F, I, YCbCr, ...); its name is never one of the
   * modes listed before it.
   */
  datatype Mode = RGB | RGBA | P | LA | L | CMYK | Other(name: string)

  /**
   * A decoded picture: its size, its colour mode and an abstract `subject`
   * standing for what it depicts, which resampling and conversion to RGB
   * keep. The alpha channel that `convert("RGB")` drops is not part of it.
   */
  datatype Bitmap = Bitmap(width: nat, height: nat, mode: Mode, subject: nat)

  /** The modes in the tuple `("RGBA", "P", "LA")`, converted to RGB before resizing. */
  predicate ConvertedToRgb(m: Mode)
  {
    m == RGBA || m == P || m == LA
  }

  /** `img.convert("RGB")` when the mode is RGBA, P or LA; otherwise unchanged. */
  function Flatten(b: Bitmap): (r: Bitmap)
    ensures !ConvertedToRgb(r.mode)
    ensures r.width == b.width && r.height == b.height && r.subject == b.subject
    ensures ConvertedToRgb(b.mode) ==> r == b.(mode := RGB)
    ensures !ConvertedToRgb(b.mode) ==> r == b
  {
    if ConvertedToRgb(b.mode) then b.(mode := RGB) else b
  }

  /** `img.resize((width, height), LANCZOS)`: exactly the requested box, aspect ratio ignored. */
  function Resize(b: Bitmap, width: nat, height: nat): (r: Bitmap)
    ensures r.width == width && r.height == height
    ensures r.mode == b.mode && r.subject == b.subject
  {
    Bitmap(width, height, b.mode, b.subject)
  }

  /** The whole of `download_direct_image(url, width, height)`. */
  function DownloadDirectImage(url: string, width: nat, height: nat,
                               fetch: string -> Option<Bitmap>): (r: Option<Bitmap>)
    ensures r.Some? <==> fetch(url).Some?
    ensures r.Some? ==> r.value.width == width && r.value.height == height
                        && !ConvertedToRgb(r.value.mode)
                        && r.value.subject == fetch(url).value.subject
  {
    match fetch(url)
    case None => None
    case Some(raw) => Some(Resize(Flatten(raw), width, height))
  }

  /** The download depends on the oracle only at the URL it is given. */
  lemma DownloadReadsOnlyItsUrl(url: string, width: nat, height: nat,
                                fetch1: string -> Option<Bitmap>, fetch2: string -> Option<Bitmap>)
    requires fetch1(url) == fetch2(url)
    ensures DownloadDirectImage(url, width, height, fetch1) == DownloadDirectImage(url, width, height, fetch2)
  {
  }

  /** A mode without alpha or palette (CMYK, L, ...) is passed through to the resized image. */
  lemma OpaqueModeKept(url: string, width: nat, height: nat, fetch: string -> Option<Bitmap>)
    requires fetch(url).Some? && !ConvertedToRgb(fetch(url).value.mode)
    ensures DownloadDirectImage(url, width, height, fetch) == Some(Resize(fetch(url).value, width, height))
  {
  }
}
