/**
 * `try_scrape_fallback` (app.py lines 60-85) as a pure selector. The page
 * request is an oracle `fetchPage` that yields either `Raised` (the request
 * or the parse raised, which the bare `except` swallows) or the response's
 * status code and the page's `<meta>` tags in document order, each as its
 * optional `property` and `content` attributes.
 */
module Scrape {
  import opened Wrappers
  import opened Text

  datatype Meta = Meta(property: Option<string>, content: Option<string>)

  datatype Page = Raised | Response(status: int, metas: seq<Meta>)

  /** Sites never requested (app.py line 65). */
  const EtsyDomain: string := "etsy.com"
  const NextDomain: string := "next.co.uk"

  /** The meta properties tried, in this order (app.py line 78). */
  const ImageProperties: seq<string> := ["og:image", "twitter:image"]

  const HttpOk: int := 200

  predicate IsBlocked(url: string)
  {
    Contains(url, EtsyDomain) || Contains(url, NextDomain)
  }

  /** `soup.find("meta", property=prop)`: the index of the first tag whose property is `prop`. */
  function FindMeta(metas: seq<Meta>, prop: string): (r: Option<nat>)
    ensures r.Some? ==> r.value < |metas| && metas[r.value].property == Some(prop)
    ensures r.Some? ==> forall j :: 0 <= j < r.value ==> metas[j].property != Some(prop)
    ensures r.None? ==> forall j :: 0 <= j < |metas| ==> metas[j].property != Some(prop)
  {
    if metas == [] then None
    else if metas[0].property == Some(prop) then Some(0)
    else match FindMeta(metas[1..], prop)
         case None => None
         case Some(k) => Some(k + 1)
  }

  /** `content` counts only when present and non-empty (`meta.get("content")` is truthy). */
  predicate HasContent(m: Meta)
  {
    m.content.Some? && m.content.value != ""
  }

  /**
   * The first tag for `prop`, and only that one, is examined: its content
   * is the answer when it has one, even if a later tag with the same
   * property also has content.
   */
  function MetaContent(metas: seq<Meta>, prop: string): (r: Option<string>)
    ensures r.Some? ==> r.value != ""
    ensures r.Some? <==> exists k :: 0 <= k < |metas| && FirstWithProperty(metas, prop, k) && HasContent(metas[k])
    ensures forall k :: (0 <= k < |metas| && FirstWithProperty(metas, prop, k) && HasContent(metas[k]))
                          ==> r == metas[k].content
  {
    match FindMeta(metas, prop)
    case None => None
    case Some(k) => if HasContent(metas[k]) then metas[k].content else None
  }

  /** Tag `k` is the first tag whose property is `prop`. */
  predicate FirstWithProperty(metas: seq<Meta>, prop: string, k: nat)
    requires k < |metas|
  {
    metas[k].property == Some(prop)
    && forall j :: 0 <= j < k ==> metas[j].property != Some(prop)
  }

  /** The loop over the properties: the first one whose first tag has content wins. */
  function SelectImage(metas: seq<Meta>, props: seq<string>): (r: Option<string>)
    ensures r.Some? ==> r.value != ""
  {
    if props == [] then None
    else match MetaContent(metas, props[0])
         case Some(c) => Some(c)
         case None => SelectImage(metas, props[1..])
  }

  /** The whole of `try_scrape_fallback(url)`. */
  function TryScrapeFallback(url: string, fetchPage: string -> Page): (r: Option<string>)
    ensures r.Some? ==> r.value != ""
    ensures r.Some? ==> !IsBlocked(url) && fetchPage(url).Response? && fetchPage(url).status == HttpOk
  {
    if IsBlocked(url) then None
    else match fetchPage(url)
         case Raised => None
         case Response(status, metas) =>
           if status == HttpOk then SelectImage(metas, ImageProperties) else None
  }

  // ------------------------------------------------------------ lemmas

  /** A blocked URL gives `None` whatever the oracle would answer: no page is requested. */
  lemma BlockedNeverFetched(url: string, fetch1: string -> Page, fetch2: string -> Page)
    requires IsBlocked(url)
    ensures TryScrapeFallback(url, fetch1) == None
    ensures TryScrapeFallback(url, fetch1) == TryScrapeFallback(url, fetch2)
  {
  }

  /** A request that raised, or any status but 200, gives `None`. */
  lemma FailedRequestGivesNone(url: string, fetchPage: string -> Page)
    requires fetchPage(url).Raised? || fetchPage(url).status != HttpOk
    ensures TryScrapeFallback(url, fetchPage) == None
  {
  }

  /**
   * The selection returns the content of the first property, in list
   * order, whose first tag has content: property `k` qualifies and none
   * before it does.
   */
  lemma {:induction false} SelectImageFirstQualifying(metas: seq<Meta>, props: seq<string>, c: string)
    ensures SelectImage(metas, props) == Some(c) <==>
      exists k :: 0 <= k < |props| && MetaContent(metas, props[k]) == Some(c)
                  && forall j :: 0 <= j < k ==> MetaContent(metas, props[j]).None?
  {
    if props != [] {
      SelectImageFirstQualifying(metas, props[1..], c);
      if SelectImage(metas, props) == Some(c) && MetaContent(metas, props[0]).None? {
        var k :| 0 <= k < |props[1..]| && MetaContent(metas, props[1..][k]) == Some(c)
                 && forall j :: 0 <= j < k ==> MetaContent(metas, props[1..][j]).None?;
        assert MetaContent(metas, props[k + 1]) == Some(c);
        assert forall j :: 0 <= j < k + 1 ==> MetaContent(metas, props[j]).None? by {
          forall j | 0 <= j < k + 1 ensures MetaContent(metas, props[j]).None? {
            if j > 0 { assert props[j] == props[1..][j - 1]; }
          }
        }
      }
      if exists k :: 0 <= k < |props| && MetaContent(metas, props[k]) == Some(c)
                     && forall j :: 0 <= j < k ==> MetaContent(metas, props[j]).None? {
        var k :| 0 <= k < |props| && MetaContent(metas, props[k]) == Some(c)
                 && forall j :: 0 <= j < k ==> MetaContent(metas, props[j]).None?;
        if k > 0 {
          assert MetaContent(metas, props[1..][k - 1]) == Some(c);
          assert forall j :: 0 <= j < k - 1 ==> MetaContent(metas, props[1..][j]).None? by {
            forall j | 0 <= j < k - 1 ensures MetaContent(metas, props[1..][j]).None? {
              assert props[1..][j] == props[j + 1];
            }
          }
        }
      }
    }
  }

  /** The selection is `None` exactly when no property's first tag has content. */
  lemma {:induction false} SelectImageNone(metas: seq<Meta>, props: seq<string>)
    ensures SelectImage(metas, props).None? <==>
      forall k :: 0 <= k < |props| ==> MetaContent(metas, props[k]).None?
  {
    if props != [] {
      SelectImageNone(metas, props[1..]);
      assert forall k :: 1 <= k < |props| ==> props[k] == props[1..][k - 1];
    }
  }

  /** On a 200 page, `og:image` wins whenever its first tag has content. */
  lemma OpenGraphPreferred(url: string, fetchPage: string -> Page, c: string)
    requires !IsBlocked(url)
    requires fetchPage(url).Response? && fetchPage(url).status == HttpOk
    requires MetaContent(fetchPage(url).metas, "og:image") == Some(c)
    ensures TryScrapeFallback(url, fetchPage) == Some(c)
  {
  }

  /** Otherwise the answer is whatever the first `twitter:image` tag offers. */
  lemma TwitterFallback(url: string, fetchPage: string -> Page)
    requires !IsBlocked(url)
    requires fetchPage(url).Response? && fetchPage(url).status == HttpOk
    requires MetaContent(fetchPage(url).metas, "og:image").None?
    ensures TryScrapeFallback(url, fetchPage) == MetaContent(fetchPage(url).metas, "twitter:image")
  {
    var metas := fetchPage(url).metas;
    var rest := ImageProperties[1..];
    assert rest == ["twitter:image"] && rest[1..] == [];
    assert SelectImage(metas, ImageProperties) == SelectImage(metas, rest);
    assert SelectImage(metas, rest[1..]) == None;
  }

  /** An empty first `og:image` tag hides a later `og:image` tag that has content. */
  lemma OnlyFirstTagExamined()
    ensures MetaContent([Meta(Some("og:image"), Some("")),
                         Meta(Some("og:image"), Some("https://example.com/a.jpg"))], "og:image") == None
  {
    var metas := [Meta(Some("og:image"), Some("")),
                  Meta(Some("og:image"), Some("https://example.com/a.jpg"))];
    assert FindMeta(metas, "og:image") == Some(0);
  }
}
