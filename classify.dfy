/**
 * The two rules app.py uses to decide whether a spreadsheet value is
 * already a link to an image file rather than a product page.
 */
module Classify {
  import opened Text

  /** The suffixes accepted, after lower-casing, by the per-row rule. */
  const ImageExtensions: seq<string> := [".png", ".jpg", ".jpeg", ".gif", ".webp"]

  /** Host-name fragments of the two image CDNs the per-row rule accepts. */
  const EtsyCdn: string := "etsystatic"
  const NextCdn: string := "xcdn"

  /** The tokens of the looser column-level rule applied to one sample value. */
  const SampleTokens: seq<string> := [".jpg", ".png", ".jpeg", "etsystatic", "xcdn"]

  /**
   * The per-row rule (app.py lines 171, 213 and 270): the lower-cased value
   * ends in an image extension, or the value itself (case-sensitively)
   * names one of the two CDNs.
   */
  predicate IsDirectImage(v: string)
  {
    EndsWithAny(Lower(v), ImageExtensions) || Contains(v, EtsyCdn) || Contains(v, NextCdn)
  }

  /**
   * The column-level rule (app.py line 150): one of the sample tokens occurs
   * anywhere in the lower-cased value. Looser in one way (a substring, not a
   * suffix; the CDN names in any case) and stricter in another (no `.gif`,
   * no `.webp`).
   */
  predicate LooksLikeImageSample(v: string)
  {
    ContainsAny(Lower(v), SampleTokens)
  }

  /** The five-suffix test written out, one alternative per suffix. */
  lemma ExtensionTestIff(l: string)
    ensures EndsWithAny(l, ImageExtensions) <==>
      EndsWith(l, ".png") || EndsWith(l, ".jpg") || EndsWith(l, ".jpeg")
      || EndsWith(l, ".gif") || EndsWith(l, ".webp")
  {
    var e0 := ImageExtensions;
    var e1 := [".jpg", ".jpeg", ".gif", ".webp"];
    var e2 := [".jpeg", ".gif", ".webp"];
    var e3 := [".gif", ".webp"];
    var e4 := [".webp"];
    assert e0[1..] == e1 && e1[1..] == e2 && e2[1..] == e3 && e3[1..] == e4 && e4[1..] == [];
    assert EndsWithAny(l, e0) == (EndsWith(l, ".png") || EndsWithAny(l, e1));
    assert EndsWithAny(l, e1) == (EndsWith(l, ".jpg") || EndsWithAny(l, e2));
    assert EndsWithAny(l, e2) == (EndsWith(l, ".jpeg") || EndsWithAny(l, e3));
    assert EndsWithAny(l, e3) == (EndsWith(l, ".gif") || EndsWithAny(l, e4));
    assert EndsWithAny(l, e4) == EndsWith(l, ".webp");
  }

  /** The per-row rule written out, one alternative per disjunct. */
  lemma DirectImageIff(v: string)
    ensures IsDirectImage(v) <==>
      EndsWith(Lower(v), ".png") || EndsWith(Lower(v), ".jpg") || EndsWith(Lower(v), ".jpeg")
      || EndsWith(Lower(v), ".gif") || EndsWith(Lower(v), ".webp")
      || Contains(v, "etsystatic") || Contains(v, "xcdn")
  {
    ExtensionTestIff(Lower(v));
  }

  /** The extension test ignores the case of the value. */
  lemma ExtensionTestIgnoresCase(v: string, w: string)
    requires Lower(v) == Lower(w)
    requires !Contains(v, EtsyCdn) && !Contains(v, NextCdn)
    requires !Contains(w, EtsyCdn) && !Contains(w, NextCdn)
    ensures IsDirectImage(v) <==> IsDirectImage(w)
  {
  }

  /** The five-token test written out, one alternative per token. */
  lemma SampleTestIff(l: string)
    ensures ContainsAny(l, SampleTokens) <==>
      Contains(l, ".jpg") || Contains(l, ".png") || Contains(l, ".jpeg")
      || Contains(l, "etsystatic") || Contains(l, "xcdn")
  {
    var t0 := SampleTokens;
    var t1 := [".png", ".jpeg", "etsystatic", "xcdn"];
    var t2 := [".jpeg", "etsystatic", "xcdn"];
    var t3 := ["etsystatic", "xcdn"];
    var t4 := ["xcdn"];
    assert t0[1..] == t1 && t1[1..] == t2 && t2[1..] == t3 && t3[1..] == t4 && t4[1..] == [];
    assert ContainsAny(l, t0) == (Contains(l, ".jpg") || ContainsAny(l, t1));
    assert ContainsAny(l, t1) == (Contains(l, ".png") || ContainsAny(l, t2));
    assert ContainsAny(l, t2) == (Contains(l, ".jpeg") || ContainsAny(l, t3));
    assert ContainsAny(l, t3) == (Contains(l, "etsystatic") || ContainsAny(l, t4));
    assert ContainsAny(l, t4) == Contains(l, "xcdn");
  }

  /** On an already lower-cased value, each per-row alternative but two implies a sample token. */
  lemma SampleFromAlternatives(l: string)
    requires EndsWith(l, ".png") || EndsWith(l, ".jpg") || EndsWith(l, ".jpeg")
      || Contains(l, "etsystatic") || Contains(l, "xcdn")
    ensures ContainsAny(l, SampleTokens)
  {
    SampleTestIff(l);
    if EndsWith(l, ".png") {
      EndsWithContains(l, ".png");
    } else if EndsWith(l, ".jpg") {
      EndsWithContains(l, ".jpg");
    } else if EndsWith(l, ".jpeg") {
      EndsWithContains(l, ".jpeg");
    }
  }

  /**
   * Every direct value also passes the column-level rule, except one whose
   * only reason to be direct is a `.gif` or `.webp` ending.
   */
  lemma DirectImpliesSample(v: string)
    requires IsDirectImage(v)
    requires (!EndsWith(Lower(v), ".gif") && !EndsWith(Lower(v), ".webp"))
             || Contains(v, EtsyCdn) || Contains(v, NextCdn)
    ensures LooksLikeImageSample(v)
  {
    DirectImageIff(v);
    SampleFromDirectAlternatives(v);
  }

  lemma SampleFromDirectAlternatives(v: string)
    requires EndsWith(Lower(v), ".png") || EndsWith(Lower(v), ".jpg") || EndsWith(Lower(v), ".jpeg")
      || Contains(v, "etsystatic") || Contains(v, "xcdn")
    ensures LooksLikeImageSample(v)
  {
    if Contains(v, "etsystatic") {
      ContainsLower(v, "etsystatic");
    } else if Contains(v, "xcdn") {
      ContainsLower(v, "xcdn");
    }
    SampleFromAlternatives(Lower(v));
  }

  /** A `.gif` link is direct for the per-row rule but not a sample match. */
  lemma GifIsDirectButNotSample()
    ensures IsDirectImage("a.gif")
    ensures !LooksLikeImageSample("a.gif")
  {
    var v := "a.gif";
    LowerOfLowercase(v);
    ExtensionTestIff(v);
    assert EndsWith(v, ".gif");
    NoSampleTokenInGif();
  }

  lemma NoSampleTokenInGif()
    ensures !ContainsAny("a.gif", SampleTokens)
  {
    var v := "a.gif";
    SampleTestIff(v);
    AbsentCharNotContained(v, ".jpg", 1);
    AbsentCharNotContained(v, ".png", 1);
    AbsentCharNotContained(v, ".jpeg", 1);
    AbsentCharNotContained(v, "etsystatic", 0);
    AbsentCharNotContained(v, "xcdn", 0);
  }

  /**
   * An upper-case CDN name passes the column-level rule (which lower-cases
   * first) but not the per-row rule (which tests the CDN names as written).
   */
  lemma UpperCdnIsSampleButNotDirect()
    ensures LooksLikeImageSample("XCDN")
    ensures !IsDirectImage("XCDN")
  {
    UpperCdnIsSample();
    UpperCdnIsNotDirect();
  }

  lemma UpperCdnIsSample()
    ensures LooksLikeImageSample("XCDN")
  {
    var l := Lower("XCDN");
    assert l == "xcdn";
    SampleTestIff(l);
    assert OccursAt(l, "xcdn", 0);
  }

  lemma UpperCdnIsNotDirect()
    ensures !IsDirectImage("XCDN")
  {
    var v := "XCDN";
    var l := Lower(v);
    assert l == "xcdn";
    NoDotNoExtension(l);
    AbsentCharNotContained(v, "etsystatic", 0);
    AbsentCharNotContained(v, "xcdn", 0);
  }

  /** A value without a dot ends in none of the image extensions. */
  lemma NoDotNoExtension(l: string)
    requires forall i :: 0 <= i < |l| ==> l[i] != '.'
    ensures !EndsWithAny(l, ImageExtensions)
  {
    NoDotNoSuffix(l, ".png");
    NoDotNoSuffix(l, ".jpg");
    NoDotNoSuffix(l, ".jpeg");
    NoDotNoSuffix(l, ".gif");
    NoDotNoSuffix(l, ".webp");
    ExtensionTestIff(l);
  }

  lemma NoDotNoSuffix(l: string, e: string)
    requires forall i :: 0 <= i < |l| ==> l[i] != '.'
    requires |e| > 0 && e[0] == '.'
    ensures !EndsWith(l, e)
  {
  }
}
