/**
 * The URL feature extractor: it turns a URL, and the page fetched for it
 * when the fetch succeeded, into the eight features the classifier was
 * trained on, in this order:
 *
 *   LineOfCode, LargestLineLength, URLLength, NoOfImage, NoOfExternalRef,
 *   SpecialCharRatioURL, LetterRatioInURL, DomainLength.
 *
 * The HTTP fetch and the HTML parse are not modelled: their outcome is the
 * `page` argument, `None` when the request raised, otherwise the raw body,
 * the number of `<img>` elements and the `href` values of the `<a>`
 * elements that have one, in document order.
 */
module FeatureExtractor {
  import opened Wrappers
  import opened Lines
  import opened CharClasses
  import opened UrlSplit

  const HttpPrefix: string := "http://"
  const HttpsPrefix: string := "https://"

  /** The case-sensitive prefix test the extractor makes before fetching. */
  predicate HasHttpScheme(url: string) {
    (|url| >= 7 && url[..7] == HttpPrefix) || (|url| >= 8 && url[..8] == HttpsPrefix)
  }

  /**
   * The URL the extractor works with: unchanged when it already starts with
   * "http://" or "https://", otherwise with "https://" put in front.
   */
  function Normalize(url: string): (r: string)
    ensures HasHttpScheme(r)
    ensures r == url <==> HasHttpScheme(url)
    ensures r == url || r == HttpsPrefix + url
  {
    if HasHttpScheme(url) then url else HttpsPrefix + url
  }

  /** Normalizing twice changes nothing more than normalizing once. */
  lemma NormalizeIdempotent(url: string)
    ensures Normalize(Normalize(url)) == Normalize(url)
  {
  }

  /** A page that was fetched and parsed, reduced to what the extractor reads of it. */
  datatype Page = Page(body: seq<Byte>, imageCount: nat, hrefs: seq<string>)

  datatype Features = Features(
    lineOfCode: nat,
    largestLineLength: nat,
    urlLength: nat,
    noOfImage: nat,
    noOfExternalRef: nat,
    specialCharRatio: real,
    letterRatio: real,
    domainLength: nat)

  /** The features as the row the classifier is given, in the trained order. */
  function ToVector(f: Features): (v: seq<real>)
    ensures |v| == 8
  {
    [f.lineOfCode as real, f.largestLineLength as real, f.urlLength as real,
     f.noOfImage as real, f.noOfExternalRef as real,
     f.specialCharRatio, f.letterRatio, f.domainLength as real]
  }

  /**
   * The list comprehension over the anchors' hrefs, with the URL parser as
   * the parameter `netloc`: the hrefs whose netloc differs from `host`, in
   * order, or the error of the first href the parser rejects. Taking the
   * parser as a parameter keeps the facts below independent of how a netloc
   * is found.
   */
  function FilterExternal(hrefs: seq<string>, host: string, netloc: string -> Result<string, SplitError>)
    : (r: Result<seq<string>, SplitError>)
    ensures r.Success? ==> |r.value| <= |hrefs|
  {
    if hrefs == [] then Success([])
    else
      match netloc(hrefs[0])
      case Failure(e) => Failure(e)
      case Success(n) =>
        match FilterExternal(hrefs[1..], host, netloc)
        case Failure(e) => Failure(e)
        case Success(rest) =>
          Success(if n != host then [hrefs[0]] + rest else rest)
  }

  /** The external references of a page whose own netloc is `host`. */
  function ExternalRefs(hrefs: seq<string>, host: string): (r: Result<seq<string>, SplitError>)
    ensures r.Success? ==> |r.value| <= |hrefs|
  {
    FilterExternal(hrefs, host, Netloc)
  }

  /** Collecting fails exactly when the parser rejects some href. */
  lemma {:induction false} FilterExternalFailure(hrefs: seq<string>, host: string, netloc: string -> Result<string, SplitError>)
    ensures FilterExternal(hrefs, host, netloc).Failure? <==> exists i :: 0 <= i < |hrefs| && netloc(hrefs[i]).Failure?
    decreases |hrefs|
  {
    if hrefs != [] {
      FilterExternalFailure(hrefs[1..], host, netloc);
      if exists i :: 0 <= i < |hrefs| - 1 && netloc(hrefs[1..][i]).Failure? {
        var i :| 0 <= i < |hrefs| - 1 && netloc(hrefs[1..][i]).Failure?;
        assert netloc(hrefs[i + 1]).Failure?;
      }
      if exists i :: 0 <= i < |hrefs| && netloc(hrefs[i]).Failure? {
        var i :| 0 <= i < |hrefs| && netloc(hrefs[i]).Failure?;
        if i > 0 {
          assert netloc(hrefs[1..][i - 1]).Failure?;
        }
      }
    }
  }

  /**
   * When collecting succeeds, an href is among the external references
   * exactly when its netloc is not `host`.
   */
  lemma {:induction false} FilterExternalMembers(hrefs: seq<string>, host: string, netloc: string -> Result<string, SplitError>)
    requires FilterExternal(hrefs, host, netloc).Success?
    ensures forall h :: h in FilterExternal(hrefs, host, netloc).value <==> h in hrefs && netloc(h) != Success(host)
    decreases |hrefs|
  {
    if hrefs != [] {
      FilterExternalMembers(hrefs[1..], host, netloc);
      assert hrefs == [hrefs[0]] + hrefs[1..];
    }
  }

  /** Collecting over one href put in front of others: that href is kept or dropped, then the others are collected. */
  lemma FilterExternalCons(h: string, t: seq<string>, host: string, netloc: string -> Result<string, SplitError>)
    ensures FilterExternal([h] + t, host, netloc).Success? <==>
              netloc(h).Success? && FilterExternal(t, host, netloc).Success?
    ensures FilterExternal([h] + t, host, netloc).Success? ==>
              FilterExternal([h] + t, host, netloc).value ==
                (if netloc(h).value != host then [h] else []) + FilterExternal(t, host, netloc).value
  {
    assert ([h] + t)[0] == h && ([h] + t)[1..] == t;
  }

  /** The external references of two lists of hrefs together are those of each, one after the other. */
  lemma {:induction false} FilterExternalAppend(a: seq<string>, b: seq<string>, host: string, netloc: string -> Result<string, SplitError>)
    requires FilterExternal(a, host, netloc).Success? && FilterExternal(b, host, netloc).Success?
    ensures FilterExternal(a + b, host, netloc)
            == Success(FilterExternal(a, host, netloc).value + FilterExternal(b, host, netloc).value)
    decreases |a|
  {
    var rb := FilterExternal(b, host, netloc).value;
    if a == [] {
      assert a + b == b;
      assert [] + rb == rb;
    } else {
      var h, t := a[0], a[1..];
      assert a == [h] + t;
      assert a + b == [h] + (t + b);
      FilterExternalCons(h, t, host, netloc);
      FilterExternalAppend(t, b, host, netloc);
      FilterExternalCons(h, t + b, host, netloc);
      var keep := if netloc(h).value != host then [h] else [];
      var rt := FilterExternal(t, host, netloc).value;
      assert keep + rt + rb == keep + (rt + rb);
    }
  }

  /**
   * The eight features, or the error `urlparse` raises on the URL or on an
   * href. The URL length is that of the normalized URL, so at least seven;
   * the page features are zero when nothing was fetched, and the external
   * reference count never exceeds the number of hrefs.
   */
  function Extract(url: string, page: Option<Page>): (r: Result<Features, SplitError>)
    ensures r.Success? ==> r.value.urlLength == |Normalize(url)| >= 7
    ensures r.Success? && page.None? ==>
              r.value.lineOfCode == 0 && r.value.largestLineLength == 0
              && r.value.noOfImage == 0 && r.value.noOfExternalRef == 0
    ensures r.Success? && page.Some? ==> r.value.noOfExternalRef <= |page.value.hrefs|
  {
    var u := Normalize(url);
    var lines := if page.Some? then SplitLines(page.value.body) else [];
    var lineOfCode := if page.Some? then |lines| else 0;
    var largest := if page.Some? then LargestLineLength(lines) else 0;
    var images := if page.Some? then page.value.imageCount else 0;
    match Netloc(u)
    case Failure(e) => Failure(e)
    case Success(host) =>
      var external := if page.Some? then ExternalRefs(page.value.hrefs, host) else Success([]);
      match external
      case Failure(e) => Failure(e)
      case Success(refs) =>
        Success(Features(
          lineOfCode, largest, |u|, images, |refs|,
          Ratio(Count(u, Special), |u|), Ratio(Count(u, Letter), |u|), |host|))
  }

  /** `Extract` with the features turned into the classifier's row. */
  function ExtractVector(url: string, page: Option<Page>): Result<seq<real>, SplitError> {
    match Extract(url, page)
    case Success(f) => Success(ToVector(f))
    case Failure(e) => Failure(e)
  }

  /**
   * Extraction fails exactly when `urlparse` raises, on the URL itself or,
   * when a page was fetched, on one of its hrefs.
   */
  lemma ExtractFailure(url: string, page: Option<Page>)
    ensures Extract(url, page).Failure? <==>
              Netloc(Normalize(url)).Failure?
              || (page.Some? && exists i :: 0 <= i < |page.value.hrefs| && Netloc(page.value.hrefs[i]).Failure?)
  {
    if page.Some? {
      var u := Normalize(url);
      if Netloc(u).Success? {
        FilterExternalFailure(page.value.hrefs, Netloc(u).value, Netloc);
      }
    }
  }

  /**
   * When the request raised, the two line features, the image count and the
   * external reference count are all zero, and extraction fails only if the
   * URL itself cannot be parsed.
   */
  lemma FetchFailureFeatures(url: string)
    ensures Extract(url, None).Success? <==> Netloc(Normalize(url)).Success?
    ensures Extract(url, None).Success? ==>
              var f := Extract(url, None).value;
              f.lineOfCode == 0 && f.largestLineLength == 0 && f.noOfImage == 0 && f.noOfExternalRef == 0
  {
  }

  /** The features read from the URL alone do not depend on what was fetched. */
  lemma UrlFeaturesIgnorePage(url: string, p: Option<Page>, q: Option<Page>)
    requires Extract(url, p).Success? && Extract(url, q).Success?
    ensures var f, g := Extract(url, p).value, Extract(url, q).value;
            f.urlLength == g.urlLength && f.specialCharRatio == g.specialCharRatio
            && f.letterRatio == g.letterRatio && f.domainLength == g.domainLength
  {
  }

  /**
   * The line features of a fetched page: there are no lines exactly when the
   * body is empty, and the longest line is no longer than the body.
   */
  lemma LineFeatures(url: string, page: Page)
    requires Extract(url, Some(page)).Success?
    ensures var f := Extract(url, Some(page)).value;
            (f.lineOfCode == 0 <==> |page.body| == 0)
            && f.largestLineLength <= |page.body|
            && (f.lineOfCode == 0 ==> f.largestLineLength == 0)
  {
    var lines := SplitLines(page.body);
    if lines != [] {
      var l :| l in lines && |l| == LargestLineLength(lines);
    }
  }

  /**
   * The ratios of a URL that starts with "http://" or "https://": it is at
   * least seven characters long, holds at least three special characters
   * (those of "://") so its special character ratio is positive and at most
   * one, its letter ratio lies between zero and one, and the letter, digit
   * and special ratios add up to exactly one.
   */
  lemma SchemeUrlRatios(u: string)
    requires HasHttpScheme(u)
    ensures |u| >= 7
    ensures Count(u, Special) >= 3
    ensures 0.0 < Ratio(Count(u, Special), |u|) <= 1.0
    ensures 0.0 <= Ratio(Count(u, Letter), |u|) <= 1.0
    ensures Ratio(Count(u, Letter), |u|) + Ratio(Count(u, Digit), |u|) + Ratio(Count(u, Special), |u|) == 1.0
  {
    SchemeSeparatorIsSpecial(u);
    RatioPositive(Count(u, Special), |u|);
    RatiosSumToOne(u);
  }

  /** The "://" after the scheme puts at least three special characters in the URL. */
  lemma SchemeSeparatorIsSpecial(u: string)
    requires HasHttpScheme(u)
    ensures Count(u, Special) >= 3
  {
    if |u| >= 7 && u[..7] == HttpPrefix {
      assert u[4] == HttpPrefix[4] && u[5] == HttpPrefix[5] && u[6] == HttpPrefix[6];
      ThreeSpecials(u, 4);
    } else {
      assert u[5] == HttpsPrefix[5] && u[6] == HttpsPrefix[6] && u[7] == HttpsPrefix[7];
      ThreeSpecials(u, 5);
    }
  }

  /** Three special characters in a row count three times. */
  lemma ThreeSpecials(u: string, i: nat)
    requires i + 3 <= |u|
    requires Classify(u[i]) == Special && Classify(u[i + 1]) == Special && Classify(u[i + 2]) == Special
    ensures Count(u, Special) >= 3
  {
    assert u == u[..i] + u[i..];
    CountAppend(u[..i], u[i..], Special);
    var t := u[i..];
    assert t[0] == u[i] && t[1..][0] == u[i + 1] && t[1..][1..][0] == u[i + 2];
    assert Count(t, Special) == 1 + Count(t[1..], Special);
    assert Count(t[1..], Special) == 1 + Count(t[1..][1..], Special);
    assert Count(t[1..][1..], Special) == 1 + Count(t[1..][1..][1..], Special);
  }

  /** The URL features of a successful extraction are those of the normalized URL. */
  lemma ExtractUrlFeatures(url: string, page: Option<Page>)
    requires Extract(url, page).Success?
    ensures var f, u := Extract(url, page).value, Normalize(url);
            f.urlLength == |u|
            && f.specialCharRatio == Ratio(Count(u, Special), |u|)
            && f.letterRatio == Ratio(Count(u, Letter), |u|)
            && Netloc(u).Success? && f.domainLength == |Netloc(u).value|
  {
  }

  /** The two ratio features, as `SchemeUrlRatios` states them, for every successful extraction. */
  lemma RatioFeatures(url: string, page: Option<Page>)
    requires Extract(url, page).Success?
    ensures var f := Extract(url, page).value;
            var digits := Ratio(Count(Normalize(url), Digit), f.urlLength);
            f.urlLength >= 7
            && 0.0 < f.specialCharRatio <= 1.0
            && 0.0 <= f.letterRatio <= 1.0
            && f.letterRatio + digits + f.specialCharRatio == 1.0
  {
    ExtractUrlFeatures(url, page);
    SchemeUrlRatios(Normalize(url));
  }

  /** The domain of a URL that starts with "http://" or "https://" is never longer than what follows "://". */
  lemma SchemeUrlDomain(u: string)
    requires HasHttpScheme(u)
    ensures Netloc(u).Success? ==> |Netloc(u).value| + 7 <= |u|
  {
    if |u| >= 7 && u[..7] == HttpPrefix {
      assert u == "http" + "://" + u[7..] by {
        assert u == u[..7] + u[7..];
      }
      assert ValidScheme("http");
      SchemeAuthority("http", u[7..]);
    } else {
      assert u == "https" + "://" + u[8..] by {
        assert u == u[..8] + u[8..];
      }
      assert ValidScheme("https");
      SchemeAuthority("https", u[8..]);
    }
  }

  /** The domain is never longer than what follows the URL's "scheme://". */
  lemma DomainLengthBound(url: string, page: Option<Page>)
    requires Extract(url, page).Success?
    ensures var f := Extract(url, page).value;
            f.domainLength + 7 <= f.urlLength
  {
    ExtractUrlFeatures(url, page);
    SchemeUrlDomain(Normalize(url));
  }

  /**
   * A bare host name, as "example.com" or "example.com/path", is given
   * "https://" and its domain is the host itself: the host holds no
   * delimiter, tab, CR, LF or bracket, and what follows it starts with a
   * delimiter.
   */
  lemma BareHostDomain(host: string, rest: string)
    requires NoDelimiter(host) && NoUnsafe(host) && NoUnsafe(rest)
    requires '[' !in host && ']' !in host
    requires rest == [] || IsDelimiter(rest[0])
    requires !HasHttpScheme(host + rest)
    ensures Netloc(Normalize(host + rest)) == Success(host)
  {
    assert Normalize(host + rest) == "https" + "://" + (host + rest);
    assert ValidScheme("https");
    SchemeHostNetloc("https", host, rest);
  }

  /**
   * A page-relative href such as "/local" (one '/' not followed by a second
   * '/', tab, CR or LF) has an empty netloc, so on a page whose own netloc is
   * not empty it always counts as external.
   */
  lemma RelativeHrefIsExternal(href: string, page: Page, url: string)
    requires href in page.hrefs
    requires |href| >= 1 && href[0] == '/'
    requires |href| == 1 || (href[1] != '/' && !IsUnsafe(href[1]))
    requires Netloc(Normalize(url)).Success? && Netloc(Normalize(url)).value != ""
    requires ExternalRefs(page.hrefs, Netloc(Normalize(url)).value).Success?
    ensures href in ExternalRefs(page.hrefs, Netloc(Normalize(url)).value).value
  {
    PathOnlyNetloc(href);
    FilterExternalMembers(page.hrefs, Netloc(Normalize(url)).value, Netloc);
  }

  /**
   * The anchors "https://other.com/x" and "/local" on a page whose URL has
   * the netloc "example.com" both count as external: the first names
   * another host, the second has an empty netloc.
   */
  lemma ExternalRefExample(url: string, page: Page)
    requires Netloc(Normalize(url)) == Success("example.com")
    requires page.hrefs == ["https://other.com/x", "/local"]
    ensures Extract(url, Some(page)).Success?
    ensures Extract(url, Some(page)).value.noOfExternalRef == 2
  {
    ExampleAnchors();
  }

  /** "example.com" is given "https://", and "https://example.com" is kept as it is. */
  lemma NormalizeExampleCom()
    ensures Normalize("example.com") == "https://example.com"
    ensures Normalize("https://example.com") == "https://example.com"
  {
    assert "example.com"[0] != HttpPrefix[0];
    assert "https://example.com"[..8] == HttpsPrefix;
  }

  /** The netloc of "https://example.com" is "example.com". */
  lemma ExampleComNetloc()
    ensures Netloc("https://example.com") == Success("example.com")
  {
    assert ValidScheme("https");
    assert "https" + "://" + ("example.com" + []) == "https://example.com";
    SchemeHostNetloc("https", "example.com", []);
  }

  /** Two hrefs that both parse to a netloc other than `host` are both kept, in order. */
  lemma BothExternal(a: string, b: string, host: string, netloc: string -> Result<string, SplitError>)
    requires netloc(a).Success? && netloc(a).value != host
    requires netloc(b).Success? && netloc(b).value != host
    ensures FilterExternal([a, b], host, netloc) == Success([a, b])
  {
    FilterExternalCons(b, [], host, netloc);
    assert [b] + [] == [b];
    assert [a, b][1..] == [b];
    FilterExternalCons(a, [b], host, netloc);
    assert [a] + [b] == [a, b];
  }

  /** The two anchors of the example, filtered against the host "example.com". */
  lemma ExampleAnchors()
    ensures ExternalRefs(["https://other.com/x", "/local"], "example.com") == Success(["https://other.com/x", "/local"])
  {
    OtherHostNetloc();
    LocalNetloc();
    BothExternal("https://other.com/x", "/local", "example.com", Netloc);
  }

  lemma OtherHostNetloc()
    ensures Netloc("https://other.com/x") == Success("other.com")
  {
    assert ValidScheme("https");
    assert "https" + "://" + ("other.com" + "/x") == "https://other.com/x";
    SchemeHostNetloc("https", "other.com", "/x");
  }

  lemma LocalNetloc()
    ensures Netloc("/local") == Success("")
  {
    PathOnlyNetloc("/local");
  }

  /**
   * A worked example: the request for "example.com" whose page
   * has the anchors "https://other.com/x" and "/local" counts two external
   * references and a domain of eleven characters.
   */
  lemma ExampleComPage(page: Page)
    requires page.hrefs == ["https://other.com/x", "/local"]
    ensures Extract("example.com", Some(page)).Success?
    ensures Extract("example.com", Some(page)).value.noOfExternalRef == 2
    ensures Extract("example.com", Some(page)).value.domainLength == 11
  {
    NormalizeExampleCom();
    ExampleComNetloc();
    ExternalRefExample("example.com", page);
    ExtractUrlFeatures("example.com", Some(page));
  }

  lemma FourMore(p: seq<real>, a: real, b: real, c: real, d: real)
    requires |p| == 4
    ensures p + [a] + [b] + [c] + [d] == [p[0], p[1], p[2], p[3], a, b, c, d]
  {
  }

  /**
   * `extract_features`: builds the feature list step by step, two entries
   * from the page (or two zeros when the fetch failed), then the URL length,
   * the image count, the external reference count, the two ratios and the
   * domain length.
   */
  method ExtractFeatures(url: string, page: Option<Page>) returns (r: Result<seq<real>, SplitError>)
    ensures r == ExtractVector(url, page)
    ensures r.Success? ==> |r.value| == 8
  {
    var u := Normalize(url);
    var features: seq<real> := [];
    ghost var lineOfCode: nat, largest: nat := 0, 0;
    match page {
      case Some(p) =>
        var lines := SplitLines(p.body);
        features := features + [|lines| as real];
        features := features + [LargestLineLength(lines) as real];
        lineOfCode, largest := |lines|, LargestLineLength(lines);
      case None =>
        features := features + [0.0, 0.0];
    }
    assert features == [lineOfCode as real, largest as real];
    var urlLength := |u|;
    features := features + [urlLength as real];
    var images := if page.Some? then page.value.imageCount else 0;
    features := features + [images as real];
    assert features == [lineOfCode as real, largest as real, urlLength as real, images as real];
    var parsed := Netloc(u);
    if parsed.Failure? {
      return Failure(parsed.error);
    }
    var host := parsed.value;
    var refs: seq<string> := [];
    if page.Some? {
      var external := ExternalRefs(page.value.hrefs, host);
      if external.Failure? {
        return Failure(external.error);
      }
      refs := external.value;
    }
    var special := Ratio(Count(u, Special), urlLength);
    var letters := Ratio(Count(u, Letter), urlLength);
    ghost var prefix := features;
    features := features + [|refs| as real];
    features := features + [special];
    features := features + [letters];
    features := features + [|host| as real];
    ghost var f := Features(lineOfCode, largest, urlLength, images, |refs|, special, letters, |host|);
    FourMore(prefix, |refs| as real, special, letters, |host| as real);
    assert features == ToVector(f);
    assert Extract(url, page) == Success(f);
    return Success(features);
  }
}
