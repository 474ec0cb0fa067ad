/**
 * The favicon link fetchers: from a parsed HTML document, the three conventional favicon
 * paths resolved against the effective base URL, followed by the href of every
 * `<link rel=...>` for four favicon rels, selector by selector and in document order.
 * The four Java copies of the fetcher share this logic and are modelled once.
 */
module FaviconLinks {
  import opened Results

  type Url = string

  /** A parsed element: tag name, whether it sits in `<head>`, and its rel and href attributes. */
  datatype Element = Element(tag: string, inHead: bool, rel: Option<string>, href: Option<string>)

  /** A parsed document: its location and its elements in document order. */
  datatype Document = Document(location: string, elements: seq<Element>)

  /**
   * java.net.URL as an oracle: `parse` is `new URL(spec)`, `resolve` is `new URL(context, spec)`;
   * None stands for MalformedURLException.
   */
  datatype UrlParser = UrlParser(parse: string -> Option<Url>, resolve: (Url, string) -> Option<Url>)

  datatype UrlError = MalformedUrl

  const CommonFaviconsPaths: seq<string> := ["favicon.ico", "apple-touch-icon.png", "apple-touch-icon-precomposed.png"]

  /** The rel values of the four selectors `link[rel='...']`, in selector order. */
  const FaviconRels: seq<string> := ["icon", "shortcut icon", "apple-touch-icon", "apple-touch-icon-precomposed"]

  /** `el.attr("href")`: the attribute's value, or "" when it is absent. */
  function Attr(el: Element): string
  {
    if el.href.Some? then el.href.value else ""
  }

  /** An element selected by `head base[href]`. */
  predicate IsBaseHref(el: Element)
  {
    el.tag == "base" && el.inHead && el.href.Some?
  }

  /** An element selected by `link[rel='rel']`. */
  predicate IsLink(el: Element, rel: string)
  {
    el.tag == "link" && el.rel == Some(rel)
  }

  /** `document.select("head base[href]").first()`, as the href of that element. */
  function FirstBaseHref(els: seq<Element>): Option<string>
  {
    if els == [] then None
    else if IsBaseHref(els[0]) then Some(Attr(els[0]))
    else FirstBaseHref(els[1..])
  }

  /** extractBaseUrl: the first base href resolved against the location, otherwise the location. */
  function ExtractBaseUrl(parser: UrlParser, doc: Document): Result<Url, UrlError>
  {
    var location := parser.parse(doc.location);
    match FirstBaseHref(doc.elements)
    case Some(baseHrefValue) =>
      if location.None? then Failure(MalformedUrl)
      else if parser.resolve(location.value, baseHrefValue).None? then Failure(MalformedUrl)
      else Success(parser.resolve(location.value, baseHrefValue).value)
    case None =>
      if location.None? then Failure(MalformedUrl) else Success(location.value)
  }

  /** `document.select("link[rel='rel']")`: the matching elements in document order. */
  function Select(els: seq<Element>, rel: string): seq<Element>
  {
    if els == [] then []
    else (if IsLink(els[0], rel) then [els[0]] else []) + Select(els[1..], rel)
  }

  /** The hrefs of the elements, in order. */
  function Hrefs(els: seq<Element>): seq<string>
  {
    seq(|els|, i requires 0 <= i < |els| => Attr(els[i]))
  }

  /** The hrefs the selectors for `rels` yield, selector by selector. */
  function SelectedHrefs(els: seq<Element>, rels: seq<string>): seq<string>
  {
    if rels == [] then []
    else SelectedHrefs(els, rels[..|rels| - 1]) + Hrefs(Select(els, rels[|rels| - 1]))
  }

  /** `new URL(base, h)` for every h in order; the first MalformedURLException aborts. */
  function ResolveAll(parser: UrlParser, base: Url, hs: seq<string>): Result<seq<Url>, UrlError>
  {
    if hs == [] then Success([])
    else
      var init := ResolveAll(parser, base, hs[..|hs| - 1]);
      var last := parser.resolve(base, hs[|hs| - 1]);
      if init.Failure? || last.None? then Failure(MalformedUrl)
      else Success(init.value + [last.value])
  }

  /** getTagsUrls: the URLs of the favicon `<link>` elements. */
  function GetTagsUrls(parser: UrlParser, doc: Document): Result<seq<Url>, UrlError>
  {
    var base := ExtractBaseUrl(parser, doc);
    if base.Failure? then Failure(base.error)
    else ResolveAll(parser, base.value, SelectedHrefs(doc.elements, FaviconRels))
  }

  /** getCommonUrls: the three conventional favicon URLs. */
  function GetCommonUrls(parser: UrlParser, doc: Document): Result<seq<Url>, UrlError>
  {
    var base := ExtractBaseUrl(parser, doc);
    if base.Failure? then Failure(base.error)
    else ResolveAll(parser, base.value, CommonFaviconsPaths)
  }

  /** What fetchLinks (getLinks) returns. */
  function Links(parser: UrlParser, doc: Document): Result<seq<Url>, UrlError>
  {
    var base := ExtractBaseUrl(parser, doc);
    if base.Failure? then Failure(base.error)
    else
      var common := ResolveAll(parser, base.value, CommonFaviconsPaths);
      var tags := ResolveAll(parser, base.value, SelectedHrefs(doc.elements, FaviconRels));
      if common.Failure? || tags.Failure? then Failure(MalformedUrl)
      else Success(common.value + tags.value)
  }

  // ---------------------------------------------------------------------------------------
  // The list-building loops
  // ---------------------------------------------------------------------------------------

  lemma {:induction false} ResolveAllPrefixFails(parser: UrlParser, base: Url, a: seq<string>, b: seq<string>)
    requires ResolveAll(parser, base, a).Failure?
    ensures ResolveAll(parser, base, a + b).Failure?
    decreases |b|
  {
    if b == [] {
      assert a + b == a;
    } else {
      assert (a + b)[..|a + b| - 1] == a + b[..|b| - 1];
      ResolveAllPrefixFails(parser, base, a, b[..|b| - 1]);
    }
  }

  lemma ResolveAllSnoc(parser: UrlParser, base: Url, hs: seq<string>, h: string)
    ensures ResolveAll(parser, base, hs + [h]) ==
      if ResolveAll(parser, base, hs).Failure? || parser.resolve(base, h).None? then Failure(MalformedUrl)
      else Success(ResolveAll(parser, base, hs).value + [parser.resolve(base, h).value])
  {
    assert (hs + [h])[..|hs|] == hs;
  }

  /** extractCommonFaviconsUrls: `new URL(baseUrl, path)` for the three paths, in order. */
  method ExtractCommonFaviconsUrls(parser: UrlParser, baseUrl: Url) returns (r: Result<seq<Url>, UrlError>)
    ensures r == ResolveAll(parser, baseUrl, CommonFaviconsPaths)
  {
    var result: seq<Url> := [];
    var i := 0;
    while i < |CommonFaviconsPaths|
      invariant 0 <= i <= |CommonFaviconsPaths|
      invariant ResolveAll(parser, baseUrl, CommonFaviconsPaths[..i]) == Success(result)
    {
      var faviconPath := CommonFaviconsPaths[i];
      var url := parser.resolve(baseUrl, faviconPath);
      ResolveAllSnoc(parser, baseUrl, CommonFaviconsPaths[..i], faviconPath);
      assert CommonFaviconsPaths[..i + 1] == CommonFaviconsPaths[..i] + [faviconPath];
      if url.None? {
        ResolveAllPrefixFails(parser, baseUrl, CommonFaviconsPaths[..i + 1], CommonFaviconsPaths[i + 1..]);
        assert CommonFaviconsPaths[..i + 1] + CommonFaviconsPaths[i + 1..] == CommonFaviconsPaths;
        return Failure(MalformedUrl);
      }
      result := result + [url.value];
      i := i + 1;
    }
    assert CommonFaviconsPaths[..i] == CommonFaviconsPaths;
    return Success(result);
  }

  lemma SelectedHrefsSnoc(els: seq<Element>, rels: seq<string>, k: nat)
    requires k < |rels|
    ensures SelectedHrefs(els, rels[..k + 1]) == SelectedHrefs(els, rels[..k]) + Hrefs(Select(els, rels[k]))
  {
    assert rels[..k + 1][..k] == rels[..k];
  }

  lemma {:induction false} SelectedHrefsPrefix(els: seq<Element>, rels: seq<string>, k: nat)
    requires k <= |rels|
    ensures SelectedHrefs(els, rels[..k]) <= SelectedHrefs(els, rels)
    decreases |rels| - k
  {
    if k == |rels| {
      assert rels[..k] == rels;
    } else {
      SelectedHrefsPrefix(els, rels, k + 1);
      SelectedHrefsSnoc(els, rels, k);
    }
  }

  /** The hrefs handled once element i of selector k is done are a prefix of all tag hrefs. */
  lemma HandledPrefix(els: seq<Element>, k: nat, i: nat)
    requires k < |FaviconRels| && i < |Select(els, FaviconRels[k])|
    ensures var selected := Select(els, FaviconRels[k]);
      SelectedHrefs(els, FaviconRels[..k]) + Hrefs(selected[..i + 1]) <= SelectedHrefs(els, FaviconRels)
  {
    var selected := Select(els, FaviconRels[k]);
    SelectedHrefsSnoc(els, FaviconRels, k);
    SelectedHrefsPrefix(els, FaviconRels, k + 1);
    assert Hrefs(selected[..i + 1]) <= Hrefs(selected);
  }

  lemma ResolveAllPrefixFailsLe(parser: UrlParser, base: Url, a: seq<string>, c: seq<string>)
    requires a <= c && ResolveAll(parser, base, a).Failure?
    ensures ResolveAll(parser, base, c).Failure?
  {
    assert c == a + c[|a|..];
    ResolveAllPrefixFails(parser, base, a, c[|a|..]);
  }

  lemma HrefsSnoc(selected: seq<Element>, i: nat, done: seq<string>)
    requires i < |selected|
    ensures done + Hrefs(selected[..i + 1]) == (done + Hrefs(selected[..i])) + [Attr(selected[i])]
  {
    assert Hrefs(selected[..i + 1]) == Hrefs(selected[..i]) + [Attr(selected[i])];
  }

  /**
   * extractFaviconsUrlsFromCssSelectors: for each selector in order, for each selected element
   * in document order, `new URL(baseUrl, el.attr("href"))`.
   */
  method ExtractFaviconsUrlsFromCssSelectors(parser: UrlParser, baseUrl: Url, doc: Document)
    returns (r: Result<seq<Url>, UrlError>)
    ensures r == ResolveAll(parser, baseUrl, SelectedHrefs(doc.elements, FaviconRels))
  {
    var result: seq<Url> := [];
    var k := 0;
    while k < |FaviconRels|
      invariant 0 <= k <= |FaviconRels|
      invariant ResolveAll(parser, baseUrl, SelectedHrefs(doc.elements, FaviconRels[..k])) == Success(result)
    {
      var selected := Select(doc.elements, FaviconRels[k]);
      ghost var done := SelectedHrefs(doc.elements, FaviconRels[..k]);
      assert done + Hrefs(selected[..0]) == done;
      var i := 0;
      while i < |selected|
        invariant 0 <= i <= |selected|
        invariant ResolveAll(parser, baseUrl, done + Hrefs(selected[..i])) == Success(result)
      {
        var hrefValue := Attr(selected[i]);
        var url := parser.resolve(baseUrl, hrefValue);
        HrefsSnoc(selected, i, done);
        ResolveAllSnoc(parser, baseUrl, done + Hrefs(selected[..i]), hrefValue);
        if url.None? {
          HandledPrefix(doc.elements, k, i);
          ResolveAllPrefixFailsLe(parser, baseUrl, done + Hrefs(selected[..i + 1]),
                                  SelectedHrefs(doc.elements, FaviconRels));
          return Failure(MalformedUrl);
        }
        result := result + [url.value];
        i := i + 1;
      }
      assert selected[..i] == selected;
      SelectedHrefsSnoc(doc.elements, FaviconRels, k);
      k := k + 1;
    }
    assert FaviconRels[..k] == FaviconRels;
    return Success(result);
  }

  /** fetchLinks / getLinks: the common URLs, then the tag URLs, against one base. */
  method FetchLinks(parser: UrlParser, doc: Document) returns (r: Result<seq<Url>, UrlError>)
    ensures r == Links(parser, doc)
  {
    var baseUrl := ExtractBaseUrl(parser, doc);
    if baseUrl.Failure? {
      return Failure(baseUrl.error);
    }
    var faviconsLinks: seq<Url> := [];
    var common := ExtractCommonFaviconsUrls(parser, baseUrl.value);
    if common.Failure? {
      return Failure(common.error);
    }
    faviconsLinks := faviconsLinks + common.value;
    var tags := ExtractFaviconsUrlsFromCssSelectors(parser, baseUrl.value, doc);
    if tags.Failure? {
      return Failure(tags.error);
    }
    faviconsLinks := faviconsLinks + tags.value;
    assert faviconsLinks == common.value + tags.value;
    return Success(faviconsLinks);
  }

  // ---------------------------------------------------------------------------------------
  // Properties
  // ---------------------------------------------------------------------------------------

  /**
   * Resolving a list succeeds exactly when every entry resolves, and then yields, entry by
   * entry, the resolved URLs.
   */
  lemma {:induction false} ResolveAllIff(parser: UrlParser, base: Url, hs: seq<string>)
    ensures ResolveAll(parser, base, hs).Success? <==> forall i :: 0 <= i < |hs| ==> parser.resolve(base, hs[i]).Some?
    ensures ResolveAll(parser, base, hs).Success? ==>
      && |ResolveAll(parser, base, hs).value| == |hs|
      && forall i :: 0 <= i < |hs| ==> ResolveAll(parser, base, hs).value[i] == parser.resolve(base, hs[i]).value
  {
    if hs != [] {
      var init := hs[..|hs| - 1];
      ResolveAllIff(parser, base, init);
      assert forall i :: 0 <= i < |init| ==> init[i] == hs[i];
      if ResolveAll(parser, base, hs).Success? {
        assert ResolveAll(parser, base, init).Success?;
      }
    }
  }

  /** The three common URLs are favicon.ico, apple-touch-icon.png, apple-touch-icon-precomposed.png against the base. */
  lemma CommonUrlsInOrder(parser: UrlParser, doc: Document)
    requires GetCommonUrls(parser, doc).Success?
    ensures var base := ExtractBaseUrl(parser, doc).value;
      var us := GetCommonUrls(parser, doc).value;
      && |us| == 3
      && parser.resolve(base, "favicon.ico") == Some(us[0])
      && parser.resolve(base, "apple-touch-icon.png") == Some(us[1])
      && parser.resolve(base, "apple-touch-icon-precomposed.png") == Some(us[2])
  {
    ResolveAllIff(parser, ExtractBaseUrl(parser, doc).value, CommonFaviconsPaths);
  }

  /**
   * fetchLinks is getCommonUrls followed by getTagsUrls: it succeeds exactly when both do,
   * its first three entries are the common URLs and the rest are the tag URLs.
   */
  lemma LinksAreCommonThenTags(parser: UrlParser, doc: Document)
    ensures Links(parser, doc).Success? <==> GetCommonUrls(parser, doc).Success? && GetTagsUrls(parser, doc).Success?
    ensures Links(parser, doc).Success? ==>
      && |Links(parser, doc).value| == 3 + |SelectedHrefs(doc.elements, FaviconRels)|
      && Links(parser, doc).value[..3] == GetCommonUrls(parser, doc).value
      && Links(parser, doc).value[3..] == GetTagsUrls(parser, doc).value
  {
    var base := ExtractBaseUrl(parser, doc);
    if base.Success? {
      ResolveAllIff(parser, base.value, CommonFaviconsPaths);
      ResolveAllIff(parser, base.value, SelectedHrefs(doc.elements, FaviconRels));
    }
  }

  /** Some of the hrefs does not resolve against the base. */
  ghost predicate SomeUnresolved(parser: UrlParser, base: Url, hs: seq<string>)
  {
    exists i :: 0 <= i < |hs| && parser.resolve(base, hs[i]).None?
  }

  /** Any resolution failure aborts the whole call: there is no partial list. */
  lemma LinksFailIff(parser: UrlParser, doc: Document)
    ensures Links(parser, doc).Failure? <==>
      || ExtractBaseUrl(parser, doc).Failure?
      || SomeUnresolved(parser, ExtractBaseUrl(parser, doc).value, CommonFaviconsPaths)
      || SomeUnresolved(parser, ExtractBaseUrl(parser, doc).value, SelectedHrefs(doc.elements, FaviconRels))
  {
    var base := ExtractBaseUrl(parser, doc);
    if base.Success? {
      ResolveAllIff(parser, base.value, CommonFaviconsPaths);
      ResolveAllIff(parser, base.value, SelectedHrefs(doc.elements, FaviconRels));
    }
  }

  /** The base is the first `head base[href]` element's href against the location, else the location. */
  lemma {:induction false} FirstBaseHrefIff(els: seq<Element>)
    ensures FirstBaseHref(els).None? <==> forall i :: 0 <= i < |els| ==> !IsBaseHref(els[i])
    ensures FirstBaseHref(els).Some? ==>
      exists i :: 0 <= i < |els| && IsBaseHref(els[i]) && FirstBaseHref(els).value == els[i].href.value &&
        forall j :: 0 <= j < i ==> !IsBaseHref(els[j])
  {
    if els != [] && !IsBaseHref(els[0]) {
      FirstBaseHrefIff(els[1..]);
      assert forall i :: 1 <= i < |els| ==> els[i] == els[1..][i - 1];
      if FirstBaseHref(els).Some? {
        var i :| 0 <= i < |els[1..]| && IsBaseHref(els[1..][i]) && FirstBaseHref(els[1..]).value == els[1..][i].href.value &&
          forall j :: 0 <= j < i ==> !IsBaseHref(els[1..][j]);
        assert IsBaseHref(els[i + 1]) && forall j :: 0 <= j < i + 1 ==> !IsBaseHref(els[j]);
      }
    }
  }

  /**
   * Selection keeps document order: selecting from a concatenation concatenates the
   * selections, and a single element is selected exactly when it matches.
   */
  lemma {:induction false} SelectAppend(a: seq<Element>, b: seq<Element>, rel: string)
    ensures Select(a + b, rel) == Select(a, rel) + Select(b, rel)
  {
    if a == [] {
      assert a + b == b;
    } else {
      assert (a + b)[0] == a[0] && (a + b)[1..] == a[1..] + b;
      SelectAppend(a[1..], b, rel);
    }
  }

  lemma SelectSingleton(el: Element, rel: string)
    ensures Select([el], rel) == if IsLink(el, rel) then [el] else []
  {
  }

  /** Every selected element matches, and every matching element is selected. */
  lemma {:induction false} SelectMembers(els: seq<Element>, rel: string)
    ensures forall e :: e in Select(els, rel) <==> e in els && IsLink(e, rel)
  {
    if els != [] {
      SelectMembers(els[1..], rel);
      assert els == [els[0]] + els[1..];
    }
  }

  /** The number of elements with the rel, counted over the document. */
  function CountLinks(els: seq<Element>, rels: seq<string>): nat
  {
    if els == [] then 0
    else
      var first := if els[0].tag == "link" && els[0].rel.Some? && els[0].rel.value in rels then 1 else 0;
      first + CountLinks(els[1..], rels)
  }

  lemma {:induction false} CountLinksSplit(els: seq<Element>, rels: seq<string>, r: string)
    requires r !in rels
    ensures CountLinks(els, rels + [r]) == CountLinks(els, rels) + |Select(els, r)|
  {
    if els != [] {
      CountLinksSplit(els[1..], rels, r);
    }
  }

  lemma {:induction false} SelectedHrefsLength(els: seq<Element>, rels: seq<string>)
    requires forall i, j :: 0 <= i < j < |rels| ==> rels[i] != rels[j]
    ensures |SelectedHrefs(els, rels)| == CountLinks(els, rels)
  {
    if rels == [] {
      CountZero(els);
    } else {
      var init := rels[..|rels| - 1];
      SelectedHrefsLength(els, init);
      assert rels == init + [rels[|rels| - 1]];
      CountLinksSplit(els, init, rels[|rels| - 1]);
    }
  }

  lemma {:induction false} CountZero(els: seq<Element>)
    ensures CountLinks(els, []) == 0
  {
    if els != [] {
      CountZero(els[1..]);
    }
  }

  /**
   * The fetch yields 3 URLs plus one per `<link>` element whose rel is a favicon rel:
   * duplicates are kept and a link with no href still counts.
   */
  lemma LinksLength(parser: UrlParser, doc: Document)
    requires Links(parser, doc).Success?
    ensures |Links(parser, doc).value| == 3 + CountLinks(doc.elements, FaviconRels)
  {
    LinksAreCommonThenTags(parser, doc);
    SelectedHrefsLength(doc.elements, FaviconRels);
  }

  /**
   * The tag hrefs are grouped by selector in the order icon, shortcut icon, apple-touch-icon,
   * apple-touch-icon-precomposed, and within a group are the matching elements' hrefs in
   * document order; an element without href contributes "".
   */
  lemma TagHrefsGrouped(els: seq<Element>)
    ensures SelectedHrefs(els, FaviconRels) ==
      Hrefs(Select(els, "icon")) + Hrefs(Select(els, "shortcut icon")) +
      Hrefs(Select(els, "apple-touch-icon")) + Hrefs(Select(els, "apple-touch-icon-precomposed"))
  {
    SelectedHrefsOfFour(els, "icon", "shortcut icon", "apple-touch-icon", "apple-touch-icon-precomposed");
  }

  lemma SelectedHrefsOfFour(els: seq<Element>, a: string, b: string, c: string, d: string)
    ensures SelectedHrefs(els, [a, b, c, d]) ==
      Hrefs(Select(els, a)) + Hrefs(Select(els, b)) + Hrefs(Select(els, c)) + Hrefs(Select(els, d))
  {
    var rels := [a, b, c, d];
    assert rels[..3] == [a, b, c] && [a, b, c][..2] == [a, b] && [a, b][..1] == [a] && [a][..0] == [];
    assert SelectedHrefs(els, [a]) == Hrefs(Select(els, a));
    assert SelectedHrefs(els, [a, b]) == SelectedHrefs(els, [a]) + Hrefs(Select(els, b));
    assert SelectedHrefs(els, [a, b, c]) == SelectedHrefs(els, [a, b]) + Hrefs(Select(els, c));
    assert SelectedHrefs(els, rels) == SelectedHrefs(els, [a, b, c]) + Hrefs(Select(els, d));
  }

  /** A link without href is resolved as "", that is, to the base itself under the resolver. */
  lemma MissingHrefResolvesEmpty(el: Element)
    requires el.href.None?
    ensures Attr(el) == ""
  {
  }

  /**
   * With `<base href="images/">` the effective base is images/ resolved against the location:
   * the call fails exactly when the location or that resolution is malformed. Every tag URL
   * is then its href resolved against that base, in order, and the tags fail exactly when
   * some href does not resolve.
   */
  lemma TagsUnderBase(parser: UrlParser, doc: Document)
    requires FirstBaseHref(doc.elements) == Some("images/")
    ensures ExtractBaseUrl(parser, doc).Success? <==>
      parser.parse(doc.location).Some? && parser.resolve(parser.parse(doc.location).value, "images/").Some?
    ensures ExtractBaseUrl(parser, doc).Success? ==>
      ExtractBaseUrl(parser, doc).value == parser.resolve(parser.parse(doc.location).value, "images/").value
    ensures ExtractBaseUrl(parser, doc).Success? ==>
      var base := ExtractBaseUrl(parser, doc).value;
      var hs := SelectedHrefs(doc.elements, FaviconRels);
      && (GetTagsUrls(parser, doc).Success? <==> !SomeUnresolved(parser, base, hs))
      && (GetTagsUrls(parser, doc).Success? ==>
            && |GetTagsUrls(parser, doc).value| == |hs|
            && forall i :: 0 <= i < |hs| ==> GetTagsUrls(parser, doc).value[i] == parser.resolve(base, hs[i]).value)
  {
    var b := ExtractBaseUrl(parser, doc);
    if b.Success? {
      ResolveAllIff(parser, b.value, SelectedHrefs(doc.elements, FaviconRels));
    }
  }
}
