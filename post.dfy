/** Article extraction (crawler/post_crawler.py): title, author and date by selector
    priority with a meta-tag fallback, the body text from the summary and the first
    content container, the image URLs, the audio URL and the reaction counts.

    A parsed page is given as the answers to the queries the crawler asks of it:
    `select_one` and `select` per CSS selector, the meta tags by `property` and by
    `name`, and the first `<audio>` element. An element carries its text, its attributes
    (`class` apart, as a list of class names), its direct `<p>`/`<div>` children, its
    `<img>` descendants, and its first `<source>` and first `<span>` descendants. */
module PostCrawler {
  import opened Wrappers
  import opened Text
  import opened Seqs
  import opened Config
  import opened Helpers

  datatype Element = Element(
    text: string,
    attrs: map<string, string>,
    classes: seq<string>,
    blocks: seq<Element>,
    images: seq<Element>,
    source: Option<Element>,
    span: Option<Element>)

  datatype Soup = Soup(
    selectOne: string -> Option<Element>,
    select: string -> seq<Element>,
    metaProperty: string -> Option<Element>,
    metaName: string -> Option<Element>,
    audio: Option<Element>)

  /** The record `crawl_post` returns. */
  datatype Post = Post(
    postId: string, url: string, title: string, content: string, author: string, date: string,
    category: string, images: seq<string>, audio: Option<string>, reactions: map<string, nat>)

  /** What `crawl_post` does: no page (it returns `None`), an `IndexError` raised while
      reading a `srcset`, or the post. */
  datatype Outcome = NoPage | Raised | Crawled(post: Post)

  // ---------------------------------------------------------------------------------
  // attributes and selectors

  /** `e.get(name)`. */
  function Attr(e: Element, name: string): Option<string> {
    if name in e.attrs then Some(e.attrs[name]) else None
  }

  /** `e.get(name, default)`. */
  function AttrOr(e: Element, name: string, default: string): string {
    Attr(e, name).GetOr(default)
  }

  /** A present, non-empty attribute value: what Python's truth test accepts. */
  predicate Truthy(o: Option<string>) {
    o.Some? && o.value != ""
  }

  /** The attribute values in `names` order, the falsy ones as `None`. */
  function Truthies(e: Element, names: seq<string>): (r: seq<Option<string>>)
    ensures |r| == |names|
    ensures forall k :: 0 <= k < |names| ==> r[k] == if Truthy(Attr(e, names[k])) then Attr(e, names[k]) else None
  {
    seq(|names|, k requires 0 <= k < |names| => if Truthy(Attr(e, names[k])) then Attr(e, names[k]) else None)
  }

  /** `e.get(n1) or e.get(n2) or ...`, as far as the following truth test sees it: the
      first non-empty value, `None` when there is none. */
  function FirstTruthy(e: Element, names: seq<string>): (r: Option<string>)
    ensures r.None? <==> forall k :: 0 <= k < |names| ==> !Truthy(Attr(e, names[k]))
    ensures r.Some? ==> r.value != ""
    ensures forall k :: IsFirst(Truthies(e, names), k) ==> r == Attr(e, names[k])
  {
    First(Truthies(e, names))
  }

  /** `select_one` of each selector, in order. */
  function Matches(soup: Soup, selectors: seq<string>): (r: seq<Option<Element>>)
    ensures |r| == |selectors|
    ensures forall i :: 0 <= i < |selectors| ==> r[i] == soup.selectOne(selectors[i])
  {
    seq(|selectors|, i requires 0 <= i < |selectors| => soup.selectOne(selectors[i]))
  }

  /** No selector matches. */
  predicate NoMatch(soup: Soup, selectors: seq<string>) {
    forall i :: 0 <= i < |selectors| ==> soup.selectOne(selectors[i]).None?
  }

  /** None of `patterns` occurs in `s`. */
  function NoneContained(s: string, patterns: seq<string>): (r: bool)
    ensures r <==> forall k :: 0 <= k < |patterns| ==> !Contains(s, patterns[k])
    decreases |patterns|
  {
    if patterns == [] then true
    else !Contains(s, patterns[0]) && NoneContained(s, patterns[1..])
  }

  // ---------------------------------------------------------------------------------
  // title, author and date

  const TitleSelectors: seq<string> :=
    ["h1.detail-title", "h1.article-title", "h1[data-role=\"title\"]", ".detail-title h1", "article h1", "h1"]
  const AuthorSelectors: seq<string> :=
    [".detail-author", ".author-name", ".article-author", "[data-role=\"author\"]", ".author", ".detail-content-author"]
  const DateSelectors: seq<string> :=
    [".detail-time", ".date-time", ".article-date", "time", "[data-role=\"publishdate\"]", ".detail-content-info .date"]
  const DefaultAuthor: string := "Tu\U{1ED5}i Tr\U{1EBB}"

  /** The cleaned `content` of a meta tag (empty when it has none), else `default`. */
  function MetaText(meta: Option<Element>, default: string): string {
    match meta
    case Some(m) => CleanText(AttrOr(m, "content", ""))
    case None => default
  }

  /** The cleaned text of the first matching selector, else the meta-tag fallback. */
  function TextOrMeta(matches: seq<Option<Element>>, meta: Option<Element>, default: string): (r: string)
    ensures forall i :: IsFirst(matches, i) ==> r == CleanText(matches[i].value.text)
    ensures (forall i :: 0 <= i < |matches| ==> matches[i].None?) ==> r == MetaText(meta, default)
  {
    match First(matches)
    case Some(e) => CleanText(e.text)
    case None => MetaText(meta, default)
  }

  /** `_extract_title`: the first matching title selector wins, then `og:title`, then the
      empty string; the result is always clean. */
  function ExtractTitle(soup: Soup): (r: string)
    ensures IsClean(r)
    ensures forall i :: IsFirst(Matches(soup, TitleSelectors), i) ==> r == CleanText(soup.selectOne(TitleSelectors[i]).value.text)
    ensures NoMatch(soup, TitleSelectors) ==> r == MetaText(soup.metaProperty("og:title"), "")
  {
    TextOrMeta(Matches(soup, TitleSelectors), soup.metaProperty("og:title"), "")
  }

  /** `_extract_author`: the first matching author selector wins, then the `author` meta
      tag, then "Tuổi Trẻ". */
  function ExtractAuthor(soup: Soup): (r: string)
    ensures IsClean(r)
    ensures forall i :: IsFirst(Matches(soup, AuthorSelectors), i) ==> r == CleanText(soup.selectOne(AuthorSelectors[i]).value.text)
    ensures NoMatch(soup, AuthorSelectors) ==> r == MetaText(soup.metaName("author"), DefaultAuthor)
  {
    assert IsClean(DefaultAuthor) by {
      assert forall i :: 0 <= i < |DefaultAuthor| && IsSpace(DefaultAuthor[i]) ==> i == 4;
    }
    TextOrMeta(Matches(soup, AuthorSelectors), soup.metaName("author"), DefaultAuthor)
  }

  /** The date an element gives: its `datetime` attribute when it has one, else its text. */
  function ElementDate(e: Element): string {
    if "datetime" in e.attrs then FormatDate(e.attrs["datetime"]) else FormatDate(e.text)
  }

  /** `_extract_date`: the first matching date selector wins, its `datetime` attribute
      before its text; then `article:published_time`, then the empty string. */
  function ExtractDate(soup: Soup): (r: string)
    ensures IsClean(r)
    ensures forall i :: IsFirst(Matches(soup, DateSelectors), i) ==> r == ElementDate(soup.selectOne(DateSelectors[i]).value)
    ensures NoMatch(soup, DateSelectors) ==>
              r == match soup.metaProperty("article:published_time")
                   case Some(m) => FormatDate(AttrOr(m, "content", ""))
                   case None => ""
  {
    match First(Matches(soup, DateSelectors))
    case Some(e) => ElementDate(e)
    case None =>
      match soup.metaProperty("article:published_time")
      case Some(m) => FormatDate(AttrOr(m, "content", ""))
      case None => ""
  }

  // ---------------------------------------------------------------------------------
  // _is_content_element and _extract_content

  const ContentSkips: seq<string> := ["caption", "ad", "relate", "author", "source", "tag", "widget"]
  const SapoSelectors: seq<string> := ["h2.detail-sapo", ".detail-sapo", ".article-sapo", ".sapo", "p.lead"]
  const ContentSelectors: seq<string> :=
    [".detail-content", ".detail-content-body", "#main-detail-body", ".article-content", "article .content",
     "[data-role=\"content\"]"]

  /** The class names joined by spaces, lower-cased. */
  function ClassString(e: Element): string {
    Lower(Join(e.classes, " "))
  }

  /** `_is_content_element`: no skip pattern occurs anywhere in the class string. */
  function IsContentElement(e: Element): (r: bool)
    ensures r <==> forall k :: 0 <= k < |ContentSkips| ==> !Contains(ClassString(e), ContentSkips[k])
  {
    NoneContained(ClassString(e), ContentSkips)
  }

  /** The pattern test is on substrings: a `header` class is rejected because it
      contains `ad`. */
  lemma HeaderRejected(e: Element)
    requires e.classes == ["header"]
    ensures !IsContentElement(e)
  {
    assert ClassString(e) == "header";
    ContainsAt("header", "ad", 2);
  }

  /** A `content` class is accepted: each skip pattern has a letter `content` lacks. */
  lemma ContentAccepted(e: Element)
    requires e.classes == ["content"]
    ensures IsContentElement(e)
  {
    assert ClassString(e) == "content";
    forall k | 0 <= k < |ContentSkips|
      ensures !Contains("content", ContentSkips[k])
    {
      if k == 0 || k == 1 || k == 3 || k == 5 {
        assert 'a' in ContentSkips[k];
        var i :| 0 <= i < |ContentSkips[k]| && ContentSkips[k][i] == 'a';
        MissingChar("content", ContentSkips[k], i);
      } else if k == 2 {
        MissingChar("content", "relate", 0);
      } else if k == 4 {
        MissingChar("content", "source", 0);
      } else {
        MissingChar("content", "widget", 0);
      }
    }
  }

  /** The kept body paragraphs: content elements whose cleaned text is longer than 20. */
  function BodyParts(blocks: seq<Element>): (r: seq<string>)
    ensures |r| <= |blocks|
    ensures forall k :: 0 <= k < |r| ==> IsClean(r[k]) && |r[k]| > 20
    decreases |blocks|
  {
    if blocks == [] then []
    else
      var init := BodyParts(blocks[..|blocks| - 1]);
      var last := KeptText(blocks[|blocks| - 1]);
      KeptAppend(init, last);
      init + last
  }

  /** One child's contribution: its cleaned text when it is a content element and that
      text is longer than 20, nothing otherwise. */
  function KeptText(b: Element): (r: seq<string>)
    ensures |r| <= 1
    ensures r != [] <==> IsContentElement(b) && |CleanText(b.text)| > 20
    ensures forall k :: 0 <= k < |r| ==> r[k] == CleanText(b.text) && IsClean(r[k]) && |r[k]| > 20
  {
    if IsContentElement(b) && |CleanText(b.text)| > 20 then [CleanText(b.text)] else []
  }

  /** Two lists of kept paragraphs make one. */
  lemma KeptAppend(a: seq<string>, b: seq<string>)
    requires forall k :: 0 <= k < |a| ==> IsClean(a[k]) && |a[k]| > 20
    requires forall k :: 0 <= k < |b| ==> IsClean(b[k]) && |b[k]| > 20
    ensures forall k :: 0 <= k < |a + b| ==> IsClean((a + b)[k]) && |(a + b)[k]| > 20
  {
  }

  /** The summary part: the cleaned text of the first matching summary selector. */
  function SapoPart(soup: Soup): (r: seq<string>) {
    match First(Matches(soup, SapoSelectors))
    case Some(e) => [CleanText(e.text)]
    case None => []
  }

  /** The parts `_extract_content` joins: the summary, then the kept children of the first
      matching content container; the whole container's text when that gives no part. */
  function ContentParts(soup: Soup): (r: seq<string>) {
    var sapo := SapoPart(soup);
    match First(Matches(soup, ContentSelectors))
    case None => sapo
    case Some(div) =>
      var parts := sapo + BodyParts(div.blocks);
      if parts == [] then [CleanText(div.text)] else parts
  }

  /** The summary comes first and the container's children follow it: with a summary,
      the whole-container fallback never fires. */
  lemma ContentPartsShape(soup: Soup, i: nat)
    requires IsFirst(Matches(soup, SapoSelectors), i)
    ensures ContentParts(soup) != [] && ContentParts(soup)[0] == CleanText(soup.selectOne(SapoSelectors[i]).value.text)
    ensures forall j :: IsFirst(Matches(soup, ContentSelectors), j) ==>
              ContentParts(soup)
              == [CleanText(soup.selectOne(SapoSelectors[i]).value.text)] + BodyParts(soup.selectOne(ContentSelectors[j]).value.blocks)
  {
  }

  /** Without a summary, the first container's text as a whole is used exactly when none
      of its children is kept. */
  lemma ContentFallback(soup: Soup, j: nat)
    requires NoMatch(soup, SapoSelectors) && IsFirst(Matches(soup, ContentSelectors), j)
    ensures var div := soup.selectOne(ContentSelectors[j]).value;
            && (BodyParts(div.blocks) == [] ==> ContentParts(soup) == [CleanText(div.text)])
            && (BodyParts(div.blocks) != [] ==> ContentParts(soup) == BodyParts(div.blocks))
  {
    assert SapoPart(soup) == [];
  }

  /** A summary with a kept paragraph `b` of 25 characters and a paragraph `c` of 5
      gives the summary, a blank line, and `b`. */
  lemma ContentExample(soup: Soup, sapo: Element, div: Element, b: Element, c: Element)
    requires soup.selectOne(SapoSelectors[0]) == Some(sapo)
    requires soup.selectOne(ContentSelectors[0]) == Some(div) && div.blocks == [b, c]
    requires IsContentElement(b) && |CleanText(b.text)| == 25 && |CleanText(c.text)| == 5
    ensures Join(ContentParts(soup), "\n\n") == CleanText(sapo.text) + "\n\n" + CleanText(b.text)
  {
    BodyExample(b, c);
    FirstSelectors(soup, sapo, div);
    assert ContentParts(soup) == [CleanText(sapo.text), CleanText(b.text)];
  }

  lemma BodyExample(b: Element, c: Element)
    requires IsContentElement(b) && |CleanText(b.text)| == 25 && |CleanText(c.text)| == 5
    ensures BodyParts([b, c]) == [CleanText(b.text)]
  {
    BodyPartsOfTwo(b, c);
  }

  /** Two children contribute one after the other. */
  lemma BodyPartsOfTwo(b: Element, c: Element)
    ensures BodyParts([b, c]) == KeptText(b) + KeptText(c)
  {
    assert [b, c][..1] == [b];
    assert [b][..0] == [];
  }

  lemma FirstSelectors(soup: Soup, sapo: Element, div: Element)
    requires soup.selectOne(SapoSelectors[0]) == Some(sapo) && soup.selectOne(ContentSelectors[0]) == Some(div)
    ensures ContentParts(soup) == [CleanText(sapo.text)] + BodyParts(div.blocks)
  {
    assert IsFirst(Matches(soup, SapoSelectors), 0) && IsFirst(Matches(soup, ContentSelectors), 0);
  }

  /** The summary loop of `_extract_content`, left at the first match. */
  method ExtractSapo(soup: Soup) returns (parts: seq<string>)
    ensures parts == SapoPart(soup)
  {
    parts := [];
    var i := 0;
    while i < |SapoSelectors|
      invariant 0 <= i <= |SapoSelectors|
      invariant forall j :: 0 <= j < i ==> soup.selectOne(SapoSelectors[j]).None?
    {
      var sapo := soup.selectOne(SapoSelectors[i]);
      if sapo.Some? {
        assert IsFirst(Matches(soup, SapoSelectors), i);
        parts := [CleanText(sapo.value.text)];
        return;
      }
      i := i + 1;
    }
  }

  /** The paragraph loop of `_extract_content` over a container's direct children. */
  method ExtractBody(blocks: seq<Element>) returns (parts: seq<string>)
    ensures parts == BodyParts(blocks)
  {
    parts := [];
    for k := 0 to |blocks|
      invariant parts == BodyParts(blocks[..k])
    {
      var p := blocks[k];
      assert blocks[..k + 1][..k] == blocks[..k];
      if IsContentElement(p) {
        var text := CleanText(p.text);
        if text != "" && |text| > 20 {
          parts := parts + [text];
        }
      }
    }
    assert blocks[..|blocks|] == blocks;
  }

  /** `_extract_content`: the summary, then the container loop, left at the first match. */
  method ExtractContent(soup: Soup) returns (content: string)
    ensures content == Join(ContentParts(soup), "\n\n")
  {
    var parts := ExtractSapo(soup);
    var c := 0;
    while c < |ContentSelectors|
      invariant 0 <= c <= |ContentSelectors|
      invariant forall j :: 0 <= j < c ==> soup.selectOne(ContentSelectors[j]).None?
    {
      var div := soup.selectOne(ContentSelectors[c]);
      if div.Some? {
        assert IsFirst(Matches(soup, ContentSelectors), c);
        var body := ExtractBody(div.value.blocks);
        parts := parts + body;
        if parts == [] {
          parts := [CleanText(div.value.text)];
        }
        content := Join(parts, "\n\n");
        return;
      }
      c := c + 1;
    }
    content := Join(parts, "\n\n");
  }

  // ---------------------------------------------------------------------------------
  // _is_valid_image and _extract_images

  const ImageSkips: seq<string> :=
    ["icon", "logo", "avatar", "placeholder", "lazy", "pixel", "transparent", "1x1", "data:image", "base64"]
  const ImageAreaSelector: string := ".detail-content, .article-content, article"
  const PictureSelector: string := ".detail-content picture, article picture"
  const ImageSrcAttrs: seq<string> := ["data-src", "src", "data-original"]

  /** `_is_valid_image`: a non-empty source in whose lower-cased form no skip pattern occurs. */
  function IsValidImage(src: string): (r: bool)
    ensures r <==> src != "" && forall k :: 0 <= k < |ImageSkips| ==> !Contains(Lower(src), ImageSkips[k])
  {
    src != "" && NoneContained(Lower(src), ImageSkips)
  }

  /** The URL an `<img>` contributes: its first non-empty source attribute, when it is a
      valid image source, made absolute. */
  function ImgUrl(img: Element, baseUrl: string, urljoin: (string, string) -> string): Option<string> {
    match FirstTruthy(img, ImageSrcAttrs)
    case Some(src) => if IsValidImage(src) then Some(MakeAbsoluteUrl(baseUrl, src, urljoin)) else None
    case None => None
  }

  /** The image URLs of the `<img>` elements of one content area, in document order,
      repeats included. */
  function AreaUrls(imgs: seq<Element>, baseUrl: string, urljoin: (string, string) -> string): (r: seq<string>)
    ensures |r| <= |imgs|
    decreases |imgs|
  {
    if imgs == [] then []
    else
      var last := imgs[|imgs| - 1];
      AreaUrls(imgs[..|imgs| - 1], baseUrl, urljoin) + (match ImgUrl(last, baseUrl, urljoin) case Some(u) => [u] case None => [])
  }

  /** The image URLs of all content areas, area by area. */
  function AreasUrls(areas: seq<Element>, baseUrl: string, urljoin: (string, string) -> string): seq<string>
    decreases |areas|
  {
    if areas == [] then []
    else AreasUrls(areas[..|areas| - 1], baseUrl, urljoin) + AreaUrls(areas[|areas| - 1].images, baseUrl, urljoin)
  }

  /** What a `<picture>` contributes: nothing without a `<source>` or with an empty
      `srcset`; the first whitespace-separated token of the `srcset`, made absolute,
      without the validity test; and an `IndexError` for a `srcset` of blanks only. */
  datatype PictureSrc = NoSrc | Src(url: string) | Raises

  function PictureUrl(picture: Element, baseUrl: string, urljoin: (string, string) -> string): PictureSrc {
    match picture.source
    case None => NoSrc
    case Some(source) =>
      var srcset := AttrOr(source, "srcset", "");
      if srcset == "" then NoSrc
      else
        var tokens := Words(srcset);
        if tokens == [] then Raises else Src(MakeAbsoluteUrl(baseUrl, tokens[0], urljoin))
  }

  /** A `srcset` made of whitespace only raises, whatever else the page holds. */
  lemma BlankSrcsetRaises(soup: Soup, baseUrl: string, urljoin: (string, string) -> string, q: nat)
    requires q < |soup.select(PictureSelector)|
    requires var picture := soup.select(PictureSelector)[q];
             picture.source.Some? && "srcset" in picture.source.value.attrs
             && var srcset := picture.source.value.attrs["srcset"];
                srcset != "" && forall i :: 0 <= i < |srcset| ==> IsSpace(srcset[i])
    ensures ImageUrls(soup, baseUrl, urljoin).None?
  {
    var srcset := soup.select(PictureSelector)[q].source.value.attrs["srcset"];
    assert TrimStart(srcset) == [];
    assert PictureUrl(soup.select(PictureSelector)[q], baseUrl, urljoin).Raises?;
  }

  /** The picture URLs in order, `None` when some picture raises. */
  function PicturesUrls(pictures: seq<Element>, baseUrl: string, urljoin: (string, string) -> string): (r: Option<seq<string>>)
    ensures r.None? <==> exists k :: 0 <= k < |pictures| && PictureUrl(pictures[k], baseUrl, urljoin).Raises?
    decreases |pictures|
  {
    if pictures == [] then Some([])
    else
      var last := pictures[|pictures| - 1];
      var init := pictures[..|pictures| - 1];
      assert forall k :: 0 <= k < |init| ==> init[k] == pictures[k];
      match PicturesUrls(init, baseUrl, urljoin)
      case None => None
      case Some(us) =>
        match PictureUrl(last, baseUrl, urljoin)
        case Raises => None
        case Src(u) => Some(us + [u])
        case NoSrc => Some(us)
  }

  /** `_extract_images`: the area images, then the picture sources, each URL kept once in
      first-occurrence order; `None` when a `srcset` raises. */
  function ImageUrls(soup: Soup, baseUrl: string, urljoin: (string, string) -> string): Option<seq<string>> {
    match PicturesUrls(soup.select(PictureSelector), baseUrl, urljoin)
    case None => None
    case Some(pics) => Some(DedupFrom(AreasUrls(soup.select(ImageAreaSelector), baseUrl, urljoin) + pics, {}))
  }

  /** The image list never holds a URL twice, and holds exactly the URLs of the areas and
      pictures. */
  lemma ImageUrlsDistinct(soup: Soup, baseUrl: string, urljoin: (string, string) -> string)
    requires ImageUrls(soup, baseUrl, urljoin).Some?
    ensures var images := ImageUrls(soup, baseUrl, urljoin).value;
            var pics := PicturesUrls(soup.select(PictureSelector), baseUrl, urljoin).value;
            && NoDup(images)
            && forall u :: u in images <==> u in AreasUrls(soup.select(ImageAreaSelector), baseUrl, urljoin) || u in pics
  {
    var pics := PicturesUrls(soup.select(PictureSelector), baseUrl, urljoin).value;
    DedupNoDup(AreasUrls(soup.select(ImageAreaSelector), baseUrl, urljoin) + pics, {});
  }

  /** Every URL an area contributes comes from a valid image source. */
  lemma {:induction false} AreaUrlsValid(imgs: seq<Element>, baseUrl: string, urljoin: (string, string) -> string, u: string)
    requires u in AreaUrls(imgs, baseUrl, urljoin)
    ensures exists img, src :: img in imgs && FirstTruthy(img, ImageSrcAttrs) == Some(src) && IsValidImage(src)
                               && u == MakeAbsoluteUrl(baseUrl, src, urljoin)
    decreases |imgs|
  {
    var init := imgs[..|imgs| - 1];
    var last := imgs[|imgs| - 1];
    if u in AreaUrls(init, baseUrl, urljoin) {
      AreaUrlsValid(init, baseUrl, urljoin, u);
      var img, src :| img in init && FirstTruthy(img, ImageSrcAttrs) == Some(src) && IsValidImage(src)
                      && u == MakeAbsoluteUrl(baseUrl, src, urljoin);
      assert img in imgs;
    } else {
      var src := FirstTruthy(last, ImageSrcAttrs).value;
      assert last in imgs && IsValidImage(src) && u == MakeAbsoluteUrl(baseUrl, src, urljoin);
    }
  }

  /** A `srcset` source is taken even when it fails the image test: a picture whose
      srcset starts with a logo file contributes that file. */
  lemma PictureSkipsValidity(w: string, rest: string, baseUrl: string, urljoin: (string, string) -> string, picture: Element)
    requires IsWord(w) && Contains(Lower(w), "logo") && rest != [] && IsSpace(rest[0])
    requires picture.source.Some? && Attr(picture.source.value, "srcset") == Some(w + rest)
    ensures !IsValidImage(w)
    ensures PictureUrl(picture, baseUrl, urljoin) == Src(MakeAbsoluteUrl(baseUrl, w, urljoin))
  {
    assert ImageSkips[1] == "logo";
    PictureFirstToken(w, rest, baseUrl, urljoin, picture);
  }

  /** The first token of a `srcset` is the word before the first whitespace. */
  lemma PictureFirstToken(w: string, rest: string, baseUrl: string, urljoin: (string, string) -> string, picture: Element)
    requires IsWord(w) && rest != [] && IsSpace(rest[0])
    requires picture.source.Some? && Attr(picture.source.value, "srcset") == Some(w + rest)
    ensures PictureUrl(picture, baseUrl, urljoin) == Src(MakeAbsoluteUrl(baseUrl, w, urljoin))
  {
    var srcset := AttrOr(picture.source.value, "srcset", "");
    assert srcset == w + rest && srcset != "";
    WordsHead(w, rest);
    assert Words(srcset) != [] && Words(srcset)[0] == w;
  }

  /** The `<img>` loop over one area: each valid source's URL is added to `seen` and the
      list when it is new. */
  method HarvestArea(imgs: seq<Element>, baseUrl: string, urljoin: (string, string) -> string,
                     found: seq<string>, seen: set<string>, ghost cands: seq<string>)
    returns (foundAfter: seq<string>, seenAfter: set<string>, ghost candsAfter: seq<string>)
    requires found == DedupFrom(cands, {}) && seen == Elems(found)
    ensures candsAfter == cands + AreaUrls(imgs, baseUrl, urljoin)
    ensures foundAfter == DedupFrom(candsAfter, {}) && seenAfter == Elems(foundAfter)
  {
    foundAfter, seenAfter, candsAfter := found, seen, cands;
    assert cands + AreaUrls(imgs[..0], baseUrl, urljoin) == cands;
    for k := 0 to |imgs|
      invariant candsAfter == cands + AreaUrls(imgs[..k], baseUrl, urljoin)
      invariant foundAfter == DedupFrom(candsAfter, {}) && seenAfter == Elems(foundAfter)
    {
      AreaUrlsStep(imgs, k, baseUrl, urljoin);
      var url := ImgUrl(imgs[k], baseUrl, urljoin);
      if url.Some? {
        foundAfter, seenAfter := AddNew(url.value, foundAfter, seenAfter, candsAfter);
        candsAfter := candsAfter + [url.value];
      }
    }
    assert imgs[..|imgs|] == imgs;
  }

  lemma AreaUrlsStep(imgs: seq<Element>, k: nat, baseUrl: string, urljoin: (string, string) -> string)
    requires k < |imgs|
    ensures var url := ImgUrl(imgs[k], baseUrl, urljoin);
            AreaUrls(imgs[..k + 1], baseUrl, urljoin)
            == AreaUrls(imgs[..k], baseUrl, urljoin) + (if url.Some? then [url.value] else [])
  {
    assert imgs[..k + 1][..k] == imgs[..k];
  }

  /** `if url not in seen: seen.add(url); images.append(url)`. */
  method AddNew(url: string, found: seq<string>, seen: set<string>, ghost cands: seq<string>)
    returns (foundAfter: seq<string>, seenAfter: set<string>)
    requires found == DedupFrom(cands, {}) && seen == Elems(found)
    ensures foundAfter == DedupFrom(cands + [url], {}) && seenAfter == Elems(foundAfter)
  {
    DedupSnoc(cands, url, {});
    ElemsSnoc(found, url);
    foundAfter, seenAfter := found, seen;
    if url !in seen {
      seenAfter := seen + {url};
      foundAfter := found + [url];
    }
  }

  /** The picture loop: `None` as soon as a `srcset` raises. */
  method HarvestPictures(pictures: seq<Element>, baseUrl: string, urljoin: (string, string) -> string,
                         found: seq<string>, seen: set<string>, ghost cands: seq<string>)
    returns (foundAfter: Option<seq<string>>)
    requires found == DedupFrom(cands, {}) && seen == Elems(found)
    ensures foundAfter == match PicturesUrls(pictures, baseUrl, urljoin)
                          case None => None
                          case Some(pics) => Some(DedupFrom(cands + pics, {}))
  {
    var f, sn := found, seen;
    ghost var pics: seq<string> := [];
    assert cands + pics == cands;
    for q := 0 to |pictures|
      invariant PicturesUrls(pictures[..q], baseUrl, urljoin) == Some(pics)
      invariant f == DedupFrom(cands + pics, {}) && sn == Elems(f)
    {
      PicturesStep(pictures, q, baseUrl, urljoin);
      var src := PictureSource(pictures[q], baseUrl, urljoin);
      if src.Raises? {
        PicturesRaise(pictures, q, baseUrl, urljoin);
        return None;
      } else if src.Src? {
        f, sn := AddNew(src.url, f, sn, cands + pics);
        assert cands + pics + [src.url] == cands + (pics + [src.url]);
        pics := pics + [src.url];
      }
    }
    assert pictures[..|pictures|] == pictures;
    return Some(f);
  }

  /** `_extract_images`: the loop over areas and their `<img>` elements, then the loop over
      pictures, both sharing one `seen` set. */
  method ExtractImages(soup: Soup, baseUrl: string, urljoin: (string, string) -> string) returns (images: Option<seq<string>>)
    ensures images == ImageUrls(soup, baseUrl, urljoin)
  {
    var areas := soup.select(ImageAreaSelector);
    var found: seq<string> := [];
    var seen: set<string> := {};
    ghost var cands: seq<string> := [];
    for a := 0 to |areas|
      invariant cands == AreasUrls(areas[..a], baseUrl, urljoin)
      invariant found == DedupFrom(cands, {}) && seen == Elems(found)
    {
      assert areas[..a + 1][..a] == areas[..a];
      found, seen, cands := HarvestArea(areas[a].images, baseUrl, urljoin, found, seen, cands);
    }
    assert areas[..|areas|] == areas;
    images := HarvestPictures(soup.select(PictureSelector), baseUrl, urljoin, found, seen, cands);
  }

  /** The body of the picture loop for one `<picture>`: its `<source>`, the `srcset`
      attribute and its first token. */
  method PictureSource(picture: Element, baseUrl: string, urljoin: (string, string) -> string) returns (r: PictureSrc)
    ensures r == PictureUrl(picture, baseUrl, urljoin)
  {
    var source := picture.source;
    if source.None? {
      return NoSrc;
    }
    var srcset := AttrOr(source.value, "srcset", "");
    if srcset == "" {
      return NoSrc;
    }
    var tokens := Words(srcset);
    if tokens == [] {
      return Raises;
    }
    return Src(MakeAbsoluteUrl(baseUrl, tokens[0], urljoin));
  }

  lemma PicturesStep(pictures: seq<Element>, q: nat, baseUrl: string, urljoin: (string, string) -> string)
    requires q < |pictures|
    ensures PicturesUrls(pictures[..q + 1], baseUrl, urljoin)
            == match PicturesUrls(pictures[..q], baseUrl, urljoin)
               case None => None
               case Some(us) =>
                 match PictureUrl(pictures[q], baseUrl, urljoin)
                 case Raises => None
                 case Src(u) => Some(us + [u])
                 case NoSrc => Some(us)
  {
    assert pictures[..q + 1][..q] == pictures[..q];
  }

  /** A picture that raises makes the whole image extraction raise. */
  lemma PicturesRaise(pictures: seq<Element>, q: nat, baseUrl: string, urljoin: (string, string) -> string)
    requires q < |pictures| && PictureUrl(pictures[q], baseUrl, urljoin).Raises?
    ensures PicturesUrls(pictures, baseUrl, urljoin).None?
  {
  }

  // ---------------------------------------------------------------------------------
  // _extract_audio

  const PodcastSelectors: seq<string> := [".podcast-player audio source", ".audio-player source", "[data-audio-src]", "a[href$=\".mp3\"]"]
  const PodcastAttrs: seq<string> := ["src", "data-audio-src", "href"]

  /** The audio sources in the order `_extract_audio` tries them: the first `<audio>`'s
      nested `<source>` src, its own src, then each podcast selector's first non-empty
      `src`, `data-audio-src` or `href`; the empty ones as `None`. */
  function AudioCandidates(soup: Soup): (r: seq<Option<string>>)
    ensures |r| == 2 + |PodcastSelectors|
  {
    var fromTag: seq<Option<string>> :=
      match soup.audio
      case None => [None, None]
      case Some(a) =>
        [match a.source case Some(s) => (if Truthy(Attr(s, "src")) then Attr(s, "src") else None) case None => None,
         if Truthy(Attr(a, "src")) then Attr(a, "src") else None];
    fromTag + seq(|PodcastSelectors|, i requires 0 <= i < |PodcastSelectors| =>
                    match soup.selectOne(PodcastSelectors[i])
                    case Some(e) => FirstTruthy(e, PodcastAttrs)
                    case None => None)
  }

  /** `_extract_audio`: the first available source, made absolute; `None` when there is
      none. */
  function ExtractAudio(soup: Soup, baseUrl: string, urljoin: (string, string) -> string): (r: Option<string>)
    ensures r.None? <==> forall k :: 0 <= k < |AudioCandidates(soup)| ==> AudioCandidates(soup)[k].None?
    ensures forall k :: IsFirst(AudioCandidates(soup), k) ==>
              r == Some(MakeAbsoluteUrl(baseUrl, AudioCandidates(soup)[k].value, urljoin))
  {
    match First(AudioCandidates(soup))
    case Some(src) => Some(MakeAbsoluteUrl(baseUrl, src, urljoin))
    case None => None
  }

  /** The `<audio>` element's nested source wins over everything else, and a podcast
      element without any source attribute does not stop the search. */
  lemma AudioPriority(soup: Soup, baseUrl: string, urljoin: (string, string) -> string)
    ensures soup.audio.Some? && soup.audio.value.source.Some? && Truthy(Attr(soup.audio.value.source.value, "src")) ==>
              ExtractAudio(soup, baseUrl, urljoin) == Some(MakeAbsoluteUrl(baseUrl, Attr(soup.audio.value.source.value, "src").value, urljoin))
    ensures soup.audio.None? && soup.selectOne(PodcastSelectors[0]).Some?
            && FirstTruthy(soup.selectOne(PodcastSelectors[0]).value, PodcastAttrs).None? ==>
              ExtractAudio(soup, baseUrl, urljoin) == ExtractAudio(soup.(selectOne := SkipFirstPodcast(soup.selectOne)), baseUrl, urljoin)
  {
    var cands := AudioCandidates(soup);
    if soup.audio.Some? && soup.audio.value.source.Some? && Truthy(Attr(soup.audio.value.source.value, "src")) {
      assert IsFirst(cands, 0);
    }
    if soup.audio.None? && soup.selectOne(PodcastSelectors[0]).Some? && FirstTruthy(soup.selectOne(PodcastSelectors[0]).value, PodcastAttrs).None? {
      var other := AudioCandidates(soup.(selectOne := SkipFirstPodcast(soup.selectOne)));
      assert cands == other;
    }
  }

  /** A `select_one` that finds nothing for the first podcast selector. */
  function SkipFirstPodcast(selectOne: string -> Option<Element>): string -> Option<Element> {
    (s: string) => if s == PodcastSelectors[0] then None else selectOne(s)
  }

  // ---------------------------------------------------------------------------------
  // _extract_reactions

  const ReactionSelectors: seq<string> := [".emotion-bar .emotion-item", ".reactions .reaction-item", ".vote-item", "[data-reaction]"]
  const EmotionWords: seq<string> := ["like", "love", "angry", "sad", "wow", "haha"]
  const LabelAttrs: seq<string> := ["data-reaction", "data-type"]

  /** A class names an emotion when an emotion word occurs in its lower-cased form. */
  predicate IsEmotionClass(c: string) {
    !NoneContained(Lower(c), EmotionWords)
  }

  function EmotionClasses(classes: seq<string>): (r: seq<Option<string>>)
    ensures |r| == |classes|
    ensures forall k :: 0 <= k < |classes| ==> r[k] == if IsEmotionClass(classes[k]) then Some(classes[k]) else None
  {
    seq(|classes|, k requires 0 <= k < |classes| => if IsEmotionClass(classes[k]) then Some(classes[k]) else None)
  }

  /** The label of a reaction item: `data-reaction` or `data-type` when non-empty, else the
      first class naming an emotion, as written. */
  function ReactionLabel(item: Element): Option<string> {
    match FirstTruthy(item, LabelAttrs)
    case Some(l) => Some(l)
    case None => First(EmotionClasses(item.classes))
  }

  /** An item is skipped exactly when it has neither label attribute nor emotion class. */
  lemma ReactionLabelSkips(item: Element)
    ensures ReactionLabel(item).None? <==>
              FirstTruthy(item, LabelAttrs).None? && forall k :: 0 <= k < |item.classes| ==> !IsEmotionClass(item.classes[k])
  {
  }

  /** A label is never empty. */
  lemma ReactionLabelNonEmpty(item: Element)
    ensures ReactionLabel(item).Some? ==> ReactionLabel(item).value != ""
  {
    var c := First(EmotionClasses(item.classes));
    if FirstTruthy(item, LabelAttrs).None? && c.Some? {
      var k :| IsFirst(EmotionClasses(item.classes), k) && EmotionClasses(item.classes)[k] == c;
    }
  }

  /** The count of an item: the digits of its first `<span>`, 0 without a span or digits. */
  function ReactionCount(item: Element): nat {
    match item.span
    case Some(s) => DigitCount(s.text)
    case None => 0
  }

  /** The counts by labelOf, items in order, a later item overwriting an earlier one. */
  function Tally(items: seq<Element>, labelOf: Element -> Option<string>, countOf: Element -> nat): map<string, nat>
    decreases |items|
  {
    if items == [] then map[]
    else
      var m := Tally(items[..|items| - 1], labelOf, countOf);
      match labelOf(items[|items| - 1])
      case Some(l) => m[l := countOf(items[|items| - 1])]
      case None => m
  }

  /** The labels are exactly those of the items that have one. */
  lemma {:induction false} TallyKeys(items: seq<Element>, labelOf: Element -> Option<string>, countOf: Element -> nat, l: string)
    ensures l in Tally(items, labelOf, countOf) <==> exists k :: 0 <= k < |items| && labelOf(items[k]) == Some(l)
    decreases |items|
  {
    if items != [] {
      var init := items[..|items| - 1];
      TallyKeys(init, labelOf, countOf, l);
      assert forall k :: 0 <= k < |init| ==> init[k] == items[k];
    }
  }

  /** The countOf of a labelOf is the one of the last item carrying it. */
  lemma {:induction false} TallyLastWins(items: seq<Element>, labelOf: Element -> Option<string>, countOf: Element -> nat,
                                         j: nat, l: string)
    requires j < |items| && labelOf(items[j]) == Some(l)
    requires forall k :: j < k < |items| ==> labelOf(items[k]) != Some(l)
    ensures l in Tally(items, labelOf, countOf) && Tally(items, labelOf, countOf)[l] == countOf(items[j])
    decreases |items|
  {
    if j < |items| - 1 {
      var init := items[..|items| - 1];
      assert init[j] == items[j];
      TallyLastWins(init, labelOf, countOf, j, l);
    }
  }

  /** One more item of `items` updates the counts by its own label and count. */
  lemma TallyNext(done: seq<Element>, items: seq<Element>, k: nat, labelOf: Element -> Option<string>, countOf: Element -> nat)
    requires k < |items|
    ensures Tally(done + items[..k + 1], labelOf, countOf)
            == match labelOf(items[k])
               case Some(l) => Tally(done + items[..k], labelOf, countOf)[l := countOf(items[k])]
               case None => Tally(done + items[..k], labelOf, countOf)
  {
    var s := done + items[..k + 1];
    assert s[..|s| - 1] == done + items[..k];
    assert s[|s| - 1] == items[k];
  }

  function Reactions(items: seq<Element>): map<string, nat> {
    Tally(items, ReactionLabel, ReactionCount)
  }

  /** The reaction labels are those of the labelled items, and each count is the one of
      the last item with that label. */
  lemma ReactionsLastWins(items: seq<Element>, j: nat, l: string)
    requires j < |items| && ReactionLabel(items[j]) == Some(l)
    requires forall k :: j < k < |items| ==> ReactionLabel(items[k]) != Some(l)
    ensures l in Reactions(items) && Reactions(items)[l] == ReactionCount(items[j])
    ensures forall l' :: l' in Reactions(items) <==> exists k :: 0 <= k < |items| && ReactionLabel(items[k]) == Some(l')
  {
    TallyLastWins(items, ReactionLabel, ReactionCount, j, l);
    forall l' {
      TallyKeys(items, ReactionLabel, ReactionCount, l');
    }
  }

  /** The items of every reaction selector, selector by selector. */
  function ReactionItems(soup: Soup): seq<Element> {
    Flatten(seq(|ReactionSelectors|, i requires 0 <= i < |ReactionSelectors| => soup.select(ReactionSelectors[i])))
  }

  /** The item loop of one selector, updating the dict. */
  method HarvestReactions(items: seq<Element>, reactions: map<string, nat>, ghost done: seq<Element>)
    returns (reactionsAfter: map<string, nat>)
    requires reactions == Tally(done, ReactionLabel, ReactionCount)
    ensures reactionsAfter == Tally(done + items, ReactionLabel, ReactionCount)
  {
    reactionsAfter := reactions;
    assert done + items[..0] == done;
    for k := 0 to |items|
      invariant reactionsAfter == Tally(done + items[..k], ReactionLabel, ReactionCount)
    {
      TallyNext(done, items, k, ReactionLabel, ReactionCount);
      var name := ReactionLabel(items[k]);
      if name.Some? {
        reactionsAfter := reactionsAfter[name.value := ReactionCount(items[k])];
      }
    }
    assert items[..|items|] == items;
  }

  /** `_extract_reactions`: the loop over selectors and their items. */
  method ExtractReactions(soup: Soup) returns (reactions: map<string, nat>)
    ensures reactions == Reactions(ReactionItems(soup))
  {
    var lists := seq(|ReactionSelectors|, i requires 0 <= i < |ReactionSelectors| => soup.select(ReactionSelectors[i]));
    reactions := map[];
    for s := 0 to |lists|
      invariant reactions == Reactions(Flatten(lists[..s]))
    {
      assert lists[..s + 1][..s] == lists[..s];
      reactions := HarvestReactions(lists[s], reactions, Flatten(lists[..s]));
    }
    assert lists[..|lists|] == lists;
  }

  // ---------------------------------------------------------------------------------
  // crawl_post

  /** The post a fetched page gives, or the `IndexError` of a bad `srcset`. */
  function PostOf(soup: Soup, postUrl: string, category: string, md5Hex: string -> string,
                  urljoin: (string, string) -> string): Outcome
  {
    match ImageUrls(soup, postUrl, urljoin)
    case None => Raised
    case Some(images) =>
      Crawled(Post(ExtractPostId(postUrl, md5Hex), postUrl, ExtractTitle(soup), Join(ContentParts(soup), "\n\n"),
                   ExtractAuthor(soup), ExtractDate(soup), category, images, ExtractAudio(soup, postUrl, urljoin),
                   Reactions(ReactionItems(soup))))
  }

  /** A crawled post keeps its URL and category, has a clean title, author and date, and
      lists no image twice. */
  lemma PostOfFacts(soup: Soup, postUrl: string, category: string, md5Hex: string -> string,
                    urljoin: (string, string) -> string)
    ensures var r := PostOf(soup, postUrl, category, md5Hex, urljoin);
            r.Crawled? ==> && r.post.url == postUrl && r.post.category == category
                           && IsClean(r.post.title) && IsClean(r.post.author) && IsClean(r.post.date)
                           && NoDup(r.post.images)
  {
    if ImageUrls(soup, postUrl, urljoin).Some? {
      ImageUrlsDistinct(soup, postUrl, urljoin);
    }
  }

  /** `crawl_post`: fetch with retries, then extract every field; images and audio are
      resolved against the post URL. */
  method CrawlPost(postUrl: string, category: string, attempt: (string, nat) -> Option<Soup>,
                   md5Hex: string -> string, urljoin: (string, string) -> string)
    returns (r: Outcome)
    ensures FirstSuccess(attempt, postUrl, MAX_RETRIES).None? ==> r == NoPage
    ensures FirstSuccess(attempt, postUrl, MAX_RETRIES).Some? ==>
              r == PostOf(FirstSuccess(attempt, postUrl, MAX_RETRIES).value, postUrl, category, md5Hex, urljoin)
  {
    var response, _, _ := MakeRequest(postUrl, MAX_RETRIES, attempt);
    if response.None? {
      return NoPage;
    }
    var soup := response.value;
    var postId := ExtractPostId(postUrl, md5Hex);
    var title := ExtractTitle(soup);
    var content := ExtractContent(soup);
    var author := ExtractAuthor(soup);
    var date := ExtractDate(soup);
    var images := ExtractImages(soup, postUrl, urljoin);
    if images.None? {
      return Raised;
    }
    var audio := ExtractAudio(soup, postUrl, urljoin);
    var reactions := ExtractReactions(soup);
    r := Crawled(Post(postId, postUrl, title, content, author, date, category, images.value, audio, reactions));
  }
}
