/** Category discovery by static pagination (crawler/category_crawler.py): the category
    name of a listing URL, the rule that tells article URLs from listing URLs, the page URL
    of page `n`, the harvesting of article links through a shared `seen_urls` set, and the
    page loop that stops on a failed fetch or a page without new links.

    A fetched listing page is given as what its CSS selectors select: for each of the seven
    link selectors the `href` of every matching link (`None` when the link has none), and
    for each container the `href` of its first link carrying one. */
module CategoryCrawler {
  import opened Wrappers
  import opened Text
  import opened Seqs
  import opened Config
  import opened Helpers

  /** The `(post_url, category_name)` pair the crawler collects. */
  datatype PostRef = PostRef(url: string, category: string)

  /** A listing page as its selectors see it. */
  datatype ListingPage = ListingPage(selectorLinks: seq<seq<Option<string>>>, containerLinks: seq<Option<string>>)

  /** The hrefs in the order `_extract_post_urls` looks at them: every selector pass in
      turn, then the container fallback. */
  function Candidates(page: ListingPage): seq<Option<string>> {
    Flatten(page.selectorLinks) + page.containerLinks
  }

  // ---------------------------------------------------------------------------------
  // get_category_name

  /** `re.search(r'/([^/]+)\.htm$', u)`: the group is the text between the last `/` and a
      final `.htm`; `$` also matches before a single trailing newline. */
  function CategoryName(u: string): (r: string)
    ensures r != "" && '/' !in r
    ensures !EndsWith(u, ".htm") && !EndsWith(u, ".htm\n") ==> r == "unknown"
    ensures r == "unknown" || EndsWith(u, "/" + r + ".htm") || EndsWith(u, "/" + r + ".htm\n")
  {
    if EndsWith(u, ".htm") then NameBefore(u, ".htm")
    else if EndsWith(u, ".htm\n") then NameBefore(u, ".htm\n")
    else "unknown"
  }

  /** The non-empty text between the last `/` and the final `suffix`, else `"unknown"`. */
  function NameBefore(u: string, suffix: string): (r: string)
    requires EndsWith(u, suffix)
    ensures r != "" && '/' !in r
    ensures r == "unknown" || EndsWith(u, "/" + r + suffix)
  {
    var seg := u[..|u| - |suffix|];
    match AfterLast(seg, '/')
    case Some(name) =>
      if name == "" then "unknown"
      else
        assert seg + suffix == u;
        EndsWithAppend(seg, "/" + name, suffix);
        name
    case None => "unknown"
  }

  lemma EndsWithAppend(s: string, t: string, x: string)
    requires EndsWith(s, t)
    ensures EndsWith(s + x, t + x)
  {
    assert (s + x)[|s + x| - |t + x|..] == s[|s| - |t|..] + x;
  }

  /** The name of a category URL `p/name.htm` (or with `.htm` and a newline at the end)
      is `name`. */
  lemma CategoryNameOf(p: string, name: string, suffix: string)
    requires name != "" && '/' !in name
    requires suffix == ".htm" || suffix == ".htm\n"
    ensures CategoryName(p + "/" + name + suffix) == name
  {
    var u := p + "/" + name + suffix;
    assert u[..|u| - |suffix|] == p + ['/'] + name;
    assert u[|u| - |suffix|..] == suffix;
    if suffix == ".htm\n" {
      assert u[|u| - 1] == '\n';
    }
    AfterLastOf(p, '/', name);
  }

  // ---------------------------------------------------------------------------------
  // _is_valid_post_url

  /** `re.search(prefix + r'\d+\.htm$', u)` for a URL ending in `.htm`: the digits before
      `.htm` are preceded by `prefix`. */
  predicate EndsWithNumbered(u: string, prefix: string) {
    && EndsWith(u, ".htm")
    && var stem := u[..|u| - 4];
    && var n := TrailingDigits(stem);
    && n > 0 && EndsWith(stem[..|stem| - n], prefix)
  }

  /** The static crawler's rule: ends with `.htm`, is not a pagination page
      `-p<digits>.htm`, and carries a post id `-<digits>.htm`. */
  predicate IsValidPostUrl(u: string) {
    EndsWith(u, ".htm") && !EndsWithNumbered(u, "-p") && EndsWithNumbered(u, "-")
  }

  /** The pattern read directly: `u` ends with `prefix`, the digits `d` and `.htm`. */
  predicate NumberedWith(u: string, prefix: string, d: string) {
    d != [] && AllDigits(d) && EndsWith(u, prefix + d + ".htm")
  }

  /** The regex test agrees with the pattern, for any prefix ending in a non-digit. */
  lemma NumberedIff(u: string, prefix: string)
    requires prefix != [] && !IsDigit(prefix[|prefix| - 1])
    ensures EndsWithNumbered(u, prefix) <==> exists d :: NumberedWith(u, prefix, d)
  {
    if EndsWithNumbered(u, prefix) {
      var stem := u[..|u| - 4];
      var n := TrailingDigits(stem);
      var d := stem[|stem| - n..];
      assert u[|u| - |prefix + d + ".htm"|..] == stem[|stem| - n - |prefix|..|stem| - n] + d + ".htm";
      assert NumberedWith(u, prefix, d);
    }
    if exists d :: NumberedWith(u, prefix, d) {
      var d :| NumberedWith(u, prefix, d);
      NumberedWithDigits(u, prefix, d);
    }
  }

  /** A pattern match fixes the digits: they are all of the stem's trailing digits. */
  lemma NumberedWithDigits(u: string, prefix: string, d: string)
    requires prefix != [] && !IsDigit(prefix[|prefix| - 1])
    requires NumberedWith(u, prefix, d)
    ensures EndsWithNumbered(u, prefix)
  {
    var stem := u[..|u| - 4];
    var x := stem[..|stem| - |d|];
    assert u[|u| - 4..] == ".htm" by {
      assert u[|u| - |prefix + d + ".htm"|..][|prefix + d|..] == ".htm";
    }
    assert stem == x + d by {
      assert stem[|stem| - |d|..] == u[|u| - |prefix + d + ".htm"|..][|prefix|..|prefix| + |d|];
    }
    assert x[|x| - |prefix|..] == prefix by {
      assert x[|x| - |prefix|..] == u[|u| - |prefix + d + ".htm"|..][..|prefix|];
    }
    TrailingDigitsOf(x, d);
  }

  /** `_is_valid_post_url` in the terms of its three patterns. */
  lemma ValidPostUrlIff(u: string)
    ensures IsValidPostUrl(u) <==>
              EndsWith(u, ".htm") && !(exists d :: NumberedWith(u, "-p", d)) && exists d :: NumberedWith(u, "-", d)
  {
    NumberedIff(u, "-p");
    NumberedIff(u, "-");
  }

  /** The pagination test never changes the answer: the digits cannot be preceded by both
      `-p` and `-`, so the rule is the same as asking for `-<digits>.htm` alone. */
  lemma PaginationTestRedundant(u: string)
    ensures IsValidPostUrl(u) <==> EndsWithNumbered(u, "-")
  {
    if EndsWithNumbered(u, "-") {
      var stem := u[..|u| - 4];
      var x := stem[..|stem| - TrailingDigits(stem)];
      assert x[|x| - 1] == '-';
    }
  }

  /** An article URL is accepted. */
  lemma ArticleUrlExample()
    ensures IsValidPostUrl("abc-12345.htm")
  {
    NumberedWithDigits("abc-12345.htm", "-", "12345");
  }

  /** A pagination URL is not. */
  lemma PaginationUrlExample()
    ensures !IsValidPostUrl("thoi-su-p2.htm")
  {
    assert "thoi-su-p2.htm"[..10] == "thoi-su-p2";
    assert TrailingDigits("thoi-su-p2") == 1 by {
      TrailingDigitsOf("thoi-su-p", "2");
      assert "thoi-su-p" + "2" == "thoi-su-p2";
    }
  }

  // ---------------------------------------------------------------------------------
  // page URL construction

  /** The URL of listing page `page`: the category URL itself for page 1, otherwise the
      category URL with every `.htm` removed and `-p<page>.htm` appended. */
  function PageUrl(categoryUrl: string, page: nat): (r: string)
    ensures page == 1 ==> r == categoryUrl
    ensures page != 1 ==> EndsWith(r, "-p" + NatToString(page) + ".htm")
  {
    if page == 1 then categoryUrl
    else
      var r := RemoveAll(categoryUrl, ".htm") + "-p" + NatToString(page) + ".htm";
      assert r[|r| - |"-p" + NatToString(page) + ".htm"|..] == "-p" + NatToString(page) + ".htm";
      r
  }

  /** For a category URL `a.htm` whose only `.htm` is the final one, page `n` is
      `a-p<n>.htm`. */
  lemma PageUrlOf(a: string, page: nat)
    requires page != 1
    requires forall i :: 0 <= i < |a| ==> !OccursAt(a + ".htm", ".htm", i)
    ensures PageUrl(a + ".htm", page) == a + "-p" + NatToString(page) + ".htm"
  {
    RemoveAllLast(a, ".htm");
  }

  /** A page URL is the page number's digits behind `-p`: the number can be read back. */
  lemma PageUrlNumbered(categoryUrl: string, page: nat)
    requires page != 1
    ensures NumberedWith(PageUrl(categoryUrl, page), "-p", NatToString(page))
    ensures EndsWithNumbered(PageUrl(categoryUrl, page), "-p")
  {
    NumberedWithDigits(PageUrl(categoryUrl, page), "-p", NatToString(page));
  }

  /** Pagination pages are never taken for articles. */
  lemma PageUrlNotPost(categoryUrl: string, page: nat)
    requires page != 1
    ensures !IsValidPostUrl(PageUrl(categoryUrl, page))
  {
    PageUrlNumbered(categoryUrl, page);
  }

  /** Distinct page numbers from 2 on give distinct page URLs. */
  lemma PageUrlInjective(categoryUrl: string, m: nat, n: nat)
    requires m != 1 && n != 1 && PageUrl(categoryUrl, m) == PageUrl(categoryUrl, n)
    ensures m == n
  {
    var u := PageUrl(categoryUrl, m);
    var stem := u[..|u| - 4];
    var t := TrailingDigits(stem);
    NumberedDigitsUnique(u, "-p", NatToString(m));
    NumberedDigitsUnique(u, "-p", NatToString(n));
    NatToStringInjective(m, n);
  }

  /** The digits of a match are the stem's trailing digits. */
  lemma NumberedDigitsUnique(u: string, prefix: string, d: string)
    requires prefix != [] && !IsDigit(prefix[|prefix| - 1])
    requires NumberedWith(u, prefix, d)
    ensures |u| >= 4 && d == u[..|u| - 4][|u| - 4 - TrailingDigits(u[..|u| - 4])..]
  {
    NumberedWithDigits(u, prefix, d);
    var stem := u[..|u| - 4];
    var x := stem[..|stem| - |d|];
    assert stem == x + d by {
      assert stem[|stem| - |d|..] == u[|u| - |prefix + d + ".htm"|..][|prefix|..|prefix| + |d|];
    }
    assert x[|x| - 1] == prefix[|prefix| - 1] by {
      assert x[|x| - 1] == u[|u| - |prefix + d + ".htm"|..][|prefix| - 1];
    }
    TrailingDigitsOf(x, d);
  }

  // ---------------------------------------------------------------------------------
  // _extract_post_urls

  /** The absolute URLs of the candidates that are non-empty and pass `valid`, in order
      and with repeats: validity is decided on the raw href, before it is made absolute. */
  function Accepted(cands: seq<Option<string>>, baseUrl: string, valid: string -> bool,
                    urljoin: (string, string) -> string): (r: seq<string>)
    ensures |r| <= |cands|
    decreases |cands|
  {
    if cands == [] then []
    else
      var init := cands[..|cands| - 1];
      var rest := Accepted(init, baseUrl, valid, urljoin);
      var last := cands[|cands| - 1];
      if last.Some? && last.value != "" && valid(last.value)
      then rest + [MakeAbsoluteUrl(baseUrl, last.value, urljoin)]
      else rest
  }

  /** Candidate `k` is a non-empty href passing `valid` whose absolute form is `u`. */
  predicate AcceptedAt(cands: seq<Option<string>>, k: int, baseUrl: string, valid: string -> bool,
                       urljoin: (string, string) -> string, u: string)
    requires 0 <= k < |cands|
  {
    cands[k].Some? && cands[k].value != "" && valid(cands[k].value)
    && u == MakeAbsoluteUrl(baseUrl, cands[k].value, urljoin)
  }

  /** Every accepted URL comes from a candidate that passes. */
  lemma {:induction false} AcceptedFrom(cands: seq<Option<string>>, baseUrl: string, valid: string -> bool,
                                        urljoin: (string, string) -> string, u: string)
    requires u in Accepted(cands, baseUrl, valid, urljoin)
    ensures exists k :: 0 <= k < |cands| && AcceptedAt(cands, k, baseUrl, valid, urljoin, u)
    decreases |cands|
  {
    var init := cands[..|cands| - 1];
    if u in Accepted(init, baseUrl, valid, urljoin) {
      AcceptedFrom(init, baseUrl, valid, urljoin, u);
      var k :| 0 <= k < |init| && AcceptedAt(init, k, baseUrl, valid, urljoin, u);
      assert init[k] == cands[k];
      assert AcceptedAt(cands, k, baseUrl, valid, urljoin, u);
    } else {
      assert AcceptedAt(cands, |cands| - 1, baseUrl, valid, urljoin, u);
    }
  }

  /** One more candidate adds its absolute URL when it passes, and nothing otherwise. */
  lemma AcceptedSnoc(cands: seq<Option<string>>, i: int, baseUrl: string, valid: string -> bool,
                     urljoin: (string, string) -> string)
    requires 0 <= i < |cands|
    ensures Accepted(cands[..i + 1], baseUrl, valid, urljoin)
            == Accepted(cands[..i], baseUrl, valid, urljoin)
               + (if cands[i].Some? && cands[i].value != "" && valid(cands[i].value)
                  then [MakeAbsoluteUrl(baseUrl, cands[i].value, urljoin)] else [])
  {
    assert cands[..i + 1][..i] == cands[..i];
  }

  /** The pairs `(url, category)` for each URL, in order. */
  function Tagged(urls: seq<string>, category: string): (r: seq<PostRef>)
    ensures |r| == |urls|
    decreases |urls|
  {
    if urls == [] then []
    else Tagged(urls[..|urls| - 1], category) + [PostRef(urls[|urls| - 1], category)]
  }

  lemma TaggedSnoc(urls: seq<string>, url: string, category: string)
    ensures Tagged(urls + [url], category) == Tagged(urls, category) + [PostRef(url, category)]
  {
    assert (urls + [url])[..|urls|] == urls;
  }

  lemma {:induction false} TaggedAt(urls: seq<string>, category: string, k: int)
    requires 0 <= k < |urls|
    ensures Tagged(urls, category)[k] == PostRef(urls[k], category)
    decreases |urls|
  {
    if k < |urls| - 1 {
      TaggedAt(urls[..|urls| - 1], category, k);
    }
  }

  lemma {:induction false} TaggedAppend(a: seq<string>, b: seq<string>, category: string)
    ensures Tagged(a + b, category) == Tagged(a, category) + Tagged(b, category)
    decreases |b|
  {
    if b != [] {
      var b' := b[..|b| - 1];
      assert (a + b)[..|a + b| - 1] == a + b';
      TaggedAppend(a, b', category);
    } else {
      assert a + b == a;
    }
  }

  lemma {:induction false} TaggedPrefix(a: seq<string>, n: nat, category: string)
    requires n <= |a|
    ensures Tagged(a, category)[..n] == Tagged(a[..n], category)
    decreases |a|
  {
    if n < |a| {
      var a' := a[..|a| - 1];
      TaggedPrefix(a', n, category);
      assert a'[..n] == a[..n];
      assert Tagged(a, category)[..n] == Tagged(a', category)[..n];
    } else {
      assert a[..n] == a;
    }
  }

  lemma TaggedSlice(a: seq<string>, n: int, category: string)
    ensures SliceTo(Tagged(a, category), n) == Tagged(SliceTo(a, n), category)
  {
    TaggedPrefix(a, |SliceTo(a, n)|, category);
  }

  /** `_extract_post_urls`: one pass over the candidates of a page, keeping each accepted
      URL not yet in `seen`. `seen` comes back with the new URLs added (the source adds
      them to the caller's set in place). */
  method ExtractPostUrls(page: ListingPage, baseUrl: string, categoryName: string, seen: set<string>,
                         valid: string -> bool, urljoin: (string, string) -> string)
    returns (posts: seq<PostRef>, seenAfter: set<string>)
    ensures posts == Tagged(DedupFrom(Accepted(Candidates(page), baseUrl, valid, urljoin), seen), categoryName)
    ensures seenAfter == seen + Elems(DedupFrom(Accepted(Candidates(page), baseUrl, valid, urljoin), seen))
  {
    var cands := Candidates(page);
    ghost var urls: seq<string> := [];
    posts, seenAfter := [], seen;
    for i := 0 to |cands|
      invariant urls == DedupFrom(Accepted(cands[..i], baseUrl, valid, urljoin), seen)
      invariant posts == Tagged(urls, categoryName)
      invariant seenAfter == seen + Elems(urls)
    {
      ExtractStep(cands, i, baseUrl, valid, urljoin, seen, urls);
      var href := cands[i];
      if href.Some? && href.value != "" && valid(href.value) {
        var url := MakeAbsoluteUrl(baseUrl, href.value, urljoin);
        if url !in seenAfter {
          seenAfter := seenAfter + {url};
          TaggedSnoc(urls, url, categoryName);
          ElemsSnoc(urls, url);
          posts := posts + [PostRef(url, categoryName)];
          urls := urls + [url];
        }
      }
    }
    assert cands[..|cands|] == cands;
  }

  /** One candidate more: a passing href whose URL is new is appended, anything else
      leaves the harvest as it was. */
  lemma ExtractStep(cands: seq<Option<string>>, i: int, baseUrl: string, valid: string -> bool,
                    urljoin: (string, string) -> string, seen: set<string>, urls: seq<string>)
    requires 0 <= i < |cands|
    requires urls == DedupFrom(Accepted(cands[..i], baseUrl, valid, urljoin), seen)
    ensures var href := cands[i];
            var harvest := DedupFrom(Accepted(cands[..i + 1], baseUrl, valid, urljoin), seen);
            if href.Some? && href.value != "" && valid(href.value) then
              var url := MakeAbsoluteUrl(baseUrl, href.value, urljoin);
              harvest == if url in seen + Elems(urls) then urls else urls + [url]
            else harvest == urls
  {
    AcceptedSnoc(cands, i, baseUrl, valid, urljoin);
    var acc := Accepted(cands[..i], baseUrl, valid, urljoin);
    var href := cands[i];
    if href.Some? && href.value != "" && valid(href.value) {
      var url := MakeAbsoluteUrl(baseUrl, href.value, urljoin);
      DedupSnoc(acc, url, seen);
      assert url in seen + Elems(urls) <==> url in seen || url in urls;
    } else {
      assert acc + [] == acc;
    }
  }

  /** What a harvest returns is new with respect to `seen`, has no repeats, and is
      exactly the accepted URLs of the page that `seen` did not hold. */
  lemma ExtractFresh(page: ListingPage, baseUrl: string, seen: set<string>, valid: string -> bool,
                     urljoin: (string, string) -> string)
    ensures var newUrls := DedupFrom(Accepted(Candidates(page), baseUrl, valid, urljoin), seen);
            NoDup(newUrls) && (forall u :: u in newUrls ==> u !in seen)
            && forall k :: 0 <= k < |Candidates(page)| && Candidates(page)[k].Some? ==>
                 var h := Candidates(page)[k].value;
                 h != "" && valid(h) && MakeAbsoluteUrl(baseUrl, h, urljoin) !in seen ==>
                   MakeAbsoluteUrl(baseUrl, h, urljoin) in newUrls
  {
    var cands := Candidates(page);
    DedupNoDup(Accepted(cands, baseUrl, valid, urljoin), seen);
    forall k | 0 <= k < |cands| && cands[k].Some? && cands[k].value != "" && valid(cands[k].value)
      ensures MakeAbsoluteUrl(baseUrl, cands[k].value, urljoin) in Accepted(cands, baseUrl, valid, urljoin)
    {
      AcceptedHas(cands, k, baseUrl, valid, urljoin);
    }
  }

  /** Every candidate that passes appears among the accepted URLs. */
  lemma {:induction false} AcceptedHas(cands: seq<Option<string>>, k: int, baseUrl: string,
                                       valid: string -> bool, urljoin: (string, string) -> string)
    requires 0 <= k < |cands| && cands[k].Some? && cands[k].value != "" && valid(cands[k].value)
    ensures MakeAbsoluteUrl(baseUrl, cands[k].value, urljoin) in Accepted(cands, baseUrl, valid, urljoin)
    decreases |cands|
  {
    if k < |cands| - 1 {
      var init := cands[..|cands| - 1];
      assert init[k] == cands[k];
      AcceptedHas(init, k, baseUrl, valid, urljoin);
    }
  }

  // ---------------------------------------------------------------------------------
  // get_posts_from_category

  /** `make_request(page_url)` for listing page `page`. */
  function FetchPage(categoryUrl: string, attempt: (string, nat) -> Option<ListingPage>, page: nat): Option<ListingPage> {
    FirstSuccess(attempt, PageUrl(categoryUrl, page), MAX_RETRIES)
  }

  /** The new URLs page `lp` brings, given the URLs seen so far. */
  function Fresh(lp: ListingPage, categoryUrl: string, seen: set<string>, urljoin: (string, string) -> string): seq<string> {
    DedupFrom(Accepted(Candidates(lp), categoryUrl, IsValidPostUrl, urljoin), seen)
  }

  /** The URLs the page loop has collected when it ends, starting from page `page` with
      `acc` collected and `seen` seen: it stops once `num` URLs are in, on a failed fetch,
      or on a page without new URLs, and otherwise moves on to the next page. */
  function Collect(categoryUrl: string, num: int, attempt: (string, nat) -> Option<ListingPage>,
                   urljoin: (string, string) -> string, page: nat, acc: seq<string>, seen: set<string>): seq<string>
    decreases num - |acc|
  {
    if |acc| >= num then acc
    else match FetchPage(categoryUrl, attempt, page)
      case None => acc
      case Some(lp) =>
        var newUrls := Fresh(lp, categoryUrl, seen, urljoin);
        if newUrls == [] then acc
        else Collect(categoryUrl, num, attempt, urljoin, page + 1, acc + newUrls, seen + Elems(newUrls))
  }

  /** Collection only appends, and a `seen` set that is exactly what has been collected
      keeps the collection free of repeats across pages. */
  lemma {:induction false} CollectNoDup(categoryUrl: string, num: int, attempt: (string, nat) -> Option<ListingPage>,
                                        urljoin: (string, string) -> string, page: nat, acc: seq<string>, seen: set<string>)
    requires NoDup(acc) && seen == Elems(acc)
    ensures var r := Collect(categoryUrl, num, attempt, urljoin, page, acc, seen);
            NoDup(r) && |acc| <= |r| && r[..|acc|] == acc
    decreases num - |acc|
  {
    if |acc| < num {
      match FetchPage(categoryUrl, attempt, page)
      case None =>
      case Some(lp) =>
        var newUrls := Fresh(lp, categoryUrl, seen, urljoin);
        if newUrls != [] {
          DedupNoDup(Accepted(Candidates(lp), categoryUrl, IsValidPostUrl, urljoin), seen);
          NoDupAppend(acc, newUrls);
          assert Elems(acc + newUrls) == seen + Elems(newUrls);
          CollectNoDup(categoryUrl, num, attempt, urljoin, page + 1, acc + newUrls, seen + Elems(newUrls));
          var r := Collect(categoryUrl, num, attempt, urljoin, page + 1, acc + newUrls, seen + Elems(newUrls));
          assert r[..|acc|] == r[..|acc + newUrls|][..|acc|];
        }
    }
  }

  lemma NoDupAppend(a: seq<string>, b: seq<string>)
    requires NoDup(a) && NoDup(b) && forall x :: x in b ==> x !in Elems(a)
    ensures NoDup(a + b)
  {
    forall i, j | 0 <= i < j < |a + b|
      ensures (a + b)[i] != (a + b)[j]
    {
      if i < |a| && j >= |a| {
        assert (a + b)[j] in b;
        assert (a + b)[i] in Elems(a);
      }
    }
  }

  /** The URLs of listing pages 1 to `n`, in order. */
  function PageUrls(categoryUrl: string, n: nat): (r: seq<string>)
    ensures |r| == n
    decreases n
  {
    if n == 0 then [] else PageUrls(categoryUrl, n - 1) + [PageUrl(categoryUrl, n)]
  }

  /** Page URL `k` sits at position `k - 1`. */
  lemma {:induction false} PageUrlsAt(categoryUrl: string, n: nat, k: int)
    requires 0 <= k < n
    ensures PageUrls(categoryUrl, n)[k] == PageUrl(categoryUrl, k + 1)
    decreases n
  {
    if k < n - 1 {
      PageUrlsAt(categoryUrl, n - 1, k);
    }
  }

  /** `get_posts_from_category`: fetch listing pages 1, 2, ... and harvest their links
      through one `seen_urls` set until `numPosts` are in or a page fails or brings
      nothing new; return the first `numPosts`. `requested` lists the page URLs passed to
      `make_request`, in order. */
  method GetPostsFromCategory(categoryUrl: string, numPosts: int, attempt: (string, nat) -> Option<ListingPage>,
                              urljoin: (string, string) -> string)
    returns (posts: seq<PostRef>, requested: seq<string>)
    ensures posts == Tagged(SliceTo(Collect(categoryUrl, numPosts, attempt, urljoin, 1, [], {}), numPosts),
                            CategoryName(categoryUrl))
    ensures requested == PageUrls(categoryUrl, |requested|)
    ensures numPosts <= 0 ==> posts == [] && requested == []
  {
    var name := CategoryName(categoryUrl);
    ghost var urls: seq<string> := [];
    var seen: set<string> := {};
    var page: nat := 1;
    posts, requested := [], [];
    while |posts| < numPosts
      invariant Collect(categoryUrl, numPosts, attempt, urljoin, page, urls, seen)
                == Collect(categoryUrl, numPosts, attempt, urljoin, 1, [], {})
      invariant posts == Tagged(urls, name)
      invariant requested == PageUrls(categoryUrl, page - 1)
      invariant numPosts <= 0 ==> page == 1 && urls == []
      decreases numPosts - |posts|
    {
      var pageUrl := PageUrl(categoryUrl, page);
      requested := requested + [pageUrl];
      assert requested == PageUrls(categoryUrl, page);
      var response, _, _ := MakeRequest(pageUrl, MAX_RETRIES, attempt);
      if response.None? {
        CollectStops(categoryUrl, numPosts, attempt, urljoin, page, urls, seen);
        assert Collect(categoryUrl, numPosts, attempt, urljoin, 1, [], {}) == urls;
        break;
      }
      var newPosts, seenAfter := ExtractPostUrls(response.value, categoryUrl, name, seen, IsValidPostUrl, urljoin);
      ghost var newUrls := Fresh(response.value, categoryUrl, seen, urljoin);
      CollectStops(categoryUrl, numPosts, attempt, urljoin, page, urls, seen);
      if newPosts == [] {
        assert Collect(categoryUrl, numPosts, attempt, urljoin, 1, [], {}) == urls;
        break;
      }
      TaggedAppend(urls, newUrls, name);
      posts := posts + newPosts;
      urls := urls + newUrls;
      seen := seenAfter;
      page := page + 1;
    }
    assert Collect(categoryUrl, numPosts, attempt, urljoin, 1, [], {}) == urls;
    TaggedSlice(urls, numPosts, name);
    posts := SliceTo(posts, numPosts);
  }

  /** One step of the page loop, as `Collect` takes it. */
  lemma CollectStops(categoryUrl: string, num: int, attempt: (string, nat) -> Option<ListingPage>,
                     urljoin: (string, string) -> string, page: nat, acc: seq<string>, seen: set<string>)
    requires |acc| < num
    ensures FetchPage(categoryUrl, attempt, page).None? ==>
              Collect(categoryUrl, num, attempt, urljoin, page, acc, seen) == acc
    ensures FetchPage(categoryUrl, attempt, page).Some? ==>
              var newUrls := Fresh(FetchPage(categoryUrl, attempt, page).value, categoryUrl, seen, urljoin);
              Collect(categoryUrl, num, attempt, urljoin, page, acc, seen)
              == if newUrls == [] then acc
                 else Collect(categoryUrl, num, attempt, urljoin, page + 1, acc + newUrls, seen + Elems(newUrls))
  {
  }

  /** The result holds at most `numPosts` URLs, and never the same URL twice. */
  lemma CrawlBounded(categoryUrl: string, numPosts: int, attempt: (string, nat) -> Option<ListingPage>,
                     urljoin: (string, string) -> string)
    ensures var urls := SliceTo(Collect(categoryUrl, numPosts, attempt, urljoin, 1, [], {}), numPosts);
            |urls| <= (if numPosts > 0 then numPosts else 0) && NoDup(urls)
  {
    var all := Collect(categoryUrl, numPosts, attempt, urljoin, 1, [], {});
    CollectNoDup(categoryUrl, numPosts, attempt, urljoin, 1, [], {});
    var s := SliceTo(all, numPosts);
    assert forall i :: 0 <= i < |s| ==> s[i] == all[i];
  }

  /** A first page that fails to load ends the crawl with nothing; a first page with new
      links is followed by a request for page 2 unless it already gave enough. */
  lemma CrawlFirstPage(categoryUrl: string, numPosts: int, attempt: (string, nat) -> Option<ListingPage>,
                       urljoin: (string, string) -> string)
    requires numPosts > 0
    ensures FetchPage(categoryUrl, attempt, 1).None? ==> Collect(categoryUrl, numPosts, attempt, urljoin, 1, [], {}) == []
    ensures FetchPage(categoryUrl, attempt, 1).Some? ==>
              var newUrls := Fresh(FetchPage(categoryUrl, attempt, 1).value, categoryUrl, {}, urljoin);
              var all := Collect(categoryUrl, numPosts, attempt, urljoin, 1, [], {});
              |all| >= |newUrls| && all[..|newUrls|] == newUrls
  {
    if FetchPage(categoryUrl, attempt, 1).Some? {
      var newUrls := Fresh(FetchPage(categoryUrl, attempt, 1).value, categoryUrl, {}, urljoin);
      if newUrls != [] {
        assert [] + newUrls == newUrls;
        DedupNoDup(Accepted(Candidates(FetchPage(categoryUrl, attempt, 1).value), categoryUrl, IsValidPostUrl, urljoin), {});
        assert NoDup(newUrls) && Elems(newUrls) == {} + Elems(newUrls);
        CollectNoDup(categoryUrl, numPosts, attempt, urljoin, 2, newUrls, {} + Elems(newUrls));
      }
    }
  }
}
