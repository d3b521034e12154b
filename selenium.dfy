/** Category discovery with a browser (crawler/selenium_category_crawler.py): the page is
    loaded once, and passes of link harvesting alternate with clicks on the "load more"
    control until enough posts are in, two passes in a row bring nothing new, the control
    cannot be clicked, ten clicks have been made, or the browser raises an error.

    The browser is given as three inputs: whether the initial load succeeded, the page as
    its selectors see it after `k` clicks (`None` when reading it raised an error), and
    whether the `k`-th attempt to click "load more" succeeded. */
module SeleniumCategoryCrawler {
  import opened Wrappers
  import opened Text
  import opened Seqs
  import opened Helpers
  import CategoryCrawler

  /** The most "load more" clicks one call makes. */
  const MaxClicks: nat := 10

  // ---------------------------------------------------------------------------------
  // _is_valid_post_url

  /** The browser crawler's rule: the static rule, and not a listing page
      `trang-<digits>.htm`. */
  predicate IsValidPostUrl(u: string) {
    && EndsWith(u, ".htm")
    && !CategoryCrawler.EndsWithNumbered(u, "-p")
    && !CategoryCrawler.EndsWithNumbered(u, "trang-")
    && CategoryCrawler.EndsWithNumbered(u, "-")
  }

  /** The browser crawler accepts exactly what the static crawler accepts minus the
      `trang-<digits>.htm` pages. */
  lemma StricterThanStatic(u: string)
    ensures IsValidPostUrl(u) <==>
              CategoryCrawler.IsValidPostUrl(u) && !exists d :: CategoryCrawler.NumberedWith(u, "trang-", d)
  {
    CategoryCrawler.NumberedIff(u, "trang-");
  }

  /** Where the two rules differ: a numbered listing page. */
  lemma ListingPageExample()
    ensures CategoryCrawler.IsValidPostUrl("/trang-2.htm")
    ensures !IsValidPostUrl("/trang-2.htm")
  {
    CategoryCrawler.NumberedWithDigits("/trang-2.htm", "-", "2");
    CategoryCrawler.NumberedWithDigits("/trang-2.htm", "trang-", "2");
    CategoryCrawler.PaginationTestRedundant("/trang-2.htm");
  }

  // ---------------------------------------------------------------------------------
  // get_posts_from_category

  /** Why the crawl ended. */
  datatype StopReason =
    | Enough       // `len(posts) >= num_posts`
    | NoNewPosts   // two passes in a row without new URLs
    | NoLoadMore   // the "load more" control could not be clicked
    | ClickLimit   // `max_clicks` reached
    | Failed       // the browser raised; the posts so far are returned

  /** The accepted URLs of the page as it stands after `k` clicks (none when the page
      could not be read; the crawl stops there and never harvests it). */
  function PassUrls(categoryUrl: string, snapshot: nat -> Option<CategoryCrawler.ListingPage>,
                    urljoin: (string, string) -> string, k: nat): seq<string>
  {
    match snapshot(k)
    case None => []
    case Some(page) => CategoryCrawler.Accepted(CategoryCrawler.Candidates(page), categoryUrl, IsValidPostUrl, urljoin)
  }

  /** The accepted URLs of every pass, indexed by the number of clicks before it. */
  function Passes(categoryUrl: string, snapshot: nat -> Option<CategoryCrawler.ListingPage>,
                  urljoin: (string, string) -> string): nat -> seq<string>
  {
    (k: nat) => PassUrls(categoryUrl, snapshot, urljoin, k)
  }

  /** The accepted URLs of passes `0 .. n - 1`, concatenated. */
  function PassesUrls(pass: nat -> seq<string>, n: nat): seq<string>
    decreases n
  {
    if n == 0 then [] else PassesUrls(pass, n - 1) + pass(n - 1)
  }

  /** The URLs collected after `n` passes: each pass adds, in page order, its URLs that
      were not collected before (the shared `seen` set). */
  function Collected(pass: nat -> seq<string>, n: nat): seq<string>
    decreases n
  {
    if n == 0 then []
    else
      var before := Collected(pass, n - 1);
      before + DedupFrom(pass(n - 1), Elems(before))
  }

  /** Pass `k` brought no new URL. */
  predicate EmptyPass(pass: nat -> seq<string>, k: nat) {
    DedupFrom(pass(k), Elems(Collected(pass, k))) == []
  }

  /** A pass is empty exactly when it leaves the collection as it was. */
  lemma EmptyPassIff(pass: nat -> seq<string>, k: nat)
    ensures EmptyPass(pass, k) <==> Collected(pass, k + 1) == Collected(pass, k)
  {
    var before := Collected(pass, k);
    if Collected(pass, k + 1) == before {
      assert |DedupFrom(pass(k), Elems(before))| == 0;
    }
  }

  /** What the passes collect is every URL of all passes once, in order of first
      appearance: threading `seen` through the passes deduplicates globally. */
  lemma {:induction false} CollectedIsDedup(pass: nat -> seq<string>, n: nat)
    ensures Collected(pass, n) == DedupFrom(PassesUrls(pass, n), {})
    decreases n
  {
    if n > 0 {
      var a := PassesUrls(pass, n - 1);
      var p := pass(n - 1);
      var c := Collected(pass, n - 1);
      CollectedIsDedup(pass, n - 1);
      DedupElems(a);
      DedupAppend(a, p, {});
      calc {
        Collected(pass, n);
        c + DedupFrom(p, Elems(c));
        { assert Elems(c) == {} + Elems(a); }
        DedupFrom(a, {}) + DedupFrom(p, {} + Elems(a));
        DedupFrom(a + p, {});
        { assert PassesUrls(pass, n) == a + p; }
        DedupFrom(PassesUrls(pass, n), {});
      }
    }
  }

  /** Whether the page could be read after `k` clicks. */
  function Loads(snapshot: nat -> Option<CategoryCrawler.ListingPage>): nat -> bool {
    (k: nat) => snapshot(k).Some?
  }

  /** No two passes in a row among the first `n` were empty. */
  predicate NoTwoEmpty(empty: nat -> bool, n: nat)
    decreases n
  {
    n <= 1 || (NoTwoEmpty(empty, n - 1) && !(empty(n - 2) && empty(n - 1)))
  }

  lemma {:induction false} NoTwoEmptyAll(empty: nat -> bool, n: nat)
    requires NoTwoEmpty(empty, n)
    ensures forall k :: 0 < k < n ==> !(empty(k - 1) && empty(k))
    decreases n
  {
    if n > 1 {
      NoTwoEmptyAll(empty, n - 1);
    }
  }

  /** How a crawl ended: the harvesting passes made (the URLs are those the passes
      collected), the successful "load more" clicks, and why it stopped. */
  datatype Crawl = Crawl(passes: nat, clicks: nat, reason: StopReason)

  /** The loop of `get_posts_from_category` from the state after `clicks` clicks, with
      `noNew` passes in a row without new URLs behind it. `size(k)` is the number of
      posts after `k` passes and `empty(k)` says whether pass `k` brought nothing. Check
      the loop condition, read the page (`loaded`), harvest it, then stop on enough
      posts, on a second empty pass in a row, or when "load more" cannot be clicked
      (`clicked`), and otherwise go round again. */
  function CrawlFrom(size: nat -> nat, empty: nat -> bool, loaded: nat -> bool, clicked: nat -> bool, numPosts: int,
                     clicks: nat, noNew: nat): Crawl
    decreases MaxClicks - clicks
  {
    if size(clicks) >= numPosts then Crawl(clicks, clicks, Enough)
    else if clicks >= MaxClicks then Crawl(clicks, clicks, ClickLimit)
    else if !loaded(clicks) then Crawl(clicks, clicks, Failed)
    else
      var noNew' := if empty(clicks) then noNew + 1 else 0;
      if size(clicks + 1) >= numPosts then Crawl(clicks + 1, clicks, Enough)
      else if noNew' >= 2 then Crawl(clicks + 1, clicks, NoNewPosts)
      else if !clicked(clicks) then Crawl(clicks + 1, clicks, NoLoadMore)
      else CrawlFrom(size, empty, loaded, clicked, numPosts, clicks + 1, noNew')
  }

  /** From an intermediate state: the crawl makes at most ten clicks, one pass per
      click plus possibly one, each harvested page was read and each click succeeded. */
  lemma {:induction false} CrawlCounts(size: nat -> nat, empty: nat -> bool, loaded: nat -> bool, clicked: nat -> bool,
                                      numPosts: int, clicks: nat, noNew: nat)
    requires clicks <= MaxClicks
    ensures var r := CrawlFrom(size, empty, loaded, clicked, numPosts, clicks, noNew);
            && clicks <= r.clicks <= MaxClicks && r.clicks <= r.passes <= r.clicks + 1
            && (forall k :: clicks <= k < r.passes ==> loaded(k))
            && (forall k :: clicks <= k < r.clicks ==> clicked(k))
    decreases MaxClicks - clicks
  {
    if size(clicks) < numPosts && clicks < MaxClicks && loaded(clicks) {
      var noNew' := if empty(clicks) then noNew + 1 else 0;
      if size(clicks + 1) >= numPosts {
      } else if noNew' >= 2 {
      } else if clicked(clicks) {
        CrawlCounts(size, empty, loaded, clicked, numPosts, clicks + 1, noNew');
      }
    }
  }

  /** From an intermediate state where `noNew` counts the empty passes in a row: no two
      passes in a row followed by a click were empty. */
  lemma {:induction false} CrawlNoTwoEmpty(size: nat -> nat, empty: nat -> bool, loaded: nat -> bool, clicked: nat -> bool,
                                      numPosts: int, clicks: nat, noNew: nat)
    requires NoTwoEmpty(empty, clicks)
    requires noNew == if clicks > 0 && empty(clicks - 1) then 1 else 0
    ensures var r := CrawlFrom(size, empty, loaded, clicked, numPosts, clicks, noNew);
            NoTwoEmpty(empty, r.clicks)
    decreases MaxClicks - clicks
  {
    if size(clicks) < numPosts && clicks < MaxClicks && loaded(clicks) {
      var noNew' := if empty(clicks) then noNew + 1 else 0;
      if size(clicks + 1) >= numPosts {
      } else if noNew' >= 2 {
        assert empty(clicks) && noNew == 1;
      } else if clicked(clicks) {
        CrawlNoTwoEmpty(size, empty, loaded, clicked, numPosts, clicks + 1, noNew');
      }
    }
  }

  /** The crawl reports `Enough` exactly when it has at least `numPosts` posts. */
  lemma {:induction false} CrawlEnough(size: nat -> nat, empty: nat -> bool, loaded: nat -> bool, clicked: nat -> bool,
                                      numPosts: int, clicks: nat, noNew: nat)
    ensures var r := CrawlFrom(size, empty, loaded, clicked, numPosts, clicks, noNew);
            r.reason == Enough <==> size(r.passes) >= numPosts
    decreases MaxClicks - clicks
  {
    if size(clicks) < numPosts && clicks < MaxClicks && loaded(clicks) {
      var noNew' := if empty(clicks) then noNew + 1 else 0;
      if size(clicks + 1) >= numPosts {
      } else if noNew' >= 2 {
      } else if clicked(clicks) {
        CrawlEnough(size, empty, loaded, clicked, numPosts, clicks + 1, noNew');
      }
    }
  }

  /** A stop for lack of new posts comes after two empty passes in a row. */
  lemma {:induction false} CrawlNoNew(size: nat -> nat, empty: nat -> bool, loaded: nat -> bool, clicked: nat -> bool,
                                      numPosts: int, clicks: nat, noNew: nat)
    requires noNew == if clicks > 0 && empty(clicks - 1) then 1 else 0
    ensures var r := CrawlFrom(size, empty, loaded, clicked, numPosts, clicks, noNew);
            r.reason == NoNewPosts ==> r.passes == r.clicks + 1 && r.clicks >= 1 && empty(r.clicks - 1) && empty(r.clicks)
    decreases MaxClicks - clicks
  {
    if size(clicks) < numPosts && clicks < MaxClicks && loaded(clicks) {
      var noNew' := if empty(clicks) then noNew + 1 else 0;
      if size(clicks + 1) >= numPosts {
      } else if noNew' >= 2 {
        assert empty(clicks) && noNew == 1;
      } else if clicked(clicks) {
        CrawlNoNew(size, empty, loaded, clicked, numPosts, clicks + 1, noNew');
      }
    }
  }

  /** What the remaining stop reasons mean. */
  lemma {:induction false} CrawlStops(size: nat -> nat, empty: nat -> bool, loaded: nat -> bool, clicked: nat -> bool,
                                      numPosts: int, clicks: nat, noNew: nat)
    requires clicks <= MaxClicks
    ensures var r := CrawlFrom(size, empty, loaded, clicked, numPosts, clicks, noNew);
            && (r.reason == NoLoadMore ==> r.passes == r.clicks + 1 && !clicked(r.clicks))
            && (r.reason == ClickLimit ==> r.clicks == MaxClicks == r.passes)
            && (r.reason == Failed ==> r.passes == r.clicks && !loaded(r.clicks))
    decreases MaxClicks - clicks
  {
    if size(clicks) < numPosts && clicks < MaxClicks && loaded(clicks) {
      var noNew' := if empty(clicks) then noNew + 1 else 0;
      if size(clicks + 1) >= numPosts {
      } else if noNew' >= 2 {
      } else if clicked(clicks) {
        CrawlStops(size, empty, loaded, clicked, numPosts, clicks + 1, noNew');
      }
    }
  }

  /** The stopping rules of the browser crawl, for any page contents and any clicks: at
      most ten clicks, every click succeeded, every harvested page was read, no two
      passes in a row were empty before a click, and each stop reason holds for its
      reason. */
  lemma CrawlProperties(size: nat -> nat, empty: nat -> bool, loaded: nat -> bool, clicked: nat -> bool, numPosts: int)
    ensures var r := CrawlFrom(size, empty, loaded, clicked, numPosts, 0, 0);
            && r.clicks <= MaxClicks && r.clicks <= r.passes <= r.clicks + 1
            && (forall k :: 0 <= k < r.passes ==> loaded(k))
            && (forall k :: 0 <= k < r.clicks ==> clicked(k))
            && (forall k :: 0 < k < r.clicks ==> !(empty(k - 1) && empty(k)))
            && (r.reason == Enough <==> size(r.passes) >= numPosts)
            && (r.reason == NoNewPosts ==> r.passes == r.clicks + 1 && r.clicks >= 1 && empty(r.clicks - 1) && empty(r.clicks))
            && (r.reason == NoLoadMore ==> r.passes == r.clicks + 1 && !clicked(r.clicks))
            && (r.reason == ClickLimit ==> r.clicks == MaxClicks == r.passes)
            && (r.reason == Failed ==> r.passes == r.clicks && !loaded(r.clicks))
            && (numPosts <= size(0) ==> r == Crawl(0, 0, Enough))
  {
    var r := CrawlFrom(size, empty, loaded, clicked, numPosts, 0, 0);
    CrawlCounts(size, empty, loaded, clicked, numPosts, 0, 0);
    CrawlNoTwoEmpty(size, empty, loaded, clicked, numPosts, 0, 0);
    CrawlEnough(size, empty, loaded, clicked, numPosts, 0, 0);
    CrawlNoNew(size, empty, loaded, clicked, numPosts, 0, 0);
    CrawlStops(size, empty, loaded, clicked, numPosts, 0, 0);
    NoTwoEmptyAll(empty, r.clicks);
  }

  /** The number of posts after each number of passes. */
  function Sizes(pass: nat -> seq<string>): nat -> nat {
    (k: nat) => |Collected(pass, k)|
  }

  /** Which passes brought nothing new. */
  function Empties(pass: nat -> seq<string>): nat -> bool {
    (k: nat) => EmptyPass(pass, k)
  }

  /** What the two crawl functions say about pass `k`. */
  lemma SizesEmptiesAt(pass: nat -> seq<string>, k: nat)
    ensures Sizes(pass)(k) == |Collected(pass, k)| && Sizes(pass)(k + 1) == |Collected(pass, k + 1)|
    ensures Empties(pass)(k) == EmptyPass(pass, k)
  {
  }

  /** The whole crawl of the browser crawler, from no clicks and nothing collected. */
  function Crawled(categoryUrl: string, numPosts: int, snapshot: nat -> Option<CategoryCrawler.ListingPage>,
                   clickLoadMore: nat -> bool, urljoin: (string, string) -> string): Crawl
  {
    var pass := Passes(categoryUrl, snapshot, urljoin);
    CrawlFrom(Sizes(pass), Empties(pass), Loads(snapshot), clickLoadMore, numPosts, 0, 0)
  }

  /** The actual crawl reports `Enough` exactly when the URLs it collected reach
      `numPosts`, and never collects a URL twice. */
  lemma CrawledEnough(categoryUrl: string, numPosts: int, snapshot: nat -> Option<CategoryCrawler.ListingPage>,
                     clickLoadMore: nat -> bool, urljoin: (string, string) -> string)
    ensures var r := Crawled(categoryUrl, numPosts, snapshot, clickLoadMore, urljoin);
            var pass := Passes(categoryUrl, snapshot, urljoin);
            (r.reason == Enough <==> |Collected(pass, r.passes)| >= numPosts) && NoDup(Collected(pass, r.passes))
  {
    var pass := Passes(categoryUrl, snapshot, urljoin);
    var r := Crawled(categoryUrl, numPosts, snapshot, clickLoadMore, urljoin);
    CrawlEnough(Sizes(pass), Empties(pass), Loads(snapshot), clickLoadMore, numPosts, 0, 0);
    SizesEmptiesAt(pass, r.passes);
    CollectedNoDup(pass, r.passes);
  }

  /** The actual crawl stops for lack of new posts only after two passes in a row that
      added no URL. */
  lemma CrawledNoNew(categoryUrl: string, numPosts: int, snapshot: nat -> Option<CategoryCrawler.ListingPage>,
                     clickLoadMore: nat -> bool, urljoin: (string, string) -> string)
    ensures var r := Crawled(categoryUrl, numPosts, snapshot, clickLoadMore, urljoin);
            var pass := Passes(categoryUrl, snapshot, urljoin);
            r.reason == NoNewPosts ==> r.clicks >= 1 && Collected(pass, r.clicks - 1) == Collected(pass, r.clicks + 1)
  {
    var pass := Passes(categoryUrl, snapshot, urljoin);
    var r := Crawled(categoryUrl, numPosts, snapshot, clickLoadMore, urljoin);
    CrawlNoNew(Sizes(pass), Empties(pass), Loads(snapshot), clickLoadMore, numPosts, 0, 0);
    if r.reason == NoNewPosts {
      SizesEmptiesAt(pass, r.clicks - 1);
      SizesEmptiesAt(pass, r.clicks);
      EmptyPassIff(pass, r.clicks - 1);
      EmptyPassIff(pass, r.clicks);
    }
  }

  /** The actual crawl clicks at most ten times, and fails only on a page it could not
      read. */
  lemma CrawledFailed(categoryUrl: string, numPosts: int, snapshot: nat -> Option<CategoryCrawler.ListingPage>,
                     clickLoadMore: nat -> bool, urljoin: (string, string) -> string)
    ensures var r := Crawled(categoryUrl, numPosts, snapshot, clickLoadMore, urljoin);
            var pass := Passes(categoryUrl, snapshot, urljoin);
            r.clicks <= MaxClicks && (r.reason == Failed ==> snapshot(r.passes).None?)
  {
    var pass := Passes(categoryUrl, snapshot, urljoin);
    CrawlCounts(Sizes(pass), Empties(pass), Loads(snapshot), clickLoadMore, numPosts, 0, 0);
    CrawlStops(Sizes(pass), Empties(pass), Loads(snapshot), clickLoadMore, numPosts, 0, 0);
  }

  /** `get_posts_from_category` of the browser crawler: `loads` says whether the initial
      page load succeeded; the posts are the first `numPosts` URLs the crawl collected,
      tagged with the category name. */
  method GetPostsFromCategory(categoryUrl: string, numPosts: int, loads: bool,
                              snapshot: nat -> Option<CategoryCrawler.ListingPage>, clickLoadMore: nat -> bool,
                              urljoin: (string, string) -> string)
    returns (posts: seq<CategoryCrawler.PostRef>, passes: nat, clicks: nat, reason: StopReason)
    ensures !loads ==> posts == [] && passes == 0 && clicks == 0 && reason == Failed
    ensures loads ==>
              && Crawl(passes, clicks, reason) == Crawled(categoryUrl, numPosts, snapshot, clickLoadMore, urljoin)
              && posts == CategoryCrawler.Tagged(SliceTo(Collected(Passes(categoryUrl, snapshot, urljoin), passes), numPosts),
                                                 CategoryCrawler.CategoryName(categoryUrl))
  {
    var name := CategoryCrawler.CategoryName(categoryUrl);
    posts, passes, clicks, reason := [], 0, 0, Failed;
    if !loads {
      return;
    }
    ghost var pass := Passes(categoryUrl, snapshot, urljoin);
    ghost var size, empty, loaded := Sizes(pass), Empties(pass), Loads(snapshot);
    ghost var spec := Crawled(categoryUrl, numPosts, snapshot, clickLoadMore, urljoin);
    var seen: set<string> := {};
    ghost var urls: seq<string> := [];
    var noNewPosts := 0;
    var stop: Option<StopReason> := None;
    while stop.None? && |posts| < numPosts && clicks < MaxClicks
      invariant stop.None? ==> passes == clicks && spec == CrawlFrom(size, empty, loaded, clickLoadMore, numPosts, clicks, noNewPosts)
      invariant stop.Some? ==> spec == Crawl(passes, clicks, stop.value)
      invariant urls == Collected(pass, passes)
      invariant seen == Elems(urls) && posts == CategoryCrawler.Tagged(urls, name)
      decreases MaxClicks - clicks, if stop.None? then 1 else 0
    {
      SizesEmptiesAt(pass, clicks);
      posts, seen, urls, noNewPosts, passes, clicks, stop :=
        Turn(categoryUrl, name, numPosts, snapshot, clickLoadMore, urljoin, pass, size, empty, loaded, clicks, noNewPosts, seen, urls, posts);
    }
    SizesEmptiesAt(pass, clicks);
    reason := if stop.Some? then stop.value else if |posts| >= numPosts then Enough else ClickLimit;
    CategoryCrawler.TaggedSlice(urls, numPosts, name);
    posts := SliceTo(posts, numPosts);
  }

  /** One turn of the loop, once its condition held: read the page, harvest it, and
      either stop or click "load more"; the crawl from the new state is the crawl from
      the old one. */
  method Turn(categoryUrl: string, name: string, numPosts: int, snapshot: nat -> Option<CategoryCrawler.ListingPage>,
              clickLoadMore: nat -> bool, urljoin: (string, string) -> string,
              ghost pass: nat -> seq<string>, ghost size: nat -> nat, ghost empty: nat -> bool, ghost loaded: nat -> bool,
              clicks: nat, noNewPosts: nat,
              seen: set<string>, ghost urls: seq<string>, posts: seq<CategoryCrawler.PostRef>)
    returns (postsAfter: seq<CategoryCrawler.PostRef>, seenAfter: set<string>, ghost urlsAfter: seq<string>,
             noNewAfter: nat, passesAfter: nat, clicksAfter: nat, stop: Option<StopReason>)
    requires pass == Passes(categoryUrl, snapshot, urljoin)
    requires urls == Collected(pass, clicks)
    requires size(clicks) == |urls| && size(clicks + 1) == |Collected(pass, clicks + 1)|
    requires empty(clicks) == EmptyPass(pass, clicks) && loaded(clicks) == snapshot(clicks).Some?
    requires seen == Elems(urls) && posts == CategoryCrawler.Tagged(urls, name)
    requires |posts| < numPosts && clicks < MaxClicks
    ensures urlsAfter == Collected(pass, passesAfter)
    ensures seenAfter == Elems(urlsAfter) && postsAfter == CategoryCrawler.Tagged(urlsAfter, name)
    ensures stop.None? ==>
              && passesAfter == clicksAfter == clicks + 1
              && CrawlFrom(size, empty, loaded, clickLoadMore, numPosts, clicksAfter, noNewAfter)
                 == CrawlFrom(size, empty, loaded, clickLoadMore, numPosts, clicks, noNewPosts)
    ensures stop.Some? ==>
              && clicksAfter == clicks
              && Crawl(passesAfter, clicksAfter, stop.value) == CrawlFrom(size, empty, loaded, clickLoadMore, numPosts, clicks, noNewPosts)
  {
    clicksAfter := clicks;
    if snapshot(clicks).None? {
      postsAfter, seenAfter, urlsAfter, noNewAfter, passesAfter := posts, seen, urls, noNewPosts, clicks;
      stop := Some(Failed);
      return;
    }
    var brought;
    postsAfter, seenAfter, urlsAfter, brought := HarvestPass(categoryUrl, name, snapshot, urljoin, pass, clicks, seen, urls, posts);
    passesAfter := clicks + 1;
    noNewAfter, clicksAfter, stop := Decide(size, empty, loaded, clickLoadMore, numPosts, clicks, noNewPosts, |postsAfter|, brought);
  }

  /** The end of a turn, after the page was harvested: count the passes without new
      posts and stop on enough posts, on the second empty pass in a row, or when "load
      more" cannot be clicked. */
  method Decide(ghost size: nat -> nat, ghost empty: nat -> bool, ghost loaded: nat -> bool, clickLoadMore: nat -> bool,
                numPosts: int, clicks: nat, noNewPosts: nat, count: nat, brought: bool)
    returns (noNewAfter: nat, clicksAfter: nat, stop: Option<StopReason>)
    requires size(clicks) < numPosts && clicks < MaxClicks && loaded(clicks)
    requires empty(clicks) == !brought && size(clicks + 1) == count
    ensures stop.None? ==>
              && clicksAfter == clicks + 1
              && CrawlFrom(size, empty, loaded, clickLoadMore, numPosts, clicksAfter, noNewAfter)
                 == CrawlFrom(size, empty, loaded, clickLoadMore, numPosts, clicks, noNewPosts)
    ensures stop.Some? ==>
              && clicksAfter == clicks
              && Crawl(clicks + 1, clicks, stop.value) == CrawlFrom(size, empty, loaded, clickLoadMore, numPosts, clicks, noNewPosts)
  {
    noNewAfter := if brought then 0 else noNewPosts + 1;
    clicksAfter := clicks;
    if count >= numPosts {
      stop := Some(Enough);
    } else if noNewAfter >= 2 {
      stop := Some(NoNewPosts);
    } else if !clickLoadMore(clicks) {
      stop := Some(NoLoadMore);
    } else {
      clicksAfter := clicks + 1;
      stop := None;
    }
  }

  /** One harvesting pass over the page after `passes` clicks (`_extract_post_urls` plus
      `posts.extend`): the posts grow by the pass's new URLs, and `brought` tells whether
      there were any. */
  method HarvestPass(categoryUrl: string, name: string, snapshot: nat -> Option<CategoryCrawler.ListingPage>,
                     urljoin: (string, string) -> string, ghost pass: nat -> seq<string>, passes: nat,
                     seen: set<string>, ghost urls: seq<string>, posts: seq<CategoryCrawler.PostRef>)
    returns (postsAfter: seq<CategoryCrawler.PostRef>, seenAfter: set<string>, ghost urlsAfter: seq<string>, brought: bool)
    requires pass == Passes(categoryUrl, snapshot, urljoin) && snapshot(passes).Some?
    requires urls == Collected(pass, passes)
    requires seen == Elems(urls) && posts == CategoryCrawler.Tagged(urls, name)
    ensures urlsAfter == Collected(pass, passes + 1)
    ensures seenAfter == Elems(urlsAfter) && postsAfter == CategoryCrawler.Tagged(urlsAfter, name)
    ensures brought <==> !EmptyPass(pass, passes)
  {
    var newPosts;
    newPosts, seenAfter := CategoryCrawler.ExtractPostUrls(snapshot(passes).value, categoryUrl, name, seen, IsValidPostUrl, urljoin);
    ghost var newUrls := DedupFrom(pass(passes), seen);
    assert pass(passes) == PassUrls(categoryUrl, snapshot, urljoin, passes);
    CategoryCrawler.TaggedAppend(urls, newUrls, name);
    ElemsAppend(urls, newUrls);
    urlsAfter := urls + newUrls;
    brought := newPosts != [];
    if brought {
      postsAfter := posts + newPosts;
      assert |urlsAfter| > |urls|;
    } else {
      postsAfter := posts;
      assert newUrls == [] && urlsAfter == urls;
    }
  }

  /** The result holds at most `numPosts` posts and never the same URL twice. */
  lemma CollectedBounded(pass: nat -> seq<string>, n: nat, numPosts: int)
    ensures var urls := SliceTo(Collected(pass, n), numPosts);
            NoDup(urls) && (numPosts >= 0 ==> |urls| <= numPosts)
  {
    CollectedNoDup(pass, n);
    SliceNoDup(Collected(pass, n), numPosts);
  }

  lemma CollectedNoDup(pass: nat -> seq<string>, n: nat)
    ensures NoDup(Collected(pass, n))
  {
    CollectedIsDedup(pass, n);
    DedupNoDup(PassesUrls(pass, n), {});
  }
}
