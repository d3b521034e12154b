# A verified model of the tuoitre.vn crawler

This project models the decision logic of a crawler for the Vietnamese news site tuoitre.vn.
The crawler:

- collects article URLs from category listing pages, either by static pagination or with a
  browser that clicks "load more";
- extracts each article's title, body, author, date, images, audio and reaction counts;
- fetches comments, from the site's JSON comment API first and from the article HTML as a
  fallback;
- downloads images and audio and writes one output record per article;
- keeps run statistics and prints a summary.

Everything the crawler asks of the outside world is an input of the model:

- HTTP answers: one oracle per attempt for `make_request`, and one per URL for the comment API.
- Parsed pages: what each CSS selector or meta tag selects.
- Browser state: the page after `k` clicks and whether click `k` succeeded.
- Foreign functions: `urljoin`, `urlparse` and the MD5 digest.
- Side effects: each download and whether a file write succeeds.

The rest is plain data transformation, proved against specification functions.

Modules follow the source files:

| module | source file |
|---|---|
| `Helpers` | `utils/helpers.py` |
| `CategoryCrawler` | `crawler/category_crawler.py` |
| `SeleniumCategoryCrawler` | `crawler/selenium_category_crawler.py` |
| `PostCrawler` | `crawler/post_crawler.py` |
| `CommentCrawler` | `crawler/comment_crawler.py` |
| `Json` | Python truthiness, `str()` and `int()` on decoded values |
| `MediaDownloader` | `utils/media_downloader.py` |
| `DataSaver` | `utils/data_saver.py` |
| `Orchestrator` | `main.py` |
| `Config` | constants of `config.py` |
| `Text`, `Seqs`, `Wrappers` | string, sequence and option support |

**Loops become methods.** The source's loops become Dafny methods with loop invariants. Each
method's `ensures` ties its result to a specification function, and the lemmas state what the
source promises about that function. Examples:

- `MakeRequest` (retries);
- `GetPostsFromCategory` (page loop, click loop);
- `ExtractPostUrls` (mutation of `seen_urls`);
- `ExtractContent`, `ExtractImages`, `ExtractReactions`;
- `GetCommentsFromApi`, `GetCommentsFromHtml`;
- `DownloadImages`.

The statistics of `main.py` live in a class, `Orchestrator.Crawler`, whose fields the methods
update in place.

**Exceptions are modelled.** They are explicit outcomes where they change what the crawler
does:

- `srcset.split()[0]` on a blank `srcset` raises `IndexError`, so `crawl_post` fails
  (`PostCrawler.Outcome.Raised`).
- `clean_text` of a non-string JSON value raises. So does `int()` of a non-numeric like
  count. Either ends the API fetch (`CommentCrawler.Parsed.Raised`).
- A failing output write raises out of `_process_post`. The post is then counted as failed,
  after its image, audio and comment totals were already added.

**Both URL rules are modelled.** The category crawler's URL rule is
`CategoryCrawler.IsValidPostUrl`. The browser crawler adds the `trang-<digits>.htm` exclusion
(`SeleniumCategoryCrawler.IsValidPostUrl`). Both share `get_category_name` and
`_extract_post_urls`: they are `CategoryCrawler.CategoryName` and
`CategoryCrawler.ExtractPostUrls`, the latter taking the URL rule as a parameter.

## Model

| member | source | states |
|---|---|---|
| Helpers.CleanText | utils/helpers.py:77-83 | the result is clean: no leading or trailing whitespace, every whitespace character is a plain space, and no two are adjacent (an empty input gives `""`) |
| Helpers.CollapseSingleSpaced | utils/helpers.py:81 | replacing every whitespace run by one space leaves no whitespace but single spaces, and a leading run becomes exactly one space |
| Helpers.CleanTextIsJoinedWords | utils/helpers.py:77-83 | `clean_text(s)` equals the whitespace-separated words of `s` joined by single spaces (an independent definition via `s.split()`) |
| Helpers.StripSingleSpaced | utils/helpers.py:82 | stripping a single-spaced string makes it clean |
| Helpers.CollapseClean | utils/helpers.py:81 | collapsing runs does not change a string that is already single-spaced |
| Helpers.CleanFixed | utils/helpers.py:77-83 | a clean string is its own `clean_text` |
| Helpers.CleanTextIdempotent | utils/helpers.py:77-83 | `clean_text(clean_text(s)) == clean_text(s)` |
| Helpers.FormatDate | utils/helpers.py:137-141 | `format_date` is `clean_text` of its input, so the empty string gives `""` |
| Helpers.DigitRun | utils/helpers.py:71 | `\d+` is greedy: the run is a prefix of digits that is followed by no further digit |
| Helpers.DigitRunOf | utils/helpers.py:71 | the digit run of digits followed by a non-digit is exactly those digits |
| Helpers.PostIdAtMatches | utils/helpers.py:71 | where `-(\d+)\.htm` matches, its group is the greedy digit run after the `-` |
| Helpers.PostIdPatternGreedy | utils/helpers.py:71 | any `-<digits>.htm` occurrence at a position is a match there, and its digits are the greedy run |
| Helpers.PostIdAtIff | utils/helpers.py:71 | a match position and a `-<digits>.htm` occurrence are the same thing, in both directions |
| Helpers.FindPostIdAt | utils/helpers.py:71 | `re.search` finds the leftmost match at or after the start, or reports that there is none |
| Helpers.ExtractPostId | utils/helpers.py:69-74 | with a match, the id is the digit group of the leftmost `-<digits>.htm`; without one, it is the first 12 characters of the digest |
| Helpers.PostIdFromPattern | utils/helpers.py:69-73 | a URL containing `-<digits>.htm` always gets a non-empty all-digit id |
| Helpers.PostIdExample | utils/helpers.py:69-74 | `/a-2024.htm` gets the id `2024` |
| Helpers.MakeAbsoluteUrl | utils/helpers.py:99-103 | a URL starting with `http://` or `https://` is returned unchanged; any other is resolved with `urljoin` |
| Helpers.MakeAbsoluteIdempotent | utils/helpers.py:99-103 | making a URL absolute twice gives the same as once, assuming only that `urljoin` returns its own result unchanged when joined to the same base again |
| Helpers.MakeAbsoluteAbsolute | utils/helpers.py:99-103 | the result starts with `http://` or `https://` when the input does, or when the `urljoin` fallback returns such a URL |
| Helpers.RemoveForbidden | utils/helpers.py:108 | no character of `<>:"/\|?*` survives, and the result is no longer than the input |
| Helpers.RemoveForbiddenSubsequence | utils/helpers.py:108 | the removal keeps a subsequence of the input |
| Helpers.RemoveForbiddenNone | utils/helpers.py:108 | a string without forbidden characters is left unchanged |
| Helpers.SanitizeFilename | utils/helpers.py:106-109 | the result has at most 200 characters and none of `<>:"/\|?*` |
| Helpers.SanitizeSubsequence | utils/helpers.py:106-109 | the sanitised name is a subsequence of the input |
| Helpers.SanitizeIdempotent | utils/helpers.py:106-109 | sanitising twice equals sanitising once |
| Helpers.MimeExtension | utils/helpers.py:121-132 | the content-type mapping always gives one of the known extensions or `bin` |
| Helpers.GetFileExtension | utils/helpers.py:112-134 | the result is a known extension or `bin`; a known lower-cased suffix of the path wins over the content type; without one, an absent or empty content type gives `bin` |
| Helpers.ExtensionFromPath | utils/helpers.py:114-119 | a path ending in `.<known extension>` gets that extension, whatever the content type |
| Helpers.ContentTypeParamsIgnored | utils/helpers.py:132 | parameters after `;` in the content type do not change the extension |
| Helpers.Attempts | utils/helpers.py:45-53 | the sequence of oracle answers that `MakeRequest`'s contract is stated over: `n` entries, entry `k` being the `k`-th GET of the URL (`None` when it raised or had an error status) |
| Helpers.MakeRequest | utils/helpers.py:39-60 | at most `retries` attempts, none for `retries <= 0`; the first successful response is returned; `None` only after every attempt failed; one sleep between consecutive attempts, with multiplier `attempt + 1`, and none after the last |
| Json.Probe | crawler/comment_crawler.py:124-141 | an `a.get(k1) or a.get(k2) or …` chain finds the first key with a truthy value, or none when no key's value is truthy |
| Json.ProbeAt | crawler/comment_crawler.py:124-141 | when key `i` is the first truthy one, the chain yields that key's value |
| Json.PyStr | crawler/comment_crawler.py:124 | `str()` of a truthy value is a non-empty string |
| Json.PyIntOfPyStr | crawler/comment_crawler.py:138 | `int()` of an integer, or of its decimal text, gives the integer back |
| CategoryCrawler.CategoryName | crawler/category_crawler.py:25-30 | the name is non-empty and slash-free: the last path segment before a final `.htm` (`$` also matches before a final newline), else `unknown` |
| CategoryCrawler.CategoryNameOf | crawler/category_crawler.py:25-30 | for `<prefix>/<name>.htm`, the category name is `<name>` |
| CategoryCrawler.NumberedIff | crawler/category_crawler.py:129-133 | the `<prefix>\d+\.htm$` test holds exactly when the URL ends with the prefix, some digits and `.htm` |
| CategoryCrawler.NumberedWithDigits | crawler/category_crawler.py:129-133 | any such ending makes the regular-expression test succeed |
| CategoryCrawler.ValidPostUrlIff | crawler/category_crawler.py:123-136 | a post URL ends with `.htm`, does not end with `-p<digits>.htm`, and does end with `-<digits>.htm` |
| CategoryCrawler.PaginationTestRedundant | crawler/category_crawler.py:123-136 | the `-p<digits>` rule never changes the answer: validity is just ending with `-<digits>.htm` |
| CategoryCrawler.ArticleUrlExample | crawler/category_crawler.py:123-136 | `abc-12345.htm` is a post URL |
| CategoryCrawler.PaginationUrlExample | crawler/category_crawler.py:123-136 | `thoi-su-p2.htm` is not a post URL |
| CategoryCrawler.PageUrl | crawler/category_crawler.py:53-57 | page 1 is the category URL itself; page `n` ends with `-p<n>.htm` |
| CategoryCrawler.PageUrlOf | crawler/category_crawler.py:56-57 | page `n >= 2` of `<a>.htm` is `<a>-p<n>.htm` when `.htm` occurs only at the end |
| CategoryCrawler.PageUrlNumbered | crawler/category_crawler.py:53-57 | a page URL after the first ends with `-p<digits of n>.htm` |
| CategoryCrawler.PageUrlNotPost | crawler/category_crawler.py:53-57 | no page URL after the first is taken for an article |
| CategoryCrawler.PageUrlInjective | crawler/category_crawler.py:53-57 | different page numbers give different page URLs |
| CategoryCrawler.NumberedDigitsUnique | crawler/category_crawler.py:129-133 | the digits before `.htm` are determined by the URL |
| CategoryCrawler.AcceptedFrom | crawler/category_crawler.py:99-119 | every harvested URL is the absolute form of a non-empty raw href that passed the URL rule |
| CategoryCrawler.AcceptedHas | crawler/category_crawler.py:101-104 | every non-empty href that passes the rule contributes its absolute URL |
| CategoryCrawler.TaggedAt | crawler/category_crawler.py:107 | each returned pair carries its URL and the category name |
| CategoryCrawler.TaggedSlice | crawler/category_crawler.py:81 | truncating the pairs equals pairing the truncated URLs |
| CategoryCrawler.ExtractPostUrls | crawler/category_crawler.py:83-121 | one pass over the selector links, then the container links, in order: the result is the accepted URLs not already in `seen_urls`, each once and tagged with the category; `seen_urls` grows by exactly those URLs |
| CategoryCrawler.ExtractStep | crawler/category_crawler.py:103-107 | one link more: a passing href whose URL is new is appended, and anything else changes nothing |
| CategoryCrawler.ExtractFresh | crawler/category_crawler.py:83-121 | the new URLs have no repeats and none was seen before; every passing href whose URL was unseen is among them |
| CategoryCrawler.CollectNoDup | crawler/category_crawler.py:44-81 | because one `seen_urls` is threaded through the pages, the collected URLs never repeat, and collection only appends |
| CategoryCrawler.PageUrlsAt | crawler/category_crawler.py:53-61 | the `k`-th page requested is page `k + 1` |
| CategoryCrawler.GetPostsFromCategory | crawler/category_crawler.py:32-81 | the posts are the first `num_posts` URLs of the page loop, tagged; pages are requested in order 1, 2, …; `num_posts <= 0` gives `[]` without any request |
| CategoryCrawler.CollectStops | crawler/category_crawler.py:61-78 | a failed fetch or a page with no new URL ends the loop; otherwise the loop goes on with the next page and the new URLs |
| CategoryCrawler.CrawlBounded | crawler/category_crawler.py:81 | the result has at most `num_posts` URLs and no duplicates |
| CategoryCrawler.CrawlFirstPage | crawler/category_crawler.py:51-78 | a first page that fails gives nothing; otherwise the result starts with the first page's new URLs |
| SeleniumCategoryCrawler.StricterThanStatic | crawler/selenium_category_crawler.py:193-209 | the browser crawler accepts exactly what the static crawler accepts, minus URLs ending `trang-<digits>.htm` |
| SeleniumCategoryCrawler.ListingPageExample | crawler/selenium_category_crawler.py:202-203 | `/trang-2.htm` is accepted by the static rule and rejected by the browser rule |
| SeleniumCategoryCrawler.EmptyPassIff | crawler/selenium_category_crawler.py:116-124 | a pass brings nothing new exactly when it leaves the collection unchanged |
| SeleniumCategoryCrawler.CollectedIsDedup | crawler/selenium_category_crawler.py:100-101 | the URLs collected over the passes are the passes' URLs deduplicated, in first-occurrence order |
| SeleniumCategoryCrawler.CrawlCounts | crawler/selenium_category_crawler.py:110-141 | at most ten clicks, one pass per click plus possibly one; every harvested page was read and every click succeeded |
| SeleniumCategoryCrawler.CrawlNoTwoEmpty | crawler/selenium_category_crawler.py:121-133 | no two passes in a row before a click were empty, because a productive pass resets the counter |
| SeleniumCategoryCrawler.CrawlEnough | crawler/selenium_category_crawler.py:127-128 | the crawl stops for having enough exactly when it holds `num_posts` posts |
| SeleniumCategoryCrawler.CrawlNoNew | crawler/selenium_category_crawler.py:130-133 | a stop for no new posts follows two empty passes in a row |
| SeleniumCategoryCrawler.CrawlStops | crawler/selenium_category_crawler.py:114-146 | a stop for a failed click follows a failed click; the click limit means ten clicks; an error means the page could not be read |
| SeleniumCategoryCrawler.CrawlProperties | crawler/selenium_category_crawler.py:110-146 | all stopping rules together, for any page contents and clicks; if the first check already has enough, nothing happens |
| SeleniumCategoryCrawler.CrawledEnough | crawler/selenium_category_crawler.py:114-128 | on the real collection: the crawl has enough exactly when the collected URLs reach `num_posts`, and no URL is collected twice |
| SeleniumCategoryCrawler.CrawledNoNew | crawler/selenium_category_crawler.py:121-133 | a stop for no new posts means the last two passes added no URL |
| SeleniumCategoryCrawler.CrawledFailed | crawler/selenium_category_crawler.py:110-146 | at most ten clicks; an error stop happens only on a page that could not be read |
| SeleniumCategoryCrawler.GetPostsFromCategory | crawler/selenium_category_crawler.py:85-148 | a failed initial load gives `[]`; otherwise the passes, clicks and stop reason are the crawl's, and the posts are the first `num_posts` collected URLs, tagged, including after an error |
| SeleniumCategoryCrawler.Turn | crawler/selenium_category_crawler.py:114-141 | one loop turn (read, harvest, decide, click) keeps the collection invariant and continues the same crawl |
| SeleniumCategoryCrawler.Decide | crawler/selenium_category_crawler.py:118-140 | the counter update and stopping checks after a harvest follow the crawl's rules |
| SeleniumCategoryCrawler.HarvestPass | crawler/selenium_category_crawler.py:116-124 | a pass extends the posts by the new URLs and reports whether there were any |
| SeleniumCategoryCrawler.CollectedBounded | crawler/selenium_category_crawler.py:148 | the result has at most `num_posts` posts and no duplicate URLs |
| SeleniumCategoryCrawler.CollectedNoDup | crawler/selenium_category_crawler.py:175-177 | the shared `seen_urls` keeps the collection free of repeats |
| PostCrawler.FirstTruthy | crawler/post_crawler.py:201 | `a.get(x) or a.get(y) or …` gives the first truthy attribute, or none when none is truthy |
| PostCrawler.NoneContained | crawler/post_crawler.py:139-142 | true exactly when no pattern is a substring |
| PostCrawler.TextOrMeta | crawler/post_crawler.py:79-88 | the first matching selector's cleaned text wins; with no match, the meta tag's cleaned content, then the default |
| PostCrawler.ExtractTitle | crawler/post_crawler.py:68-88 | the title is clean; the first matching selector wins; otherwise `og:title`'s content; otherwise `""` |
| PostCrawler.ExtractAuthor | crawler/post_crawler.py:146-166 | the author is clean; the first matching selector wins; otherwise the `author` meta tag; otherwise `Tuổi Trẻ` |
| PostCrawler.ExtractDate | crawler/post_crawler.py:168-190 | the date is clean; for the first matching element, `datetime` beats its text; otherwise `article:published_time`; otherwise `""` |
| PostCrawler.IsContentElement | crawler/post_crawler.py:134-144 | an element is content iff its lower-cased, space-joined class string contains none of the skip patterns |
| PostCrawler.HeaderRejected | crawler/post_crawler.py:134-144 | class `header` is rejected, because it contains `ad` |
| PostCrawler.ContentAccepted | crawler/post_crawler.py:134-144 | class `content` is accepted |
| PostCrawler.BodyParts | crawler/post_crawler.py:121-126 | no more parts than children; every part is clean and longer than 20 characters |
| PostCrawler.KeptText | crawler/post_crawler.py:123-126 | a child gives a part iff it is content and its cleaned text is longer than 20, and the part is that text |
| PostCrawler.BodyPartsOfTwo | crawler/post_crawler.py:122-126 | children are kept in order, each on its own |
| PostCrawler.ContentPartsShape | crawler/post_crawler.py:102-130 | with a summary match, the summary is the first part, followed by the kept children of the first content container |
| PostCrawler.ContentFallback | crawler/post_crawler.py:128-129 | without a summary, the whole container's text is used exactly when no child was kept |
| PostCrawler.FirstSelectors | crawler/post_crawler.py:102-130 | with both first selectors matching, the parts are the summary and then the kept children |
| PostCrawler.ContentExample | crawler/post_crawler.py:90-132 | summary `A`, and children `B` (25 characters, content) and `C` (5), give `A\n\nB` |
| PostCrawler.BodyExample | crawler/post_crawler.py:121-126 | of `B` (25 characters) and `C` (5), only `B` is kept |
| PostCrawler.ExtractSapo | crawler/post_crawler.py:102-106 | the loop yields the first matching summary's cleaned text, or nothing |
| PostCrawler.ExtractBody | crawler/post_crawler.py:121-126 | the loop yields the body parts |
| PostCrawler.ExtractContent | crawler/post_crawler.py:90-132 | the content is the parts joined with `\n\n` |
| PostCrawler.IsValidImage | crawler/post_crawler.py:221-233 | valid iff non-empty and its lower-case form contains no skip pattern |
| PostCrawler.AreaUrls | crawler/post_crawler.py:199-206 | at most one URL per `<img>` |
| PostCrawler.AreaUrlsValid | crawler/post_crawler.py:199-206 | each `<img>` URL is the absolute form of its first truthy `data-src`/`src`/`data-original`, and that value is a valid image |
| PostCrawler.PicturesUrls | crawler/post_crawler.py:208-217 | the picture pass raises iff some picture has a non-empty, blank `srcset` |
| PostCrawler.BlankSrcsetRaises | crawler/post_crawler.py:211-213 | a whitespace-only `srcset` makes image extraction raise |
| PostCrawler.PicturesRaise | crawler/post_crawler.py:213 | one raising picture makes the whole pass raise |
| PostCrawler.PictureFirstToken | crawler/post_crawler.py:213-214 | a picture contributes the first whitespace-separated token of its `srcset` |
| PostCrawler.PictureSkipsValidity | crawler/post_crawler.py:208-217 | a `srcset` token is added even when the image rule would reject it, for example a logo |
| PostCrawler.ImageUrlsDistinct | crawler/post_crawler.py:192-219 | the image URLs have no duplicates, and they are exactly the `<img>` URLs and the picture URLs |
| PostCrawler.HarvestArea | crawler/post_crawler.py:199-206 | the `<img>` loop appends each new URL once and keeps `seen` equal to what was found |
| PostCrawler.AddNew | crawler/post_crawler.py:204-206 | adding one URL appends it iff it is unseen |
| PostCrawler.HarvestPictures | crawler/post_crawler.py:208-217 | the picture loop continues the same dedup, or raises |
| PostCrawler.PictureSource | crawler/post_crawler.py:209-214 | reading one picture's source gives its URL, nothing, or the error |
| PostCrawler.ExtractImages | crawler/post_crawler.py:192-219 | the image list is the dedup of the `<img>` URLs followed by the picture URLs, in first-occurrence order |
| PostCrawler.ExtractAudio | crawler/post_crawler.py:235-262 | none iff no candidate exists; otherwise the absolute form of the first candidate |
| PostCrawler.AudioPriority | crawler/post_crawler.py:237-260 | the `<audio>` element's source `src` beats everything; a matching podcast element without a truthy attribute is skipped |
| PostCrawler.ReactionLabelSkips | crawler/post_crawler.py:278-286 | an item has no label iff it has no truthy `data-reaction`/`data-type` and no emotion-word class |
| PostCrawler.ReactionLabelNonEmpty | crawler/post_crawler.py:286 | a label is never empty |
| PostCrawler.TallyKeys | crawler/post_crawler.py:275-294 | the keys are exactly the labels of the items |
| PostCrawler.TallyLastWins | crawler/post_crawler.py:294 | a label maps to the count of its last item |
| PostCrawler.ReactionsLastWins | crawler/post_crawler.py:264-296 | the reactions map the labelled items' labels to their digit-stripped counts (never negative, 0 when empty), the last item winning |
| PostCrawler.HarvestReactions | crawler/post_crawler.py:277-294 | the item loop updates the dict as the tally does |
| PostCrawler.ExtractReactions | crawler/post_crawler.py:264-296 | the reactions are the tally over the selectors' items, in selector order |
| PostCrawler.PostOfFacts | crawler/post_crawler.py:27-66 | a crawled post keeps its URL and category, has a clean title, author and date, and lists no image twice |
| PostCrawler.CrawlPost | crawler/post_crawler.py:27-66 | no page gives `None`; otherwise the post of the page, or the image `IndexError` |
| CommentCrawler.CleanJson | crawler/comment_crawler.py:150-151 | a cleaned field is clean |
| CommentCrawler.Collect | crawler/comment_crawler.py:143-146 | collecting raises iff some item raises; otherwise no more comments than items |
| CommentCrawler.ItemReplies | crawler/comment_crawler.py:140-146 | no more replies than reply items |
| CommentCrawler.ParseReplies | crawler/comment_crawler.py:140-146 | the reply loop keeps the parsed replies, dropping invalid ones |
| CommentCrawler.ParseCommentItem | crawler/comment_crawler.py:119-155 | the recursive parse of one item |
| CommentCrawler.ItemDropped | crawler/comment_crawler.py:121-126 | an item is dropped iff it is falsy or none of `id`/`commentId`/`Id` is truthy |
| CommentCrawler.ItemIdOf | crawler/comment_crawler.py:124-126 | the id is the non-empty `str()` of the first truthy id key |
| CommentCrawler.AuthorDefault | crawler/comment_crawler.py:128-129 | the author defaults to `Anonymous` |
| CommentCrawler.TextDefault | crawler/comment_crawler.py:130-131 | the text defaults to `""` |
| CommentCrawler.ItemDefaults | crawler/comment_crawler.py:128-151 | author and text are clean, with their defaults |
| CommentCrawler.ItemLikesOf | crawler/comment_crawler.py:135-138 | `like` is a key iff a like count is truthy, and then it is the `int()` of that count; there is no other key |
| CommentCrawler.ItemRepliesBound | crawler/comment_crawler.py:140-146 | a comment has no more replies than reply items |
| CommentCrawler.ZeroIdExample | crawler/comment_crawler.py:124-126 | an item with id `0` is dropped |
| CommentCrawler.ItemExample | crawler/comment_crawler.py:119-155 | `{"id": 1, "content": "hi", "like": 3}` becomes the comment with id `1`, author `Anonymous`, text `hi`, date `""`, reactions `{"like": 3}` and no replies |
| CommentCrawler.ApiResponse | crawler/comment_crawler.py:99-117 | a list gives at most one comment per item; a value that is neither a dict nor a list gives `[]` |
| CommentCrawler.ParseApiResponse | crawler/comment_crawler.py:99-117 | the item loop computes the response's comments |
| CommentCrawler.ApiProbeOrder | crawler/comment_crawler.py:103-106 | `data`, `comments`, `items` and `Data` are probed in order, and the first truthy list is used |
| CommentCrawler.Attempt | crawler/comment_crawler.py:77-87 | a usable endpoint answer always has a non-empty batch |
| CommentCrawler.PageStep | crawler/comment_crawler.py:66-89 | a page's batch is never empty |
| CommentCrawler.DecideFirst | crawler/comment_crawler.py:66-89 | the for/else takes the first endpoint that decides, and stops when none does |
| CommentCrawler.PageStepFirst | crawler/comment_crawler.py:66-89 | the three endpoints are tried in fixed order; the first status-200 non-empty parse is used; none ends paging |
| CommentCrawler.ApiPagesRead | crawler/comment_crawler.py:56-91 | the `i`-th batch is page `1 + i`'s answer |
| CommentCrawler.ApiPagesFull | crawler/comment_crawler.py:83-91 | only a full batch (20 or more) moves paging on |
| CommentCrawler.ApiPagesStop | crawler/comment_crawler.py:58-89 | paging ends on a short batch, on reaching `max_comments`, or on a page without a usable endpoint |
| CommentCrawler.ApiBatchesNonEmpty | crawler/comment_crawler.py:80-85 | every batch taken is non-empty and is its page's answer |
| CommentCrawler.ApiCommentsBound | crawler/comment_crawler.py:58-97 | the API result has at most `max_comments` comments and is a prefix of the batches |
| CommentCrawler.TryPage | crawler/comment_crawler.py:60-89 | the endpoint loop of one page computes that page's step |
| CommentCrawler.GetCommentsFromApi | crawler/comment_crawler.py:53-97 | the paging loop returns the API comments |
| CommentCrawler.Advance | crawler/comment_crawler.py:81-91 | one page's batch either ends paging with everything collected, or grows the collection and moves to the next page |
| CommentCrawler.PagesShort | crawler/comment_crawler.py:83-84 | a short batch is the last one |
| CommentCrawler.PagesFull | crawler/comment_crawler.py:82-91 | a full batch is followed by the next page's batches |
| CommentCrawler.HtmlComment | crawler/comment_crawler.py:185-226 | a comment exists iff its element has non-empty cleaned text |
| CommentCrawler.HtmlCommentFields | crawler/comment_crawler.py:187-208 | text and date are clean; the id is `data-comment-id`, else `id`, else the fallback; the author defaults to `Anonymous`; `like` is a key iff a like element exists, with its digit-stripped count |
| CommentCrawler.ReplyFallback | crawler/comment_crawler.py:213-217 | reply `j` comes from the reply element at position `idx >= j`, numbered `<parent id>_reply_<idx>` among all reply elements |
| CommentCrawler.ParseHtmlReplies | crawler/comment_crawler.py:210-217 | the reply loop keeps the replies that parse |
| CommentCrawler.ParseHtmlComment | crawler/comment_crawler.py:185-226 | the recursive parse of one element |
| CommentCrawler.RunAppend | crawler/comment_crawler.py:174-181 | numbering carries over from one selector's items to the next |
| CommentCrawler.RunNumbered | crawler/comment_crawler.py:174-181 | the `j`-th comment is the `j`-th element with text, parsed with fallback id `counter + j`: only successful parses advance the counter |
| CommentCrawler.HarvestSelector | crawler/comment_crawler.py:176-181 | one selector's items are appended and the counter advances by their number |
| CommentCrawler.ScrapeSelectors | crawler/comment_crawler.py:174-182 | the selector loop numbers the comments from 1 across all selectors |
| CommentCrawler.ScrapePage | crawler/comment_crawler.py:165-183 | a page's comments over the four comment selectors |
| CommentCrawler.GetCommentsFromHtml | crawler/comment_crawler.py:157-183 | no page gives `[]`; otherwise the page's comments, not truncated |
| CommentCrawler.HtmlCommentsNumbered | crawler/comment_crawler.py:174-181 | there is one comment per element with text; comment `j` has that element's own id, else `str(1 + j)` |
| CommentCrawler.GetComments | crawler/comment_crawler.py:25-51 | a non-empty API result is returned and HTML is never fetched; otherwise the HTML comments when a post URL is given; otherwise `[]` |
| MediaDownloader.ImageFilename | utils/media_downloader.py:44-51 | the file name is non-empty and slash-free; a basename without `.` gives `image_<index + 1>.<ext>` |
| MediaDownloader.SanitizedNonEmpty | utils/media_downloader.py:48-49 | a basename containing `.` stays non-empty when sanitised |
| MediaDownloader.NumberedNoSlash | utils/media_downloader.py:51 | a numbered name has no `/` |
| MediaDownloader.NumberedNamesDistinct | utils/media_downloader.py:51 | different indexes give different numbered names |
| MediaDownloader.OriginalNameKept | utils/media_downloader.py:47-49 | a clean basename containing `.` is kept as it is |
| MediaDownloader.DownloadImage | utils/media_downloader.py:27-63 | the URL is resolved against `BASE_URL`; a path is returned iff the download succeeds, ending with the chosen file name |
| MediaDownloader.ImagePathShape | utils/media_downloader.py:31-53 | the file is `IMAGES_DIR/<post id>/<file name>` |
| MediaDownloader.ImageResults | utils/media_downloader.py:68-72 | one result per input URL |
| MediaDownloader.Downloads | utils/media_downloader.py:65-74 | no more paths than URLs |
| MediaDownloader.DownloadImages | utils/media_downloader.py:65-74 | the loop returns the downloads |
| MediaDownloader.DownloadsComplete | utils/media_downloader.py:65-74 | every truthy URL that downloads contributes its path, whatever fails elsewhere |
| MediaDownloader.DownloadsSound | utils/media_downloader.py:65-74 | every path comes from a truthy URL at that position or later, in input order |
| MediaDownloader.DownloadsAll | utils/media_downloader.py:65-74 | when every URL downloads, every one gives a path |
| MediaDownloader.AudioExtension | utils/media_downloader.py:92-95 | the extension is known; a known path suffix wins; `bin` becomes `mp3` |
| MediaDownloader.DownloadAudio | utils/media_downloader.py:76-109 | a falsy URL gives `None`; otherwise a path iff the download succeeds |
| MediaDownloader.AudioPathShape | utils/media_downloader.py:97-98 | the file is `AUDIO_DIR/<post id>.<ext>` |
| DataSaver.OrEmpty | utils/data_saver.py:73-78 | a missing list is empty, and a supplied one is kept |
| DataSaver.OrEmptyMap | utils/data_saver.py:77 | a missing map is empty, and a supplied one is kept |
| DataSaver.CreatePostStructure | utils/data_saver.py:54-79 | the post fields pass through; `audio` is absent iff the audio URL is falsy, and is otherwise `{url, localPath}`; lists, reactions and comments default to empty |
| DataSaver.PostStructureKeepsSupplied | utils/data_saver.py:54-79 | every supplied argument is handed through as it is |
| DataSaver.CreateCommentStructure | utils/data_saver.py:81-93 | id, author, text and date pass through; reactions and replies default to empty |
| DataSaver.CommentStructureRoundTrip | utils/data_saver.py:81-93 | rebuilding a comment from its fields gives it back |
| DataSaver.NewSaver | utils/data_saver.py:20-21 | a falsy format becomes `json`, the configured default |
| DataSaver.SavePath | utils/data_saver.py:23-44 | the file ends with `<post id>.yaml` for `yaml`, and `<post id>.json` for any other format |
| DataSaver.SavePathShape | utils/data_saver.py:30-44 | the file is `DATA_DIR/<post id>.<ext>` |
| DataSaver.SavePathInjective | utils/data_saver.py:23-44 | the path depends only on the post id, and different ids never share a file |
| DataSaver.SavePost | utils/data_saver.py:23-52 | the written path, or the error when writing raises |
| Orchestrator.Record | main.py:113-138 | a post's updates never change the post counters and never lower the maximum; a post not crawled changes nothing |
| Orchestrator.Account | main.py:90-96 | each post adds exactly one success or one failure |
| Orchestrator.TallyCounts | main.py:90-96 | successes are the posts that were saved, and failures are all the others |
| Orchestrator.TallyComments | main.py:132-133 | the comment total is the sum over the posts that reached the comment step |
| Orchestrator.TallyMaxCount | main.py:136-138 | the maximum count is the largest comment count of any post that reached the step |
| Orchestrator.TallyMaxPost | main.py:136-138 | the recorded post is the first to attain the maximum (strict `>`); none while the maximum is 0 |
| Orchestrator.CountBelowMax | main.py:136-138 | no post has more comments than the maximum |
| Orchestrator.MakeSummary | main.py:160-184 | the requirement is met iff the maximum is at least 20; the most-commented post is reported iff one is recorded |
| Orchestrator.RequirementMet | main.py:172-179 | the requirement is met iff some post reached at least 20 comments |
| Orchestrator.Results | main.py:90-96 | one result per collected post |
| Orchestrator.CrawlStage | main.py:106-108 | the post is crawled with retries |
| Orchestrator.ImageStage | main.py:113-119 | images are downloaded only when the post lists some |
| Orchestrator.AudioStage | main.py:121-129 | audio is downloaded only when the post has a truthy audio URL |
| Orchestrator.CommentStage | main.py:132 | the comments come from the comment crawler with the default cap |
| Orchestrator.SaveStage | main.py:140-158 | the record is saved at the saver's path, and the result says whether the write succeeded |
| Orchestrator.CollectPosts | main.py:71-80 | the posts of all categories, in category order |
| Orchestrator.Crawler.constructor | main.py:42-54 | the statistics start at zero with no post, and the saver takes the output format |
| Orchestrator.Crawler.ProcessPost | main.py:103-158 | `_process_post` updates the statistics as `Record` says, and succeeds iff the post was crawled and saved |
| Orchestrator.Crawler.ProcessCrawled | main.py:110-158 | the stages after a successful crawl |
| Orchestrator.Crawler.DownloadMedia | main.py:112-129 | the image total grows by the paths saved; the audio total grows by 1 only for a saved audio file |
| Orchestrator.Crawler.CountComments | main.py:131-138 | the comment total grows by the count; the maximum and its post move only on a strictly larger count |
| Orchestrator.Crawler.Crawl | main.py:56-101 | `total_posts` is the number of collected posts, then each post is accounted in order |
| Orchestrator.Crawler.ProcessAll | main.py:90-99 | the post loop accounts the posts in order |
| Orchestrator.Crawler.ProcessOne | main.py:91-96 | one iteration: a raised error counts a failure, and otherwise a success |
| Orchestrator.CrawlAccounts | main.py:82-96 | after `crawl`, `successful_posts + failed_posts == total_posts == len(all_posts)`, and the successes are the saved posts |
| Orchestrator.Categories | main.py:238-242 | a given argument gives one category per comma-separated piece; none gives the defaults |
| Orchestrator.Launch | main.py:230-258 | fewer than 3 categories exits with status 1 before any crawler is built; otherwise the crawl runs and its statistics are returned |
| Orchestrator.CategoryCheck | main.py:244-247 | the check passes iff the argument is absent or empty, or contains at least two commas |

## Left out

- HTTP, the browser and HTML parsing are outside the model.
  - Every response is an oracle: per attempt for `make_request`, per URL for the comment API and the downloads.
  - A page is the answers its selectors give.
  - Two parts of a response are modelled. The comment API's status code is checked against 200 (`CommentCrawler.Response`). A download's `Content-Type` is what the image and audio oracles return.
  - Other status codes, other headers, user agents and the decoding of real bytes into JSON are not modelled. `make_request`'s `raise_for_status` is part of its per-attempt oracle.
- `urljoin`, `urlparse` and the MD5 digest are parameters. Only the absolute-URL passthrough of `make_absolute_url` is modelled.
- `urljoin` is total here. The real one raises `ValueError` on a malformed bracketed host, for example the href `//[-1.htm`, which passes both URL rules. Such an error would escape `get_posts_from_category` and then `crawl` (main.py:74). The model does not capture that path.
- Sleeps, `respectful_delay` and its random jitter, logging, `tqdm`, and the verbosity flag are left out; `make_request` only records its delay multipliers.
- `argparse` is left out beyond the comma split and strip of `--categories`.
- `ensure_directories` (main.py:64) is assumed to succeed. If `os.makedirs` failed there, the error would escape `crawl` before any category is fetched, and no summary would be printed. `Orchestrator.Crawler.Crawl` always goes on.
- The per-post directory creation and the file writes are folded into oracles. The image and audio downloads are oracles, and so is `write(path)` for the output record.
- Serialising the record to JSON or YAML is not modelled.
- Whitespace is Python's `str.isspace` set of characters.
- Lower-casing is ASCII-only, and so are digit tests. `int()` of text accepts an optional sign and ASCII digits, without underscores or Unicode digits.
- Floating-point JSON numbers are not modelled.
- `str()` of a JSON list or dict is a non-empty placeholder, not Python's `repr`.
- The API oracle gives one answer per URL, so repeated pages see the same answer.
- Iteration order over a JSON dict is not modelled; only its keys matter.
- `Orchestrator.Crawler.ProcessPost` raises only where the source does: a failed or raising `crawl_post`, and a failing write. The download and comment stages catch their own errors in the source, so they cannot raise here.
- `_init_driver`, `close`, the context-manager methods, and the locator list inside `_click_load_more` are left out. Each click's success is an oracle.
- `crawler/__init__.py` is not part of this model.
