/** The orchestrator (main.py): the crawler that collects post URLs from each category,
    processes every post (article, images, audio, comments, output file) and keeps run
    statistics, the summary printed at the end, and the command-line check that at least
    three categories are given. Every remote answer comes from `Services`. */
module Orchestrator {
  import opened Wrappers
  import opened Text
  import opened Seqs
  import opened Helpers
  import Config
  import CategoryCrawler
  import PostCrawler
  import CommentCrawler
  import MediaDownloader
  import DataSaver

  /** The outside world as the crawler meets it: the listing pages, the article pages,
      the MD5 digest and `urljoin`/`urlparse`, each post's image and audio downloads (the
      served content type, `None` on failure), the comment API and post pages, and whether
      writing an output file succeeds. */
  datatype Services = Services(
    listing: (string, nat) -> Option<CategoryCrawler.ListingPage>,
    article: (string, nat) -> Option<PostCrawler.Soup>,
    md5Hex: string -> string,
    urljoin: (string, string) -> string,
    urlPath: string -> string,
    image: (string, string, nat) -> Option<string>,
    audio: (string, string) -> Option<string>,
    api: string -> CommentCrawler.Response,
    commentPage: (string, nat) -> Option<CommentCrawler.CommentPage>,
    write: string -> bool)

  /** The image downloads of one post. */
  function ImageOracle(svc: Services, postId: string): (string, nat) -> Option<string> {
    (url: string, index: nat) => svc.image(postId, url, index)
  }

  /** The audio download of one post. */
  function AudioOracle(svc: Services, postId: string): string -> Option<string> {
    (url: string) => svc.audio(postId, url)
  }

  /** The run statistics (`self.stats`). */
  datatype Stats = Stats(
    totalPosts: nat,
    successfulPosts: nat,
    failedPosts: nat,
    totalImages: nat,
    totalAudio: nat,
    totalComments: nat,
    maxCommentsPost: Option<string>,
    maxCommentsCount: nat)

  const InitialStats: Stats := Stats(0, 0, 0, 0, 0, 0, None, 0)

  /** What processing one post amounts to for the statistics: the article was not
      crawled (`crawl_post` returned `None` or raised), or it was, with the post id, the
      number of images saved, whether its audio was saved, its comment count, and whether
      the output file was written. */
  datatype PostResult =
    | NotCrawled
    | Reached(postId: string, images: nat, audio: bool, comments: nat, saved: bool)

  predicate Succeeded(r: PostResult) {
    r.Reached? && r.saved
  }

  // ---------------------------------------------------------------------------------
  // the statistics as a function of the post results

  /** `_process_post`'s updates: the image, audio and comment totals, and the running
      maximum of comment counts with the first post attaining it. */
  function Record(s: Stats, r: PostResult): (t: Stats)
    ensures t.totalPosts == s.totalPosts && t.successfulPosts == s.successfulPosts && t.failedPosts == s.failedPosts
    ensures t.maxCommentsCount >= s.maxCommentsCount
    ensures r.NotCrawled? ==> t == s
  {
    match r
    case NotCrawled => s
    case Reached(postId, images, audio, comments, _) =>
      var s' := s.(totalImages := s.totalImages + images,
                   totalAudio := s.totalAudio + (if audio then 1 else 0),
                   totalComments := s.totalComments + comments);
      if comments > s.maxCommentsCount then s'.(maxCommentsCount := comments, maxCommentsPost := Some(postId))
      else s'
  }

  /** One iteration of `crawl`'s post loop: the post's updates, then one more success or
      failure. */
  function Account(s: Stats, r: PostResult): (t: Stats)
    ensures t.successfulPosts + t.failedPosts == s.successfulPosts + s.failedPosts + 1
  {
    var t := Record(s, r);
    if Succeeded(r) then t.(successfulPosts := t.successfulPosts + 1) else t.(failedPosts := t.failedPosts + 1)
  }

  /** The statistics after the posts with results `rs`, in order. */
  function Tally(s: Stats, rs: seq<PostResult>): Stats
    decreases |rs|
  {
    if rs == [] then s else Account(Tally(s, rs[..|rs| - 1]), rs[|rs| - 1])
  }

  function CountSucceeded(rs: seq<PostResult>): (n: nat)
    ensures n <= |rs|
    decreases |rs|
  {
    if rs == [] then 0 else CountSucceeded(rs[..|rs| - 1]) + (if Succeeded(rs[|rs| - 1]) then 1 else 0)
  }

  /** The comment counts of the posts that reached the comment step, in order. */
  function CommentCounts(rs: seq<PostResult>): (cs: seq<nat>)
    ensures |cs| <= |rs|
    decreases |rs|
  {
    if rs == [] then []
    else CommentCounts(rs[..|rs| - 1]) + (if rs[|rs| - 1].Reached? then [rs[|rs| - 1].comments] else [])
  }

  function Sum(s: seq<nat>): nat
    decreases |s|
  {
    if s == [] then 0 else Sum(s[..|s| - 1]) + s[|s| - 1]
  }

  lemma SumSnoc(s: seq<nat>, t: seq<nat>)
    requires |t| <= 1
    ensures Sum(s + t) == Sum(s) + (if t != [] then t[0] else 0)
  {
    if t != [] {
      assert (s + t)[..|s + t| - 1] == s;
    } else {
      assert s + t == s;
    }
  }

  /** Every post is counted once, as a success exactly when it was crawled and saved. */
  lemma {:induction false} TallyCounts(s: Stats, rs: seq<PostResult>)
    ensures Tally(s, rs).successfulPosts == s.successfulPosts + CountSucceeded(rs)
    ensures Tally(s, rs).failedPosts == s.failedPosts + |rs| - CountSucceeded(rs)
    ensures Tally(s, rs).totalPosts == s.totalPosts
    decreases |rs|
  {
    if rs != [] {
      TallyCounts(s, rs[..|rs| - 1]);
    }
  }

  /** The comment total adds up every comment count, saved post or not. */
  lemma {:induction false} TallyComments(s: Stats, rs: seq<PostResult>)
    ensures Tally(s, rs).totalComments == s.totalComments + Sum(CommentCounts(rs))
    decreases |rs|
  {
    if rs != [] {
      var init := rs[..|rs| - 1];
      TallyComments(s, init);
      SumSnoc(CommentCounts(init), if rs[|rs| - 1].Reached? then [rs[|rs| - 1].comments] else []);
    }
  }

  /** `maxCommentsPost` names the first post whose count is `maxCommentsCount`. */
  ghost predicate FirstMax(rs: seq<PostResult>, count: nat, post: Option<string>) {
    (count == 0 ==> post.None?) &&
    (count > 0 ==> exists k :: IsFirstMax(rs, count, k) && post == Some(rs[k].postId))
  }

  ghost predicate IsFirstMax(rs: seq<PostResult>, count: nat, k: int) {
    0 <= k < |rs| && rs[k].Reached? && rs[k].comments == count &&
    forall j :: 0 <= j < k && rs[j].Reached? ==> rs[j].comments < count
  }

  /** From the initial statistics, the maximum is the largest comment count of any post
      that reached the comment step. */
  lemma {:induction false} TallyMaxCount(rs: seq<PostResult>)
    ensures Tally(InitialStats, rs).maxCommentsCount == MaxOf(CommentCounts(rs))
    decreases |rs|
  {
    if rs != [] {
      var init := rs[..|rs| - 1];
      var r := rs[|rs| - 1];
      TallyMaxCount(init);
      MaxOfSnoc(CommentCounts(init), if r.Reached? then [r.comments] else []);
    }
  }

  /** ... and the post recorded with it is the first to reach it: a later post with as
      many comments does not replace it. */
  lemma {:induction false} TallyMaxPost(rs: seq<PostResult>)
    ensures FirstMax(rs, Tally(InitialStats, rs).maxCommentsCount, Tally(InitialStats, rs).maxCommentsPost)
    decreases |rs|
  {
    if rs != [] {
      var init := rs[..|rs| - 1];
      var r := rs[|rs| - 1];
      TallyMaxPost(init);
      var before := Tally(InitialStats, init);
      var after := Tally(InitialStats, rs);
      if r.Reached? && r.comments > before.maxCommentsCount {
        TallyMaxCount(init);
        EarlierBelow(init, rs, before.maxCommentsCount);
        assert IsFirstMax(rs, after.maxCommentsCount, |rs| - 1);
      } else if after.maxCommentsCount > 0 {
        var k :| IsFirstMax(init, before.maxCommentsCount, k) && before.maxCommentsPost == Some(init[k].postId);
        assert IsFirstMax(rs, after.maxCommentsCount, k);
      }
    }
  }

  /** The posts before the last have no more comments than their maximum. */
  lemma EarlierBelow(init: seq<PostResult>, rs: seq<PostResult>, m: nat)
    requires m == MaxOf(CommentCounts(init)) && rs != [] && init == rs[..|rs| - 1]
    ensures forall j :: 0 <= j < |rs| - 1 && rs[j].Reached? ==> rs[j].comments <= m
  {
    forall j | 0 <= j < |rs| - 1 && rs[j].Reached?
      ensures rs[j].comments <= m
    {
      assert init[j] == rs[j];
      CountBelowMax(init, j);
    }
  }

  /** No post has more comments than the maximum. */
  lemma {:induction false} CountBelowMax(rs: seq<PostResult>, j: nat)
    requires j < |rs| && rs[j].Reached?
    ensures rs[j].comments <= MaxOf(CommentCounts(rs))
    decreases |rs|
  {
    var init := rs[..|rs| - 1];
    var r := rs[|rs| - 1];
    MaxOfSnoc(CommentCounts(init), if r.Reached? then [r.comments] else []);
    if j < |rs| - 1 {
      assert init[j] == rs[j];
      CountBelowMax(init, j);
    }
  }

  /** The maximum of a sequence with up to one more element. */
  lemma MaxOfSnoc(s: seq<nat>, t: seq<nat>)
    requires |t| <= 1
    ensures MaxOf(s + t) == if t != [] && t[0] > MaxOf(s) then t[0] else MaxOf(s)
  {
    if t != [] {
      assert (s + t)[..|s + t| - 1] == s;
    } else {
      assert s + t == s;
    }
  }

  // ---------------------------------------------------------------------------------
  // the summary

  /** What `_print_summary` reports beyond the counts: the post with most comments (when
      its id is truthy) and whether the 20-comment requirement is met. */
  datatype Summary = Summary(mostCommented: Option<(string, nat)>, requirementMet: bool)

  const REQUIRED_COMMENTS: nat := 20

  function MakeSummary(s: Stats): (r: Summary)
    ensures r.requirementMet <==> s.maxCommentsCount >= REQUIRED_COMMENTS
    ensures r.mostCommented.Some? <==> s.maxCommentsPost.Some? && s.maxCommentsPost.value != ""
  {
    Summary(
      if s.maxCommentsPost.Some? && s.maxCommentsPost.value != "" then Some((s.maxCommentsPost.value, s.maxCommentsCount)) else None,
      s.maxCommentsCount >= REQUIRED_COMMENTS)
  }

  /** After a run, the requirement is reported as met exactly when some post that reached
      the comment step has at least 20 comments. */
  lemma RequirementMet(rs: seq<PostResult>)
    ensures MakeSummary(Tally(InitialStats, rs)).requirementMet <==>
              exists k :: 0 <= k < |rs| && rs[k].Reached? && rs[k].comments >= REQUIRED_COMMENTS
  {
    TallyMaxCount(rs);
    TallyMaxPost(rs);
    var m := Tally(InitialStats, rs).maxCommentsCount;
    if m >= REQUIRED_COMMENTS {
      var k :| IsFirstMax(rs, m, k) && Tally(InitialStats, rs).maxCommentsPost == Some(rs[k].postId);
    } else {
      forall k | 0 <= k < |rs| && rs[k].Reached?
        ensures rs[k].comments < REQUIRED_COMMENTS
      {
        CountBelowMax(rs, k);
      }
    }
  }

  // ---------------------------------------------------------------------------------
  // one post

  /** What `crawl_post` makes of a post URL. */
  function CrawlOutcome(svc: Services, postUrl: string, category: string): PostCrawler.Outcome {
    match FirstSuccess(svc.article, postUrl, Config.MAX_RETRIES)
    case None => PostCrawler.NoPage
    case Some(soup) => PostCrawler.PostOf(soup, postUrl, category, svc.md5Hex, svc.urljoin)
  }

  /** The saved image paths of a crawled post: none are attempted when it lists no image. */
  function ImagePaths(svc: Services, post: PostCrawler.Post): seq<string> {
    if post.images != [] then
      MediaDownloader.Downloads(ImageOracle(svc, post.postId), svc.urljoin, svc.urlPath, post.images, post.postId)
    else []
  }

  /** The saved audio path of a crawled post: none is attempted without a truthy audio URL. */
  function AudioPath(svc: Services, post: PostCrawler.Post): Option<string> {
    if post.audio.Some? && post.audio.value != "" then
      MediaDownloader.DownloadAudio(AudioOracle(svc, post.postId), svc.urljoin, svc.urlPath, post.audio.value, post.postId)
    else None
  }

  /** The comments of a crawled post, with the default cap. */
  function PostComments(svc: Services, post: PostCrawler.Post, postUrl: string): seq<CommentCrawler.Comment> {
    CommentCrawler.PostComments(svc.api, svc.commentPage, post.postId, Some(postUrl), CommentCrawler.DEFAULT_MAX_COMMENTS)
  }

  /** What the crawler's stages make of one post, each stage as its model specifies it. */
  function PostResultOf(svc: Services, saver: DataSaver.Saver, postUrl: string, category: string): PostResult {
    match CrawlOutcome(svc, postUrl, category)
    case Crawled(post) => CrawledResult(svc, saver, post, postUrl)
    case _ => NotCrawled
  }

  /** The result for a crawled post: its images, audio, comments and output file. */
  function CrawledResult(svc: Services, saver: DataSaver.Saver, post: PostCrawler.Post, postUrl: string): PostResult {
    var audio := AudioPath(svc, post);
    Reached(post.postId, |ImagePaths(svc, post)|, audio.Some? && audio.value != "",
            |PostComments(svc, post, postUrl)|, svc.write(DataSaver.SavePath(saver, post.postId)))
  }

  /** The `(post_url, category)` pairs of the categories, category after category. */
  function AllPosts(svc: Services, categories: seq<string>, postsPerCategory: int): seq<CategoryCrawler.PostRef>
    decreases |categories|
  {
    if categories == [] then []
    else AllPosts(svc, categories[..|categories| - 1], postsPerCategory)
         + CategoryPosts(svc, categories[|categories| - 1], postsPerCategory)
  }

  /** `get_posts_from_category` of one category. */
  function CategoryPosts(svc: Services, categoryUrl: string, postsPerCategory: int): seq<CategoryCrawler.PostRef> {
    CategoryCrawler.Tagged(
      SliceTo(CategoryCrawler.Collect(categoryUrl, postsPerCategory, svc.listing, svc.urljoin, 1, [], {}), postsPerCategory),
      CategoryCrawler.CategoryName(categoryUrl))
  }

  function Results(svc: Services, saver: DataSaver.Saver, posts: seq<CategoryCrawler.PostRef>): (rs: seq<PostResult>)
    ensures |rs| == |posts|
  {
    seq(|posts|, i requires 0 <= i < |posts| => PostResultOf(svc, saver, posts[i].url, posts[i].category))
  }

  /** `crawl_post`. */
  method CrawlStage(svc: Services, postUrl: string, category: string) returns (outcome: PostCrawler.Outcome)
    ensures outcome == CrawlOutcome(svc, postUrl, category)
  {
    outcome := PostCrawler.CrawlPost(postUrl, category, svc.article, svc.md5Hex, svc.urljoin);
  }

  /** The image downloads of `_process_post`. */
  method ImageStage(svc: Services, post: PostCrawler.Post) returns (paths: seq<string>)
    ensures paths == ImagePaths(svc, post)
  {
    paths := [];
    if post.images != [] {
      paths := MediaDownloader.DownloadImages(ImageOracle(svc, post.postId), svc.urljoin, svc.urlPath,
                                              post.images, post.postId);
    }
  }

  /** The audio download of `_process_post`. */
  method AudioStage(svc: Services, post: PostCrawler.Post) returns (path: Option<string>)
    ensures path == AudioPath(svc, post)
  {
    path := None;
    if post.audio.Some? && post.audio.value != "" {
      path := MediaDownloader.DownloadAudio(AudioOracle(svc, post.postId), svc.urljoin, svc.urlPath,
                                            post.audio.value, post.postId);
    }
  }

  /** The comment fetch of `_process_post`. */
  method CommentStage(svc: Services, post: PostCrawler.Post, postUrl: string) returns (comments: seq<CommentCrawler.Comment>)
    ensures comments == PostComments(svc, post, postUrl)
  {
    comments := CommentCrawler.GetComments(svc.api, svc.commentPage, post.postId, Some(postUrl),
                                           CommentCrawler.DEFAULT_MAX_COMMENTS);
  }

  /** The output record of `_process_post` and its file: true when it is written. */
  method SaveStage(svc: Services, saver: DataSaver.Saver, post: PostCrawler.Post, postUrl: string, category: string,
                   imagePaths: seq<string>, audioPath: Option<string>, comments: seq<CommentCrawler.Comment>)
    returns (saved: bool)
    ensures saved == svc.write(DataSaver.SavePath(saver, post.postId))
  {
    var finalData := DataSaver.CreatePostStructure(
      post.postId, post.title, post.content, post.author, post.date, category, postUrl,
      post.audio, audioPath, Some(post.images), Some(imagePaths), Some(post.reactions), Some(comments));
    var path := DataSaver.SavePost(saver, svc.write, finalData, post.postId);
    saved := path.Some?;
  }

  /** `get_posts_from_category` for each category in turn, the posts appended. */
  method CollectPosts(svc: Services, categories: seq<string>, postsPerCategory: int)
    returns (allPosts: seq<CategoryCrawler.PostRef>)
    ensures allPosts == AllPosts(svc, categories, postsPerCategory)
  {
    allPosts := [];
    for c := 0 to |categories|
      invariant allPosts == AllPosts(svc, categories[..c], postsPerCategory)
    {
      assert categories[..c + 1][..c] == categories[..c];
      var posts, _ := CategoryCrawler.GetPostsFromCategory(categories[c], postsPerCategory, svc.listing, svc.urljoin);
      allPosts := allPosts + posts;
    }
    assert categories[..|categories|] == categories;
  }

  /** `TuoitreCrawler`: the statistics, and the output format its saver writes. */
  class Crawler {
    var totalPosts: nat
    var successfulPosts: nat
    var failedPosts: nat
    var totalImages: nat
    var totalAudio: nat
    var totalComments: nat
    var maxCommentsPost: Option<string>
    var maxCommentsCount: nat
    const saver: DataSaver.Saver

    function Snapshot(): Stats
      reads this
    {
      Stats(totalPosts, successfulPosts, failedPosts, totalImages, totalAudio, totalComments,
            maxCommentsPost, maxCommentsCount)
    }

    constructor(outputFormat: Option<string>)
      ensures Snapshot() == InitialStats
      ensures saver == DataSaver.NewSaver(outputFormat)
    {
      totalPosts, successfulPosts, failedPosts := 0, 0, 0;
      totalImages, totalAudio, totalComments := 0, 0, 0;
      maxCommentsPost, maxCommentsCount := None, 0;
      saver := DataSaver.NewSaver(outputFormat);
    }

    /** `_process_post`: false where it raises, which is when the article is not crawled
        or its file is not written; in the second case the counters have already moved. */
    method ProcessPost(svc: Services, postUrl: string, category: string) returns (ok: bool)
      modifies this
      ensures ok == Succeeded(PostResultOf(svc, saver, postUrl, category))
      ensures Snapshot() == Record(old(Snapshot()), PostResultOf(svc, saver, postUrl, category))
    {
      var outcome := CrawlStage(svc, postUrl, category);
      if !outcome.Crawled? {
        return false;
      }
      ok := ProcessCrawled(svc, outcome.post, postUrl, category);
    }

    /** The rest of `_process_post` once the article is crawled: each stage moves its
        counter, and the output file is written last. */
    method ProcessCrawled(svc: Services, post: PostCrawler.Post, postUrl: string, category: string) returns (ok: bool)
      modifies this
      ensures ok == Succeeded(CrawledResult(svc, saver, post, postUrl))
      ensures Snapshot() == Record(old(Snapshot()), CrawledResult(svc, saver, post, postUrl))
    {
      ghost var s0 := Snapshot();
      var imageLocalPaths, audioLocalPath := DownloadMedia(svc, post);
      ghost var s1 := Snapshot();
      var comments := CountComments(svc, post, postUrl);
      ok := SaveStage(svc, saver, post, postUrl, category, imageLocalPaths, audioLocalPath, comments);
      RecordStages(s0, s1, Snapshot(), CrawledResult(svc, saver, post, postUrl));
    }

    /** The image and audio downloads, with their counters. */
    method DownloadMedia(svc: Services, post: PostCrawler.Post) returns (imageLocalPaths: seq<string>, audioLocalPath: Option<string>)
      modifies this
      ensures imageLocalPaths == ImagePaths(svc, post) && audioLocalPath == AudioPath(svc, post)
      ensures Snapshot() == old(Snapshot()).(totalImages := old(totalImages) + |imageLocalPaths|,
                                             totalAudio := old(totalAudio) + if audioLocalPath.Some? && audioLocalPath.value != "" then 1 else 0)
    {
      imageLocalPaths := ImageStage(svc, post);
      if post.images != [] {
        totalImages := totalImages + |imageLocalPaths|;
      }

      audioLocalPath := AudioStage(svc, post);
      if audioLocalPath.Some? && audioLocalPath.value != "" {
        totalAudio := totalAudio + 1;
      }
    }

    /** The comment fetch, with the comment total and the running maximum. */
    method CountComments(svc: Services, post: PostCrawler.Post, postUrl: string) returns (comments: seq<CommentCrawler.Comment>)
      modifies this
      ensures comments == PostComments(svc, post, postUrl)
      ensures Snapshot() == old(Snapshot()).(totalComments := old(totalComments) + |comments|,
                                             maxCommentsCount := if |comments| > old(maxCommentsCount) then |comments| else old(maxCommentsCount),
                                             maxCommentsPost := if |comments| > old(maxCommentsCount) then Some(post.postId) else old(maxCommentsPost))
    {
      comments := CommentStage(svc, post, postUrl);
      totalComments := totalComments + |comments|;

      if |comments| > maxCommentsCount {
        maxCommentsCount := |comments|;
        maxCommentsPost := Some(post.postId);
      }
    }

    /** `crawl`: the posts of every category, then each post in turn. */
    method Crawl(svc: Services, categories: seq<string>, postsPerCategory: int)
      modifies this
      ensures var posts := AllPosts(svc, categories, postsPerCategory);
              Snapshot() == Tally(old(Snapshot()).(totalPosts := |posts|), Results(svc, saver, posts))
    {
      var allPosts := CollectPosts(svc, categories, postsPerCategory);
      totalPosts := |allPosts|;
      ProcessAll(svc, allPosts);
    }

    /** `crawl`'s post loop. */
    method ProcessAll(svc: Services, allPosts: seq<CategoryCrawler.PostRef>)
      modifies this
      ensures Snapshot() == Tally(old(Snapshot()), Results(svc, saver, allPosts))
    {
      ghost var start := Snapshot();
      ghost var rs := Results(svc, saver, allPosts);
      for i := 0 to |allPosts|
        invariant Snapshot() == Tally(start, rs[..i])
      {
        TallyStep(start, rs, i);
        ProcessOne(svc, allPosts[i]);
      }
      assert rs[..|allPosts|] == rs;
    }

    /** One post of the loop, counted as a success or a failure. */
    method ProcessOne(svc: Services, post: CategoryCrawler.PostRef)
      modifies this
      ensures Snapshot() == Account(old(Snapshot()), PostResultOf(svc, saver, post.url, post.category))
    {
      ghost var s0 := Snapshot();
      ghost var r := PostResultOf(svc, saver, post.url, post.category);
      var ok := ProcessPost(svc, post.url, post.category);
      AccountBy(s0, r, ok);
      if ok {
        successfulPosts := successfulPosts + 1;
      } else {
        failedPosts := failedPosts + 1;
      }
    }
  }

  /** The stage updates of a post that reached them, media first and comments second,
      add up to its recorded updates. */
  lemma RecordStages(s0: Stats, s1: Stats, s2: Stats, r: PostResult)
    requires r.Reached?
    requires s1 == s0.(totalImages := s0.totalImages + r.images,
                       totalAudio := s0.totalAudio + if r.audio then 1 else 0)
    requires s2 == s1.(totalComments := s1.totalComments + r.comments,
                       maxCommentsCount := if r.comments > s1.maxCommentsCount then r.comments else s1.maxCommentsCount,
                       maxCommentsPost := if r.comments > s1.maxCommentsCount then Some(r.postId) else s1.maxCommentsPost)
    ensures s2 == Record(s0, r)
  {
  }

  /** A post's updates, then one more success when `ok` tells it succeeded, one more
      failure otherwise. */
  lemma AccountBy(s: Stats, r: PostResult, ok: bool)
    requires ok == Succeeded(r)
    ensures var t := Record(s, r);
            Account(s, r) == if ok then t.(successfulPosts := t.successfulPosts + 1) else t.(failedPosts := t.failedPosts + 1)
  {
  }

  lemma TallyStep(s: Stats, rs: seq<PostResult>, i: nat)
    requires i < |rs|
    ensures Tally(s, rs[..i + 1]) == Account(Tally(s, rs[..i]), rs[i])
  {
    assert rs[..i + 1][..i] == rs[..i];
  }

  /** After a crawl from fresh statistics, every collected post is counted exactly once:
      `successful_posts + failed_posts == total_posts`, the number of posts collected. */
  lemma CrawlAccounts(svc: Services, saver: DataSaver.Saver, posts: seq<CategoryCrawler.PostRef>)
    ensures var s := Tally(InitialStats.(totalPosts := |posts|), Results(svc, saver, posts));
            && s.totalPosts == |posts|
            && s.successfulPosts + s.failedPosts == s.totalPosts
            && s.successfulPosts == CountSucceeded(Results(svc, saver, posts))
  {
    TallyCounts(InitialStats.(totalPosts := |posts|), Results(svc, saver, posts));
  }

  // ---------------------------------------------------------------------------------
  // main

  /** The category list: the comma-separated argument with each piece stripped, or the
      default three when no argument is given. */
  function Categories(arg: Option<string>): (r: seq<string>)
    ensures arg.Some? && arg.value != "" ==> |r| == Count(arg.value, ',') + 1
    ensures arg.None? || arg.value == "" ==> r == Config.DEFAULT_CATEGORIES
  {
    if arg.Some? && arg.value != "" then
      var pieces := Split(arg.value, ',');
      SplitCount(arg.value, ',');
      seq(|pieces|, i requires 0 <= i < |pieces| => Strip(pieces[i]))
    else Config.DEFAULT_CATEGORIES
  }

  /** `main`: exit status 1 before any crawler is built when fewer than three categories
      are given, otherwise a crawl with fresh statistics. */
  method Launch(svc: Services, categoriesArg: Option<string>, postsPerCategory: int, format: Option<string>)
    returns (exitCode: int, stats: Option<Stats>)
    ensures |Categories(categoriesArg)| < 3 ==> exitCode == 1 && stats.None?
    ensures |Categories(categoriesArg)| >= 3 ==> exitCode == 0 && stats.Some?
    ensures stats.Some? ==>
              var posts := AllPosts(svc, Categories(categoriesArg), postsPerCategory);
              stats.value == Tally(InitialStats.(totalPosts := |posts|),
                                   Results(svc, DataSaver.NewSaver(format), posts))
  {
    var categories := Categories(categoriesArg);
    if |categories| < 3 {
      return 1, None;
    }
    var crawler := new Crawler(format);
    crawler.Crawl(svc, categories, postsPerCategory);
    return 0, Some(crawler.Snapshot());
  }

  /** With a category argument, the run goes ahead exactly when it holds at least two
      commas; without one the three default categories always suffice. */
  lemma CategoryCheck(categoriesArg: Option<string>)
    ensures |Categories(categoriesArg)| >= 3 <==>
              categoriesArg.None? || categoriesArg.value == "" || Count(categoriesArg.value, ',') >= 2
  {
  }
}
