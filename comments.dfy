/** The comment crawler (crawler/comment_crawler.py): comments come from tuoitre's JSON
    comment API first, page by page over three endpoints, and from the post's HTML when
    the API yields nothing. Both paths normalise loosely shaped items into one comment
    record. HTTP answers are oracles: `get(url)` is the API response to a URL, and
    `fetch(url, k)` the page the k-th attempt of `make_request` returns. */
module CommentCrawler {
  import opened Wrappers
  import opened Text
  import opened Seqs
  import opened Json
  import opened Helpers
  import Config

  /** A comment: the record both parsers build. */
  datatype Comment = Comment(
    commentId: string,
    author: string,
    text: string,
    date: string,
    reactions: map<string, int>,
    replies: seq<Comment>)

  // ---------------------------------------------------------------------------------
  // _parse_comment_item

  const IdKeys: seq<string> := ["id", "commentId", "Id"]
  const AuthorKeys: seq<string> := ["fullname", "author", "user_name", "FullName"]
  const TextKeys: seq<string> := ["content", "text", "body", "Content"]
  const DateKeys: seq<string> := ["time", "date", "created_at", "Time"]
  const LikeKeys: seq<string> := ["like", "likes", "Like"]
  const ReplyKeys: seq<string> := ["reply", "replies", "children"]

  /** What parsing one API item gives: a comment, nothing (the item is skipped), or an
      exception, which ends the whole API fetch. */
  datatype Parsed = Dropped | Raised | Parsed(comment: Comment)

  /** `clean_text(x)` on a decoded value: a falsy value gives `""`, and `re.sub` raises on
      any other value that is not a string. */
  function CleanJson(j: Json): (r: Option<string>)
    ensures r.Some? ==> IsClean(r.value)
  {
    match j
    case Str(s) => Some(CleanText(s))
    case _ => if Truthy(j) then None else Some("")
  }

  /** The comments of a run of parsed items, in order; `None` once one of them raised. */
  function Collect(rs: seq<Parsed>): (r: Option<seq<Comment>>)
    ensures r.None? <==> exists i :: 0 <= i < |rs| && rs[i].Raised?
    ensures r.Some? ==> |r.value| <= |rs|
    decreases |rs|
  {
    if rs == [] then Some([])
    else
      var init := rs[..|rs| - 1];
      assert forall i :: 0 <= i < |init| ==> init[i] == rs[i];
      match Collect(init)
      case None => None
      case Some(cs) =>
        match rs[|rs| - 1]
        case Raised => None
        case Dropped => Some(cs)
        case Parsed(c) => Some(cs + [c])
  }

  /** One more parsed item: a raise ends the run, a dropped item adds nothing. */
  lemma CollectStep(rs: seq<Parsed>, i: nat)
    requires i < |rs|
    ensures Collect(rs[..i + 1])
            == match Collect(rs[..i])
               case None => None
               case Some(cs) =>
                 match rs[i]
                 case Raised => None
                 case Dropped => Some(cs)
                 case Parsed(c) => Some(cs + [c])
  {
    assert rs[..i + 1][..i] == rs[..i];
  }

  /** `str(item.get('id') or item.get('commentId') or item.get('Id') or '')`. */
  function ItemId(m: map<string, Json>): string {
    PyStr(Or(m, IdKeys, Str("")))
  }

  /** The reactions of a dict item: `like` holds `int` of the first truthy like count,
      and there is no entry when none is truthy; `None` when `int` raises. */
  function ItemLikes(m: map<string, Json>): Option<map<string, int>> {
    match Probe(m, LikeKeys)
    case None => Some(map[])
    case Some(k) =>
      match PyInt(m[k])
      case None => None
      case Some(n) => Some(map["like" := n])
  }

  /** The reply items of a dict item: the first truthy of `reply`, `replies`, `children`
      when it is a list, and none for any other value. */
  function ReplyData(m: map<string, Json>): seq<Json> {
    match Probe(m, ReplyKeys)
    case Some(k) => if m[k].Array? then m[k].items else []
    case None => []
  }

  /** `clean_text` of the first truthy author field, "Anonymous" when there is none. */
  function ItemAuthor(m: map<string, Json>): Option<string> {
    CleanJson(Or(m, AuthorKeys, Str("Anonymous")))
  }

  /** `clean_text` of the first truthy text field, "" when there is none. */
  function ItemText(m: map<string, Json>): Option<string> {
    CleanJson(Or(m, TextKeys, Str("")))
  }

  /** `str` of the first truthy date field, "" when there is none. */
  function ItemDate(m: map<string, Json>): string {
    PyStr(Or(m, DateKeys, Str("")))
  }

  /** The parsed replies of a dict item; `None` when one of them raises. */
  function ItemReplies(item: Json): (r: Option<seq<Comment>>)
    requires item.Object?
    ensures r.Some? ==> |r.value| <= |ReplyData(item.fields)|
    decreases item, 0
  {
    var m := item.fields;
    match Probe(m, ReplyKeys)
    case Some(k) =>
      if m[k].Array? then
        var xs := m[k].items;
        Collect(seq(|xs|, i requires 0 <= i < |xs| => ParseItem(xs[i])))
      else Some([])
    case None => Some([])
  }

  /** `_parse_comment_item`. */
  function ParseItem(item: Json): Parsed
    decreases item, 1
  {
    if !Truthy(item) then Dropped
    else if !item.Object? then Raised
    else
      var m := item.fields;
      var id := ItemId(m);
      if id == "" then Dropped
      else
        var likes := ItemLikes(m);
        var replies := ItemReplies(item);
        var author := ItemAuthor(m);
        var text := ItemText(m);
        if likes.None? || replies.None? || author.None? || text.None? then Raised
        else Parsed(Comment(id, author.value, text.value, ItemDate(m), likes.value, replies.value))
  }

  /** The replies of a dict item, stopping at the first that raises. */
  method ParseReplies(item: Json) returns (r: Option<seq<Comment>>)
    requires item.Object?
    ensures r == ItemReplies(item)
    decreases item, 0
  {
    var m := item.fields;
    var key := Probe(m, ReplyKeys);
    if key.None? || !m[key.value].Array? {
      return Some([]);
    }
    var xs := m[key.value].items;
    ghost var rs := seq(|xs|, i requires 0 <= i < |xs| => ParseItem(xs[i]));
    var replies: seq<Comment> := [];
    for i := 0 to |xs|
      invariant Collect(rs[..i]) == Some(replies)
    {
      CollectStep(rs, i);
      var reply := ParseCommentItem(xs[i]);
      assert reply == rs[i];
      if reply.Raised? {
        return None;
      }
      if reply.Parsed? {
        replies := replies + [reply.comment];
      }
    }
    assert rs[..|xs|] == rs;
    r := Some(replies);
  }

  /** `_parse_comment_item`, reading the like count before walking the replies. */
  method ParseCommentItem(item: Json) returns (r: Parsed)
    ensures r == ParseItem(item)
    decreases item, 1
  {
    if !Truthy(item) {
      return Dropped;
    }
    if !item.Object? {
      return Raised;
    }
    var m := item.fields;
    var id := ItemId(m);
    if id == "" {
      return Dropped;
    }
    var likes := ItemLikes(m);
    if likes.None? {
      return Raised;
    }
    var replies := ParseReplies(item);
    if replies.None? {
      return Raised;
    }
    var author := ItemAuthor(m);
    var text := ItemText(m);
    if author.None? || text.None? {
      return Raised;
    }
    r := Parsed(Comment(id, author.value, text.value, ItemDate(m), likes.value, replies.value));
  }

  /** An item is skipped exactly when it is falsy, or a dict none of whose `id`,
      `commentId`, `Id` is truthy (so an id of 0 drops the item). */
  lemma ItemDropped(item: Json)
    ensures ParseItem(item).Dropped? <==>
              !Truthy(item) || (item.Object? && Probe(item.fields, IdKeys).None?)
  {
    if Truthy(item) && item.Object? && Probe(item.fields, IdKeys).Some? {
      assert ItemId(item.fields) != "";
    }
  }

  /** A parsed item's id is `str` of its first truthy id field, and never empty. */
  lemma ItemIdOf(item: Json)
    requires ParseItem(item).Parsed?
    ensures item.Object? && Probe(item.fields, IdKeys).Some?
    ensures var c := ParseItem(item).comment;
            c.commentId != "" && c.commentId == PyStr(item.fields[Probe(item.fields, IdKeys).value])
  {
  }

  lemma AnonymousClean()
    ensures CleanText("Anonymous") == "Anonymous"
  {
    var a := "Anonymous";
    assert forall i :: 0 <= i < |a| ==> 'A' <= a[i] <= 'z';
    PrintableClean(a);
    CleanFixed(a);
  }

  /** Without a truthy author field the author is "Anonymous". */
  lemma AuthorDefault(m: map<string, Json>)
    ensures Probe(m, AuthorKeys).None? ==> ItemAuthor(m) == Some("Anonymous")
  {
    AnonymousClean();
  }

  /** Without a truthy text field the text is "". */
  lemma TextDefault(m: map<string, Json>)
    ensures Probe(m, TextKeys).None? ==> ItemText(m) == Some("")
  {
  }

  /** Author and text are cleaned, falling back to "Anonymous" and "". */
  lemma ItemDefaults(item: Json)
    requires ParseItem(item).Parsed?
    ensures var c := ParseItem(item).comment;
            && IsClean(c.author) && IsClean(c.text)
            && (Probe(item.fields, AuthorKeys).None? ==> c.author == "Anonymous")
            && (Probe(item.fields, TextKeys).None? ==> c.text == "")
  {
    var m := item.fields;
    assert ParseItem(item).comment.author == ItemAuthor(m).value;
    assert ParseItem(item).comment.text == ItemText(m).value;
    AuthorDefault(m);
    TextDefault(m);
  }

  /** A parsed item has a `like` reaction exactly when its like count is truthy, holding
      `int` of that count, and no other reaction. */
  lemma ItemLikesOf(item: Json)
    requires ParseItem(item).Parsed?
    ensures var m := item.fields; var c := ParseItem(item).comment;
            && ("like" in c.reactions <==> Probe(m, LikeKeys).Some?)
            && c.reactions.Keys <= {"like"}
            && (Probe(m, LikeKeys).Some? ==> Some(c.reactions["like"]) == PyInt(m[Probe(m, LikeKeys).value]))
  {
  }

  /** A parsed item has at most one reply per reply item, and none when its reply data is
      not a list. */
  lemma ItemRepliesBound(item: Json)
    requires ParseItem(item).Parsed?
    ensures |ParseItem(item).comment.replies| <= |ReplyData(item.fields)|
  {
  }

  /** An id of 0 drops the item. */
  lemma ZeroIdExample()
    ensures ParseItem(Object(map["id" := Int(0), "content" := Str("hi")])).Dropped?
  {
    var z := map["id" := Int(0), "content" := Str("hi")];
    assert Probe(z, IdKeys).None?;
  }

  /** No key of `keys` is present in `m` when `m` holds only `id`, `content` and `like`:
      each key differs from those three in its first letter or its length. */
  lemma ProbeMissing(m: map<string, Json>, keys: seq<string>)
    requires m.Keys == {"id", "content", "like"}
    requires forall i :: 0 <= i < |keys| ==>
               |keys[i]| > 0 && keys[i][0] != 'i' && keys[i][0] != 'l' && (keys[i][0] != 'c' || |keys[i]| != 7)
    ensures Probe(m, keys).None?
  {
    forall i | 0 <= i < |keys|
      ensures keys[i] !in m
    {
      var k := keys[i];
      assert k != "id" && k != "like" && k != "content" by {
        assert "id"[0] == 'i' && "like"[0] == 'l' && "content"[0] == 'c' && |"content"| == 7;
      }
    }
  }

  /** The example item's fields: `id` 1, `content` "hi", `like` 3. */
  predicate ExampleFields(m: map<string, Json>) {
    m.Keys == {"id", "content", "like"} && m["id"] == Int(1) && m["content"] == Str("hi") && m["like"] == Int(3)
  }

  lemma ExampleIdLikes(m: map<string, Json>)
    requires ExampleFields(m)
    ensures ItemId(m) == "1" && ItemLikes(m) == Some(map["like" := 3])
  {
    ProbeAt(m, IdKeys, 0);
    ProbeAt(m, LikeKeys, 0);
    assert IntToString(1) == "1";
  }

  lemma ExampleAuthor(m: map<string, Json>)
    requires ExampleFields(m)
    ensures ItemAuthor(m) == Some("Anonymous")
  {
    ProbeMissing(m, AuthorKeys);
    AuthorDefault(m);
  }

  lemma ExampleText(m: map<string, Json>)
    requires ExampleFields(m)
    ensures ItemText(m) == Some("hi")
  {
    ProbeAt(m, TextKeys, 0);
    var hi := "hi";
    assert forall i :: 0 <= i < |hi| ==> '!' <= hi[i] <= '~';
    PrintableClean(hi);
    CleanFixed(hi);
  }

  lemma ExampleDate(m: map<string, Json>)
    requires ExampleFields(m)
    ensures ItemDate(m) == ""
  {
    ProbeMissing(m, DateKeys);
  }

  lemma ExampleReplies(m: map<string, Json>)
    requires ExampleFields(m)
    ensures ItemReplies(Object(m)) == Some([])
  {
    ProbeMissing(m, ReplyKeys);
  }

  /** An item with the example's fields parses to the comment below. */
  lemma ExampleParsed(m: map<string, Json>)
    requires ExampleFields(m)
    ensures ParseItem(Object(m)) == Parsed(Comment("1", "Anonymous", "hi", "", map["like" := 3], []))
  {
    ExampleIdLikes(m);
    ExampleAuthor(m);
    ExampleText(m);
    ExampleDate(m);
    ExampleReplies(m);
    assert Truthy(Object(m)) by { assert "id" in m; }
  }

  /** `{"id": 1, "content": "hi", "like": 3}` becomes the comment with id "1" by
      "Anonymous", text "hi", no date, one like and no replies. */
  lemma ItemExample()
    ensures ParseItem(Object(map["id" := Int(1), "content" := Str("hi"), "like" := Int(3)]))
            == Parsed(Comment("1", "Anonymous", "hi", "", map["like" := 3], []))
  {
    var m := map["id" := Int(1), "content" := Str("hi"), "like" := Int(3)];
    assert |"id"| == 2 && |"content"| == 7 && |"like"| == 4;
    assert ExampleFields(m);
    ExampleParsed(m);
  }

  // ---------------------------------------------------------------------------------
  // _parse_api_response

  const TopKeys: seq<string> := ["data", "comments", "items", "Data"]
  const NestedKeys: seq<string> := ["comments", "items"]

  /** The value `_parse_api_response` iterates over: for a dict the first truthy of
      `data`, `comments`, `items`, `Data` (or `[]`), and when that is a dict in turn its
      first truthy of `comments`, `items` (or `[]`); a list itself; `None` for anything
      else, which gives no comments. */
  function ApiItems(data: Json): Option<Json> {
    match data
    case Object(m) =>
      var items := Or(m, TopKeys, Array([]));
      Some(if items.Object? then Or(items.fields, NestedKeys, Array([])) else items)
    case Array(_) => Some(data)
    case _ => None
  }

  /** Parsing every element of `for item in items`; `None` when the loop raises. A string
      yields its characters and a dict its keys: a non-empty character or key is a truthy
      non-dict item, on which `item.get` raises, and an empty key is skipped. A number, a
      boolean or `None` is not iterable. */
  function ParseIterated(items: Json): Option<seq<Comment>> {
    match items
    case Array(xs) => Collect(seq(|xs|, i requires 0 <= i < |xs| => ParseItem(xs[i])))
    case Str(s) => if s == "" then Some([]) else None
    case Object(m) => if m.Keys <= {""} then Some([]) else None
    case _ => None
  }

  /** `_parse_api_response`; `None` when it raises. */
  function ApiResponse(data: Json): (r: Option<seq<Comment>>)
    ensures r.Some? && data.Array? ==> |r.value| <= |data.items|
    ensures ApiItems(data).None? ==> r == Some([])
  {
    match ApiItems(data)
    case None => Some([])
    case Some(items) => ParseIterated(items)
  }

  /** `_parse_api_response`: one parse per item, keeping the comments in order. */
  method ParseApiResponse(data: Json) returns (r: Option<seq<Comment>>)
    ensures r == ApiResponse(data)
  {
    var items := ApiItems(data);
    if items.None? {
      return Some([]);
    }
    if !items.value.Array? {
      return ParseIterated(items.value);
    }
    var xs := items.value.items;
    ghost var rs := seq(|xs|, i requires 0 <= i < |xs| => ParseItem(xs[i]));
    var comments: seq<Comment> := [];
    for i := 0 to |xs|
      invariant Collect(rs[..i]) == Some(comments)
    {
      CollectStep(rs, i);
      var comment := ParseCommentItem(xs[i]);
      assert comment == rs[i];
      if comment.Raised? {
        return None;
      }
      if comment.Parsed? {
        comments := comments + [comment.comment];
      }
    }
    assert rs[..|xs|] == rs;
    r := Some(comments);
  }

  /** The keys are probed in order: the first truthy one among `data`, `comments`,
      `items`, `Data` holds the items, when its value is a list. */
  lemma ApiProbeOrder(m: map<string, Json>, i: nat)
    requires i < |TopKeys| && Truthy(Get(m, TopKeys[i])) && m[TopKeys[i]].Array?
    requires forall j :: 0 <= j < i ==> !Truthy(Get(m, TopKeys[j]))
    ensures ApiItems(Object(m)) == Some(m[TopKeys[i]])
    ensures ApiResponse(Object(m)).Some? ==> |ApiResponse(Object(m)).value| <= |m[TopKeys[i]].items|
  {
    ProbeAt(m, TopKeys, i);
    assert Or(m, TopKeys, Array([])) == m[TopKeys[i]];
  }

  // ---------------------------------------------------------------------------------
  // _get_comments_from_api

  /** Comments per API page. */
  const PAGE_SIZE: nat := 20

  /** The API's answer to one GET: the request raised, or a status with a body that is
      JSON (`Some`) or not (`None`). */
  datatype Response = Unreachable | Response(status: int, body: Option<Json>)

  /** The three endpoints, tried in this order, for one page. */
  function ApiUrls(postId: string, page: nat): seq<string> {
    var p := NatToString(page);
    [ "https://id.tuoitre.vn/api/getlist-comment.api?objId=" + postId + "&objType=1&pageindex=" + p + "&pagesize=20&sort=1",
      "https://tuoitre.vn/api/comment/list?id=" + postId + "&page=" + p,
      "https://comment.tuoitre.vn/api/v1/comments?object_id=" + postId + "&page=" + p + "&limit=20" ]
  }

  function PageResponses(get: string -> Response, postId: string, page: nat): seq<Response> {
    var urls := ApiUrls(postId, page);
    seq(|urls|, i requires 0 <= i < |urls| => get(urls[i]))
  }

  /** What one endpoint attempt does: try the next endpoint, stop paging, or deliver a
      non-empty batch. */
  datatype Step = Next | Stop | Got(batch: seq<Comment>)

  /** One endpoint: a raising request or parse stops paging (the outer `except`); a
      non-200 status, a body that is not JSON, or an empty parse moves on to the next
      endpoint. */
  function Attempt(resp: Response): (r: Step)
    ensures r.Got? ==> r.batch != []
  {
    match resp
    case Unreachable => Stop
    case Response(status, body) =>
      if status != 200 || body.None? then Next
      else match ApiResponse(body.value)
        case None => Stop
        case Some(parsed) => if parsed == [] then Next else Got(parsed)
  }

  /** The endpoints of a page in order: the first that does not say "next" decides, and
      when all do, the `for ... else` stops paging. */
  function PageStep(resps: seq<Response>): (r: Step)
    ensures r.Got? ==> r.batch != []
  {
    Decide(Attempt, resps)
  }

  /** The first of `xs` that `f` does not send to `Next` decides; `Stop` when none does. */
  function Decide<X>(f: X -> Step, xs: seq<X>): (r: Step)
    ensures r == Stop || exists i :: 0 <= i < |xs| && r == f(xs[i])
    decreases |xs|
  {
    if xs == [] then Stop
    else if f(xs[0]).Next? then Decide(f, xs[1..])
    else f(xs[0])
  }

  function DecisiveBy<X>(f: X -> Step, xs: seq<X>): seq<Option<Step>> {
    seq(|xs|, i requires 0 <= i < |xs| => if f(xs[i]).Next? then None else Some(f(xs[i])))
  }

  function Decisive(resps: seq<Response>): seq<Option<Step>> {
    DecisiveBy(Attempt, resps)
  }

  /** `Decide` is the first decisive step. */
  lemma {:induction false} DecideFirst<X>(f: X -> Step, xs: seq<X>)
    ensures Decide(f, xs) == First(DecisiveBy(f, xs)).GetOr(Stop)
    decreases |xs|
  {
    if xs != [] {
      var d := DecisiveBy(f, xs);
      assert d[0] == if f(xs[0]).Next? then None else Some(f(xs[0]));
      assert d[1..] == DecisiveBy(f, xs[1..]);
      DecideFirst(f, xs[1..]);
    }
  }

  /** A page's outcome is that of its first endpoint that does not move on, and stop when
      there is none. */
  lemma PageStepFirst(resps: seq<Response>)
    ensures PageStep(resps) == First(Decisive(resps)).GetOr(Stop)
  {
    DecideFirst(Attempt, resps);
  }

  /** The outcome of each page number. */
  function PageOutcomes(get: string -> Response, postId: string): nat -> Step {
    (page: nat) => PageStep(PageResponses(get, postId, page))
  }

  /** The batches the paging loop collects from page `page` on, `have` comments being in
      already, when page `k` turns out `outcome(k)`: a short batch is the last one, a full
      one moves to the next page, and paging ends once `maxComments` comments are in or a
      page delivers nothing. */
  function ApiPages(outcome: nat -> Step, maxComments: int, page: nat, have: nat): seq<seq<Comment>>
    decreases maxComments - have
  {
    if have >= maxComments then []
    else match outcome(page)
      case Got(batch) =>
        if |batch| < PAGE_SIZE then [batch]
        else [batch] + ApiPages(outcome, maxComments, page + 1, have + |batch|)
      case _ => []
  }

  /** `_get_comments_from_api`: the batches from page 1 on, cut to `maxComments`. */
  function ApiComments(get: string -> Response, postId: string, maxComments: int): seq<Comment> {
    SliceTo(Flatten(ApiPages(PageOutcomes(get, postId), maxComments, 1, 0)), maxComments)
  }

  /** The pages read are consecutive from `page`, each delivering its batch. */
  lemma {:induction false} ApiPagesRead(outcome: nat -> Step, maxComments: int, page: nat, have: nat)
    ensures forall i :: 0 <= i < |ApiPages(outcome, maxComments, page, have)| ==>
              outcome(page + i) == Got(ApiPages(outcome, maxComments, page, have)[i])
    decreases maxComments - have
  {
    var ps := ApiPages(outcome, maxComments, page, have);
    if have < maxComments && outcome(page).Got? {
      var batch := outcome(page).batch;
      if |batch| >= PAGE_SIZE {
        var rest := ApiPages(outcome, maxComments, page + 1, have + |batch|);
        ApiPagesRead(outcome, maxComments, page + 1, have + |batch|);
        assert forall k :: 0 <= k < |rest| ==> outcome(page + 1 + k) == Got(rest[k]);
        assert ps == [batch] + rest;
        forall i | 1 <= i < |ps|
          ensures outcome(page + i) == Got(ps[i])
        {
          assert outcome((page + 1) + (i - 1)) == Got(rest[i - 1]);
          assert page + i == (page + 1) + (i - 1);
        }
      } else {
        assert ps == [batch];
      }
    }
  }

  /** Every batch but the last is full. */
  lemma {:induction false} ApiPagesFull(outcome: nat -> Step, maxComments: int, page: nat, have: nat)
    ensures forall i :: 0 <= i < |ApiPages(outcome, maxComments, page, have)| - 1 ==>
              |ApiPages(outcome, maxComments, page, have)[i]| >= PAGE_SIZE
    decreases maxComments - have
  {
    var ps := ApiPages(outcome, maxComments, page, have);
    if have < maxComments && outcome(page).Got? && |outcome(page).batch| >= PAGE_SIZE {
      var batch := outcome(page).batch;
      var rest := ApiPages(outcome, maxComments, page + 1, have + |batch|);
      ApiPagesFull(outcome, maxComments, page + 1, have + |batch|);
      assert ps == [batch] + rest;
      assert forall i :: 1 <= i < |ps| ==> ps[i] == rest[i - 1];
    }
  }

  /** Paging stopped because the last batch was short, `maxComments` comments were in, or
      the next page delivered nothing. */
  lemma {:induction false} ApiPagesStop(outcome: nat -> Step, maxComments: int, page: nat, have: nat)
    ensures var ps := ApiPages(outcome, maxComments, page, have);
            || (ps != [] && |ps[|ps| - 1]| < PAGE_SIZE)
            || have + |Flatten(ps)| >= maxComments
            || !outcome(page + |ps|).Got?
    decreases maxComments - have
  {
    var ps := ApiPages(outcome, maxComments, page, have);
    if have < maxComments && outcome(page).Got? {
      var batch := outcome(page).batch;
      if |batch| >= PAGE_SIZE {
        var rest := ApiPages(outcome, maxComments, page + 1, have + |batch|);
        ApiPagesStop(outcome, maxComments, page + 1, have + |batch|);
        FlattenCons(batch, rest);
        assert ps == [batch] + rest;
        assert page + |ps| == (page + 1) + |rest|;
        if rest != [] {
          assert ps[|ps| - 1] == rest[|rest| - 1];
        }
      } else {
        assert ps == [batch];
      }
    }
  }

  /** Every page the API path reads delivered a non-empty batch: the first endpoint of
      that page with status 200 whose parse is non-empty. */
  lemma ApiBatchesNonEmpty(get: string -> Response, postId: string, maxComments: int, i: nat)
    requires i < |ApiPages(PageOutcomes(get, postId), maxComments, 1, 0)|
    ensures var b := ApiPages(PageOutcomes(get, postId), maxComments, 1, 0)[i];
            b != [] && PageStep(PageResponses(get, postId, 1 + i)) == Got(b)
  {
    ApiPagesRead(PageOutcomes(get, postId), maxComments, 1, 0);
  }

  /** The API result never exceeds `maxComments`, and is what the pages delivered, in
      page order. */
  lemma ApiCommentsBound(get: string -> Response, postId: string, maxComments: int)
    ensures var r := ApiComments(get, postId, maxComments);
            var all := Flatten(ApiPages(PageOutcomes(get, postId), maxComments, 1, 0));
            && (maxComments >= 0 ==> |r| <= maxComments)
            && r == all[..|r|]
  {
  }

  /** One page: the endpoints in order until one decides. */
  method TryPage(get: string -> Response, postId: string, page: nat) returns (step: Step)
    ensures step == PageStep(PageResponses(get, postId, page))
  {
    var urls := ApiUrls(postId, page);
    ghost var resps := PageResponses(get, postId, page);
    for i := 0 to |urls|
      invariant PageStep(resps) == PageStep(resps[i..])
    {
      var resp := get(urls[i]);
      assert resps[i..][0] == resp && resps[i..][1..] == resps[i + 1..];
      if resp.Unreachable? {
        return Stop;
      }
      if resp.status == 200 && resp.body.Some? {
        var parsed := ParseApiResponse(resp.body.value);
        if parsed.None? {
          return Stop;
        }
        if parsed.value != [] {
          return Got(parsed.value);
        }
      }
    }
    assert resps[|urls|..] == [];
    step := Stop;
  }

  /** `_get_comments_from_api`: pages from 1, while fewer than `maxComments` comments are
      in; a short batch returns at once, a full one advances the page. */
  method GetCommentsFromApi(get: string -> Response, postId: string, maxComments: int)
    returns (comments: seq<Comment>)
    ensures comments == ApiComments(get, postId, maxComments)
  {
    ghost var outcome := PageOutcomes(get, postId);
    var collected: seq<Comment> := [];
    var page: nat := 1;
    var done := false;
    while !done && |collected| < maxComments
      invariant !done ==> Flatten(ApiPages(outcome, maxComments, 1, 0))
                          == collected + Flatten(ApiPages(outcome, maxComments, page, |collected|))
      invariant done ==> Flatten(ApiPages(outcome, maxComments, 1, 0)) == collected
      decreases !done, maxComments - |collected|
    {
      var step := TryPage(get, postId, page);
      collected, page, done := Advance(outcome, step, maxComments, page, collected);
    }
    comments := SliceTo(collected, maxComments);
  }

  /** One turn of the paging loop, given the outcome `step` of page `page`: stop on a
      page that delivers nothing or a short batch, else take the batch and move on. */
  method Advance(ghost outcome: nat -> Step, step: Step, maxComments: int, page: nat, collected: seq<Comment>)
    returns (collectedAfter: seq<Comment>, pageAfter: nat, done: bool)
    requires step == outcome(page) && |collected| < maxComments
    requires Flatten(ApiPages(outcome, maxComments, 1, 0))
             == collected + Flatten(ApiPages(outcome, maxComments, page, |collected|))
    ensures done ==> Flatten(ApiPages(outcome, maxComments, 1, 0)) == collectedAfter
    ensures !done ==> |collectedAfter| > |collected|
                      && Flatten(ApiPages(outcome, maxComments, 1, 0))
                         == collectedAfter + Flatten(ApiPages(outcome, maxComments, pageAfter, |collectedAfter|))
  {
    if !step.Got? {
      assert collected + [] == collected;
      return collected, page, true;
    }
    var batch := step.batch;
    if |batch| < PAGE_SIZE {
      PagesShort(outcome, maxComments, page, |collected|);
      return collected + batch, page, true;
    }
    PagesFull(outcome, maxComments, page, |collected|);
    collectedAfter, pageAfter, done := collected + batch, page + 1, false;
    assert collected + (batch + Flatten(ApiPages(outcome, maxComments, pageAfter, |collected| + |batch|)))
           == collectedAfter + Flatten(ApiPages(outcome, maxComments, pageAfter, |collectedAfter|));
  }

  lemma PagesShort(outcome: nat -> Step, maxComments: int, page: nat, have: nat)
    requires have < maxComments && outcome(page).Got? && |outcome(page).batch| < PAGE_SIZE
    ensures Flatten(ApiPages(outcome, maxComments, page, have)) == outcome(page).batch
  {
    FlattenCons(outcome(page).batch, []);
    assert [outcome(page).batch] + [] == [outcome(page).batch];
  }

  lemma PagesFull(outcome: nat -> Step, maxComments: int, page: nat, have: nat)
    requires have < maxComments && outcome(page).Got? && |outcome(page).batch| >= PAGE_SIZE
    ensures var batch := outcome(page).batch;
            Flatten(ApiPages(outcome, maxComments, page, have))
            == batch + Flatten(ApiPages(outcome, maxComments, page + 1, have + |batch|))
  {
    var batch := outcome(page).batch;
    FlattenCons(batch, ApiPages(outcome, maxComments, page + 1, have + |batch|));
  }

  // ---------------------------------------------------------------------------------
  // _get_comments_from_html and _parse_html_comment

  /** The element `.like-count, .likes, [data-likes]` inside a comment. */
  datatype LikeNode = LikeNode(dataLikes: Option<string>, text: string)

  /** One comment element as the parser queries it: its attributes, the text of the
      first `.cmt-author, .comment-author, .user-name, .author`, of the first
      `.cmt-content, .comment-content, .content, .text` and of the first
      `.cmt-time, .comment-time, .date, time` (each `None` when nothing matches), the like
      element, and the `.comment-item, .reply-item, .cmt-item` elements inside the first
      `.replies, .sub-comments, .comment-replies` (none when there is no container). */
  datatype CommentNode = CommentNode(
    attrs: map<string, string>,
    authorText: Option<string>,
    contentText: Option<string>,
    timeText: Option<string>,
    like: Option<LikeNode>,
    replyItems: seq<CommentNode>)

  /** A parsed post page: the elements each CSS selector matches. */
  datatype CommentPage = CommentPage(select: string -> seq<CommentNode>)

  const CommentSelectors: seq<string> := [".comment-item", ".cmt-item", "[data-comment-id]", ".box-comment-item"]

  function AttrText(e: CommentNode, name: string): string {
    if name in e.attrs then e.attrs[name] else ""
  }

  /** `data-comment-id`, else `id`, else the fallback. */
  function OwnId(e: CommentNode, fallbackId: string): string {
    if AttrText(e, "data-comment-id") != "" then AttrText(e, "data-comment-id")
    else if AttrText(e, "id") != "" then AttrText(e, "id")
    else fallbackId
  }

  /** The element carries comment text once cleaned. */
  predicate HasText(e: CommentNode) {
    e.contentText.Some? && CleanText(e.contentText.value) != ""
  }

  /** `like_elem.get('data-likes') or like_elem.get_text()`. */
  function LikeText(l: LikeNode): string {
    if l.dataLikes.Some? && l.dataLikes.value != "" then l.dataLikes.value else l.text
  }

  /** The fallback id of the reply element at position `idx` among all reply elements. */
  function ReplyId(parentId: string, idx: nat): string {
    parentId + "_reply_" + NatToString(idx)
  }

  /** `_parse_html_comment`: nothing without text; the author falls back to "Anonymous"
      and the date to ""; a `like` reaction from the digits of the like element. */
  function HtmlComment(e: CommentNode, fallbackId: string): (r: Option<Comment>)
    ensures r.Some? <==> HasText(e)
    decreases e, 2
  {
    if !HasText(e) then None
    else
      var id := OwnId(e, fallbackId);
      Some(Comment(
        id,
        if e.authorText.Some? then CleanText(e.authorText.value) else "Anonymous",
        CleanText(e.contentText.value),
        if e.timeText.Some? then CleanText(e.timeText.value) else "",
        if e.like.Some? then map["like" := DigitCount(LikeText(e.like.value))] else map[],
        HtmlReplies(e, id)))
  }

  /** The replies of a comment element: each reply element parsed with the fallback id
      numbered by its position among all reply elements, those without text dropped. */
  function HtmlReplies(e: CommentNode, id: string): seq<Comment>
    decreases e, 1
  {
    Somes(ReplyResults(e, id))
  }

  function ReplyResults(e: CommentNode, id: string): seq<Option<Comment>>
    decreases e, 0
  {
    var ris := e.replyItems;
    seq(|ris|, idx requires 0 <= idx < |ris| => HtmlComment(ris[idx], ReplyId(id, idx)))
  }

  /** A parsed comment's text is clean and non-empty, its date clean, and it has a
      `like` reaction, and no other, exactly when there is a like element. */
  lemma HtmlCommentFields(e: CommentNode, fallbackId: string)
    requires HasText(e)
    ensures var c := HtmlComment(e, fallbackId).value;
            && IsClean(c.text) && c.text != "" && IsClean(c.date)
            && c.commentId == OwnId(e, fallbackId)
            && (e.authorText.None? ==> c.author == "Anonymous")
            && ("like" in c.reactions <==> e.like.Some?) && c.reactions.Keys <= {"like"}
            && (e.like.Some? ==> c.reactions["like"] == DigitCount(LikeText(e.like.value)))
  {
  }

  /** The replies of a comment element, enumerating the reply elements. */
  method ParseHtmlReplies(e: CommentNode, id: string) returns (replies: seq<Comment>)
    ensures replies == HtmlReplies(e, id)
    decreases e, 0
  {
    replies := [];
    var ris := e.replyItems;
    ghost var rs := ReplyResults(e, id);
    for idx := 0 to |ris|
      invariant replies == Somes(rs[..idx])
    {
      SomesStep(rs, idx);
      var reply := ParseHtmlComment(ris[idx], ReplyId(id, idx));
      assert reply == rs[idx];
      if reply.Some? {
        replies := replies + [reply.value];
      }
    }
    assert rs[..|ris|] == rs;
  }

  /** `_parse_html_comment`. */
  method ParseHtmlComment(e: CommentNode, fallbackId: string) returns (r: Option<Comment>)
    ensures r == HtmlComment(e, fallbackId)
    decreases e, 1
  {
    var id := OwnId(e, fallbackId);
    var author := if e.authorText.Some? then CleanText(e.authorText.value) else "Anonymous";
    var text := if e.contentText.Some? then CleanText(e.contentText.value) else "";
    if text == "" {
      return None;
    }
    var date := if e.timeText.Some? then CleanText(e.timeText.value) else "";
    var reactions: map<string, int> := map[];
    if e.like.Some? {
      reactions := reactions["like" := DigitCount(LikeText(e.like.value))];
    }
    var replies := ParseHtmlReplies(e, id);
    r := Some(Comment(id, author, text, date, reactions, replies));
  }

  /** A reply's fallback id counts every reply element before it, dropped ones included:
      the `j`-th reply kept comes from the element at some position `idx >= j`, parsed with
      fallback id `<parent id>_reply_<idx>`. */
  lemma ReplyFallback(e: CommentNode, id: string, j: nat)
    requires j < |HtmlReplies(e, id)|
    ensures var ris := e.replyItems;
            exists idx :: j <= idx < |ris| && HtmlComment(ris[idx], ReplyId(id, idx)) == Some(HtmlReplies(e, id)[j])
  {
    SomesFrom(ReplyResults(e, id), j);
  }

  /** The top-level loop over `items` with parser `parse`: each element in turn, the
      counter naming the comment it yields and moving on only when one is yielded. */
  function Run(parse: (CommentNode, string) -> Option<Comment>, items: seq<CommentNode>, counter: nat): seq<Comment>
    decreases |items|
  {
    if items == [] then []
    else match parse(items[0], NatToString(counter))
      case Some(c) => [c] + Run(parse, items[1..], counter + 1)
      case None => Run(parse, items[1..], counter)
  }

  /** The elements `keep` accepts, in order. */
  function Kept(keep: CommentNode -> bool, items: seq<CommentNode>): (r: seq<CommentNode>)
    ensures |r| <= |items|
    decreases |items|
  {
    if items == [] then []
    else (if keep(items[0]) then [items[0]] else []) + Kept(keep, items[1..])
  }

  /** Running the loop over two stretches of elements: the counter carries over. */
  lemma {:induction false} RunAppend(parse: (CommentNode, string) -> Option<Comment>,
                                     a: seq<CommentNode>, b: seq<CommentNode>, counter: nat)
    ensures Run(parse, a + b, counter) == Run(parse, a, counter) + Run(parse, b, counter + |Run(parse, a, counter)|)
    decreases |a|
  {
    if a == [] {
      assert a + b == b;
    } else {
      assert (a + b)[1..] == a[1..] + b;
      if parse(a[0], NatToString(counter)).Some? {
        RunAppend(parse, a[1..], b, counter + 1);
      } else {
        RunAppend(parse, a[1..], b, counter);
      }
    }
  }

  /** One more stretch of elements: the loop goes on over it from the counter reached. */
  lemma RunFlattenStep(parse: (CommentNode, string) -> Option<Comment>, stretches: seq<seq<CommentNode>>, s: nat, counter: nat)
    requires s < |stretches|
    ensures var before := Run(parse, Flatten(stretches[..s]), counter);
            Run(parse, Flatten(stretches[..s + 1]), counter) == before + Run(parse, stretches[s], counter + |before|)
  {
    assert stretches[..s + 1][..s] == stretches[..s];
    RunAppend(parse, Flatten(stretches[..s]), stretches[s], counter);
  }

  /** One more element: it yields a comment numbered after the ones before, or nothing. */
  lemma RunStep(parse: (CommentNode, string) -> Option<Comment>, items: seq<CommentNode>, i: nat, counter: nat)
    requires i < |items|
    ensures var before := Run(parse, items[..i], counter);
            Run(parse, items[..i + 1], counter)
            == before + (match parse(items[i], NatToString(counter + |before|)) case Some(c) => [c] case None => [])
  {
    assert items[..i + 1] == items[..i] + [items[i]];
    RunAppend(parse, items[..i], [items[i]], counter);
  }

  /** `r[j]` is what `parse` yields for `k[j]` with fallback id `counter + j`. */
  ghost predicate NumberedFrom(parse: (CommentNode, string) -> Option<Comment>, r: seq<Comment>, k: seq<CommentNode>, counter: nat) {
    |r| == |k| && forall j :: 0 <= j < |r| ==> Some(r[j]) == parse(k[j], NatToString(counter + j))
  }

  /** Top-level fallback ids count successes: with a parser that yields a comment exactly
      for the elements `keep` accepts, the `j`-th comment is the `j`-th accepted element,
      parsed with fallback id `counter + j`. */
  lemma {:induction false} RunNumbered(parse: (CommentNode, string) -> Option<Comment>, keep: CommentNode -> bool,
                                       items: seq<CommentNode>, counter: nat)
    requires forall e, f :: parse(e, f).Some? <==> keep(e)
    ensures NumberedFrom(parse, Run(parse, items, counter), Kept(keep, items), counter)
    decreases |items|
  {
    if items != [] {
      if keep(items[0]) {
        RunNumbered(parse, keep, items[1..], counter + 1);
        var c := parse(items[0], NatToString(counter));
        assert c.Some?;
        assert Run(parse, items, counter) == [c.value] + Run(parse, items[1..], counter + 1);
        assert Kept(keep, items) == [items[0]] + Kept(keep, items[1..]);
        NumberedCons(parse, c.value, Run(parse, items[1..], counter + 1), items[0], Kept(keep, items[1..]), counter);
      } else {
        RunNumbered(parse, keep, items[1..], counter);
      }
    }
  }

  /** A comment parsed with fallback id `counter`, in front of comments numbered from
      `counter + 1`. */
  lemma NumberedCons(parse: (CommentNode, string) -> Option<Comment>, c: Comment, r: seq<Comment>,
                     e: CommentNode, k: seq<CommentNode>, counter: nat)
    requires Some(c) == parse(e, NatToString(counter))
    requires NumberedFrom(parse, r, k, counter + 1)
    ensures NumberedFrom(parse, [c] + r, [e] + k, counter)
  {
    forall j | 0 <= j < |r| + 1
      ensures Some(([c] + r)[j]) == parse(([e] + k)[j], NatToString(counter + j))
    {
      if j > 0 {
        assert ([c] + r)[j] == r[j - 1] && ([e] + k)[j] == k[j - 1];
        assert counter + j == counter + 1 + (j - 1);
      }
    }
  }

  /** What the selectors match, selector after selector. */
  function PageItems(page: CommentPage): seq<CommentNode> {
    Flatten(Selected(page))
  }

  function Selected(page: CommentPage): seq<seq<CommentNode>> {
    SelectedBy(page, CommentSelectors)
  }

  function SelectedBy(page: CommentPage, selectors: seq<string>): seq<seq<CommentNode>> {
    seq(|selectors|, i requires 0 <= i < |selectors| => page.select(selectors[i]))
  }

  /** The comments scraped from a page: its elements numbered from 1, none cut off. */
  function HtmlComments(page: CommentPage): seq<Comment> {
    Run(HtmlComment, PageItems(page), 1)
  }

  /** The comments of the post page `make_request` returns, none when it returns nothing. */
  function HtmlCommentsAt(fetch: (string, nat) -> Option<CommentPage>, postUrl: string): seq<Comment> {
    match FirstSuccess(fetch, postUrl, Config.MAX_RETRIES)
    case None => []
    case Some(page) => HtmlComments(page)
  }

  /** The elements one selector matches, appended after the ones before. */
  method HarvestSelector(items: seq<CommentNode>, counter: nat, comments: seq<Comment>)
    returns (counterAfter: nat, commentsAfter: seq<Comment>)
    ensures commentsAfter == comments + Run(HtmlComment, items, counter)
    ensures counterAfter == counter + |Run(HtmlComment, items, counter)|
  {
    counterAfter, commentsAfter := counter, comments;
    assert items[..0] == [];
    for i := 0 to |items|
      invariant commentsAfter == comments + Run(HtmlComment, items[..i], counter)
      invariant counterAfter == counter + |Run(HtmlComment, items[..i], counter)|
    {
      var comment := ParseHtmlComment(items[i], NatToString(counterAfter));
      counterAfter, commentsAfter := Append(HtmlComment, items, i, counter, comments, counterAfter, commentsAfter, comment);
    }
    assert items[..|items|] == items;
  }

  /** The element at `i` has been parsed into `comment`: a comment is appended and the
      counter moves on; nothing is appended otherwise. */
  method Append(ghost parse: (CommentNode, string) -> Option<Comment>, ghost items: seq<CommentNode>, ghost i: nat,
                ghost counter: nat, ghost comments: seq<Comment>,
                counterNow: nat, commentsNow: seq<Comment>, comment: Option<Comment>)
    returns (counterAfter: nat, commentsAfter: seq<Comment>)
    requires i < |items|
    requires commentsNow == comments + Run(parse, items[..i], counter)
    requires counterNow == counter + |Run(parse, items[..i], counter)|
    requires comment == parse(items[i], NatToString(counterNow))
    ensures commentsAfter == comments + Run(parse, items[..i + 1], counter)
    ensures counterAfter == counter + |Run(parse, items[..i + 1], counter)|
  {
    RunStep(parse, items, i, counter);
    if comment.Some? {
      counterAfter, commentsAfter := counterNow + 1, commentsNow + [comment.value];
    } else {
      counterAfter, commentsAfter := counterNow, commentsNow;
    }
  }

  /** `_get_comments_from_html`: the page `make_request` returns, then its comments. */
  method GetCommentsFromHtml(fetch: (string, nat) -> Option<CommentPage>, postUrl: string)
    returns (comments: seq<Comment>)
    ensures comments == HtmlCommentsAt(fetch, postUrl)
  {
    var response, _, _ := MakeRequest(postUrl, Config.MAX_RETRIES, fetch);
    if response.None? {
      return [];
    }
    comments := ScrapePage(response.value);
  }

  /** The selectors in order, one counter across them. */
  method ScrapePage(page: CommentPage) returns (comments: seq<Comment>)
    ensures comments == HtmlComments(page)
  {
    comments := ScrapeSelectors(page, CommentSelectors);
  }

  /** The loop over `selectors`, the counter starting at 1. */
  method ScrapeSelectors(page: CommentPage, selectors: seq<string>) returns (comments: seq<Comment>)
    ensures comments == Run(HtmlComment, Flatten(SelectedBy(page, selectors)), 1)
  {
    ghost var selected := SelectedBy(page, selectors);
    var counter: nat := 1;
    comments := [];
    for s := 0 to |selectors|
      invariant comments == Run(HtmlComment, Flatten(selected[..s]), 1)
      invariant counter == 1 + |comments|
    {
      counter, comments := HarvestStretch(selected, s, page.select(selectors[s]), counter, comments);
    }
    assert selected[..|selectors|] == selected;
  }

  /** Selector `s`'s elements, `items`, harvested after those of the selectors before it. */
  method HarvestStretch(ghost stretches: seq<seq<CommentNode>>, ghost s: nat,
                        items: seq<CommentNode>, counter: nat, comments: seq<Comment>)
    returns (counterAfter: nat, commentsAfter: seq<Comment>)
    requires s < |stretches| && items == stretches[s]
    requires comments == Run(HtmlComment, Flatten(stretches[..s]), 1)
    requires counter == 1 + |comments|
    ensures commentsAfter == Run(HtmlComment, Flatten(stretches[..s + 1]), 1)
    ensures counterAfter == 1 + |commentsAfter|
  {
    RunFlattenStep(HtmlComment, stretches, s, 1);
    counterAfter, commentsAfter := HarvestSelector(items, counter, comments);
  }

  /** The HTML path is not cut to any maximum: one comment per element with text, the
      `j`-th numbered `j + 1` unless it has an id of its own. */
  lemma HtmlCommentsNumbered(page: CommentPage, j: nat)
    requires j < |Kept(HasText, PageItems(page))|
    ensures |HtmlComments(page)| == |Kept(HasText, PageItems(page))|
    ensures HtmlComments(page)[j].commentId == OwnId(Kept(HasText, PageItems(page))[j], NatToString(1 + j))
  {
    RunNumbered(HtmlComment, HasText, PageItems(page), 1);
    HtmlCommentFields(Kept(HasText, PageItems(page))[j], NatToString(1 + j));
  }

  // ---------------------------------------------------------------------------------
  // get_comments

  /** The comments `get_comments` returns. */
  function PostComments(get: string -> Response, fetch: (string, nat) -> Option<CommentPage>,
                        postId: string, postUrl: Option<string>, maxComments: int): seq<Comment> {
    var api := ApiComments(get, postId, maxComments);
    if api != [] then api
    else if postUrl.Some? && postUrl.value != "" then HtmlCommentsAt(fetch, postUrl.value)
    else []
  }

  /** `get_comments`' default cap. */
  const DEFAULT_MAX_COMMENTS: int := 100

  /** `get_comments`: the API result when it is non-empty, without any HTML request;
      otherwise the HTML result when a post URL is given; otherwise nothing. */
  method GetComments(get: string -> Response, fetch: (string, nat) -> Option<CommentPage>,
                     postId: string, postUrl: Option<string>, maxComments: int)
    returns (comments: seq<Comment>)
    ensures ApiComments(get, postId, maxComments) != [] ==> comments == ApiComments(get, postId, maxComments)
    ensures ApiComments(get, postId, maxComments) == [] && postUrl.Some? && postUrl.value != "" ==>
              comments == HtmlCommentsAt(fetch, postUrl.value)
    ensures ApiComments(get, postId, maxComments) == [] && (postUrl.None? || postUrl.value == "") ==>
              comments == []
    ensures comments == PostComments(get, fetch, postId, postUrl, maxComments)
  {
    var api := GetCommentsFromApi(get, postId, maxComments);
    if api != [] {
      return api;
    }
    if postUrl.Some? && postUrl.value != "" {
      var html := GetCommentsFromHtml(fetch, postUrl.value);
      if html != [] {
        return html;
      }
    }
    comments := [];
  }
}
