/** The data saver (utils/data_saver.py): the output records built for a post and a
    comment, and the file each post is written to. Serialising a record to JSON or YAML
    and writing it are one oracle, `write(path)`, which is false when writing raises. */
module DataSaver {
  import opened Wrappers
  import opened Text
  import Config
  import CommentCrawler

  /** The `audio` entry: the audio URL and where the file was saved, if it was. */
  datatype AudioRecord = AudioRecord(url: string, localPath: Option<string>)

  /** The `images` entry: the image URLs and the paths of those saved. */
  datatype ImagesRecord = ImagesRecord(urls: seq<string>, localPaths: seq<string>)

  /** The record written for one post. */
  datatype PostRecord = PostRecord(
    postId: string,
    title: string,
    content: string,
    author: string,
    date: string,
    category: string,
    url: string,
    audio: Option<AudioRecord>,
    images: ImagesRecord,
    voteReactions: map<string, int>,
    comments: seq<CommentCrawler.Comment>)

  /** Python's `x or []` and `x or {}` on an optional argument: a missing argument and an
      empty one both give the empty value. */
  function OrEmpty<T>(x: Option<seq<T>>): (r: seq<T>)
    ensures x.Some? ==> r == x.value
    ensures x.None? ==> r == []
  {
    if x.Some? && x.value != [] then x.value else []
  }

  function OrEmptyMap(x: Option<map<string, int>>): (r: map<string, int>)
    ensures x.Some? ==> r == x.value
    ensures x.None? ==> r == map[]
  {
    if x.Some? && x.value != map[] then x.value else map[]
  }

  /** `create_post_structure`: the post's own fields pass through unchanged; there is an
      audio entry exactly when the audio URL is truthy; the image lists, the reactions and
      the comments are empty when not supplied. */
  function CreatePostStructure(postId: string, title: string, content: string, author: string,
                               date: string, category: string, url: string,
                               audioUrl: Option<string>, audioLocalPath: Option<string>,
                               imageUrls: Option<seq<string>>, imageLocalPaths: Option<seq<string>>,
                               voteReactions: Option<map<string, int>>,
                               comments: Option<seq<CommentCrawler.Comment>>): (r: PostRecord)
    ensures r.postId == postId && r.title == title && r.content == content && r.author == author
    ensures r.date == date && r.category == category && r.url == url
    ensures r.audio.None? <==> audioUrl.None? || audioUrl.value == ""
    ensures r.audio.Some? ==> r.audio.value == AudioRecord(audioUrl.value, audioLocalPath)
    ensures imageUrls.None? ==> r.images.urls == []
    ensures imageLocalPaths.None? ==> r.images.localPaths == []
    ensures voteReactions.None? ==> r.voteReactions == map[]
    ensures comments.None? ==> r.comments == []
  {
    PostRecord(
      postId, title, content, author, date, category, url,
      if audioUrl.Some? && audioUrl.value != "" then Some(AudioRecord(audioUrl.value, audioLocalPath)) else None,
      ImagesRecord(OrEmpty(imageUrls), OrEmpty(imageLocalPaths)),
      OrEmptyMap(voteReactions),
      OrEmpty(comments))
  }

  /** Supplying every optional argument hands each of them through as it is. */
  lemma PostStructureKeepsSupplied(postId: string, title: string, content: string, author: string,
                                   date: string, category: string, url: string,
                                   audioUrl: string, audioLocalPath: Option<string>,
                                   imageUrls: seq<string>, imageLocalPaths: seq<string>,
                                   voteReactions: map<string, int>, comments: seq<CommentCrawler.Comment>)
    requires audioUrl != ""
    ensures CreatePostStructure(postId, title, content, author, date, category, url,
                                Some(audioUrl), audioLocalPath, Some(imageUrls), Some(imageLocalPaths),
                                Some(voteReactions), Some(comments))
            == PostRecord(postId, title, content, author, date, category, url,
                          Some(AudioRecord(audioUrl, audioLocalPath)), ImagesRecord(imageUrls, imageLocalPaths),
                          voteReactions, comments)
  {
  }

  /** `create_comment_structure`: id, author, text and date pass through; reactions and
      replies are empty when not supplied. */
  function CreateCommentStructure(commentId: string, author: string, text: string, date: string,
                                  voteReactions: Option<map<string, int>>,
                                  replies: Option<seq<CommentCrawler.Comment>>): (r: CommentCrawler.Comment)
    ensures r.commentId == commentId && r.author == author && r.text == text && r.date == date
    ensures voteReactions.None? ==> r.reactions == map[]
    ensures replies.None? ==> r.replies == []
  {
    CommentCrawler.Comment(commentId, author, text, date, OrEmptyMap(voteReactions), OrEmpty(replies))
  }

  /** The comment record is the one both comment parsers build: rebuilding a comment from
      its own fields gives it back unchanged. */
  lemma CommentStructureRoundTrip(c: CommentCrawler.Comment)
    ensures CreateCommentStructure(c.commentId, c.author, c.text, c.date, Some(c.reactions), Some(c.replies)) == c
  {
  }

  /** The saver's format: the one given, `json` when it is falsy. */
  datatype Saver = Saver(outputFormat: string)

  /** `DataSaver(output_format)`. */
  function NewSaver(outputFormat: Option<string>): (r: Saver)
    ensures outputFormat.None? || outputFormat.value == "" ==> r.outputFormat == Config.OUTPUT_FORMAT
    ensures outputFormat.Some? && outputFormat.value != "" ==> r.outputFormat == outputFormat.value
  {
    if outputFormat.Some? && outputFormat.value != "" then Saver(outputFormat.value) else Saver(Config.OUTPUT_FORMAT)
  }

  /** The file `save_post` writes: `<post id>.yaml` for the `yaml` format, `<post id>.json`
      for every other, in the data folder. */
  function SavePath(saver: Saver, postId: string): (r: string)
    ensures EndsWith(r, postId + (if saver.outputFormat == "yaml" then ".yaml" else ".json"))
  {
    var ext := if saver.outputFormat == "yaml" then ".yaml" else ".json";
    PathJoin(Config.DATA_DIR, postId + ext)
  }

  /** For a post id that does not start with `/`, the file is `output/data/<post id>.<ext>`. */
  lemma SavePathShape(saver: Saver, postId: string)
    requires !StartsWith(postId, "/")
    ensures SavePath(saver, postId) == Config.DATA_DIR + "/" + postId + (if saver.outputFormat == "yaml" then ".yaml" else ".json")
  {
    var name := postId + (if saver.outputFormat == "yaml" then ".yaml" else ".json");
    if postId == "" {
      assert name[0] == '.';
    } else {
      assert name[..1] == postId[..1];
    }
  }

  /** The path depends on the post id and nothing else of the record, and two post ids
      that do not start with `/` share a file only when they are equal: a post saved twice
      overwrites its file, and different posts never do. */
  lemma SavePathInjective(saver: Saver, a: string, b: string)
    requires !StartsWith(a, "/") && !StartsWith(b, "/")
    requires SavePath(saver, a) == SavePath(saver, b)
    ensures a == b
  {
    SavePathShape(saver, a);
    SavePathShape(saver, b);
    var ext := if saver.outputFormat == "yaml" then ".yaml" else ".json";
    var p := SavePath(saver, a);
    assert |a| == |b|;
    assert a == p[|Config.DATA_DIR| + 1..|Config.DATA_DIR| + 1 + |a|];
    assert b == p[|Config.DATA_DIR| + 1..|Config.DATA_DIR| + 1 + |b|];
  }

  /** `save_post`: the path written, or `None` when writing raises (the exception reaches
      the caller). */
  function SavePost(saver: Saver, write: string -> bool, data: PostRecord, postId: string): (r: Option<string>)
    ensures r.Some? <==> write(SavePath(saver, postId))
    ensures r.Some? ==> r.value == SavePath(saver, postId)
  {
    var path := SavePath(saver, postId);
    if write(path) then Some(path) else None
  }
}
