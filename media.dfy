/** The media downloader (utils/media_downloader.py): where an image or audio file of a
    post is saved, and which of a post's images end up on disk. The HTTP request, the
    directory creation and the file write are one oracle per download: it yields the
    response's `Content-Type` header ("" when absent), or `None` when any of them raises. */
module MediaDownloader {
  import opened Wrappers
  import opened Text
  import opened Seqs
  import opened Helpers
  import Config

  /** `image_<n>.<ext>`, the name of an image whose URL has no usable file name. */
  function NumberedName(n: nat, ext: string): string {
    "image_" + NatToString(n) + "." + ext
  }

  /** The file name of the image at position `index`, given the path of its URL and the
      content type it was served with: the sanitised last path segment when that holds a
      `.`, otherwise `image_<index + 1>.<ext>` with the extension `get_file_extension`
      picks. Either way the name is non-empty and has no `/`, so the file lands directly in
      the post's folder. */
  function ImageFilename(urlPath: string, index: nat, contentType: string): (r: string)
    ensures r != "" && '/' !in r
    ensures '.' !in Basename(urlPath) ==> r == NumberedName(index + 1, GetFileExtension(urlPath, Some(contentType)))
  {
    var original := Basename(urlPath);
    if original != "" && '.' in original then
      SanitizedNonEmpty(original);
      SanitizeFilename(original)
    else
      var r := NumberedName(index + 1, GetFileExtension(urlPath, Some(contentType)));
      NumberedNoSlash(index + 1, GetFileExtension(urlPath, Some(contentType)));
      r
  }

  /** Sanitising a name that holds a `.` leaves something: the `.` itself survives. */
  lemma SanitizedNonEmpty(name: string)
    requires '.' in name
    ensures SanitizeFilename(name) != ""
  {
    var k :| 0 <= k < |name| && name[k] == '.';
    RemoveForbiddenKeeps(name, k);
  }

  /** A character that is not forbidden survives `RemoveForbidden`. */
  lemma {:induction false} RemoveForbiddenKeeps(s: string, k: nat)
    requires k < |s| && !IsForbidden(s[k])
    ensures RemoveForbidden(s) != ""
    decreases |s|
  {
    if k > 0 && IsForbidden(s[0]) {
      RemoveForbiddenKeeps(s[1..], k - 1);
    }
  }

  lemma NumberedNoSlash(n: nat, ext: string)
    requires IsExtension(ext)
    ensures '/' !in NumberedName(n, ext)
  {
    var d := NatToString(n);
    assert forall i :: 0 <= i < |d| ==> d[i] != '/';
    assert '/' !in "image_";
    assert '/' !in ".";
  }

  /** Two images without a usable file name never share one: the number in the name is
      the position plus one, and different numbers give different names. */
  lemma NumberedNamesDistinct(m: nat, n: nat, e1: string, e2: string)
    requires NumberedName(m, e1) == NumberedName(n, e2)
    ensures m == n
  {
    var d1, d2 := NatToString(m), NatToString(n);
    var s := NumberedName(m, e1);
    assert s == NumberedName(n, e2);
    assert forall i :: 0 <= i < |d1| ==> s[6 + i] == d1[i];
    assert s[6 + |d1|] == '.';
    assert forall i :: 0 <= i < |d2| ==> NumberedName(n, e2)[6 + i] == d2[i];
    assert NumberedName(n, e2)[6 + |d2|] == '.';
    if |d1| < |d2| {
      assert false;
    } else if |d2| < |d1| {
      assert false;
    }
    assert d1 == d2;
    NatToStringInjective(m, n);
  }

  /** A last path segment that holds a `.`, no forbidden character and at most 200
      characters is kept as it is. */
  lemma OriginalNameKept(urlPath: string, index: nat, contentType: string)
    requires '.' in Basename(urlPath) && |Basename(urlPath)| <= 200
    requires forall i :: 0 <= i < |Basename(urlPath)| ==> !IsForbidden(Basename(urlPath)[i])
    ensures ImageFilename(urlPath, index, contentType) == Basename(urlPath)
  {
    RemoveForbiddenNone(Basename(urlPath));
  }

  /** `os.path.join(IMAGES_DIR, post_id, filename)`. */
  function ImagePath(postId: string, filename: string): string {
    PathJoin(PathJoin(Config.IMAGES_DIR, postId), filename)
  }

  /** `download_image`: the URL is made absolute against `BASE_URL`; on success the file is
      saved under the post's image folder and its path returned, on any failure `None`.
      `download` answers for the absolute URL at the image's position; `urlPath` is
      `urlparse(url).path`. */
  function DownloadImage(download: (string, nat) -> Option<string>, urljoin: (string, string) -> string,
                         urlPath: string -> string, imageUrl: string, postId: string, index: nat): (r: Option<string>)
    ensures var url := MakeAbsoluteUrl(Config.BASE_URL, imageUrl, urljoin);
            && (r.Some? <==> download(url, index).Some?)
            && (r.Some? ==> r.value != "" && EndsWith(r.value, ImageFilename(urlPath(url), index, download(url, index).value)))
  {
    var url := MakeAbsoluteUrl(Config.BASE_URL, imageUrl, urljoin);
    match download(url, index)
    case None => None
    case Some(contentType) => Some(ImagePath(postId, ImageFilename(urlPath(url), index, contentType)))
  }

  /** For a post id that is a plain name, an image lands at
      `output/images/<post id>/<file name>`. */
  lemma ImagePathShape(postId: string, filename: string)
    requires postId != "" && !StartsWith(postId, "/") && !EndsWith(postId, "/")
    requires filename != "" && '/' !in filename
    ensures ImagePath(postId, filename) == Config.IMAGES_DIR + "/" + postId + "/" + filename
  {
    assert !StartsWith(filename, "/") by { assert filename[..1] == [filename[0]]; }
  }

  /** What each position of the URL list yields: nothing for a falsy URL, otherwise the
      outcome of its download. */
  function ImageResults(download: (string, nat) -> Option<string>, urljoin: (string, string) -> string,
                        urlPath: string -> string, imageUrls: seq<string>, postId: string): (r: seq<Option<string>>)
    ensures |r| == |imageUrls|
  {
    seq(|imageUrls|, i requires 0 <= i < |imageUrls| =>
      if imageUrls[i] == "" then None else DownloadImage(download, urljoin, urlPath, imageUrls[i], postId, i))
  }

  /** The paths `download_images` returns: the saved ones, in the order of the URLs. */
  function Downloads(download: (string, nat) -> Option<string>, urljoin: (string, string) -> string,
                     urlPath: string -> string, imageUrls: seq<string>, postId: string): (r: seq<string>)
    ensures |r| <= |imageUrls|
  {
    Somes(ImageResults(download, urljoin, urlPath, imageUrls, postId))
  }

  /** `download_images`: each non-empty URL in turn, keeping the path of every download
      that succeeds. */
  method DownloadImages(download: (string, nat) -> Option<string>, urljoin: (string, string) -> string,
                        urlPath: string -> string, imageUrls: seq<string>, postId: string)
    returns (downloaded: seq<string>)
    ensures downloaded == Downloads(download, urljoin, urlPath, imageUrls, postId)
  {
    ghost var rs := ImageResults(download, urljoin, urlPath, imageUrls, postId);
    downloaded := [];
    for index := 0 to |imageUrls|
      invariant downloaded == Somes(rs[..index])
    {
      assert rs[..index + 1][..index] == rs[..index];
      var url := imageUrls[index];
      if url != "" {
        var path := DownloadImage(download, urljoin, urlPath, url, postId, index);
        if path.Some? && path.value != "" {
          downloaded := downloaded + [path.value];
        }
      }
    }
    assert rs[..|imageUrls|] == rs;
  }

  /** A failed download does not stop later ones: every non-empty URL whose download
      succeeds has its path among the results. */
  lemma DownloadsComplete(download: (string, nat) -> Option<string>, urljoin: (string, string) -> string,
                          urlPath: string -> string, imageUrls: seq<string>, postId: string, k: nat)
    requires k < |imageUrls| && imageUrls[k] != ""
    requires download(MakeAbsoluteUrl(Config.BASE_URL, imageUrls[k], urljoin), k).Some?
    ensures DownloadImage(download, urljoin, urlPath, imageUrls[k], postId, k).value
            in Downloads(download, urljoin, urlPath, imageUrls, postId)
  {
    SomesContains(ImageResults(download, urljoin, urlPath, imageUrls, postId), k);
  }

  /** Every result is the saved path of a non-empty URL at the same or a later position. */
  lemma DownloadsSound(download: (string, nat) -> Option<string>, urljoin: (string, string) -> string,
                       urlPath: string -> string, imageUrls: seq<string>, postId: string, j: nat)
    requires j < |Downloads(download, urljoin, urlPath, imageUrls, postId)|
    ensures exists k :: j <= k < |imageUrls| && imageUrls[k] != ""
              && DownloadImage(download, urljoin, urlPath, imageUrls[k], postId, k)
                 == Some(Downloads(download, urljoin, urlPath, imageUrls, postId)[j])
  {
    SomesFrom(ImageResults(download, urljoin, urlPath, imageUrls, postId), j);
  }

  /** When every URL is non-empty and every download succeeds, every image is saved. */
  lemma DownloadsAll(download: (string, nat) -> Option<string>, urljoin: (string, string) -> string,
                     urlPath: string -> string, imageUrls: seq<string>, postId: string)
    requires forall k :: 0 <= k < |imageUrls| ==>
               imageUrls[k] != "" && download(MakeAbsoluteUrl(Config.BASE_URL, imageUrls[k], urljoin), k).Some?
    ensures |Downloads(download, urljoin, urlPath, imageUrls, postId)| == |imageUrls|
  {
    SomesAll(ImageResults(download, urljoin, urlPath, imageUrls, postId));
  }

  /** The extension an audio file is saved with: `get_file_extension`'s, except that `bin`
      becomes `mp3`. It is always one of the known extensions, and a known extension on the
      URL's path is kept. */
  function AudioExtension(urlPath: string, contentType: string): (r: string)
    ensures r in KnownExtensions
    ensures PathExtension(urlPath).Some? ==> r == PathExtension(urlPath).value
    ensures GetFileExtension(urlPath, Some(contentType)) == "bin" ==> r == "mp3"
  {
    var ext := GetFileExtension(urlPath, Some(contentType));
    if ext == "bin" then "mp3" else ext
  }

  /** `download_audio`: nothing for a falsy URL or a failed download; otherwise the file
      `<post id>.<ext>` in the audio folder. */
  function DownloadAudio(download: string -> Option<string>, urljoin: (string, string) -> string,
                         urlPath: string -> string, audioUrl: string, postId: string): (r: Option<string>)
    ensures audioUrl == "" ==> r.None?
    ensures var url := MakeAbsoluteUrl(Config.BASE_URL, audioUrl, urljoin);
            audioUrl != "" ==> (r.Some? <==> download(url).Some?)
  {
    if audioUrl == "" then None
    else
      var url := MakeAbsoluteUrl(Config.BASE_URL, audioUrl, urljoin);
      match download(url)
      case None => None
      case Some(contentType) => Some(PathJoin(Config.AUDIO_DIR, postId + "." + AudioExtension(urlPath(url), contentType)))
  }

  /** For a post id that does not start with `/`, the audio file is
      `output/audio/<post id>.<ext>` with a known extension: there is one audio file per
      post, and a later download of the same post replaces it. */
  lemma AudioPathShape(download: string -> Option<string>, urljoin: (string, string) -> string,
                       urlPath: string -> string, audioUrl: string, postId: string)
    requires !StartsWith(postId, "/")
    requires DownloadAudio(download, urljoin, urlPath, audioUrl, postId).Some?
    ensures exists ext :: ext in KnownExtensions &&
              DownloadAudio(download, urljoin, urlPath, audioUrl, postId).value
              == Config.AUDIO_DIR + "/" + postId + "." + ext
  {
    var url := MakeAbsoluteUrl(Config.BASE_URL, audioUrl, urljoin);
    var ext := AudioExtension(urlPath(url), download(url).value);
    var name := postId + "." + ext;
    if postId == "" {
      assert name[0] == '.';
    } else {
      assert name[..1] == postId[..1];
    }
    assert !StartsWith(name, "/");
    assert Config.AUDIO_DIR + "/" + postId + "." + ext == Config.AUDIO_DIR + "/" + name;
  }
}
