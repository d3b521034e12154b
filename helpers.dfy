/** The string and URL helpers of utils/helpers.py and the bounded retry loop around an
    HTTP GET. */
module Helpers {
  import opened Wrappers
  import opened Text
  import opened Seqs
  import Config

  // ---------------------------------------------------------------------------------
  // clean_text and format_date

  /** Every whitespace character is a plain space and no two are adjacent. */
  predicate SingleSpaced(s: string) {
    && (forall i :: 0 <= i < |s| && IsSpace(s[i]) ==> s[i] == ' ')
    && (forall i :: 0 <= i < |s| - 1 ==> !(IsSpace(s[i]) && IsSpace(s[i + 1])))
  }

  /** What `clean_text` promises: single-spaced, and no whitespace at either end. */
  predicate IsClean(s: string) {
    SingleSpaced(s) && (s == [] || (!IsSpace(s[0]) && !IsSpace(s[|s| - 1])))
  }

  /** `re.sub(r'\s+', ' ', s)`, scanning left to right: `inRun` says the previous
      character was whitespace, so a run of whitespace leaves one space, at its start. */
  function Collapse(s: string, inRun: bool): (r: string)
    decreases |s|
  {
    if s == [] then []
    else if !IsSpace(s[0]) then [s[0]] + Collapse(s[1..], false)
    else if inRun then Collapse(s[1..], true)
    else " " + Collapse(s[1..], true)
  }

  function CollapseSpaces(s: string): string {
    Collapse(s, false)
  }

  /** The collapsed string is single-spaced; inside a run it does not start with a space,
      and outside one it starts with a space exactly when the input does. */
  lemma {:induction false} CollapseSingleSpaced(s: string, inRun: bool)
    ensures SingleSpaced(Collapse(s, inRun))
    ensures inRun && Collapse(s, inRun) != [] ==> !IsSpace(Collapse(s, inRun)[0])
    ensures !inRun && s != [] ==> Collapse(s, inRun) != [] && (IsSpace(Collapse(s, inRun)[0]) <==> IsSpace(s[0]))
    decreases |s|
  {
    if s != [] {
      var r := Collapse(s, inRun);
      var rest := Collapse(s[1..], IsSpace(s[0]));
      CollapseSingleSpaced(s[1..], IsSpace(s[0]));
      if r != rest {
        assert forall i :: 1 <= i < |r| ==> r[i] == rest[i - 1];
      }
    }
  }

  /** `clean_text`: collapse whitespace runs to one space and strip both ends; an empty
      input gives the empty string. */
  function CleanText(s: string): (r: string)
    ensures IsClean(r)
  {
    if s == "" then ""
    else
      CollapseSingleSpaced(s, false);
      StripSingleSpaced(CollapseSpaces(s));
      Strip(CollapseSpaces(s))
  }

  /** Stripping a single-spaced string leaves a clean one. */
  lemma StripSingleSpaced(c: string)
    requires SingleSpaced(c)
    ensures IsClean(Strip(c))
  {
    TrimStartSingleSpaced(c);
    TrimEndClean(TrimStart(c));
  }

  /** `lstrip()` keeps a string single-spaced and leaves no whitespace in front. */
  lemma TrimStartSingleSpaced(c: string)
    requires SingleSpaced(c)
    ensures SingleSpaced(TrimStart(c))
  {
    var t := TrimStart(c);
    DropSingleSpaced(c, |c| - |t|);
  }

  /** `rstrip()` of a single-spaced string without leading whitespace is clean. */
  lemma TrimEndClean(t: string)
    requires SingleSpaced(t) && (t == [] || !IsSpace(t[0]))
    ensures IsClean(TrimEnd(t))
  {
    var r := TrimEnd(t);
    TakeSingleSpaced(t, |r|);
    if r != [] {
      assert r[0] == t[0];
    }
  }

  lemma DropSingleSpaced(s: string, a: int)
    requires SingleSpaced(s) && 0 <= a <= |s|
    ensures SingleSpaced(s[a..])
  {
    assert s[a..|s|] == s[a..];
    SliceSingleSpaced(s, a, |s|);
  }

  lemma TakeSingleSpaced(s: string, b: int)
    requires SingleSpaced(s) && 0 <= b <= |s|
    ensures SingleSpaced(s[..b])
  {
    assert s[0..b] == s[..b];
    SliceSingleSpaced(s, 0, b);
  }

  lemma SliceSingleSpaced(s: string, a: int, b: int)
    requires SingleSpaced(s) && 0 <= a <= b <= |s|
    ensures SingleSpaced(s[a..b])
  {
    var t := s[a..b];
    forall i | 0 <= i < |t| - 1
      ensures !(IsSpace(t[i]) && IsSpace(t[i + 1]))
    {
      assert t[i] == s[a + i] && t[i + 1] == s[a + i + 1];
    }
  }

  /** `format_date`: the empty string stays empty, anything else is cleaned. */
  function FormatDate(s: string): (r: string)
    ensures r == CleanText(s)
  {
    if s == "" then "" else CleanText(s)
  }

  /** A clean string collapses to itself. */
  lemma {:induction false} CollapseClean(s: string, inRun: bool)
    requires SingleSpaced(s)
    requires inRun ==> s == [] || !IsSpace(s[0])
    ensures Collapse(s, inRun) == s
    decreases |s|
  {
    if s != [] {
      SliceSingleSpaced(s, 1, |s|);
      CollapseClean(s[1..], IsSpace(s[0]));
      assert [s[0]] + s[1..] == s;
    }
  }

  /** Printable ASCII without the space is clean. */
  lemma PrintableClean(s: string)
    requires forall i :: 0 <= i < |s| ==> '!' <= s[i] <= '~'
    ensures IsClean(s)
  {
    assert forall i :: 0 <= i < |s| ==> !IsSpace(s[i]);
  }

  /** A clean string is left as it is. */
  lemma CleanFixed(c: string)
    requires IsClean(c)
    ensures CleanText(c) == c
  {
    if c != "" {
      CollapseClean(c, false);
      assert "" + c + "" == c;
      StripAround("", c, "");
    }
  }

  /** Cleaning is idempotent. */
  lemma CleanTextIdempotent(s: string)
    ensures CleanText(CleanText(s)) == CleanText(s)
  {
    CleanFixed(CleanText(s));
  }

  /** Leading space that `re.sub(r'\s+', ' ', s)` keeps before the first word. */
  function LeadSpace(s: string): string {
    if s != [] && IsSpace(s[0]) then " " else ""
  }

  /** Trailing space that it keeps after the last word. */
  function TrailSpace(s: string): string {
    if Words(s) != [] && IsSpace(s[|s| - 1]) then " " else ""
  }

  /** The first and last characters of a join of words are those of its first and last word. */
  lemma {:induction false} JoinWordsEnds(ws: seq<string>)
    requires ws != [] && forall k :: 0 <= k < |ws| ==> IsWord(ws[k])
    ensures var j := Join(ws, " "); j != [] && !IsSpace(j[0]) && !IsSpace(j[|j| - 1])
    decreases |ws|
  {
    if |ws| > 1 {
      JoinWordsEnds(ws[1..]);
      assert IsWord(ws[0]);
    } else {
      assert IsWord(ws[0]);
    }
  }

  /** Inside a whitespace run, collapsing skips the rest of the run. */
  lemma {:induction false} CollapseSkipsRun(s: string)
    ensures Collapse(s, true) == CollapseSpaces(TrimStart(s))
    decreases |s|
  {
    if s != [] && IsSpace(s[0]) {
      CollapseSkipsRun(s[1..]);
    }
  }

  /** Outside a run, collapsing copies the leading word and carries on after it. */
  lemma {:induction false} CollapseCopiesWord(t: string)
    ensures CollapseSpaces(t) == t[..WordEnd(t)] + CollapseSpaces(t[WordEnd(t)..])
    decreases |t|
  {
    var n := WordEnd(t);
    if n == 0 {
      assert t[..n] == [] && t[n..] == t;
    } else {
      var u := t[1..];
      CollapseWordChar(t);
      assert WordEnd(u) == n - 1;
      CollapseCopiesWord(u);
      assert u[n - 1..] == t[n..];
      assert t[..n] == [t[0]] + u[..n - 1];
      assert CollapseSpaces(t) == ([t[0]] + u[..n - 1]) + CollapseSpaces(u[n - 1..]);
    }
  }

  /** A non-space character is copied and collapsing goes on outside a run. */
  lemma CollapseWordChar(t: string)
    requires t != [] && !IsSpace(t[0])
    ensures CollapseSpaces(t) == [t[0]] + CollapseSpaces(t[1..])
  {
  }

  /** Whitespace collapsing is the words joined by single spaces, with one space kept at
      each end where the input had whitespace around its words. */
  predicate CollapsesToWords(s: string) {
    CollapseSpaces(s) == LeadSpace(s) + Join(Words(s), " ") + TrailSpace(s)
  }

  lemma {:induction false} CollapseAsWords(s: string)
    ensures CollapsesToWords(s)
    decreases |s|
  {
    if s == [] {
    } else if IsSpace(s[0]) {
      CollapseAsWords(TrimStart(s));
      CollapseAsWordsAfterRun(s);
    } else {
      CollapseAsWords(s[WordEnd(s)..]);
      CollapseAsWordsAfterWord(s);
    }
  }

  lemma Regroup(cs: string, ct: string, j: string, x: string)
    requires cs == " " + ct && ct == "" + j + x
    ensures cs == " " + j + x
  {
  }

  /** Facts shared by the two cases after a leading whitespace run. */
  lemma RunHead(s: string)
    requires s != [] && IsSpace(s[0])
    ensures CollapseSpaces(s) == " " + CollapseSpaces(TrimStart(s))
    ensures Words(s) == Words(TrimStart(s))
    ensures LeadSpace(s) == " "
  {
    CollapseSkipsRun(s[1..]);
    assert TrimStart(s[1..]) == TrimStart(s);
  }

  lemma CollapseAsWordsAfterRun(s: string)
    requires s != [] && IsSpace(s[0])
    requires CollapsesToWords(TrimStart(s))
    ensures CollapsesToWords(s)
  {
    RunHead(s);
    if TrimStart(s) == [] {
      AllSpaceRun(s);
    } else {
      SpaceThenWords(s);
    }
  }

  lemma AllSpaceRun(s: string)
    requires s != [] && IsSpace(s[0]) && TrimStart(s) == []
    requires CollapseSpaces(s) == " " + CollapseSpaces(TrimStart(s))
    requires Words(s) == Words(TrimStart(s)) && LeadSpace(s) == " "
    ensures CollapsesToWords(s)
  {
    assert Words(s) == [];
    assert CollapseSpaces(s) == " " + "" + "";
  }

  lemma SpaceThenWords(s: string)
    requires s != [] && IsSpace(s[0]) && TrimStart(s) != []
    requires CollapsesToWords(TrimStart(s))
    requires CollapseSpaces(s) == " " + CollapseSpaces(TrimStart(s))
    requires Words(s) == Words(TrimStart(s)) && LeadSpace(s) == " "
    ensures CollapsesToWords(s)
  {
    var t := TrimStart(s);
    assert TrimStart(t) == t;
    assert LeadSpace(t) == "";
    RunTrail(s);
    var j := Join(Words(t), " ");
    Regroup(CollapseSpaces(s), CollapseSpaces(t), j, TrailSpace(s));
  }

  lemma CollapseAsWordsAfterWord(s: string)
    requires s != [] && !IsSpace(s[0])
    requires CollapsesToWords(s[WordEnd(s)..])
    ensures CollapsesToWords(s)
  {
    var rest := s[WordEnd(s)..];
    if rest == [] {
      AfterLastWord(s);
    } else if Words(rest) == [] {
      AfterWordTrailingSpace(s);
    } else {
      AfterWordMoreWords(s);
    }
  }

  /** Facts shared by the three cases: the word is copied and heads the word list. */
  lemma WordHead(s: string)
    requires s != [] && !IsSpace(s[0])
    ensures Words(s) == [s[..WordEnd(s)]] + Words(s[WordEnd(s)..])
    ensures LeadSpace(s) == ""
    ensures CollapseSpaces(s) == s[..WordEnd(s)] + CollapseSpaces(s[WordEnd(s)..])
  {
    FirstWordHeads(s);
    assert TrimStart(s) == s;
    CollapseCopiesWord(s);
  }

  lemma AfterLastWord(s: string)
    requires s != [] && !IsSpace(s[0]) && s[WordEnd(s)..] == []
    ensures CollapsesToWords(s)
  {
    WordHead(s);
    var w := s[..WordEnd(s)];
    assert w == s;
    assert Words(s) == [w];
    assert CollapseSpaces(s) == "" + w + "";
  }

  lemma AfterWordTrailingSpace(s: string)
    requires s != [] && !IsSpace(s[0])
    requires var rest := s[WordEnd(s)..]; rest != [] && Words(rest) == [] && CollapsesToWords(rest)
    ensures CollapsesToWords(s)
  {
    WordHead(s);
    var w := s[..WordEnd(s)];
    var rest := s[WordEnd(s)..];
    RestSpaces(s);
    SoleWordTrail(s);
    RegroupLast(CollapseSpaces(s), w, CollapseSpaces(rest));
  }

  /** Whitespace alone after the word collapses to one space. */
  lemma RestSpaces(s: string)
    requires var rest := s[WordEnd(s)..]; rest != [] && Words(rest) == [] && CollapsesToWords(rest)
    ensures CollapseSpaces(s[WordEnd(s)..]) == " " + "" + ""
  {
    var rest := s[WordEnd(s)..];
    assert IsSpace(rest[0]);
    assert LeadSpace(rest) == " " && TrailSpace(rest) == "";
  }

  /** Whitespace alone after the word makes the string end in whitespace. */
  lemma TrailingSpaceLast(s: string)
    requires var rest := s[WordEnd(s)..]; rest != [] && Words(rest) == []
    ensures s != [] && IsSpace(s[|s| - 1])
  {
    var rest := s[WordEnd(s)..];
    NoWordsAllSpace(rest);
    assert IsSpace(rest[|rest| - 1]);
    assert rest[|rest| - 1] == s[|s| - 1];
  }

  /** A string without words is all whitespace. */
  lemma NoWordsAllSpace(x: string)
    requires Words(x) == []
    ensures forall i :: 0 <= i < |x| ==> IsSpace(x[i])
  {
    if TrimStart(x) != [] {
      WordsNonEmpty(x);
    }
  }

  /** The word is the only one, followed by kept trailing space. */
  lemma SoleWordTrail(s: string)
    requires s != [] && !IsSpace(s[0])
    requires var rest := s[WordEnd(s)..]; rest != [] && Words(rest) == []
    ensures Words(s) == [s[..WordEnd(s)]] && TrailSpace(s) == " "
    ensures Join(Words(s), " ") == s[..WordEnd(s)]
  {
    var w := s[..WordEnd(s)];
    FirstWordHeads(s);
    assert [w] + Words(s[WordEnd(s)..]) == [w];
    TrailingSpaceLast(s);
    TrailOf(s);
    JoinSingle(w);
  }

  /** The first word heads the word list. */
  lemma FirstWordHeads(s: string)
    requires s != [] && !IsSpace(s[0])
    ensures Words(s) == [s[..WordEnd(s)]] + Words(s[WordEnd(s)..])
  {
    assert TrimStart(s) == s;
  }

  lemma TrailOf(s: string)
    requires Words(s) != [] && s != [] && IsSpace(s[|s| - 1])
    ensures TrailSpace(s) == " "
  {
  }

  lemma JoinSingle(w: string)
    ensures Join([w], " ") == w
  {
  }

  lemma AfterWordMoreWords(s: string)
    requires s != [] && !IsSpace(s[0])
    requires var rest := s[WordEnd(s)..]; rest != [] && Words(rest) != [] && CollapsesToWords(rest)
    ensures CollapsesToWords(s)
  {
    WordHead(s);
    var w := s[..WordEnd(s)];
    var rest := s[WordEnd(s)..];
    var j := Join(Words(rest), " ");
    MoreWordsJoin(s);
    MoreWordsTrail(s);
    RegroupWord(CollapseSpaces(s), w, CollapseSpaces(rest), j, TrailSpace(s));
  }

  lemma MoreWordsJoin(s: string)
    requires s != [] && !IsSpace(s[0]) && Words(s[WordEnd(s)..]) != []
    ensures Join(Words(s), " ") == s[..WordEnd(s)] + " " + Join(Words(s[WordEnd(s)..]), " ")
  {
    WordHead(s);
    var ws := Words(s[WordEnd(s)..]);
    assert ([s[..WordEnd(s)]] + ws)[1..] == ws;
  }

  lemma MoreWordsTrail(s: string)
    requires s != [] && !IsSpace(s[0]) && s[WordEnd(s)..] != [] && Words(s[WordEnd(s)..]) != []
    ensures TrailSpace(s[WordEnd(s)..]) == TrailSpace(s)
  {
    var rest := s[WordEnd(s)..];
    assert Words(s) != [] by {
      WordHead(s);
    }
    assert rest[|rest| - 1] == s[|s| - 1];
    SameTrail(rest, s);
  }

  /** Leading whitespace does not change the trailing space. */
  lemma RunTrail(s: string)
    requires TrimStart(s) != []
    ensures TrailSpace(TrimStart(s)) == TrailSpace(s)
  {
    var t := TrimStart(s);
    assert t != [] && s != [] && t[|t| - 1] == s[|s| - 1] by {
      TrimStartLast(s);
    }
    assert Words(s) != [] by {
      WordsNonEmpty(s);
    }
    assert Words(t) != [] by {
      TrimStartFixed(t);
      WordsNonEmpty(t);
    }
    SameTrail(t, s);
  }

  /** A string that does not start with whitespace is its own `lstrip()`. */
  lemma TrimStartFixed(t: string)
    requires t == [] || !IsSpace(t[0])
    ensures TrimStart(t) == t
  {
  }

  lemma SameTrail(a: string, b: string)
    requires a != [] && b != [] && Words(a) != [] && Words(b) != [] && a[|a| - 1] == b[|b| - 1]
    ensures TrailSpace(a) == TrailSpace(b)
  {
  }

  lemma RegroupLast(cs: string, w: string, cr: string)
    requires cs == w + cr && cr == " " + "" + ""
    ensures cs == "" + w + " "
  {
  }

  lemma RegroupWord(cs: string, w: string, cr: string, j: string, x: string)
    requires cs == w + cr && cr == " " + j + x
    ensures cs == "" + (w + " " + j) + x
  {
  }


  /** `clean_text` has a second, independent definition: Python's `' '.join(s.split())`. */
  lemma CleanTextIsJoinedWords(s: string)
    ensures CleanText(s) == Join(Words(s), " ")
  {
    if s != "" {
      CollapseAsWords(s);
      assert CollapsesToWords(s);
      var j := Join(Words(s), " ");
      if Words(s) != [] {
        JoinWordsEnds(Words(s));
      }
      StripAround(LeadSpace(s), j, TrailSpace(s));
    }
  }

  // ---------------------------------------------------------------------------------
  // extract_post_id_from_url

  /** The leading run of ASCII digits. */
  function DigitRun(s: string): (r: string)
    ensures |r| <= |s| && r == s[..|r|] && AllDigits(r)
    ensures |r| < |s| ==> !IsDigit(s[|r|])
    decreases |s|
  {
    if s != [] && IsDigit(s[0]) then [s[0]] + DigitRun(s[1..]) else ""
  }

  lemma {:induction false} DigitRunOf(d: string, rest: string)
    requires AllDigits(d) && (rest == [] || !IsDigit(rest[0]))
    ensures DigitRun(d + rest) == d
    decreases |d|
  {
    if d == [] {
      assert d + rest == rest;
    } else {
      assert (d + rest)[1..] == d[1..] + rest;
      DigitRunOf(d[1..], rest);
      assert [d[0]] + d[1..] == d;
    }
  }

  /** The pattern `-(\d+)\.htm` matches at position `i` with group `d`. */
  predicate PostIdPattern(url: string, d: string, i: int) {
    d != [] && AllDigits(d) && OccursAt(url, "-" + d + ".htm", i)
  }

  /** The regex engine's view of a match at `i`: a `-`, then the greedy digit run, which
      must be followed by `.htm` (backtracking to a shorter run leaves a digit, not a `.`). */
  predicate PostIdAt(url: string, i: int) {
    && 0 <= i < |url| && url[i] == '-'
    && var d := DigitRun(url[i + 1..]);
    && d != [] && StartsWith(url[i + 1 + |d|..], ".htm")
  }

  /** A greedy match is a match of the pattern, with the digit run as its group. */
  lemma PostIdAtMatches(url: string, i: int)
    requires PostIdAt(url, i)
    ensures PostIdPattern(url, DigitRun(url[i + 1..]), i)
  {
    var d := DigitRun(url[i + 1..]);
    var m := "-" + d + ".htm";
    var rest := url[i + 1 + |d|..];
    forall k | 0 <= k < |m|
      ensures url[i..i + |m|][k] == m[k]
    {
      if k == 0 {
      } else if k <= |d| {
        assert d[k - 1] == url[i + 1..][k - 1];
      } else {
        assert rest[..4][k - 1 - |d|] == ".htm"[k - 1 - |d|];
      }
    }
  }

  /** A match of the pattern is the greedy match: its group is the whole digit run, since
      the character after the group is the `.` of `.htm`. */
  lemma PostIdPatternGreedy(url: string, d: string, i: int)
    requires PostIdPattern(url, d, i)
    ensures PostIdAt(url, i) && d == DigitRun(url[i + 1..])
  {
    var m := "-" + d + ".htm";
    var rest := url[i + 1 + |d|..];
    forall k | 0 <= k < |url[i + 1..]|
      ensures url[i + 1..][k] == (d + rest)[k]
    {
      if k < |d| {
        OccursAtChar(url, m, i, 1 + k);
      }
    }
    assert url[i + 1..] == d + rest;
    OccursAtChar(url, m, i, 0);
    OccursAtChar(url, m, i, 1 + |d|);
    DigitRunOf(d, rest);
    forall k | 0 <= k < 4
      ensures rest[k] == ".htm"[k]
    {
      OccursAtChar(url, m, i, 1 + |d| + k);
    }
  }

  /** The greedy view agrees with the pattern, and the group is the greedy digit run. */
  lemma PostIdAtIff(url: string, i: int)
    ensures PostIdAt(url, i) ==> PostIdPattern(url, DigitRun(url[i + 1..]), i)
    ensures forall d :: PostIdPattern(url, d, i) ==> PostIdAt(url, i) && d == DigitRun(url[i + 1..])
  {
    if PostIdAt(url, i) {
      PostIdAtMatches(url, i);
    }
    forall d | PostIdPattern(url, d, i)
      ensures PostIdAt(url, i) && d == DigitRun(url[i + 1..])
    {
      PostIdPatternGreedy(url, d, i);
    }
  }

  /** `re.search(r'-(\d+)\.htm', url[i:])`: where the leftmost match at or after `i` starts. */
  function FindPostIdAt(url: string, i: nat): (r: Option<nat>)
    ensures r.None? ==> forall j :: i <= j ==> !PostIdAt(url, j)
    ensures r.Some? ==> i <= r.value && PostIdAt(url, r.value)
    ensures r.Some? ==> forall k :: i <= k < r.value ==> !PostIdAt(url, k)
    decreases |url| - i
  {
    if i >= |url| then None
    else if PostIdAt(url, i) then Some(i)
    else FindPostIdAt(url, i + 1)
  }

  /** `extract_post_id_from_url`: the digits of the leftmost `-<digits>.htm`, or else the
      first 12 characters of the hex digest of the URL (`md5Hex` stands for the hash). */
  function ExtractPostId(url: string, md5Hex: string -> string): (r: string)
    ensures forall i :: PostIdAt(url, i) ==>
              exists j :: 0 <= j <= i && PostIdPattern(url, r, j) && forall k :: 0 <= k < j ==> !PostIdAt(url, k)
    ensures (forall i :: !PostIdAt(url, i)) ==> r == SliceTo(md5Hex(url), 12)
  {
    match FindPostIdAt(url, 0)
    case Some(j) =>
      PostIdAtIff(url, j);
      DigitRun(url[j + 1..])
    case None => SliceTo(md5Hex(url), 12)
  }

  /** Any URL containing `-<digits>.htm` gets a non-empty run of digits as its id, never the
      hash. */
  lemma PostIdFromPattern(url: string, d: string, i: int, md5Hex: string -> string)
    requires PostIdPattern(url, d, i)
    ensures AllDigits(ExtractPostId(url, md5Hex)) && ExtractPostId(url, md5Hex) != ""
  {
    PostIdAtIff(url, i);
    var r := ExtractPostId(url, md5Hex);
    var j :| 0 <= j <= i && PostIdPattern(url, r, j) && forall k :: 0 <= k < j ==> !PostIdAt(url, k);
  }

  /** An article URL of the site: the id is the number before `.htm`. */
  lemma PostIdExample(md5Hex: string -> string)
    ensures ExtractPostId("/a-2024.htm", md5Hex) == "2024"
  {
    var url := "/a-2024.htm";
    assert url[3..] == "2024" + ".htm";
    DigitRunOf("2024", ".htm");
    assert PostIdAt(url, 2);
    assert FindPostIdAt(url, 0) == Some(2) by {
      assert !PostIdAt(url, 0) && !PostIdAt(url, 1);
    }
  }

  // ---------------------------------------------------------------------------------
  // make_absolute_url

  predicate IsAbsoluteUrl(u: string) {
    StartsWith(u, "http://") || StartsWith(u, "https://")
  }

  /** `make_absolute_url`: an `http://` or `https://` URL is returned unchanged; anything
      else is resolved against `base` by `urljoin`, which is a parameter here. */
  function MakeAbsoluteUrl(base: string, rel: string, urljoin: (string, string) -> string): (r: string)
    ensures IsAbsoluteUrl(rel) ==> r == rel
    ensures !IsAbsoluteUrl(rel) ==> r == urljoin(base, rel)
  {
    if IsAbsoluteUrl(rel) then rel else urljoin(base, rel)
  }

  /** Making a URL absolute twice changes nothing the second time, given only that
      `urljoin` leaves its own result alone when it is joined to the same base again (as
      it does for `javascript:` or `mailto:` links, which it returns as they are). */
  lemma MakeAbsoluteIdempotent(base: string, rel: string, urljoin: (string, string) -> string)
    requires urljoin(base, urljoin(base, rel)) == urljoin(base, rel)
    ensures MakeAbsoluteUrl(base, MakeAbsoluteUrl(base, rel, urljoin), urljoin)
            == MakeAbsoluteUrl(base, rel, urljoin)
  {
  }

  /** The result starts with `http://` or `https://` whenever the input does or the one
      `urljoin` it falls back on returns such a URL. */
  lemma MakeAbsoluteAbsolute(base: string, rel: string, urljoin: (string, string) -> string)
    requires IsAbsoluteUrl(rel) || IsAbsoluteUrl(urljoin(base, rel))
    ensures IsAbsoluteUrl(MakeAbsoluteUrl(base, rel, urljoin))
  {
  }

  // ---------------------------------------------------------------------------------
  // sanitize_filename

  /** The characters `[<>:"/\\|?*]` removes. */
  predicate IsForbidden(c: char) {
    c == '<' || c == '>' || c == ':' || c == '"' || c == '/' || c == '\\' || c == '|' || c == '?' || c == '*'
  }

  function RemoveForbidden(s: string): (r: string)
    ensures |r| <= |s|
    ensures forall i :: 0 <= i < |r| ==> !IsForbidden(r[i])
    decreases |s|
  {
    if s == [] then ""
    else (if IsForbidden(s[0]) then "" else [s[0]]) + RemoveForbidden(s[1..])
  }

  /** `sanitize_filename`: drop the forbidden characters, keep the first 200 of the rest. */
  function SanitizeFilename(s: string): (r: string)
    ensures |r| <= 200
    ensures forall i :: 0 <= i < |r| ==> !IsForbidden(r[i])
  {
    var t := RemoveForbidden(s);
    if |t| <= 200 then t else t[..200]
  }

  /** `a` is a subsequence of `b` (greedy left-to-right matching). */
  predicate IsSubsequence(a: string, b: string)
    decreases |b|
  {
    a == [] || (b != [] && (if a[0] == b[0] then IsSubsequence(a[1..], b[1..]) else IsSubsequence(a, b[1..])))
  }

  lemma {:induction false} RemoveForbiddenSubsequence(s: string)
    ensures IsSubsequence(RemoveForbidden(s), s)
    decreases |s|
  {
    if s != [] {
      RemoveForbiddenSubsequence(s[1..]);
      var r := RemoveForbidden(s);
      if !IsForbidden(s[0]) {
        assert r == [s[0]] + RemoveForbidden(s[1..]);
        assert r[0] == s[0] && r[1..] == RemoveForbidden(s[1..]);
      } else {
        assert r == RemoveForbidden(s[1..]);
        assert r != [] ==> r[0] != s[0];
      }
    }
  }

  lemma {:induction false} PrefixSubsequence(a: string, b: string, n: nat)
    requires IsSubsequence(a, b) && n <= |a|
    ensures IsSubsequence(a[..n], b)
    decreases |b|
  {
    if n > 0 {
      assert a[..n][0] == a[0];
      if a[0] == b[0] {
        PrefixSubsequence(a[1..], b[1..], n - 1);
        assert a[..n][1..] == a[1..][..n - 1];
      } else {
        PrefixSubsequence(a, b[1..], n);
      }
    }
  }

  /** The sanitised name keeps characters of the original, in order. */
  lemma SanitizeSubsequence(s: string)
    ensures IsSubsequence(SanitizeFilename(s), s)
  {
    RemoveForbiddenSubsequence(s);
    var t := RemoveForbidden(s);
    if |t| > 200 {
      PrefixSubsequence(t, s, 200);
    }
  }

  lemma {:induction false} RemoveForbiddenNone(s: string)
    requires forall i :: 0 <= i < |s| ==> !IsForbidden(s[i])
    ensures RemoveForbidden(s) == s
    decreases |s|
  {
    if s != [] {
      RemoveForbiddenNone(s[1..]);
      assert [s[0]] + s[1..] == s;
    }
  }

  /** Sanitising twice is sanitising once. */
  lemma SanitizeIdempotent(s: string)
    ensures SanitizeFilename(SanitizeFilename(s)) == SanitizeFilename(s)
  {
    RemoveForbiddenNone(SanitizeFilename(s));
  }

  // ---------------------------------------------------------------------------------
  // get_file_extension

  const KnownExtensions: seq<string> := ["jpg", "jpeg", "png", "gif", "webp", "mp3", "mp4", "wav", "ogg"]

  /** Every value `get_file_extension` can return. */
  predicate IsExtension(e: string) {
    e in KnownExtensions || e == "bin"
  }

  /** The content-type table; anything not in it maps to `bin`. */
  function MimeExtension(t: string): (r: string)
    ensures IsExtension(r)
  {
    if t == "image/jpeg" then "jpg"
    else if t == "image/png" then "png"
    else if t == "image/gif" then "gif"
    else if t == "image/webp" then "webp"
    else if t == "audio/mpeg" then "mp3"
    else if t == "audio/mp3" then "mp3"
    else if t == "audio/wav" then "wav"
    else if t == "audio/ogg" then "ogg"
    else "bin"
  }

  /** The lower-cased text after the last `.` of the path, when it is a known extension. */
  function PathExtension(path: string): Option<string> {
    if '.' in path && Lower(LastPiece(path, '.')) in KnownExtensions then Some(Lower(LastPiece(path, '.')))
    else None
  }

  /** `get_file_extension` on the URL's path (the `urlparse` step is left to the caller):
      a known suffix wins; otherwise a non-empty content type is looked up without its
      `;` parameters and surrounding whitespace; otherwise `bin`. */
  function GetFileExtension(path: string, contentType: Option<string>): (r: string)
    ensures IsExtension(r)
    ensures PathExtension(path).Some? ==> r == PathExtension(path).value
    ensures PathExtension(path).None? && (contentType.None? || contentType.value == "") ==> r == "bin"
  {
    match PathExtension(path)
    case Some(e) => e
    case None =>
      if contentType.Some? && contentType.value != "" then
        MimeExtension(Strip(Split(contentType.value, ';')[0]))
      else "bin"
  }

  /** A path ending in `.` and a known lower-case extension gives that extension, whatever
      the server says the content type is. */
  lemma ExtensionFromPath(stem: string, e: string, contentType: Option<string>)
    requires e in KnownExtensions
    ensures GetFileExtension(stem + "." + e, contentType) == e
  {
    assert '.' !in e;
    LastPieceAfter(stem, '.', e);
    var p := stem + "." + e;
    assert p == stem + ['.'] + e;
    assert p[|stem|] == '.';
    assert Lower(e) == e;
  }

  /** Parameters after `;` in the content type are ignored. */
  lemma ContentTypeParamsIgnored(path: string, t: string, params: string)
    requires ';' !in t
    ensures GetFileExtension(path, Some(t + ";" + params)) == GetFileExtension(path, Some(t))
  {
    SplitFirstPiece(t, ';', params);
    assert t + ";" + params == t + [';'] + params;
    SplitWithout(t, ';');
  }

  // ---------------------------------------------------------------------------------
  // make_request

  /** The outcomes of attempts `0 .. n-1` at fetching `url`; `attempt(url, k)` is what the
      k-th GET returns, `None` when it raised or the status was an error. */
  function Attempts<T>(attempt: (string, nat) -> Option<T>, url: string, n: nat): (r: seq<Option<T>>)
    ensures |r| == n && forall k :: 0 <= k < n ==> r[k] == attempt(url, k)
  {
    seq(n, k requires 0 <= k < n => attempt(url, k))
  }

  /** What `make_request(url, retries=retries)` returns: the first successful attempt. */
  function FirstSuccess<T>(attempt: (string, nat) -> Option<T>, url: string, retries: int): Option<T> {
    First(Attempts(attempt, url, if retries > 0 then retries else 0))
  }

  /** `make_request`: up to `retries` attempts, returning the first success. `tries` is the
      number of GETs issued and `delays` the multipliers of `REQUEST_DELAY` slept, one
      between each two consecutive attempts and none after the last. */
  method MakeRequest<T>(url: string, retries: int, attempt: (string, nat) -> Option<T>)
    returns (r: Option<T>, tries: nat, delays: seq<nat>)
    ensures r == FirstSuccess(attempt, url, retries)
    ensures tries <= (if retries > 0 then retries else 0)
    ensures r.Some? ==> tries >= 1 && r == attempt(url, tries - 1)
    ensures r.None? ==> tries == (if retries > 0 then retries else 0)
    ensures forall k :: 0 <= k < tries && (r.None? || k < tries - 1) ==> attempt(url, k).None?
    ensures |delays| == (if tries == 0 then 0 else tries - 1)
    ensures forall k :: 0 <= k < |delays| ==> delays[k] == k + 1
  {
    var n: nat := if retries > 0 then retries else 0;
    r, tries, delays := None, 0, [];
    while tries < n
      invariant tries <= n
      invariant forall k :: 0 <= k < tries ==> attempt(url, k).None?
      invariant |delays| == (if tries == n && n > 0 then tries - 1 else tries)
      invariant forall k :: 0 <= k < |delays| ==> delays[k] == k + 1
    {
      var res := attempt(url, tries);
      if res.Some? {
        r, tries := res, tries + 1;
        assert IsFirst(Attempts(attempt, url, n), tries - 1);
        return;
      }
      if tries < n - 1 {
        delays := delays + [tries + 1];
      }
      tries := tries + 1;
    }
    assert forall k :: 0 <= k < n ==> Attempts(attempt, url, n)[k].None?;
  }
}
