/** Character and string operations the crawler takes from Python, with Python's meaning:
    whitespace, digits, lower-casing, prefix/suffix/substring tests, `str.strip`,
    `str.split(sep)`, `sep.join`, `str(n)` and the digit filter `re.sub(r'\D', '', s)`. */
module Text {
  import opened Wrappers

  /** Python's whitespace: the characters `str.isspace` accepts, which are also the ones
      `\s` matches in a str pattern and the ones `str.strip()` removes. */
  predicate IsSpace(c: char) {
    || c == ' ' || ('\t' <= c <= '\r') || ('\U{001C}' <= c <= '\U{001F}') || c == '\U{0085}'
    || c == '\U{00A0}' || c == '\U{1680}' || ('\U{2000}' <= c <= '\U{200A}') || c == '\U{2028}'
    || c == '\U{2029}' || c == '\U{202F}' || c == '\U{205F}' || c == '\U{3000}'
  }

  predicate IsDigit(c: char) {
    '0' <= c <= '9'
  }

  predicate AllDigits(s: string) {
    forall i :: 0 <= i < |s| ==> IsDigit(s[i])
  }

  /** Lower-casing, on the ASCII letters. */
  function LowerChar(c: char): char {
    if 'A' <= c <= 'Z' then (c as int + 32) as char else c
  }

  function Lower(s: string): (r: string)
    ensures |r| == |s|
    ensures forall i :: 0 <= i < |s| ==> r[i] == LowerChar(s[i])
  {
    seq(|s|, i requires 0 <= i < |s| => LowerChar(s[i]))
  }

  lemma LowerAppend(a: string, b: string)
    ensures Lower(a + b) == Lower(a) + Lower(b)
  {
  }

  predicate StartsWith(s: string, p: string) {
    |p| <= |s| && s[..|p|] == p
  }

  predicate EndsWith(s: string, p: string) {
    |p| <= |s| && s[|s| - |p|..] == p
  }

  /** Python's `p in s` on strings. */
  predicate Contains(s: string, p: string)
    decreases |s|
  {
    StartsWith(s, p) || (s != [] && Contains(s[1..], p))
  }

  /** `p` occurs in `s` starting at index `i`. */
  predicate OccursAt(s: string, p: string, i: int) {
    0 <= i && i + |p| <= |s| && s[i..i + |p|] == p
  }

  /** `Contains` is the existence of an occurrence. */
  lemma {:induction false} ContainsIff(s: string, p: string)
    ensures Contains(s, p) <==> exists i :: OccursAt(s, p, i)
    decreases |s|
  {
    if Contains(s, p) {
      if StartsWith(s, p) {
        assert OccursAt(s, p, 0);
      } else {
        ContainsIff(s[1..], p);
        var i :| OccursAt(s[1..], p, i);
        assert s[1..][i..i + |p|] == s[i + 1..i + 1 + |p|];
        assert OccursAt(s, p, i + 1);
      }
    }
    if exists i :: OccursAt(s, p, i) {
      var i :| OccursAt(s, p, i);
      if i > 0 {
        assert s[1..][i - 1..i - 1 + |p|] == s[i..i + |p|];
        assert OccursAt(s[1..], p, i - 1);
        ContainsIff(s[1..], p);
      } else {
        assert StartsWith(s, p);
      }
    }
  }

  lemma OccursAtChar(s: string, p: string, i: int, k: int)
    requires OccursAt(s, p, i) && 0 <= k < |p|
    ensures s[i + k] == p[k]
  {
    assert s[i..i + |p|][k] == s[i + k];
  }

  /** A pattern with a character the string lacks does not occur in it. */
  lemma MissingChar(s: string, p: string, k: nat)
    requires k < |p| && p[k] !in s
    ensures !Contains(s, p)
  {
    ContainsIff(s, p);
    if Contains(s, p) {
      var i :| OccursAt(s, p, i);
      OccursAtChar(s, p, i, k);
    }
  }

  /** An occurrence at a known position. */
  lemma ContainsAt(s: string, p: string, i: nat)
    requires OccursAt(s, p, i)
    ensures Contains(s, p)
  {
    ContainsIff(s, p);
  }

  /** A pattern without the separator occurs in `a + [sep] + b` iff it occurs in `a` or in `b`. */
  lemma ContainsAroundSeparator(a: string, sep: char, b: string, p: string)
    requires sep !in p
    ensures Contains(a + [sep] + b, p) <==> Contains(a, p) || Contains(b, p)
  {
    var s := a + [sep] + b;
    ContainsIff(s, p);
    ContainsIff(a, p);
    ContainsIff(b, p);
    if Contains(s, p) {
      var i :| OccursAt(s, p, i);
      OccursSplit(a, sep, b, p, i);
    }
    if Contains(a, p) {
      var i :| OccursAt(a, p, i);
      OccursLeft(a, sep, b, p, i);
    }
    if Contains(b, p) {
      var i :| OccursAt(b, p, i);
      OccursRight(a, sep, b, p, i);
    }
  }

  lemma OccursSplit(a: string, sep: char, b: string, p: string, i: int)
    requires sep !in p && OccursAt(a + [sep] + b, p, i)
    ensures OccursAt(a, p, i) || OccursAt(b, p, i - |a| - 1)
  {
    var s := a + [sep] + b;
    if i + |p| <= |a| {
      assert s[i..i + |p|] == a[i..i + |p|];
    } else if i > |a| {
      assert s[i..i + |p|] == b[i - |a| - 1..i - |a| - 1 + |p|];
    } else {
      OccursAtChar(s, p, i, |a| - i);
      assert false;
    }
  }

  lemma OccursLeft(a: string, sep: char, b: string, p: string, i: int)
    requires OccursAt(a, p, i)
    ensures OccursAt(a + [sep] + b, p, i)
  {
    assert (a + [sep] + b)[i..i + |p|] == a[i..i + |p|];
  }

  lemma OccursRight(a: string, sep: char, b: string, p: string, i: int)
    requires OccursAt(b, p, i)
    ensures OccursAt(a + [sep] + b, p, |a| + 1 + i)
  {
    assert (a + [sep] + b)[|a| + 1 + i..|a| + 1 + i + |p|] == b[i..i + |p|];
  }

  /** Drops leading whitespace (`str.lstrip()`). */
  function TrimStart(s: string): (r: string)
    ensures |r| <= |s| && r == s[|s| - |r|..]
    ensures r == [] || !IsSpace(r[0])
    ensures forall i :: 0 <= i < |s| - |r| ==> IsSpace(s[i])
    ensures s != [] && IsSpace(s[0]) ==> |r| < |s|
  {
    if s != [] && IsSpace(s[0]) then TrimStart(s[1..]) else s
  }

  /** Trimming the start keeps the last character. */
  lemma TrimStartLast(s: string)
    requires TrimStart(s) != []
    ensures TrimStart(s)[|TrimStart(s)| - 1] == s[|s| - 1]
  {
    var t := TrimStart(s);
    assert t == s[|s| - |t|..];
  }

  /** Drops trailing whitespace (`str.rstrip()`). */
  function TrimEnd(s: string): (r: string)
    ensures |r| <= |s| && r == s[..|r|]
    ensures r == [] || !IsSpace(r[|r| - 1])
    ensures forall i :: |r| <= i < |s| ==> IsSpace(s[i])
  {
    if s != [] && IsSpace(s[|s| - 1]) then TrimEnd(s[..|s| - 1]) else s
  }

  /** Python's `str.strip()`. */
  function Strip(s: string): string {
    TrimEnd(TrimStart(s))
  }

  /** Whitespace around a trimmed core is exactly what `Strip` removes. */
  lemma {:induction false} StripAround(x: string, core: string, y: string)
    requires forall i :: 0 <= i < |x| ==> IsSpace(x[i])
    requires forall i :: 0 <= i < |y| ==> IsSpace(y[i])
    requires core == [] || (!IsSpace(core[0]) && !IsSpace(core[|core| - 1]))
    ensures Strip(x + core + y) == core
  {
    var t := core + y;
    assert x + core + y == x + t;
    TrimStartSpaces(x, t);
    TrimEndSpaces(core, y);
  }

  lemma {:induction false} TrimStartSpaces(x: string, t: string)
    requires forall i :: 0 <= i < |x| ==> IsSpace(x[i])
    requires t == [] || !IsSpace(t[0]) || forall i :: 0 <= i < |t| ==> IsSpace(t[i])
    ensures TrimStart(x + t) == TrimStart(t)
    decreases |x|
  {
    if x != [] {
      assert (x + t)[1..] == x[1..] + t;
      TrimStartSpaces(x[1..], t);
    }
  }

  lemma {:induction false} TrimEndSpaces(core: string, y: string)
    requires forall i :: 0 <= i < |y| ==> IsSpace(y[i])
    requires core == [] || (!IsSpace(core[0]) && !IsSpace(core[|core| - 1]))
    ensures TrimStart(core + y) == core + y || core == []
    ensures TrimEnd(TrimStart(core + y)) == core
    decreases |y|
  {
    if core == [] {
      assert core + y == y;
      AllSpacesTrimStart(y);
    } else {
      assert TrimStart(core + y) == core + y;
      TrimEndOfSpaces(core, y);
    }
  }

  lemma {:induction false} AllSpacesTrimStart(y: string)
    requires forall i :: 0 <= i < |y| ==> IsSpace(y[i])
    ensures TrimStart(y) == [] && TrimEnd(TrimStart(y)) == []
    decreases |y|
  {
    if y != [] {
      AllSpacesTrimStart(y[1..]);
    }
  }

  lemma {:induction false} TrimEndOfSpaces(core: string, y: string)
    requires forall i :: 0 <= i < |y| ==> IsSpace(y[i])
    requires core == [] || !IsSpace(core[|core| - 1])
    ensures TrimEnd(core + y) == core
    decreases |y|
  {
    if y == [] {
      assert core + y == core;
    } else {
      assert (core + y)[..|core + y| - 1] == core + y[..|y| - 1];
      TrimEndOfSpaces(core, y[..|y| - 1]);
    }
  }

  /** Python's `sep.join(parts)`. */
  function Join(parts: seq<string>, sep: string): string
    decreases |parts|
  {
    if parts == [] then ""
    else if |parts| == 1 then parts[0]
    else parts[0] + sep + Join(parts[1..], sep)
  }

  /** Python's `s.split(sep)` for a one-character separator: the pieces between the
      separators, empty ones included. */
  function Split(s: string, sep: char): (r: seq<string>)
    ensures |r| >= 1
    decreases |s|
  {
    if s == [] then [""]
    else
      var rest := Split(s[1..], sep);
      if s[0] == sep then [""] + rest else [[s[0]] + rest[0]] + rest[1..]
  }

  function Count(s: string, c: char): nat
    decreases |s|
  {
    if s == [] then 0 else (if s[0] == c then 1 else 0) + Count(s[1..], c)
  }

  /** `s.split(sep)` has one more piece than `s` has separators, and no piece holds one. */
  lemma {:induction false} SplitCount(s: string, sep: char)
    ensures |Split(s, sep)| == Count(s, sep) + 1
    ensures forall k :: 0 <= k < |Split(s, sep)| ==> sep !in Split(s, sep)[k]
    decreases |s|
  {
    if s != [] {
      SplitCount(s[1..], sep);
    }
  }

  /** The character for a decimal digit value. */
  function DigitChar(d: nat): (c: char)
    requires d < 10
    ensures IsDigit(c)
  {
    ('0' as int + d) as char
  }

  function DigitValue(c: char): nat
    requires IsDigit(c)
  {
    c as int - '0' as int
  }

  /** Python's `str(n)` for a non-negative integer. */
  function NatToString(n: nat): (r: string)
    ensures |r| >= 1 && AllDigits(r)
    ensures |r| > 1 ==> r[0] != '0'
    decreases n
  {
    if n < 10 then [DigitChar(n)] else NatToString(n / 10) + [DigitChar(n % 10)]
  }

  /** Python's `str(i)` for any integer. */
  function IntToString(i: int): string {
    if i < 0 then "-" + NatToString(-i) else NatToString(i)
  }

  /** The value of a run of decimal digits (Python's `int(s)` for such a run). */
  function DigitsValue(s: string): nat
    requires AllDigits(s)
    decreases |s|
  {
    if s == [] then 0 else DigitsValue(s[..|s| - 1]) * 10 + DigitValue(s[|s| - 1])
  }

  /** Reading back what `NatToString` writes gives the number again. */
  lemma {:induction false} NatToStringRoundTrip(n: nat)
    ensures DigitsValue(NatToString(n)) == n
    decreases n
  {
    if n >= 10 {
      NatToStringRoundTrip(n / 10);
      var s := NatToString(n / 10) + [DigitChar(n % 10)];
      assert s[..|s| - 1] == NatToString(n / 10);
    }
  }

  /** `NatToString` never writes the same text for two numbers. */
  lemma NatToStringInjective(m: nat, n: nat)
    requires NatToString(m) == NatToString(n)
    ensures m == n
  {
    NatToStringRoundTrip(m);
    NatToStringRoundTrip(n);
  }

  /** `re.sub(r'\D', '', s)`: the digits of `s`, in order. */
  function KeepDigits(s: string): (r: string)
    ensures AllDigits(r) && |r| <= |s|
    decreases |s|
  {
    if s == [] then ""
    else (if IsDigit(s[0]) then [s[0]] else "") + KeepDigits(s[1..])
  }

  /** `int(re.sub(r'\D', '', s) or 0)`: the number the digits of `s` spell, 0 without any. */
  function DigitCount(s: string): nat {
    DigitsValue(KeepDigits(s))
  }

  /** Length of the leading run of non-whitespace characters. */
  function WordEnd(s: string): (n: nat)
    ensures n <= |s|
    ensures forall i :: 0 <= i < n ==> !IsSpace(s[i])
    ensures n < |s| ==> IsSpace(s[n])
    decreases |s|
  {
    if s == [] || IsSpace(s[0]) then 0 else 1 + WordEnd(s[1..])
  }

  /** A non-empty string without whitespace. */
  predicate IsWord(w: string) {
    w != [] && forall i :: 0 <= i < |w| ==> !IsSpace(w[i])
  }

  /** Python's `s.split()`: the maximal runs of non-whitespace characters, in order. */
  function Words(s: string): (r: seq<string>)
    ensures forall k :: 0 <= k < |r| ==> IsWord(r[k])
    decreases |s|
  {
    var t := TrimStart(s);
    if t == [] then []
    else
      var n := WordEnd(t);
      FirstWord(t);
      var rest := Words(t[n..]);
      WordsCons(t[..n], rest);
      [t[..n]] + rest
  }

  /** A string starting with a non-space character starts with a word. */
  lemma FirstWord(t: string)
    requires t != [] && !IsSpace(t[0])
    ensures 1 <= WordEnd(t) && IsWord(t[..WordEnd(t)])
  {
    var n := WordEnd(t);
    assert forall i :: 0 <= i < n ==> t[..n][i] == t[i];
  }

  lemma WordsCons(w: string, ws: seq<string>)
    requires IsWord(w) && forall k :: 0 <= k < |ws| ==> IsWord(ws[k])
    ensures forall k :: 0 <= k < |ws| + 1 ==> IsWord(([w] + ws)[k])
  {
  }

  /** A word followed by whitespace is the first word. */
  lemma WordsHead(w: string, rest: string)
    requires IsWord(w) && rest != [] && IsSpace(rest[0])
    ensures Words(w + rest) != [] && Words(w + rest)[0] == w
  {
    var s := w + rest;
    assert s[0] == w[0];
    assert TrimStart(s) == s;
    var n := WordEnd(s);
    assert s[|w|] == rest[0];
    assert n == |w|;
    assert s[..n] == w;
  }

  /** A string with a non-space character has at least one word. */
  lemma WordsNonEmpty(s: string)
    requires TrimStart(s) != []
    ensures Words(s) != []
  {
  }

  /** The last piece of `s.split(sep)`, which is also `s.rsplit(sep, 1)[-1]`. */
  function LastPiece(s: string, sep: char): string {
    var pieces := Split(s, sep);
    pieces[|pieces| - 1]
  }

  /** Splitting `a + [sep] + b` where `b` holds no separator leaves `b` as the last piece. */
  lemma {:induction false} LastPieceAfter(a: string, sep: char, b: string)
    requires sep !in b
    ensures LastPiece(a + [sep] + b, sep) == b
    ensures |Split(a + [sep] + b, sep)| >= 2
    decreases |a|
  {
    if a == [] {
      assert a + [sep] + b == [sep] + b;
      assert ([sep] + b)[1..] == b;
      SplitWithout(b, sep);
    } else {
      assert (a + [sep] + b)[1..] == a[1..] + [sep] + b;
      LastPieceAfter(a[1..], sep, b);
    }
  }

  /** A string without the separator splits into itself alone. */
  lemma {:induction false} SplitWithout(s: string, sep: char)
    requires sep !in s
    ensures Split(s, sep) == [s]
    decreases |s|
  {
    if s != [] {
      assert sep !in s[1..];
      SplitWithout(s[1..], sep);
      assert [s[0]] + s[1..] == s;
    }
  }

  /** The first piece of `s.split(sep)` is what precedes the first separator. */
  lemma {:induction false} SplitFirstPiece(a: string, sep: char, b: string)
    requires sep !in a
    ensures Split(a + [sep] + b, sep)[0] == a
    decreases |a|
  {
    if a != [] {
      assert (a + [sep] + b)[1..] == a[1..] + [sep] + b;
      SplitFirstPiece(a[1..], sep, b);
      assert [a[0]] + a[1..] == a;
    }
  }

  /** Python's `posixpath.join(a, b)`: an absolute `b` replaces `a`; otherwise a `/` is put
      between them unless `a` is empty or already ends with one. */
  function PathJoin(a: string, b: string): (r: string)
    ensures StartsWith(b, "/") ==> r == b
    ensures !StartsWith(b, "/") ==> EndsWith(r, b)
  {
    if StartsWith(b, "/") then b
    else if a == "" || EndsWith(a, "/") then a + b
    else a + "/" + b
  }

  /** Python's `os.path.basename(p)`: what follows the last `/`. */
  function Basename(p: string): string {
    LastPiece(p, '/')
  }

  /** The text after the last `c` in `s`, or `None` when `s` has no `c`. */
  function AfterLast(s: string, c: char): (r: Option<string>)
    ensures r.None? <==> c !in s
    ensures r.Some? ==> c !in r.value && EndsWith(s, [c] + r.value)
    decreases |s|
  {
    if s == [] then None
    else if s[|s| - 1] == c then Some("")
    else
      var init := s[..|s| - 1];
      assert forall x :: x in s <==> x in init || x == s[|s| - 1];
      match AfterLast(init, c)
      case None => None
      case Some(t) => Some(t + [s[|s| - 1]])
  }

  /** What follows the last `c` of `a + [c] + b` is `b` when `b` holds no `c`. */
  lemma {:induction false} AfterLastOf(a: string, c: char, b: string)
    requires c !in b
    ensures AfterLast(a + [c] + b, c) == Some(b)
    decreases |b|
  {
    if b != [] {
      var b' := b[..|b| - 1];
      assert (a + [c] + b)[..|a + [c] + b| - 1] == a + [c] + b';
      AfterLastOf(a, c, b');
      assert b' + [b[|b| - 1]] == b;
    }
  }

  /** The number of decimal digits `s` ends with. */
  function TrailingDigits(s: string): (n: nat)
    ensures n <= |s| && AllDigits(s[|s| - n..])
    ensures n < |s| ==> !IsDigit(s[|s| - n - 1])
    decreases |s|
  {
    if s == [] || !IsDigit(s[|s| - 1]) then 0
    else
      var m := TrailingDigits(s[..|s| - 1]);
      DigitsSnoc(s, m);
      m + 1
  }

  /** A digit after `m` trailing digits of the rest makes `m + 1` trailing digits. */
  lemma DigitsSnoc(s: string, m: nat)
    requires m < |s| && AllDigits(s[..|s| - 1][|s| - 1 - m..]) && IsDigit(s[|s| - 1])
    ensures AllDigits(s[|s| - (m + 1)..])
  {
    var t := s[|s| - (m + 1)..];
    var u := s[..|s| - 1][|s| - 1 - m..];
    forall i | 0 <= i < |t|
      ensures IsDigit(t[i])
    {
      if i < m {
        assert t[i] == u[i];
      }
    }
  }

  /** A run of digits after a non-digit is exactly the trailing digits. */
  lemma {:induction false} TrailingDigitsOf(x: string, d: string)
    requires AllDigits(d) && (x == [] || !IsDigit(x[|x| - 1]))
    ensures TrailingDigits(x + d) == |d|
    decreases |d|
  {
    if d == [] {
      assert x + d == x;
    } else {
      var d' := d[..|d| - 1];
      assert (x + d)[..|x + d| - 1] == x + d';
      TrailingDigitsOf(x, d');
    }
  }

  /** Python's `s.replace(p, '')`: every occurrence of `p`, scanning left to right without
      overlaps, is removed. */
  function RemoveAll(s: string, p: string): (r: string)
    requires p != []
    ensures |r| <= |s|
    decreases |s|
  {
    if StartsWith(s, p) then RemoveAll(s[|p|..], p)
    else if s == [] then ""
    else [s[0]] + RemoveAll(s[1..], p)
  }

  /** When `p` occurs in `a + p` only at the end, removing it leaves `a`. */
  lemma {:induction false} RemoveAllLast(a: string, p: string)
    requires p != []
    requires forall i :: 0 <= i < |a| ==> !OccursAt(a + p, p, i)
    ensures RemoveAll(a + p, p) == a
    decreases |a|
  {
    if a == [] {
      assert a + p == p;
      assert StartsWith(p, p);
    } else {
      assert !OccursAt(a + p, p, 0);
      assert (a + p)[1..] == a[1..] + p;
      forall i | 0 <= i < |a[1..]|
        ensures !OccursAt(a[1..] + p, p, i)
      {
        assert !OccursAt(a + p, p, i + 1);
        assert (a[1..] + p)[i..i + |p|] == (a + p)[i + 1..i + 1 + |p|];
      }
      RemoveAllLast(a[1..], p);
      assert [a[0]] + a[1..] == a;
    }
  }
}
