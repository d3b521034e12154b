/** Generic sequence operations behind the crawler's list handling: first-match-wins
    selection, dropping `None`s, flattening per-selector results, Python slicing and the
    `seen`-set deduplication the discovery and image code both perform. */
module Seqs {
  import opened Wrappers

  predicate NoDup<T(==)>(s: seq<T>) {
    forall i, j :: 0 <= i < j < |s| ==> s[i] != s[j]
  }

  /** Index `i` holds the first present value of `s`. */
  predicate IsFirst<T>(s: seq<Option<T>>, i: int) {
    0 <= i < |s| && s[i].Some? && forall j :: 0 <= j < i ==> s[j].None?
  }

  /** The first present value: a selector list tried in priority order, first match wins. */
  function First<T>(s: seq<Option<T>>): (r: Option<T>)
    ensures r.None? <==> forall i :: 0 <= i < |s| ==> s[i].None?
    ensures r.Some? ==> exists i :: IsFirst(s, i) && s[i] == r
    ensures forall i :: IsFirst(s, i) ==> r == s[i]
    decreases |s|
  {
    if s == [] then None
    else if s[0].Some? then s[0]
    else First(s[1..])
  }

  /** The present values of `s`, in order. */
  function Somes<T>(s: seq<Option<T>>): (r: seq<T>)
    ensures |r| <= |s|
    decreases |s|
  {
    if s == [] then []
    else Somes(s[..|s| - 1]) + (if s[|s| - 1].Some? then [s[|s| - 1].value] else [])
  }

  function Flatten<T>(ss: seq<seq<T>>): seq<T>
    decreases |ss|
  {
    if ss == [] then [] else Flatten(ss[..|ss| - 1]) + ss[|ss| - 1]
  }

  /** Flattening a list whose head is `p` starts with `p`. */
  lemma {:induction false} FlattenCons<T>(p: seq<T>, rest: seq<seq<T>>)
    ensures Flatten([p] + rest) == p + Flatten(rest)
    decreases |rest|
  {
    if rest == [] {
      assert [p] + rest == [p];
      assert [p][..0] == [];
    } else {
      var init := rest[..|rest| - 1];
      assert ([p] + rest)[..|rest|] == [p] + init;
      FlattenCons(p, init);
    }
  }

  /** The `j`-th present value sits at index `j` or later, every `None` before it having
      been dropped. */
  lemma {:induction false} SomesFrom<T>(s: seq<Option<T>>, j: nat)
    requires j < |Somes(s)|
    ensures exists idx :: j <= idx < |s| && s[idx] == Some(Somes(s)[j])
    decreases |s|
  {
    var init := s[..|s| - 1];
    if j < |Somes(init)| {
      SomesFrom(init, j);
      var idx :| j <= idx < |init| && init[idx] == Some(Somes(init)[j]);
      assert s[idx] == Some(Somes(s)[j]);
    } else {
      assert s[|s| - 1] == Some(Somes(s)[j]);
    }
  }

  /** Every present value is kept: a `None` elsewhere does not drop it. */
  lemma {:induction false} SomesContains<T>(s: seq<Option<T>>, k: nat)
    requires k < |s| && s[k].Some?
    ensures s[k].value in Somes(s)
    decreases |s|
  {
    if k < |s| - 1 {
      SomesContains(s[..|s| - 1], k);
    }
  }

  /** When every value is present, all of them are kept. */
  lemma {:induction false} SomesAll<T>(s: seq<Option<T>>)
    requires forall k :: 0 <= k < |s| ==> s[k].Some?
    ensures |Somes(s)| == |s|
    decreases |s|
  {
    if s != [] {
      SomesAll(s[..|s| - 1]);
    }
  }

  /** One more element of `s`: its value is kept when present. */
  lemma SomesStep<T>(s: seq<Option<T>>, i: nat)
    requires i < |s|
    ensures Somes(s[..i + 1]) == Somes(s[..i]) + (if s[i].Some? then [s[i].value] else [])
  {
    assert s[..i + 1][..i] == s[..i];
  }

  /** Python's `s[:n]`; a negative `n` counts from the end. */
  function SliceTo<T>(s: seq<T>, n: int): (r: seq<T>)
    ensures |r| <= |s| && r == s[..|r|]
    ensures n >= 0 ==> |r| == if n < |s| then n else |s|
    ensures n < 0 ==> |r| == if -n < |s| then |s| + n else 0
  {
    if n >= 0 then (if n < |s| then s[..n] else s)
    else if -n < |s| then s[..|s| + n] else []
  }

  /** The elements of `s` that are not in `seen`, each once, in first-occurrence order:
      what a loop produces that appends an element and adds it to `seen` when it is not
      there yet. */
  function DedupFrom<T(==, !new)>(s: seq<T>, seen: set<T>): (r: seq<T>)
    ensures forall x :: x in r <==> x in s && x !in seen
    decreases |s|
  {
    if s == [] then []
    else
      var d := DedupFrom(s[..|s| - 1], seen);
      var x := s[|s| - 1];
      assert forall y :: y in s <==> y in s[..|s| - 1] || y == x;
      if x in seen || x in d then d else d + [x]
  }

  /** No element is kept twice. */
  lemma {:induction false} DedupNoDup<T(!new)>(s: seq<T>, seen: set<T>)
    ensures NoDup(DedupFrom(s, seen))
    decreases |s|
  {
    if s != [] {
      var d := DedupFrom(s[..|s| - 1], seen);
      DedupNoDup(s[..|s| - 1], seen);
      var x := s[|s| - 1];
      if !(x in seen || x in d) {
        assert forall i :: 0 <= i < |d| ==> (d + [x])[i] == d[i];
      }
    }
  }

  function Elems<T>(s: seq<T>): set<T> {
    set x | x in s
  }

  /** One more element is kept exactly when it is neither in `seen` nor already kept. */
  lemma DedupSnoc<T(!new)>(a: seq<T>, x: T, seen: set<T>)
    ensures DedupFrom(a + [x], seen)
            == if x in seen || x in DedupFrom(a, seen) then DedupFrom(a, seen) else DedupFrom(a, seen) + [x]
  {
    assert (a + [x])[..|a|] == a;
  }

  lemma ElemsSnoc<T>(s: seq<T>, x: T)
    ensures Elems(s + [x]) == Elems(s) + {x}
  {
  }

  lemma ElemsAppend<T>(a: seq<T>, b: seq<T>)
    ensures Elems(a + b) == Elems(a) + Elems(b)
  {
  }

  /** Deduplicating from nothing keeps every element. */
  lemma DedupElems<T(!new)>(s: seq<T>)
    ensures Elems(DedupFrom(s, {})) == {} + Elems(s)
  {
  }

  /** A prefix of a sequence without repeats has none either. */
  lemma SliceNoDup<T>(s: seq<T>, n: int)
    requires NoDup(s)
    ensures NoDup(SliceTo(s, n))
  {
    var r := SliceTo(s, n);
    assert forall i :: 0 <= i < |r| ==> r[i] == s[i];
  }

  /** Deduplicating a concatenation: the new elements of the first part come first, and
      the second part is deduplicated against everything the first part added. */
  lemma {:induction false} DedupAppend<T(!new)>(a: seq<T>, b: seq<T>, seen: set<T>)
    ensures DedupFrom(a + b, seen) == DedupFrom(a, seen) + DedupFrom(b, seen + Elems(a))
    decreases |b|
  {
    if b == [] {
      assert a + b == a;
    } else {
      var b' := b[..|b| - 1];
      var y := b[|b| - 1];
      assert (a + b)[..|a + b| - 1] == a + b';
      DedupAppend(a, b', seen);
    }
  }

  /** The largest value of `s`, 0 for the empty sequence. */
  function MaxOf(s: seq<nat>): (m: nat)
    ensures forall i :: 0 <= i < |s| ==> s[i] <= m
    ensures s != [] ==> exists i :: 0 <= i < |s| && s[i] == m
    ensures s == [] ==> m == 0
    decreases |s|
  {
    if s == [] then 0
    else
      var m := MaxOf(s[..|s| - 1]);
      assert forall i :: 0 <= i < |s| - 1 ==> s[..|s| - 1][i] == s[i];
      if s[|s| - 1] > m then s[|s| - 1] else m
  }

  /** The first index at which `s` holds `v`, if any. */
  function IndexOf<T(==)>(s: seq<T>, v: T): (r: Option<nat>)
    ensures r.Some? ==> r.value < |s| && s[r.value] == v && forall j :: 0 <= j < r.value ==> s[j] != v
    ensures r.None? ==> v !in s
    decreases |s|
  {
    if s == [] then None
    else if s[0] == v then Some(0)
    else match IndexOf(s[1..], v)
      case None => None
      case Some(k) => Some(k + 1)
  }
}
