/** Sequence helpers that stand for Python list idioms: comprehensions with an `if`,
    slicing, `in` on strings and flattening a list of pages. */
module Seqs {

  /** `[x for x in s if p(x)]`. */
  function Filter<T>(s: seq<T>, p: T -> bool): (r: seq<T>)
    ensures |r| <= |s|
    ensures forall x :: x in r ==> x in s && p(x)
    ensures forall x :: x in s && p(x) ==> x in r
  {
    if s == [] then []
    else if p(s[0]) then [s[0]] + Filter(s[1..], p)
    else Filter(s[1..], p)
  }

  /** `r` is obtained from `s` by deleting elements: order is kept. */
  predicate IsSubsequence<T(==)>(r: seq<T>, s: seq<T>)
    decreases |s|
  {
    if r == [] then true
    else if s == [] then false
    else if r[0] == s[0] then IsSubsequence(r[1..], s[1..])
    else IsSubsequence(r, s[1..])
  }

  lemma {:induction false} SubsequenceOfSelf<T>(s: seq<T>)
    ensures IsSubsequence(s, s)
    decreases |s|
  {
    if s != [] {
      SubsequenceOfSelf(s[1..]);
    }
  }

  lemma {:induction false} SubsequenceOfTail<T>(r: seq<T>, x: T, s: seq<T>)
    requires IsSubsequence(r, s)
    ensures IsSubsequence(r, [x] + s)
    decreases |s|, 1
  {
    var xs := [x] + s;
    assert xs[1..] == s;
    if r != [] && r[0] == x {
      SubsequenceDropHead(r, s);
    }
  }

  lemma SubsequenceCons<T>(x: T, r: seq<T>, s: seq<T>)
    requires IsSubsequence(r, s)
    ensures IsSubsequence([x] + r, [x] + s)
  {
    assert ([x] + r)[1..] == r && ([x] + s)[1..] == s;
  }

  lemma {:induction false} SubsequenceDropHead<T>(r: seq<T>, s: seq<T>)
    requires r != [] && IsSubsequence(r, s)
    ensures IsSubsequence(r[1..], s)
    decreases |s|, 0
  {
    assert s != [];
    assert [s[0]] + s[1..] == s;
    if r[0] == s[0] {
      SubsequenceOfTail(r[1..], s[0], s[1..]);
    } else {
      SubsequenceDropHead(r, s[1..]);
      SubsequenceOfTail(r[1..], s[0], s[1..]);
    }
  }

  /** Deleting from a subsequence still gives a subsequence: a chain of filters only deletes. */
  lemma {:induction false} SubsequenceTransitive<T>(a: seq<T>, b: seq<T>, c: seq<T>)
    requires IsSubsequence(a, b) && IsSubsequence(b, c)
    ensures IsSubsequence(a, c)
    decreases |c|
  {
    if a != [] && b != [] {
      assert c != [];
      assert [c[0]] + c[1..] == c;
      if b[0] == c[0] && a[0] == b[0] {
        SubsequenceTransitive(a[1..], b[1..], c[1..]);
      } else if b[0] == c[0] {
        SubsequenceTransitive(a, b[1..], c[1..]);
        SubsequenceOfTail(a, c[0], c[1..]);
      } else {
        SubsequenceTransitive(a, b, c[1..]);
        SubsequenceOfTail(a, c[0], c[1..]);
      }
    }
  }

  /** A filter keeps the survivors in their original order. */
  lemma {:induction false} FilterIsSubsequence<T>(s: seq<T>, p: T -> bool)
    ensures IsSubsequence(Filter(s, p), s)
    decreases |s|
  {
    if s != [] {
      FilterIsSubsequence(s[1..], p);
      if p(s[0]) {
        var r := Filter(s, p);
        assert r[0] == s[0] && r[1..] == Filter(s[1..], p);
      } else {
        SubsequenceOfTail(Filter(s[1..], p), s[0], s[1..]);
        assert [s[0]] + s[1..] == s;
      }
    }
  }

  /** Filtering distributes over concatenation. */
  lemma {:induction false} FilterConcat<T>(a: seq<T>, b: seq<T>, p: T -> bool)
    ensures Filter(a + b, p) == Filter(a, p) + Filter(b, p)
    decreases |a|
  {
    if a != [] {
      FilterConcat(a[1..], b, p);
      assert (a + b)[1..] == a[1..] + b;
    } else {
      assert a + b == b;
    }
  }

  /** Filtering a sequence grown by one element keeps that element exactly when it passes. */
  lemma FilterSnoc<T>(a: seq<T>, x: T, p: T -> bool)
    ensures Filter(a + [x], p) == if p(x) then Filter(a, p) + [x] else Filter(a, p)
  {
    FilterConcat(a, [x], p);
    assert [x][1..] == [];
  }

  /** Filtering twice is filtering once by both tests. */
  lemma {:induction false} FilterFuse<T>(s: seq<T>, p: T -> bool, q: T -> bool, both: T -> bool)
    requires forall x :: both(x) == (p(x) && q(x))
    ensures Filter(Filter(s, p), q) == Filter(s, both)
    decreases |s|
  {
    if s != [] {
      FilterFuse(s[1..], p, q, both);
      if p(s[0]) {
        assert Filter(s, p) == [s[0]] + Filter(s[1..], p);
        FilterConcat([s[0]], Filter(s[1..], p), q);
      }
    }
  }

  /** Filters by tests that agree everywhere give the same list. */
  lemma {:induction false} FilterExt<T>(s: seq<T>, p: T -> bool, q: T -> bool)
    requires forall x :: p(x) == q(x)
    ensures Filter(s, p) == Filter(s, q)
    decreases |s|
  {
    if s != [] {
      FilterExt(s[1..], p, q);
    }
  }

  /** One step of a filter chain: a list already filtered by `acc` is filtered by `t`
      (or left alone when `t` holds everywhere); the result is the filter by both. */
  lemma StepFuse<T>(base: seq<T>, s: seq<T>, acc: T -> bool, b: bool, t: T -> bool, both: T -> bool)
    requires s == Filter(base, acc)
    requires forall x :: both(x) == (acc(x) && t(x))
    requires !b ==> forall x :: t(x)
    ensures (if b then Filter(s, t) else s) == Filter(base, both)
  {
    if b {
      FilterFuse(base, acc, t, both);
    } else {
      FilterExt(base, acc, both);
    }
  }

  /** A filter whose predicate holds everywhere changes nothing. */
  lemma {:induction false} FilterAll<T>(s: seq<T>, p: T -> bool)
    requires forall x :: x in s ==> p(x)
    ensures Filter(s, p) == s
    decreases |s|
  {
    if s != [] {
      FilterAll(s[1..], p);
      assert [s[0]] + s[1..] == s;
    }
  }

  /** `needle` occurs in `hay` starting at position `i`. */
  predicate OccursAt<T(==)>(needle: seq<T>, hay: seq<T>, i: int) {
    0 <= i && i + |needle| <= |hay| && hay[i..i + |needle|] == needle
  }

  /** Python's `needle in hay` on strings. */
  ghost predicate IsSubstring<T>(needle: seq<T>, hay: seq<T>) {
    exists i :: OccursAt(needle, hay, i)
  }

  /** The executable substring test, proved equal to the definition above. */
  function Contains<T(==)>(hay: seq<T>, needle: seq<T>): (b: bool)
    ensures b <==> IsSubstring(needle, hay)
    decreases |hay|
  {
    if |needle| > |hay| then
      assert forall i :: !OccursAt(needle, hay, i);
      false
    else if hay[..|needle|] == needle then
      assert OccursAt(needle, hay, 0);
      true
    else
      var rest := Contains(hay[1..], needle);
      ShiftOccurrence(needle, hay);
      rest
  }

  lemma ShiftOccurrence<T>(needle: seq<T>, hay: seq<T>)
    requires |needle| <= |hay| && hay[..|needle|] != needle
    ensures IsSubstring(needle, hay) <==> IsSubstring(needle, hay[1..])
  {
    if IsSubstring(needle, hay) {
      var i :| OccursAt(needle, hay, i);
      assert i != 0;
      assert hay[1..][i - 1..i - 1 + |needle|] == hay[i..i + |needle|];
      assert OccursAt(needle, hay[1..], i - 1);
    }
    if IsSubstring(needle, hay[1..]) {
      var j :| OccursAt(needle, hay[1..], j);
      assert hay[1..][j..j + |needle|] == hay[j + 1..j + 1 + |needle|];
      assert OccursAt(needle, hay, j + 1);
    }
  }

  /** Python's `s[:k]` for any integer `k`, negative counting from the end. */
  function PyPrefix<T>(s: seq<T>, k: int): (r: seq<T>)
    ensures |r| == if k >= 0 then (if k < |s| then k else |s|) else (if |s| + k > 0 then |s| + k else 0)
    ensures r == s[..|r|]
  {
    if k >= 0 then (if k < |s| then s[..k] else s)
    else if |s| + k > 0 then s[..|s| + k] else []
  }

  /** Python's `s[start:end]` for non-negative bounds (both clamped to the length). */
  function Window<T>(s: seq<T>, start: nat, end: nat): (r: seq<T>)
    ensures |r| == if start >= |s| || end <= start then 0 else (if end < |s| then end else |s|) - start
    ensures forall k :: 0 <= k < |r| ==> r[k] == s[start + k]
  {
    if start >= |s| || end <= start then []
    else if end < |s| then s[start..end] else s[start..]
  }

  /** Python's reading of a slice bound on a list of length `n`: a negative bound
      counts from the end, and the result is clamped to `0..n`. */
  function PyBound(n: nat, i: int): (b: nat)
    ensures b <= n
  {
    if i < 0 then (if n + i < 0 then 0 else n + i) else if i < n then i else n
  }

  /** Python's `s[start:end]` for any integer bounds: empty when the second bound,
      once read, does not come after the first. */
  function PySlice<T>(s: seq<T>, start: int, end: int): (r: seq<T>)
    ensures |r| == if PyBound(|s|, end) <= PyBound(|s|, start) then 0 else PyBound(|s|, end) - PyBound(|s|, start)
    ensures forall k :: 0 <= k < |r| ==> r[k] == s[PyBound(|s|, start) + k]
  {
    var lo, hi := PyBound(|s|, start), PyBound(|s|, end);
    if hi <= lo then [] else s[lo..hi]
  }

  /** With non-negative bounds Python's slice is the window between them; `s[:k]` is the
      slice from 0. */
  lemma PySliceWindow<T>(s: seq<T>, start: int, end: int, k: int)
    ensures 0 <= start && 0 <= end ==> PySlice(s, start, end) == Window(s, start, end)
    ensures PySlice(s, 0, k) == PyPrefix(s, k)
  {
  }

  /** Unless a non-negative start meets a negative end (`s[2:-1]`), a slice is never
      longer than its bounds are apart, and one whose bounds do not increase is empty. */
  lemma PySliceBound<T>(s: seq<T>, start: int, end: int)
    ensures start < 0 || 0 <= end ==> |PySlice(s, start, end)| <= if end - start < 0 then 0 else end - start
  {
    var n := |s|;
    if start < 0 && 0 <= end {
      assert PyBound(n, end) <= end;
      assert PyBound(n, start) >= n + start;
    }
  }

  /** SQLite's `OFFSET`: a negative offset counts as none. */
  function OffsetStart(count: nat, skip: int): (start: nat)
    ensures start <= count
  {
    if skip < 0 then 0 else if skip < count then skip else count
  }

  /** SQLite's `LIMIT`: a negative limit means no bound. */
  function LimitEnd(count: nat, start: nat, limit: int): (end: nat)
    requires start <= count
    ensures start <= end <= count
  {
    if limit < 0 || start + limit > count then count else start + limit
  }

  /** The rows `OFFSET skip LIMIT limit` returns from a result of rows `s`. */
  function SqlWindow<T>(s: seq<T>, skip: int, limit: int): (r: seq<T>)
    ensures r == s[OffsetStart(|s|, skip)..LimitEnd(|s|, OffsetStart(|s|, skip), limit)]
  {
    var start := OffsetStart(|s|, skip);
    s[start..LimitEnd(|s|, start, limit)]
  }

  /** The pages of a paginated read, one after the other. */
  function Concat<T>(pages: seq<seq<T>>): (r: seq<T>)
  {
    if pages == [] then [] else pages[0] + Concat(pages[1..])
  }

  lemma {:induction false} ConcatAppend<T>(pages: seq<seq<T>>, page: seq<T>)
    ensures Concat(pages + [page]) == Concat(pages) + page
    decreases |pages|
  {
    if pages == [] {
      assert Concat([page]) == page + Concat([]);
    } else {
      assert (pages + [page])[1..] == pages[1..] + [page];
      ConcatAppend(pages[1..], page);
    }
  }

  lemma {:induction false} ConcatPrefix<T>(pages: seq<seq<T>>, n: nat)
    requires n <= |pages|
    ensures |Concat(pages[..n])| <= |Concat(pages)|
    ensures Concat(pages[..n]) == Concat(pages)[..|Concat(pages[..n])|]
    decreases |pages| - n
  {
    if n < |pages| {
      ConcatPrefix(pages, n + 1);
      assert pages[..n + 1] == pages[..n] + [pages[n]];
      ConcatAppend(pages[..n], pages[n]);
    } else {
      assert pages[..n] == pages;
    }
  }

  /** The total length of the pages. */
  lemma {:induction false} ConcatLength<T>(pages: seq<seq<T>>, bound: nat)
    requires forall i :: 0 <= i < |pages| ==> |pages[i]| <= bound
    ensures |Concat(pages)| <= |pages| * bound
    decreases |pages|
  {
    if pages != [] {
      ConcatLength(pages[1..], bound);
    }
  }
}
