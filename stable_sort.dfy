/** Python's `sorted(xs, key=k, reverse=True)` and `list.sort(key=k, reverse=True)`:
    a stable sort into descending order. `ge(a, b)` says that `a` ranks at least as
    high as `b`; elements that rank equally keep the order they had in the input. */
module StableSort {
  import opened Seqs

  /** `ge` is total and transitive, as `>=` on a sort key is. */
  ghost predicate TotalPreorder<T(!new)>(ge: (T, T) -> bool) {
    && (forall a, b :: ge(a, b) || ge(b, a))
    && (forall a, b, c :: ge(a, b) && ge(b, c) ==> ge(a, c))
  }

  /** Every element ranks at least as high as every later one. */
  ghost predicate SortedDesc<T>(ge: (T, T) -> bool, s: seq<T>) {
    forall i, j :: 0 <= i < j < |s| ==> ge(s[i], s[j])
  }

  /** The elements that rank exactly as `x` does. */
  function SameRank<T>(ge: (T, T) -> bool, x: T): T -> bool {
    y => ge(x, y) && ge(y, x)
  }

  /** Stability: each group of equally ranked elements appears in the same order in both. */
  ghost predicate SameTieOrder<T(!new)>(ge: (T, T) -> bool, r: seq<T>, s: seq<T>) {
    forall x :: Filter(r, SameRank(ge, x)) == Filter(s, SameRank(ge, x))
  }

  /** Places `x` in front of the first element it ranks at least as high as. */
  function Insert<T>(ge: (T, T) -> bool, x: T, t: seq<T>): (r: seq<T>)
    ensures multiset(r) == multiset(t) + multiset{x}
    ensures |r| == |t| + 1
  {
    if t == [] || ge(x, t[0]) then [x] + t
    else
      assert t == [t[0]] + t[1..];
      [t[0]] + Insert(ge, x, t[1..])
  }

  /** Insertion sort from the back of the list: the first element is inserted last,
      in front of everything it ties with, which is what makes the sort stable. */
  function Sort<T>(ge: (T, T) -> bool, s: seq<T>): (r: seq<T>)
    ensures multiset(r) == multiset(s)
    ensures |r| == |s|
  {
    if s == [] then []
    else
      assert s == [s[0]] + s[1..];
      Insert(ge, s[0], Sort(ge, s[1..]))
  }

  lemma {:induction false} InsertSorted<T(!new)>(ge: (T, T) -> bool, x: T, t: seq<T>)
    requires TotalPreorder(ge) && SortedDesc(ge, t)
    ensures SortedDesc(ge, Insert(ge, x, t))
    decreases |t|
  {
    if t != [] && !ge(x, t[0]) {
      InsertSorted(ge, x, t[1..]);
      var r := Insert(ge, x, t);
      var rest := Insert(ge, x, t[1..]);
      assert r == [t[0]] + rest;
      assert multiset(rest) == multiset(t[1..]) + multiset{x};
      forall j | 0 < j < |r|
        ensures ge(t[0], r[j])
      {
        assert r[j] == rest[j - 1];
        assert r[j] in multiset(rest);
        if r[j] != x {
          assert r[j] in multiset(t[1..]);
          var k :| 0 <= k < |t[1..]| && t[1..][k] == r[j];
          assert t[k + 1] == r[j];
        }
      }
    }
  }

  /** The result is in descending order. */
  lemma {:induction false} SortSorted<T(!new)>(ge: (T, T) -> bool, s: seq<T>)
    requires TotalPreorder(ge)
    ensures SortedDesc(ge, Sort(ge, s))
    decreases |s|
  {
    if s != [] {
      SortSorted(ge, s[1..]);
      InsertSorted(ge, s[0], Sort(ge, s[1..]));
    }
  }

  lemma {:induction false} InsertTieOrder<T(!new)>(ge: (T, T) -> bool, x: T, t: seq<T>, c: T)
    requires TotalPreorder(ge)
    ensures Filter(Insert(ge, x, t), SameRank(ge, c))
         == if SameRank(ge, c)(x) then [x] + Filter(t, SameRank(ge, c)) else Filter(t, SameRank(ge, c))
    decreases |t|
  {
    var p := SameRank(ge, c);
    if t == [] || ge(x, t[0]) {
      assert ([x] + t)[1..] == t;
    } else {
      InsertTieOrder(ge, x, t[1..], c);
      var r := Insert(ge, x, t);
      assert r[1..] == Insert(ge, x, t[1..]);
      // t[0] ranks strictly above x, so the two cannot both tie with c.
      assert p(x) ==> !p(t[0]);
      if p(t[0]) {
        assert Filter(t, p) == [t[0]] + Filter(t[1..], p);
      } else {
        assert Filter(t, p) == Filter(t[1..], p);
      }
    }
  }

  /** The sort is stable: tied elements keep their input order. */
  lemma {:induction false} SortStable<T(!new)>(ge: (T, T) -> bool, s: seq<T>)
    requires TotalPreorder(ge)
    ensures SameTieOrder(ge, Sort(ge, s), s)
    decreases |s|
  {
    if s != [] {
      SortStable(ge, s[1..]);
      forall c
        ensures Filter(Sort(ge, s), SameRank(ge, c)) == Filter(s, SameRank(ge, c))
      {
        InsertTieOrder(ge, s[0], Sort(ge, s[1..]), c);
      }
    }
  }

  /** Filtering a sorted list leaves it sorted. */
  lemma {:induction false} FilterSorted<T>(ge: (T, T) -> bool, s: seq<T>, p: T -> bool)
    requires SortedDesc(ge, s)
    ensures SortedDesc(ge, Filter(s, p))
    decreases |s|
  {
    if s != [] {
      FilterSorted(ge, s[1..], p);
      var rest := Filter(s[1..], p);
      if p(s[0]) {
        var r := Filter(s, p);
        assert r == [s[0]] + rest;
        forall j | 0 < j < |r| ensures ge(r[0], r[j]) {
          assert r[j] in rest;
          var k :| 0 <= k < |s[1..]| && s[1..][k] == r[j];
          assert s[k + 1] == r[j];
        }
      }
    }
  }
}
