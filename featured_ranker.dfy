/** The featured-products batch: every cycle, the six non-expired products with the
    most searches become featured, every other non-expired product stops being
    featured, and no expired product stays featured. One cycle of the endless loop is
    one atomic step over the products table; the sleep between cycles is left out. */
module FeaturedRanker {
  import opened Wrappers
  import opened Seqs
  import opened Catalog
  import StableSort

  /** How many products are featured at most. */
  const TopCount := 6

  /** One entry of `changes`: `(p.id, old flag, new flag)`. */
  datatype Change = Change(id: int, before: bool, after: bool)

  /** `p.searches or 0`. */
  function Score(p: Product): int {
    p.searches.GetOr(0)
  }

  /** A product the cycle treats as on sale: `ends_at > now`. */
  predicate Active(p: Product, now: int) {
    p.endsAt > now
  }

  /** The non-expired products in query order, as `(id, searches or 0)` pairs: the sort
      looks only at the score, and only the ids of its first six are used. */
  function Entries(rows: seq<Product>, now: int): seq<(int, int)> {
    if rows == [] then []
    else (if Active(rows[0], now) then [(rows[0].id, Score(rows[0]))] else []) + Entries(rows[1..], now)
  }

  /** `key=lambda p: p.searches or 0` with `reverse=True`. */
  function MoreSearched(): ((int, int), (int, int)) -> bool {
    (a: (int, int), b: (int, int)) => a.1 >= b.1
  }

  /** `sorted(products, key=..., reverse=True)`. */
  function Ranked(rows: seq<Product>, now: int): seq<(int, int)> {
    StableSort.Sort(MoreSearched(), Entries(rows, now))
  }

  /** The ids of a list of entries. */
  function IdsOf(s: seq<(int, int)>): set<int> {
    set e | e in s :: e.0
  }

  /** `top6_ids = set(p.id for p in sorted_products[:6])`. */
  function TopIds(rows: seq<Product>, now: int): set<int> {
    IdsOf(PyPrefix(Ranked(rows, now), TopCount))
  }

  /** The flag a product has after the cycle. */
  function Relabeled(p: Product, now: int, top: set<int>): Product {
    p.(featured := Active(p, now) && p.id in top)
  }

  /** The table after one cycle. */
  function Cycle(rows: seq<Product>, now: int): (after: seq<Product>)
    ensures |after| == |rows|
  {
    var top := TopIds(rows, now);
    seq(|rows|, i requires 0 <= i < |rows| => Relabeled(rows[i], now, top))
  }

  /** The entries the first loop records, in query order. */
  function ActiveChanges(rows: seq<Product>, now: int, top: set<int>): seq<Change> {
    if rows == [] then []
    else
      var p := rows[|rows| - 1];
      ActiveChanges(rows[..|rows| - 1], now, top)
      + (if Active(p, now) && p.featured != (p.id in top) then [Change(p.id, p.featured, p.id in top)] else [])
  }

  /** The entries the second loop records for expired products still featured. */
  function ExpiredChanges(rows: seq<Product>, now: int): seq<Change> {
    if rows == [] then []
    else
      var p := rows[|rows| - 1];
      ExpiredChanges(rows[..|rows| - 1], now)
      + (if !Active(p, now) && p.featured then [Change(p.id, true, false)] else [])
  }

  /** `changes` at the end of a cycle. */
  function CycleChanges(rows: seq<Product>, now: int): seq<Change> {
    ActiveChanges(rows, now, TopIds(rows, now)) + ExpiredChanges(rows, now)
  }

  /** The first loop: each non-expired row, in query order, gets the flag its rank
      calls for, and each flip is recorded. */
  method FlagActive(rows: seq<Product>, now: int, top: set<int>) returns (session: seq<Product>, changes: seq<Change>)
    ensures |session| == |rows|
    ensures forall j :: 0 <= j < |rows| ==>
              session[j] == if Active(rows[j], now) then Relabeled(rows[j], now, top) else rows[j]
    ensures changes == ActiveChanges(rows, now, top)
  {
    session := rows;
    changes := [];
    for i := 0 to |session|
      invariant |session| == |rows|
      invariant forall j :: 0 <= j < i ==>
                  session[j] == if Active(rows[j], now) then Relabeled(rows[j], now, top) else rows[j]
      invariant forall j :: i <= j < |rows| ==> session[j] == rows[j]
      invariant changes == ActiveChanges(rows[..i], now, top)
    {
      assert rows[..i + 1][..i] == rows[..i];
      var p := session[i];
      if p.endsAt > now {
        var shouldBeFeatured := p.id in top;
        if p.featured != shouldBeFeatured {
          changes := changes + [Change(p.id, p.featured, shouldBeFeatured)];
          session := session[i := p.(featured := shouldBeFeatured)];
        }
      }
    }
    assert rows[..|rows|] == rows;
  }

  /** The second loop: each expired row still featured is unflagged and recorded. */
  method ClearExpired(rows: seq<Product>, staged: seq<Product>, now: int, top: set<int>)
    returns (session: seq<Product>, changes: seq<Change>)
    requires |staged| == |rows|
    requires forall j :: 0 <= j < |rows| ==>
               staged[j] == if Active(rows[j], now) then Relabeled(rows[j], now, top) else rows[j]
    ensures |session| == |rows|
    ensures forall j :: 0 <= j < |rows| ==> session[j] == Relabeled(rows[j], now, top)
    ensures changes == ExpiredChanges(rows, now)
  {
    session := staged;
    changes := [];
    for i := 0 to |session|
      invariant |session| == |rows|
      invariant forall j :: 0 <= j < i ==> session[j] == Relabeled(rows[j], now, top)
      invariant forall j :: i <= j < |rows| ==> session[j] == staged[j]
      invariant changes == ExpiredChanges(rows[..i], now)
    {
      assert rows[..i + 1][..i] == rows[..i];
      var p := session[i];
      if p.endsAt <= now && p.featured {
        changes := changes + [Change(p.id, true, false)];
        session := session[i := p.(featured := false)];
      }
    }
    assert rows[..|rows|] == rows;
  }

  /** One pass of the `while True` body. The rows loaded into the session are updated
      in place; they reach the table only when the commit succeeds (`commitSucceeds`
      stands for every database error the `except` swallows, after which the uncommitted
      session is dropped and the table is unchanged). */
  method RunCycle(table: ProductTable, now: int, commitSucceeds: bool) returns (r: Option<seq<Change>>)
    requires table.Valid()
    modifies table
    ensures table.Valid()
    ensures commitSucceeds ==> r == Some(CycleChanges(old(table.rows), now)) && table.rows == Cycle(old(table.rows), now)
    ensures !commitSucceeds ==> r.None? && table.rows == old(table.rows)
  {
    var rows := table.rows;
    var ranked := StableSort.Sort(MoreSearched(), Entries(rows, now));
    var top := IdsOf(PyPrefix(ranked, TopCount));
    var staged, activeChanges := FlagActive(rows, now, top);
    var session, expiredChanges := ClearExpired(rows, staged, now, top);
    if !commitSucceeds {
      return None;
    }
    assert session == Cycle(rows, now);
    SameIdsAfterCycle(rows, now);
    table.rows := session;
    r := Some(activeChanges + expiredChanges);
  }

  // ---------------------------------------------------------------- properties

  lemma SameIdsAfterCycle(rows: seq<Product>, now: int)
    requires UniqueIds(rows)
    ensures UniqueIds(Cycle(rows, now))
  {
  }

  /** The sort is descending by score, and products tied on searches keep query order. */
  lemma RankingStable(rows: seq<Product>, now: int)
    ensures StableSort.SortedDesc(MoreSearched(), Ranked(rows, now))
    ensures StableSort.SameTieOrder(MoreSearched(), Ranked(rows, now), Entries(rows, now))
    ensures multiset(Ranked(rows, now)) == multiset(Entries(rows, now))
  {
    StableSort.SortSorted(MoreSearched(), Entries(rows, now));
    StableSort.SortStable(MoreSearched(), Entries(rows, now));
  }

  /** A list of `n` entries has at most `n` distinct ids. */
  lemma {:induction false} IdsOfBound(s: seq<(int, int)>)
    ensures |IdsOf(s)| <= |s|
    decreases |s|
  {
    if s != [] {
      IdsOfBound(s[1..]);
      assert IdsOf(s) == IdsOf(s[1..]) + {s[0].0} by {
        assert forall e :: e in s <==> e == s[0] || e in s[1..];
      }
    }
  }

  /** At most six ids are selected. */
  lemma TopIdsBound(rows: seq<Product>, now: int)
    ensures |TopIds(rows, now)| <= TopCount
  {
    IdsOfBound(PyPrefix(Ranked(rows, now), TopCount));
  }

  /** The ids of the non-expired featured products. */
  function FeaturedIds(rows: seq<Product>, now: int): set<int> {
    set p | p in rows && Active(p, now) && p.featured :: p.id
  }

  /** After a cycle only the flags change; a non-expired product is featured exactly
      when its id is among the first six of the ranking, an expired one never is, and at
      most six non-expired products are featured. */
  lemma CycleSpec(rows: seq<Product>, now: int)
    ensures forall i :: 0 <= i < |rows| ==> Cycle(rows, now)[i] == rows[i].(featured := Cycle(rows, now)[i].featured)
    ensures forall i :: 0 <= i < |rows| && Active(rows[i], now) ==>
              (Cycle(rows, now)[i].featured <==> rows[i].id in TopIds(rows, now))
    ensures forall p :: p in Cycle(rows, now) && !Active(p, now) ==> !p.featured
    ensures FeaturedIds(Cycle(rows, now), now) <= TopIds(rows, now)
    ensures |FeaturedIds(Cycle(rows, now), now)| <= TopCount
  {
    var after := Cycle(rows, now);
    var top := TopIds(rows, now);
    forall id | id in FeaturedIds(after, now) ensures id in top {
      var p :| p in after && Active(p, now) && p.featured && p.id == id;
      var i :| 0 <= i < |after| && after[i] == p;
      assert after[i] == Relabeled(rows[i], now, top);
    }
    TopIdsBound(rows, now);
    assert FeaturedIds(after, now) <= top;
    SubsetCardinality(FeaturedIds(after, now), top);
  }

  lemma SubsetCardinality(a: set<int>, b: set<int>)
    requires a <= b
    ensures |a| <= |b|
  {
    assert b == a + (b - a);
  }

  /** The ids recorded by the first loop belong to non-expired rows, those of the second
      loop to expired ones, and each loop records a row at most once. */
  lemma {:induction false} ActiveChangesFrom(rows: seq<Product>, now: int, top: set<int>)
    requires UniqueIds(rows)
    ensures forall c :: c in ActiveChanges(rows, now, top) ==>
              exists i :: 0 <= i < |rows| && rows[i].id == c.id && Active(rows[i], now)
                          && c.before == rows[i].featured && c.after == (rows[i].id in top) && c.before != c.after
    ensures forall j, k :: 0 <= j < k < |ActiveChanges(rows, now, top)| ==>
              ActiveChanges(rows, now, top)[j].id != ActiveChanges(rows, now, top)[k].id
    decreases |rows|
  {
    if rows != [] {
      var init := rows[..|rows| - 1];
      ActiveChangesFrom(init, now, top);
      var p := rows[|rows| - 1];
      var cs := ActiveChanges(rows, now, top);
      var prev := ActiveChanges(init, now, top);
      forall c | c in prev ensures c.id != p.id {
        var i :| 0 <= i < |init| && init[i].id == c.id && Active(init[i], now)
                  && c.before == init[i].featured && c.after == (init[i].id in top) && c.before != c.after;
        assert rows[i] == init[i];
      }
      forall c | c in cs
        ensures exists i :: 0 <= i < |rows| && rows[i].id == c.id && Active(rows[i], now)
                            && c.before == rows[i].featured && c.after == (rows[i].id in top) && c.before != c.after
      {
        if c in prev {
          var i :| 0 <= i < |init| && init[i].id == c.id && Active(init[i], now)
                    && c.before == init[i].featured && c.after == (init[i].id in top) && c.before != c.after;
          assert rows[i] == init[i];
        } else {
          assert rows[|rows| - 1] == p;
        }
      }
      forall j, k | 0 <= j < k < |cs| ensures cs[j].id != cs[k].id {
        if k >= |prev| {
          assert cs[j] in prev;
        }
      }
    }
  }

  lemma {:induction false} ExpiredChangesFrom(rows: seq<Product>, now: int)
    requires UniqueIds(rows)
    ensures forall c :: c in ExpiredChanges(rows, now) ==>
              exists i :: 0 <= i < |rows| && rows[i].id == c.id && !Active(rows[i], now)
                          && rows[i].featured && c.before && !c.after
    ensures forall j, k :: 0 <= j < k < |ExpiredChanges(rows, now)| ==>
              ExpiredChanges(rows, now)[j].id != ExpiredChanges(rows, now)[k].id
    decreases |rows|
  {
    if rows != [] {
      var init := rows[..|rows| - 1];
      ExpiredChangesFrom(init, now);
      var p := rows[|rows| - 1];
      var cs := ExpiredChanges(rows, now);
      var prev := ExpiredChanges(init, now);
      forall c | c in prev ensures c.id != p.id {
        var i :| 0 <= i < |init| && init[i].id == c.id && !Active(init[i], now) && init[i].featured && c.before && !c.after;
        assert rows[i] == init[i];
      }
      forall c | c in cs
        ensures exists i :: 0 <= i < |rows| && rows[i].id == c.id && !Active(rows[i], now)
                            && rows[i].featured && c.before && !c.after
      {
        if c in prev {
          var i :| 0 <= i < |init| && init[i].id == c.id && !Active(init[i], now) && init[i].featured && c.before && !c.after;
          assert rows[i] == init[i];
        } else {
          assert rows[|rows| - 1] == p;
        }
      }
      forall j, k | 0 <= j < k < |cs| ensures cs[j].id != cs[k].id {
        if k >= |prev| {
          assert cs[j] in prev;
        }
      }
    }
  }

  /** Every row whose flag the cycle flips shows up in the first or second loop. */
  lemma {:induction false} FlipsRecorded(rows: seq<Product>, now: int, top: set<int>, i: int)
    requires 0 <= i < |rows|
    requires rows[i].featured != Relabeled(rows[i], now, top).featured
    ensures exists c :: c in ActiveChanges(rows, now, top) + ExpiredChanges(rows, now) && c.id == rows[i].id
    decreases |rows|
  {
    var init := rows[..|rows| - 1];
    if i < |rows| - 1 {
      FlipsRecorded(init, now, top, i);
      var c :| c in ActiveChanges(init, now, top) + ExpiredChanges(init, now) && c.id == init[i].id;
      assert c in ActiveChanges(rows, now, top) + ExpiredChanges(rows, now);
    } else {
      var p := rows[i];
      if Active(p, now) {
        assert Change(p.id, p.featured, p.id in top) in ActiveChanges(rows, now, top);
      } else {
        assert Change(p.id, true, false) in ExpiredChanges(rows, now);
      }
    }
  }

  /** `changes` holds exactly one `(id, old, new)` entry per product whose flag flipped,
      with the old and new flags, and old differs from new. */
  lemma ChangesExact(rows: seq<Product>, now: int)
    requires UniqueIds(rows)
    ensures forall c :: c in CycleChanges(rows, now) ==>
              c.before != c.after
              && exists i :: 0 <= i < |rows| && rows[i].id == c.id
                             && c.before == rows[i].featured && c.after == Cycle(rows, now)[i].featured
    ensures forall i :: 0 <= i < |rows| && rows[i].featured != Cycle(rows, now)[i].featured ==>
              exists c :: c in CycleChanges(rows, now) && c.id == rows[i].id
    ensures forall j, k :: 0 <= j < k < |CycleChanges(rows, now)| ==>
              CycleChanges(rows, now)[j].id != CycleChanges(rows, now)[k].id
  {
    var top := TopIds(rows, now);
    var act := ActiveChanges(rows, now, top);
    var exp := ExpiredChanges(rows, now);
    var cs := CycleChanges(rows, now);
    ActiveChangesFrom(rows, now, top);
    ExpiredChangesFrom(rows, now);
    forall j, k | 0 <= j < k < |cs| ensures cs[j].id != cs[k].id {
      if j < |act| && k >= |act| {
        assert cs[j] in act && cs[k] in exp;
        var a :| 0 <= a < |rows| && rows[a].id == cs[j].id && Active(rows[a], now)
                  && cs[j].before == rows[a].featured && cs[j].after == (rows[a].id in top) && cs[j].before != cs[j].after;
        var b :| 0 <= b < |rows| && rows[b].id == cs[k].id && !Active(rows[b], now) && rows[b].featured && cs[k].before && !cs[k].after;
        assert a != b;
      } else if k < |act| {
        assert cs[j] == act[j] && cs[k] == act[k];
      } else {
        assert cs[j] == exp[j - |act|] && cs[k] == exp[k - |act|];
      }
    }
    forall i | 0 <= i < |rows| && rows[i].featured != Cycle(rows, now)[i].featured
      ensures exists c :: c in cs && c.id == rows[i].id
    {
      FlipsRecorded(rows, now, top, i);
    }
  }

  /** The cycle only reads what it does not write: the ranking of the relabelled table
      is the ranking of the original one. */
  lemma {:induction false} EntriesIgnoreFlags(rows: seq<Product>, after: seq<Product>, now: int)
    requires |after| == |rows|
    requires forall i :: 0 <= i < |rows| ==> after[i] == rows[i].(featured := after[i].featured)
    ensures Entries(after, now) == Entries(rows, now)
    decreases |rows|
  {
    if rows != [] {
      EntriesIgnoreFlags(rows[1..], after[1..], now);
    }
  }

  /** A second cycle over the same products at the same time finds nothing to change. */
  lemma CycleIdempotent(rows: seq<Product>, now: int)
    ensures Cycle(Cycle(rows, now), now) == Cycle(rows, now)
    ensures CycleChanges(Cycle(rows, now), now) == []
  {
    var after := Cycle(rows, now);
    var top := TopIds(rows, now);
    EntriesIgnoreFlags(rows, after, now);
    assert TopIds(after, now) == top;
    NoActiveChanges(after, now, top);
    NoExpiredChanges(after, now);
  }

  lemma {:induction false} NoActiveChanges(rows: seq<Product>, now: int, top: set<int>)
    requires forall p :: p in rows && Active(p, now) ==> p.featured == (p.id in top)
    ensures ActiveChanges(rows, now, top) == []
    decreases |rows|
  {
    if rows != [] {
      NoActiveChanges(rows[..|rows| - 1], now, top);
    }
  }

  lemma {:induction false} NoExpiredChanges(rows: seq<Product>, now: int)
    requires forall p :: p in rows && !Active(p, now) ==> !p.featured
    ensures ExpiredChanges(rows, now) == []
    decreases |rows|
  {
    if rows != [] {
      NoExpiredChanges(rows[..|rows| - 1], now);
    }
  }
}
