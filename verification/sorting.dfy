/**
 `usort($rows, 'sort_cbk')`: the rows come back as a permutation of the
 input in which every adjacent pair is in comparator order. Since PHP 8.0
 `usort` is stable: rows the comparator ties keep their input order. The
 insertion sort below has all three properties.
 */
module Sorting {
  import opened Rows
  import opened Compare

  /** Every adjacent pair is in comparator order. The quantifier fires only on a
      comparison already in view, which keeps proofs about sorted rows cheap. */
  predicate Sorted(ctx: Context, s: seq<Row>) {
    forall i, j {:trigger SortCbk(ctx, s[i], s[j])} :: 0 <= i < |s| - 1 && j == i + 1 ==> SortCbk(ctx, s[i], s[j]) <= 0
  }

  /** Putting a row in front of a sorted sequence keeps it sorted when the row
      belongs before the current head. */
  lemma SortedCons(ctx: Context, y: Row, t: seq<Row>)
    requires Sorted(ctx, t)
    requires t != [] ==> SortCbk(ctx, y, t[0]) <= 0
    ensures Sorted(ctx, [y] + t)
  {
    assert forall i :: 1 <= i < |t| + 1 ==> ([y] + t)[i] == t[i - 1];
  }

  lemma SortedTail(ctx: Context, s: seq<Row>)
    requires Sorted(ctx, s) && s != []
    ensures Sorted(ctx, s[1..])
    ensures |s| > 1 ==> SortCbk(ctx, s[0], s[1]) <= 0
  {
    assert forall i :: 0 <= i < |s| - 1 ==> s[1..][i] == s[i + 1];
  }

  lemma ConsKeepsElements(x: Row, s: seq<Row>, t: seq<Row>)
    requires s != [] && multiset(t) == multiset(s[1..]) + multiset{x}
    ensures multiset([s[0]] + t) == multiset(s) + multiset{x}
  {
    assert s == [s[0]] + s[1..];
  }

  function Insert(ctx: Context, x: Row, s: seq<Row>): (r: seq<Row>)
    requires Sorted(ctx, s)
    ensures Sorted(ctx, r)
    ensures multiset(r) == multiset(s) + multiset{x}
    ensures |r| == |s| + 1
    ensures r[0] == x || (|s| > 0 && r[0] == s[0])
  {
    if s == [] then [x]
    else if SortCbk(ctx, x, s[0]) <= 0 then
      SortedCons(ctx, x, s);
      [x] + s
    else
      SortCbkAntisymmetric(ctx, x, s[0]);
      SortedTail(ctx, s);
      var t := Insert(ctx, x, s[1..]);
      SortedCons(ctx, s[0], t);
      ConsKeepsElements(x, s, t);
      [s[0]] + t
  }

  function SortRows(ctx: Context, rows: seq<Row>): (r: seq<Row>)
    ensures Sorted(ctx, r)
    ensures multiset(r) == multiset(rows)
    ensures |r| == |rows|
  {
    if rows == [] then []
    else
      assert rows == [rows[0]] + rows[1..];
      Insert(ctx, rows[0], SortRows(ctx, rows[1..]))
  }

  /** The rows of `s` that tie with `k`, in their order in `s`. */
  function TiesOf(ctx: Context, s: seq<Row>, k: Row): seq<Row> {
    if s == [] then []
    else (if Tied(ctx, s[0], k) then [s[0]] else []) + TiesOf(ctx, s[1..], k)
  }

  lemma TiesOfCons(ctx: Context, y: Row, t: seq<Row>, k: Row)
    ensures TiesOf(ctx, [y] + t, k) == (if Tied(ctx, y, k) then [y] else []) + TiesOf(ctx, t, k)
  {
    assert ([y] + t)[1..] == t;
  }

  /** One step of `Insert`, with the fact about ties that the step relies on. */
  lemma InsertStep(ctx: Context, x: Row, s: seq<Row>, k: Row)
    requires Sorted(ctx, s) && s != []
    ensures Sorted(ctx, s[1..])
    ensures SortCbk(ctx, x, s[0]) <= 0 ==> Insert(ctx, x, s) == [x] + s
    ensures SortCbk(ctx, x, s[0]) > 0 ==>
              Insert(ctx, x, s) == [s[0]] + Insert(ctx, x, s[1..]) && !(Tied(ctx, x, k) && Tied(ctx, s[0], k))
  {
    SortedTail(ctx, s);
    TiedWithSame(ctx, x, s[0], k);
  }

  lemma {:induction false} InsertKeepsTies(ctx: Context, x: Row, s: seq<Row>, k: Row)
    requires Sorted(ctx, s)
    ensures TiesOf(ctx, Insert(ctx, x, s), k) == (if Tied(ctx, x, k) then [x] else []) + TiesOf(ctx, s, k)
  {
    if s != [] {
      InsertStep(ctx, x, s, k);
      if SortCbk(ctx, x, s[0]) <= 0 {
        TiesOfCons(ctx, x, s, k);
      } else {
        var t := Insert(ctx, x, s[1..]);
        InsertKeepsTies(ctx, x, s[1..], k);
        TiesOfCons(ctx, s[0], t, k);
        TiesOfCons(ctx, s[0], s[1..], k);
        assert s == [s[0]] + s[1..];
        var q := TiesOf(ctx, s[1..], k);
        if Tied(ctx, x, k) {
          assert TiesOf(ctx, s, k) == q;
          assert TiesOf(ctx, [s[0]] + t, k) == [x] + q;
        } else {
          assert TiesOf(ctx, t, k) == q;
        }
      }
    }
  }

  /** Stability: rows that tie under the comparator come out in their input order. */
  lemma {:induction false} SortRowsStable(ctx: Context, rows: seq<Row>, k: Row)
    ensures TiesOf(ctx, SortRows(ctx, rows), k) == TiesOf(ctx, rows, k)
  {
    if rows != [] {
      SortRowsStable(ctx, rows[1..], k);
      InsertKeepsTies(ctx, rows[0], SortRows(ctx, rows[1..]), k);
    }
  }

  /** Two tied rows keep their order, whichever comes first. */
  lemma TiedPairKeepsOrder(ctx: Context, a: Row, b: Row)
    requires Tied(ctx, a, b)
    ensures SortRows(ctx, [a, b]) == [a, b]
  {
    SortCbkMeaning(ctx, a, b);
    assert [a, b][1..] == [b] && [b][1..] == [];
    assert SortRows(ctx, [b]) == [b];
  }

  /** Adjacent order extends to every pair: no row is listed after one it should precede. */
  lemma {:induction false} SortedPairwise(ctx: Context, s: seq<Row>, i: nat, j: nat)
    requires Sorted(ctx, s)
    requires i < j < |s|
    ensures SortCbk(ctx, s[i], s[j]) <= 0
    decreases j - i
  {
    if i + 1 < j {
      SortedPairwise(ctx, s, i + 1, j);
      SortCbkTransitive(ctx, s[i], s[i + 1], s[j]);
    }
  }

  /** With a value column, the sorted rows list values from highest to lowest
      (magnitudes in diff mode); with `fn`, names ascend ignoring case. */
  lemma SortedMeansOrdered(ctx: Context, s: seq<Row>, i: nat, j: nat)
    requires Sorted(ctx, s)
    requires i < j < |s|
    ensures ListedNoLaterThan(ctx, s[i], s[j])
  {
    SortedPairwise(ctx, s, i, j);
    SortCbkMeaning(ctx, s[i], s[j]);
  }

  /** Deltas +50, -80, +10 sorted by magnitude come out as -80, +50, +10. */
  lemma DiffSortExample(ctx: Context, a: Row, b: Row, c: Row)
    requires ctx.sortCol != "fn" && ctx.diffMode
    requires Get(a.info, ctx.sortCol) == 50
    requires Get(b.info, ctx.sortCol) == -80
    requires Get(c.info, ctx.sortCol) == 10
    ensures SortRows(ctx, [a, b, c]) == [b, a, c]
  {
    DiffModeRanksByMagnitude(ctx, b, a, c);
    SortCbkAntisymmetric(ctx, a, b);
    assert SortRows(ctx, [c]) == [c] by {
      assert [c][1..] == [];
    }
    assert SortRows(ctx, [b, c]) == [b, c] by {
      assert [b, c][1..] == [c];
      assert Insert(ctx, b, [c]) == [b, c];
    }
    assert Insert(ctx, a, [b, c]) == [b, a, c] by {
      assert [b, c][1..] == [c];
      assert Insert(ctx, a, [c]) == [a, c];
    }
    assert SortRows(ctx, [a, b, c]) == Insert(ctx, a, SortRows(ctx, [b, c])) by {
      assert [a, b, c][1..] == [b, c];
    }
  }
}
