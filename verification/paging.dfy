/**
 Which of the sorted rows `print_flat_data` prints. A limit of 0 means every
 row; a positive limit prints that many rows from the front; a negative limit
 prints |limit| rows from the back, last row first.
 */
module Paging {
  import opened Rows
  import opened Compare
  import opened Sorting

  function Min(a: int, b: int): int {
    if a <= b then a else b
  }

  function Reverse<T>(s: seq<T>): (r: seq<T>)
    ensures |r| == |s|
    ensures forall i :: 0 <= i < |s| ==> r[i] == s[|s| - 1 - i]
  {
    if s == [] then [] else Reverse(s[1..]) + [s[0]]
  }

  lemma {:induction false} ReverseKeepsElements<T>(s: seq<T>)
    ensures multiset(Reverse(s)) == multiset(s)
  {
    if s != [] {
      ReverseKeepsElements(s[1..]);
      assert s == [s[0]] + s[1..];
    }
  }

  /** The rows printed for `limit`, in printing order. */
  function SelectRows(flat: seq<Row>, limit: int): (shown: seq<Row>)
    ensures limit == 0 ==> shown == flat
    ensures limit > 0 ==> shown == flat[..Min(|flat|, limit)]
    ensures limit < 0 ==> |shown| == Min(|flat|, -limit)
    ensures limit < 0 ==> forall i :: 0 <= i < |shown| ==> shown[i] == flat[|flat| - 1 - i]
  {
    var size := |flat|;
    var lim := if limit == 0 then size else limit;
    if lim >= 0 then flat[..Min(size, lim)]
    else Reverse(flat[size - Min(size, -lim)..])
  }

  /** The two printing loops of `print_flat_data`, collecting what they print. */
  method PrintFlatData(flat: seq<Row>, limit: int) returns (shown: seq<Row>)
    ensures shown == SelectRows(flat, limit)
  {
    var size := |flat|;
    var lim := limit;
    if lim == 0 {
      lim := size;
    }
    shown := [];
    if lim >= 0 {
      lim := Min(size, lim);
      var i := 0;
      while i < lim
        invariant 0 <= i <= lim <= size
        invariant shown == flat[..i]
      {
        shown := shown + [flat[i]];
        i := i + 1;
      }
    } else {
      lim := Min(size, -lim);
      var i := 0;
      while i < lim
        invariant 0 <= i <= lim <= size
        invariant |shown| == i
        invariant forall k :: 0 <= k < i ==> shown[k] == flat[size - k - 1]
      {
        shown := shown + [flat[size - i - 1]];
        i := i + 1;
      }
    }
  }

  /** A negative limit prints exactly the last |limit| rows (all rows when there are fewer). */
  lemma NegativeLimitShowsTail(flat: seq<Row>, limit: int)
    requires limit < 0
    ensures multiset(SelectRows(flat, limit)) == multiset(flat[|flat| - Min(|flat|, -limit)..])
  {
    ReverseKeepsElements(flat[|flat| - Min(|flat|, -limit)..]);
  }

  /** On sorted rows a positive limit prints the top of the order: nothing it
      leaves out belongs before anything it prints. */
  lemma PositiveLimitShowsTop(ctx: Context, flat: seq<Row>, limit: int, i: nat, j: nat)
    requires Sorted(ctx, flat)
    requires limit > 0
    requires i < |SelectRows(flat, limit)| <= j < |flat|
    ensures SortCbk(ctx, SelectRows(flat, limit)[i], flat[j]) <= 0
  {
    SortedPairwise(ctx, flat, i, j);
  }

  /** What a prefix leaves out of a sequence is its suffix. */
  lemma PrefixLeavesSuffix<T>(s: seq<T>, n: nat)
    requires n <= |s|
    ensures multiset(s[..n]) <= multiset(s)
    ensures multiset(s) - multiset(s[..n]) == multiset(s[n..])
  {
    assert s == s[..n] + s[n..];
  }

  /** The same, stated over the rows a positive limit leaves out. */
  lemma OmittedRowsFollow(ctx: Context, flat: seq<Row>, limit: int, i: nat)
    requires Sorted(ctx, flat)
    requires limit > 0
    requires i < |SelectRows(flat, limit)|
    ensures forall r :: r in multiset(flat) - multiset(SelectRows(flat, limit)) ==>
              SortCbk(ctx, SelectRows(flat, limit)[i], r) <= 0
  {
    var shown := SelectRows(flat, limit);
    var n := |shown|;
    PrefixLeavesSuffix(flat, n);
    forall r | r in multiset(flat[n..])
      ensures SortCbk(ctx, shown[i], r) <= 0
    {
      var j :| n <= j < |flat| && flat[j] == r;
      SortedPairwise(ctx, flat, i, j);
    }
  }

  /** On sorted rows a negative limit prints the bottom of the order, from the
      very last row upwards: under a value column, the cheapest rows, cheapest first. */
  lemma NegativeLimitShowsBottom(ctx: Context, flat: seq<Row>, limit: int, i: nat, j: nat)
    requires Sorted(ctx, flat)
    requires limit < 0
    requires i < |SelectRows(flat, limit)|
    requires j < |flat| - |SelectRows(flat, limit)|
    ensures SortCbk(ctx, flat[j], SelectRows(flat, limit)[i]) <= 0
    ensures i + 1 < |SelectRows(flat, limit)| ==>
              SortCbk(ctx, SelectRows(flat, limit)[i + 1], SelectRows(flat, limit)[i]) <= 0
  {
    var n := |flat|;
    SortedPairwise(ctx, flat, j, n - 1 - i);
    if i + 1 < |SelectRows(flat, limit)| {
      SortedPairwise(ctx, flat, n - 2 - i, n - 1 - i);
    }
  }

  /** `limit = -3` over ten rows prints rows 9, 8 and 7, in that order. */
  lemma NegativeLimitExample(flat: seq<Row>)
    requires |flat| == 10
    ensures SelectRows(flat, -3) == [flat[9], flat[8], flat[7]]
  {
  }
}
