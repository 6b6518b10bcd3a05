/**
 The row comparator handed to `usort`: the `fn` column sorts by name,
 ascending and case-insensitively; every other column sorts descending by
 value, and in diff mode by the magnitude of the delta.
 */
module Compare {
  import opened Php
  import opened Rows

  /** What a row is ranked by under a column other than `fn`. */
  function Rank(ctx: Context, r: Row): int {
    var v := Get(r.info, ctx.sortCol);
    if ctx.diffMode then Abs(v) else v
  }

  /** The comparator: negative when `a` belongs before `b`, zero on a tie. */
  function SortCbk(ctx: Context, a: Row, b: Row): (c: int)
    ensures c == -1 || c == 0 || c == 1
  {
    if ctx.sortCol == "fn" then
      var left := Upper(a.fn);
      var right := Upper(b.fn);
      if left == right then 0
      else if LexLess(left, right) then -1
      else 1
    else
      var left := Rank(ctx, a);
      var right := Rank(ctx, b);
      if left == right then 0
      else if left > right then -1
      else 1
  }

  /** The intended order, stated without the comparator: by name ascending
      ignoring case, otherwise highest (magnitude of) value first. */
  predicate ListedNoLaterThan(ctx: Context, a: Row, b: Row) {
    if ctx.sortCol == "fn" then !LexLess(Upper(b.fn), Upper(a.fn))
    else Rank(ctx, a) >= Rank(ctx, b)
  }

  predicate Tied(ctx: Context, a: Row, b: Row) {
    if ctx.sortCol == "fn" then Upper(a.fn) == Upper(b.fn)
    else Rank(ctx, a) == Rank(ctx, b)
  }

  /** The comparator's sign says exactly what the intended order says, in both directions. */
  lemma SortCbkMeaning(ctx: Context, a: Row, b: Row)
    ensures SortCbk(ctx, a, b) <= 0 <==> ListedNoLaterThan(ctx, a, b)
    ensures SortCbk(ctx, a, b) == 0 <==> Tied(ctx, a, b)
    ensures SortCbk(ctx, a, b) < 0 <==> ListedNoLaterThan(ctx, a, b) && !Tied(ctx, a, b)
  {
    if ctx.sortCol == "fn" {
      var left, right := Upper(a.fn), Upper(b.fn);
      LexTrichotomy(left, right);
      LexAsymmetric(left, right);
      LexIrreflexive(left);
    }
  }

  /** Two rows tied with the same row are tied with each other. */
  lemma TiedWithSame(ctx: Context, a: Row, b: Row, k: Row)
    ensures Tied(ctx, a, k) && Tied(ctx, b, k) ==> SortCbk(ctx, a, b) == 0
  {
    SortCbkMeaning(ctx, a, b);
  }

  /** Swapping the arguments negates the result. */
  lemma SortCbkAntisymmetric(ctx: Context, a: Row, b: Row)
    ensures SortCbk(ctx, a, b) == -SortCbk(ctx, b, a)
  {
    if ctx.sortCol == "fn" {
      LexTrichotomy(Upper(a.fn), Upper(b.fn));
      LexAsymmetric(Upper(a.fn), Upper(b.fn));
    }
  }

  lemma SortCbkTransitive(ctx: Context, a: Row, b: Row, c: Row)
    requires SortCbk(ctx, a, b) <= 0 && SortCbk(ctx, b, c) <= 0
    ensures SortCbk(ctx, a, c) <= 0
  {
    SortCbkMeaning(ctx, a, b);
    SortCbkMeaning(ctx, b, c);
    SortCbkMeaning(ctx, a, c);
    if ctx.sortCol == "fn" {
      var x, y, z := Upper(a.fn), Upper(b.fn), Upper(c.fn);
      if LexLess(z, x) {
        // then x <= y <= z would put z below itself
        LexTrichotomy(x, y);
        if x != y {
          LexTransitive(z, x, y);
        }
      }
    }
  }

  /** Name sorting ignores case: "foo" and "FOO" tie, and "Apple" precedes "banana". */
  lemma NameSortIgnoresCase(ctx: Context, info: Info)
    requires ctx.sortCol == "fn"
    ensures SortCbk(ctx, Row("foo", info), Row("FOO", info)) == 0
    ensures SortCbk(ctx, Row("Apple", info), Row("banana", info)) == -1
  {
    assert Upper("foo") == "FOO";
    assert Upper("FOO") == "FOO";
    assert Upper("Apple") == "APPLE";
    assert Upper("banana") == "BANANA";
    assert LexLess("APPLE", "BANANA");
  }

  /** In diff mode a large improvement ranks before a smaller regression:
      a delta of -80 comes before +50, which comes before +10. */
  lemma DiffModeRanksByMagnitude(ctx: Context, a: Row, b: Row, c: Row)
    requires ctx.sortCol != "fn" && ctx.diffMode
    requires Get(a.info, ctx.sortCol) == -80
    requires Get(b.info, ctx.sortCol) == 50
    requires Get(c.info, ctx.sortCol) == 10
    ensures SortCbk(ctx, a, b) == -1 && SortCbk(ctx, b, c) == -1 && SortCbk(ctx, a, c) == -1
  {
  }
}
