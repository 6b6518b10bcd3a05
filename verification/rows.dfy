/**
 Rows of a report and the symbol table they are built from.

 A symbol table maps each function name to its statistics (call count `ct`,
 inclusive metrics such as `wt`, exclusive ones such as `excl_wt`). PHP
 arrays keep insertion order, so the table is an ordered sequence of entries
 whose symbols are expected to be distinct. A metric missing from a row reads
 as 0, which is what PHP yields when `null` takes part in arithmetic.
 */
module Rows {
  import opened Php

  type Info = map<string, int>

  /** One line of a flat or parent/child table: the function name `fn` and its counters. */
  datatype Row = Row(fn: string, info: Info)

  datatype Entry = Entry(symbol: string, info: Info)

  /** The report settings that the source keeps in globals. */
  datatype Context = Context(sortCol: string, diffMode: bool, displayCalls: bool)

  function Get(info: Info, key: string): int {
    if key in info then info[key] else 0
  }

  function Ct(r: Row): int {
    Get(r.info, "ct")
  }

  predicate DistinctSymbols(tab: seq<Entry>) {
    forall i, j :: 0 <= i < j < |tab| ==> tab[i].symbol != tab[j].symbol
  }

  /** `isset($symbol_tab[$sym])` together with the value stored there. */
  function Lookup(tab: seq<Entry>, sym: string): (r: Option<Info>)
    ensures r.Some? <==> exists i :: 0 <= i < |tab| && tab[i].symbol == sym
    ensures r.Some? ==> Entry(sym, r.value) in tab
  {
    if tab == [] then None
    else if tab[0].symbol == sym then Some(tab[0].info)
    else
      var r := Lookup(tab[1..], sym);
      assert forall i :: 1 <= i < |tab| ==> tab[i] == tab[1..][i - 1];
      r
  }

  /** In a table without repeated symbols, the entry at position i is the one found. */
  lemma {:induction false} LookupAt(tab: seq<Entry>, i: nat)
    requires DistinctSymbols(tab)
    requires i < |tab|
    ensures Lookup(tab, tab[i].symbol) == Some(tab[i].info)
  {
    if i > 0 {
      assert tab[0].symbol != tab[i].symbol;
      assert DistinctSymbols(tab[1..]) by {
        forall a, b | 0 <= a < b < |tab| - 1
          ensures tab[1..][a].symbol != tab[1..][b].symbol
        {
          assert tab[1..][a] == tab[a + 1] && tab[1..][b] == tab[b + 1];
        }
      }
      LookupAt(tab[1..], i - 1);
    }
  }

  /** The flat rows of a report: one per table entry, in table order, with `fn` set to the key. */
  function FlatRows(tab: seq<Entry>): (rows: seq<Row>)
    ensures |rows| == |tab|
    ensures forall i :: 0 <= i < |tab| ==> rows[i].fn == tab[i].symbol && rows[i].info == tab[i].info
  {
    seq(|tab|, i requires 0 <= i < |tab| => Row(tab[i].symbol, tab[i].info))
  }

  /** Every flat row names a symbol of the table and carries exactly that symbol's
      statistics; every symbol of the table has a row; no name appears twice. */
  lemma FlatRowsAreTheTable(tab: seq<Entry>)
    requires DistinctSymbols(tab)
    ensures forall r :: r in FlatRows(tab) ==> Lookup(tab, r.fn) == Some(r.info)
    ensures forall sym :: Lookup(tab, sym).Some? <==> exists r :: r in FlatRows(tab) && r.fn == sym
    ensures forall i, j :: 0 <= i < j < |tab| ==> FlatRows(tab)[i].fn != FlatRows(tab)[j].fn
  {
    var rows := FlatRows(tab);
    forall r | r in rows
      ensures Lookup(tab, r.fn) == Some(r.info)
    {
      var i :| 0 <= i < |rows| && rows[i] == r;
      LookupAt(tab, i);
    }
    forall sym | Lookup(tab, sym).Some?
      ensures exists r :: r in rows && r.fn == sym
    {
      var i :| 0 <= i < |tab| && tab[i].symbol == sym;
      assert rows[i] in rows;
    }
  }
}
