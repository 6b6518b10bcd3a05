/**
 The top of the report: `profiler_report` decides between a "symbol not
 found" notice, the parent/child report of one symbol (`symbol_report`) and
 the flat report of every symbol (`full_report`).

 The symbol table and the edge list are inputs. In a single-run report they
 are the run's flat statistics and its edges; in a diff report they are the
 per-symbol deltas and the delta edges. Both are computed by helpers that are
 not part of this model, possibly after trimming the run to the requested symbol.
 */
module Report {
  import opened Php
  import opened Rows
  import opened Compare
  import opened Sorting
  import opened Paging
  import opened Edges

  /** Rows shown by the flat report unless every row is requested. */
  const TopRows := 100

  /** `$limit` of `full_report`: 0 (every row) when `all` is set, otherwise 100. */
  function RowLimit(all: bool): (limit: int)
    ensures forall rows: seq<Row> :: |SelectRows(rows, limit)| == if all then |rows| else Min(|rows|, TopRows)
    ensures forall rows: seq<Row> :: SelectRows(rows, limit) == rows[..|SelectRows(rows, limit)|]
  {
    if all then 0 else TopRows
  }

  /** The flat report: every symbol as a row, sorted, then cut to the limit. */
  function FullReport(ctx: Context, tab: seq<Entry>, all: bool): (shown: seq<Row>)
    ensures Sorted(ctx, shown)
    ensures forall r :: r in shown ==> r in FlatRows(tab)
    ensures multiset(shown) <= multiset(FlatRows(tab))
    ensures all ==> multiset(shown) == multiset(FlatRows(tab))
    ensures !all ==> |shown| == Min(|tab|, TopRows)
  {
    var flat := FlatRows(tab);
    var sorted := SortRows(ctx, flat);
    var shown := SelectRows(sorted, RowLimit(all));
    PrefixLeavesSuffix(sorted, |shown|);
    assert forall k :: 0 <= k < |shown| ==> shown[k] == sorted[k];
    assert forall r :: r in shown ==> r in flat by {
      forall r | r in shown
        ensures r in flat
      {
        assert r in multiset(shown);
      }
    }
    shown
  }

  /** A truncated flat report shows the head of the order: no row it leaves
      out belongs before a row it shows. */
  lemma FullReportShowsTop(ctx: Context, tab: seq<Entry>, i: nat)
    requires i < |FullReport(ctx, tab, false)|
    ensures forall r :: r in multiset(FlatRows(tab)) - multiset(FullReport(ctx, tab, false)) ==>
              SortCbk(ctx, FullReport(ctx, tab, false)[i], r) <= 0
  {
    var sorted := SortRows(ctx, FlatRows(tab));
    assert FullReport(ctx, tab, false) == SelectRows(sorted, TopRows);
    OmittedRowsFollow(ctx, sorted, TopRows, i);
  }

  /** What `symbol_report` computes for one symbol: its own row, its callers and
      callees (each sorted), and the call-count denominators of the two tables. */
  datatype SymbolView = SymbolView(
    self: Row,
    parents: seq<Row>,
    parentBaseCt: int,
    children: seq<Row>,
    childBaseCt: int)

  function SymbolReport(ctx: Context, edges: seq<Edge>, info: Info, sym: string): (v: SymbolView)
    ensures v.self == Row(sym, info)
    ensures Sorted(ctx, v.parents) && multiset(v.parents) == multiset(ParentRows(edges, sym))
    ensures Sorted(ctx, v.children) && multiset(v.children) == multiset(ChildRows(edges, sym))
    ensures v.parentBaseCt == (if ctx.displayCalls then Get(info, "ct") else 0)
    ensures v.childBaseCt == (if ctx.displayCalls then SumCt(v.children) else 0)
  {
    var children := SortRows(ctx, ChildRows(edges, sym));
    SumCtPermutation(ChildRows(edges, sym), children);
    SymbolView(
      Row(sym, info),
      SortRows(ctx, ParentRows(edges, sym)),
      if ctx.displayCalls then Get(info, "ct") else 0,
      children,
      ChildBaseCt(edges, sym, ctx.displayCalls))
  }

  /** The parent table lists exactly the named callers of the symbol: a row for
      every incoming edge with a caller, never one for a root call. */
  lemma ParentsAreTheCallers(ctx: Context, edges: seq<Edge>, info: Info, sym: string)
    ensures forall r :: r in SymbolReport(ctx, edges, info, sym).parents ==>
              Truthy(r.fn) && exists e :: e in edges && IsParentEdge(e, sym) && r == ParentRow(e)
    ensures forall e :: e in edges && IsParentEdge(e, sym) ==>
              ParentRow(e) in SymbolReport(ctx, edges, info, sym).parents
  {
    var v := SymbolReport(ctx, edges, info, sym);
    forall r | r in v.parents
      ensures r in ParentRows(edges, sym)
    {
      assert r in multiset(v.parents);
    }
    forall e | e in edges && IsParentEdge(e, sym)
      ensures ParentRow(e) in v.parents
    {
      assert ParentRow(e) in multiset(ParentRows(edges, sym));
    }
  }

  /** The child table lists exactly the callees of the symbol, and its call-count
      denominator is their total when call counts are displayed. */
  lemma ChildrenAreTheCallees(ctx: Context, edges: seq<Edge>, info: Info, sym: string)
    ensures forall r :: r in SymbolReport(ctx, edges, info, sym).children ==>
              exists e :: e in edges && IsChildEdge(e, sym) && r == ChildRow(e)
    ensures forall e :: e in edges && IsChildEdge(e, sym) ==>
              ChildRow(e) in SymbolReport(ctx, edges, info, sym).children
    ensures SymbolReport(ctx, edges, info, sym).childBaseCt == ChildBaseCt(edges, sym, ctx.displayCalls)
  {
    var v := SymbolReport(ctx, edges, info, sym);
    forall r | r in v.children
      ensures r in ChildRows(edges, sym)
    {
      assert r in multiset(v.children);
    }
    forall e | e in edges && IsChildEdge(e, sym)
      ensures ChildRow(e) in v.children
    {
      assert ChildRow(e) in multiset(ChildRows(edges, sym));
    }
    SumCtPermutation(ChildRows(edges, sym), v.children);
  }

  datatype Outcome =
    | SymbolNotFound(symbol: string)
    | Symbol(view: SymbolView)
    | Flat(rows: seq<Row>)

  /** The data-table part of `profiler_report`. */
  function ProfilerReport(ctx: Context, repSymbol: string, tab: seq<Entry>, edges: seq<Edge>, all: bool): (out: Outcome)
    ensures out.SymbolNotFound? <==> Truthy(repSymbol) && Lookup(tab, repSymbol).None?
    ensures out.Symbol? <==> Truthy(repSymbol) && Lookup(tab, repSymbol).Some?
    ensures out.Flat? <==> !Truthy(repSymbol)
    ensures out.SymbolNotFound? ==> out.symbol == repSymbol
    ensures out.Symbol? ==> Entry(repSymbol, out.view.self.info) in tab && out.view.self.fn == repSymbol
    ensures out.Symbol? ==> out.view == SymbolReport(ctx, edges, Lookup(tab, repSymbol).value, repSymbol)
    ensures out.Flat? ==> out.rows == FullReport(ctx, tab, all)
  {
    if Truthy(repSymbol) then
      match Lookup(tab, repSymbol)
      case None => SymbolNotFound(repSymbol)
      case Some(info) => Symbol(SymbolReport(ctx, edges, info, repSymbol))
    else
      Flat(FullReport(ctx, tab, all))
  }

  /** A symbol missing from the table yields the notice and nothing else; a
      present one yields the report built from its own table row, the same row
      the flat report lists for it. */
  lemma DispatchBySymbol(ctx: Context, repSymbol: string, tab: seq<Entry>, edges: seq<Edge>, all: bool)
    ensures Truthy(repSymbol) && (forall i :: 0 <= i < |tab| ==> tab[i].symbol != repSymbol) ==>
              ProfilerReport(ctx, repSymbol, tab, edges, all) == SymbolNotFound(repSymbol)
    ensures ProfilerReport(ctx, repSymbol, tab, edges, all).Symbol? ==>
              ProfilerReport(ctx, repSymbol, tab, edges, all).view.self in FlatRows(tab)
    ensures !Truthy(repSymbol) ==>
              ProfilerReport(ctx, repSymbol, tab, edges, all) == Flat(FullReport(ctx, tab, all))
  {
    var out := ProfilerReport(ctx, repSymbol, tab, edges, all);
    if out.Symbol? {
      var i :| 0 <= i < |tab| && tab[i] == Entry(repSymbol, out.view.self.info);
      assert FlatRows(tab)[i] == out.view.self;
    }
  }
}
