# XHProf report shaping, modelled in Dafny

This project models the data-shaping core of the XHProf report viewer
(`app/src/html/Includes/xhprof/display/xhprof.php`). The viewer turns a
profiling run into HTML tables. Underneath the markup, a small pure core
decides which rows appear, in which order, and against which denominators:

- the row comparator `sort_cbk` handed to `usort`;
- the flat report: one row per symbol-table entry, sorted, then cut to a limit
  (100 rows, or all rows when `all` is requested) by `print_flat_data`;
- the dispatch in `profiler_report` between "symbol not found", the
  parent/child report of one symbol and the flat report;
- the parent and child rows of `symbol_report` and their call-count denominators;
- the numeric cell decisions: `print_td_pct`, `pct`, `get_print_class` and the
  per-call averages of the diff summary.

The globals the source reads (`$sort_col`, `$diff_mode`, `$display_calls`)
are an explicit `Context` value. The symbol table is an ordered sequence of
entries, because PHP arrays keep insertion order. The run's edges arrive
already split into an optional caller, a callee and counters. A missing
counter reads as 0, as PHP's `null` does in arithmetic.

Modules, leaves first: `Php` (truthiness, ASCII upper-casing, string order),
`Rows` (rows, table, lookup, flat rows), `Compare` (the comparator),
`Sorting` (`usort`), `Paging` (the limit), `Cells` (percentages, colours,
averages), `Edges` (parent/child rows), `Report` (full report, symbol report,
dispatch).

A negative limit prints the last |limit| rows last-row-first
(`flat_data[size-1]`, `flat_data[size-2]`, …), as the loop at
xhprof.php:759-764 does; the printed tail is reversed, not kept in table order.

Since PHP 8.0 `usort` is stable, so rows the comparator ties keep their
symbol-table order; this decides which tied rows make the 100-row cut. The
model's sort is stable too, and says so (`Sorting.SortRowsStable`).

## Model

| member | source | states |
|---|---|---|
| Compare.SortCbkMeaning | app/src/html/Includes/xhprof/display/xhprof.php:350-382 | the comparator is non-positive exactly when the left row may be listed first: by upper-cased name ascending for `fn`, otherwise by value descending (magnitude in diff mode); it is zero exactly on a tie |
| Compare.SortCbkAntisymmetric | app/src/html/Includes/xhprof/display/xhprof.php:350-382 | swapping the two rows negates the result |
| Compare.SortCbkTransitive | app/src/html/Includes/xhprof/display/xhprof.php:350-382 | the order is transitive, so it is a total preorder fit for sorting |
| Compare.NameSortIgnoresCase | app/src/html/Includes/xhprof/display/xhprof.php:354-363 | "foo" and "FOO" tie; "Apple" sorts before "banana" |
| Compare.DiffModeRanksByMagnitude | app/src/html/Includes/xhprof/display/xhprof.php:365-380 | in diff mode a delta of -80 ranks before +50, which ranks before +10 |
| Compare.SortCbk | app/src/html/Includes/xhprof/display/xhprof.php:350-382 | the comparator answers only -1, 0 or 1 |
| Php.Truthy | app/src/html/Includes/xhprof/display/xhprof.php:526 | a string is truthy exactly when it is neither "" nor "0": every string of two or more characters is, the one-character string "0" is not |
| Php.Upper | app/src/html/Includes/xhprof/display/xhprof.php:357-358 | upper-casing keeps the length and upper-cases each character in place |
| Php.UpperChar | app/src/html/Includes/xhprof/display/xhprof.php:357-358 | an upper-cased character is never an ASCII lower-case letter: a-z become A-Z and every other character is unchanged |
| Php.LexLess | app/src/html/Includes/xhprof/display/xhprof.php:363 | string order is strict: no string sorts before itself |
| Php.LexPrefixBefore | app/src/html/Includes/xhprof/display/xhprof.php:363 | a proper prefix sorts before the longer string |
| Sorting.SortRows | app/src/html/Includes/xhprof/display/xhprof.php:906 | sorting returns a permutation of the rows in which every adjacent pair is in comparator order |
| Sorting.SortRowsStable | app/src/html/Includes/xhprof/display/xhprof.php:906 | rows the comparator ties come out in their input order, so tied symbols keep table order |
| Sorting.TiedPairKeepsOrder | app/src/html/Includes/xhprof/display/xhprof.php:906 | two tied rows are never swapped |
| Sorting.SortedPairwise | app/src/html/Includes/xhprof/display/xhprof.php:906 | in the sorted rows every earlier row compares non-positively with every later one |
| Sorting.SortedMeansOrdered | app/src/html/Includes/xhprof/display/xhprof.php:906 | sorted by a value column, values never increase down the table; sorted by `fn`, upper-cased names never decrease |
| Sorting.DiffSortExample | app/src/html/Includes/xhprof/display/xhprof.php:365-380 | deltas +50, -80, +10 sort to -80, +50, +10 in diff mode |
| Rows.Lookup | app/src/html/Includes/xhprof/display/xhprof.php:527 | a symbol is found exactly when some entry carries it, and what is found is that entry's statistics |
| Rows.FlatRows | app/src/html/Includes/xhprof/display/xhprof.php:900-905 | one row per table entry, in table order, with `fn` the entry's key and its statistics unchanged |
| Rows.FlatRowsAreTheTable | app/src/html/Includes/xhprof/display/xhprof.php:900-905 | each flat row carries a table key as `fn` and that key's statistics, every key has a row, and no name repeats |
| Paging.SelectRows | app/src/html/Includes/xhprof/display/xhprof.php:754-764 | limit 0 prints every row; a positive limit prints the first min(size, limit) rows in order; a negative one prints min(size, abs(limit)) rows from the end, last row first |
| Paging.PrintFlatData | app/src/html/Includes/xhprof/display/xhprof.php:718-764 | the two printing loops, with 0 read as "all rows", print exactly the selected rows |
| Paging.NegativeLimitShowsTail | app/src/html/Includes/xhprof/display/xhprof.php:759-764 | a negative limit prints exactly the rows of the tail of that length |
| Paging.PositiveLimitShowsTop | app/src/html/Includes/xhprof/display/xhprof.php:754-758 | on sorted rows, no row left out by a positive limit belongs before a printed one |
| Paging.OmittedRowsFollow | app/src/html/Includes/xhprof/display/xhprof.php:754-758 | on sorted rows, every row a positive limit leaves out compares no earlier than each printed row |
| Paging.NegativeLimitShowsBottom | app/src/html/Includes/xhprof/display/xhprof.php:759-764 | on sorted rows, no omitted row belongs after a printed one, and the printed rows run from the bottom of the order upwards |
| Paging.NegativeLimitExample | app/src/html/Includes/xhprof/display/xhprof.php:759-764 | limit -3 over ten rows prints rows 9, 8 and 7 in that order |
| Report.FullReport | app/src/html/Includes/xhprof/display/xhprof.php:900-916 | the flat report is sorted and is a sub-multiset of the table's rows; with `all` it is every row, otherwise min(size, 100) rows |
| Report.RowLimit | app/src/html/Includes/xhprof/display/xhprof.php:910-916 | the limit selects every row when `all` is requested and otherwise the first min(size, 100) rows |
| Report.FullReportShowsTop | app/src/html/Includes/xhprof/display/xhprof.php:910-916 | the 100-row report is the head of the sorted order: every row it leaves out compares no earlier than each row it shows |
| Edges.ParentRows | app/src/html/Includes/xhprof/display/xhprof.php:1278-1285 | every parent row comes from an edge into the symbol with a truthy caller, named after that caller, and every such edge yields a row |
| Edges.ChildRows | app/src/html/Includes/xhprof/display/xhprof.php:1297-1306 | every child row comes from an edge out of the symbol, named after the callee, and every such edge yields a row |
| Edges.ParentRowsOnePerEdge | app/src/html/Includes/xhprof/display/xhprof.php:1278-1285 | each parent row occurs exactly as often as there are incoming edges producing it |
| Edges.ChildRowsOnePerEdge | app/src/html/Includes/xhprof/display/xhprof.php:1297-1306 | each child row occurs exactly as often as there are outgoing edges producing it |
| Edges.ChildBaseCt | app/src/html/Includes/xhprof/display/xhprof.php:1295-1306 | the accumulated child `base_ct` equals the total call count of the child rows when calls are displayed, and 0 otherwise |
| Edges.SumCtPermutation | app/src/html/Includes/xhprof/display/xhprof.php:1303-1308 | reordering rows keeps their total call count, so sorting the children leaves `base_ct` valid |
| Report.SymbolReport | app/src/html/Includes/xhprof/display/xhprof.php:1269-1308 | parents and children are sorted permutations of the parent and child rows; the parent base is the symbol's own `ct` (0 when calls are hidden); the child base is the children's total `ct` (0 when hidden) |
| Report.ParentsAreTheCallers | app/src/html/Includes/xhprof/display/xhprof.php:1278-1286 | the parent table holds exactly the rows of incoming edges with a truthy caller, so root calls never appear |
| Report.ChildrenAreTheCallees | app/src/html/Includes/xhprof/display/xhprof.php:1295-1308 | the child table holds exactly the rows of outgoing edges, and its base is the edges' accumulated `ct` |
| Report.ProfilerReport | app/src/html/Includes/xhprof/display/xhprof.php:526-552 | a truthy symbol missing from the table gives "not found"; a present one gives the symbol report built from its own entry and the edges; no symbol gives the full flat report |
| Report.DispatchBySymbol | app/src/html/Includes/xhprof/display/xhprof.php:526-552 | an absent symbol yields only the notice; a symbol report starts from the same row the flat report lists for that symbol |
| Cells.PctCell | app/src/html/Includes/xhprof/display/xhprof.php:619-633 | "N/A%" exactly on a zero denominator; otherwise a fraction that times abs(denominator) gives the numerator, with the numerator's sign |
| Cells.DiffPercentExample | app/src/html/Includes/xhprof/display/xhprof.php:1150 | a run going from 100 to 60 shows -40%, and a delta keeps its sign over a negative base |
| Cells.Pct | app/src/html/Includes/xhprof/display/xhprof.php:561-569 | "N/A" exactly when the base is zero; otherwise within 0.05 of 100·a/b, and never of the wrong sign |
| Cells.PrintClass | app/src/html/Includes/xhprof/display/xhprof.php:578-600 | plain unless highlighted; blue when highlighted outside diff mode; in diff mode green for a delta at most 0 and red above 0 |
| Cells.DeltaColour | app/src/html/Includes/xhprof/display/xhprof.php:578-600 | the delta run2 - run1 is green exactly when run2 is no more expensive, and inverting a red diff makes it green |
| Cells.PerCall | app/src/html/Includes/xhprof/display/xhprof.php:1156-1163 | a per-call average exists exactly when the call count is positive, and times the count it gives the value back |

## Left out

- HTML assembly, links, query strings, titles, row striping, tooltips and the callgraph image: presentation only. Only the data each table shows is modelled.
- Number formatting (`xhprof_count_format`, `xhprof_percent_format`, `number_format`): locale and float printing. A percentage is the real fraction handed to the formatter.
- Cells.Pct: computed over exact reals, not PHP floats, so float rounding error before `round` is not modelled.
- Floating-point counters: metrics are integers. Aggregated runs can carry fractional counts, which the model does not represent.
- The helpers that compute the model's inputs are not part of this model: `xhprof_compute_flat_info`, `xhprof_compute_diff`, `xhprof_trim_run`, `xhprof_parse_parent_child`, `xhprof_aggregate_runs`, `init_metrics`, `xhprof_get_possible_metrics`. The symbol table and the split edges are parameters.
- Run retrieval and listing (`get_run`, `list_runs`, `displayXHProfReport`): I/O.
- PHP loose comparison: two numeric strings compared with `==` or `<` compare as numbers. Names are compared as strings here. A counter missing from a row compares as 0, not with PHP's `null` ordering.
- Compare.SortCbk: `strtoupper` is taken as ASCII-only, as in PHP 8.2 and later; strings compare by character code, which agrees with PHP's byte order for UTF-8 text.
- Per-call deltas when a run has no calls: the source subtracts the string 'N/A' from a number (xhprof.php:1166-1167). Cells.PerCall returns `None` there and no delta is modelled.
- `base_info`, the per-metric denominators of the parent/child tables, is the symbol's own statistics (`SymbolView.self`) and is not copied separately.
