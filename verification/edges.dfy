/**
 The call edges of a run and the parent/child rows `symbol_report` draws from
 them. The run is keyed by "caller==>callee"; splitting that key is done by a
 helper that is not part of this model, so an edge arrives here already split,
 with no caller for a top-level (root) invocation.
 */
module Edges {
  import opened Php
  import opened Rows

  datatype Edge = Edge(caller: Option<string>, callee: string, info: Info)

  /** A call into `sym` from a named caller; root calls and a caller named "0" are falsy in PHP. */
  predicate IsParentEdge(e: Edge, sym: string) {
    e.callee == sym && e.caller.Some? && Truthy(e.caller.value)
  }

  /** A call made by `sym`. */
  predicate IsChildEdge(e: Edge, sym: string) {
    e.caller == Some(sym)
  }

  function ParentRow(e: Edge): Row
    requires e.caller.Some?
  {
    Row(e.caller.value, e.info)
  }

  function ChildRow(e: Edge): Row {
    Row(e.callee, e.info)
  }

  lemma InitIsPrefix(edges: seq<Edge>)
    requires edges != []
    ensures forall i :: 0 <= i < |edges| - 1 ==> edges[..|edges| - 1][i] == edges[i]
    ensures forall e :: e in edges <==> e in edges[..|edges| - 1] || e == edges[|edges| - 1]
  {
    assert edges == edges[..|edges| - 1] + [edges[|edges| - 1]];
  }

  /** The callers of `sym`, one row per incoming edge, in edge order. */
  function ParentRows(edges: seq<Edge>, sym: string): (rows: seq<Row>)
    ensures forall r :: r in rows ==> Truthy(r.fn)
    ensures forall r :: r in rows ==> exists e :: e in edges && IsParentEdge(e, sym) && r == ParentRow(e)
    ensures forall e :: e in edges && IsParentEdge(e, sym) ==> ParentRow(e) in rows
  {
    if edges == [] then []
    else
      var e := edges[|edges| - 1];
      InitIsPrefix(edges);
      var rest := ParentRows(edges[..|edges| - 1], sym);
      if IsParentEdge(e, sym) then rest + [ParentRow(e)] else rest
  }

  /** The callees of `sym`, one row per outgoing edge, in edge order. */
  function ChildRows(edges: seq<Edge>, sym: string): (rows: seq<Row>)
    ensures forall r :: r in rows ==> exists e :: e in edges && IsChildEdge(e, sym) && r == ChildRow(e)
    ensures forall e :: e in edges && IsChildEdge(e, sym) ==> ChildRow(e) in rows
  {
    if edges == [] then []
    else
      var e := edges[|edges| - 1];
      InitIsPrefix(edges);
      var rest := ChildRows(edges[..|edges| - 1], sym);
      if IsChildEdge(e, sym) then rest + [ChildRow(e)] else rest
  }

  /** Positions of the edges that produce the parent row `r`. */
  ghost function ParentSources(edges: seq<Edge>, sym: string, r: Row): set<nat> {
    set i: nat | i < |edges| && IsParentEdge(edges[i], sym) && ParentRow(edges[i]) == r
  }

  ghost function ChildSources(edges: seq<Edge>, sym: string, r: Row): set<nat> {
    set i: nat | i < |edges| && IsChildEdge(edges[i], sym) && ChildRow(edges[i]) == r
  }

  lemma ParentSourcesStep(edges: seq<Edge>, sym: string, r: Row)
    requires edges != []
    ensures
      var n := |edges| - 1;
      var hit := IsParentEdge(edges[n], sym) && ParentRow(edges[n]) == r;
      && n !in ParentSources(edges[..n], sym, r)
      && ParentSources(edges, sym, r) == ParentSources(edges[..n], sym, r) + (if hit then {n} else {})
  {
    var n := |edges| - 1;
    var init := edges[..n];
    InitIsPrefix(edges);
    var before := ParentSources(init, sym, r);
    var now := ParentSources(edges, sym, r);
    forall i | i in now && i < n
      ensures i in before
    {
      assert init[i] == edges[i];
    }
    forall i | i in before
      ensures i in now && i < n
    {
      assert init[i] == edges[i];
    }
  }

  /** Exactly one parent row per incoming edge: each row occurs as often as
      there are edges producing it. */
  lemma {:induction false} ParentRowsOnePerEdge(edges: seq<Edge>, sym: string, r: Row)
    ensures multiset(ParentRows(edges, sym))[r] == |ParentSources(edges, sym, r)|
  {
    if edges == [] {
      assert ParentSources(edges, sym, r) == {};
    } else {
      var n := |edges| - 1;
      var init := edges[..n];
      ParentRowsOnePerEdge(init, sym, r);
      ParentSourcesStep(edges, sym, r);
      var rest := ParentRows(init, sym);
      if IsParentEdge(edges[n], sym) {
        assert ParentRows(edges, sym) == rest + [ParentRow(edges[n])];
        assert multiset(rest + [ParentRow(edges[n])]) == multiset(rest) + multiset{ParentRow(edges[n])};
      } else {
        assert ParentRows(edges, sym) == rest;
      }
    }
  }

  lemma ChildSourcesStep(edges: seq<Edge>, sym: string, r: Row)
    requires edges != []
    ensures
      var n := |edges| - 1;
      var hit := IsChildEdge(edges[n], sym) && ChildRow(edges[n]) == r;
      && n !in ChildSources(edges[..n], sym, r)
      && ChildSources(edges, sym, r) == ChildSources(edges[..n], sym, r) + (if hit then {n} else {})
  {
    var n := |edges| - 1;
    var init := edges[..n];
    InitIsPrefix(edges);
    var before := ChildSources(init, sym, r);
    var now := ChildSources(edges, sym, r);
    forall i | i in now && i < n
      ensures i in before
    {
      assert init[i] == edges[i];
    }
    forall i | i in before
      ensures i in now && i < n
    {
      assert init[i] == edges[i];
    }
  }

  /** Exactly one child row per outgoing edge. */
  lemma {:induction false} ChildRowsOnePerEdge(edges: seq<Edge>, sym: string, r: Row)
    ensures multiset(ChildRows(edges, sym))[r] == |ChildSources(edges, sym, r)|
  {
    if edges == [] {
      assert ChildSources(edges, sym, r) == {};
    } else {
      var n := |edges| - 1;
      var init := edges[..n];
      ChildRowsOnePerEdge(init, sym, r);
      ChildSourcesStep(edges, sym, r);
      var rest := ChildRows(init, sym);
      if IsChildEdge(edges[n], sym) {
        assert ChildRows(edges, sym) == rest + [ChildRow(edges[n])];
        assert multiset(rest + [ChildRow(edges[n])]) == multiset(rest) + multiset{ChildRow(edges[n])};
      } else {
        assert ChildRows(edges, sym) == rest;
      }
    }
  }

  function SumCt(rows: seq<Row>): int {
    if rows == [] then 0 else SumCt(rows[..|rows| - 1]) + Ct(rows[|rows| - 1])
  }

  /** `$base_ct` of the child table: the call counts of the outgoing edges, added up
      while they are collected, or 0 when call counts are not displayed. It is
      the total call count of the child rows. */
  function ChildBaseCt(edges: seq<Edge>, sym: string, displayCalls: bool): (baseCt: int)
    ensures baseCt == (if displayCalls then SumCt(ChildRows(edges, sym)) else 0)
  {
    if edges == [] then 0
    else
      var n := |edges| - 1;
      var e := edges[n];
      var rest := ChildRows(edges[..n], sym);
      assert IsChildEdge(e, sym) ==> (rest + [ChildRow(e)])[..|rest|] == rest;
      ChildBaseCt(edges[..n], sym, displayCalls)
        + (if IsChildEdge(e, sym) && displayCalls then Get(e.info, "ct") else 0)
  }

  lemma {:induction false} SumCtConcat(a: seq<Row>, b: seq<Row>)
    ensures SumCt(a + b) == SumCt(a) + SumCt(b)
    decreases |b|
  {
    if b == [] {
      assert a + b == a;
    } else {
      var m := |b| - 1;
      SumCtConcat(a, b[..m]);
      assert (a + b)[..|a + b| - 1] == a + b[..m];
    }
  }

  lemma RemoveAtKeepsRest(b: seq<Row>, i: nat)
    requires i < |b|
    ensures b == b[..i] + [b[i]] + b[i + 1..]
    ensures multiset(b[..i] + b[i + 1..]) == multiset(b) - multiset{b[i]}
  {
    assert b == b[..i] + [b[i]] + b[i + 1..];
  }

  /** Reordering rows does not change their total call count. */
  lemma {:induction false} SumCtPermutation(a: seq<Row>, b: seq<Row>)
    requires multiset(a) == multiset(b)
    ensures SumCt(a) == SumCt(b)
    decreases |a|
  {
    if a == [] {
      assert |b| == |multiset(b)| == 0;
    } else {
      var n := |a| - 1;
      var x := a[n];
      assert a == a[..n] + [x];
      assert x in multiset(b);
      var i :| 0 <= i < |b| && b[i] == x;
      var b' := b[..i] + b[i + 1..];
      RemoveAtKeepsRest(b, i);
      assert multiset(a) == multiset(a[..n]) + multiset{x};
      SumCtPermutation(a[..n], b');
      SumCtConcat(b[..i] + [x], b[i + 1..]);
      SumCtConcat(b[..i], [x]);
      SumCtConcat(b[..i], b[i + 1..]);
      assert [x][..0] == [];
    }
  }
}
