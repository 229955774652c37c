/** The node columns `rank_ranks(..., to_pandas=True)` adds to the ranks
    table: one column per ranking node except node 0, named after the node
    and its weight, with " #n" appended to the n-th repeat of a name, holding
    one rank per stock. */
module Ranks {
  import opened Http
  import opened Text

  /** The `nodes` object of a ranks response: node names, node weights
      (already rendered as text) and one row of node ranks per stock. */
  datatype Nodes<R> = Nodes(names: seq<string>, weights: seq<string>, ranks: seq<seq<R>>)

  datatype Column<R> = Column(name: string, values: seq<R>)

  /** "<name> (<weight>%)". */
  function BaseName(name: string, weight: string): (b: string)
    ensures |b| > 0 && b[|b| - 1] == ')'
  {
    name + " (" + weight + "%)"
  }

  /** Every list index the column loop reads exists, for `uidCount` stocks:
      a weight for each node after the first, and a rank for each such node in
      each stock's row. */
  predicate InBounds<R>(nodes: Nodes<R>, uidCount: nat) {
    |nodes.names| <= 1
    || (&& |nodes.weights| >= |nodes.names|
        && (uidCount == 0
            || (uidCount <= |nodes.ranks| && forall u :: 0 <= u < uidCount ==> |nodes.ranks[u]| >= |nodes.names|)))
  }

  function BaseAt<R>(nodes: Nodes<R>, i: nat): string
    requires i < |nodes.names| && i < |nodes.weights|
  {
    BaseName(nodes.names[i], nodes.weights[i])
  }

  /** How many of the nodes 1 .. j - 1 have base name `b`. */
  function Count<R>(nodes: Nodes<R>, b: string, j: nat): nat
    requires j <= 1 || (j <= |nodes.names| && j <= |nodes.weights|)
  {
    if j <= 1 then 0 else Count(nodes, b, j - 1) + (if BaseAt(nodes, j - 1) == b then 1 else 0)
  }

  /** The name of node `j`'s column: its base name, suffixed " #n" when `n`
      earlier nodes (node 0 not counted) share that base name. */
  function ColumnName<R>(nodes: Nodes<R>, j: nat): string
    requires 1 <= j < |nodes.names| && j < |nodes.weights|
  {
    var b := BaseAt(nodes, j);
    var n := Count(nodes, b, j);
    if n == 0 then b else b + " #" + NatToString(n)
  }

  /** The ranks of node `j`, one per stock. */
  predicate RanksOf<R(==)>(nodes: Nodes<R>, j: nat, uidCount: nat, values: seq<R>) {
    && |values| == uidCount
    && uidCount <= |nodes.ranks|
    && forall u :: 0 <= u < uidCount ==> j < |nodes.ranks[u]| && values[u] == nodes.ranks[u][j]
  }

  /** Every stock's row has a rank for node `j`. */
  predicate RowsReach<R>(nodes: Nodes<R>, j: nat, uidCount: nat) {
    uidCount == 0 || (uidCount <= |nodes.ranks| && forall u :: 0 <= u < uidCount ==> j < |nodes.ranks[u]|)
  }

  /** The inner loop of `rank_ranks` gathering node `j`'s rank of each stock;
      `None` when a row or a rank is missing. */
  method NodeRanks<R(==)>(nodes: Nodes<R>, j: nat, uidCount: nat) returns (values: Option<seq<R>>)
    ensures values.Some? <==> RowsReach(nodes, j, uidCount)
    ensures values.Some? ==> RanksOf(nodes, j, uidCount, values.value)
  {
    var acc: seq<R> := [];
    var u := 0;
    while u < uidCount
      invariant u <= uidCount
      invariant u <= |nodes.ranks|
      invariant |acc| == u
      invariant forall v :: 0 <= v < u ==> j < |nodes.ranks[v]| && acc[v] == nodes.ranks[v][j]
    {
      if u >= |nodes.ranks| || j >= |nodes.ranks[u]| {
        return None;
      }
      acc := acc + [nodes.ranks[u][j]];
      u := u + 1;
    }
    return Some(acc);
  }

  /** `seen` maps each base name among nodes 1 .. j - 1 to its number of
      repeats so far, and holds no other name. */
  ghost predicate Tracks<R>(nodes: Nodes<R>, j: nat, seen: map<string, nat>)
    requires j <= 1 || (j <= |nodes.names| && j <= |nodes.weights|)
  {
    forall b :: (b in seen <==> Count(nodes, b, j) > 0) && (b in seen ==> seen[b] == Count(nodes, b, j) - 1)
  }

  /** Columns `out` are those of nodes 1 .. |out|. */
  predicate ColumnsUpTo<R(==)>(nodes: Nodes<R>, uidCount: nat, out: seq<Column<R>>) {
    forall c {:trigger out[c]} :: 0 <= c < |out| ==>
      c + 1 < |nodes.weights| && c + 1 < |nodes.names| && out[c].name == ColumnName(nodes, c + 1)
      && RanksOf(nodes, c + 1, uidCount, out[c].values)
  }

  lemma ColumnsExtend<R>(nodes: Nodes<R>, uidCount: nat, out: seq<Column<R>>, col: Column<R>)
    requires ColumnsUpTo(nodes, uidCount, out)
    requires |out| + 1 < |nodes.names| && |out| + 1 < |nodes.weights|
    requires col.name == ColumnName(nodes, |out| + 1)
    requires RanksOf(nodes, |out| + 1, uidCount, col.values)
    ensures ColumnsUpTo(nodes, uidCount, out + [col])
  {
    var out' := out + [col];
    forall c | 0 <= c < |out'|
      ensures c + 1 < |nodes.weights| && c + 1 < |nodes.names| && out'[c].name == ColumnName(nodes, c + 1)
      ensures RanksOf(nodes, c + 1, uidCount, out'[c].values)
    {
      if c < |out| {
        assert out'[c] == out[c];
      }
    }
  }

  /** A stock whose row stops before node `i` has no rank for a later node. */
  lemma MissingRankStaysMissing<R>(nodes: Nodes<R>, i: nat, j: nat, uidCount: nat)
    requires i <= j
    requires !RowsReach(nodes, i, uidCount)
    ensures !RowsReach(nodes, j, uidCount)
  {
  }

  /** With more than one node, the loop's bounds are a weight per node and a
      rank of the last node in every stock's row. */
  lemma InBoundsByLastNode<R>(nodes: Nodes<R>, uidCount: nat)
    requires |nodes.names| > 1
    ensures InBounds(nodes, uidCount)
        <==> |nodes.weights| >= |nodes.names| && RowsReach(nodes, |nodes.names| - 1, uidCount)
  {
  }

  /** Naming node `j` from `seen` gives its column name and the map for the
      next node. */
  lemma TracksStep<R>(nodes: Nodes<R>, j: nat, seen: map<string, nat>, seen': map<string, nat>, name: string)
    requires 1 <= j < |nodes.names| && j < |nodes.weights|
    requires Tracks(nodes, j, seen)
    requires var b := BaseAt(nodes, j);
      && (b in seen ==> seen' == seen[b := seen[b] + 1] && name == b + " #" + NatToString(seen[b] + 1))
      && (b !in seen ==> seen' == seen[b := 0] && name == b)
    ensures Tracks(nodes, j + 1, seen')
    ensures name == ColumnName(nodes, j)
  {
  }

  /** The node-column loop of `rank_ranks`, `names` being its map from a base
      name to the number of repeats seen so far. An index out of range raises,
      which ends the whole conversion: `None`. */
  method NodeColumns<R(==)>(nodes: Nodes<R>, uidCount: nat) returns (cols: Option<seq<Column<R>>>)
    ensures cols.Some? <==> InBounds(nodes, uidCount)
    ensures cols.Some? ==> |cols.value| == (if |nodes.names| == 0 then 0 else |nodes.names| - 1)
    ensures cols.Some? ==> ColumnsUpTo(nodes, uidCount, cols.value)
    ensures cols.Some? ==> DistinctNames(cols.value)
  {
    var seen: map<string, nat> := map[];
    var out: seq<Column<R>> := [];
    var j := 0;
    while j < |nodes.names|
      invariant j <= |nodes.names|
      invariant j <= 1 || j <= |nodes.weights|
      invariant |out| == (if j == 0 then 0 else j - 1)
      invariant j <= 1 || RowsReach(nodes, j - 1, uidCount)
      invariant Tracks(nodes, j, seen)
      invariant ColumnsUpTo(nodes, uidCount, out)
    {
      if j > 0 {
        if j >= |nodes.weights| {
          InBoundsByLastNode(nodes, uidCount);
          return None;
        }
        var base := BaseName(nodes.names[j], nodes.weights[j]);
        var name := base;
        ghost var before := seen;
        if base in seen {
          var idx := seen[base] + 1;
          seen := seen[base := idx];
          name := base + " #" + NatToString(idx);
        } else {
          seen := seen[base := 0];
        }
        TracksStep(nodes, j, before, seen, name);
        var values := NodeRanks(nodes, j, uidCount);
        if values.None? {
          MissingRankStaysMissing(nodes, j, |nodes.names| - 1, uidCount);
          InBoundsByLastNode(nodes, uidCount);
          return None;
        }
        ColumnsExtend(nodes, uidCount, out, Column(name, values.value));
        out := out + [Column(name, values.value)];
      }
      j := j + 1;
    }
    if |nodes.names| > 1 {
      InBoundsByLastNode(nodes, uidCount);
    }
    ColumnsDistinct(nodes, uidCount, out);
    return Some(out);
  }

  /** What `ColumnsUpTo` says of one column. */
  lemma ColumnAt<R>(nodes: Nodes<R>, uidCount: nat, out: seq<Column<R>>, c: nat)
    requires ColumnsUpTo(nodes, uidCount, out) && c < |out|
    ensures c + 1 < |nodes.weights| && c + 1 < |nodes.names| && out[c].name == ColumnName(nodes, c + 1)
  {
    assert out[c] == out[c];
  }

  /** No two columns share a name, so none overwrites another in the table. */
  predicate DistinctNames<R>(cols: seq<Column<R>>) {
    forall c, c' :: 0 <= c < c' < |cols| ==> cols[c].name != cols[c'].name
  }

  lemma ColumnsDistinct<R>(nodes: Nodes<R>, uidCount: nat, out: seq<Column<R>>)
    requires ColumnsUpTo(nodes, uidCount, out)
    ensures DistinctNames(out)
  {
    forall c, c' | 0 <= c < c' < |out|
      ensures out[c].name != out[c'].name
    {
      ColumnAt(nodes, uidCount, out, c);
      ColumnAt(nodes, uidCount, out, c');
      ColumnNamesDistinct(nodes, c + 1, c' + 1);
    }
  }

  predicate AllDigits(d: string) {
    forall k :: 0 <= k < |d| ==> IsDigit(d[k])
  }

  /** Index of the last `c` in `s`, or -1. */
  function LastIndexOf(s: string, c: char): int {
    if |s| == 0 then -1
    else if s[|s| - 1] == c then |s| - 1
    else LastIndexOf(s[..|s| - 1], c)
  }

  /** In "<base> #<digits>" the last "#" is the one before the digits. */
  lemma {:induction false} LastHashBeforeDigits(b: string, d: string)
    requires AllDigits(d)
    ensures LastIndexOf(b + " #" + d, '#') == |b| + 1
    decreases |d|
  {
    if |d| > 0 {
      var s := b + " #" + d;
      var d' := d[..|d| - 1];
      assert s[..|s| - 1] == b + " #" + d';
      LastHashBeforeDigits(b, d');
    }
  }

  lemma NatToStringDistinct(n: nat, m: nat)
    requires n != m
    ensures NatToString(n) != NatToString(m)
  {
    if NatToString(n) == NatToString(m) {
      NatToStringInjective(n, m);
    }
  }

  lemma {:induction false} CountGrows<R>(nodes: Nodes<R>, i: nat, k: nat)
    requires 1 <= i < k <= |nodes.names| && k <= |nodes.weights|
    ensures Count(nodes, BaseAt(nodes, i), k) >= Count(nodes, BaseAt(nodes, i), i) + 1
    decreases k
  {
    if k > i + 1 {
      CountGrows(nodes, i, k - 1);
    }
  }

  /** No two node columns get the same name, so none overwrites another. */
  lemma ColumnNamesDistinct<R>(nodes: Nodes<R>, i: nat, k: nat)
    requires 1 <= i < k < |nodes.names| && k < |nodes.weights|
    ensures ColumnName(nodes, i) != ColumnName(nodes, k)
  {
    var bi, bk := BaseAt(nodes, i), BaseAt(nodes, k);
    var ni, nk := Count(nodes, bi, i), Count(nodes, bk, k);
    var xi, xk := ColumnName(nodes, i), ColumnName(nodes, k);
    if bi == bk {
      CountGrows(nodes, i, k);
      var sk := NatToString(nk);
      assert xk == bk + " #" + sk;
      if ni == 0 {
        assert |xi| < |xk|;
      } else {
        var si := NatToString(ni);
        NatToStringDistinct(ni, nk);
        assert xi[|bi| + 2..] == si;
        assert xk[|bk| + 2..] == sk;
      }
    } else if ni > 0 && nk > 0 {
      LastHashBeforeDigits(bi, NatToString(ni));
      LastHashBeforeDigits(bk, NatToString(nk));
      if |bi| == |bk| {
        assert xi[..|bi|] == bi;
        assert xk[..|bk|] == bk;
      }
    } else if ni > 0 {
      assert IsDigit(xi[|xi| - 1]);
      assert xk[|xk| - 1] == ')';
    } else if nk > 0 {
      assert IsDigit(xk[|xk| - 1]);
      assert xi[|xi| - 1] == ')';
    }
  }
}
