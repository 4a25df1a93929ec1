/**
 * The generic directed multigraph: a list of nodes and, per node, the list of
 * its outgoing links, each holding the position of its target and a payload.
 * Nodes are found by their first equal occurrence; positions are never shown
 * to callers.
 */
module Graph {
  import opened Wrappers

  /** `EdgeLink`: the target's position and the edge payload. */
  datatype Link<E> = Link(endpoint: nat, data: E)

  // ---------------------------------------------------------------------
  // Shape of the adjacency lists
  // ---------------------------------------------------------------------

  /** Every link of a row points below `bound`. */
  predicate RowInRange<E>(row: seq<Link<E>>, bound: nat)
  {
    forall q :: 0 <= q < |row| ==> row[q].endpoint < bound
  }

  /** One outgoing list per node, and every link targets a present position. */
  predicate WellFormed<N, E>(nodes: seq<N>, edges: seq<seq<Link<E>>>)
  {
    && |nodes| == |edges|
    && forall i :: 0 <= i < |edges| ==> RowInRange(edges[i], |nodes|)
  }

  /** `List.IndexOf`: the position of the first node equal to `n`, or -1. */
  function IndexOf<N(==)>(nodes: seq<N>, n: N): (r: int)
    ensures -1 <= r < |nodes|
    ensures r < 0 <==> n !in nodes
    ensures 0 <= r ==> nodes[r] == n
    ensures forall q :: 0 <= q < |nodes| && (r < 0 || q < r) ==> nodes[q] != n
  {
    if |nodes| == 0 then -1
    else if nodes[0] == n then 0
    else
      var k := IndexOf(nodes[1..], n);
      if k < 0 then -1 else k + 1
  }

  /** A sequence without its element at position `k`. */
  function Without<T>(s: seq<T>, k: nat): (r: seq<T>)
    requires k < |s|
    ensures |r| == |s| - 1
    ensures forall q :: 0 <= q < |r| ==> r[q] == s[if q < k then q else q + 1]
  {
    s[..k] + s[k + 1..]
  }

  // ---------------------------------------------------------------------
  // Row-level filters (`RemoveAll`, `Where`)
  // ---------------------------------------------------------------------

  /** `row.RemoveAll(edge => edge.EndpointIndex == k)`, keeping the order of the rest. */
  function DropTargeting<E>(row: seq<Link<E>>, k: nat): (r: seq<Link<E>>)
    ensures |r| <= |row|
    ensures forall q :: 0 <= q < |r| ==> r[q].endpoint != k
  {
    if |row| == 0 then []
    else (if row[0].endpoint == k then [] else [row[0]]) + DropTargeting(row[1..], k)
  }

  /** The payloads of the links of `row` that target `k`, in order. */
  function DataTo<E>(row: seq<Link<E>>, k: nat): (r: seq<E>)
    ensures |r| <= |row|
  {
    if |row| == 0 then []
    else (if row[0].endpoint == k then [row[0].data] else []) + DataTo(row[1..], k)
  }

  /** The source `src`, once per link of its row that targets `k`. */
  function FromRow<N, E>(row: seq<Link<E>>, k: nat, src: N): (r: seq<N>)
    ensures |r| == |DataTo(row, k)|
    ensures forall x :: x in r ==> x == src
  {
    if |row| == 0 then []
    else (if row[0].endpoint == k then [src] else []) + FromRow(row[1..], k, src)
  }

  /** The links of row `src` that `matcher` does not select, in order. */
  function KeepUnmatched<N, E>(nodes: seq<N>, src: N, row: seq<Link<E>>, matcher: (N, N, E) -> bool): (r: seq<Link<E>>)
    requires RowInRange(row, |nodes|)
    ensures |r| <= |row|
    ensures RowInRange(r, |nodes|)
  {
    if |row| == 0 then []
    else
      (if matcher(src, nodes[row[0].endpoint], row[0].data) then [] else [row[0]])
      + KeepUnmatched(nodes, src, row[1..], matcher)
  }

  /** `DropTargeting` removes exactly the links to `k` and keeps all others. */
  lemma {:induction false} DropTargetingMembers<E>(row: seq<Link<E>>, k: nat)
    ensures forall l :: l in DropTargeting(row, k) <==> l in row && l.endpoint != k
  {
    if |row| > 0 {
      DropTargetingMembers(row[1..], k);
      assert row == [row[0]] + row[1..];
    }
  }

  /** `RemoveAll` works link by link: dropping from two rows one after the other is dropping from each. */
  lemma {:induction false} DropTargetingConcat<E>(a: seq<Link<E>>, b: seq<Link<E>>, k: nat)
    ensures DropTargeting(a + b, k) == DropTargeting(a, k) + DropTargeting(b, k)
  {
    if |a| > 0 {
      assert (a + b)[1..] == a[1..] + b;
      DropTargetingConcat(a[1..], b, k);
    } else {
      assert a + b == b;
    }
  }

  /** A row with no link to `k` is kept as it is. */
  lemma {:induction false} DropTargetingKeeps<E>(row: seq<Link<E>>, k: nat)
    requires forall q :: 0 <= q < |row| ==> row[q].endpoint != k
    ensures DropTargeting(row, k) == row
  {
    if |row| > 0 {
      DropTargetingKeeps(row[1..], k);
      assert row == [row[0]] + row[1..];
    }
  }

  /** Each link not to `k` is kept as often as it occurs, each link to `k` not at all. */
  lemma {:induction false} DropTargetingCounts<E>(row: seq<Link<E>>, k: nat)
    ensures forall l :: multiset(DropTargeting(row, k))[l] == if l.endpoint == k then 0 else multiset(row)[l]
  {
    if |row| > 0 {
      DropTargetingCounts(row[1..], k);
      assert row == [row[0]] + row[1..];
      assert multiset(row) == multiset([row[0]]) + multiset(row[1..]);
    }
  }

  /** Dropping links never takes a row out of range. */
  lemma {:induction false} DropTargetingInRange<E>(row: seq<Link<E>>, k: nat, bound: nat)
    requires RowInRange(row, bound)
    ensures RowInRange(DropTargeting(row, k), bound)
  {
    if |row| > 0 {
      DropTargetingInRange(row[1..], k, bound);
    }
  }

  /** `DataTo` lists a payload exactly when some link to `k` carries it. */
  lemma {:induction false} DataToMembers<E>(row: seq<Link<E>>, k: nat)
    ensures forall d :: d in DataTo(row, k) ==> exists q :: 0 <= q < |row| && row[q].endpoint == k && row[q].data == d
    ensures forall q :: 0 <= q < |row| && row[q].endpoint == k ==> row[q].data in DataTo(row, k)
    ensures DataTo(row, k) == [] <==> forall q :: 0 <= q < |row| ==> row[q].endpoint != k
  {
    if |row| > 0 {
      DataToMembers(row[1..], k);
      forall q | 0 <= q < |row| && row[q].endpoint == k
        ensures row[q].data in DataTo(row, k)
      {
        if q > 0 {
          assert row[1..][q - 1] == row[q];
        }
      }
      forall d | d in DataTo(row, k)
        ensures exists q :: 0 <= q < |row| && row[q].endpoint == k && row[q].data == d
      {
        if !(row[0].endpoint == k && row[0].data == d) {
          var tail := row[1..];
          assert d in DataTo(tail, k);
          DataToMembers(tail, k);
          var q :| 0 <= q < |tail| && tail[q].endpoint == k && tail[q].data == d;
          assert row[q + 1] == tail[q];
        }
      }
      if DataTo(row, k) == [] {
        forall q | 0 <= q < |row| ensures row[q].endpoint != k {
          if q > 0 {
            assert row[1..][q - 1] == row[q];
          }
        }
      }
    }
  }

  /** Appending a link adds its payload to the end of `DataTo` when it targets `k`. */
  lemma {:induction false} DataToAppend<E>(row: seq<Link<E>>, l: Link<E>, k: nat)
    ensures DataTo(row + [l], k) == DataTo(row, k) + (if l.endpoint == k then [l.data] else [])
  {
    DataToConcat(row, [l], k);
    assert DataTo([l], k) == (if l.endpoint == k then [l.data] else []) + DataTo([l][1..], k);
  }

  /** After dropping the links to `k`, no payload to `k` is left. */
  lemma {:induction false} DataToAfterDrop<E>(row: seq<Link<E>>, k: nat)
    ensures DataTo(DropTargeting(row, k), k) == []
  {
    if |row| > 0 {
      DataToAfterDrop(row[1..], k);
      var head: seq<Link<E>> := if row[0].endpoint == k then [] else [row[0]];
      DataToConcat(head, DropTargeting(row[1..], k), k);
    }
  }

  /** `DataTo` distributes over concatenation. */
  lemma {:induction false} DataToConcat<E>(a: seq<Link<E>>, b: seq<Link<E>>, k: nat)
    ensures DataTo(a + b, k) == DataTo(a, k) + DataTo(b, k)
  {
    if |a| == 0 {
      assert a + b == b;
    } else {
      var head := if a[0].endpoint == k then [a[0].data] else [];
      assert (a + b)[0] == a[0];
      assert (a + b)[1..] == a[1..] + b;
      DataToConcat(a[1..], b, k);
      calc {
        DataTo(a + b, k);
        head + DataTo(a[1..] + b, k);
        head + (DataTo(a[1..], k) + DataTo(b, k));
        (head + DataTo(a[1..], k)) + DataTo(b, k);
        DataTo(a, k) + DataTo(b, k);
      }
    }
  }

  /** `FromRow` names the source exactly when the row has a link to `k`. */
  lemma {:induction false} FromRowMembers<N, E>(row: seq<Link<E>>, k: nat, src: N)
    ensures forall x :: x in FromRow(row, k, src) ==> x == src && exists q :: 0 <= q < |row| && row[q].endpoint == k
    ensures (exists q :: 0 <= q < |row| && row[q].endpoint == k) ==> src in FromRow(row, k, src)
  {
    if |row| > 0 {
      FromRowMembers(row[1..], k, src);
      if exists q :: 0 <= q < |row| && row[q].endpoint == k {
        var q :| 0 <= q < |row| && row[q].endpoint == k;
        if q > 0 {
          assert row[1..][q - 1] == row[q];
        }
      }
      forall x | x in FromRow(row, k, src)
        ensures exists q :: 0 <= q < |row| && row[q].endpoint == k
      {
        if row[0].endpoint != k {
          var tail := row[1..];
          assert x in FromRow(tail, k, src);
          FromRowMembers(tail, k, src);
          var q :| 0 <= q < |tail| && tail[q].endpoint == k;
          assert row[q + 1] == tail[q];
        }
      }
    }
  }

  /** `KeepUnmatched` removes exactly the links `matcher` selects. */
  lemma {:induction false} KeepUnmatchedMembers<N, E>(nodes: seq<N>, src: N, row: seq<Link<E>>, matcher: (N, N, E) -> bool)
    requires RowInRange(row, |nodes|)
    ensures forall l :: l in KeepUnmatched(nodes, src, row, matcher) <==>
      l in row && !matcher(src, nodes[l.endpoint], l.data)
  {
    if |row| > 0 {
      KeepUnmatchedMembers(nodes, src, row[1..], matcher);
      assert row == [row[0]] + row[1..];
    }
  }

  /** `RemoveAll` works link by link: filtering two rows one after the other is filtering each. */
  lemma {:induction false} KeepUnmatchedConcat<N, E>(nodes: seq<N>, src: N, a: seq<Link<E>>, b: seq<Link<E>>, matcher: (N, N, E) -> bool)
    requires RowInRange(a, |nodes|) && RowInRange(b, |nodes|)
    ensures RowInRange(a + b, |nodes|)
    ensures KeepUnmatched(nodes, src, a + b, matcher) == KeepUnmatched(nodes, src, a, matcher) + KeepUnmatched(nodes, src, b, matcher)
  {
    forall q | 0 <= q < |a + b|
      ensures (a + b)[q].endpoint < |nodes|
    {
      if q < |a| {
        assert (a + b)[q] == a[q];
      } else {
        assert (a + b)[q] == b[q - |a|];
      }
    }
    if |a| > 0 {
      assert (a + b)[1..] == a[1..] + b;
      KeepUnmatchedConcat(nodes, src, a[1..], b, matcher);
    } else {
      assert a + b == b;
    }
  }

  /** A row none of whose links the matcher selects is kept as it is. */
  lemma {:induction false} KeepUnmatchedKeeps<N, E>(nodes: seq<N>, src: N, row: seq<Link<E>>, matcher: (N, N, E) -> bool)
    requires RowInRange(row, |nodes|)
    requires forall q :: 0 <= q < |row| ==> !matcher(src, nodes[row[q].endpoint], row[q].data)
    ensures KeepUnmatched(nodes, src, row, matcher) == row
  {
    if |row| > 0 {
      KeepUnmatchedKeeps(nodes, src, row[1..], matcher);
      assert row == [row[0]] + row[1..];
    }
  }

  /** Each link the matcher rejects is kept as often as it occurs, each selected link not at all. */
  lemma {:induction false} KeepUnmatchedCounts<N, E>(nodes: seq<N>, src: N, row: seq<Link<E>>, matcher: (N, N, E) -> bool)
    requires RowInRange(row, |nodes|)
    ensures forall l ::
              multiset(KeepUnmatched(nodes, src, row, matcher))[l] ==
              if l.endpoint < |nodes| && matcher(src, nodes[l.endpoint], l.data) then 0 else multiset(row)[l]
  {
    if |row| > 0 {
      KeepUnmatchedCounts(nodes, src, row[1..], matcher);
      assert row == [row[0]] + row[1..];
      assert multiset(row) == multiset([row[0]]) + multiset(row[1..]);
    }
  }

  // ---------------------------------------------------------------------
  // Read-only queries
  // ---------------------------------------------------------------------

  /** `GetNodesFromOutgoingEdges(n)`: the target of each outgoing link of `n`, in link order. */
  function OutgoingNodes<N(==), E>(nodes: seq<N>, edges: seq<seq<Link<E>>>, n: N): (r: seq<N>)
    requires WellFormed(nodes, edges)
    ensures n !in nodes ==> r == []
    ensures n in nodes ==> |r| == |edges[IndexOf(nodes, n)]|
    ensures n in nodes ==> forall q :: 0 <= q < |r| ==> r[q] == nodes[edges[IndexOf(nodes, n)][q].endpoint]
    ensures forall q :: 0 <= q < |r| ==> r[q] in nodes
  {
    var k := IndexOf(nodes, n);
    if k < 0 then []
    else
      var row := edges[k];
      seq(|row|, q requires 0 <= q < |row| => nodes[row[q].endpoint])
  }

  /** The sources of links into position `k`, scanning rows from position `i` on. */
  function SourcesFrom<N, E>(nodes: seq<N>, edges: seq<seq<Link<E>>>, k: nat, i: nat): (r: seq<N>)
    requires |nodes| == |edges| && i <= |edges|
    ensures forall x :: x in r ==> x in nodes
    decreases |edges| - i
  {
    if i == |edges| then []
    else FromRow(edges[i], k, nodes[i]) + SourcesFrom(nodes, edges, k, i + 1)
  }

  /** `GetNodesFromIncomingEdges(n)`: each source once per link into `n`, by source position. */
  function IncomingNodes<N(==), E>(nodes: seq<N>, edges: seq<seq<Link<E>>>, n: N): (r: seq<N>)
    requires WellFormed(nodes, edges)
    ensures n !in nodes ==> r == []
    ensures forall x :: x in r ==> x in nodes
  {
    var k := IndexOf(nodes, n);
    if k < 0 then [] else SourcesFrom(nodes, edges, k, 0)
  }

  /** A node is listed from row `i` on exactly when one of those rows links it to `k`. */
  lemma {:induction false} SourcesFromMembers<N, E>(nodes: seq<N>, edges: seq<seq<Link<E>>>, k: nat, i: nat)
    requires |nodes| == |edges| && i <= |edges|
    ensures forall x :: x in SourcesFrom(nodes, edges, k, i) <==>
      exists s, q :: i <= s < |edges| && 0 <= q < |edges[s]| && nodes[s] == x && edges[s][q].endpoint == k
    decreases |edges| - i
  {
    if i < |edges| {
      SourcesFromMembers(nodes, edges, k, i + 1);
      FromRowMembers(edges[i], k, nodes[i]);
    }
  }

  /** A node is an incoming neighbour of `n` exactly when one of its rows links to `n`'s position. */
  lemma IncomingNodesMembers<N, E>(nodes: seq<N>, edges: seq<seq<Link<E>>>, n: N, x: N)
    requires WellFormed(nodes, edges)
    ensures x in IncomingNodes(nodes, edges, n) <==>
      n in nodes && exists s, q :: 0 <= s < |edges| && 0 <= q < |edges[s]| && nodes[s] == x && edges[s][q].endpoint == IndexOf(nodes, n)
  {
    if n in nodes {
      SourcesFromMembers(nodes, edges, IndexOf(nodes, n), 0);
    }
  }

  /** A node is an outgoing neighbour of `n` exactly when one of `n`'s links targets a position holding it. */
  lemma OutgoingNodesMembers<N, E>(nodes: seq<N>, edges: seq<seq<Link<E>>>, n: N, x: N)
    requires WellFormed(nodes, edges)
    ensures x in OutgoingNodes(nodes, edges, n) <==>
      n in nodes && exists q :: 0 <= q < |edges[IndexOf(nodes, n)]| && nodes[edges[IndexOf(nodes, n)][q].endpoint] == x
  {
    if n in nodes {
      var r := OutgoingNodes(nodes, edges, n);
      if exists q :: 0 <= q < |edges[IndexOf(nodes, n)]| && nodes[edges[IndexOf(nodes, n)][q].endpoint] == x {
        var q :| 0 <= q < |edges[IndexOf(nodes, n)]| && nodes[edges[IndexOf(nodes, n)][q].endpoint] == x;
        assert r[q] == x;
      }
    }
  }

  /** No node occurs twice. */
  predicate Distinct<N(==)>(nodes: seq<N>)
  {
    forall a, b :: 0 <= a < b < |nodes| ==> nodes[a] != nodes[b]
  }

  /** Among distinct nodes, `x` follows `n` exactly when `n` precedes `x`. */
  lemma OutgoingIncomingDual<N, E>(nodes: seq<N>, edges: seq<seq<Link<E>>>, n: N, x: N)
    requires WellFormed(nodes, edges) && Distinct(nodes)
    ensures x in OutgoingNodes(nodes, edges, n) <==> n in IncomingNodes(nodes, edges, x)
  {
    OutgoingNodesMembers(nodes, edges, n, x);
    IncomingNodesMembers(nodes, edges, x, n);
    if x in OutgoingNodes(nodes, edges, n) {
      var row := edges[IndexOf(nodes, n)];
      var q :| 0 <= q < |row| && nodes[row[q].endpoint] == x;
      assert row[q].endpoint == IndexOf(nodes, x);
    }
    if n in IncomingNodes(nodes, edges, x) {
      var s, q :| 0 <= s < |edges| && 0 <= q < |edges[s]| && nodes[s] == n && edges[s][q].endpoint == IndexOf(nodes, x);
      assert s == IndexOf(nodes, n);
    }
  }

  /** Row `i` repeated once per link of that row into position `k`, for rows from `i` on. */
  function RowsFrom<E>(edges: seq<seq<Link<E>>>, k: nat, i: nat): (r: seq<nat>)
    requires i <= |edges|
    ensures forall p :: 0 <= p < |r| ==> i <= r[p] < |edges|
    decreases |edges| - i
  {
    if i == |edges| then []
    else
      var a, b := FromRow(edges[i], k, i), RowsFrom(edges, k, i + 1);
      assert forall p :: 0 <= p < |a| ==> a[p] in a;
      a + b
  }

  /** The row each entry of `IncomingNodes(n)` comes from. */
  function IncomingRows<N(==), E>(nodes: seq<N>, edges: seq<seq<Link<E>>>, n: N): (r: seq<nat>)
    requires WellFormed(nodes, edges)
    ensures forall p :: 0 <= p < |r| ==> r[p] < |nodes|
  {
    var k := IndexOf(nodes, n);
    if k < 0 then [] else RowsFrom(edges, k, 0)
  }

  /** A sequence of copies of `c` holds `c` as often as it is long, and nothing else. */
  lemma {:induction false} CopiesCount(s: seq<nat>, c: nat)
    requires forall q :: 0 <= q < |s| ==> s[q] == c
    ensures multiset(s)[c] == |s|
    ensures forall d :: d != c ==> multiset(s)[d] == 0
  {
    if |s| > 0 {
      CopiesCount(s[1..], c);
      assert s == [s[0]] + s[1..];
    }
  }

  /** From row `i` on, the listed sources are the nodes at the rows `RowsFrom` lists. */
  lemma {:induction false} SourcesFromRows<N, E>(nodes: seq<N>, edges: seq<seq<Link<E>>>, k: nat, i: nat)
    requires |nodes| == |edges| && i <= |edges|
    ensures |SourcesFrom(nodes, edges, k, i)| == |RowsFrom(edges, k, i)|
    ensures forall p :: 0 <= p < |RowsFrom(edges, k, i)| ==>
      SourcesFrom(nodes, edges, k, i)[p] == nodes[RowsFrom(edges, k, i)[p]]
    decreases |edges| - i
  {
    if i < |edges| {
      SourcesFromRows(nodes, edges, k, i + 1);
      var a, b := FromRow(edges[i], k, i), RowsFrom(edges, k, i + 1);
      var a', b' := FromRow(edges[i], k, nodes[i]), SourcesFrom(nodes, edges, k, i + 1);
      assert RowsFrom(edges, k, i) == a + b;
      assert SourcesFrom(nodes, edges, k, i) == a' + b';
      forall p | 0 <= p < |a| + |b|
        ensures (a' + b')[p] == nodes[(a + b)[p]]
      {
        if p < |a| {
          assert a[p] in a && a'[p] in a';
        } else {
          assert (a + b)[p] == b[p - |a|];
        }
      }
    }
  }

  /** The rows `RowsFrom` lists ascend. */
  lemma {:induction false} RowsFromSorted<E>(edges: seq<seq<Link<E>>>, k: nat, i: nat)
    requires i <= |edges|
    ensures forall p, p' :: 0 <= p <= p' < |RowsFrom(edges, k, i)| ==> RowsFrom(edges, k, i)[p] <= RowsFrom(edges, k, i)[p']
    decreases |edges| - i
  {
    if i < |edges| {
      RowsFromSorted(edges, k, i + 1);
      var a, b := FromRow(edges[i], k, i), RowsFrom(edges, k, i + 1);
      assert RowsFrom(edges, k, i) == a + b;
      forall p, p' | 0 <= p <= p' < |a| + |b|
        ensures (a + b)[p] <= (a + b)[p']
      {
        if p < |a| {
          assert a[p] in a;
          if p' < |a| { assert a[p'] in a; } else { assert (a + b)[p'] == b[p' - |a|]; }
        } else {
          assert (a + b)[p] == b[p - |a|] && (a + b)[p'] == b[p' - |a|];
        }
      }
    }
  }

  /** Row `i`'s own block holds `i` once per link into `k`, and no other row. */
  lemma FromRowCount<E>(row: seq<Link<E>>, k: nat, i: nat)
    ensures forall s :: multiset(FromRow(row, k, i))[s] == if s == i then |DataTo(row, k)| else 0
  {
    var a := FromRow(row, k, i);
    forall q | 0 <= q < |a|
      ensures a[q] == i
    {
      assert a[q] in a;
    }
    CopiesCount(a, i);
  }

  /** Row `s` appears in `RowsFrom` once per link of that row into `k`. */
  lemma {:induction false} RowsFromCount<E>(edges: seq<seq<Link<E>>>, k: nat, i: nat)
    requires i <= |edges|
    ensures forall s :: i <= s < |edges| ==> multiset(RowsFrom(edges, k, i))[s] == |DataTo(edges[s], k)|
    decreases |edges| - i
  {
    if i < |edges| {
      RowsFromCount(edges, k, i + 1);
      FromRowCount(edges[i], k, i);
      var a, b := FromRow(edges[i], k, i), RowsFrom(edges, k, i + 1);
      var ma: multiset<nat>, mb: multiset<nat> := multiset(a), multiset(b);
      assert mb[i] == 0 by {
        assert i !in b;
      }
      assert multiset(RowsFrom(edges, k, i)) == ma + mb;
      forall s | i <= s < |edges|
        ensures (ma + mb)[s] == |DataTo(edges[s], k)|
      {
        if s == i {
          assert ma[s] == |DataTo(edges[i], k)|;
        } else {
          assert ma[s] == 0 && mb[s] == |DataTo(edges[s], k)|;
        }
      }
    }
  }

  /**
   * `IncomingNodes(n)` lists, in ascending row order, the node of row `s`
   * once per link of that row into `n`: parallel links repeat the source.
   */
  lemma IncomingNodesOrder<N, E>(nodes: seq<N>, edges: seq<seq<Link<E>>>, n: N)
    requires WellFormed(nodes, edges)
    ensures |IncomingNodes(nodes, edges, n)| == |IncomingRows(nodes, edges, n)|
    ensures forall p :: 0 <= p < |IncomingRows(nodes, edges, n)| ==>
      IncomingNodes(nodes, edges, n)[p] == nodes[IncomingRows(nodes, edges, n)[p]]
    ensures forall p, p' :: 0 <= p <= p' < |IncomingRows(nodes, edges, n)| ==>
      IncomingRows(nodes, edges, n)[p] <= IncomingRows(nodes, edges, n)[p']
    ensures n in nodes ==> forall s :: 0 <= s < |edges| ==>
      multiset(IncomingRows(nodes, edges, n))[s] == |DataTo(edges[s], IndexOf(nodes, n))|
    ensures n !in nodes ==> IncomingRows(nodes, edges, n) == []
  {
    if n in nodes {
      SourcesFromRows(nodes, edges, IndexOf(nodes, n), 0);
      RowsFromSorted(edges, IndexOf(nodes, n), 0);
      RowsFromCount(edges, IndexOf(nodes, n), 0);
    }
  }

  /** `GetAllEdgeData(start, end)`: the payloads of the start-to-end links, in insertion order. */
  function AllEdgeData<N(==), E>(nodes: seq<N>, edges: seq<seq<Link<E>>>, start: N, end: N): (r: seq<E>)
    requires WellFormed(nodes, edges)
    ensures start !in nodes || end !in nodes ==> r == []
  {
    var s, e := IndexOf(nodes, start), IndexOf(nodes, end);
    if s >= 0 && e >= 0 then DataTo(edges[s], e) else []
  }

  /** `GetEdgeData(start, end)`: the first start-to-end payload, or `null`. */
  function EdgeData<N(==), E>(nodes: seq<N>, edges: seq<seq<Link<E>>>, start: N, end: N): (r: Option<E>)
    requires WellFormed(nodes, edges)
    ensures r.None? <==> AllEdgeData(nodes, edges, start, end) == []
    ensures r.Some? ==> r.value == AllEdgeData(nodes, edges, start, end)[0]
  {
    var all := AllEdgeData(nodes, edges, start, end);
    if all == [] then None else Some(all[0])
  }

  /** There is a start-to-end payload exactly when both are present and a link joins their positions. */
  lemma EdgeDataPresent<N, E>(nodes: seq<N>, edges: seq<seq<Link<E>>>, start: N, end: N)
    requires WellFormed(nodes, edges)
    ensures EdgeData(nodes, edges, start, end).Some? <==>
      start in nodes && end in nodes &&
      exists q :: 0 <= q < |edges[IndexOf(nodes, start)]| && edges[IndexOf(nodes, start)][q].endpoint == IndexOf(nodes, end)
  {
    if start in nodes && end in nodes {
      DataToMembers(edges[IndexOf(nodes, start)], IndexOf(nodes, end));
    }
  }

  // ---------------------------------------------------------------------
  // What each mutation does to the adjacency lists
  // ---------------------------------------------------------------------

  /** A link with its target moved down by one when it lies above the removed position `k`. */
  function Shift<E>(l: Link<E>, k: nat): (r: Link<E>)
    ensures r.data == l.data
    ensures l.endpoint < k ==> r == l
    ensures l.endpoint > k ==> r.endpoint == l.endpoint - 1
  {
    if l.endpoint > k then l.(endpoint := l.endpoint - 1) else l
  }

  /** Every link of a row shifted past the removed position `k`. */
  function Renumber<E>(row: seq<Link<E>>, k: nat): (r: seq<Link<E>>)
    ensures |r| == |row|
  {
    seq(|row|, q requires 0 <= q < |row| => Shift(row[q], k))
  }

  /** The rows after removing position `k`: its own row goes, links to it go, later targets move down. */
  function RemovedRows<E>(edges: seq<seq<Link<E>>>, k: nat): (r: seq<seq<Link<E>>>)
    requires k < |edges|
    ensures |r| == |edges| - 1
  {
    var rest := Without(edges, k);
    seq(|rest|, i requires 0 <= i < |rest| => Renumber(DropTargeting(rest[i], k), k))
  }

  /** The rows after appending `l` to row `s`. */
  function AppendLink<E>(edges: seq<seq<Link<E>>>, s: nat, l: Link<E>): (r: seq<seq<Link<E>>>)
    requires s < |edges|
    ensures |r| == |edges|
  {
    edges[s := edges[s] + [l]]
  }

  /** The rows after removing every link `matcher` selects. */
  function Unmatched<N, E>(nodes: seq<N>, edges: seq<seq<Link<E>>>, matcher: (N, N, E) -> bool): (r: seq<seq<Link<E>>>)
    requires WellFormed(nodes, edges)
    ensures |r| == |edges|
  {
    seq(|edges|, i requires 0 <= i < |edges| => KeepUnmatched(nodes, nodes[i], edges[i], matcher))
  }

  /** Each link of a row, resolved to its target node and payload. */
  function Resolve<N, E>(nodes: seq<N>, row: seq<Link<E>>): (r: seq<(N, E)>)
    requires RowInRange(row, |nodes|)
    ensures |r| == |row|
  {
    seq(|row|, q requires 0 <= q < |row| => (nodes[row[q].endpoint], row[q].data))
  }

  /** Removing position `k` keeps the lists well formed. */
  lemma RemoveNodeWellFormed<N, E>(nodes: seq<N>, edges: seq<seq<Link<E>>>, k: nat)
    requires WellFormed(nodes, edges) && k < |nodes|
    ensures WellFormed(Without(nodes, k), RemovedRows(edges, k))
  {
    forall i | 0 <= i < |nodes| - 1
      ensures RowInRange(RemovedRows(edges, k)[i], |Without(nodes, k)|)
    {
      RemovedRowAt(nodes, edges, k, i);
    }
  }

  /**
   * Removing position `k` keeps the lists well formed, and every surviving
   * link still joins the same start node to the same end node with the same
   * payload, in the same order.
   */
  lemma RemoveNodeResolves<N, E>(nodes: seq<N>, edges: seq<seq<Link<E>>>, k: nat)
    requires WellFormed(nodes, edges) && k < |nodes|
    ensures WellFormed(Without(nodes, k), RemovedRows(edges, k))
    ensures forall i :: 0 <= i < k ==>
      && RowInRange(DropTargeting(edges[i], k), |nodes|)
      && Resolve(Without(nodes, k), RemovedRows(edges, k)[i]) == Resolve(nodes, DropTargeting(edges[i], k))
    ensures forall j :: k < j < |nodes| ==>
      && RowInRange(DropTargeting(edges[j], k), |nodes|)
      && Resolve(Without(nodes, k), RemovedRows(edges, k)[j - 1]) == Resolve(nodes, DropTargeting(edges[j], k))
  {
    RemoveNodeWellFormed(nodes, edges, k);
    forall i | 0 <= i < k
      ensures RowInRange(DropTargeting(edges[i], k), |nodes|)
      ensures Resolve(Without(nodes, k), RemovedRows(edges, k)[i]) == Resolve(nodes, DropTargeting(edges[i], k))
    {
      RemovedRowAt(nodes, edges, k, i);
    }
    forall j | k < j < |nodes|
      ensures RowInRange(DropTargeting(edges[j], k), |nodes|)
      ensures Resolve(Without(nodes, k), RemovedRows(edges, k)[j - 1]) == Resolve(nodes, DropTargeting(edges[j], k))
    {
      RemovedRowAbove(nodes, edges, k, j);
    }
  }

  /** A row above the removed position moves down by one and resolves as it did. */
  lemma RemovedRowAbove<N, E>(nodes: seq<N>, edges: seq<seq<Link<E>>>, k: nat, j: nat)
    requires WellFormed(nodes, edges) && k < j < |nodes|
    ensures RowInRange(DropTargeting(edges[j], k), |nodes|)
    ensures Resolve(Without(nodes, k), RemovedRows(edges, k)[j - 1]) == Resolve(nodes, DropTargeting(edges[j], k))
  {
    RemovedRowAt(nodes, edges, k, j - 1);
  }

  /** Row `i` after removing position `k` is the row it came from, renumbered. */
  lemma RemovedRowAt<N, E>(nodes: seq<N>, edges: seq<seq<Link<E>>>, k: nat, i: nat)
    requires WellFormed(nodes, edges) && k < |nodes| && i < |nodes| - 1
    ensures var was := if i < k then i else i + 1;
      && RowInRange(DropTargeting(edges[was], k), |nodes|)
      && RowInRange(RemovedRows(edges, k)[i], |nodes| - 1)
      && Resolve(Without(nodes, k), RemovedRows(edges, k)[i]) == Resolve(nodes, DropTargeting(edges[was], k))
  {
    var was := if i < k then i else i + 1;
    assert Without(edges, k)[i] == edges[was];
    RemovedRowResolves(nodes, edges[was], k);
    assert RemovedRows(edges, k)[i] == Renumber(DropTargeting(edges[was], k), k);
  }

  /** One row of `RemoveNodeResolves`. */
  lemma RemovedRowResolves<N, E>(nodes: seq<N>, row: seq<Link<E>>, k: nat)
    requires RowInRange(row, |nodes|) && k < |nodes|
    ensures RowInRange(DropTargeting(row, k), |nodes|)
    ensures RowInRange(Renumber(DropTargeting(row, k), k), |nodes| - 1)
    ensures Resolve(Without(nodes, k), Renumber(DropTargeting(row, k), k)) == Resolve(nodes, DropTargeting(row, k))
  {
    var kept := DropTargeting(row, k);
    DropTargetingMembers(row, k);
    DropTargetingInRange(row, k, |nodes|);
    var moved := Renumber(kept, k);
    forall q | 0 <= q < |kept|
      ensures kept[q].endpoint < |nodes| && kept[q].endpoint != k
      ensures moved[q].endpoint < |nodes| - 1
      ensures Without(nodes, k)[moved[q].endpoint] == nodes[kept[q].endpoint]
    {
      assert kept[q] in kept;
    }
  }

  /** Removing `matcher`'s links keeps the lists well formed. */
  lemma UnmatchedWellFormed<N, E>(nodes: seq<N>, edges: seq<seq<Link<E>>>, matcher: (N, N, E) -> bool)
    requires WellFormed(nodes, edges)
    ensures WellFormed(nodes, Unmatched(nodes, edges, matcher))
    ensures forall i, l :: 0 <= i < |edges| ==>
      (l in Unmatched(nodes, edges, matcher)[i] <==> l in edges[i] && !matcher(nodes[i], nodes[l.endpoint], l.data))
  {
    forall i | 0 <= i < |edges|
      ensures RowInRange(Unmatched(nodes, edges, matcher)[i], |nodes|)
      ensures forall l :: l in Unmatched(nodes, edges, matcher)[i] <==> l in edges[i] && !matcher(nodes[i], nodes[l.endpoint], l.data)
    {
      KeepUnmatchedMembers(nodes, nodes[i], edges[i], matcher);
      var r := Unmatched(nodes, edges, matcher)[i];
      forall q | 0 <= q < |r| ensures r[q].endpoint < |nodes| {
        assert r[q] in r;
      }
    }
  }

  /**
   * Appending a link from `start` to `end` adds its payload at the end of
   * `AllEdgeData(start, end)` and changes no other pair's payloads.
   */
  lemma ConnectAppendsEdgeData<N, E>(nodes: seq<N>, edges: seq<seq<Link<E>>>, start: N, end: N, d: E, a: N, b: N)
    requires WellFormed(nodes, edges) && start in nodes && end in nodes
    ensures WellFormed(nodes, AppendLink(edges, IndexOf(nodes, start), Link(IndexOf(nodes, end), d)))
    ensures var after := AppendLink(edges, IndexOf(nodes, start), Link(IndexOf(nodes, end), d));
      AllEdgeData(nodes, after, a, b) ==
        AllEdgeData(nodes, edges, a, b) + (if a in nodes && IndexOf(nodes, a) == IndexOf(nodes, start) && IndexOf(nodes, b) == IndexOf(nodes, end) then [d] else [])
  {
    var s, e := IndexOf(nodes, start), IndexOf(nodes, end);
    var after := AppendLink(edges, s, Link(e, d));
    assert forall i :: 0 <= i < |after| && i != s ==> after[i] == edges[i];
    if a in nodes && b in nodes && IndexOf(nodes, a) == s {
      DataToAppend(edges[s], Link(e, d), IndexOf(nodes, b));
    }
  }

  /**
   * `Disconnect(start, end)` leaves no start-to-end payload, and it removes
   * something exactly when there was one.
   */
  lemma DisconnectClearsEdgeData<N, E>(nodes: seq<N>, edges: seq<seq<Link<E>>>, start: N, end: N)
    requires WellFormed(nodes, edges) && start in nodes && end in nodes
    ensures var s, e := IndexOf(nodes, start), IndexOf(nodes, end);
      && WellFormed(nodes, edges[s := DropTargeting(edges[s], e)])
      && AllEdgeData(nodes, edges[s := DropTargeting(edges[s], e)], start, end) == []
      && ((exists q :: 0 <= q < |edges[s]| && edges[s][q].endpoint == e) <==> AllEdgeData(nodes, edges, start, end) != [])
  {
    var s, e := IndexOf(nodes, start), IndexOf(nodes, end);
    DropTargetingMembers(edges[s], e);
    DropTargetingInRange(edges[s], e, |nodes|);
    DataToAfterDrop(edges[s], e);
    DataToMembers(edges[s], e);
    var kept := DropTargeting(edges[s], e);
    forall q | 0 <= q < |kept| ensures kept[q].endpoint < |nodes| {
      assert kept[q] in kept;
    }
  }

  // ---------------------------------------------------------------------
  // The graph object
  // ---------------------------------------------------------------------

  /** `Graph<Node, Edge>`: the two parallel lists the methods update in place. */
  class Graph<N(==), E> {
    var nodes: seq<N>
    var edges: seq<seq<Link<E>>>

    ghost predicate Valid()
      reads this
    {
      WellFormed(nodes, edges)
    }

    constructor ()
      ensures Valid() && nodes == [] && edges == []
    {
      nodes, edges := [], [];
    }

    /** `Clear()`: both lists replaced by empty ones. */
    method Clear()
      modifies this
      ensures Valid() && nodes == [] && edges == []
    {
      nodes := [];
      edges := [];
    }

    /** `AddNode(n)`: appends the node (duplicates allowed) and an empty outgoing list. */
    method AddNode(n: N)
      requires Valid()
      modifies this
      ensures Valid()
      ensures nodes == old(nodes) + [n] && edges == old(edges) + [[]]
    {
      nodes := nodes + [n];
      edges := edges + [[]];
    }

    /**
     * `RemoveNode(n)`: nothing happens when `n` is absent; otherwise the first
     * equal node and its row go, then every row drops its links to that
     * position and moves later targets down by one.
     */
    method RemoveNode(n: N)
      requires Valid()
      modifies this
      ensures Valid()
      ensures n !in old(nodes) ==> nodes == old(nodes) && edges == old(edges)
      ensures n in old(nodes) ==>
        var k := IndexOf(old(nodes), n);
        nodes == Without(old(nodes), k) && edges == RemovedRows(old(edges), k)
    {
      var k := IndexOf(nodes, n);
      if k >= 0 {
        RemoveNodeWellFormed(nodes, edges, k);
        ghost var rest := Without(edges, k);
        nodes := Without(nodes, k);
        edges := Without(edges, k);
        var s := 0;
        while s < |edges|
          invariant 0 <= s <= |edges| == |rest|
          invariant nodes == Without(old(nodes), k)
          invariant forall i :: 0 <= i < s ==> edges[i] == Renumber(DropTargeting(rest[i], k), k)
          invariant forall i :: s <= i < |edges| ==> edges[i] == rest[i]
        {
          var row := DropTargeting(edges[s], k);
          ghost var kept := row;
          var j := 0;
          while j < |row|
            invariant 0 <= j <= |row| == |kept|
            invariant forall q :: 0 <= q < j ==> row[q] == Shift(kept[q], k)
            invariant forall q :: j <= q < |row| ==> row[q] == kept[q]
          {
            if row[j].endpoint > k {
              row := row[j := row[j].(endpoint := row[j].endpoint - 1)];
            }
            j := j + 1;
          }
          assert row == Renumber(kept, k);
          edges := edges[s := row];
          s := s + 1;
        }
        assert edges == RemovedRows(old(edges), k);
      }
    }

    /**
     * `Connect(start, end, data)`: fails without change when either node is
     * absent; otherwise appends one link to the end of start's row.
     */
    method Connect(start: N, end: N, data: E) returns (ok: bool)
      requires Valid()
      modifies this
      ensures Valid() && nodes == old(nodes)
      ensures ok <==> start in nodes && end in nodes
      ensures ok ==> edges == AppendLink(old(edges), IndexOf(nodes, start), Link(IndexOf(nodes, end), data))
      ensures !ok ==> edges == old(edges)
    {
      var s, e := IndexOf(nodes, start), IndexOf(nodes, end);
      if s >= 0 && e >= 0 {
        ConnectAppendsEdgeData(nodes, edges, start, end, data, start, end);
        edges := edges[s := edges[s] + [Link(e, data)]];
        ok := true;
      } else {
        ok := false;
      }
    }

    /**
     * `Disconnect(start, end)`: drops every start-to-end link from start's row;
     * reports whether any was there.
     */
    method Disconnect(start: N, end: N) returns (removed: bool)
      requires Valid()
      modifies this
      ensures Valid() && nodes == old(nodes)
      ensures removed <==> old(AllEdgeData(nodes, edges, start, end)) != []
      ensures AllEdgeData(nodes, edges, start, end) == []
      ensures start in nodes && end in nodes ==>
        var s, e := IndexOf(nodes, start), IndexOf(nodes, end);
        edges == old(edges)[s := DropTargeting(old(edges)[s], e)]
      ensures start !in nodes || end !in nodes ==> edges == old(edges)
    {
      var s, e := IndexOf(nodes, start), IndexOf(nodes, end);
      if s >= 0 && e >= 0 {
        DisconnectClearsEdgeData(nodes, edges, start, end);
        var before := |edges[s]|;
        var kept := DropTargeting(edges[s], e);
        DropTargetingCount(edges[s], e);
        edges := edges[s := kept];
        removed := before - |kept| > 0;
      } else {
        removed := false;
      }
    }

    /** `DisconnectAll(matcher)`: every row drops the links `matcher` selects. */
    method DisconnectAll(matcher: (N, N, E) -> bool)
      requires Valid()
      modifies this
      ensures Valid() && nodes == old(nodes)
      ensures edges == Unmatched(nodes, old(edges), matcher)
    {
      ghost var before := edges;
      var i := 0;
      while i < |edges|
        invariant 0 <= i <= |edges| == |before|
        invariant nodes == old(nodes) && WellFormed(nodes, before)
        invariant forall r :: 0 <= r < i ==> edges[r] == Unmatched(nodes, before, matcher)[r]
        invariant forall r :: i <= r < |edges| ==> edges[r] == before[r]
      {
        edges := edges[i := KeepUnmatched(nodes, nodes[i], edges[i], matcher)];
        i := i + 1;
      }
      UnmatchedWellFormed(nodes, before, matcher);
    }
  }

  /** `RemoveAll` reports a positive count exactly when some link targeted `k`. */
  lemma {:induction false} DropTargetingCount<E>(row: seq<Link<E>>, k: nat)
    ensures |DropTargeting(row, k)| < |row| <==> exists q :: 0 <= q < |row| && row[q].endpoint == k
  {
    if |row| > 0 {
      DropTargetingCount(row[1..], k);
      if exists q :: 0 <= q < |row| && row[q].endpoint == k {
        var q :| 0 <= q < |row| && row[q].endpoint == k;
        if q > 0 {
          assert row[1..][q - 1] == row[q];
        }
      }
      if exists q :: 0 <= q < |row[1..]| && row[1..][q].endpoint == k {
        var q :| 0 <= q < |row[1..]| && row[1..][q].endpoint == k;
        assert row[q + 1] == row[1..][q];
      }
    }
  }
}
