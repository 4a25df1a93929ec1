/**
 * The dataflow graph: a `Graph` whose nodes are process steps and whose
 * edges name an output port of the source and an input port of the target,
 * with connect-time validation and the demand-driven, memoized recompute.
 */
module ProcessGraph {
  import opened Wrappers
  import opened Types
  import opened ProcessStep
  import G = Graph

  /** A reference to a step object; equality of handles is reference equality. */
  type StepId = nat

  /** `NodePortReference`: the source's output port name and the target's input port name. */
  datatype PortRef = PortRef(fromPort: string, toPort: string)

  /** The `ArgumentException`s `Connect` throws, one per failed check. */
  datatype ConnectError =
    | MissingReference
    | MissingOutputName
    | MissingInputName
    | UnknownOutputPort(output: string)
    | UnknownInputPort(input: string)
    | TypeMismatch(outputType: Ty, inputType: Ty)

  /**
   * A step's own `Recalculate()`: from the step and its input ports, the value
   * to store into each output port (`None` stores nothing).
   */
  type Oracle = (StepId, seq<Port>) -> seq<Option<Value>>

  // ---------------------------------------------------------------------
  // What one step of the evaluation does to a step's ports
  // ---------------------------------------------------------------------

  /** The input ports of a step, none when the collection is absent. */
  function InputsOf(s: Step): seq<Port>
  {
    if s.inputs.None? then [] else s.inputs.value
  }

  /** Stores the `j`-th value, when there is one, into the `j`-th output port. */
  function ApplyStores(outs: seq<Port>, stores: seq<Option<Value>>): (r: seq<Port>)
    ensures |r| == |outs|
  {
    seq(|outs|, j requires 0 <= j < |outs| =>
      if j < |stores| && stores[j].Some? then Store(outs[j], stores[j].value) else outs[j])
  }

  /** `node.Recalculate()`: the step's outputs receive what the oracle computes from its inputs. */
  function RunStep(compute: Oracle, n: StepId, s: Step): (r: Step)
    ensures r.inputs == s.inputs
  {
    if s.outputs.None? then s
    else s.(outputs := Some(ApplyStores(s.outputs.value, compute(n, InputsOf(s)))))
  }

  /** Every output receives a value it accepts. */
  predicate FillsWith(stores: seq<Option<Value>>, outs: Option<seq<Port>>)
  {
    outs.Some? ==>
      && |stores| >= |outs.value|
      && forall j :: 0 <= j < |outs.value| ==> stores[j].Some? && CanStoreValue(outs.value[j], stores[j].value)
  }

  /** Whatever its inputs, step `n`'s `Recalculate` fills every output of a step shaped like `s`. */
  ghost predicate Fills(compute: Oracle, n: StepId, s: Step)
  {
    forall ins: seq<Port> {:trigger FillsWith(compute(n, ins), Cleared(s).outputs)} :: FillsWith(compute(n, ins), Cleared(s).outputs)
  }

  /** A step whose `Recalculate` fills its outputs is cached afterwards. */
  lemma RunStepCaches(compute: Oracle, n: StepId, s: Step)
    requires Fills(compute, n, s)
    ensures Cached(RunStep(compute, n, s))
  {
    assert FillsWith(compute(n, InputsOf(s)), Cleared(s).outputs);
  }

  /** A port collection with the same ports, and at least the values, of another. */
  predicate PortsGrow(a: Option<seq<Port>>, b: Option<seq<Port>>)
  {
    && a.Some? == b.Some?
    && (a.Some? ==>
         && |a.value| == |b.value|
         && forall q :: 0 <= q < |a.value| && a.value[q].hasValue ==> b.value[q].hasValue)
  }

  /** Step `b` has the ports of `a`, and every port holding a value in `a` holds one in `b`. */
  predicate Grows(a: Step, b: Step)
  {
    Cleared(a) == Cleared(b) && PortsGrow(a.inputs, b.inputs) && PortsGrow(a.outputs, b.outputs)
  }

  /** Growing keeps a cached step cached and is transitive. */
  lemma GrowsKeepsCached(a: Step, b: Step, c: Step)
    ensures Grows(a, b) && Cached(a) ==> Cached(b)
    ensures Grows(a, b) && Grows(b, c) ==> Grows(a, c)
    ensures Grows(a, a)
  {
  }

  /** Storing into one port keeps the shape of a collection. */
  lemma StoreKeepsShape(ports: seq<Port>, i: nat, v: Value)
    requires i < |ports|
    ensures ClearAll(ports[i := Store(ports[i], v)]) == ClearAll(ports)
  {
    var a, b := ClearAll(ports[i := Store(ports[i], v)]), ClearAll(ports);
    assert forall q :: 0 <= q < |a| ==> a[q] == b[q];
  }

  /** Running a step keeps its shape and only adds values. */
  lemma RunStepGrows(compute: Oracle, n: StepId, s: Step)
    ensures Grows(s, RunStep(compute, n, s))
  {
    if s.outputs.Some? {
      var outs := s.outputs.value;
      var a, b := ClearAll(ApplyStores(outs, compute(n, InputsOf(s)))), ClearAll(outs);
      assert forall q :: 0 <= q < |a| ==> a[q] == b[q];
      assert a == b;
      assert Cleared(RunStep(compute, n, s)) == Cleared(s);
    }
  }

  /**
   * One edge delivered: the first input of `target` named `ref.toPort`
   * stores the fetched value of the first output of `source` named
   * `ref.fromPort`, when both ports exist.
   */
  function Deliver(target: Step, source: Step, ref: PortRef): (r: Step)
    ensures Grows(target, r) && r.outputs == target.outputs
  {
    if target.inputs.None? || source.outputs.None? then target
    else
      var ins := target.inputs.value;
      var i := FirstIndex(ins, ref.toPort);
      var o := Lookup(source.outputs.value, ref.fromPort);
      if i < 0 || o.None? then target
      else
        StoreKeepsShape(ins, i, Fetch(o.value));
        target.(inputs := Some(ins[i := Store(ins[i], Fetch(o.value))]))
  }

  /** The edges of `refs` delivered one after another. */
  function DeliverRefs(target: Step, source: Step, refs: seq<PortRef>): (r: Step)
    ensures Grows(target, r) && r.outputs == target.outputs
    decreases |refs|
  {
    if refs == [] then target
    else Deliver(DeliverRefs(target, source, refs[..|refs| - 1]), source, refs[|refs| - 1])
  }

  /** For each listed predecessor in turn, every edge from it into `n` delivered. */
  function DeliverAll(target: Step, xs: seq<StepId>, steps: map<StepId, Step>,
                      nodes: seq<StepId>, edges: seq<seq<G.Link<PortRef>>>, n: StepId): (r: Step)
    requires G.WellFormed(nodes, edges)
    requires forall a :: 0 <= a < |xs| ==> xs[a] in steps
    ensures Grows(target, r) && r.outputs == target.outputs
    decreases |xs|
  {
    if xs == [] then target
    else
      var x := xs[|xs| - 1];
      DeliverRefs(DeliverAll(target, xs[..|xs| - 1], steps, nodes, edges, n), steps[x], G.AllEdgeData(nodes, edges, x, n))
  }

  /**
   * Delivering an edge whose two ports exist stores the source output's
   * `Fetch()` into the target's first input of that name, if it accepts it.
   */
  lemma DeliverStores(target: Step, source: Step, ref: PortRef)
    requires target.inputs.Some? && source.outputs.Some?
    requires Lookup(target.inputs.value, ref.toPort).Some?
    requires Lookup(source.outputs.value, ref.fromPort).Some?
    ensures var i := FirstIndex(target.inputs.value, ref.toPort);
      var v := Fetch(Lookup(source.outputs.value, ref.fromPort).value);
      && 0 <= i
      && Deliver(target, source, ref).inputs.value[i] == Store(target.inputs.value[i], v)
      && (CanStoreValue(target.inputs.value[i], v) ==> Deliver(target, source, ref).inputs.value[i].value == v)
      && forall q :: 0 <= q < |target.inputs.value| && q != i ==>
           Deliver(target, source, ref).inputs.value[q] == target.inputs.value[q]
  {
  }

  // ---------------------------------------------------------------------
  // Sinks and acyclicity
  // ---------------------------------------------------------------------

  /** A sink: its output collection is absent or empty. */
  predicate IsSink(s: Step)
  {
    Size(s.outputs) == 0
  }

  /** `GetOutputs()`: the sinks among `nodes`, in node order. */
  function Sinks(nodes: seq<StepId>, steps: map<StepId, Step>): (r: seq<StepId>)
    requires forall i :: 0 <= i < |nodes| ==> nodes[i] in steps
    ensures |r| <= |nodes|
    ensures forall x :: x in r ==> x in nodes && IsSink(steps[x])
    ensures forall i :: 0 <= i < |nodes| && IsSink(steps[nodes[i]]) ==> nodes[i] in r
  {
    if nodes == [] then []
    else
      var rest := Sinks(nodes[1..], steps);
      assert forall i :: 1 <= i < |nodes| ==> nodes[i] == nodes[1..][i - 1];
      (if IsSink(steps[nodes[0]]) then [nodes[0]] else []) + rest
  }

  /** `GetOutputs` keeps node order: the sinks of two node lists one after the other are the sinks of each. */
  lemma {:induction false} SinksConcat(a: seq<StepId>, b: seq<StepId>, steps: map<StepId, Step>)
    requires forall i :: 0 <= i < |a| ==> a[i] in steps
    requires forall i :: 0 <= i < |b| ==> b[i] in steps
    ensures forall i :: 0 <= i < |a + b| ==> (a + b)[i] in steps
    ensures Sinks(a + b, steps) == Sinks(a, steps) + Sinks(b, steps)
  {
    assert forall i :: 0 <= i < |a + b| ==> (a + b)[i] == if i < |a| then a[i] else b[i - |a|];
    if |a| > 0 {
      assert (a + b)[1..] == a[1..] + b;
      SinksConcat(a[1..], b, steps);
    } else {
      assert a + b == b;
    }
  }

  /** A node list of sinks only is listed as it is. */
  lemma {:induction false} SinksKeeps(nodes: seq<StepId>, steps: map<StepId, Step>)
    requires forall i :: 0 <= i < |nodes| ==> nodes[i] in steps && IsSink(steps[nodes[i]])
    ensures Sinks(nodes, steps) == nodes
  {
    if |nodes| > 0 {
      SinksKeeps(nodes[1..], steps);
      assert nodes == [nodes[0]] + nodes[1..];
    }
  }

  /** Each sink is listed once per occurrence in the node list, and nothing else is listed. */
  lemma {:induction false} SinksCounts(nodes: seq<StepId>, steps: map<StepId, Step>)
    requires forall i :: 0 <= i < |nodes| ==> nodes[i] in steps
    ensures forall x ::
              multiset(Sinks(nodes, steps))[x] ==
              if x in steps && IsSink(steps[x]) then multiset(nodes)[x] else 0
  {
    if |nodes| > 0 {
      SinksCounts(nodes[1..], steps);
      assert nodes == [nodes[0]] + nodes[1..];
      assert multiset(nodes) == multiset([nodes[0]]) + multiset(nodes[1..]);
    }
  }

  /** Every link goes from a lower rank to a higher one, so no chain of links returns to its start. */
  ghost predicate Acyclic(nodes: seq<StepId>, edges: seq<seq<G.Link<PortRef>>>, rank: StepId -> nat)
  {
    && G.WellFormed(nodes, edges)
    && forall i, q :: 0 <= i < |edges| && 0 <= q < |edges[i]| ==> rank(nodes[i]) < rank(nodes[edges[i][q].endpoint])
  }

  /** Every incoming neighbour of `n` is a node ranked below `n`. */
  lemma IncomingRankedBelow(nodes: seq<StepId>, edges: seq<seq<G.Link<PortRef>>>, rank: StepId -> nat, n: StepId)
    requires Acyclic(nodes, edges, rank)
    ensures forall x :: x in G.IncomingNodes(nodes, edges, n) ==> x in nodes && rank(x) < rank(n)
  {
    forall x | x in G.IncomingNodes(nodes, edges, n)
      ensures x in nodes && rank(x) < rank(n)
    {
      G.IncomingNodesMembers(nodes, edges, n, x);
      var s, q :| 0 <= s < |edges| && 0 <= q < |edges[s]| && nodes[s] == x && edges[s][q].endpoint == G.IndexOf(nodes, n);
    }
  }

  /** Logs appended one after another. */
  lemma AppendAssociates(a: seq<StepId>, b: seq<StepId>, c: seq<StepId>)
    ensures (a + b) + c == a + (b + c)
  {
  }

  /** A loop over `s` that has handled `s[..i]` has handled `s[..i + 1]` after `s[i]`. */
  lemma PrefixNext(s: seq<StepId>, i: nat)
    requires i < |s|
    ensures s[..i + 1] == s[..i] + [s[i]]
  {
  }

  /** The matcher `Connect` hands to `DisconnectAll`: links into port `toPort` of `end`. */
  function Supersedes(end: StepId, toPort: string): (r: (StepId, StepId, PortRef) -> bool)
    ensures forall a, b, m :: r(a, b, m) <==> b == end && m.toPort == toPort
    ensures forall a, a', b, m :: r(a, b, m) == r(a', b, m)
  {
    (linkStart: StepId, linkEnd: StepId, mapping: PortRef) => linkEnd == end && mapping.toPort == toPort
  }

  /** The connection passes the three name checks. */
  predicate NamesGiven(data: Option<PortRef>)
    ensures data.None? ==> !NamesGiven(data)
    ensures NamesGiven(data) ==> |data.value.fromPort| > 0 && |data.value.toPort| > 0
  {
    data.Some? && data.value.fromPort != "" && data.value.toPort != ""
  }

  /**
   * The last two checks of `Connect`: both named ports exist and the input
   * accepts the output's storage type.
   */
  predicate PortsMatch(source: Step, target: Step, ref: PortRef)
    requires source.outputs.Some?
    ensures PortsMatch(source, target, ref) ==>
      && Lookup(source.outputs.value, ref.fromPort).Some?
      && target.inputs.Some? && Lookup(target.inputs.value, ref.toPort).Some?
      && forall v :: v != Null && CanStoreValue(Lookup(source.outputs.value, ref.fromPort).value, v) ==>
        CanStoreValue(Lookup(target.inputs.value, ref.toPort).value, v)
  {
    var o := Lookup(source.outputs.value, ref.fromPort);
    && o.Some?
    && target.inputs.Some?
    && var i := Lookup(target.inputs.value, ref.toPort);
       i.Some? && CanStoreType(i.value, StorageType(o.value))
  }

  /** A link whose target is `end` and whose mapping ends at input `toPort`. */
  predicate Targets(nodes: seq<StepId>, l: G.Link<PortRef>, end: StepId, toPort: string)
    requires l.endpoint < |nodes|
  {
    nodes[l.endpoint] == end && l.data.toPort == toPort
  }

  /**
   * The rows after a validated `Connect`: the links into `(end, ref.toPort)`
   * are stripped, then the base connect appends the new link when both
   * nodes are present.
   */
  function ConnectedEdges(nodes: seq<StepId>, edges: seq<seq<G.Link<PortRef>>>, start: StepId, end: StepId, ref: PortRef)
    : (r: seq<seq<G.Link<PortRef>>>)
    requires G.WellFormed(nodes, edges)
    ensures |r| == |edges|
  {
    var stripped := G.Unmatched(nodes, edges, Supersedes(end, ref.toPort));
    if start in nodes && end in nodes
    then G.AppendLink(stripped, G.IndexOf(nodes, start), G.Link(G.IndexOf(nodes, end), ref))
    else stripped
  }

  /**
   * After a successful connect between present nodes exactly one link targets
   * `(end, ref.toPort)`: the new one, last in start's row. Links into other
   * ports keep their rows.
   */
  lemma ConnectSingleProducer(nodes: seq<StepId>, edges: seq<seq<G.Link<PortRef>>>, start: StepId, end: StepId, ref: PortRef)
    requires G.WellFormed(nodes, edges) && start in nodes && end in nodes
    ensures var after := ConnectedEdges(nodes, edges, start, end, ref);
      var s := G.IndexOf(nodes, start);
      && G.WellFormed(nodes, after)
      && |after[s]| > 0 && after[s][|after[s]| - 1] == G.Link(G.IndexOf(nodes, end), ref)
      && Targets(nodes, after[s][|after[s]| - 1], end, ref.toPort)
      && (forall i, q :: 0 <= i < |after| && 0 <= q < |after[i]| && Targets(nodes, after[i][q], end, ref.toPort) ==>
            i == s && q == |after[s]| - 1)
      && (forall i, l: G.Link<PortRef> :: 0 <= i < |after| && l.endpoint < |nodes| && !Targets(nodes, l, end, ref.toPort) ==>
            (l in after[i] <==> l in edges[i]))
  {
    var m := Supersedes(end, ref.toPort);
    var stripped := G.Unmatched(nodes, edges, m);
    G.UnmatchedWellFormed(nodes, edges, m);
    var s, e := G.IndexOf(nodes, start), G.IndexOf(nodes, end);
    var after := ConnectedEdges(nodes, edges, start, end, ref);
    assert after == stripped[s := stripped[s] + [G.Link(e, ref)]];
    forall i, q | 0 <= i < |after| && 0 <= q < |after[i]| && Targets(nodes, after[i][q], end, ref.toPort)
      ensures i == s && q == |after[s]| - 1
    {
      if i != s || q < |stripped[s]| {
        assert false;
      }
    }
    forall i, l: G.Link<PortRef> | 0 <= i < |after| && l.endpoint < |nodes| && !Targets(nodes, l, end, ref.toPort)
      ensures l in after[i] <==> l in edges[i]
    {
      assert !m(nodes[i], nodes[l.endpoint], l.data);
      if i == s {
        assert l in after[i] <==> l in stripped[i] || l == G.Link(e, ref);
      }
    }
  }

  /**
   * When `start` is absent the stripping still happens: afterwards no link
   * targets `(end, ref.toPort)`, and the rest of every row is kept.
   */
  lemma ConnectStartAbsent(nodes: seq<StepId>, edges: seq<seq<G.Link<PortRef>>>, start: StepId, end: StepId, ref: PortRef)
    requires G.WellFormed(nodes, edges) && start !in nodes
    ensures var after := ConnectedEdges(nodes, edges, start, end, ref);
      && G.WellFormed(nodes, after)
      && (forall i, q :: 0 <= i < |after| && 0 <= q < |after[i]| ==> !Targets(nodes, after[i][q], end, ref.toPort))
      && (forall i, l: G.Link<PortRef> :: 0 <= i < |after| && l.endpoint < |nodes| && !Targets(nodes, l, end, ref.toPort) ==>
            (l in after[i] <==> l in edges[i]))
  {
    var m := Supersedes(end, ref.toPort);
    G.UnmatchedWellFormed(nodes, edges, m);
    var after := ConnectedEdges(nodes, edges, start, end, ref);
    forall i, q | 0 <= i < |after| && 0 <= q < |after[i]|
      ensures !Targets(nodes, after[i][q], end, ref.toPort)
    {
      assert after[i][q] in after[i];
    }
  }

  /** Stripping one row of the links into `(end, toPort)` keeps every other link as often as it occurs. */
  lemma StripKeepsRow(nodes: seq<StepId>, src: StepId, row: seq<G.Link<PortRef>>, end: StepId, toPort: string)
    requires G.RowInRange(row, |nodes|)
    ensures forall l: G.Link<PortRef> :: l.endpoint < |nodes| && !Targets(nodes, l, end, toPort) ==>
              multiset(G.KeepUnmatched(nodes, src, row, Supersedes(end, toPort)))[l] == multiset(row)[l]
    ensures (forall q :: 0 <= q < |row| ==> !Targets(nodes, row[q], end, toPort)) ==>
              G.KeepUnmatched(nodes, src, row, Supersedes(end, toPort)) == row
  {
    var m := Supersedes(end, toPort);
    G.KeepUnmatchedCounts(nodes, src, row, m);
    if forall q :: 0 <= q < |row| ==> !Targets(nodes, row[q], end, toPort) {
      G.KeepUnmatchedKeeps(nodes, src, row, m);
    }
  }

  /**
   * The strip of a connect removes nothing but links into `(end, ref.toPort)`:
   * every other link keeps its count in its row, and a row without such a
   * link is kept as it is, up to the new link at the end of start's row.
   */
  lemma ConnectKeepsRows(nodes: seq<StepId>, edges: seq<seq<G.Link<PortRef>>>, start: StepId, end: StepId, ref: PortRef)
    requires G.WellFormed(nodes, edges)
    ensures var after := ConnectedEdges(nodes, edges, start, end, ref);
      && (forall i, l: G.Link<PortRef> :: 0 <= i < |edges| && l.endpoint < |nodes| && !Targets(nodes, l, end, ref.toPort) ==>
            multiset(after[i])[l] == multiset(edges[i])[l])
      && (forall i :: 0 <= i < |edges| && (forall q :: 0 <= q < |edges[i]| ==> !Targets(nodes, edges[i][q], end, ref.toPort)) ==>
            after[i] == if start in nodes && end in nodes && i == G.IndexOf(nodes, start)
                        then edges[i] + [G.Link(G.IndexOf(nodes, end), ref)] else edges[i])
  {
    forall i | 0 <= i < |edges| {
      ConnectKeepsRow(nodes, edges, start, end, ref, i);
    }
  }

  /** Row `i` of `ConnectKeepsRows`. */
  lemma ConnectKeepsRow(nodes: seq<StepId>, edges: seq<seq<G.Link<PortRef>>>, start: StepId, end: StepId, ref: PortRef, i: nat)
    requires G.WellFormed(nodes, edges) && i < |edges|
    ensures var after := ConnectedEdges(nodes, edges, start, end, ref);
      && (forall l: G.Link<PortRef> :: l.endpoint < |nodes| && !Targets(nodes, l, end, ref.toPort) ==>
            multiset(after[i])[l] == multiset(edges[i])[l])
      && ((forall q :: 0 <= q < |edges[i]| ==> !Targets(nodes, edges[i][q], end, ref.toPort)) ==>
            after[i] == if start in nodes && end in nodes && i == G.IndexOf(nodes, start)
                        then edges[i] + [G.Link(G.IndexOf(nodes, end), ref)] else edges[i])
  {
    var m := Supersedes(end, ref.toPort);
    var stripped := G.Unmatched(nodes, edges, m);
    var after := ConnectedEdges(nodes, edges, start, end, ref);
    assert G.RowInRange(edges[i], |nodes|);
    StripKeepsRow(nodes, nodes[i], edges[i], end, ref.toPort);
    assert stripped[i] == G.KeepUnmatched(nodes, nodes[i], edges[i], m);
    if start in nodes && end in nodes && i == G.IndexOf(nodes, start) {
      var link := G.Link(G.IndexOf(nodes, end), ref);
      assert after[i] == stripped[i] + [link];
      assert multiset(after[i]) == multiset(stripped[i]) + multiset([link]);
      assert Targets(nodes, link, end, ref.toPort);
    } else {
      assert after[i] == stripped[i];
    }
  }

  // ---------------------------------------------------------------------
  // What a pass of the evaluation guarantees
  // ---------------------------------------------------------------------

  /** The steps after part of a pass: same steps, grown ports, and only those on `t` touched. */
  ghost predicate Evolved(before: map<StepId, Step>, after: map<StepId, Step>, t: seq<StepId>)
  {
    && before.Keys == after.Keys
    && (forall m {:trigger Grows(before[m], after[m])} :: m in before ==> Grows(before[m], after[m]))
    && (forall m :: m in before && m !in t ==> after[m] == before[m])
  }

  /** Every step on `t` whose `Recalculate` fills its outputs is cached. */
  ghost predicate FilledCached(compute: Oracle, steps: map<StepId, Step>, t: seq<StepId>)
  {
    forall m {:trigger Fills(compute, m, steps[m])} :: m in t && m in steps && Fills(compute, m, steps[m]) ==> Cached(steps[m])
  }

  /** Every step whose `Recalculate` fills its outputs was computed at most once. */
  ghost predicate ComputedOnce(compute: Oracle, steps: map<StepId, Step>, t: seq<StepId>)
  {
    forall m {:trigger Fills(compute, m, steps[m])} :: m in steps && Fills(compute, m, steps[m]) ==> multiset(t)[m] <= 1
  }

  /** `x` is an incoming neighbour of `m`: a link runs from `x` to `m`. */
  predicate Feeds(nodes: seq<StepId>, edges: seq<seq<G.Link<PortRef>>>, x: StepId, m: StepId)
    requires G.WellFormed(nodes, edges)
  {
    x in G.IncomingNodes(nodes, edges, m)
  }

  /** Every predecessor of a computed step was computed too, unless it was cached in `before`. */
  ghost predicate DemandsMet(nodes: seq<StepId>, edges: seq<seq<G.Link<PortRef>>>, before: map<StepId, Step>, t: seq<StepId>)
    requires G.WellFormed(nodes, edges)
  {
    forall m, x :: m in t && Feeds(nodes, edges, x, m) ==>
      x in t || (x in before && Cached(before[x]))
  }

  /** Growing changes neither whether a step is filled by its `Recalculate` nor whether it is a sink. */
  lemma GrowsKeepsFills(compute: Oracle, m: StepId, a: Step, b: Step)
    requires Grows(a, b)
    ensures Fills(compute, m, a) <==> Fills(compute, m, b)
    ensures IsSink(a) <==> IsSink(b)
  {
    assert Size(Cleared(a).outputs) == Size(a.outputs);
  }

  /** What an evolution keeps: cached steps stay cached, filled and sink steps stay so. */
  lemma EvolvedStable(compute: Oracle, a: map<StepId, Step>, b: map<StepId, Step>, t: seq<StepId>)
    requires Evolved(a, b, t)
    ensures forall m :: m in a && Cached(a[m]) ==> Cached(b[m])
    ensures forall m :: m in a ==> (Fills(compute, m, a[m]) <==> Fills(compute, m, b[m]))
    ensures forall m :: m in a ==> (IsSink(a[m]) <==> IsSink(b[m]))
  {
    forall m | m in a
      ensures Cached(a[m]) ==> Cached(b[m])
      ensures Fills(compute, m, a[m]) <==> Fills(compute, m, b[m])
      ensures IsSink(a[m]) <==> IsSink(b[m])
    {
      GrowsKeepsCached(a[m], b[m], b[m]);
      GrowsKeepsFills(compute, m, a[m], b[m]);
    }
  }

  /** Two evolutions one after the other are one evolution. */
  lemma EvolvedChain(a: map<StepId, Step>, b: map<StepId, Step>, c: map<StepId, Step>, t: seq<StepId>, u: seq<StepId>)
    requires Evolved(a, b, t) && Evolved(b, c, u)
    ensures Evolved(a, c, t + u)
  {
    forall m | m in a
      ensures Grows(a[m], c[m])
    {
      GrowsKeepsCached(a[m], b[m], c[m]);
    }
  }

  /**
   * What part of a pass has achieved, from `start` to `cur` with `t` the
   * steps computed: the steps only grew and only those on `t` changed; every
   * computed step its `Recalculate` fills is cached and was computed once;
   * every predecessor of a computed step was computed too or already cached.
   */
  ghost predicate Progress(compute: Oracle, nodes: seq<StepId>, edges: seq<seq<G.Link<PortRef>>>,
                           start: map<StepId, Step>, cur: map<StepId, Step>, t: seq<StepId>)
    requires G.WellFormed(nodes, edges)
  {
    && Evolved(start, cur, t)
    && FilledCached(compute, cur, t)
    && ComputedOnce(compute, cur, t)
    && DemandsMet(nodes, edges, start, t)
  }

  /** Computed steps stay cached when the steps then evolve along `u`. */
  lemma FilledCachedStep(compute: Oracle, before: map<StepId, Step>, after: map<StepId, Step>, t: seq<StepId>, u: seq<StepId>)
    requires before.Keys == after.Keys
    requires forall m :: m in before && Cached(before[m]) ==> Cached(after[m])
    requires forall m :: m in before ==> (Fills(compute, m, before[m]) <==> Fills(compute, m, after[m]))
    requires FilledCached(compute, before, t) && FilledCached(compute, after, u)
    ensures FilledCached(compute, after, t + u)
  {
    forall m | m in t + u && m in after && Fills(compute, m, after[m])
      ensures Cached(after[m])
    {
      if m !in u {
        assert m in t && Fills(compute, m, before[m]);
      }
    }
  }

  /** A later stretch that computes only uncached steps computes no cached filled step again. */
  lemma ComputedOnceStep(compute: Oracle, before: map<StepId, Step>, after: map<StepId, Step>, t: seq<StepId>, u: seq<StepId>)
    requires before.Keys == after.Keys
    requires forall m :: m in before ==> (Fills(compute, m, before[m]) <==> Fills(compute, m, after[m]))
    requires FilledCached(compute, before, t) && ComputedOnce(compute, before, t) && ComputedOnce(compute, after, u)
    requires forall m :: m in u ==> m in before && !Cached(before[m])
    ensures ComputedOnce(compute, after, t + u)
  {
    forall m | m in after && Fills(compute, m, after[m])
      ensures multiset(t + u)[m] <= 1
    {
      assert Fills(compute, m, before[m]);
      if m in t {
        assert Cached(before[m]);
        assert m !in u;
      }
    }
  }

  /** Demands met from `before` on are met from `start` on when the steps evolved along `t` in between. */
  lemma DemandsMetStep(nodes: seq<StepId>, edges: seq<seq<G.Link<PortRef>>>,
                       start: map<StepId, Step>, before: map<StepId, Step>, t: seq<StepId>, u: seq<StepId>)
    requires G.WellFormed(nodes, edges)
    requires start.Keys == before.Keys
    requires forall m :: m in start && m !in t ==> before[m] == start[m]
    requires DemandsMet(nodes, edges, start, t) && DemandsMet(nodes, edges, before, u)
    ensures DemandsMet(nodes, edges, start, t + u)
  {
    forall m, x | m in t + u && Feeds(nodes, edges, x, m)
      ensures x in t + u || (x in start && Cached(start[x]))
    {
      if m in t {
        assert x in t || (x in start && Cached(start[x]));
      } else {
        assert m in u;
        assert x in u || (x in before && Cached(before[x]));
      }
    }
  }

  /**
   * A nested recompute that touches only steps uncached when it begins
   * extends the progress of the pass around it.
   */
  lemma ProgressStep(compute: Oracle, nodes: seq<StepId>, edges: seq<seq<G.Link<PortRef>>>,
                     start: map<StepId, Step>, before: map<StepId, Step>, after: map<StepId, Step>,
                     t: seq<StepId>, u: seq<StepId>)
    requires G.WellFormed(nodes, edges)
    requires Progress(compute, nodes, edges, start, before, t)
    requires Progress(compute, nodes, edges, before, after, u)
    requires forall m :: m in u ==> m in before && !Cached(before[m])
    ensures Progress(compute, nodes, edges, start, after, t + u)
    ensures forall m :: m in u ==> !Cached(start[m])
    ensures forall m :: m in start && Cached(before[m]) ==> Cached(after[m])
    ensures forall m :: m in start ==> (Fills(compute, m, before[m]) <==> Fills(compute, m, after[m]))
  {
    EvolvedStable(compute, start, before, t);
    EvolvedStable(compute, before, after, u);
    EvolvedChain(start, before, after, t, u);
    FilledCachedStep(compute, before, after, t, u);
    ComputedOnceStep(compute, before, after, t, u);
    DemandsMetStep(nodes, edges, start, before, t, u);
  }

  /**
   * The last act of a recompute of `n`: once `n`'s predecessors are computed
   * or cached, replacing `n` by a grown step completes the progress.
   */
  lemma ProgressFinish(compute: Oracle, nodes: seq<StepId>, edges: seq<seq<G.Link<PortRef>>>,
                       start: map<StepId, Step>, mid: map<StepId, Step>, t: seq<StepId>, n: StepId, d: Step, s: Step)
    requires G.WellFormed(nodes, edges)
    requires Progress(compute, nodes, edges, start, mid, t)
    requires n in mid && n !in t && Grows(mid[n], d) && Grows(d, s)
    requires Fills(compute, n, d) ==> Cached(s)
    requires forall x :: Feeds(nodes, edges, x, n) ==> x in t || (x in start && Cached(start[x]))
    ensures Progress(compute, nodes, edges, start, mid[n := s], t + [n])
  {
    var after := mid[n := s];
    GrowsKeepsCached(mid[n], d, s);
    GrowsKeepsFills(compute, n, d, s);
    assert Evolved(mid, after, [n]);
    EvolvedChain(start, mid, after, t, [n]);
    EvolvedStable(compute, mid, after, [n]);
    forall m | m in t + [n] && m in after && Fills(compute, m, after[m])
      ensures Cached(after[m])
    {
      if m != n {
        assert m in t;
      }
    }
    forall m | m in after && Fills(compute, m, after[m])
      ensures multiset(t + [n])[m] <= 1
    {
      assert multiset(t + [n]) == multiset(t) + multiset{n};
    }
  }

  // ---------------------------------------------------------------------
  // What a computed step was fed
  // ---------------------------------------------------------------------

  /** Delivery reads nothing of a source but its outputs. */
  lemma {:induction false} DeliverRefsFrame(target: Step, a: Step, b: Step, refs: seq<PortRef>)
    requires a.outputs == b.outputs
    ensures DeliverRefs(target, a, refs) == DeliverRefs(target, b, refs)
    decreases |refs|
  {
    if refs != [] {
      DeliverRefsFrame(target, a, b, refs[..|refs| - 1]);
    }
  }

  /** Delivering from `xs` gives the same step from two states that agree on the outputs of `xs`. */
  lemma {:induction false} DeliverAllFrame(target: Step, xs: seq<StepId>, a: map<StepId, Step>, b: map<StepId, Step>,
                                           nodes: seq<StepId>, edges: seq<seq<G.Link<PortRef>>>, n: StepId)
    requires G.WellFormed(nodes, edges)
    requires forall i :: 0 <= i < |xs| ==> xs[i] in a && xs[i] in b && a[xs[i]].outputs == b[xs[i]].outputs
    ensures DeliverAll(target, xs, a, nodes, edges, n) == DeliverAll(target, xs, b, nodes, edges, n)
    decreases |xs|
  {
    if xs != [] {
      var x := xs[|xs| - 1];
      DeliverAllFrame(target, xs[..|xs| - 1], a, b, nodes, edges, n);
      DeliverRefsFrame(DeliverAll(target, xs[..|xs| - 1], a, nodes, edges, n), a[x], b[x], G.AllEdgeData(nodes, edges, x, n));
    }
  }

  /**
   * Step `m` in `cur` is what its `Recalculate` made of its state in `start`
   * after every edge into it was delivered from the outputs the steps have
   * in `cur`.
   */
  ghost predicate FedFrom(compute: Oracle, nodes: seq<StepId>, edges: seq<seq<G.Link<PortRef>>>,
                          start: map<StepId, Step>, cur: map<StepId, Step>, m: StepId)
    requires G.WellFormed(nodes, edges)
  {
    var xs := G.IncomingNodes(nodes, edges, m);
    && m in start && m in cur
    && (forall i :: 0 <= i < |xs| ==> xs[i] in cur)
    && cur[m] == RunStep(compute, m, DeliverAll(start[m], xs, cur, nodes, edges, m))
  }

  /** Every predecessor of `m` is a step whose `Recalculate` fills its outputs. */
  ghost predicate PredsFill(compute: Oracle, nodes: seq<StepId>, edges: seq<seq<G.Link<PortRef>>>, cur: map<StepId, Step>, m: StepId)
    requires G.WellFormed(nodes, edges)
  {
    forall x {:trigger Feeds(nodes, edges, x, m)} :: Feeds(nodes, edges, x, m) ==> x in cur && Fills(compute, x, cur[x])
  }

  /**
   * Every step computed once from `start` to `cur`, whose predecessors all
   * fill their outputs, ran on the values its predecessors hold in `cur`.
   */
  ghost predicate DataFlow(compute: Oracle, nodes: seq<StepId>, edges: seq<seq<G.Link<PortRef>>>,
                           start: map<StepId, Step>, cur: map<StepId, Step>, t: seq<StepId>)
    requires G.WellFormed(nodes, edges)
  {
    forall m {:trigger multiset(t)[m]} :: m in t && multiset(t)[m] == 1 && PredsFill(compute, nodes, edges, cur, m) ==>
      FedFrom(compute, nodes, edges, start, cur, m)
  }

  /** A sink's outputs stay as they are while it grows. */
  lemma SinkOutputsKept(a: Step, b: Step)
    requires Grows(a, b) && IsSink(a)
    ensures b.outputs == a.outputs
  {
  }

  /**
   * Two stretches one after the other: a step computed once in the first
   * keeps what it was fed, because the second changes the outputs of no
   * step cached when it begins, and the first leaves every filling
   * predecessor of its steps cached.
   */
  lemma DataFlowStep(compute: Oracle, nodes: seq<StepId>, edges: seq<seq<G.Link<PortRef>>>,
                     start: map<StepId, Step>, before: map<StepId, Step>, after: map<StepId, Step>,
                     t: seq<StepId>, u: seq<StepId>)
    requires G.WellFormed(nodes, edges)
    requires Evolved(start, before, t) && Evolved(before, after, u)
    requires DemandsMet(nodes, edges, start, t) && FilledCached(compute, before, t)
    requires forall x :: x in before && Cached(before[x]) ==> after[x].outputs == before[x].outputs
    requires DataFlow(compute, nodes, edges, start, before, t) && DataFlow(compute, nodes, edges, before, after, u)
    ensures DataFlow(compute, nodes, edges, start, after, t + u)
  {
    forall m | m in t + u && multiset(t + u)[m] == 1 && PredsFill(compute, nodes, edges, after, m)
      ensures FedFrom(compute, nodes, edges, start, after, m)
    {
      assert multiset(t + u) == multiset(t) + multiset(u);
      if m in u {
        assert m !in t;
      } else {
        FedFromEarlier(compute, nodes, edges, start, before, after, t, u, m);
      }
    }
  }

  /** A step computed once in the first of two stretches keeps what it was fed through the second. */
  lemma FedFromEarlier(compute: Oracle, nodes: seq<StepId>, edges: seq<seq<G.Link<PortRef>>>,
                       start: map<StepId, Step>, before: map<StepId, Step>, after: map<StepId, Step>,
                       t: seq<StepId>, u: seq<StepId>, m: StepId)
    requires G.WellFormed(nodes, edges)
    requires m in t && m !in u && multiset(t)[m] == 1
    requires Evolved(start, before, t) && Evolved(before, after, u)
    requires DemandsMet(nodes, edges, start, t) && FilledCached(compute, before, t)
    requires forall x :: x in before && Cached(before[x]) ==> after[x].outputs == before[x].outputs
    requires DataFlow(compute, nodes, edges, start, before, t) && PredsFill(compute, nodes, edges, after, m)
    ensures FedFrom(compute, nodes, edges, start, after, m)
  {
    forall x | Feeds(nodes, edges, x, m)
      ensures x in before && Fills(compute, x, before[x])
      ensures x in after && after[x].outputs == before[x].outputs
    {
      assert x in after && Fills(compute, x, after[x]);
      GrowsKeepsFills(compute, x, before[x], after[x]);
      if x in t {
        assert Cached(before[x]);
      } else {
        assert x in start && Cached(start[x]);
        GrowsKeepsCached(start[x], before[x], before[x]);
      }
    }
    assert PredsFill(compute, nodes, edges, before, m);
    FedFromCarried(compute, nodes, edges, start, before, after, m);
  }

  /** A step keeps what it was fed while neither it nor the outputs of its predecessors change. */
  lemma FedFromCarried(compute: Oracle, nodes: seq<StepId>, edges: seq<seq<G.Link<PortRef>>>,
                       start: map<StepId, Step>, before: map<StepId, Step>, after: map<StepId, Step>, m: StepId)
    requires G.WellFormed(nodes, edges)
    requires FedFrom(compute, nodes, edges, start, before, m) && m in after && after[m] == before[m]
    requires forall x :: Feeds(nodes, edges, x, m) ==> x in before && x in after && after[x].outputs == before[x].outputs
    ensures FedFrom(compute, nodes, edges, start, after, m)
  {
    var xs := G.IncomingNodes(nodes, edges, m);
    forall i | 0 <= i < |xs|
      ensures xs[i] in before && xs[i] in after && before[xs[i]].outputs == after[xs[i]].outputs
    {
      assert Feeds(nodes, edges, xs[i], m);
    }
    DeliverAllFrame(start[m], xs, before, after, nodes, edges, m);
  }

  /** Changing only a step that feeds neither `m` nor is `m` keeps what `m` was fed. */
  lemma FedFromKept(compute: Oracle, nodes: seq<StepId>, edges: seq<seq<G.Link<PortRef>>>,
                    start: map<StepId, Step>, mid: map<StepId, Step>, n: StepId, s: Step, m: StepId)
    requires G.WellFormed(nodes, edges)
    requires m != n && !Feeds(nodes, edges, n, m)
    requires FedFrom(compute, nodes, edges, start, mid, m)
    ensures FedFrom(compute, nodes, edges, start, mid[n := s], m)
  {
    forall x | Feeds(nodes, edges, x, m)
      ensures x in mid && x in mid[n := s] && mid[n := s][x].outputs == mid[x].outputs
    {
      assert x != n;
      assert x in G.IncomingNodes(nodes, edges, m);
    }
    FedFromCarried(compute, nodes, edges, start, mid, mid[n := s], m);
  }

  /** A step fed from `mid` and run is fed from the state it then completes, when it does not feed itself. */
  lemma FedFromLast(compute: Oracle, nodes: seq<StepId>, edges: seq<seq<G.Link<PortRef>>>,
                    start: map<StepId, Step>, mid: map<StepId, Step>, n: StepId, s: Step)
    requires G.WellFormed(nodes, edges)
    requires n in start && n in mid && mid[n] == start[n] && !Feeds(nodes, edges, n, n)
    requires forall i :: 0 <= i < |G.IncomingNodes(nodes, edges, n)| ==> G.IncomingNodes(nodes, edges, n)[i] in mid
    requires s == RunStep(compute, n, DeliverAll(mid[n], G.IncomingNodes(nodes, edges, n), mid, nodes, edges, n))
    ensures FedFrom(compute, nodes, edges, start, mid[n := s], n)
  {
    var xs := G.IncomingNodes(nodes, edges, n);
    forall i | 0 <= i < |xs|
      ensures xs[i] in mid && xs[i] in mid[n := s] && mid[xs[i]].outputs == mid[n := s][xs[i]].outputs
    {
      assert xs[i] != n;
    }
    DeliverAllFrame(mid[n], xs, mid, mid[n := s], nodes, edges, n);
  }

  /**
   * The last act of a recompute of `n`: with `n` uncomputed so far and
   * every step computed before it ranked below it, running `n` after
   * delivering into it keeps what each step computed once was fed.
   */
  lemma DataFlowFinish(compute: Oracle, nodes: seq<StepId>, edges: seq<seq<G.Link<PortRef>>>, rank: StepId -> nat, n: StepId,
                       start: map<StepId, Step>, mid: map<StepId, Step>, t: seq<StepId>, s: Step)
    requires Acyclic(nodes, edges, rank)
    requires start.Keys == mid.Keys && n in mid && n !in t
    requires forall m :: m in t ==> m in nodes && rank(m) < rank(n)
    requires DataFlow(compute, nodes, edges, start, mid, t)
    requires FedFrom(compute, nodes, edges, start, mid[n := s], n)
    ensures DataFlow(compute, nodes, edges, start, mid[n := s], t + [n])
  {
    forall m | m in t + [n] && multiset(t + [n])[m] == 1 && PredsFill(compute, nodes, edges, mid[n := s], m)
      ensures FedFrom(compute, nodes, edges, start, mid[n := s], m)
    {
      if m != n {
        assert multiset(t + [n]) == multiset(t) + multiset{n};
        IncomingRankedBelow(nodes, edges, rank, m);
        assert PredsFill(compute, nodes, edges, mid, m);
        FedFromKept(compute, nodes, edges, start, mid, n, s, m);
      }
    }
  }

  /**
   * The first loop of a recompute of `n` after the predecessors `done`:
   * it computed only uncached graph nodes ranked below `n`, made progress,
   * and each predecessor in `done` was computed or cached at the start, and
   * is now cached unless its `Recalculate` leaves outputs empty; each step
   * computed once was fed from the outputs its predecessors now hold.
   */
  ghost predicate InputsDone(compute: Oracle, nodes: seq<StepId>, edges: seq<seq<G.Link<PortRef>>>, rank: StepId -> nat, n: StepId,
                             start: map<StepId, Step>, cur: map<StepId, Step>, t: seq<StepId>, done: seq<StepId>)
    requires G.WellFormed(nodes, edges)
  {
    && (forall m :: m in t ==> m in nodes && m in start && rank(m) < rank(n) && !Cached(start[m]))
    && Progress(compute, nodes, edges, start, cur, t)
    && (forall x :: x in done ==> x in start && (x in t || Cached(start[x])))
    && (forall x :: x in done ==> Cached(cur[x]) || !Fills(compute, x, cur[x]))
    && DataFlow(compute, nodes, edges, start, cur, t)
  }

  /**
   * After the first loop of a recompute of `n`, delivering into `n` and
   * running its `Recalculate` completes the progress; `n` was not computed
   * before, so it still has its state from the start.
   */
  lemma InputsFinish(compute: Oracle, nodes: seq<StepId>, edges: seq<seq<G.Link<PortRef>>>, rank: StepId -> nat, n: StepId,
                     start: map<StepId, Step>, mid: map<StepId, Step>, t: seq<StepId>, d: Step)
    requires G.WellFormed(nodes, edges) && n in start
    requires InputsDone(compute, nodes, edges, rank, n, start, mid, t, G.IncomingNodes(nodes, edges, n))
    requires Grows(mid[n], d)
    ensures n !in t && mid[n] == start[n]
    ensures forall m :: m in t + [n] ==> m == n || (m in nodes && rank(m) < rank(n) && !Cached(start[m]))
    ensures Progress(compute, nodes, edges, start, mid[n := RunStep(compute, n, d)], t + [n])
    ensures (t + [n])[..|t|] == t
  {
    RunStepGrows(compute, n, d);
    if Fills(compute, n, d) {
      RunStepCaches(compute, n, d);
    }
    ProgressFinish(compute, nodes, edges, start, mid, t, n, d, RunStep(compute, n, d));
    assert (t + [n])[..|t|] == t;
  }

  /**
   * After the first loop of a recompute of `n`, running `n` on what was
   * delivered into it leaves `n`, and every step computed once before it,
   * fed from the outputs its predecessors then hold.
   */
  lemma InputsFed(compute: Oracle, nodes: seq<StepId>, edges: seq<seq<G.Link<PortRef>>>, rank: StepId -> nat, n: StepId,
                  start: map<StepId, Step>, mid: map<StepId, Step>, t: seq<StepId>, s: Step)
    requires Acyclic(nodes, edges, rank) && n in start && n in mid && n !in t && mid[n] == start[n]
    requires InputsDone(compute, nodes, edges, rank, n, start, mid, t, G.IncomingNodes(nodes, edges, n))
    requires forall i :: 0 <= i < |G.IncomingNodes(nodes, edges, n)| ==> G.IncomingNodes(nodes, edges, n)[i] in mid
    requires s == RunStep(compute, n, DeliverAll(mid[n], G.IncomingNodes(nodes, edges, n), mid, nodes, edges, n))
    ensures FedFrom(compute, nodes, edges, start, mid[n := s], n)
    ensures forall x :: Feeds(nodes, edges, x, n) ==> Cached(mid[n := s][x]) || !Fills(compute, x, mid[n := s][x])
    ensures DataFlow(compute, nodes, edges, start, mid[n := s], t + [n])
  {
    IncomingRankedBelow(nodes, edges, rank, n);
    FedFromLast(compute, nodes, edges, start, mid, n, s);
    DataFlowFinish(compute, nodes, edges, rank, n, start, mid, t, s);
  }

  /**
   * The whole recompute of `n` once its first loop is done: from `start`,
   * with `n` computed last along `t + [n]` after delivering into it from
   * `mid`, every guarantee of the recompute holds.
   */
  lemma InputsComplete(compute: Oracle, nodes: seq<StepId>, edges: seq<seq<G.Link<PortRef>>>, rank: StepId -> nat, n: StepId,
                       start: map<StepId, Step>, mid: map<StepId, Step>, t: seq<StepId>, d: Step)
    requires Acyclic(nodes, edges, rank) && n in start
    requires InputsDone(compute, nodes, edges, rank, n, start, mid, t, G.IncomingNodes(nodes, edges, n))
    requires forall i :: 0 <= i < |G.IncomingNodes(nodes, edges, n)| ==> G.IncomingNodes(nodes, edges, n)[i] in mid
    requires d == DeliverAll(mid[n], G.IncomingNodes(nodes, edges, n), mid, nodes, edges, n)
    ensures var u, after := t + [n], mid[n := RunStep(compute, n, d)];
      && |u| > 0 && u[|u| - 1] == n && n !in u[..|u| - 1]
      && (forall m :: m in u ==> m == n || (m in nodes && rank(m) < rank(n) && !Cached(start[m])))
      && Progress(compute, nodes, edges, start, after, u)
      && (forall x :: Feeds(nodes, edges, x, n) ==> Cached(after[x]) || !Fills(compute, x, after[x]))
      && FedFrom(compute, nodes, edges, start, after, n)
      && DataFlow(compute, nodes, edges, start, after, u)
  {
    InputsFinish(compute, nodes, edges, rank, n, start, mid, t, d);
    InputsFed(compute, nodes, edges, rank, n, start, mid, t, RunStep(compute, n, d));
  }

  /** A predecessor found cached is passed over. */
  lemma InputsSkip(compute: Oracle, nodes: seq<StepId>, edges: seq<seq<G.Link<PortRef>>>, rank: StepId -> nat, n: StepId,
                   start: map<StepId, Step>, cur: map<StepId, Step>, t: seq<StepId>, done: seq<StepId>, x: StepId)
    requires G.WellFormed(nodes, edges)
    requires InputsDone(compute, nodes, edges, rank, n, start, cur, t, done)
    requires x in start && Cached(cur[x])
    ensures InputsDone(compute, nodes, edges, rank, n, start, cur, t, done + [x])
  {
    if x !in t {
      assert cur[x] == start[x];
    }
  }

  /** A predecessor found uncached is recomputed, along `u`, from `before` to `after`. */
  lemma InputsRecomputed(compute: Oracle, nodes: seq<StepId>, edges: seq<seq<G.Link<PortRef>>>, rank: StepId -> nat, n: StepId,
                         start: map<StepId, Step>, before: map<StepId, Step>, after: map<StepId, Step>,
                         t: seq<StepId>, done: seq<StepId>, x: StepId, u: seq<StepId>)
    requires G.WellFormed(nodes, edges)
    requires InputsDone(compute, nodes, edges, rank, n, start, before, t, done)
    requires forall m :: m in u ==> m in before && (m == x || (m in nodes && rank(m) < rank(x) && !Cached(before[m])))
    requires x in nodes && rank(x) < rank(n) && x in u && !Cached(before[x])
    requires Progress(compute, nodes, edges, before, after, u)
    requires DataFlow(compute, nodes, edges, before, after, u)
    ensures InputsDone(compute, nodes, edges, rank, n, start, after, t + u, done + [x])
  {
    ProgressStep(compute, nodes, edges, start, before, after, t, u);
    DataFlowStep(compute, nodes, edges, start, before, after, t, u);
    assert FilledCached(compute, after, u);
    assert Fills(compute, x, after[x]) ==> Cached(after[x]);
  }

  /**
   * The loop of `RecalculateAll` after the sinks `done`, from the reset
   * steps `reset` on: only graph nodes were computed, progress was made in
   * the sense of `Progress` except that a sink may be computed once per
   * listing, every sink in `done` was computed, and each step computed
   * once was fed from the outputs its predecessors now hold.
   */
  ghost predicate SinksDone(compute: Oracle, nodes: seq<StepId>, edges: seq<seq<G.Link<PortRef>>>,
                            reset: map<StepId, Step>, cur: map<StepId, Step>, t: seq<StepId>, done: seq<StepId>)
    requires G.WellFormed(nodes, edges)
  {
    && (forall m :: m in t ==> m in nodes)
    && Evolved(reset, cur, t)
    && FilledCached(compute, cur, t)
    && (forall m {:trigger Fills(compute, m, cur[m])} :: m in cur && !IsSink(cur[m]) && Fills(compute, m, cur[m]) ==> multiset(t)[m] <= 1)
    && DemandsMet(nodes, edges, reset, t)
    && (forall x :: x in done ==> x in t)
    && DataFlow(compute, nodes, edges, reset, cur, t)
  }

  /** Before the first sink nothing is done. */
  lemma SinksStart(compute: Oracle, nodes: seq<StepId>, edges: seq<seq<G.Link<PortRef>>>, reset: map<StepId, Step>)
    requires G.WellFormed(nodes, edges)
    ensures SinksDone(compute, nodes, edges, reset, reset, [], [])
  {
    forall m | m in reset
      ensures Grows(reset[m], reset[m])
    {
      GrowsKeepsCached(reset[m], reset[m], reset[m]);
    }
  }

  /**
   * Recomputing sink `x` extends the loop: the recompute touches, besides
   * `x`, only steps uncached when it begins, so no filled non-sink computed
   * before is computed again.
   */
  lemma SinksStep(compute: Oracle, nodes: seq<StepId>, edges: seq<seq<G.Link<PortRef>>>, rank: StepId -> nat,
                  reset: map<StepId, Step>, before: map<StepId, Step>, after: map<StepId, Step>,
                  t: seq<StepId>, done: seq<StepId>, x: StepId, u: seq<StepId>)
    requires G.WellFormed(nodes, edges)
    requires SinksDone(compute, nodes, edges, reset, before, t, done)
    requires x in nodes && x in reset && IsSink(reset[x]) && x in u
    requires forall m :: m in u ==> m in before && (m == x || (m in nodes && rank(m) < rank(x) && !Cached(before[m])))
    requires Progress(compute, nodes, edges, before, after, u)
    requires DataFlow(compute, nodes, edges, before, after, u)
    ensures SinksDone(compute, nodes, edges, reset, after, t + u, done + [x])
  {
    EvolvedStable(compute, reset, before, t);
    SinkOutputsKept(before[x], after[x]);
    DataFlowStep(compute, nodes, edges, reset, before, after, t, u);
    EvolvedStable(compute, reset, before, t);
    EvolvedStable(compute, before, after, u);
    EvolvedChain(reset, before, after, t, u);
    FilledCachedStep(compute, before, after, t, u);
    DemandsMetStep(nodes, edges, reset, before, t, u);
    forall m | m in after && !IsSink(after[m]) && Fills(compute, m, after[m])
      ensures multiset(t + u)[m] <= 1
    {
      assert Fills(compute, m, before[m]) && !IsSink(before[m]);
      if m in t {
        assert Cached(before[m]);
        assert m !in u;
      }
    }
  }

  /**
   * Once every sink of the reset graph is done: each sink was computed, every
   * demanded predecessor was computed or is a sink, and no filled non-sink
   * was computed twice.
   */
  lemma SinksFinish(compute: Oracle, nodes: seq<StepId>, edges: seq<seq<G.Link<PortRef>>>,
                    steps: map<StepId, Step>, cur: map<StepId, Step>, t: seq<StepId>)
    requires G.WellFormed(nodes, edges) && forall i :: 0 <= i < |nodes| ==> nodes[i] in steps
    requires SinksDone(compute, nodes, edges, ResetSteps(steps, nodes), cur, t, Sinks(nodes, ResetSteps(steps, nodes)))
    ensures forall x :: x in nodes && IsSink(steps[x]) ==> x in t
    ensures forall m, x :: m in t && Feeds(nodes, edges, x, m) ==> x in t || IsSink(steps[x])
    ensures DataFlow(compute, nodes, edges, ResetSteps(steps, nodes), cur, t)
  {
    var reset := ResetSteps(steps, nodes);
    ResetUncaches(steps, nodes);
    forall x | x in nodes && IsSink(steps[x])
      ensures x in t
    {
      assert IsSink(reset[x]) by {
        assert Size(Cleared(steps[x]).outputs) == Size(steps[x].outputs);
      }
      var i :| 0 <= i < |nodes| && nodes[i] == x;
    }
    forall m, x | m in t && Feeds(nodes, edges, x, m)
      ensures x in t || IsSink(steps[x])
    {
      assert x in nodes;
    }
  }

  /** The logs of several recomputes, one after another. */
  function Concat(parts: seq<seq<StepId>>): (r: seq<StepId>)
    ensures forall i :: 0 <= i < |parts| ==> |parts[i]| <= |r|
    decreases |parts|
  {
    if parts == [] then [] else Concat(parts[..|parts| - 1]) + parts[|parts| - 1]
  }

  /** `parts` logs one recompute per sink of `outs`, in order: each ends with its sink and holds no other sink. */
  ghost predicate SinkOrder(reset: map<StepId, Step>, outs: seq<StepId>, parts: seq<seq<StepId>>)
  {
    && |parts| == |outs|
    && forall i :: 0 <= i < |parts| ==>
         && |parts[i]| > 0 && parts[i][|parts[i]| - 1] == outs[i]
         && forall j :: 0 <= j < |parts[i]| - 1 ==> parts[i][j] in reset && !IsSink(reset[parts[i][j]])
  }

  /**
   * A recompute of `x` that touched, besides `x` once at its end, only
   * uncached steps extends the order by one sink.
   */
  lemma SinkOrderStep(compute: Oracle, reset: map<StepId, Step>, before: map<StepId, Step>, t: seq<StepId>,
                      outs: seq<StepId>, parts: seq<seq<StepId>>, x: StepId, tx: seq<StepId>)
    requires Evolved(reset, before, t) && SinkOrder(reset, outs, parts)
    requires |tx| > 0 && tx[|tx| - 1] == x && x !in tx[..|tx| - 1]
    requires forall m :: m in tx ==> m in before && (m == x || !Cached(before[m]))
    ensures SinkOrder(reset, outs + [x], parts + [tx])
  {
    EvolvedStable(compute, reset, before, t);
    forall j | 0 <= j < |tx| - 1
      ensures tx[j] in reset && !IsSink(reset[tx[j]])
    {
      assert tx[j] in tx[..|tx| - 1];
    }
  }

  /**
   * One turn of the loop of `RecalculateAll`: recomputing sink `x` along
   * `u` extends both the progress of the loop and the order of its sinks.
   */
  lemma SinksAdvance(compute: Oracle, nodes: seq<StepId>, edges: seq<seq<G.Link<PortRef>>>, rank: StepId -> nat,
                     reset: map<StepId, Step>, before: map<StepId, Step>, after: map<StepId, Step>,
                     t: seq<StepId>, done: seq<StepId>, done': seq<StepId>, parts: seq<seq<StepId>>, x: StepId, u: seq<StepId>)
    requires G.WellFormed(nodes, edges) && done' == done + [x]
    requires SinksDone(compute, nodes, edges, reset, before, t, done)
    requires t == Concat(parts) && SinkOrder(reset, done, parts)
    requires x in nodes && x in reset && IsSink(reset[x])
    requires |u| > 0 && u[|u| - 1] == x && x !in u[..|u| - 1]
    requires forall m :: m in u ==> m in before && (m == x || (m in nodes && rank(m) < rank(x) && !Cached(before[m])))
    requires Progress(compute, nodes, edges, before, after, u)
    requires DataFlow(compute, nodes, edges, before, after, u)
    ensures SinksDone(compute, nodes, edges, reset, after, t + u, done')
    ensures t + u == Concat(parts + [u]) && SinkOrder(reset, done', parts + [u])
  {
    SinksStep(compute, nodes, edges, rank, reset, before, after, t, done, x, u);
    SinkOrderStep(compute, reset, before, t, done, parts, x, u);
    assert (parts + [u])[..|parts|] == parts;
  }

  /**
   * After a reset, a recompute of `n` that touched besides `n` only graph
   * nodes uncached by the reset computed no sink but `n`, and each
   * predecessor of a computed step was computed too or is a sink.
   */
  lemma RecomputedAfterReset(compute: Oracle, nodes: seq<StepId>, edges: seq<seq<G.Link<PortRef>>>,
                             steps: map<StepId, Step>, cur: map<StepId, Step>, n: StepId, t: seq<StepId>)
    requires G.WellFormed(nodes, edges) && forall i :: 0 <= i < |nodes| ==> nodes[i] in steps
    requires forall m :: m in t ==> m == n || (m in nodes && !Cached(ResetSteps(steps, nodes)[m]))
    requires Progress(compute, nodes, edges, ResetSteps(steps, nodes), cur, t)
    ensures forall m :: m in t && m != n ==> m in nodes && !IsSink(steps[m])
    ensures forall m, x :: m in t && Feeds(nodes, edges, x, m) ==> x in t || IsSink(steps[x])
  {
    ResetUncaches(steps, nodes);
    forall m, x | m in t && Feeds(nodes, edges, x, m)
      ensures x in t || IsSink(steps[x])
    {
      assert x in nodes;
    }
  }

  /** The steps after every graph node was `Reset`: other steps are untouched. */
  function ResetSteps(steps: map<StepId, Step>, nodes: seq<StepId>): (r: map<StepId, Step>)
    ensures r.Keys == steps.Keys
  {
    map m | m in steps :: if m in nodes then Cleared(steps[m]) else steps[m]
  }

  /**
   * After the reset a graph node is cached exactly when it is a sink, every
   * step keeps its ports, and resetting again changes nothing.
   */
  lemma ResetUncaches(steps: map<StepId, Step>, nodes: seq<StepId>)
    ensures forall m :: m in steps && m in nodes ==> (Cached(ResetSteps(steps, nodes)[m]) <==> IsSink(steps[m]))
    ensures forall m :: m in steps && m !in nodes ==> ResetSteps(steps, nodes)[m] == steps[m]
    ensures forall m :: m in steps ==> Cleared(ResetSteps(steps, nodes)[m]) == Cleared(steps[m])
    ensures ResetSteps(ResetSteps(steps, nodes), nodes) == ResetSteps(steps, nodes)
  {
    var r := ResetSteps(steps, nodes);
    forall m | m in steps
      ensures m in nodes ==> (Cached(r[m]) <==> IsSink(steps[m]))
      ensures Cleared(r[m]) == Cleared(steps[m])
      ensures ResetSteps(r, nodes)[m] == r[m]
    {
      CachedAfterReset(steps[m]);
    }
  }

  // ---------------------------------------------------------------------
  // The process graph
  // ---------------------------------------------------------------------

  /**
   * `ProcessGraph`: a `Graph<ProcessStep, NodePortReference>` together with
   * the heap of step objects its nodes refer to. `steps` holds every step
   * object by handle; `trace` logs each call of a step's `Recalculate`.
   */
  class ProcessGraph {
    const base: G.Graph<StepId, PortRef>
    var steps: map<StepId, Step>
    var nextId: StepId
    ghost var trace: seq<StepId>

    ghost predicate Valid()
      reads this, base
    {
      && base.Valid()
      && (forall m :: m in base.nodes ==> m in steps)
      && (forall m :: m in steps ==> m < nextId)
    }

    constructor ()
      ensures Valid() && fresh(base)
      ensures base.nodes == [] && base.edges == [] && steps == map[] && trace == []
    {
      base := new G.Graph();
      steps := map[];
      nextId := 0;
      trace := [];
    }

    /** Allocating a step object: a fresh handle, bound to `s`. */
    method NewStep(s: Step) returns (id: StepId)
      requires Valid()
      modifies this
      ensures Valid() && id !in old(steps)
      ensures steps == old(steps)[id := s] && trace == old(trace)
    {
      id := nextId;
      steps := steps[id := s];
      nextId := nextId + 1;
    }

    /** The inherited `AddNode`, for a step object that exists. */
    method AddNode(id: StepId)
      requires Valid() && id in steps
      modifies base
      ensures Valid()
      ensures base.nodes == old(base.nodes) + [id] && base.edges == old(base.edges) + [[]]
    {
      base.AddNode(id);
    }

    /** The inherited `RemoveNode`. */
    method RemoveNode(id: StepId)
      requires Valid()
      modifies base
      ensures Valid()
      ensures id !in old(base.nodes) ==> base.nodes == old(base.nodes) && base.edges == old(base.edges)
      ensures id in old(base.nodes) ==>
        var k := G.IndexOf(old(base.nodes), id);
        base.nodes == G.Without(old(base.nodes), k) && base.edges == G.RemovedRows(old(base.edges), k)
    {
      base.RemoveNode(id);
      forall i | 0 <= i < |base.nodes|
        ensures base.nodes[i] in steps
      {
        if id in old(base.nodes) {
          var k := G.IndexOf(old(base.nodes), id);
          assert base.nodes[i] == old(base.nodes)[if i < k then i else i + 1];
        }
      }
    }

    /**
     * `Connect(start, end, data)`: the checks in the order the source makes
     * them, each failing one an `ArgumentException`; past them, the links into
     * `(end, toPort)` are stripped and the base connect runs.
     */
    method Connect(start: StepId, end: StepId, data: Option<PortRef>) returns (r: Result<bool, ConnectError>)
      requires Valid() && start in steps && end in steps
      requires NamesGiven(data) ==> steps[start].outputs.Some?
      requires NamesGiven(data) && Lookup(steps[start].outputs.value, data.value.fromPort).Some? ==> steps[end].inputs.Some?
      modifies base
      ensures Valid() && base.nodes == old(base.nodes)
      ensures data.None? ==> r == Failure(MissingReference)
      ensures data.Some? && data.value.fromPort == "" ==> r == Failure(MissingOutputName)
      ensures data.Some? && data.value.fromPort != "" && data.value.toPort == "" ==> r == Failure(MissingInputName)
      ensures NamesGiven(data) && Lookup(steps[start].outputs.value, data.value.fromPort).None? ==>
        r == Failure(UnknownOutputPort(data.value.fromPort))
      ensures (NamesGiven(data) && Lookup(steps[start].outputs.value, data.value.fromPort).Some? &&
               Lookup(steps[end].inputs.value, data.value.toPort).None?) ==>
        r == Failure(UnknownInputPort(data.value.toPort))
      ensures (NamesGiven(data) && Lookup(steps[start].outputs.value, data.value.fromPort).Some? &&
               Lookup(steps[end].inputs.value, data.value.toPort).Some? && !PortsMatch(steps[start], steps[end], data.value)) ==>
        var o, i := Lookup(steps[start].outputs.value, data.value.fromPort).value, Lookup(steps[end].inputs.value, data.value.toPort).value;
        r == Failure(TypeMismatch(StorageType(o), StorageType(i)))
      ensures r.Failure? ==> base.edges == old(base.edges)
      ensures r.Success? <==> NamesGiven(data) && PortsMatch(steps[start], steps[end], data.value)
      ensures r.Success? ==>
        && base.edges == ConnectedEdges(old(base.nodes), old(base.edges), start, end, data.value)
        && (r.value <==> start in base.nodes && end in base.nodes)
    {
      if data.None? {
        return Failure(MissingReference);
      }
      var ref := data.value;
      if ref.fromPort == "" {
        return Failure(MissingOutputName);
      }
      if ref.toPort == "" {
        return Failure(MissingInputName);
      }
      var outputPort := Lookup(steps[start].outputs.value, ref.fromPort);
      if outputPort.None? {
        return Failure(UnknownOutputPort(ref.fromPort));
      }
      var inputPort := Lookup(steps[end].inputs.value, ref.toPort);
      if inputPort.None? {
        return Failure(UnknownInputPort(ref.toPort));
      }
      if !CanStoreType(inputPort.value, StorageType(outputPort.value)) {
        return Failure(TypeMismatch(StorageType(outputPort.value), StorageType(inputPort.value)));
      }
      base.DisconnectAll(Supersedes(end, ref.toPort));
      var ok := base.Connect(start, end, ref);
      return Success(ok);
    }

    /** `Connect(start, outputPort, end, inputPort)`: the reference built from the two ports' names. */
    method ConnectPorts(start: StepId, outputPort: Port, end: StepId, inputPort: Port) returns (r: Result<bool, ConnectError>)
      requires Valid() && start in steps && end in steps
      requires outputPort.name != "" && inputPort.name != "" ==> steps[start].outputs.Some?
      requires outputPort.name != "" && inputPort.name != "" && Lookup(steps[start].outputs.value, outputPort.name).Some? ==>
        steps[end].inputs.Some?
      modifies base
      ensures Valid() && base.nodes == old(base.nodes)
      ensures r.Failure? ==> base.edges == old(base.edges)
      ensures r.Success? <==> (outputPort.name != "" && inputPort.name != "" &&
                               PortsMatch(steps[start], steps[end], PortRef(outputPort.name, inputPort.name)))
      ensures r.Success? ==>
        base.edges == ConnectedEdges(old(base.nodes), old(base.edges), start, end, PortRef(outputPort.name, inputPort.name))
    {
      r := Connect(start, end, Some(PortRef(outputPort.name, inputPort.name)));
    }

    /**
     * The inner delivery loop of `recompute`: for each edge from `source` in
     * turn, the value of its named output is stored into the named input of
     * `target` when both ports exist.
     */
    method DeliverEdges(target: Step, source: Step, refs: seq<PortRef>) returns (s: Step)
      ensures s == DeliverRefs(target, source, refs)
    {
      s := target;
      var e := 0;
      while e < |refs|
        invariant 0 <= e <= |refs|
        invariant s == DeliverRefs(target, source, refs[..e])
      {
        var ref := refs[e];
        if s.inputs.Some? && source.outputs.Some? {
          var i := IndexOf(s.inputs.value, ref.toPort);
          var outputPort := Lookup(source.outputs.value, ref.fromPort);
          if i >= 0 && outputPort.Some? {
            var ins := s.inputs.value;
            s := s.(inputs := Some(ins[i := Store(ins[i], Fetch(outputPort.value))]));
          }
        }
        assert refs[..e + 1][..e] == refs[..e];
        e := e + 1;
      }
      assert refs[..e] == refs;
    }

    /**
     * The delivery loops of `recompute`: for each listed predecessor, every
     * edge from it into `n` is delivered.
     */
    method DeliverInputs(n: StepId, inputs: seq<StepId>) returns (s: Step)
      requires Valid() && n in steps
      requires forall a :: 0 <= a < |inputs| ==> inputs[a] in steps
      ensures s == DeliverAll(steps[n], inputs, steps, base.nodes, base.edges, n)
    {
      s := steps[n];
      var j := 0;
      while j < |inputs|
        invariant 0 <= j <= |inputs|
        invariant s == DeliverAll(steps[n], inputs[..j], steps, base.nodes, base.edges, n)
      {
        var x := inputs[j];
        s := DeliverEdges(s, steps[x], G.AllEdgeData(base.nodes, base.edges, x, n));
        assert inputs[..j + 1][..j] == inputs[..j];
        j := j + 1;
      }
      assert inputs[..j] == inputs;
    }

    /** The reset loop of `Recalculate` and `RecalculateAll`: every graph node is `Reset`. */
    method ResetAll()
      requires Valid()
      modifies this
      ensures Valid() && nextId == old(nextId) && trace == old(trace)
      ensures steps == ResetSteps(old(steps), base.nodes)
    {
      var i := 0;
      while i < |base.nodes|
        invariant 0 <= i <= |base.nodes|
        invariant Valid() && nextId == old(nextId) && trace == old(trace)
        invariant steps == ResetSteps(old(steps), base.nodes[..i])
      {
        var m := base.nodes[i];
        var s := Reset(steps[m]);
        CachedAfterReset(old(steps)[m]);
        steps := steps[m := s];
        PrefixNext(base.nodes, i);
        i := i + 1;
      }
      assert base.nodes[..i] == base.nodes;
    }

    /**
     * The first loop of `recompute(n)`: each listed predecessor whose outputs
     * are not all present is recomputed, in list order; one already cached
     * is passed over.
     */
    method RecomputeInputs(n: StepId, inputs: seq<StepId>, compute: Oracle, ghost rank: StepId -> nat) returns (ghost t: seq<StepId>)
      requires Valid() && Acyclic(base.nodes, base.edges, rank)
      requires forall x :: x in inputs ==> x in base.nodes && rank(x) < rank(n)
      modifies this
      decreases rank(n), 0
      ensures Valid() && nextId == old(nextId) && trace == old(trace) + t
      ensures InputsDone(compute, base.nodes, base.edges, rank, n, old(steps), steps, t, inputs)
    {
      t := [];
      var i := 0;
      while i < |inputs|
        invariant 0 <= i <= |inputs|
        invariant Valid() && nextId == old(nextId) && trace == old(trace) + t
        invariant InputsDone(compute, base.nodes, base.edges, rank, n, old(steps), steps, t, inputs[..i])
      {
        var x := inputs[i];
        PrefixNext(inputs, i);
        var cached := HasCachedOutput(steps[x]);
        if cached {
          InputsSkip(compute, base.nodes, base.edges, rank, n, old(steps), steps, t, inputs[..i], x);
        } else {
          ghost var before := steps;
          var tx := RecomputeTraced(x, compute, rank);
          InputsRecomputed(compute, base.nodes, base.edges, rank, n, old(steps), before, steps, t, inputs[..i], x, tx);
          AppendAssociates(old(trace), t, tx);
          t := t + tx;
        }
        i := i + 1;
      }
      assert inputs[..i] == inputs;
    }

    /**
     * `recompute(x)` as the loops that call it see it: the steps it
     * computed, which besides `x` are uncached graph nodes ranked below `x`,
     * and the progress it made.
     */
    method RecomputeTraced(x: StepId, compute: Oracle, ghost rank: StepId -> nat) returns (ghost tx: seq<StepId>)
      requires Valid() && Acyclic(base.nodes, base.edges, rank) && x in steps
      modifies this
      decreases rank(x), 2
      ensures Valid() && nextId == old(nextId) && trace == old(trace) + tx
      ensures |tx| > 0 && tx[|tx| - 1] == x && x !in tx[..|tx| - 1]
      ensures forall m :: m in tx ==> m in old(steps) && (m == x || (m in base.nodes && rank(m) < rank(x) && !Cached(old(steps)[m])))
      ensures Progress(compute, base.nodes, base.edges, old(steps), steps, tx)
      ensures FedFrom(compute, base.nodes, base.edges, old(steps), steps, x)
      ensures DataFlow(compute, base.nodes, base.edges, old(steps), steps, tx)
    {
      tx := Recompute(x, compute, rank);
    }

    /**
     * `recompute(n)`: every predecessor whose outputs are not all present is
     * recomputed first, then every edge into `n` is delivered and `n`'s own
     * `Recalculate` runs once. `t` lists the steps whose `Recalculate` ran,
     * in order. `n` ran on what its predecessors finally output, and so did
     * every other step computed once whose predecessors fill their outputs.
     */
    method Recompute(n: StepId, compute: Oracle, ghost rank: StepId -> nat) returns (ghost t: seq<StepId>)
      requires Valid() && Acyclic(base.nodes, base.edges, rank) && n in steps
      modifies this
      decreases rank(n), 1
      ensures Valid() && nextId == old(nextId) && trace == old(trace) + t
      ensures |t| > 0 && t[|t| - 1] == n && n !in t[..|t| - 1]
      ensures forall m :: m in t ==> m == n || (m in base.nodes && rank(m) < rank(n) && !Cached(old(steps)[m]))
      ensures Progress(compute, base.nodes, base.edges, old(steps), steps, t)
      ensures forall x :: Feeds(base.nodes, base.edges, x, n) ==> Cached(steps[x]) || !Fills(compute, x, steps[x])
      ensures FedFrom(compute, base.nodes, base.edges, old(steps), steps, n)
      ensures DataFlow(compute, base.nodes, base.edges, old(steps), steps, t)
    {
      var inputs := G.IncomingNodes(base.nodes, base.edges, n);
      IncomingRankedBelow(base.nodes, base.edges, rank, n);
      t := RecomputeInputs(n, inputs, compute, rank);
      ghost var mid := steps;
      var s := DeliverInputs(n, inputs);
      InputsComplete(compute, base.nodes, base.edges, rank, n, old(steps), mid, t, s);
      steps := steps[n := RunStep(compute, n, s)];
      trace := trace + [n];
      t := t + [n];
    }

    /**
     * `Recalculate(step)`: every graph node is reset, then `step`, when there
     * is one, is recomputed whether or not it is cached. Only uncached graph
     * nodes besides `step` are computed, and only non-sinks among them.
     */
    method Recalculate(step: Option<StepId>, compute: Oracle, ghost rank: StepId -> nat) returns (ghost t: seq<StepId>)
      requires Valid() && Acyclic(base.nodes, base.edges, rank)
      requires step.Some? ==> step.value in steps
      modifies this
      ensures Valid() && nextId == old(nextId) && trace == old(trace) + t
      ensures step.None? ==> t == [] && steps == ResetSteps(old(steps), base.nodes)
      ensures step.Some? ==> |t| > 0 && t[|t| - 1] == step.value && step.value !in t[..|t| - 1]
      ensures step.Some? ==> Progress(compute, base.nodes, base.edges, ResetSteps(old(steps), base.nodes), steps, t)
      ensures step.Some? ==> FedFrom(compute, base.nodes, base.edges, ResetSteps(old(steps), base.nodes), steps, step.value)
      ensures DataFlow(compute, base.nodes, base.edges, ResetSteps(old(steps), base.nodes), steps, t)
      ensures forall m :: m in t && Some(m) != step ==> m in base.nodes && !IsSink(old(steps)[m])
      ensures forall m, x :: m in t && Feeds(base.nodes, base.edges, x, m) ==> x in t || IsSink(old(steps)[x])
    {
      ResetAll();
      if step.Some? {
        t := Recompute(step.value, compute, rank);
        RecomputedAfterReset(compute, base.nodes, base.edges, old(steps), steps, step.value, t);
      } else {
        t := [];
      }
    }

    /**
     * One turn of the loop of `RecalculateAll`: `recompute(x)` for the next
     * sink `x` after the reset, which extends both the progress of the loop
     * and the order of its sinks by the steps `tx` it computed.
     */
    method RecomputeSink(x: StepId, compute: Oracle, ghost rank: StepId -> nat, ghost reset: map<StepId, Step>,
                         ghost t: seq<StepId>, ghost done: seq<StepId>, ghost done': seq<StepId>,
                         ghost parts: seq<seq<StepId>>) returns (ghost tx: seq<StepId>)
      requires Valid() && Acyclic(base.nodes, base.edges, rank) && done' == done + [x]
      requires x in base.nodes && x in reset && IsSink(reset[x])
      requires SinksDone(compute, base.nodes, base.edges, reset, steps, t, done)
      requires t == Concat(parts) && SinkOrder(reset, done, parts)
      modifies this
      ensures Valid() && nextId == old(nextId) && trace == old(trace) + tx
      ensures SinksDone(compute, base.nodes, base.edges, reset, steps, t + tx, done')
      ensures t + tx == Concat(parts + [tx]) && SinkOrder(reset, done', parts + [tx])
    {
      ghost var before := steps;
      tx := RecomputeTraced(x, compute, rank);
      SinksAdvance(compute, base.nodes, base.edges, rank, reset, before, steps, t, done, done', parts, x, tx);
    }

    /**
     * `RecalculateAll()`: every graph node is reset, then every sink is
     * recomputed in node order; `parts[i]` logs the recompute of the `i`-th
     * sink, which ends with that sink and holds no other. Afterwards every
     * sink was computed, every demanded predecessor was computed or is a
     * sink, no filled non-sink was computed twice, and each step computed
     * once whose predecessors fill their outputs ran on their final outputs.
     */
    method RecalculateAll(compute: Oracle, ghost rank: StepId -> nat) returns (ghost t: seq<StepId>, ghost parts: seq<seq<StepId>>)
      requires Valid() && Acyclic(base.nodes, base.edges, rank)
      modifies this
      ensures Valid() && nextId == old(nextId) && trace == old(trace) + t
      ensures t == Concat(parts)
      ensures SinkOrder(ResetSteps(old(steps), base.nodes), Sinks(base.nodes, ResetSteps(old(steps), base.nodes)), parts)
      ensures DataFlow(compute, base.nodes, base.edges, ResetSteps(old(steps), base.nodes), steps, t)
      ensures SinksDone(compute, base.nodes, base.edges, ResetSteps(old(steps), base.nodes), steps, t,
                        Sinks(base.nodes, ResetSteps(old(steps), base.nodes)))
      ensures forall x :: x in base.nodes && IsSink(old(steps)[x]) ==> x in t
      ensures forall m, x :: m in t && Feeds(base.nodes, base.edges, x, m) ==> x in t || IsSink(old(steps)[x])
    {
      ResetAll();
      ghost var reset := steps;
      var outs := Sinks(base.nodes, steps);
      SinksStart(compute, base.nodes, base.edges, reset);
      t, parts := [], [];
      var i := 0;
      while i < |outs|
        invariant 0 <= i <= |outs|
        invariant Valid() && nextId == old(nextId) && trace == old(trace) + t
        invariant SinksDone(compute, base.nodes, base.edges, reset, steps, t, outs[..i])
        invariant t == Concat(parts) && SinkOrder(reset, outs[..i], parts)
      {
        var x := outs[i];
        PrefixNext(outs, i);
        var tx := RecomputeSink(x, compute, rank, reset, t, outs[..i], outs[..i + 1], parts);
        AppendAssociates(old(trace), t, tx);
        t, parts := t + tx, parts + [tx];
        i := i + 1;
      }
      assert outs[..i] == outs;
      SinksFinish(compute, base.nodes, base.edges, old(steps), steps, t);
    }
  }
}
