# Blazor NodeEditor dataflow engine, in Dafny

This project models the dataflow engine behind the Blazor node editor. The
engine has three parts.

- **`Graph<Node, Edge>`** is a directed multigraph. It keeps a list of
  nodes and, for each node, a list of outgoing links. Each link holds the
  target's position and a payload. Nodes are found by their first equal
  occurrence, and `AddNode` does not deduplicate. `RemoveNode` deletes the
  node's row, drops every link that targets the removed position, and
  moves every larger target position down by one.
- **Ports and process steps.** A port is a value cell with a presence
  flag. Its store is guarded by a type check, and its fetch never fails.
  A port collection finds ports by the first matching name. A step has an
  optional input collection and an optional output collection. It counts
  as cached when every output holds a value, which is vacuously true when
  the outputs are absent or empty. `Reset` clears every port.
- **`ProcessGraph`** is a `Graph` whose nodes are steps and whose edges
  name an output port of the source and an input port of the target.
  - `Connect` runs a chain of validations. It then strips every link into
    the same input port, and only after that calls the base connect.
  - `recompute(n)` first recomputes each uncached predecessor, in the order
    the incoming-edge query lists them. It then delivers every incoming
    edge's value into `n`'s inputs, and finally runs `n`'s own
    `Recalculate` once.
  - `Recalculate(step)` resets every node and then recomputes `step`.
  - `RecalculateAll()` resets every node and then recomputes every sink
    (a step with no outputs) in node order.

Modelling choices:
- Module `Types` stands in for the .NET type system: type tags, boxed
  values, assignability, `is T` and `default(T)`.
- Ports and steps are datatype values. The process graph holds every step
  object in a map from handles (`StepId`) to step values. A handle stands
  for a C# object reference.
- Each step's abstract `Recalculate` is a supplied oracle. It maps the
  step and its input ports to one optional value per output port.
- A ghost `trace` logs every call of a step's `Recalculate`, so "computed
  once" can be stated.
- The source has no cycle guard. The recompute methods therefore require a
  ghost ranking under which every link goes upwards (`Acyclic`), and they
  terminate on that rank.

The main results are these:
- `RemoveNodeResolves`: after `RemoveNode`, every surviving link still
  joins the same start node to the same end node with the same payload, in
  the same order.
- `ConnectSingleProducer`: after a successful `Connect`, exactly one link
  feeds the chosen input port.
- `Recompute`'s contract, with the `Progress` invariant:
  - every uncached predecessor is computed before the step itself;
  - a cached predecessor is never computed;
  - in a shared ("diamond") predecessor structure, a step whose
    `Recalculate` fills its outputs is computed at most once;
  - the step's own `Recalculate` runs exactly once, last, on inputs the
    edges delivered from the outputs its predecessors hold at the end.
- `RecalculateAll`'s contract: the log of computed steps splits into one
  part per sink, in node order. Each part ends with its sink and holds no
  other sink. Every step computed once whose predecessors fill their
  outputs ran on those predecessors' final outputs (`DataFlow`).

## Model

| member | source | states |
|---|---|---|
| Types.Default | Qkmaxware.Blazor.NodeEditor/data/ProcessStep.cs:27-36 | `default(T)` is an instance of `T` for value types and `null` for reference types |
| Types.AssignableFrom | Qkmaxware.Blazor.NodeEditor/data/ProcessStep.cs:49 | `IsAssignableFrom`: `object` accepts every type, and a type that accepts `object` is `object` itself |
| Types.InstanceOf | Qkmaxware.Blazor.NodeEditor/data/ProcessStep.cs:44-46 | `is T`: `null` is an instance of nothing, and every non-null value is an `object` |
| Types.AssignableIsPreorder | Qkmaxware.Blazor.NodeEditor/data/ProcessStep.cs:48-50 | `IsAssignableFrom` is reflexive, transitive and antisymmetric, with `object` as its top |
| ProcessStep.NewPort | Qkmaxware.Blazor.NodeEditor/data/ProcessStep.cs:7-10 | a new port has its name and kind, no value present, and the value field at `null` |
| ProcessStep.CanStoreValue | Qkmaxware.Blazor.NodeEditor/data/ProcessStep.cs:11-46 | the value guard: an untyped port accepts everything; a typed port never accepts `null`; a non-null value a port accepts has a type the port accepts |
| ProcessStep.StorageType | Qkmaxware.Blazor.NodeEditor/data/ProcessStep.cs:14-47 | `GetStorageType`: `object` for an untyped port, `T` for a `NodePort<T>` |
| ProcessStep.CanStoreType | Qkmaxware.Blazor.NodeEditor/data/ProcessStep.cs:15-50 | the connect-time type check holds exactly when the storage type is assignable from the offered type |
| ProcessStep.Store | Qkmaxware.Blazor.NodeEditor/data/ProcessStep.cs:18-23 | when the value guard allows it, the port holds the value and its flag is set; otherwise the port is unchanged; name and kind never change |
| ProcessStep.FetchAs | Qkmaxware.Blazor.NodeEditor/data/ProcessStep.cs:27-36 | `Fetch<R>` gives the stored value when one is present and it is an `R`, else `default(R)`; it is total |
| ProcessStep.Fetch | Qkmaxware.Blazor.NodeEditor/data/ProcessStep.cs:24-26 | an untyped `Fetch` agrees with `Fetch<object>` on a present non-null value, and gives `null` from a new or cleared port |
| ProcessStep.Clear | Qkmaxware.Blazor.NodeEditor/data/ProcessStep.cs:37-40 | a cleared port equals a newly constructed port with the same name and kind |
| ProcessStep.StoreGuard | Qkmaxware.Blazor.NodeEditor/data/ProcessStep.cs:11-50 | an untyped port accepts every value, `null` included; `NodePort<T>` accepts exactly the instances of `T`, so it rejects `null` and storing `null` leaves it unchanged |
| ProcessStep.ConnectCheckImpliesStore | Qkmaxware.Blazor.NodeEditor/data/ProcessStep.cs:44-50 | a non-null value the output port accepts is accepted by an input port that passed the connect-time `CanStore(Type)` check |
| ProcessStep.FetchAfterStore | Qkmaxware.Blazor.NodeEditor/data/ProcessStep.cs:18-36 | after an accepted store, `Fetch` gives the value back and `Fetch<T>` gives it back exactly when it is a `T`, else `default(T)` |
| ProcessStep.FetchAfterClear | Qkmaxware.Blazor.NodeEditor/data/ProcessStep.cs:24-40 | a cleared port is indistinguishable from a new one and fetches `null` or `default(T)` |
| ProcessStep.FirstIndex | Qkmaxware.Blazor.NodeEditor/data/ProcessStep.cs:56 | the result is -1 or a position of a port with that name, and no earlier port has that name |
| ProcessStep.Lookup | Qkmaxware.Blazor.NodeEditor/data/ProcessStep.cs:56 | the name indexer gives nothing exactly when no port has the name; otherwise it gives a port of the collection with that name |
| ProcessStep.IndexOf | Qkmaxware.Blazor.NodeEditor/data/ProcessStep.cs:63-69 | the loop returns -1 exactly when the name indexer finds nothing; otherwise the first matching position, whose port is what the indexer returns |
| ProcessStep.Size | Qkmaxware.Blazor.NodeEditor/data/ProcessStep.cs:54 | the port count; zero exactly when the collection is absent or empty |
| ProcessStep.HasCachedOutput | Qkmaxware.Blazor.NodeEditor/data/ProcessStep.cs:84-92 | true exactly when the outputs are absent or every output holds a value; vacuously true for an empty collection |
| ProcessStep.ClearAll | Qkmaxware.Blazor.NodeEditor/data/ProcessStep.cs:98-105 | every port of the collection becomes a new port with the same name and kind; the collection keeps its length |
| ProcessStep.Cleared | Qkmaxware.Blazor.NodeEditor/data/ProcessStep.cs:96-107 | which collections exist and their sizes are kept, and no input or output port holds a value |
| ProcessStep.ClearPorts | Qkmaxware.Blazor.NodeEditor/data/ProcessStep.cs:98-100 | the loop clears every port of a collection |
| ProcessStep.Reset | Qkmaxware.Blazor.NodeEditor/data/ProcessStep.cs:96-107 | the loops give the cleared step |
| ProcessStep.CachedAfterReset | Qkmaxware.Blazor.NodeEditor/data/ProcessStep.cs:84-107 | after `Reset` a step is cached exactly when it has no outputs; resetting twice equals resetting once |
| Graph.IndexOf | Qkmaxware.Blazor.NodeEditor/data/Graph.cs:27 | `List.IndexOf`: -1 exactly when the node is absent, else the first position holding an equal node |
| Graph.Without | Qkmaxware.Blazor.NodeEditor/data/Graph.cs:30-31 | `RemoveAt(k)`: one element shorter; positions below `k` are kept and later ones move down by one |
| Graph.DropTargeting | Qkmaxware.Blazor.NodeEditor/data/Graph.cs:36 | after `RemoveAll`, no link targets the removed position |
| Graph.DropTargetingMembers | Qkmaxware.Blazor.NodeEditor/data/Graph.cs:36 | `RemoveAll` removes exactly the links to the position and keeps every other link |
| Graph.DropTargetingConcat | Qkmaxware.Blazor.NodeEditor/data/Graph.cs:36 | `RemoveAll` works link by link: filtering two row pieces one after the other is filtering each, so the kept links stay in their order |
| Graph.DropTargetingKeeps | Qkmaxware.Blazor.NodeEditor/data/Graph.cs:36 | a row with no link to the position is kept exactly as it is |
| Graph.DropTargetingCounts | Qkmaxware.Blazor.NodeEditor/data/Graph.cs:36 | each link not to the position is kept as often as it occurs, and each link to it not at all |
| Graph.DropTargetingInRange | Qkmaxware.Blazor.NodeEditor/data/Graph.cs:36 | dropping links keeps a row's targets in range |
| Graph.DropTargetingCount | Qkmaxware.Blazor.NodeEditor/data/Graph.cs:90-91 | `RemoveAll` shortens the row exactly when some link targeted the position |
| Graph.DataTo | Qkmaxware.Blazor.NodeEditor/data/Graph.cs:108 | the payloads of the links to one position are no more than the links |
| Graph.DataToMembers | Qkmaxware.Blazor.NodeEditor/data/Graph.cs:108 | a payload is listed exactly when some link to the position carries it; the list is empty exactly when no link targets it |
| Graph.DataToAppend | Qkmaxware.Blazor.NodeEditor/data/Graph.cs:76-80 | appending a link adds its payload at the end of the list for its target and changes no other list |
| Graph.DataToConcat | Qkmaxware.Blazor.NodeEditor/data/Graph.cs:108 | the payload filter distributes over concatenation of rows |
| Graph.DataToAfterDrop | Qkmaxware.Blazor.NodeEditor/data/Graph.cs:90 | after dropping the links to a position, no payload to it is left |
| Graph.FromRow | Qkmaxware.Blazor.NodeEditor/data/Graph.cs:62-67 | a row contributes its source once per link into the position, and nothing else |
| Graph.FromRowMembers | Qkmaxware.Blazor.NodeEditor/data/Graph.cs:62-67 | the source is listed exactly when the row has a link into the position |
| Graph.KeepUnmatched | Qkmaxware.Blazor.NodeEditor/data/Graph.cs:98 | the filtered row is no longer than the row and stays in range |
| Graph.KeepUnmatchedMembers | Qkmaxware.Blazor.NodeEditor/data/Graph.cs:98 | the filter removes exactly the links the matcher selects |
| Graph.KeepUnmatchedConcat | Qkmaxware.Blazor.NodeEditor/data/Graph.cs:98 | `RemoveAll` by a matcher works link by link: filtering two row pieces one after the other is filtering each, so the kept links stay in their order |
| Graph.KeepUnmatchedKeeps | Qkmaxware.Blazor.NodeEditor/data/Graph.cs:98 | a row none of whose links the matcher selects is kept exactly as it is |
| Graph.KeepUnmatchedCounts | Qkmaxware.Blazor.NodeEditor/data/Graph.cs:98 | each link the matcher rejects is kept as often as it occurs, and each selected link not at all |
| Graph.OutgoingNodes | Qkmaxware.Blazor.NodeEditor/data/Graph.cs:51-58 | nothing for an absent node; otherwise one graph node per outgoing link |
| Graph.OutgoingNodesMembers | Qkmaxware.Blazor.NodeEditor/data/Graph.cs:51-58 | a node is an outgoing neighbour exactly when the start node is present and one of its links targets a position holding that node |
| Graph.OutgoingIncomingDual | Qkmaxware.Blazor.NodeEditor/data/Graph.cs:51-71 | among distinct nodes, `x` is an outgoing neighbour of `n` exactly when `n` is an incoming neighbour of `x` |
| Graph.SourcesFrom | Qkmaxware.Blazor.NodeEditor/data/Graph.cs:62-67 | scanning rows from a position on lists only graph nodes |
| Graph.SourcesFromMembers | Qkmaxware.Blazor.NodeEditor/data/Graph.cs:62-67 | a node is listed exactly when one of the scanned rows belongs to it and links into the position |
| Graph.IncomingNodes | Qkmaxware.Blazor.NodeEditor/data/Graph.cs:59-71 | nothing for an absent node; only graph nodes otherwise |
| Graph.IncomingNodesMembers | Qkmaxware.Blazor.NodeEditor/data/Graph.cs:59-71 | a node is an incoming neighbour exactly when the target is present and one of that node's rows links to the target's position |
| Graph.RowsFrom | Qkmaxware.Blazor.NodeEditor/data/Graph.cs:62-67 | the scan from row `i` on names only rows from `i` on |
| Graph.IncomingRows | Qkmaxware.Blazor.NodeEditor/data/Graph.cs:59-71 | each incoming neighbour comes from a row of the graph |
| Graph.CopiesCount | Qkmaxware.Blazor.NodeEditor/data/Graph.cs:62-67 | a run of copies of one row number holds that row as often as the run is long, and no other row |
| Graph.SourcesFromRows | Qkmaxware.Blazor.NodeEditor/data/Graph.cs:62-67 | the scan lists, position by position, the node of the row each entry comes from |
| Graph.RowsFromSorted | Qkmaxware.Blazor.NodeEditor/data/Graph.cs:62-67 | the scan visits rows in ascending order |
| Graph.FromRowCount | Qkmaxware.Blazor.NodeEditor/data/Graph.cs:62-67 | one row contributes its own node once per link into the position, and no other row |
| Graph.RowsFromCount | Qkmaxware.Blazor.NodeEditor/data/Graph.cs:62-67 | each scanned row appears once per link of that row into the position |
| Graph.IncomingNodesOrder | Qkmaxware.Blazor.NodeEditor/data/Graph.cs:59-71 | the incoming neighbours are listed in node order, a node once per link from it into the target, and nothing for an absent target |
| Graph.AllEdgeData | Qkmaxware.Blazor.NodeEditor/data/Graph.cs:104-112 | empty when either endpoint is absent |
| Graph.EdgeData | Qkmaxware.Blazor.NodeEditor/data/Graph.cs:101-103 | the first start-to-end payload, or nothing exactly when there is none |
| Graph.EdgeDataPresent | Qkmaxware.Blazor.NodeEditor/data/Graph.cs:101-112 | a start-to-end payload exists exactly when both nodes are present and a link joins their positions |
| Graph.Shift | Qkmaxware.Blazor.NodeEditor/data/Graph.cs:38-40 | a link above the removed position moves down by one; others are kept; the payload is kept |
| Graph.Renumber | Qkmaxware.Blazor.NodeEditor/data/Graph.cs:37-41 | renumbering keeps the row's length |
| Graph.RemovedRows | Qkmaxware.Blazor.NodeEditor/data/Graph.cs:30-42 | removing a position leaves one row fewer |
| Graph.AppendLink | Qkmaxware.Blazor.NodeEditor/data/Graph.cs:80 | appending a link keeps the number of rows |
| Graph.Unmatched | Qkmaxware.Blazor.NodeEditor/data/Graph.cs:96-100 | filtering every row keeps the number of rows |
| Graph.Resolve | Qkmaxware.Blazor.NodeEditor/data/Graph.cs:8-13 | one (end node, payload) pair per link of a row |
| Graph.RemoveNodeWellFormed | Qkmaxware.Blazor.NodeEditor/data/Graph.cs:26-44 | removing a node keeps one row per node with every target in range |
| Graph.RemoveNodeResolves | Qkmaxware.Blazor.NodeEditor/data/Graph.cs:26-44 | each surviving row, resolved against the shortened node list, lists the same (end node, payload) pairs, in order, as its old row minus the links to the removed node |
| Graph.RemovedRowAt | Qkmaxware.Blazor.NodeEditor/data/Graph.cs:30-41 | row `i` after the removal is the renumbered row it came from, and resolves as that row did |
| Graph.RemovedRowAbove | Qkmaxware.Blazor.NodeEditor/data/Graph.cs:30-41 | a row above the removed position moves down by one and resolves as it did |
| Graph.RemovedRowResolves | Qkmaxware.Blazor.NodeEditor/data/Graph.cs:34-42 | dropping and renumbering one row keeps it in range and keeps what each link resolves to |
| Graph.UnmatchedWellFormed | Qkmaxware.Blazor.NodeEditor/data/Graph.cs:96-100 | `DisconnectAll` keeps the lists well formed and removes exactly the links the matcher selects |
| Graph.ConnectAppendsEdgeData | Qkmaxware.Blazor.NodeEditor/data/Graph.cs:72-85 | a connect keeps the lists well formed, adds its payload at the end of the start-to-end payloads, and changes no other pair's payloads |
| Graph.DisconnectClearsEdgeData | Qkmaxware.Blazor.NodeEditor/data/Graph.cs:86-95 | a disconnect keeps the lists well formed and leaves no start-to-end payload; something is removed exactly when there was a payload |
| Graph.Graph.constructor | Qkmaxware.Blazor.NodeEditor/data/Graph.cs:12-13 | a new graph is empty and well formed |
| Graph.Graph.Clear | Qkmaxware.Blazor.NodeEditor/data/Graph.cs:15-18 | both lists become empty |
| Graph.Graph.AddNode | Qkmaxware.Blazor.NodeEditor/data/Graph.cs:19-24 | appends the node, duplicates included, and an empty row; every existing node and link is unchanged |
| Graph.Graph.RemoveNode | Qkmaxware.Blazor.NodeEditor/data/Graph.cs:26-44 | nothing changes for an absent node; otherwise the first equal node and its row go and every row is dropped and renumbered; well-formedness is kept |
| Graph.Graph.Connect | Qkmaxware.Blazor.NodeEditor/data/Graph.cs:72-85 | true exactly when both nodes are present, in which case one link is appended to the end of start's row; otherwise nothing changes |
| Graph.Graph.Disconnect | Qkmaxware.Blazor.NodeEditor/data/Graph.cs:86-95 | drops exactly the start-to-end links, leaving no start-to-end payload; true exactly when there was one; nothing changes when a node is absent |
| Graph.Graph.DisconnectAll | Qkmaxware.Blazor.NodeEditor/data/Graph.cs:96-100 | every row drops the links the matcher selects and keeps the others in order |
| ProcessGraph.ApplyStores | Qkmaxware.Blazor.NodeEditor/data/ProcessGraph.cs:86 | a step's `Recalculate` stores into its own outputs and keeps their number |
| ProcessGraph.RunStep | Qkmaxware.Blazor.NodeEditor/data/ProcessGraph.cs:86 | `Recalculate` reads the inputs and never changes them |
| ProcessGraph.RunStepCaches | Qkmaxware.Blazor.NodeEditor/data/ProcessGraph.cs:86 | a step whose `Recalculate` fills its outputs is cached afterwards |
| ProcessGraph.RunStepGrows | Qkmaxware.Blazor.NodeEditor/data/ProcessGraph.cs:86 | `Recalculate` keeps a step's ports and only adds values |
| ProcessGraph.GrowsKeepsCached | Qkmaxware.Blazor.NodeEditor/data/ProcessStep.cs:84-92 | a cached step stays cached when its ports only gain values; gaining values is reflexive and transitive |
| ProcessGraph.StoreKeepsShape | Qkmaxware.Blazor.NodeEditor/data/ProcessStep.cs:18-23 | storing into a port keeps the collection's names and kinds |
| ProcessGraph.Deliver | Qkmaxware.Blazor.NodeEditor/data/ProcessGraph.cs:77-81 | delivering one edge only adds values to the target's inputs and leaves its outputs alone |
| ProcessGraph.DeliverRefs | Qkmaxware.Blazor.NodeEditor/data/ProcessGraph.cs:76-82 | delivering a predecessor's edges only adds values to the target's inputs |
| ProcessGraph.DeliverAll | Qkmaxware.Blazor.NodeEditor/data/ProcessGraph.cs:75-83 | delivering from every listed predecessor only adds values to the target's inputs |
| ProcessGraph.DeliverStores | Qkmaxware.Blazor.NodeEditor/data/ProcessGraph.cs:77-81 | when both named ports exist, the first input of that name stores the output's `Fetch()`, holding it if accepted, and no other input changes |
| ProcessGraph.DeliverRefsFrame | Qkmaxware.Blazor.NodeEditor/data/ProcessGraph.cs:76-82 | delivering one predecessor's edges reads only that predecessor's outputs |
| ProcessGraph.DeliverAllFrame | Qkmaxware.Blazor.NodeEditor/data/ProcessGraph.cs:75-83 | the delivery into a step depends only on the outputs its predecessors hold |
| ProcessGraph.Sinks | Qkmaxware.Blazor.NodeEditor/data/ProcessGraph.cs:13-15 | `GetOutputs` lists exactly the nodes whose outputs are absent or empty |
| ProcessGraph.SinksConcat | Qkmaxware.Blazor.NodeEditor/data/ProcessGraph.cs:13-15 | `GetOutputs` keeps node order: the sinks of two node lists one after the other are the sinks of each |
| ProcessGraph.SinksKeeps | Qkmaxware.Blazor.NodeEditor/data/ProcessGraph.cs:13-15 | a node list made only of sinks is listed exactly as it is |
| ProcessGraph.SinksCounts | Qkmaxware.Blazor.NodeEditor/data/ProcessGraph.cs:13-15 | each sink is listed once per occurrence in the node list, and no other step is listed |
| ProcessGraph.IncomingRankedBelow | Qkmaxware.Blazor.NodeEditor/data/ProcessGraph.cs:67-72 | in an acyclic graph every incoming neighbour is a node ranked below the step |
| ProcessGraph.ConnectedEdges | Qkmaxware.Blazor.NodeEditor/data/ProcessGraph.cs:56-59 | the strip-then-append keeps the number of rows |
| ProcessGraph.ConnectSingleProducer | Qkmaxware.Blazor.NodeEditor/data/ProcessGraph.cs:55-59 | after a connect between present nodes exactly one link feeds the input port: the new one, last in start's row; links into other ports stay in their rows |
| ProcessGraph.ConnectStartAbsent | Qkmaxware.Blazor.NodeEditor/data/ProcessGraph.cs:55-59 | with `start` absent the links into the input port are still stripped and every other link is kept |
| ProcessGraph.StripKeepsRow | Qkmaxware.Blazor.NodeEditor/data/ProcessGraph.cs:56 | stripping one row of the links into the chosen input port keeps every other link as often as it occurs, and keeps a row without such links as it is |
| ProcessGraph.ConnectKeepsRows | Qkmaxware.Blazor.NodeEditor/data/ProcessGraph.cs:55-59 | a connect keeps every link not into the chosen input port as often as it occurred in its row, and leaves a row without such links unchanged apart from the new link at the end of start's row |
| ProcessGraph.Supersedes | Qkmaxware.Blazor.NodeEditor/data/ProcessGraph.cs:56 | the matcher handed to `DisconnectAll` selects exactly the links into the named input port of `end`, whatever their start |
| ProcessGraph.NamesGiven | Qkmaxware.Blazor.NodeEditor/data/ProcessGraph.cs:28-39 | the reference checks: a missing reference fails, and a passing one names both ports with non-empty names |
| ProcessGraph.PortsMatch | Qkmaxware.Blazor.NodeEditor/data/ProcessGraph.cs:40-53 | the port checks: both named ports exist, and every non-null value the output port accepts is accepted by the input port |
| ProcessGraph.GrowsKeepsFills | Qkmaxware.Blazor.NodeEditor/data/ProcessGraph.cs:68-72 | gaining values changes neither whether `Recalculate` fills a step nor whether it is a sink |
| ProcessGraph.EvolvedStable | Qkmaxware.Blazor.NodeEditor/data/ProcessGraph.cs:62-87 | across part of a pass, cached steps stay cached and filled and sink steps stay so |
| ProcessGraph.EvolvedChain | Qkmaxware.Blazor.NodeEditor/data/ProcessGraph.cs:62-87 | two stretches of a pass compose into one |
| ProcessGraph.FilledCachedStep | Qkmaxware.Blazor.NodeEditor/data/ProcessGraph.cs:68-72 | computed filled steps stay cached when the pass goes on |
| ProcessGraph.ComputedOnceStep | Qkmaxware.Blazor.NodeEditor/data/ProcessGraph.cs:68-72 | a nested recompute touching only uncached steps computes no filled step a second time |
| ProcessGraph.DemandsMetStep | Qkmaxware.Blazor.NodeEditor/data/ProcessGraph.cs:67-72 | every predecessor of a computed step stays computed or cached at the start across stretches |
| ProcessGraph.ProgressStep | Qkmaxware.Blazor.NodeEditor/data/ProcessGraph.cs:67-72 | a nested recompute that touches only uncached steps extends the progress of the pass around it |
| ProcessGraph.ProgressFinish | Qkmaxware.Blazor.NodeEditor/data/ProcessGraph.cs:74-86 | once the predecessors are computed or cached, running the step itself completes the progress |
| ProcessGraph.InputsFinish | Qkmaxware.Blazor.NodeEditor/data/ProcessGraph.cs:74-86 | after the first loop the step itself is still untouched, every predecessor is cached or unfillable, and running the step completes the progress |
| ProcessGraph.InputsFed | Qkmaxware.Blazor.NodeEditor/data/ProcessGraph.cs:74-86 | running the step after the delivery leaves it fed from its predecessors' current outputs, and keeps what each earlier step computed once was fed |
| ProcessGraph.InputsComplete | Qkmaxware.Blazor.NodeEditor/data/ProcessGraph.cs:62-87 | after the first loop, delivering and running the step completes every guarantee of a recompute: order, progress, and what each step was fed |
| ProcessGraph.SinkOutputsKept | Qkmaxware.Blazor.NodeEditor/data/ProcessGraph.cs:86 | a sink's outputs stay unchanged while its inputs gain values |
| ProcessGraph.FedFromCarried | Qkmaxware.Blazor.NodeEditor/data/ProcessGraph.cs:74-86 | a step keeps what it was fed while neither it nor its predecessors' outputs change |
| ProcessGraph.FedFromKept | Qkmaxware.Blazor.NodeEditor/data/ProcessGraph.cs:74-86 | changing a step that neither is `m` nor feeds `m` keeps what `m` was fed |
| ProcessGraph.FedFromLast | Qkmaxware.Blazor.NodeEditor/data/ProcessGraph.cs:74-86 | a step that does not feed itself, delivered into and run, was fed from its predecessors' current outputs |
| ProcessGraph.DataFlowFinish | Qkmaxware.Blazor.NodeEditor/data/ProcessGraph.cs:74-86 | running the step last keeps what each step computed once before it was fed, because every such step ranks below it |
| ProcessGraph.DataFlowStep | Qkmaxware.Blazor.NodeEditor/data/ProcessGraph.cs:62-87 | what steps computed once were fed survives a later stretch of the pass, because that stretch changes no cached step's outputs |
| ProcessGraph.FedFromEarlier | Qkmaxware.Blazor.NodeEditor/data/ProcessGraph.cs:68-72 | a step computed once in an earlier stretch keeps what it was fed, because each of its filling predecessors was cached before the later stretch |
| ProcessGraph.InputsSkip | Qkmaxware.Blazor.NodeEditor/data/ProcessGraph.cs:69 | a predecessor found cached is passed over without computing it |
| ProcessGraph.InputsRecomputed | Qkmaxware.Blazor.NodeEditor/data/ProcessGraph.cs:69-71 | a predecessor found uncached is recomputed and counted as done |
| ProcessGraph.SinksStart | Qkmaxware.Blazor.NodeEditor/data/ProcessGraph.cs:104 | before the sink loop nothing is computed |
| ProcessGraph.SinksStep | Qkmaxware.Blazor.NodeEditor/data/ProcessGraph.cs:104-106 | recomputing one sink extends the loop without computing a filled non-sink twice |
| ProcessGraph.SinkOrderStep | Qkmaxware.Blazor.NodeEditor/data/ProcessGraph.cs:104-106 | recomputing the next sink adds one part to the log that ends with that sink and holds no other sink |
| ProcessGraph.SinksAdvance | Qkmaxware.Blazor.NodeEditor/data/ProcessGraph.cs:104-106 | one turn of the sink loop extends its progress, its log and its sink order together |
| ProcessGraph.SinksFinish | Qkmaxware.Blazor.NodeEditor/data/ProcessGraph.cs:97-107 | after the loop every sink was computed and every demanded predecessor was computed or is a sink |
| ProcessGraph.ResetSteps | Qkmaxware.Blazor.NodeEditor/data/ProcessGraph.cs:91-93 | resetting the graph nodes keeps every step object |
| ProcessGraph.ResetUncaches | Qkmaxware.Blazor.NodeEditor/data/ProcessGraph.cs:89-101 | after the reset a graph node is cached exactly when it is a sink; other steps are untouched; ports are kept; resetting is idempotent |
| ProcessGraph.RecomputedAfterReset | Qkmaxware.Blazor.NodeEditor/data/ProcessGraph.cs:89-96 | after a reset, a recompute of one step computes no other sink, and every predecessor of a computed step was computed or is a sink |
| ProcessGraph.ProcessGraph.constructor | Qkmaxware.Blazor.NodeEditor/data/ProcessGraph.cs:12 | a new process graph is empty and valid |
| ProcessGraph.ProcessGraph.NewStep | Qkmaxware.Blazor.NodeEditor/data/ProcessStep.cs:76-78 | a new step object gets a fresh handle and nothing else changes |
| ProcessGraph.ProcessGraph.AddNode | Qkmaxware.Blazor.NodeEditor/data/Graph.cs:19-24 | the inherited `AddNode` appends the step and an empty row |
| ProcessGraph.ProcessGraph.RemoveNode | Qkmaxware.Blazor.NodeEditor/data/Graph.cs:26-44 | the inherited `RemoveNode`, keeping every remaining node bound to a step object |
| ProcessGraph.ProcessGraph.Connect | Qkmaxware.Blazor.NodeEditor/data/ProcessGraph.cs:26-60 | each failed check gives its own error, in source order, with nothing changed; it succeeds exactly when the names are given, both ports exist and the types match; success strips the links into the input port and then runs the base connect, reporting whether both nodes are present |
| ProcessGraph.ProcessGraph.ConnectPorts | Qkmaxware.Blazor.NodeEditor/data/ProcessGraph.cs:20-25 | the port-object overload succeeds exactly when both names are given and the ports match, and then connects as the reference overload |
| ProcessGraph.ProcessGraph.DeliverEdges | Qkmaxware.Blazor.NodeEditor/data/ProcessGraph.cs:76-82 | the loop over one predecessor's edges delivers them in order |
| ProcessGraph.ProcessGraph.DeliverInputs | Qkmaxware.Blazor.NodeEditor/data/ProcessGraph.cs:75-83 | the loops deliver every predecessor's edges in list order |
| ProcessGraph.ProcessGraph.ResetAll | Qkmaxware.Blazor.NodeEditor/data/ProcessGraph.cs:91-93 | every graph node is reset and nothing else changes |
| ProcessGraph.ProcessGraph.RecomputeInputs | Qkmaxware.Blazor.NodeEditor/data/ProcessGraph.cs:67-72 | each uncached predecessor is recomputed and each cached one is passed over; only uncached lower-ranked steps are computed; afterwards every predecessor is cached or unfillable |
| ProcessGraph.ProcessGraph.RecomputeTraced | Qkmaxware.Blazor.NodeEditor/data/ProcessGraph.cs:62-87 | a recompute computes the step once and last, and otherwise only uncached lower-ranked steps; it makes progress; the step ran on what its predecessors finally output, and so did every step computed once whose predecessors fill their outputs |
| ProcessGraph.ProcessGraph.Recompute | Qkmaxware.Blazor.NodeEditor/data/ProcessGraph.cs:62-87 | the step's `Recalculate` runs once and last, after the delivery into its inputs from its predecessors' final outputs; the other computed steps are uncached lower-ranked predecessors, each filled one computed once and left cached; every predecessor is computed or was cached; each step computed once whose predecessors fill their outputs ran on their final outputs |
| ProcessGraph.ProcessGraph.Recalculate | Qkmaxware.Blazor.NodeEditor/data/ProcessGraph.cs:89-96 | everything is reset, then the step alone is computed unconditionally, on what its predecessors finally output; the other steps computed are non-sink graph nodes; every demanded predecessor is computed or is a sink; each step computed once whose predecessors fill their outputs ran on their final outputs |
| ProcessGraph.ProcessGraph.RecomputeSink | Qkmaxware.Blazor.NodeEditor/data/ProcessGraph.cs:104-106 | recomputing the next sink after the reset extends the loop's progress, its log and its sink order |
| ProcessGraph.ProcessGraph.RecalculateAll | Qkmaxware.Blazor.NodeEditor/data/ProcessGraph.cs:97-107 | everything is reset, then every sink is computed, in node order: the log splits into one part per sink, each ending with its sink and holding no other; every demanded predecessor is computed or is a sink; no filled non-sink is computed twice; each step computed once whose predecessors fill their outputs ran on their final outputs |

## Left out

- Ports and steps are values in a map keyed by handles, not shared objects. Aliasing is not modelled: the same port object in two collections, and one step object in two graphs. `NodePort.Store`/`Clear` are therefore functions that return the new port. Each step lives once in the process graph's `steps` map.
- Null references:
  - a null step or port collection is represented by a handle in `steps` or an absent collection (`Option`);
  - dereferencing a null `Outputs`/`Inputs` in `Connect` becomes a precondition;
  - a null port name is not distinguished from the empty name;
  - null edge payloads in the plain `Graph` are not modelled.
- `ProcessGraph.ProcessGraph.Connect`: the case where `start` or `end` is not a step object is a precondition, not a modelled `NullReferenceException`.
- `ProcessGraph.ProcessGraph.Recompute`: "computed at most once" is stated only for steps whose `Recalculate` fills every output. A step whose `Recalculate` leaves an output empty stays uncached, and each consumer recomputes it again, as the code does.
- `ProcessGraph.ProcessGraph.Recompute`, `ProcessGraph.ProcessGraph.Recalculate` and `ProcessGraph.ProcessGraph.RecalculateAll`: "ran on its predecessors' final outputs" is stated for the recomputed step itself and for every other step computed exactly once whose predecessors all fill their outputs. A step whose `Recalculate` leaves an output empty stays uncached and is recomputed by each later consumer, and the model does not prove that its outputs come out the same again, so neither it nor its consumers are covered.
- `Graph.OutgoingIncomingDual` is stated for node lists without duplicates. With a duplicate, `IndexOf` reaches only the first copy, so a link from or to a later copy is seen by one of the two neighbour queries and not by the other.
- `ProcessGraph.ProcessGraph.RecalculateAll`: a sink listed twice in the node list is recomputed once per listing, so "computed once" is not claimed for sinks.
- `ProcessGraph.ProcessGraph.DeliverEdges`: an edge is skipped when the target's input collection or the source's output collection is missing. The code would throw a `NullReferenceException` there. Edges made by `Connect` only join steps that have both collections.
- A step's abstract `Recalculate` is an oracle that only stores into the step's own outputs. Side effects on other objects are not modelled.
- Cyclic graphs are excluded by the `Acyclic` precondition. The code has no cycle guard and would recurse without end.
- `GetNodesOfType`, `GetOutputsOfType`, `GetNodes`, `NodePortCollection.Enumerate`, the integer indexer of `NodePortCollection` and its constructors are left out: they are plain sequence views and casts.
- The .NET type system is reduced to four type tags with `object` as top. `GetStorageType`, `IsAssignableFrom`, `is T` and `default(T)` are modelled over these tags.
- The laziness of `IEnumerable`/LINQ is not modelled. Query results are finite sequences computed when called.
- `List.IndexOf` and `List.RemoveAll` are modelled as functions (`Graph.IndexOf`, `Graph.DropTargeting`, `Graph.KeepUnmatched`). The decrement loop of `RemoveNode` and the loop of `DisconnectAll` are loops.
- The inherited `Clear`, `Disconnect` and `DisconnectAll` are called on the process graph's `base` graph. They have no separate process-graph wrappers.
- `ProcessGraph.ProcessGraph` exposes `base` only for the inherited `Clear`, `Disconnect` and `DisconnectAll`. In C# `Connect` is virtual, so every connect goes through the checked override. In the model, `base.Connect` can still be called directly and would skip those checks; virtual dispatch is not modelled.
- `ParametereizedProcessStep`/`ParametreizedProcessStep<T>` hold parameters and have no behaviour, so they are left out. `Nodes.cs` (display metadata), `NodeGenerator.cs`, the property drawers and the test node types are not part of this model.
