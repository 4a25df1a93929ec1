/**
 * Ports, port collections and process steps: the value cells a step reads
 * its inputs from and writes its outputs to, and the per-step cache test.
 */
module ProcessStep {
  import opened Wrappers
  import opened Types

  /** `NodePort` accepts anything; `NodePort<T>` accepts instances of `T` only. */
  datatype PortKind = Untyped | Typed(t: Ty)

  /** A port: its name, what it accepts, the presence flag and the stored value. */
  datatype Port = Port(name: string, kind: PortKind, hasValue: bool, value: Value)

  /** A port as constructed: no value present and the value field at `null`. */
  function NewPort(name: string, kind: PortKind): (p: Port)
    ensures p.name == name && p.kind == kind
    ensures !p.hasValue && p.value == Null
  {
    Port(name, kind, false, Null)
  }

  /** The store-time guard `CanStore(object)`. */
  predicate CanStoreValue(p: Port, v: Value)
    ensures p.kind.Untyped? ==> CanStoreValue(p, v)
    ensures p.kind.Typed? && CanStoreValue(p, v) ==> v != Null
    ensures CanStoreValue(p, v) && v != Null ==> CanStoreType(p, v.ty)
  {
    match p.kind
    case Untyped => true
    case Typed(t) => InstanceOf(v, t)
  }

  /** `GetStorageType()`: `object` for an untyped port, `T` for `NodePort<T>`. */
  function StorageType(p: Port): (r: Ty)
    ensures p.kind == Typed(r) || (p.kind.Untyped? && r == Object)
  {
    match p.kind
    case Untyped => Object
    case Typed(t) => t
  }

  /** The connect-time guard `CanStore(Type)`. */
  predicate CanStoreType(p: Port, u: Ty)
    ensures CanStoreType(p, u) <==> AssignableFrom(StorageType(p), u)
  {
    match p.kind
    case Untyped => true
    case Typed(t) => AssignableFrom(t, u)
  }

  /** `Store(v)`: takes the value and sets the flag when the guard allows it, else does nothing. */
  function Store(p: Port, v: Value): (r: Port)
    ensures r.name == p.name && r.kind == p.kind
    ensures CanStoreValue(p, v) ==> r.hasValue && r.value == v
    ensures !CanStoreValue(p, v) ==> r == p
  {
    if CanStoreValue(p, v) then p.(value := v, hasValue := true) else p
  }

  /** `Fetch()`: the raw stored value, `null` when nothing was stored. */
  function Fetch(p: Port): (r: Value)
    ensures p.hasValue && r != Null ==> FetchAs(p, Object) == r
    ensures !p.hasValue && p.value == Null ==> r == Null
  {
    p.value
  }

  /** `Fetch<R>()`: the stored value when there is one and it is an `R`, else `default(R)`. */
  function FetchAs(p: Port, t: Ty): (r: Value)
    ensures p.hasValue && InstanceOf(p.value, t) ==> r == p.value
    ensures !(p.hasValue && InstanceOf(p.value, t)) ==> r == Default(t)
  {
    if !p.hasValue then Default(t)
    else if InstanceOf(p.value, t) then p.value
    else Default(t)
  }

  /** `Clear()`: the flag goes down and the value back to `null`. */
  function Clear(p: Port): (r: Port)
    ensures r == NewPort(p.name, p.kind)
  {
    p.(hasValue := false, value := Null)
  }

  /** An untyped port accepts every value, `null` included; a typed one rejects `null`. */
  lemma StoreGuard(p: Port, v: Value)
    ensures p.kind.Untyped? ==> CanStoreValue(p, v) && CanStoreType(p, StorageType(p))
    ensures p.kind.Typed? ==> !CanStoreValue(p, Null) && Store(p, Null) == p
    ensures p.kind.Typed? ==> (CanStoreValue(p, v) <==> InstanceOf(v, p.kind.t))
  {
  }

  /** What passes the connect-time type check also passes the store-time value check. */
  lemma ConnectCheckImpliesStore(input: Port, output: Port, v: Value)
    requires CanStoreType(input, StorageType(output))
    requires CanStoreValue(output, v) && v != Null
    ensures CanStoreValue(input, v)
  {
    if input.kind.Typed? {
      AssignableIsPreorder(input.kind.t, StorageType(output), v.ty);
    }
  }

  /** A stored value is what `Fetch` and, for an instance of `t`, `Fetch<t>` give back. */
  lemma FetchAfterStore(p: Port, v: Value, t: Ty)
    requires CanStoreValue(p, v)
    ensures Fetch(Store(p, v)) == v
    ensures InstanceOf(v, t) ==> FetchAs(Store(p, v), t) == v
    ensures !InstanceOf(v, t) ==> FetchAs(Store(p, v), t) == Default(t)
  {
  }

  /** A cleared port is indistinguishable from a new one and fetches only defaults. */
  lemma FetchAfterClear(p: Port, t: Ty)
    ensures Clear(p) == Clear(NewPort(p.name, p.kind))
    ensures Fetch(Clear(p)) == Null && FetchAs(Clear(p), t) == Default(t)
  {
  }

  /** The position of the first port called `name`, or -1. */
  function FirstIndex(ports: seq<Port>, name: string): (r: int)
    ensures -1 <= r < |ports|
    ensures 0 <= r ==> ports[r].name == name
    ensures forall q :: 0 <= q < |ports| && (r < 0 || q < r) ==> ports[q].name != name
  {
    if |ports| == 0 then -1
    else if ports[0].name == name then 0
    else
      var k := FirstIndex(ports[1..], name);
      if k < 0 then -1 else k + 1
  }

  /** The name indexer `this[string]`: the first port with that name, or `null`. */
  function Lookup(ports: seq<Port>, name: string): (r: Option<Port>)
    ensures r.None? <==> forall q :: 0 <= q < |ports| ==> ports[q].name != name
    ensures r.Some? ==> r.value.name == name && r.value in ports
  {
    var k := FirstIndex(ports, name);
    if k < 0 then None else Some(ports[k])
  }

  /** `IndexOf(name)`: the loop finds the first matching position, as the indexer does. */
  method IndexOf(ports: seq<Port>, name: string) returns (r: int)
    ensures -1 <= r < |ports|
    ensures r == -1 <==> Lookup(ports, name).None?
    ensures 0 <= r ==> ports[r].name == name && Lookup(ports, name) == Some(ports[r])
    ensures forall q :: 0 <= q < |ports| && (r < 0 || q < r) ==> ports[q].name != name
  {
    var i := 0;
    while i < |ports|
      invariant 0 <= i <= |ports|
      invariant forall q :: 0 <= q < i ==> ports[q].name != name
    {
      if ports[i].name == name {
        return i;
      }
      i := i + 1;
    }
    return -1;
  }

  /** A process step: its optional input and output collections (`null` when absent). */
  datatype Step = Step(inputs: Option<seq<Port>>, outputs: Option<seq<Port>>)

  /** `Size` of an optional collection, zero when it is absent. */
  function Size(c: Option<seq<Port>>): (r: nat)
    ensures c.Some? ==> r == |c.value|
    ensures r == 0 <==> c.None? || c.value == []
  {
    if c.None? then 0 else |c.value|
  }

  /** A step is cached when it has no output collection or every output holds a value. */
  predicate Cached(s: Step)
  {
    s.outputs.None? || forall q :: 0 <= q < |s.outputs.value| ==> s.outputs.value[q].hasValue
  }

  /** `HasCachedOutput()`: stops at the first output without a value. */
  method HasCachedOutput(s: Step) returns (r: bool)
    ensures r == Cached(s)
  {
    if s.outputs.Some? {
      var outs := s.outputs.value;
      var i := 0;
      while i < |outs|
        invariant 0 <= i <= |outs|
        invariant forall q :: 0 <= q < i ==> outs[q].hasValue
      {
        if !outs[i].hasValue {
          return false;
        }
        i := i + 1;
      }
    }
    return true;
  }

  /** Every port of a collection cleared, in place. */
  function ClearAll(ports: seq<Port>): (r: seq<Port>)
    ensures |r| == |ports|
    ensures forall q :: 0 <= q < |r| ==> r[q] == NewPort(ports[q].name, ports[q].kind)
  {
    seq(|ports|, q requires 0 <= q < |ports| => Clear(ports[q]))
  }

  /** A step with every input and output port cleared; which collections exist is kept. */
  function Cleared(s: Step): (r: Step)
    ensures r.inputs.Some? == s.inputs.Some? && r.outputs.Some? == s.outputs.Some?
    ensures Size(r.inputs) == Size(s.inputs) && Size(r.outputs) == Size(s.outputs)
    ensures r.inputs.Some? ==> forall q :: 0 <= q < |r.inputs.value| ==> !r.inputs.value[q].hasValue
    ensures r.outputs.Some? ==> forall q :: 0 <= q < |r.outputs.value| ==> !r.outputs.value[q].hasValue
  {
    Step(if s.inputs.None? then None else Some(ClearAll(s.inputs.value)),
         if s.outputs.None? then None else Some(ClearAll(s.outputs.value)))
  }

  /** Clears the ports of one collection one by one. */
  method ClearPorts(ports: seq<Port>) returns (r: seq<Port>)
    ensures r == ClearAll(ports)
  {
    r := ports;
    var i := 0;
    while i < |r|
      invariant 0 <= i <= |r| == |ports|
      invariant forall q :: 0 <= q < i ==> r[q] == Clear(ports[q])
      invariant forall q :: i <= q < |r| ==> r[q] == ports[q]
    {
      r := r[i := Clear(r[i])];
      i := i + 1;
    }
  }

  /** `Reset()`: clears every input port, then every output port. */
  method Reset(s: Step) returns (r: Step)
    ensures r == Cleared(s)
  {
    r := s;
    if s.inputs.Some? {
      var ins := ClearPorts(s.inputs.value);
      r := r.(inputs := Some(ins));
    }
    if s.outputs.Some? {
      var outs := ClearPorts(s.outputs.value);
      r := r.(outputs := Some(outs));
    }
  }

  /** After a reset a step is cached exactly when it has no output to fill. */
  lemma CachedAfterReset(s: Step)
    ensures Cached(Cleared(s)) <==> Size(s.outputs) == 0
    ensures Cleared(Cleared(s)) == Cleared(s)
  {
    if s.outputs.Some? && |s.outputs.value| > 0 {
      assert !Cleared(s).outputs.value[0].hasValue;
    }
    if s.inputs.Some? {
      assert ClearAll(ClearAll(s.inputs.value)) == ClearAll(s.inputs.value);
    }
    if s.outputs.Some? {
      assert ClearAll(ClearAll(s.outputs.value)) == ClearAll(s.outputs.value);
    }
  }
}
