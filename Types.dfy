/**
 * A small stand-in for the .NET type system the ports rely on: runtime type
 * tags, boxed values, `IsAssignableFrom`, `is T` and `default(T)`.
 */
module Types {

  /** Type tags. `Object` is the root every other tag derives from. */
  datatype Ty = Object | Float | Int | Text

  /** A runtime value: `null`, or an instance carrying its runtime type. */
  datatype Value = Null | Boxed(ty: Ty, payload: int)

  /** `t.IsAssignableFrom(u)`: a value of type `u` may be used where `t` is expected. */
  predicate AssignableFrom(t: Ty, u: Ty)
    ensures t == Object ==> AssignableFrom(t, u)
    ensures AssignableFrom(t, u) && u == Object ==> t == Object
  {
    t == u || t == Object
  }

  /** `v is t`: never true of `null`. */
  predicate InstanceOf(v: Value, t: Ty)
    ensures InstanceOf(v, t) ==> v != Null
    ensures v != Null && t == Object ==> InstanceOf(v, t)
  {
    v.Boxed? && AssignableFrom(t, v.ty)
  }

  /** Value types (here `float` and `int`) default to a zero, reference types to `null`. */
  predicate IsValueType(t: Ty)
  {
    t == Float || t == Int
  }

  /** `default(t)`. */
  function Default(t: Ty): (r: Value)
    ensures IsValueType(t) ==> InstanceOf(r, t)
    ensures !IsValueType(t) ==> r == Null
  {
    if IsValueType(t) then Boxed(t, 0) else Null
  }

  /** Assignability is reflexive and transitive, and `Object` is its top. */
  lemma AssignableIsPreorder(t: Ty, u: Ty, w: Ty)
    ensures AssignableFrom(t, t)
    ensures AssignableFrom(Object, t)
    ensures AssignableFrom(t, u) && AssignableFrom(u, w) ==> AssignableFrom(t, w)
    ensures AssignableFrom(t, u) && AssignableFrom(u, t) ==> t == u
  {
  }
}
