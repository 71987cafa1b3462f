/** Run-time values of the target dialect, as far as the helper library
    observes them: the guarded helpers only ask whether a value is
    `undefined`, `null` or an array, and `flat` looks inside arrays. Other
    objects are opaque references. */
module Values {

  datatype Value =
    | Undefined
    | Null
    | Bool(b: bool)
    | Num(n: int)
    | Str(s: string)
    | Arr(elems: seq<Value>)
    | ObjRef(id: nat)

  /** The dialect's `IsArray` built-in. */
  predicate IsArray(v: Value) { v.Arr? }
}
