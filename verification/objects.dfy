/** Plain objects with string keys in insertion order. This is the order
    `for (key in obj)` and `Object.keys` enumerate keys that are not
    integer-like; ECMAScript puts integer-like keys first, in ascending
    order, and the model assumes there are none. Assigning an existing key
    keeps its position; assigning a new key appends it. */
module Objects {

  datatype Obj<V> = Obj(keys: seq<string>, props: map<string, V>)

  /** Keys are listed once each, and exactly the keys that have a value. */
  ghost predicate Valid<V>(o: Obj<V>)
  {
    && (forall i, j :: 0 <= i < j < |o.keys| ==> o.keys[i] != o.keys[j])
    && (forall k :: k in o.props <==> k in o.keys)
  }

  function Empty<V>(): (o: Obj<V>)
    ensures Valid(o)
  {
    Obj([], map[])
  }

  /** `obj[key] = value` / `obj.SetProperty(key, value)`. */
  function Set<V>(o: Obj<V>, key: string, value: V): (r: Obj<V>)
    requires Valid(o)
    ensures Valid(r)
    ensures r.props == o.props[key := value]
    ensures key in o.props ==> r.keys == o.keys
    ensures key !in o.props ==> r.keys == o.keys + [key]
  {
    if key in o.props then Obj(o.keys, o.props[key := value])
    else Obj(o.keys + [key], o.props[key := value])
  }
}
