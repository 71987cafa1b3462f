/** `entries` of the Object polyfill: one key and value pair per key, in
    key order. */
module ObjectPolyfill {
  import opened Objects

  method Entries<V>(obj: Obj<V>) returns (r: seq<(string, V)>)
    requires Valid(obj)
    ensures |r| == |obj.keys|
    ensures forall i :: 0 <= i < |r| ==> r[i].0 == obj.keys[i] && r[i].1 == obj.props[obj.keys[i]]
    ensures obj.keys == [] ==> r == []
  {
    r := [];
    var i := 0;
    while i < |obj.keys|
      invariant 0 <= i <= |obj.keys|
      invariant |r| == i
      invariant forall j :: 0 <= j < i ==> r[j] == (obj.keys[j], obj.props[obj.keys[j]])
    {
      var key := obj.keys[i];
      r := r + [(key, obj.props[key])];
      i := i + 1;
    }
  }
}
