/** The guarded helpers the compiler injects for `at`, `copyWithin` and
    `fill` (the resource file `Array.js` and the identical bodies the
    general array pass builds). Each first checks that its argument is an
    array; on an array it computes what the library polyfill computes. */
module ArrayResources {
  import opened Base
  import opened Values
  import AP = ArrayPolyfill

  /** The guard shared by the three helpers. */
  predicate NotAnArray(v: Value)
  {
    v == Undefined || v == Null || !IsArray(v)
  }

  /** `___btt_Array_arrayAt(array, index)`. */
  function ArrayAt(arr: Value, index: int): (r: Value)
    ensures NotAnArray(arr) ==> r == Undefined
    ensures !NotAnArray(arr) ==>
      r == (match AP.At(arr.elems, index) case Some(x) => x case None => Undefined)
  {
    if NotAnArray(arr) then Undefined
    else
      var len := |arr.elems|;
      if index < 0 then
        var positiveIndex := len + index;
        if positiveIndex >= 0 then arr.elems[positiveIndex] else Undefined
      else if index < len then arr.elems[index]
      else Undefined
  }

  /** The value a call of the `copyWithin` helper returns. */
  function CopyWithinResult(arr: Value, target: int, start: int, end: Option<int>): Value
  {
    if NotAnArray(arr) then Undefined else Arr(AP.CopyWithinSpec(arr.elems, target, start, end))
  }

  /** The value a call of the `fill` helper returns. */
  function FillResult(arr: Value, value: Value, start: Option<int>, end: Option<int>): Value
  {
    if NotAnArray(arr) then arr else Arr(AP.FillSpec(arr.elems, value, start, end))
  }

  /** `___btt_Array_arrayCopyWithin(array, target, start, end)`: `undefined`
      for anything but an array. */
  method ArrayCopyWithin(arr: Value, target: int, start: int, end: Option<int>) returns (r: Value)
    ensures NotAnArray(arr) ==> r == Undefined
    ensures !NotAnArray(arr) ==> r == Arr(AP.CopyWithinSpec(arr.elems, target, start, end))
    ensures r == CopyWithinResult(arr, target, start, end)
  {
    if NotAnArray(arr) {
      return Undefined;
    }
    var elems := AP.CopyWithin(arr.elems, target, start, end);
    r := Arr(elems);
  }

  /** `___btt_Array_arrayFill(array, value, start, end)`: anything but an
      array is handed back unchanged. */
  method ArrayFill(arr: Value, value: Value, start: Option<int>, end: Option<int>) returns (r: Value)
    ensures NotAnArray(arr) ==> r == arr
    ensures !NotAnArray(arr) ==> r == Arr(AP.FillSpec(arr.elems, value, start, end))
    ensures r == FillResult(arr, value, start, end)
  {
    if NotAnArray(arr) {
      return arr;
    }
    var elems := AP.Fill(arr.elems, value, start, end);
    r := Arr(elems);
  }

  lemma ArrayAtExamples()
    ensures ArrayAt(Arr([Num(10), Num(20), Num(30), Num(40)]), -1) == Num(40)
    ensures ArrayAt(Arr([Num(10), Num(20), Num(30), Num(40)]), -4) == Num(10)
    ensures ArrayAt(Arr([Num(1), Num(2), Num(3)]), 3) == Undefined
    ensures ArrayAt(Arr([Undefined, Null, Num(0)]), 1) == Null
    ensures ArrayAt(Null, 0) == Undefined && ArrayAt(Num(5), 0) == Undefined
  {
  }
}
