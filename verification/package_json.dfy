/** The parts of a `package.json` that dependency extraction and linking
    read: the `ws:root` string and the `ws:apiext` object with its `libs`
    array. */
module PackageJson {

  /** A parsed JSON value. */
  datatype Json =
    | JNull
    | JBool(b: bool)
    | JNum(n: int)
    | JStr(s: string)
    | JArr(items: seq<Json>)
    | JObj(fields: map<string, Json>)

  /** How a JavaScript expression ends: with a value or with a thrown
      `TypeError`. */
  datatype Outcome<T> = Returns(value: T) | Throws

  /** `obj[key]`, with a missing key read as `undefined`. */
  datatype Field = Undefined | Present(v: Json)

  function Get(o: Json, key: string): Field
  {
    if o.JObj? && key in o.fields then Present(o.fields[key]) else Undefined
  }

  /** `typeof v === 'object'` holds for objects, arrays and `null`. */
  predicate TypeofObject(f: Field)
  {
    f.Present? && (f.v.JObj? || f.v.JArr? || f.v.JNull?)
  }

  /** The condition shared by `extractBorisTypeDependencies` and
      `parseWsPackageInfo`: `ws:root` is a string, `ws:apiext` is an object
      and its `libs` is an array. JavaScript evaluates it left to right, so
      a document that is `null` throws on its first field read, a string
      root with a `null` `ws:apiext` reads the `libs` of `null` and throws,
      and an array `ws:apiext` has no `libs` and fails the test. Any other
      non-object document has no fields and fails the test. */
  function IsWsPackage(pkg: Json): (r: Outcome<bool>)
    ensures r == Throws <==> pkg.JNull? || (Get(pkg, "ws:root").Present? && Get(pkg, "ws:root").v.JStr?
                                            && Get(pkg, "ws:apiext") == Present(JNull))
    ensures r == Returns(true) <==>
      && Get(pkg, "ws:root").Present? && Get(pkg, "ws:root").v.JStr?
      && Get(pkg, "ws:apiext").Present? && Get(pkg, "ws:apiext").v.JObj?
      && Get(Get(pkg, "ws:apiext").v, "libs").Present?
      && Get(Get(pkg, "ws:apiext").v, "libs").v.JArr?
  {
    var root := Get(pkg, "ws:root");
    var apiext := Get(pkg, "ws:apiext");
    if pkg.JNull? then Throws
    else if !(root.Present? && root.v.JStr?) then Returns(false)
    else if !TypeofObject(apiext) then Returns(false)
    else if apiext.v.JNull? then Throws
    else
      var libs := Get(apiext.v, "libs");
      Returns(libs.Present? && libs.v.JArr?)
  }
}
