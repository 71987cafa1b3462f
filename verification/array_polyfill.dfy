/** The Array prototype polyfills of the runtime library (section 23.1.3 of
    ECMA-262, as far as the library implements it). Arrays are sequences;
    the dialect built-in `ArrayCount(a)` is `|a|` and `Int` is the identity
    on integers. A result of `undefined` is `None`. The helpers that mutate
    their argument in place are methods that work on a local copy and
    return the array's final contents; each is proved equal to a
    functional specification written independently of its loops. */
module ArrayPolyfill {
  import opened Base
  import opened Values

  /** Relative-index normalisation shared by `slice`, `fill` and
      `copyWithin`: a negative index counts back from the end and stops
      at 0, any other index stops at the length. */
  function Clamp(x: int, len: nat): (r: nat)
    ensures r <= len
    ensures 0 <= x <= len ==> r == x
    ensures x > len ==> r == len
    ensures x < 0 && len + x >= 0 ==> r == len + x
    ensures len + x < 0 ==> r == 0
  {
    if x < 0 then Max(len + x, 0) else Min(x, len)
  }

  // ---------------------------------------------------------------- at

  /** `at(array, index)`. */
  function At<T>(a: seq<T>, index: int): (r: Option<T>)
    ensures r.Some? <==> -|a| <= index < |a|
    ensures 0 <= index < |a| ==> r == Some(a[index])
    ensures -|a| <= index < 0 ==> r == Some(a[|a| + index])
  {
    if index < 0 then
      var positiveIndex := |a| + index;
      if positiveIndex >= 0 then Some(a[positiveIndex]) else None
    else if index < |a| then Some(a[index])
    else None
  }

  /** A negative index names the same element as the non-negative index
      that is `|a|` larger. */
  lemma AtNegativeAlias<T>(a: seq<T>, i: int)
    requires 0 <= i < |a|
    ensures At(a, i - |a|) == At(a, i) == Some(a[i])
  {
  }

  lemma AtExamples()
    ensures At([10, 20, 30, 40], 0) == Some(10)
    ensures At([10, 20, 30, 40], -1) == Some(40)
    ensures At([10, 20, 30, 40], -4) == Some(10)
    ensures At([1, 2, 3], 3) == None && At([1, 2, 3], -4) == None
    ensures At<int>([], 0) == None && At<int>([], -1) == None
  {
  }

  // -------------------------------------------------------- copyWithin

  /** The end `copyWithin` works to. `None` is an end that `OptInt`
      cannot read as an integer (a missing one, say). The test on
      `OptInt(end)` is a truth test, so an explicit end of 0 is falsy too
      and, like a missing end, stands for the length. */
  function CopyEnd(len: nat, end: Option<int>): int
  {
    if end.Some? && end.value != 0 then end.value else len
  }

  /** Number of elements `copyWithin` moves; not positive means none. */
  function CopyCount(len: nat, target: int, start: int, end: Option<int>): int
  {
    Min(Clamp(CopyEnd(len, end), len) - Clamp(start, len), len - Clamp(target, len))
  }

  /** The array after `count` elements from `s` on are copied to `t` on,
      as if from a snapshot; all other positions keep their element. A
      count that is not positive moves nothing. */
  function Moved<T>(a: seq<T>, t: nat, s: nat, count: int): (r: seq<T>)
    requires count <= 0 || (t + count <= |a| && s + count <= |a|)
    ensures |r| == |a|
  {
    seq(|a|, k requires 0 <= k < |a| => if t <= k < t + count then a[s + k - t] else a[k])
  }

  /** What `copyWithin` means: every position of the target window
      receives the element the source window held before the call. */
  function CopyWithinSpec<T>(a: seq<T>, target: int, start: int, end: Option<int>): (r: seq<T>)
    ensures |r| == |a|
  {
    Moved(a, Clamp(target, |a|), Clamp(start, |a|), CopyCount(|a|, target, start, end))
  }

  /** The backwards loop, for a target window that starts inside the
      source window: each element is read before it is overwritten. */
  method CopyBackward<T>(a: seq<T>, t: nat, s: nat, count: nat) returns (r: seq<T>)
    requires s < t && t + count <= |a| && s + count <= |a|
    ensures r == Moved(a, t, s, count)
  {
    r := a;
    var i := count - 1;
    while i >= 0
      invariant -1 <= i < count
      invariant |r| == |a|
      invariant forall k :: 0 <= k < |a| && !(t + i < k < t + count) ==> r[k] == a[k]
      invariant forall k :: t + i < k < t + count ==> r[k] == a[s + k - t]
    {
      r := r[t + i := r[s + i]];
      i := i - 1;
    }
    assert forall k :: 0 <= k < |a| ==> r[k] == Moved(a, t, s, count)[k];
  }

  /** The forwards loop, for any other placement of the two windows. */
  method CopyForward<T>(a: seq<T>, t: nat, s: nat, count: nat) returns (r: seq<T>)
    requires !(s < t < s + count) && t + count <= |a| && s + count <= |a|
    ensures r == Moved(a, t, s, count)
  {
    r := a;
    var i := 0;
    while i < count
      invariant 0 <= i <= count
      invariant |r| == |a|
      invariant forall k :: 0 <= k < |a| && !(t <= k < t + i) ==> r[k] == a[k]
      invariant forall k :: t <= k < t + i ==> r[k] == a[s + k - t]
    {
      r := r[t + i := r[s + i]];
      i := i + 1;
    }
    assert forall k :: 0 <= k < |a| ==> r[k] == Moved(a, t, s, count)[k];
  }

  /** `copyWithin(array, target, start, end)` with its two in-place loops:
      backwards when the target window starts inside the source window,
      forwards otherwise. The end is read as `CopyEnd` reads it. */
  method CopyWithin<T>(a: seq<T>, target: int, start: int, end: Option<int>) returns (r: seq<T>)
    ensures r == CopyWithinSpec(a, target, start, end)
  {
    var len := |a|;
    var t := Clamp(target, len);
    var s := Clamp(start, len);
    var count := CopyCount(len, target, start, end);
    assert count <= len - t && count <= Clamp(CopyEnd(len, end), len) - s;
    if count > 0 {
      if s < t && t < s + count {
        r := CopyBackward(a, t, s, count);
      } else {
        r := CopyForward(a, t, s, count);
      }
    } else {
      r := a;
      assert forall k :: 0 <= k < len ==> r[k] == Moved(a, t, s, count)[k];
    }
  }

  lemma CopyWithinExamples()
    ensures CopyWithinSpec([1, 2, 3, 4, 5], 0, 3, None) == [4, 5, 3, 4, 5]
    ensures CopyWithinSpec([1, 2, 3, 4, 5], 1, 3, Some(4)) == [1, 4, 3, 4, 5]
    ensures CopyWithinSpec([1, 2, 3, 4, 5], -2, 0, Some(2)) == [1, 2, 3, 1, 2]
    ensures CopyWithinSpec([1, 2, 3], 5, 1, None) == [1, 2, 3]
  {
    assert CopyWithinSpec([1, 2, 3, 4, 5], 0, 3, None) == [4, 5, 3, 4, 5];
    assert CopyWithinSpec([1, 2, 3, 4, 5], 1, 3, Some(4)) == [1, 4, 3, 4, 5];
    assert CopyWithinSpec([1, 2, 3, 4, 5], -2, 0, Some(2)) == [1, 2, 3, 1, 2];
    assert CopyWithinSpec([1, 2, 3], 5, 1, None) == [1, 2, 3];
  }

  /** As written, an explicit end of 0 copies up to the length: the whole
      tail from `start` is copied to `target`. */
  lemma CopyWithinEndZeroAsWritten()
    ensures CopyWithinSpec([1, 2, 3, 4, 5], 0, 3, Some(0)) == [4, 5, 3, 4, 5]
  {
    assert CopyEnd(5, Some(0)) == 5;
    assert CopyWithinSpec([1, 2, 3, 4, 5], 0, 3, Some(0)) == [4, 5, 3, 4, 5];
  }

  /** `copyWithin` as ECMA-262 defines it: a given end, 0 included, is
      used as it is; only a missing end stands for the length. */
  function CopyWithinIntended<T>(a: seq<T>, target: int, start: int, end: Option<int>): (r: seq<T>)
    ensures |r| == |a|
  {
    var len := |a|;
    var final := if end.Some? then end.value else len;
    Moved(a, Clamp(target, len), Clamp(start, len), Min(Clamp(final, len) - Clamp(start, len), len - Clamp(target, len)))
  }

  /** The intended `copyWithin` leaves the array alone when the end is 0,
      since the source window is then empty, and it agrees with the code
      as written on every other end. */
  lemma CopyWithinIntendedSpec<T>(a: seq<T>, target: int, start: int, end: Option<int>)
    ensures CopyWithinIntended(a, target, start, Some(0)) == a
    ensures end != Some(0) ==> CopyWithinIntended(a, target, start, end) == CopyWithinSpec(a, target, start, end)
  {
    var r := CopyWithinIntended(a, target, start, Some(0));
    assert Clamp(0, |a|) == 0;
    assert forall k :: 0 <= k < |a| ==> r[k] == a[k];
  }

  // -------------------------------------------------------------- fill

  /** Start and end of the window `fill` and `slice` act on: `start`
      defaults to 0 and `end` to the length, both normalised by `Clamp`. */
  function Window(len: nat, start: Option<int>, end: Option<int>): (w: (nat, nat))
    ensures w.0 <= len && w.1 <= len
  {
    var from := Clamp(if start.Some? then start.value else 0, len);
    var to := Clamp(if end.Some? then end.value else len, len);
    (from, to)
  }

  /** What `fill` means: positions of the window hold `value`, the others
      are unchanged. */
  function FillSpec<T>(a: seq<T>, value: T, start: Option<int>, end: Option<int>): (r: seq<T>)
    ensures |r| == |a|
  {
    var (from, to) := Window(|a|, start, end);
    seq(|a|, k requires 0 <= k < |a| => if from <= k < to then value else a[k])
  }

  /** `fill(array, value, start, end)`: one loop writing `value` to each
      position of the window. */
  method Fill<T>(a: seq<T>, value: T, start: Option<int>, end: Option<int>) returns (r: seq<T>)
    ensures r == FillSpec(a, value, start, end)
  {
    var (from, to) := Window(|a|, start, end);
    r := a;
    var i := from;
    while i < to
      invariant from <= i <= Max(from, to)
      invariant |r| == |a|
      invariant forall k :: 0 <= k < |a| && !(from <= k < i) ==> r[k] == a[k]
      invariant forall k :: from <= k < i ==> r[k] == value
    {
      r := r[i := value];
      i := i + 1;
    }
    assert forall k :: 0 <= k < |a| ==> r[k] == FillSpec(a, value, start, end)[k];
  }

  lemma FillExamples()
    ensures FillSpec([1, 2, 3, 4], 9, None, None) == [9, 9, 9, 9]
    ensures FillSpec([1, 2, 3, 4, 5], 7, Some(1), Some(4)) == [1, 7, 7, 7, 5]
    ensures FillSpec([1, 2, 3, 4], 5, Some(-2), None) == [1, 2, 5, 5]
    ensures FillSpec([1, 2, 3, 4], 0, Some(1), Some(-1)) == [1, 0, 0, 4]
    ensures FillSpec([1, 2, 3], 8, Some(10), Some(20)) == [1, 2, 3]
  {
    assert FillSpec([1, 2, 3, 4], 9, None, None) == [9, 9, 9, 9];
    assert FillSpec([1, 2, 3, 4, 5], 7, Some(1), Some(4)) == [1, 7, 7, 7, 5];
    assert FillSpec([1, 2, 3, 4], 5, Some(-2), None) == [1, 2, 5, 5];
    assert FillSpec([1, 2, 3, 4], 0, Some(1), Some(-1)) == [1, 0, 0, 4];
    assert FillSpec([1, 2, 3], 8, Some(10), Some(20)) == [1, 2, 3];
  }

  // ------------------------------------------------------------- slice

  /** `slice(array, start, end)`: pushes the window's elements into a new
      array; the argument is not changed. */
  method Slice<T>(a: seq<T>, start: Option<int>, end: Option<int>) returns (r: seq<T>)
    ensures Window(|a|, start, end).0 < Window(|a|, start, end).1 ==>
      r == a[Window(|a|, start, end).0..Window(|a|, start, end).1]
    ensures Window(|a|, start, end).0 >= Window(|a|, start, end).1 ==> r == []
  {
    var (from, to) := Window(|a|, start, end);
    r := [];
    var i := from;
    while i < to
      invariant from <= i <= Max(from, to)
      invariant r == a[from..i]
    {
      r := r + [a[i]];
      i := i + 1;
    }
  }

  /** `slice` agrees with the native sub-sequence on in-range bounds and
      reads negative bounds from the end. */
  lemma WindowMeaning(len: nat, s: int, e: int)
    ensures 0 <= s <= e <= len ==> Window(len, Some(s), Some(e)) == (s, e)
    ensures 0 < s <= len ==> Window(len, Some(-s), None) == (len - s, len)
    ensures Window(len, None, None) == (0, len)
  {
  }

  // ---------------------------------------------------- indexOf et al.

  /** Where `indexOf` and `includes` start: `fromIndex` itself when it is
      not negative, otherwise counted back from the end and stopped at 0. */
  function SearchStart(len: nat, fromIndex: Option<int>): nat
  {
    var from := if fromIndex.Some? then fromIndex.value else 0;
    if from >= 0 then from else Max(len + from, 0)
  }

  /** The `indexOf` loop from position `i` on. */
  function IndexFrom<T(==)>(a: seq<T>, x: T, i: nat): (r: int)
    ensures r == -1 || (i <= r < |a| && a[r] == x)
    ensures r == -1 ==> forall k :: i <= k < |a| ==> a[k] != x
    ensures r != -1 ==> forall k :: i <= k < r ==> a[k] != x
    decreases |a| - i
  {
    if i >= |a| then -1
    else if a[i] == x then i
    else IndexFrom(a, x, i + 1)
  }

  /** `indexOf(array, searchElement, fromIndex)`: the first position at
      or after the start holding the element, or -1. */
  function IndexOf<T(==)>(a: seq<T>, x: T, fromIndex: Option<int>): (r: int)
    ensures r == -1 || (SearchStart(|a|, fromIndex) <= r < |a| && a[r] == x)
    ensures r == -1 <==> forall k :: SearchStart(|a|, fromIndex) <= k < |a| ==> a[k] != x
    ensures r != -1 ==> forall k :: SearchStart(|a|, fromIndex) <= k < r ==> a[k] != x
  {
    IndexFrom(a, x, SearchStart(|a|, fromIndex))
  }

  /** The `includes` loop from position `i` on. */
  predicate IncludesFrom<T(==)>(a: seq<T>, x: T, i: nat)
    decreases |a| - i
  {
    if i >= |a| then false
    else if a[i] == x then true
    else IncludesFrom(a, x, i + 1)
  }

  /** `includes(array, searchElement, fromIndex)`. */
  predicate Includes<T(==)>(a: seq<T>, x: T, fromIndex: Option<int>)
  {
    IncludesFrom(a, x, SearchStart(|a|, fromIndex))
  }

  lemma {:induction false} IncludesFromIffIndexFrom<T>(a: seq<T>, x: T, i: nat)
    ensures IncludesFrom(a, x, i) <==> IndexFrom(a, x, i) != -1
    decreases |a| - i
  {
    if i < |a| && a[i] != x {
      IncludesFromIffIndexFrom(a, x, i + 1);
    }
  }

  /** `includes` answers true exactly when `indexOf` with the same start
      finds the element. */
  lemma IncludesIffIndexOf<T>(a: seq<T>, x: T, fromIndex: Option<int>)
    ensures Includes(a, x, fromIndex) <==> IndexOf(a, x, fromIndex) != -1
  {
    IncludesFromIffIndexFrom(a, x, SearchStart(|a|, fromIndex));
  }

  /** Where `lastIndexOf` starts: `fromIndex` defaults to the last
      position; a non-negative one is capped there and a negative one
      counts back from the end. A start below 0 finds nothing. */
  function LastStart(len: nat, fromIndex: Option<int>): (r: int)
    ensures r < len
  {
    var from := if fromIndex.Some? then fromIndex.value else len - 1;
    if from >= 0 then Min(from, len - 1) else len + from
  }

  /** The `lastIndexOf` loop from position `i` down to 0. */
  function LastIndexFrom<T(==)>(a: seq<T>, x: T, i: int): (r: int)
    requires i < |a|
    ensures r == -1 || (0 <= r <= i && a[r] == x)
    ensures r == -1 ==> forall k :: 0 <= k <= i ==> a[k] != x
    ensures r != -1 ==> forall k :: r < k <= i ==> a[k] != x
    decreases i + 1
  {
    if i < 0 then -1
    else if a[i] == x then i
    else LastIndexFrom(a, x, i - 1)
  }

  /** `lastIndexOf(array, searchElement, fromIndex)`: the last position at
      or before the start holding the element, or -1. */
  function LastIndexOf<T(==)>(a: seq<T>, x: T, fromIndex: Option<int>): (r: int)
    ensures r == -1 || (0 <= r <= LastStart(|a|, fromIndex) && a[r] == x)
    ensures r == -1 <==> forall k :: 0 <= k <= LastStart(|a|, fromIndex) ==> a[k] != x
  {
    LastIndexFrom(a, x, LastStart(|a|, fromIndex))
  }

  /** With default starts, `indexOf` and `lastIndexOf` agree on whether
      the element occurs and bracket its occurrences. */
  lemma FirstAndLastOccurrence<T>(a: seq<T>, x: T)
    ensures (IndexOf(a, x, None) == -1) <==> (LastIndexOf(a, x, None) == -1)
    ensures (IndexOf(a, x, None) == -1) <==> x !in a
    ensures IndexOf(a, x, None) <= LastIndexOf(a, x, None)
  {
    if x in a {
      var k :| 0 <= k < |a| && a[k] == x;
      assert LastStart(|a|, None) == |a| - 1;
    }
  }

  lemma SearchExamples()
    ensures IndexOf([1, 2, 3, 4, 2], 2, None) == 1
    ensures IndexOf([1, 2, 3, 4, 2], 2, Some(2)) == 4
    ensures IndexOf([1, 2, 3, 4, 2], 2, Some(5)) == -1
    ensures LastIndexOf([1, 2, 3, 4, 2], 2, None) == 4
    ensures LastIndexOf([1, 2, 3, 4, 2], 2, Some(3)) == 1
    ensures LastIndexOf([1, 2, 3, 4, 2], 2, Some(-2)) == 1
  {
  }

  // -------------------------------------------------------------- join

  /** Elements separated by `sep`, defined by cases on the front element;
      the reference for the `join` loop. */
  function Joined(parts: seq<string>, sep: string): string
  {
    if |parts| == 0 then ""
    else if |parts| == 1 then parts[0]
    else parts[0] + sep + Joined(parts[1..], sep)
  }

  lemma {:induction false} JoinedSnoc(parts: seq<string>, sep: string, x: string)
    requires |parts| > 0
    ensures Joined(parts + [x], sep) == Joined(parts, sep) + sep + x
    decreases |parts|
  {
    if |parts| == 1 {
      assert parts + [x] == [parts[0], x];
      assert (parts + [x])[1..] == [x];
    } else {
      assert (parts + [x])[1..] == parts[1..] + [x];
      JoinedSnoc(parts[1..], sep, x);
    }
  }

  /** `join(array, separator)`: appends each element and, except after
      the last, the separator (`','` when absent). The elements arrive
      already converted to text by the dialect's `+=`. */
  method Join(parts: seq<string>, separator: Option<string>) returns (r: string)
    ensures r == Joined(parts, if separator.Some? then separator.value else ",")
  {
    var sep := if separator.Some? then separator.value else ",";
    r := "";
    var len := |parts|;
    var i := 0;
    while i < len
      invariant 0 <= i <= len
      invariant i == 0 ==> r == ""
      invariant 0 < i < len ==> r == Joined(parts[..i], sep) + sep
      invariant i == len && len > 0 ==> r == Joined(parts, sep)
    {
      if i > 0 {
        assert parts[..i + 1] == parts[..i] + [parts[i]];
        JoinedSnoc(parts[..i], sep, parts[i]);
      } else {
        assert parts[..1] == [parts[0]];
      }
      r := r + parts[i];
      if i < len - 1 {
        r := r + sep;
      }
      i := i + 1;
      if i == len {
        assert parts[..i] == parts;
      }
    }
  }

  // ----------------------------------------- keys, entries and values

  /** `keys(array)`: the positions 0 .. length-1, pushed in order. */
  method Keys<T>(a: seq<T>) returns (r: seq<int>)
    ensures |r| == |a|
    ensures forall i :: 0 <= i < |r| ==> r[i] == i
  {
    r := [];
    var i := 0;
    while i < |a|
      invariant 0 <= i <= |a|
      invariant |r| == i
      invariant forall k :: 0 <= k < i ==> r[k] == k
    {
      r := r + [i];
      i := i + 1;
    }
  }

  /** `entries(array)`: one `[index, element]` pair per position. */
  method Entries<T>(a: seq<T>) returns (r: seq<(int, T)>)
    ensures |r| == |a|
    ensures forall i :: 0 <= i < |r| ==> r[i] == (i, a[i])
  {
    r := [];
    var i := 0;
    while i < |a|
      invariant 0 <= i <= |a|
      invariant |r| == i
      invariant forall k :: 0 <= k < i ==> r[k] == (k, a[k])
    {
      r := r + [(i, a[i])];
      i := i + 1;
    }
  }

  /** `values(array)` is the built-in `ArraySelectAll`: a copy with the
      same elements in the same order. */
  function ValuesOf<T>(a: seq<T>): (r: seq<T>)
    ensures |r| == |a| && forall i :: 0 <= i < |a| ==> r[i] == a[i]
  {
    a
  }

  // -------------------------------------------------------------- flat

  /** `flat(array, depth)`: an array element is replaced by its own
      flattening one level shallower while the depth is positive; any
      other element is kept. */
  function Flat(a: seq<Value>, depth: int): seq<Value>
  {
    if |a| == 0 then []
    else
      var v := a[|a| - 1];
      Flat(a[..|a| - 1], depth) + (if IsArray(v) && depth > 0 then Flat(v.elems, depth - 1) else [v])
  }

  /** The depth argument defaults to 1. */
  function FlatDefault(a: seq<Value>, depth: Option<int>): seq<Value>
  {
    Flat(a, if depth.Some? then depth.value else 1)
  }

  lemma {:induction false} FlatAppend(a: seq<Value>, b: seq<Value>, depth: int)
    ensures Flat(a + b, depth) == Flat(a, depth) + Flat(b, depth)
    decreases |b|
  {
    if |b| == 0 {
      assert b == [];
      AppendEmpty(a);
      AppendEmpty(Flat(a, depth));
    } else {
      var n := |b| - 1;
      AppendInit(a, b);
      FlatAppend(a, b[..n], depth);
      var piece := FlatPiece(b[n], depth);
      FlatLast(a + b, depth);
      FlatLast(b, depth);
      Assoc3(Flat(a, depth), Flat(b[..n], depth), piece);
    }
  }

  /** What the last element contributes to `Flat`. */
  function FlatPiece(v: Value, depth: int): seq<Value>
  {
    if IsArray(v) && depth > 0 then Flat(v.elems, depth - 1) else [v]
  }

  lemma FlatLast(s: seq<Value>, depth: int)
    requires |s| > 0
    ensures Flat(s, depth) == Flat(s[..|s| - 1], depth) + FlatPiece(s[|s| - 1], depth)
  {
  }

  /** Depth 0 or less gives a shallow copy. */
  lemma {:induction false} FlatNonPositiveDepth(a: seq<Value>, depth: int)
    requires depth <= 0
    ensures Flat(a, depth) == a
    decreases |a|
  {
    if |a| > 0 {
      FlatNonPositiveDepth(a[..|a| - 1], depth);
      assert a[..|a| - 1] + [a[|a| - 1]] == a;
    }
  }

  /** Flattening `d + 1` levels is flattening one level, then `d` more. */
  lemma {:induction false} FlatCompose(a: seq<Value>, d: nat)
    ensures Flat(a, d + 1) == Flat(Flat(a, 1), d)
    decreases |a|
  {
    if |a| > 0 {
      var init, v := a[..|a| - 1], a[|a| - 1];
      FlatCompose(init, d);
      var piece := if IsArray(v) then Flat(v.elems, 0) else [v];
      FlatAppend(Flat(init, 1), piece, d);
      if IsArray(v) {
        FlatNonPositiveDepth(v.elems, 0);
      } else {
        assert Flat(piece, d) == Flat([], d) + [v];
      }
    }
  }

  /** How deeply arrays nest inside `a`: 0 when no element is an array. */
  function Nesting(a: seq<Value>): nat
  {
    if |a| == 0 then 0
    else
      var v := a[|a| - 1];
      Max(Nesting(a[..|a| - 1]), if IsArray(v) then 1 + Nesting(v.elems) else 0)
  }

  /** A depth at least the nesting depth leaves no array behind. */
  lemma {:induction false} FlatRemovesAllNesting(a: seq<Value>, depth: int)
    requires depth >= Nesting(a)
    ensures forall i :: 0 <= i < |Flat(a, depth)| ==> !IsArray(Flat(a, depth)[i])
    decreases a
  {
    if |a| > 0 {
      var v := a[|a| - 1];
      FlatRemovesAllNesting(a[..|a| - 1], depth);
      if IsArray(v) && depth > 0 {
        FlatRemovesAllNesting(v.elems, depth - 1);
      }
    }
  }

  lemma FlatExamples()
    ensures FlatDefault([Num(1), Num(2), Arr([Num(3), Num(4)])], None) == [Num(1), Num(2), Num(3), Num(4)]
    ensures Flat([Num(1), Arr([Num(2), Arr([Num(3)])])], -1) == [Num(1), Arr([Num(2), Arr([Num(3)])])]
  {
    FlatNonPositiveDepth([Num(1), Arr([Num(2), Arr([Num(3)])])], -1);
    var a := [Num(1), Num(2), Arr([Num(3), Num(4)])];
    assert a[..2] == [Num(1), Num(2)];
    assert Flat([Num(3), Num(4)], 0) == [Num(3), Num(4)] by {
      FlatNonPositiveDepth([Num(3), Num(4)], 0);
    }
    assert Flat([Num(1), Num(2)], 1) == [Num(1), Num(2)] by {
      assert [Num(1), Num(2)][..1] == [Num(1)];
      assert Flat([Num(1)], 1) == [Num(1)] by {
        assert [Num(1)][..0] == [];
      }
    }
  }

  // ------------------------------------------- reverse and toReversed

  /** The reversed sequence: position `i` holds the element `|a|-1-i`. */
  function Reversed<T>(a: seq<T>): (r: seq<T>)
    ensures |r| == |a|
  {
    seq(|a|, i requires 0 <= i < |a| => a[|a| - 1 - i])
  }

  lemma ReversedInvolution<T>(a: seq<T>)
    ensures Reversed(Reversed(a)) == a
  {
  }

  /** The swap loop of `reverse` with `mid` swaps. The dialect's `Int` may
      round `len / 2` either way; both choices reverse the array, the
      extra swap of an odd middle element with itself being idle. */
  method ReverseWith<T>(a: seq<T>, mid: nat) returns (r: seq<T>)
    requires |a| / 2 <= mid <= (|a| + 1) / 2
    ensures r == Reversed(a)
  {
    var len := |a|;
    assert 2 * mid <= len + 1 && len <= 2 * mid + 1;
    r := a;
    var i := 0;
    while i < mid
      invariant 0 <= i <= mid
      invariant |r| == len
      invariant forall k :: 0 <= k < len && (k < i || len - 1 - i < k) ==> r[k] == a[len - 1 - k]
      invariant forall k :: i <= k <= len - 1 - i ==> r[k] == a[k]
    {
      var opposite := len - i - 1;
      var temp := r[i];
      r := r[i := r[opposite]];
      r := r[opposite := temp];
      i := i + 1;
    }
    assert forall k :: 0 <= k < len ==> r[k] == Reversed(a)[k];
  }

  /** `reverse(array)`: swaps positions `i` and `len-1-i` for `i < len/2`
      in place and returns the array. */
  method Reverse<T>(a: seq<T>) returns (r: seq<T>)
    ensures r == Reversed(a)
  {
    r := ReverseWith(a, |a| / 2);
  }

  /** `toReversed(array)`: a new array with `result[i] = array[len-i-1]`;
      the argument is untouched. */
  method ToReversed<T>(a: seq<T>) returns (r: seq<T>)
    ensures r == Reversed(a)
  {
    var len := |a|;
    r := [];
    var i := 0;
    while i < len
      invariant 0 <= i <= len
      invariant |r| == i
      invariant forall k :: 0 <= k < i ==> r[k] == a[len - k - 1]
    {
      r := r + [a[len - i - 1]];
      i := i + 1;
    }
  }

  // -------------------------------------------------------- pop, shift

  /** `pop(array)`: the last element and the array without it, or
      `undefined` and the array unchanged when it is empty. */
  function Pop<T>(a: seq<T>): (r: (Option<T>, seq<T>))
  {
    if |a| == 0 then (None, a) else (Some(a[|a| - 1]), a[..|a| - 1])
  }

  /** `shift(array)`: the first element and the rest, or `undefined` and
      the array unchanged when it is empty. */
  function Shift<T>(a: seq<T>): (r: (Option<T>, seq<T>))
  {
    if |a| == 0 then (None, a) else (Some(a[0]), a[1..])
  }

  /** `pop` undoes a push at the end and `shift` a push at the front. */
  lemma PopShiftUndoPush<T>(a: seq<T>, x: T)
    ensures Pop(a + [x]) == (Some(x), a)
    ensures Shift([x] + a) == (Some(x), a)
    ensures Pop<T>([]) == (None, []) && Shift<T>([]) == (None, [])
  {
    assert (a + [x])[..|a|] == a;
    assert ([x] + a)[1..] == a;
  }

  // ------------------------------------------------------------ splice

  /** Element read as the dialect does: outside the array it is
      `undefined`, here `undef`. */
  function Read<T>(a: seq<T>, i: int, undef: T): T
  {
    if 0 <= i < |a| then a[i] else undef
  }

  /** Element write as the dialect does: writing at or past the end grows
      the array, filling any gap with `undef`. */
  function Write<T>(a: seq<T>, i: nat, v: T, undef: T): (r: seq<T>)
    ensures |r| == if i < |a| then |a| else i + 1
    ensures r[i] == v
    ensures forall k :: 0 <= k < |a| && k != i ==> r[k] == a[k]
  {
    if i < |a| then a[i := v] else a + seq(i - |a|, _ => undef) + [v]
  }

  /** Start position and delete count exactly as the polyfill computes
      them: an omitted count is `length - start` with the raw `start`, and
      the count is capped at the elements left but never raised to 0. */
  function SpliceBoundsAsWritten(len: nat, start: int, deleteCount: Option<int>): (b: (nat, int))
    ensures b.0 <= len && b.1 <= len - b.0
  {
    var dc := if deleteCount.Some? then deleteCount.value else len - start;
    var ns := Clamp(start, len);
    (ns, Min(dc, len - ns))
  }

  /** The "shift elements to the left" loop, from position `i` while
      `i < stop`. */
  function ShiftLeftLoop<T>(a: seq<T>, i: nat, stop: int, ndc: int, undef: T): seq<T>
    decreases stop - i
  {
    if i < stop then ShiftLeftLoop(Write(a, i, Read(a, i + ndc, undef), undef), i + 1, stop, ndc, undef)
    else a
  }

  /** The "shift elements to the right" loop, from position `i` down to
      `ns`. */
  function ShiftRightLoop<T>(a: seq<T>, i: int, ns: nat, shift: nat, undef: T): seq<T>
    decreases i - ns + 1
  {
    if i >= ns then ShiftRightLoop(Write(a, i + shift, Read(a, i, undef), undef), i - 1, ns, shift, undef)
    else a
  }

  /** The "insert new elements" loop. */
  function InsertLoop<T>(a: seq<T>, ns: nat, items: seq<T>, i: nat, undef: T): seq<T>
    requires i <= |items|
    decreases |items| - i
  {
    if i < |items| then InsertLoop(Write(a, ns + i, items[i], undef), ns, items, i + 1, undef)
    else a
  }

  /** `splice(array, start, deleteCount, items)` as written: the removed
      elements, and the array after the three in-place loops. */
  function SpliceAsWritten<T>(a: seq<T>, start: int, deleteCount: Option<int>, items: seq<T>, undef: T)
    : (r: (seq<T>, seq<T>))
  {
    var len := |a|;
    var (ns, ndc) := SpliceBoundsAsWritten(len, start, deleteCount);
    var removed := if ndc > 0 then a[ns..ns + ndc] else [];
    var shifted := ShiftLeftLoop(a, ns, len - ndc, ndc, undef);
    var widened := ShiftRightLoop(shifted, len - ndc - 1, ns, |items|, undef);
    (removed, InsertLoop(widened, ns, items, 0, undef))
  }

  /** With the count omitted and `start` past the end, the count comes out
      negative and the left-shift loop copies elements past the end: the
      array grows instead of staying as it was. */
  lemma SpliceAsWrittenPastEnd()
    ensures SpliceAsWritten([1, 2, 3], 5, None, [], 0) == ([], [1, 2, 3, 2, 3])
  {
    var a := [1, 2, 3];
    var s1 := Write(a, 3, Read(a, 1, 0), 0);
    assert s1 == [1, 2, 3, 2];
    var s2 := Write(s1, 4, Read(s1, 2, 0), 0);
    assert s2 == [1, 2, 3, 2, 3];
    assert ShiftLeftLoop(a, 3, 5, -2, 0) == s2;
    assert ShiftRightLoop(s2, 4, 3, 0, 0) == s2 by {
      assert Write(s2, 4, Read(s2, 4, 0), 0) == s2;
      assert Write(s2, 3, Read(s2, 3, 0), 0) == s2;
    }
  }

  /** Start position and delete count with the count also kept at 0 or
      more, as section 23.1.3.31 of ECMA-262 requires. */
  function SpliceBounds(len: nat, start: int, deleteCount: Option<int>): (b: (nat, nat))
    ensures b.0 <= len && b.0 + b.1 <= len
  {
    var (ns, ndc) := SpliceBoundsAsWritten(len, start, deleteCount);
    (ns, Max(ndc, 0))
  }

  /** What `splice` leaves in the array: the prefix, the new items and the
      tail after the deleted run; since the array is never shrunk, any
      positions past that keep their old element. */
  function SpliceSpec<T>(a: seq<T>, start: int, deleteCount: Option<int>, items: seq<T>): (r: seq<T>)
  {
    var (ns, ndc) := SpliceBounds(|a|, start, deleteCount);
    var front := a[..ns] + items + a[ns + ndc..];
    front + (if |front| < |a| then a[|front|..] else [])
  }

  /** Length and contents of `SpliceSpec`, region by region. */
  lemma SpliceSpecAt<T>(a: seq<T>, start: int, deleteCount: Option<int>, items: seq<T>)
    ensures var (ns, ndc) := SpliceBounds(|a|, start, deleteCount);
      var r := SpliceSpec(a, start, deleteCount, items);
      var k := |items|;
      && |r| == Max(|a|, |a| - ndc + k)
      && (forall p :: 0 <= p < ns ==> r[p] == a[p])
      && (forall p :: ns <= p < ns + k ==> r[p] == items[p - ns])
      && (forall p :: ns + k <= p < |a| - ndc + k ==> r[p] == a[p - k + ndc])
      && (forall p :: |a| - ndc + k <= p < |a| ==> r[p] == a[p])
  {
  }

  /** An omitted count with a start past the end changes nothing. */
  lemma SpliceSpecPastEnd<T>(a: seq<T>, start: int, items: seq<T>)
    requires start >= |a|
    ensures SpliceSpec(a, start, None, []) == a
  {
    assert a[..|a|] + [] + a[|a|..] == a;
  }

  /** The "shift elements to the left" loop: the tail after the deleted
      run `[n, n + d)` moves down over it; the last `d` positions keep
      their old elements. */
  method ShiftLeftPhase<T>(a: seq<T>, n: nat, d: nat) returns (r: seq<T>)
    requires n + d <= |a|
    ensures |r| == |a|
    ensures forall p :: n <= p < |a| - d ==> r[p] == a[p + d]
    ensures forall p :: 0 <= p < |a| && !(n <= p < |a| - d) ==> r[p] == a[p]
  {
    r := a;
    var i := n;
    while i < |a| - d
      invariant n <= i <= |a| - d
      invariant |r| == |a|
      invariant forall p :: n <= p < i ==> r[p] == a[p + d]
      invariant forall p :: 0 <= p < |a| && !(n <= p < i) ==> r[p] == a[p]
    {
      r := r[i := r[i + d]];
      i := i + 1;
    }
  }

  /** The "shift elements to the right" loop: positions `[n, e)` move up
      by `k`, last one first, writing past the end where needed. Positions
      the moved run does not cover keep their element; gaps a write past
      the end leaves are not constrained (the insert loop fills them). */
  method ShiftRightPhase<T>(s: seq<T>, n: nat, e: nat, k: nat) returns (r: seq<T>)
    requires n <= e <= |s|
    ensures |r| == if n < e then Max(|s|, e + k) else |s|
    ensures forall p :: n + k <= p < e + k ==> p < |r| && r[p] == s[p - k]
    ensures forall p :: 0 <= p < |s| && !(n + k <= p < e + k) ==> r[p] == s[p]
  {
    r := s;
    var i: int := e - 1;
    while i >= n
      invariant n - 1 <= i <= e - 1
      invariant |r| == if i == e - 1 then |s| else Max(|s|, e + k)
      invariant forall p :: i + k < p < e + k ==> p < |r| && r[p] == s[p - k]
      invariant forall p :: 0 <= p < |s| && !(i + k < p < e + k) ==> r[p] == s[p]
      decreases i - n + 1
    {
      r := Write(r, i + k, r[i], r[i]);
      i := i - 1;
    }
  }

  /** The "insert new elements" loop: `items` written from position `n`
      on, growing the array when they run past its end. */
  method InsertPhase<T>(w: seq<T>, n: nat, items: seq<T>) returns (r: seq<T>)
    requires n <= |w|
    ensures |r| == Max(|w|, n + |items|)
    ensures forall p :: n <= p < n + |items| ==> r[p] == items[p - n]
    ensures forall p :: 0 <= p < |r| && !(n <= p < n + |items|) ==> r[p] == w[p]
  {
    r := w;
    var i := 0;
    while i < |items|
      invariant 0 <= i <= |items|
      invariant |r| == Max(|w|, n + i)
      invariant forall p :: n <= p < n + i ==> r[p] == items[p - n]
      invariant forall p :: 0 <= p < |r| && !(n <= p < n + i) ==> r[p] == w[p]
    {
      r := Write(r, n + i, items[i], items[i]);
      i := i + 1;
    }
  }

  /** `splice` with the delete count kept at 0 or more: the removed run,
      then the three in-place loops, returning the removed elements and
      the final array. */
  method Splice<T>(a: seq<T>, start: int, deleteCount: Option<int>, items: seq<T>)
    returns (removed: seq<T>, r: seq<T>)
    ensures var (ns, ndc) := SpliceBounds(|a|, start, deleteCount); removed == a[ns..ns + ndc]
    ensures r == SpliceSpec(a, start, deleteCount, items)
  {
    var len := |a|;
    var (ns, ndc) := SpliceBounds(len, start, deleteCount);
    removed := [];
    var i := 0;
    while i < ndc
      invariant 0 <= i <= ndc
      invariant removed == a[ns..ns + i]
    {
      removed := removed + [a[ns + i]];
      i := i + 1;
    }
    var shifted := ShiftLeftPhase(a, ns, ndc);
    var widened := ShiftRightPhase(shifted, ns, len - ndc, |items|);
    r := InsertPhase(widened, ns, items);
    var k := |items|;
    var spec := SpliceSpec(a, start, deleteCount, items);
    SpliceSpecAt(a, start, deleteCount, items);
    assert ns == SpliceBounds(len, start, deleteCount).0 && ndc == SpliceBounds(len, start, deleteCount).1;
    forall p | 0 <= p < |r|
      ensures r[p] == spec[p]
    {
      if p < ns {
        assert r[p] == widened[p] == shifted[p] == a[p] == spec[p];
      } else if p < ns + k {
        assert r[p] == items[p - ns] == spec[p];
      } else if p < len - ndc + k {
        assert r[p] == widened[p] == shifted[p - k] == a[p - k + ndc] == spec[p];
      } else {
        assert r[p] == widened[p] == shifted[p] == a[p] == spec[p];
      }
    }
  }

  // -------------------------------------------- sort, toSorted, unshift

  /** `sort`, `toSorted` and `unshift` throw a fixed message whatever
      their arguments. */
  function Unimplemented(method_: string): (message: string)
    requires method_ in {"sort", "toSorted", "unshift"}
    ensures |message| > 0
  {
    "Array." + method_ + NotImplemented
  }

  /** The message of each of the three, in full. */
  lemma SortMessage()
    ensures Unimplemented("sort") == "Array.sort polyfill is not implemented yet"
  {
  }

  lemma ToSortedMessage()
    ensures Unimplemented("toSorted") == "Array.toSorted polyfill is not implemented yet"
  {
  }

  lemma UnshiftMessage()
    ensures Unimplemented("unshift") == "Array.unshift polyfill is not implemented yet"
  {
  }

  const NotImplemented := " polyfill is not implemented yet"
}
