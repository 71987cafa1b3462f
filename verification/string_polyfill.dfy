/** `endsWith` of the String polyfill: `str.slice(-searchString.length)`
    compared with `searchString`. */
module StringPolyfill {

  /** JavaScript's `s.slice(start)` for one argument, as section 22.1.3.22
      of ECMA-262 defines it: a negative start counts back from the end
      and stops at 0. `-0` is not negative, so `slice(-0)` is all of `s`. */
  function SliceFrom(s: string, start: int): (r: string)
    ensures 0 <= start <= |s| ==> r == s[start..]
    ensures start > |s| ==> r == []
    ensures start < 0 && |s| + start >= 0 ==> r == s[|s| + start..]
    ensures |s| + start < 0 ==> r == s
  {
    var from := if start < 0 then (if |s| + start < 0 then 0 else |s| + start)
                else if start > |s| then |s| else start;
    s[from..]
  }

  /** `q` is a suffix of `s`. */
  predicate IsSuffix(q: string, s: string)
  {
    |q| <= |s| && s[|s| - |q|..] == q
  }

  /** `endsWith(str, searchString)` as written. */
  function EndsWithAsWritten(s: string, q: string): bool
  {
    SliceFrom(s, -|q|) == q
  }

  /** For a non-empty `q` the polyfill answers exactly "is `q` a suffix";
      a `q` longer than `s` gets all of `s` back and so gives false. */
  lemma EndsWithNonEmpty(s: string, q: string)
    requires |q| > 0
    ensures EndsWithAsWritten(s, q) <==> IsSuffix(q, s)
    ensures |q| > |s| ==> !EndsWithAsWritten(s, q)
  {
  }

  /** For an empty `q`, `slice(-0)` returns all of `s`: the answer is true
      only for the empty string, while every string ends with "". */
  lemma EndsWithEmptyAsWritten(s: string)
    ensures EndsWithAsWritten(s, "") <==> s == ""
    ensures IsSuffix("", s)
    ensures !EndsWithAsWritten("abc", "")
  {
  }

  /** `endsWith` with the empty search string answered first, as section
      22.1.3.7 of ECMA-262 requires. */
  function EndsWith(s: string, q: string): (r: bool)
    ensures r <==> IsSuffix(q, s)
  {
    if |q| == 0 then true else EndsWithAsWritten(s, q)
  }

  lemma EndsWithSelf(s: string)
    ensures EndsWith(s, s) && (|s| > 0 ==> EndsWithAsWritten(s, s))
  {
  }
}
