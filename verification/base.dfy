/** Shared vocabulary: an Option type, the dialect's integer built-ins
    (`Max`, `Min`) and small sequence and string helpers used by every
    other module. */
module Base {

  datatype Option<+T> = None | Some(value: T)

  /** The dialect's `Max(a, b)` built-in. */
  function Max(a: int, b: int): int { if a < b then b else a }

  /** The dialect's `Min(a, b)` built-in. */
  function Min(a: int, b: int): int { if a < b then a else b }

  /* Sequence identities, stated apart from any recursive function so that
     proofs about those functions can use them without re-deriving them. */

  lemma InitLast<T>(s: seq<T>)
    requires |s| > 0
    ensures s[..|s| - 1] + [s[|s| - 1]] == s
  {
  }

  lemma AppendInit<T>(a: seq<T>, b: seq<T>)
    requires |b| > 0
    ensures (a + b)[..|a + b| - 1] == a + b[..|b| - 1]
    ensures (a + b)[|a + b| - 1] == b[|b| - 1]
  {
  }

  lemma AppendEmpty<T>(a: seq<T>)
    ensures a + [] == a && [] + a == a
  {
  }

  lemma TakeSnoc<T>(s: seq<T>, i: nat)
    requires i < |s|
    ensures s[..i + 1] == s[..i] + [s[i]]
  {
  }

  lemma DropSnoc<T>(s: seq<T>, x: T)
    requires |s| > 0
    ensures (s + [x])[0] == s[0] && (s + [x])[1..] == s[1..] + [x]
  {
  }

  lemma TakeAll<T>(s: seq<T>)
    ensures s[..|s|] == s
  {
  }

  lemma Assoc3<T>(a: seq<T>, b: seq<T>, c: seq<T>)
    ensures a + b + c == a + (b + c)
  {
  }

  lemma ConsAppend<T>(a: seq<T>, b: seq<T>)
    requires |a| > 0
    ensures (a + b)[0] == a[0] && (a + b)[1..] == a[1..] + b
  {
  }

  lemma InTail<T>(s: seq<T>)
    requires |s| > 0
    ensures forall x :: x in s ==> x == s[0] || x in s[1..]
  {
    assert s == [s[0]] + s[1..];
  }

  lemma ConsSplit<T>(a: seq<T>, b: seq<T>)
    requires |b| > 0
    ensures a + [b[0]] + b[1..] == a + b
  {
    assert b == [b[0]] + b[1..];
  }

  /** Concatenation of a sequence of sequences, left to right. */
  function Flatten<T>(ss: seq<seq<T>>): seq<T>
  {
    if |ss| == 0 then [] else Flatten(ss[..|ss| - 1]) + ss[|ss| - 1]
  }

  lemma FlattenSingle<T>(x: seq<T>)
    ensures Flatten([x]) == x
  {
    assert [x][..0] == [];
  }

  /** Flattening one-element pieces gives back their elements. */
  lemma {:induction false} FlattenSingletons<T>(pieces: seq<seq<T>>, s: seq<T>)
    requires |pieces| == |s| && forall i :: 0 <= i < |s| ==> pieces[i] == [s[i]]
    ensures Flatten(pieces) == s
    decreases |s|
  {
    if |s| > 0 {
      FlattenSingletons(pieces[..|s| - 1], s[..|s| - 1]);
      assert s == s[..|s| - 1] + [s[|s| - 1]];
    }
  }

  lemma {:induction false} FlattenAppend<T>(a: seq<seq<T>>, b: seq<seq<T>>)
    ensures Flatten(a + b) == Flatten(a) + Flatten(b)
  {
    if |b| == 0 {
      assert a + b == a;
    } else {
      assert (a + b)[..|a + b| - 1] == a + b[..|b| - 1];
      FlattenAppend(a, b[..|b| - 1]);
    }
  }

  lemma {:induction false} FlattenEmpty<T>(ss: seq<seq<T>>)
    ensures Flatten(ss) == [] <==> forall i :: 0 <= i < |ss| ==> ss[i] == []
  {
    if |ss| > 0 {
      FlattenEmpty(ss[..|ss| - 1]);
      assert forall i :: 0 <= i < |ss| - 1 ==> ss[..|ss| - 1][i] == ss[i];
    }
  }

  lemma {:induction false} FlattenLengths<T, U>(a: seq<seq<T>>, b: seq<seq<U>>)
    requires |a| == |b|
    requires forall i :: 0 <= i < |a| ==> |a[i]| == |b[i]|
    ensures |Flatten(a)| == |Flatten(b)|
  {
    if |a| > 0 {
      FlattenLengths(a[..|a| - 1], b[..|b| - 1]);
    }
  }

  /** An element of the concatenation is an element of some piece, and
      the other way round. */
  lemma {:induction false} FlattenMember<T>(ss: seq<seq<T>>, x: T)
    ensures x in Flatten(ss) <==> exists i :: 0 <= i < |ss| && x in ss[i]
  {
    if |ss| > 0 {
      var n := |ss| - 1;
      FlattenMember(ss[..n], x);
      if x in Flatten(ss) && x !in ss[n] {
        var i :| 0 <= i < n && x in ss[..n][i];
        assert x in ss[i];
      }
      if exists i :: 0 <= i < |ss| && x in ss[i] {
        var i :| 0 <= i < |ss| && x in ss[i];
        if i < n {
          assert x in ss[..n][i];
        }
      }
    }
  }

  /** `f` applied to every element. */
  function Map<A, B>(f: A -> B, s: seq<A>): (r: seq<B>)
    ensures |r| == |s|
  {
    seq(|s|, i requires 0 <= i < |s| => f(s[i]))
  }

  lemma MapAppend<A, B>(f: A -> B, x: seq<A>, y: seq<A>)
    ensures Map(f, x + y) == Map(f, x) + Map(f, y)
  {
  }

  /** Mapping the pieces and then flattening maps the flattened pieces. */
  lemma {:induction false} FlattenMap<A, B>(f: A -> B, a: seq<seq<A>>, b: seq<seq<B>>)
    requires |a| == |b|
    requires forall i :: 0 <= i < |a| ==> Map(f, a[i]) == b[i]
    ensures Map(f, Flatten(a)) == Flatten(b)
  {
    if |a| > 0 {
      var n := |a| - 1;
      FlattenMap(f, a[..n], b[..n]);
      MapAppend(f, Flatten(a[..n]), a[n]);
    }
  }

  /** `s.split(sep)` for a one-element separator: at least one piece,
      none containing the separator. */
  function Split<T(==)>(s: seq<T>, sep: T): (r: seq<seq<T>>)
    ensures |r| >= 1
    ensures forall i :: 0 <= i < |r| ==> sep !in r[i]
  {
    if |s| == 0 then [[]]
    else
      var p := Split(s[..|s| - 1], sep);
      var ch := s[|s| - 1];
      if ch == sep then p + [[]] else p[..|p| - 1] + [p[|p| - 1] + [ch]]
  }

  /** `pieces.join(sep)`. */
  function Join<T>(ls: seq<seq<T>>, sep: T): seq<T>
    requires |ls| >= 1
  {
    if |ls| == 1 then ls[0] else Join(ls[..|ls| - 1], sep) + [sep] + ls[|ls| - 1]
  }

  /** Splitting and joining with the same separator gives back the text. */
  lemma {:induction false} JoinSplit<T>(s: seq<T>, sep: T)
    ensures Join(Split(s, sep), sep) == s
  {
    if |s| > 0 {
      var init := s[..|s| - 1];
      var p := Split(init, sep);
      JoinSplit(init, sep);
      var ch := s[|s| - 1];
      if ch != sep {
        var q := p[..|p| - 1] + [p[|p| - 1] + [ch]];
        assert q[..|q| - 1] == p[..|p| - 1];
        if |p| > 1 {
          assert Join(q, sep) == Join(p[..|p| - 1], sep) + [sep] + (p[|p| - 1] + [ch]);
          assert Join(p, sep) == Join(p[..|p| - 1], sep) + [sep] + p[|p| - 1];
        }
      } else {
        assert (p + [[]])[..|p|] == p;
      }
      assert s == init + [ch];
    }
  }

  /** Joining separator-free pieces and splitting again gives back the
      pieces. */
  lemma {:induction false} SplitJoin<T>(ls: seq<seq<T>>, sep: T)
    requires |ls| >= 1
    requires forall i :: 0 <= i < |ls| ==> sep !in ls[i]
    ensures Split(Join(ls, sep), sep) == ls
  {
    if |ls| == 1 {
      SplitNoSeparator(ls[0], sep);
    } else {
      var init := ls[..|ls| - 1];
      SplitJoin(init, sep);
      SplitAppendPiece(Join(init, sep), sep, ls[|ls| - 1]);
    }
  }

  lemma {:induction false} SplitNoSeparator<T>(s: seq<T>, sep: T)
    requires sep !in s
    ensures Split(s, sep) == [s]
  {
    if |s| > 0 {
      var n := |s| - 1;
      assert sep !in s[..n] by {
        forall i | 0 <= i < n ensures s[..n][i] != sep { assert s[..n][i] == s[i]; }
      }
      SplitNoSeparator(s[..n], sep);
      var p := Split(s[..n], sep);
      assert s[n] != sep;
      assert Split(s, sep) == p[..|p| - 1] + [p[|p| - 1] + [s[n]]];
      assert p[..|p| - 1] == [];
      InitLast(s);
    }
  }

  /** Appending the separator and a separator-free piece adds exactly that
      piece. */
  lemma {:induction false} SplitAppendPiece<T>(s: seq<T>, sep: T, l: seq<T>)
    requires sep !in l
    ensures Split(s + [sep] + l, sep) == Split(s, sep) + [l]
    decreases |l|
  {
    if |l| == 0 {
      assert (s + [sep] + l)[..|s + [sep] + l| - 1] == s;
    } else {
      var l0 := l[..|l| - 1];
      SplitAppendPiece(s, sep, l0);
      assert (s + [sep] + l)[..|s + [sep] + l| - 1] == s + [sep] + l0;
      assert l == l0 + [l[|l| - 1]];
    }
  }

  /** True when `pat` occurs in `s` at position `i`. */
  predicate OccursAt<T(==)>(s: seq<T>, pat: seq<T>, i: nat)
  {
    i + |pat| <= |s| && s[i..i + |pat|] == pat
  }

  /** `s.indexOf(pat)`: the first occurrence at or after `from`, or -1. */
  function SubIndexFrom<T(==)>(s: seq<T>, pat: seq<T>, from: nat): (r: int)
    ensures r == -1 || (from <= r && OccursAt(s, pat, r))
    ensures r == -1 ==> forall k :: from <= k <= |s| ==> !OccursAt(s, pat, k)
    ensures r != -1 ==> forall k :: from <= k < r ==> !OccursAt(s, pat, k)
    decreases |s| - from
  {
    if from + |pat| > |s| then -1
    else if s[from..from + |pat|] == pat then from
    else SubIndexFrom(s, pat, from + 1)
  }

  /** `s.indexOf(pat)` from the start. */
  function SubIndex<T(==)>(s: seq<T>, pat: seq<T>): int
  {
    SubIndexFrom(s, pat, 0)
  }

  /** `s.includes(pat)` / `s.indexOf(pat) !== -1`. */
  predicate HasSub<T(==)>(s: seq<T>, pat: seq<T>)
  {
    SubIndex(s, pat) != -1
  }

  lemma HasSubIff<T>(s: seq<T>, pat: seq<T>)
    ensures HasSub(s, pat) <==> exists k :: 0 <= k <= |s| && OccursAt(s, pat, k)
  {
    if !HasSub(s, pat) {
      assert forall k :: 0 <= k <= |s| ==> !OccursAt(s, pat, k);
    }
  }

  /** Decimal text of a natural number, as a template literal prints it. */
  function NatToString(n: nat): (r: string)
    ensures |r| >= 1
    ensures forall i :: 0 <= i < |r| ==> '0' <= r[i] <= '9'
  {
    if n < 10 then [Digit(n)] else NatToString(n / 10) + [Digit(n % 10)]
  }

  function Digit(d: nat): (c: char)
    requires d < 10
    ensures '0' <= c <= '9'
  {
    ['0', '1', '2', '3', '4', '5', '6', '7', '8', '9'][d]
  }

  function DigitValue(c: char): int { (c as int) - ('0' as int) }

  /** Reads decimal text back; the inverse of `NatToString`. */
  function ParseNat(s: string): int
  {
    if |s| == 0 then 0 else 10 * ParseNat(s[..|s| - 1]) + DigitValue(s[|s| - 1])
  }

  lemma {:induction false} NatToStringRoundTrip(n: nat)
    ensures ParseNat(NatToString(n)) == n
  {
    var r := NatToString(n);
    if n < 10 {
      assert r[..|r| - 1] == [];
    } else {
      assert r[..|r| - 1] == NatToString(n / 10);
      NatToStringRoundTrip(n / 10);
    }
  }

  lemma NatToStringInjective(m: nat, n: nat)
    requires NatToString(m) == NatToString(n)
    ensures m == n
  {
    NatToStringRoundTrip(m);
    NatToStringRoundTrip(n);
  }

  /** Removes duplicates, keeping the first occurrence of each element. */
  function Dedup<T(==)>(s: seq<T>): (r: seq<T>)
    ensures forall i :: 0 <= i < |r| ==> r[i] in s
    ensures forall i :: 0 <= i < |s| ==> s[i] in r
    ensures forall i, j :: 0 <= i < j < |r| ==> r[i] != r[j]
  {
    if |s| == 0 then []
    else
      var p := Dedup(s[..|s| - 1]);
      if s[|s| - 1] in p then p else p + [s[|s| - 1]]
  }
}
