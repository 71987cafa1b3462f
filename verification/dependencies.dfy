/** Dependency flattening (`btc/src/core/dependencies.ts`): the dependency
    tree built from the `package.json` files is a graph whose nodes are
    identified by their `hash`; `flattenDependencyTreeIterative` lists it in
    load order with an explicit stack, and `extractBorisTypeDependencies`
    keeps the packages that take part in linking. */
module Dependencies {
  import opened PackageJson
  import Base

  type Id = nat

  /** The dependency lists of the tree's nodes, by hash. */
  type Graph = map<Id, seq<Id>>

  /** Every dependency is itself a node. */
  predicate Closed(g: Graph)
  {
    forall x, d :: x in g && d in g[x] ==> d in g
  }

  /** Acyclicity, stated as a rank that drops along every edge. */
  ghost predicate Ranked(g: Graph, rank: map<Id, nat>)
  {
    forall x :: x in g ==> x in rank && forall d :: d in g[x] ==> d in rank && rank[d] < rank[x]
  }

  ghost predicate IsPath(g: Graph, p: seq<Id>)
  {
    |p| >= 1 && forall i :: 0 <= i < |p| - 1 ==> p[i] in g && p[i + 1] in g[p[i]]
  }

  ghost predicate Reaches(g: Graph, a: Id, b: Id)
  {
    exists p :: IsPath(g, p) && p[0] == a && p[|p| - 1] == b
  }

  lemma ReachesStep(g: Graph, a: Id, x: Id, d: Id)
    requires Reaches(g, a, x) && x in g && d in g[x]
    ensures Reaches(g, a, d)
  {
    var p :| IsPath(g, p) && p[0] == a && p[|p| - 1] == x;
    assert IsPath(g, p + [d]);
  }

  /** Ranks do not grow along a path. */
  lemma {:induction false} PathRank(g: Graph, rank: map<Id, nat>, p: seq<Id>)
    requires Closed(g) && Ranked(g, rank) && IsPath(g, p) && p[0] in g
    ensures p[|p| - 1] in g && rank[p[|p| - 1]] <= rank[p[0]]
  {
    if |p| > 1 {
      var q := p[..|p| - 1];
      assert IsPath(g, q);
      PathRank(g, rank, q);
    }
  }

  /** In an acyclic graph no node reachable from the root depends on it. */
  lemma RootIsNoDependency(g: Graph, rank: map<Id, nat>, root: Id, x: Id)
    requires Closed(g) && Ranked(g, rank) && root in g && Reaches(g, root, x)
    ensures x in g && root !in g[x]
  {
    var p :| IsPath(g, p) && p[0] == root && p[|p| - 1] == x;
    PathRank(g, rank, p);
  }

  /** A set that holds the root and every dependency of its members holds
      everything the root reaches. */
  lemma {:induction false} ClosureHoldsReachable(g: Graph, s: set<Id>, p: seq<Id>)
    requires IsPath(g, p) && p[0] in s
    requires forall x, d :: x in s && x in g && d in g[x] ==> d in s
    ensures p[|p| - 1] in s
  {
    if |p| > 1 {
      var q := p[..|p| - 1];
      assert IsPath(g, q);
      ClosureHoldsReachable(g, s, q);
    }
  }

  /* ---------------------------------------------------------------- */
  /* The stack machine of flattenDependencyTreeIterative                */
  /* ---------------------------------------------------------------- */

  /** A stack entry: a node and the hashes of the nodes it was reached
      through. */
  datatype Entry = Entry(node: Id, path: set<Id>)

  /** A node's dependencies that have not been visited yet, in order. */
  function Unvisited(ds: seq<Id>, visited: set<Id>): (r: seq<Id>)
    ensures |r| <= |ds|
    ensures forall d :: d in r <==> d in ds && d !in visited
  {
    if |ds| == 0 then []
    else (if ds[0] in visited then [] else [ds[0]]) + Unvisited(ds[1..], visited)
  }

  /** The entries pushed for the unprocessed dependencies, in order, leaving
      out those already on the current path. */
  function Pushes(ds: seq<Id>, path: set<Id>, newPath: set<Id>): (r: seq<Entry>)
    ensures |r| <= |ds|
    ensures forall i :: 0 <= i < |r| ==> r[i].path == newPath && r[i].node in ds && r[i].node !in path
    ensures forall d :: d in ds && d !in path ==> Entry(d, newPath) in r
  {
    if |ds| == 0 then []
    else
      var rest := Pushes(ds[1..], path, newPath);
      Base.InTail(ds);
      if ds[0] in path then rest
      else
        var r := [Entry(ds[0], newPath)] + rest;
        assert forall i :: 0 <= i < |rest| ==> r[i + 1] == rest[i];
        r
  }

  function Pow(b: nat, e: nat): nat
  {
    if e == 0 then 1 else b * Pow(b, e - 1)
  }

  lemma {:induction false} PowPositive(b: nat, e: nat)
    requires b >= 1
    ensures Pow(b, e) >= 1
  {
    if e > 0 { PowPositive(b, e - 1); }
  }

  lemma {:induction false} PowMonotone(b: nat, e: nat, f: nat)
    requires b >= 1 && e <= f
    ensures Pow(b, e) <= Pow(b, f)
    decreases f
  {
    if e < f {
      PowMonotone(b, e, f - 1);
      MulGrows(b, Pow(b, f - 1));
    }
  }

  lemma MulGrows(b: nat, p: nat)
    requires b >= 1
    ensures p <= b * p
  {
  }

  /** The termination measure: an entry weighs `b` to the power
      `2 * rank + 1` until it has pushed its dependencies and `2 * rank`
      afterwards. */
  ghost function Weight(stack: seq<Entry>, expanded: seq<bool>, rank: map<Id, nat>, b: nat): nat
    requires |expanded| == |stack|
    requires forall i :: 0 <= i < |stack| ==> stack[i].node in rank
  {
    if |stack| == 0 then 0
    else
      var n := |stack| - 1;
      Weight(stack[..n], expanded[..n], rank, b)
      + EntryWeight(stack[n], expanded[n], rank, b)
  }

  /** The weight of one entry. */
  ghost function EntryWeight(x: Entry, expanded: bool, rank: map<Id, nat>, b: nat): nat
    requires x.node in rank
  {
    Pow(b, 2 * rank[x.node] + (if expanded then 0 else 1))
  }

  lemma {:induction false} WeightAppend(s: seq<Entry>, e: seq<bool>, t: seq<Entry>, f: seq<bool>, rank: map<Id, nat>, b: nat)
    requires |e| == |s| && |f| == |t|
    requires forall i :: 0 <= i < |s| ==> s[i].node in rank
    requires forall i :: 0 <= i < |t| ==> t[i].node in rank
    ensures Weight(s + t, e + f, rank, b) == Weight(s, e, rank, b) + Weight(t, f, rank, b)
    decreases |t|
  {
    if |t| == 0 {
      assert s + t == s && e + f == e;
    } else {
      var n := |t| - 1;
      var st, ef := s + t, e + f;
      var m := |st| - 1;
      assert st[..m] == s + t[..n];
      assert ef[..m] == e + f[..n];
      assert st[m] == t[n] && ef[m] == f[n];
      WeightAppend(s, e, t[..n], f[..n], rank, b);
      WeightLast(st, ef, rank, b);
      WeightLast(t, f, rank, b);
    }
  }

  /** Freshly pushed dependencies of a node of rank `r + 1` weigh at most
      `b` to the power `2r + 1` each. */
  lemma {:induction false} PushedWeight(t: seq<Entry>, rank: map<Id, nat>, b: nat, r: nat)
    requires b >= 1
    requires forall i :: 0 <= i < |t| ==> t[i].node in rank && rank[t[i].node] <= r
    ensures Weight(t, seq(|t|, _ => false), rank, b) <= |t| * Pow(b, 2 * r + 1)
  {
    if |t| > 0 {
      var n := |t| - 1;
      var fs := seq(|t|, _ => false);
      assert fs[..n] == seq(n, _ => false) && !fs[n];
      var q := Pow(b, 2 * r + 1);
      PushedWeight(t[..n], rank, b, r);
      PowMonotone(b, 2 * rank[t[n].node] + 1, 2 * r + 1);
      WeightLast(t, fs, rank, b);
      SumBound(Weight(t[..n], fs[..n], rank, b), EntryWeight(t[n], false, rank, b), n, q);
    }
  }

  lemma SumBound(x: nat, y: nat, n: nat, q: nat)
    requires x <= n * q && y <= q
    ensures x + y <= (n + 1) * q
  {
  }

  /** The last entry's share of the weight. */
  lemma WeightLast(t: seq<Entry>, e: seq<bool>, rank: map<Id, nat>, b: nat)
    requires |e| == |t| > 0
    requires forall i :: 0 <= i < |t| ==> t[i].node in rank
    ensures Weight(t, e, rank, b)
      == Weight(t[..|t| - 1], e[..|t| - 1], rank, b) + EntryWeight(t[|t| - 1], e[|t| - 1], rank, b)
  {
  }

  /** Expanding an entry of rank `r + 1` into itself and at most `b - 2`
      lighter entries lowers the weight. */
  lemma ExpansionLowers(b: nat, r: nat, k: nat, kids: nat)
    requires b >= 2 && k <= b - 2 && kids <= k * Pow(b, 2 * r + 1)
    ensures Pow(b, 2 * (r + 1)) + kids < Pow(b, 2 * (r + 1) + 1)
  {
    var p := Pow(b, 2 * r + 1);
    PowPositive(b, 2 * r + 1);
    assert Pow(b, 2 * (r + 1)) == b * p;
    assert Pow(b, 2 * (r + 1) + 1) == b * (b * p);
    MulMonotone(k, b - 2, p);
    assert b * p + (b - 2) * p == (2 * b - 2) * p;
    assert b * (b * p) == (b * b) * p;
    MulStrict(2 * b - 2, b * b, p);
  }

  lemma MulMonotone(x: nat, y: nat, p: nat)
    requires x <= y
    ensures x * p <= y * p
  {
  }

  lemma MulStrict(x: nat, y: nat, p: nat)
    requires x < y && p >= 1
    ensures x * p < y * p
  {
  }

  /** The largest number of dependencies of any node. */
  ghost function FanOut(g: Graph): (m: nat)
    ensures forall x :: x in g ==> |g[x]| <= m
    decreases |g|
  {
    if |g| == 0 then 0
    else
      var x :| x in g;
      var rest := FanOut(g - {x});
      assert forall y :: y in g && y != x ==> y in g - {x} && (g - {x})[y] == g[y];
      if |g[x]| > rest then |g[x]| else rest
  }

  /** Every listed node comes after all of its dependencies. */
  ghost predicate DepsFirst(g: Graph, s: seq<Id>)
  {
    forall i :: 0 <= i < |s| ==> s[i] in g && forall d :: d in g[s[i]] ==> d in s[..i]
  }

  predicate NoDuplicates(s: seq<Id>)
  {
    forall i, j :: 0 <= i < j < |s| ==> s[i] != s[j]
  }

  /** The stack holds reachable nodes, each reached through nodes of
      higher rank; the root entry is at the bottom and nowhere else. */
  ghost predicate StackOk(g: Graph, rank: map<Id, nat>, root: Id, stack: seq<Entry>)
  {
    && (forall i :: 0 <= i < |stack| ==> stack[i].node in g && stack[i].node in rank && Reaches(g, root, stack[i].node))
    && (forall i, p :: 0 <= i < |stack| && p in stack[i].path ==> p in rank && rank[p] > rank[stack[i].node])
    && (|stack| > 0 ==> stack[0] == Entry(root, {}))
    && (forall i :: 0 < i < |stack| ==> stack[i].node != root)
  }

  /** An entry that has pushed its dependencies finds each of them listed
      or still above it on the stack. */
  ghost predicate Pending(g: Graph, stack: seq<Entry>, expanded: seq<bool>, visited: set<Id>)
  {
    |expanded| == |stack|
    && forall i, d :: 0 <= i < |stack| && expanded[i] && stack[i].node in g && d in g[stack[i].node] ==>
      d in visited || exists j :: i < j < |stack| && stack[j].node == d
  }

  /** The output so far: listed once each, dependencies first, all
      reachable, and `visited` is its set of hashes. */
  ghost predicate Listed(g: Graph, root: Id, visited: set<Id>, result: seq<Id>)
  {
    && (forall x :: x in visited <==> x in result)
    && NoDuplicates(result)
    && DepsFirst(g, result)
    && (forall x :: x in result ==> Reaches(g, root, x))
  }

  lemma PopKeeps(g: Graph, rank: map<Id, nat>, root: Id, stack: seq<Entry>, expanded: seq<bool>,
                 visited: set<Id>, visited': set<Id>)
    requires |stack| > 0
    requires StackOk(g, rank, root, stack) && Pending(g, stack, expanded, visited)
    requires visited <= visited' && stack[|stack| - 1].node in visited'
    ensures StackOk(g, rank, root, stack[..|stack| - 1])
    ensures Pending(g, stack[..|stack| - 1], expanded[..|stack| - 1], visited')
  {
    var top := |stack| - 1;
    var s := stack[..top];
    forall i, d | 0 <= i < |s| && expanded[..top][i] && s[i].node in g && d in g[s[i].node]
      ensures d in visited' || exists j :: i < j < |s| && s[j].node == d
    {
      if d !in visited' {
        var j :| i < j < |stack| && stack[j].node == d;
        assert j < top;
        assert s[j].node == d;
      }
    }
  }

  lemma EmitKeeps(g: Graph, root: Id, visited: set<Id>, result: seq<Id>, n: Id)
    requires Listed(g, root, visited, result)
    requires n in g && n !in visited && Reaches(g, root, n)
    requires forall d :: d in g[n] ==> d in visited
    ensures Listed(g, root, visited + {n}, result + [n])
  {
    var r := result + [n];
    assert r[..|result|] == result;
    forall i | 0 <= i < |r| ensures r[i] in g && forall d :: d in g[r[i]] ==> d in r[..i] {
      if i < |result| {
        assert r[..i] == result[..i];
      }
    }
  }

  /** The entries pushed for a node are reachable dependencies of it,
      reached through it. */
  lemma ExpandStackOk(g: Graph, rank: map<Id, nat>, root: Id, stack: seq<Entry>, e: Entry, kids: seq<Entry>)
    requires Closed(g) && Ranked(g, rank) && root in g
    requires StackOk(g, rank, root, stack + [e]) && e.node in g
    requires forall i :: 0 <= i < |kids| ==> kids[i].path == e.path + {e.node} && kids[i].node in g[e.node]
    ensures StackOk(g, rank, root, stack + [e] + kids)
  {
    var top := |stack|;
    var s0 := stack + [e];
    var s1 := stack + [e] + kids;
    assert s0[top] == e;
    forall i | 0 <= i < |kids|
      ensures kids[i].node in g && kids[i].node in rank && Reaches(g, root, kids[i].node)
      ensures rank[kids[i].node] < rank[e.node] && kids[i].node != root
    {
      ReachesStep(g, root, e.node, kids[i].node);
      RootIsNoDependency(g, rank, root, e.node);
    }
    forall i | 0 <= i < |s1|
      ensures s1[i].node in g && s1[i].node in rank && Reaches(g, root, s1[i].node)
      ensures i > 0 ==> s1[i].node != root
    {
      if i <= top { assert s1[i] == s0[i]; } else { assert s1[i] == kids[i - top - 1]; }
    }
    forall i, p | 0 <= i < |s1| && p in s1[i].path
      ensures p in rank && rank[p] > rank[s1[i].node]
    {
      if i <= top {
        assert s1[i] == s0[i];
      } else {
        var k := kids[i - top - 1];
        assert s1[i] == k;
        assert p == e.node || p in e.path;
      }
    }
    assert s1[0] == s0[0];
  }

  /** After the expansion the entry's unlisted dependencies all lie above
      it. */
  lemma ExpandPending(g: Graph, stack: seq<Entry>, expanded: seq<bool>, visited: set<Id>, e: Entry, kids: seq<Entry>)
    requires Pending(g, stack + [e], expanded + [false], visited) && e.node in g
    requires forall d :: d in g[e.node] && d !in visited ==> exists i :: 0 <= i < |kids| && kids[i].node == d
    ensures Pending(g, stack + [e] + kids, expanded + [true] + seq(|kids|, _ => false), visited)
  {
    var top := |stack|;
    var s0 := stack + [e];
    var x0 := expanded + [false];
    var s1 := stack + [e] + kids;
    var x1 := expanded + [true] + seq(|kids|, _ => false);
    assert forall j :: 0 <= j <= top ==> s1[j] == s0[j];
    assert forall j :: 0 <= j < top ==> x1[j] == x0[j];
    assert forall j :: top < j < |s1| ==> !x1[j];
    forall i, d | 0 <= i < |s1| && x1[i] && s1[i].node in g && d in g[s1[i].node]
      ensures d in visited || exists j :: i < j < |s1| && s1[j].node == d
    {
      if d !in visited {
        if i == top {
          var k :| 0 <= k < |kids| && kids[k].node == d;
          assert s1[top + 1 + k] == kids[k];
        } else {
          assert x0[i];
          var j :| i < j < |s0| && s0[j].node == d;
          assert s1[j] == s0[j];
        }
      }
    }
  }

  /** Replacing an unexpanded entry by its expanded self and at most
      `b - 2` entries of lower rank lowers the weight. */
  /** Pushing one entry adds its own weight. */
  lemma WeightPush(stack: seq<Entry>, expanded: seq<bool>, x: Entry, ex: bool, rank: map<Id, nat>, b: nat)
    requires |expanded| == |stack|
    requires forall i :: 0 <= i < |stack| ==> stack[i].node in rank
    requires x.node in rank
    ensures Weight(stack + [x], expanded + [ex], rank, b) == Weight(stack, expanded, rank, b) + EntryWeight(x, ex, rank, b)
  {
    var n := |stack|;
    assert (stack + [x])[..n] == stack && (expanded + [ex])[..n] == expanded;
    assert (stack + [x])[n] == x && (expanded + [ex])[n] == ex;
  }

  /** An expanded entry of rank `r` and its freshly pushed dependencies
      weigh less than the entry did before expansion. */
  lemma KidsLighter(rank: map<Id, nat>, b: nat, r: nat, kids: seq<Entry>)
    requires b >= 2 && |kids| <= b - 2
    requires forall i :: 0 <= i < |kids| ==> kids[i].node in rank && rank[kids[i].node] < r
    ensures Weight(kids, seq(|kids|, _ => false), rank, b) + Pow(b, 2 * r) < Pow(b, 2 * r + 1)
  {
    var kw := Weight(kids, seq(|kids|, _ => false), rank, b);
    if |kids| == 0 {
      assert kw == 0;
      assert Pow(b, 2 * r + 1) == b * Pow(b, 2 * r);
      PowPositive(b, 2 * r);
    } else {
      assert rank[kids[0].node] < r;
      PushedWeight(kids, rank, b, r - 1);
      ExpansionLowers(b, r - 1, |kids|, kw);
    }
  }

  lemma ExpandWeight(rank: map<Id, nat>, b: nat, stack: seq<Entry>, expanded: seq<bool>, e: Entry, kids: seq<Entry>)
    requires b >= 2 && |kids| <= b - 2 && |expanded| == |stack|
    requires forall i :: 0 <= i < |stack| ==> stack[i].node in rank
    requires e.node in rank
    requires forall i :: 0 <= i < |kids| ==> kids[i].node in rank && rank[kids[i].node] < rank[e.node]
    ensures Weight(stack + [e] + kids, expanded + [true] + seq(|kids|, _ => false), rank, b)
          < Weight(stack + [e], expanded + [false], rank, b)
  {
    var unexp := seq(|kids|, _ => false);
    var r := rank[e.node];
    WeightPush(stack, expanded, e, true, rank, b);
    WeightPush(stack, expanded, e, false, rank, b);
    var w := Weight(stack, expanded, rank, b);
    var kw := Weight(kids, unexp, rank, b);
    KidsLighter(rank, b, r, kids);
    calc {
      Weight(stack + [e] + kids, expanded + [true] + unexp, rank, b);
    == { WeightAppend(stack + [e], expanded + [true], kids, unexp, rank, b); }
      Weight(stack + [e], expanded + [true], rank, b) + kw;
    ==
      w + Pow(b, 2 * r) + kw;
    <
      w + Pow(b, 2 * r + 1);
    ==
      Weight(stack + [e], expanded + [false], rank, b);
    }
  }

  /** The loop invariant of `flattenDependencyTreeIterative`. */
  ghost predicate Inv(g: Graph, rank: map<Id, nat>, root: Id, stack: seq<Entry>, expanded: seq<bool>,
                      visited: set<Id>, result: seq<Id>)
  {
    && StackOk(g, rank, root, stack)
    && Pending(g, stack, expanded, visited)
    && Listed(g, root, visited, result)
    && (|stack| > 0 ==> root !in visited)
    && (|stack| == 0 ==> |result| > 0 && result[|result| - 1] == root)
  }

  /** Popping an entry lowers the weight. */
  lemma PopWeight(stack: seq<Entry>, expanded: seq<bool>, rank: map<Id, nat>, b: nat)
    requires |stack| > 0 && |expanded| == |stack| && b >= 1
    requires forall i :: 0 <= i < |stack| ==> stack[i].node in rank
    ensures Weight(stack[..|stack| - 1], expanded[..|stack| - 1], rank, b) < Weight(stack, expanded, rank, b)
  {
    var top := |stack| - 1;
    WeightLast(stack, expanded, rank, b);
    EntryWeightPositive(stack[top], expanded[top], rank, b);
  }

  lemma EntryWeightPositive(x: Entry, expanded: bool, rank: map<Id, nat>, b: nat)
    requires b >= 1 && x.node in rank
    ensures EntryWeight(x, expanded, rank, b) >= 1
  {
    PowPositive(b, 2 * rank[x.node] + (if expanded then 0 else 1));
  }

  /** The entry on top is already listed: it is dropped. */
  lemma SkipStep(g: Graph, rank: map<Id, nat>, root: Id, stack: seq<Entry>, expanded: seq<bool>,
                 visited: set<Id>, result: seq<Id>)
    requires |stack| > 0 && Inv(g, rank, root, stack, expanded, visited, result)
    requires stack[|stack| - 1].node in visited
    ensures Inv(g, rank, root, stack[..|stack| - 1], expanded[..|stack| - 1], visited, result)
  {
    PopKeeps(g, rank, root, stack, expanded, visited, visited);
  }

  /** All dependencies of the entry on top are listed: it is listed too. */
  lemma EmitStep(g: Graph, rank: map<Id, nat>, root: Id, stack: seq<Entry>, expanded: seq<bool>,
                 visited: set<Id>, result: seq<Id>)
    requires |stack| > 0 && Inv(g, rank, root, stack, expanded, visited, result)
    requires stack[|stack| - 1].node !in visited
    requires forall d :: d in g[stack[|stack| - 1].node] ==> d in visited
    ensures Inv(g, rank, root, stack[..|stack| - 1], expanded[..|stack| - 1],
                visited + {stack[|stack| - 1].node}, result + [stack[|stack| - 1].node])
  {
    var n := stack[|stack| - 1].node;
    EmitKeeps(g, root, visited, result, n);
    PopKeeps(g, rank, root, stack, expanded, visited, visited + {n});
  }

  /** An entry with unlisted dependencies has not pushed them yet: once
      pushed they stay above it until they are listed. */
  lemma TopUnexpanded(g: Graph, stack: seq<Entry>, expanded: seq<bool>, visited: set<Id>)
    requires |stack| > 0 && Pending(g, stack, expanded, visited)
    requires stack[|stack| - 1].node in g
    requires |Unvisited(g[stack[|stack| - 1].node], visited)| > 0
    ensures !expanded[|stack| - 1]
  {
    var top := |stack| - 1;
    var d := Unvisited(g[stack[top].node], visited)[0];
    assert d in g[stack[top].node] && d !in visited;
  }

  /** Some dependency of the entry on top is unlisted: the entry goes back,
      expanded, under its unlisted dependencies. */
  lemma ExpandStep(g: Graph, rank: map<Id, nat>, root: Id, stack: seq<Entry>, kids: seq<Entry>)
    requires Closed(g) && root in g && Ranked(g, rank)
    requires |stack| > 0 && StackOk(g, rank, root, stack)
    requires var e := stack[|stack| - 1];
      forall i :: 0 <= i < |kids| ==> kids[i].path == e.path + {e.node} && kids[i].node in g[e.node]
    ensures StackOk(g, rank, root, stack + kids)
  {
    var top := |stack| - 1;
    assert stack == stack[..top] + [stack[top]];
    ExpandStackOk(g, rank, root, stack[..top], stack[top], kids);
  }

  /** ... and every dependency it has not listed lies above it. */
  lemma ExpandStepPending(g: Graph, stack: seq<Entry>, expanded: seq<bool>, visited: set<Id>, kids: seq<Entry>)
    requires |stack| > 0 && Pending(g, stack, expanded, visited) && !expanded[|stack| - 1]
    requires var e := stack[|stack| - 1];
      && e.node in g && kids == Pushes(Unvisited(g[e.node], visited), e.path, e.path + {e.node})
      && forall d :: d in g[e.node] ==> d !in e.path
    ensures var top := |stack| - 1;
      Pending(g, stack + kids, expanded[..top] + [true] + seq(|kids|, _ => false), visited)
  {
    var top := |stack| - 1;
    var e := stack[top];
    assert stack == stack[..top] + [e];
    assert expanded == expanded[..top] + [false];
    ExpandFindsKids(g[e.node], visited, e.path, e.path + {e.node}, kids);
    ExpandPending(g, stack[..top], expanded[..top], visited, e, kids);
  }

  /** The nodes an entry was reached through outrank it, so none of its
      dependencies is among them. */
  lemma DepsOffPath(g: Graph, rank: map<Id, nat>, root: Id, stack: seq<Entry>)
    requires Ranked(g, rank) && |stack| > 0 && StackOk(g, rank, root, stack)
    ensures var e := stack[|stack| - 1]; forall d :: d in g[e.node] ==> d !in e.path
  {
    var e := stack[|stack| - 1];
    forall d | d in g[e.node] ensures d !in e.path {
    }
  }

  /** Every unlisted dependency not on the path gets an entry. */
  lemma ExpandFindsKids(ds: seq<Id>, visited: set<Id>, path: set<Id>, newPath: set<Id>, kids: seq<Entry>)
    requires kids == Pushes(Unvisited(ds, visited), path, newPath)
    ensures forall d :: d in ds && d !in visited && d !in path ==> exists i :: 0 <= i < |kids| && kids[i].node == d
  {
    forall d | d in ds && d !in visited && d !in path
      ensures exists i :: 0 <= i < |kids| && kids[i].node == d
    {
      assert d in Unvisited(ds, visited);
    }
  }

  /** The expansion lowers the weight: the pushed entries are at most
      `FanOut(g)` dependencies of lower rank. */
  lemma ExpandStepWeight(g: Graph, rank: map<Id, nat>, b: nat, stack: seq<Entry>, expanded: seq<bool>,
                         kids: seq<Entry>)
    requires Ranked(g, rank) && b == FanOut(g) + 2
    requires |stack| > 0 && |expanded| == |stack| && !expanded[|stack| - 1]
    requires forall i :: 0 <= i < |stack| ==> stack[i].node in g
    requires |kids| <= |g[stack[|stack| - 1].node]|
    requires forall i :: 0 <= i < |kids| ==> kids[i].node in g[stack[|stack| - 1].node]
    ensures Weight(stack + kids, expanded[..|stack| - 1] + [true] + seq(|kids|, _ => false), rank, b)
      < Weight(stack, expanded, rank, b)
  {
    var top := |stack| - 1;
    var e := stack[top];
    Base.InitLast(stack);
    Base.InitLast(expanded);
    assert e.node in g;
    assert |g[e.node]| <= FanOut(g);
    forall i | 0 <= i < |kids| ensures kids[i].node in rank && rank[kids[i].node] < rank[e.node] {
      assert kids[i].node in g[e.node];
    }
    forall i | 0 <= i < |stack| ensures stack[i].node in rank {
      assert stack[i].node in g;
    }
    ExpandWeight(rank, b, stack[..top], expanded[..top], e, kids);
  }

  /** The invariant survives the expansion. */
  lemma ExpandKeeps(g: Graph, rank: map<Id, nat>, root: Id, stack: seq<Entry>, expanded: seq<bool>,
                    visited: set<Id>, result: seq<Id>, kids: seq<Entry>)
    requires Closed(g) && root in g && Ranked(g, rank)
    requires |stack| > 0 && Inv(g, rank, root, stack, expanded, visited, result)
    requires stack[|stack| - 1].node !in visited
    requires |Unvisited(g[stack[|stack| - 1].node], visited)| > 0
    requires var e := stack[|stack| - 1];
      kids == Pushes(Unvisited(g[e.node], visited), e.path, e.path + {e.node})
    ensures !expanded[|stack| - 1]
    ensures Inv(g, rank, root, stack + kids,
                expanded[..|stack| - 1] + [true] + seq(|kids|, _ => false), visited, result)
  {
    TopUnexpanded(g, stack, expanded, visited);
    ExpandStep(g, rank, root, stack, kids);
    DepsOffPath(g, rank, root, stack);
    ExpandStepPending(g, stack, expanded, visited, kids);
  }

  /** One pass of the loop body (lines 155-190): pop an entry; skip it when
      it is on its own path or already listed; list it when all its
      dependencies are; otherwise push it back and push its unlisted
      dependencies above it. */
  method FlattenStep(g: Graph, ghost rank: map<Id, nat>, root: Id, ghost b: nat, stack: seq<Entry>,
                     ghost expanded: seq<bool>, visited: set<Id>, result: seq<Id>)
    returns (stack': seq<Entry>, ghost expanded': seq<bool>, visited': set<Id>, result': seq<Id>)
    requires Closed(g) && root in g && Ranked(g, rank) && b == FanOut(g) + 2
    requires |stack| > 0 && Inv(g, rank, root, stack, expanded, visited, result)
    ensures Inv(g, rank, root, stack', expanded', visited', result')
    ensures Weight(stack', expanded', rank, b) < Weight(stack, expanded, rank, b)
    ensures |result'| >= |result| && result'[..|result|] == result
  {
    var top := |stack| - 1;
    var e := stack[top];
    assert e.node !in e.path;
    if e.node in e.path || e.node in visited {
      SkipStep(g, rank, root, stack, expanded, visited, result);
      PopWeight(stack, expanded, rank, b);
      stack', expanded', visited', result' := stack[..top], expanded[..top], visited, result;
    } else {
      var unprocessed := Unvisited(g[e.node], visited);
      if |unprocessed| == 0 {
        EmitStep(g, rank, root, stack, expanded, visited, result);
        PopWeight(stack, expanded, rank, b);
        stack', expanded' := stack[..top], expanded[..top];
        visited', result' := visited + {e.node}, result + [e.node];
        assert result'[..|result|] == result;
      } else {
        var kids := Pushes(unprocessed, e.path, e.path + {e.node});
        ExpandKeeps(g, rank, root, stack, expanded, visited, result, kids);
        ExpandStepWeight(g, rank, b, stack, expanded, kids);
        stack' := stack + kids;
        expanded' := expanded[..top] + [true] + seq(|kids|, _ => false);
        visited', result' := visited, result;
      }
    }
  }

  /** `flattenDependencyTreeIterative` on an acyclic tree: every node the
      root reaches is listed exactly once, after all of its dependencies,
      and the root comes last. On a cyclic tree the source loops forever
      (a node whose dependency is on its own path is pushed back again and
      again), which is why the graph must be ranked. */
  method FlattenTree(g: Graph, root: Id, ghost rank: map<Id, nat>) returns (result: seq<Id>)
    requires Closed(g) && root in g && Ranked(g, rank)
    ensures NoDuplicates(result)
    ensures DepsFirst(g, result)
    ensures forall x :: x in result <==> Reaches(g, root, x)
    ensures |result| > 0 && result[|result| - 1] == root
  {
    var visited: set<Id> := {};
    result := [];
    var stack := [Entry(root, {})];
    ghost var expanded := [false];
    ghost var b := FanOut(g) + 2;
    assert IsPath(g, [root]);
    while |stack| > 0
      invariant Inv(g, rank, root, stack, expanded, visited, result)
      decreases Weight(stack, expanded, rank, b)
    {
      stack, expanded, visited, result := FlattenStep(g, rank, root, b, stack, expanded, visited, result);
    }
    assert stack == [] && expanded == [];
    FlattenDone(g, rank, root, visited, result);
  }

  /** Once the stack is empty the output holds everything the root
      reaches: it holds the root and the dependencies of all it holds. */
  lemma FlattenDone(g: Graph, rank: map<Id, nat>, root: Id, visited: set<Id>, result: seq<Id>)
    requires Inv(g, rank, root, [], [], visited, result)
    ensures forall x :: x in result <==> Reaches(g, root, x)
  {
    assert forall x, d :: x in visited && x in g && d in g[x] ==> d in visited by {
      forall x, d | x in visited && x in g && d in g[x] ensures d in visited {
        var i :| 0 <= i < |result| && result[i] == x;
        assert d in result[..i];
      }
    }
    forall x | Reaches(g, root, x) ensures x in result {
      var p :| IsPath(g, p) && p[0] == root && p[|p| - 1] == x;
      ClosureHoldsReachable(g, visited, p);
    }
  }

  /* ---------------------------------------------------------------- */
  /* extractBorisTypeDependencies                                       */
  /* ---------------------------------------------------------------- */

  /** A node of the flattened tree with its package description. */
  datatype Node = Node(hash: Id, packageJson: Json, projectPath: string)

  /** The nodes of the flat tree that pass the linking test; the first node whose
      test throws makes the whole call throw. */
  function ExtractWs(nodes: seq<Node>): (r: Outcome<seq<Node>>)
    ensures r.Returns? <==> forall i :: 0 <= i < |nodes| ==> IsWsPackage(nodes[i].packageJson).Returns?
    ensures r.Returns? ==> forall n :: n in r.value <==> n in nodes && IsWsPackage(n.packageJson) == Returns(true)
    ensures r.Returns? ==> |r.value| <= |nodes|
  {
    if |nodes| == 0 then Returns([])
    else
      match IsWsPackage(nodes[0].packageJson)
      case Throws => Throws
      case Returns(keep) =>
        match ExtractWs(nodes[1..])
        case Throws => Throws
        case Returns(rest) =>
          assert forall n :: n in nodes <==> n == nodes[0] || n in nodes[1..];
          Returns(if keep then [nodes[0]] + rest else rest)
  }

  /** What the filter keeps of one node that does not throw. */
  function Kept(n: Node): seq<Node>
  {
    if IsWsPackage(n.packageJson) == Returns(true) then [n] else []
  }

  lemma ExtractWsCons(a: seq<Node>)
    requires |a| > 0 && IsWsPackage(a[0].packageJson).Returns?
    ensures ExtractWs(a) == if ExtractWs(a[1..]).Throws? then Throws else Returns(Kept(a[0]) + ExtractWs(a[1..]).value)
  {
    var keep := IsWsPackage(a[0].packageJson).value;
    assert IsWsPackage(a[0].packageJson) == Returns(keep);
    if ExtractWs(a[1..]).Returns? {
      var rest := ExtractWs(a[1..]).value;
      assert ExtractWs(a[1..]) == Returns(rest);
      assert ExtractWs(a) == Returns(if keep then [a[0]] + rest else rest);
      assert [] + rest == rest;
    }
  }

  /** The filter keeps the relative order: extracting from a concatenation
      concatenates the extractions. */
  lemma {:induction false} ExtractWsAppend(a: seq<Node>, b: seq<Node>)
    requires ExtractWs(a).Returns? && ExtractWs(b).Returns?
    ensures ExtractWs(a + b) == Returns(ExtractWs(a).value + ExtractWs(b).value)
  {
    if |a| > 0 {
      var ab := a + b;
      Base.ConsAppend(a, b);
      assert IsWsPackage(a[0].packageJson).Returns?;
      ExtractWsCons(a);
      ExtractWsAppend(a[1..], b);
      ExtractWsCons(ab);
      var ra, rb := ExtractWs(a[1..]).value, ExtractWs(b).value;
      assert ExtractWs(a) == Returns(Kept(a[0]) + ra);
      assert ExtractWs(ab[1..]) == Returns(ra + rb);
      assert ExtractWs(ab) == Returns(Kept(a[0]) + (ra + rb));
      Base.Assoc3(Kept(a[0]), ra, rb);
    } else {
      assert a == [];
      Base.AppendEmpty(b);
      Base.AppendEmpty(ExtractWs(b).value);
      assert ExtractWs(a) == Returns([]);
    }
  }
}
