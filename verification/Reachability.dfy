/** Finite directed graphs given by successor sets, paths, reachability and cycles.
    Shared by the build-dependency walk, the dependency tree and the process tree. */
module Reachability {

  ghost predicate NoRepeats<T>(s: seq<T>) {
    forall i, j :: 0 <= i < j < |s| ==> s[i] != s[j]
  }

  /** `p` is a non-empty walk along edges of `g`. */
  ghost predicate IsPath<T>(g: map<T, set<T>>, p: seq<T>) {
    |p| > 0 && forall i :: 0 <= i < |p| - 1 ==> p[i] in g && p[i + 1] in g[p[i]]
  }

  ghost predicate PathFromTo<T>(g: map<T, set<T>>, p: seq<T>, a: T, b: T) {
    IsPath(g, p) && p[0] == a && p[|p| - 1] == b
  }

  /** Reflexive and transitive reachability. */
  ghost predicate Reaches<T(!new)>(g: map<T, set<T>>, a: T, b: T) {
    exists p: seq<T> :: PathFromTo(g, p, a, b)
  }

  /** No walk of at least one edge comes back to where it started. */
  ghost predicate Acyclic<T(!new)>(g: map<T, set<T>>) {
    forall p: seq<T> :: IsPath(g, p) && |p| > 1 ==> p[0] != p[|p| - 1]
  }

  ghost predicate ClosedUnder<T(!new)>(g: map<T, set<T>>, s: set<T>) {
    forall x, y :: x in s && x in g && y in g[x] ==> y in s
  }

  /** Every edge of `g` is an edge of `h`. */
  ghost predicate SubGraph<T(!new)>(g: map<T, set<T>>, h: map<T, set<T>>) {
    forall x :: x in g ==> (g[x] == {} || (x in h && g[x] <= h[x]))
  }

  lemma ReachesSelf<T(!new)>(g: map<T, set<T>>, a: T)
    ensures Reaches(g, a, a)
  {
    assert PathFromTo(g, [a], a, a);
  }

  lemma ReachesEdge<T(!new)>(g: map<T, set<T>>, a: T, b: T, c: T)
    requires Reaches(g, a, b)
    requires b in g && c in g[b]
    ensures Reaches(g, a, c)
  {
    var p :| PathFromTo(g, p, a, b);
    assert PathFromTo(g, p + [c], a, c);
  }

  lemma JoinPaths<T>(g: map<T, set<T>>, p: seq<T>, q: seq<T>)
    requires IsPath(g, p) && IsPath(g, q) && p[|p| - 1] == q[0]
    ensures PathFromTo(g, p + q[1..], p[0], q[|q| - 1])
  {
  }

  lemma ReachesTransitive<T(!new)>(g: map<T, set<T>>, a: T, b: T, c: T)
    requires Reaches(g, a, b) && Reaches(g, b, c)
    ensures Reaches(g, a, c)
  {
    var p :| PathFromTo(g, p, a, b);
    var q :| PathFromTo(g, q, b, c);
    JoinPaths(g, p, q);
  }

  /** A set that is closed under edges swallows every path that starts in it. */
  lemma {:induction false} PathStaysIn<T(!new)>(g: map<T, set<T>>, s: set<T>, p: seq<T>, k: nat)
    requires IsPath(g, p) && ClosedUnder(g, s) && p[0] in s
    requires k < |p|
    ensures p[k] in s
  {
    if k > 0 {
      PathStaysIn(g, s, p, k - 1);
      assert p[k - 1 + 1] in g[p[k - 1]];
    }
  }

  lemma ClosedContainsReachable<T(!new)>(g: map<T, set<T>>, s: set<T>, a: T, b: T)
    requires ClosedUnder(g, s) && a in s && Reaches(g, a, b)
    ensures b in s
  {
    var p :| PathFromTo(g, p, a, b);
    PathStaysIn(g, s, p, |p| - 1);
  }

  lemma SubGraphPath<T(!new)>(g: map<T, set<T>>, h: map<T, set<T>>, p: seq<T>)
    requires SubGraph(g, h) && IsPath(g, p)
    ensures IsPath(h, p)
  {
    forall i | 0 <= i < |p| - 1 ensures p[i] in h && p[i + 1] in h[p[i]] {
      assert p[i + 1] in g[p[i]];
    }
  }

  lemma SubGraphAcyclic<T(!new)>(g: map<T, set<T>>, h: map<T, set<T>>)
    requires SubGraph(g, h) && Acyclic(h)
    ensures Acyclic(g)
  {
    forall p: seq<T> | IsPath(g, p) && |p| > 1 ensures p[0] != p[|p| - 1] {
      SubGraphPath(g, h, p);
    }
  }

  /** The graph with one more edge `x -> y`. */
  function WithEdge<T>(g: map<T, set<T>>, x: T, y: T): map<T, set<T>>
    requires x in g
  {
    g[x := g[x] + {y}]
  }

  /** A walk from `y` to `x` through the graph with the extra edge `x -> y` can be cut at its first
      visit to `x`, where it has not used the extra edge yet. */
  lemma {:induction false} CutAtFirst<T(!new)>(g: map<T, set<T>>, x: T, y: T, p: seq<T>, k: nat)
    requires x in g && IsPath(WithEdge(g, x, y), p) && p[0] == y
    requires k < |p| && p[k] == x
    ensures Reaches(g, y, x)
  {
    if j :| 0 <= j < k && p[j] == x {
      CutAtFirst(g, x, y, p, j);
    } else {
      var q := p[..k + 1];
      forall i | 0 <= i < |q| - 1 ensures q[i] in g && q[i + 1] in g[q[i]] {
        assert p[i] != x && p[i + 1] in WithEdge(g, x, y)[p[i]];
      }
      assert PathFromTo(g, q, y, x);
    }
  }

  /** The loop test of an edge insertion is sound: adding `x -> y` when `y` does not reach `x`
      keeps an acyclic graph acyclic. */
  lemma InsertKeepsAcyclic<T(!new)>(g: map<T, set<T>>, x: T, y: T)
    requires x in g && Acyclic(g) && !Reaches(g, y, x)
    ensures Acyclic(WithEdge(g, x, y))
  {
    var h := WithEdge(g, x, y);
    forall p: seq<T> | IsPath(h, p) && |p| > 1 ensures p[0] != p[|p| - 1] {
      if i :| 0 <= i < |p| - 1 && p[i] == x && p[i + 1] == y {
        if p[0] == p[|p| - 1] {
          var tail, head := p[i + 1..], p[..i + 1];
          JoinPaths(h, tail, head);
          var around := tail + head[1..];
          CutAtFirst(g, x, y, around, |around| - 1);
        }
      } else {
        forall i | 0 <= i < |p| - 1 ensures p[i] in g && p[i + 1] in g[p[i]] {
          assert p[i + 1] in h[p[i]];
        }
      }
    }
  }

  /** The loop test is also complete: when `y` reaches `x`, the edge `x -> y` closes a cycle. */
  lemma InsertClosesCycle<T(!new)>(g: map<T, set<T>>, x: T, y: T)
    requires Reaches(g, y, x) && x in g && y in g[x]
    ensures !Acyclic(g)
  {
    var p :| PathFromTo(g, p, y, x);
    var q := [x] + p;
    assert IsPath(g, q) && |q| > 1 && q[0] == q[|q| - 1];
  }

  /** Walking backwards inside a set in which everybody has a successor in the set must repeat. */
  lemma {:induction false} EndlessWalk<T(!new)>(g: map<T, set<T>>, s: set<T>, p: seq<T>)
    requires forall x :: x in s ==> x in g && g[x] * s != {}
    requires IsPath(g, p) && (forall i :: 0 <= i < |p| ==> p[i] in s)
    requires NoRepeats(p)
    ensures !Acyclic(g)
    decreases |s| - |p|
  {
    var last := p[|p| - 1];
    var y :| y in g[last] && y in s;
    if i :| 0 <= i < |p| && p[i] == y {
      var c := p[i..] + [y];
      assert IsPath(g, c) && |c| > 1 && c[0] == c[|c| - 1];
    } else {
      DistinctFits(p + [y], s);
      EndlessWalk(g, s, p + [y]);
    }
  }

  lemma {:induction false} DistinctFits<T>(p: seq<T>, s: set<T>)
    requires forall i :: 0 <= i < |p| ==> p[i] in s
    requires NoRepeats(p)
    ensures |p| <= |s|
  {
    if |p| > 0 {
      var last := p[|p| - 1];
      DistinctFits(p[..|p| - 1], s - {last});
    }
  }

  /** An acyclic graph has, in every non-empty set of its vertices, one without successors in the set. */
  lemma AcyclicHasSink<T(!new)>(g: map<T, set<T>>, s: set<T>) returns (x: T)
    requires Acyclic(g) && s != {} && s <= g.Keys
    ensures x in s && g[x] * s == {}
  {
    if x' :| x' in s && g[x'] * s == {} {
      x := x';
    } else {
      x :| x in s;
      EndlessWalk(g, s, [x]);
    }
  }

  /** Everything reachable from `start`, found by a worklist. */
  method Closure<T(==, !new)>(g: map<T, set<T>>, start: T) returns (seen: set<T>)
    ensures forall x :: x in seen <==> Reaches(g, start, x)
  {
    ghost var universe := {start} + set x, y | x in g && y in g[x] :: y;
    seen := {start};
    var todo := {start};
    ReachesSelf(g, start);
    while todo != {}
      invariant todo <= seen <= universe && start in seen
      invariant forall x :: x in seen ==> Reaches(g, start, x)
      invariant forall x, y :: x in seen && x !in todo && x in g && y in g[x] ==> y in seen
      decreases universe - seen, todo
    {
      var v :| v in todo;
      var found := (if v in g then g[v] else {}) - seen;
      forall y | y in found ensures Reaches(g, start, y) && y in universe {
        ReachesEdge(g, start, v, y);
      }
      seen, todo := seen + found, (todo - {v}) + found;
    }
    forall x | Reaches(g, start, x) ensures x in seen {
      ClosedContainsReachable(g, seen, start, x);
    }
  }
}
