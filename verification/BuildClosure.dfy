/** `okteto up` checks the image of the dev container and everything it is built from
    (cmd/up/build.go). The walk marks services in a shared map; the graph may have cycles. */
module BuildClosure {
  import opened Reachability

  /** The build section: `DependsOn` of every declared service. */
  type Manifest = map<string, seq<string>>

  function Edges(bm: Manifest): map<string, set<string>> {
    map s | s in bm :: set d | d in bm[s]
  }

  /** `Panicked`: the walk dereferenced the entry of a service that is not declared. */
  datatype Walk = Panicked | Services(list: seq<string>)

  /** The `visited` map handed down the recursion; only `true` is ever stored. */
  class Visited {
    var marked: set<string>

    constructor ()
      ensures marked == {}
    {
      marked := {};
    }
  }

  ghost predicate Declared(bm: Manifest, s: seq<string>) {
    forall i :: 0 <= i < |s| ==> s[i] in bm
  }

  /** The dependency lists of the services of `order`, added up. */
  ghost function Expansion(bm: Manifest, order: seq<string>): multiset<string>
    requires Declared(bm, order)
  {
    if order == [] then multiset{} else multiset(bm[order[0]]) + Expansion(bm, order[1..])
  }

  lemma {:induction false} ExpansionConcat(bm: Manifest, a: seq<string>, b: seq<string>)
    requires Declared(bm, a) && Declared(bm, b)
    ensures Expansion(bm, a + b) == Expansion(bm, a) + Expansion(bm, b)
  {
    if a == [] {
      assert a + b == b;
    } else {
      assert (a + b)[1..] == a[1..] + b;
      ExpansionConcat(bm, a[1..], b);
    }
  }

  /** What `order` has to satisfy to be the services expanded below `svc` when the marks went
      from `before` to `after`. */
  ghost predicate Expanded(bm: Manifest, svc: string, before: set<string>, after: set<string>, order: seq<string>) {
    && NoRepeats(order) && Declared(bm, order)
    && (forall x :: x in order <==> x in after && x !in before)
    && before <= after && svc in after
    && (forall x, d :: x in order && d in bm[x] ==> d in after)
    && (forall x :: x in order ==> Reaches(Edges(bm), svc, x))
  }

  /** The loop over the dependencies of `svc` after `i` of them: everything expanded except `svc`
      itself is finished, and the first `i` dependencies are marked. */
  ghost predicate Partial(bm: Manifest, svc: string, before: set<string>, now: set<string>,
                          order: seq<string>, i: nat)
  {
    && svc in bm && i <= |bm[svc]|
    && before <= now && svc in now && svc !in before
    && NoRepeats([svc] + order) && Declared(bm, order)
    && (forall x :: x in [svc] + order <==> x in now && x !in before)
    && (forall x, d :: x in order && d in bm[x] ==> d in now)
    && (forall x :: x in order ==> Reaches(Edges(bm), svc, x))
    && (forall j :: 0 <= j < i ==> bm[svc][j] in now)
  }

  lemma ExtendOrder(bm: Manifest, svc: string, dep: string, before: set<string>, mid: set<string>, after: set<string>,
                    order: seq<string>, i: nat, sub: seq<string>)
    requires Partial(bm, svc, before, mid, order, i)
    requires dep in bm[svc] && Expanded(bm, dep, mid, after, sub)
    ensures NoRepeats([svc] + order + sub) && Declared(bm, order + sub)
    ensures forall x :: x in [svc] + order + sub <==> x in after && x !in before
    ensures forall x :: x in order + sub ==> Reaches(Edges(bm), svc, x)
  {
    var all := [svc] + order;
    assert forall k :: 0 <= k < |all| ==> all[k] in all;
    assert forall k :: 0 <= k < |sub| ==> sub[k] in sub;
    forall x | x in sub ensures Reaches(Edges(bm), svc, x) {
      ReachesSelf(Edges(bm), svc);
      ReachesEdge(Edges(bm), svc, svc, dep);
      ReachesTransitive(Edges(bm), svc, dep, x);
    }
  }

  lemma ExtendList(bm: Manifest, deps: seq<string>, i: nat, order: seq<string>, result: seq<string>,
                   sub: seq<string>, list: seq<string>)
    requires Declared(bm, order) && Declared(bm, sub) && i < |deps|
    requires multiset(result) == multiset(deps[..i]) + Expansion(bm, order)
    requires multiset(list) == Expansion(bm, sub)
    ensures Declared(bm, order + sub)
    ensures multiset(result + [deps[i]] + list) == multiset(deps[..i + 1]) + Expansion(bm, order + sub)
  {
    ExpansionConcat(bm, order, sub);
    assert deps[..i + 1] == deps[..i] + [deps[i]];
  }

  /** One loop iteration: the walk below the next dependency extends what was expanded so far. */
  lemma ExtendWalk(bm: Manifest, svc: string, before: set<string>, mid: set<string>, after: set<string>,
                   order: seq<string>, i: nat, sub: seq<string>)
    requires Partial(bm, svc, before, mid, order, i) && i < |bm[svc]|
    requires Expanded(bm, bm[svc][i], mid, after, sub)
    ensures Partial(bm, svc, before, after, order + sub, i + 1)
  {
    ExtendOrder(bm, svc, bm[svc][i], before, mid, after, order, i, sub);
    assert [svc] + (order + sub) == [svc] + order + sub;
  }

  lemma FinishWalk(bm: Manifest, svc: string, before: set<string>, now: set<string>, order: seq<string>, result: seq<string>)
    requires svc in bm && Partial(bm, svc, before, now, order, |bm[svc]|)
    requires multiset(result) == multiset(bm[svc][..|bm[svc]|]) + Expansion(bm, order)
    ensures Expanded(bm, svc, before, now, [svc] + order)
    ensures multiset(result) == Expansion(bm, [svc] + order)
  {
    ReachesSelf(Edges(bm), svc);
    assert bm[svc][..|bm[svc]|] == bm[svc];
    assert ([svc] + order)[1..] == order;
  }

  /** An undeclared service below a dependency is below the service itself. */
  lemma PanicPropagates(bm: Manifest, svc: string, dep: string)
    requires svc in bm && dep in bm[svc]
    requires exists x :: Reaches(Edges(bm), dep, x) && x !in bm
    ensures exists x :: Reaches(Edges(bm), svc, x) && x !in bm
  {
    var x :| Reaches(Edges(bm), dep, x) && x !in bm;
    ReachesSelf(Edges(bm), svc);
    ReachesEdge(Edges(bm), svc, svc, dep);
    ReachesTransitive(Edges(bm), svc, dep, x);
  }

  /** The recursive walk. `order` is the sequence of services whose `DependsOn` was expanded. */
  method GetDependentServices(svc: string, bm: Manifest, visited: Visited) returns (r: Walk, ghost order: seq<string>)
    modifies visited
    ensures r.Services? ==> Expanded(bm, svc, old(visited.marked), visited.marked, order)
    ensures r.Services? ==> multiset(r.list) == Expansion(bm, order)
    ensures r.Panicked? ==> exists x :: Reaches(Edges(bm), svc, x) && x !in bm
    decreases bm.Keys - visited.marked
  {
    order := [];
    if svc in visited.marked {
      return Services([]), order;
    }
    visited.marked := visited.marked + {svc};
    if svc !in bm {
      ReachesSelf(Edges(bm), svc);
      return Panicked, order;
    }
    var deps, result := bm[svc], [];
    for i := 0 to |deps|
      invariant Partial(bm, svc, old(visited.marked), visited.marked, order, i)
      invariant multiset(result) == multiset(deps[..i]) + Expansion(bm, order)
    {
      ghost var mid := visited.marked;
      var sub, subOrder := GetDependentServices(deps[i], bm, visited);
      if sub.Panicked? {
        PanicPropagates(bm, svc, deps[i]);
        return Panicked, order;
      }
      ExtendWalk(bm, svc, old(visited.marked), mid, visited.marked, order, i, subOrder);
      ExtendList(bm, deps, i, order, result, subOrder, sub.list);
      result := result + [deps[i]] + sub.list;
      order := order + subOrder;
    }
    FinishWalk(bm, svc, old(visited.marked), visited.marked, order, result);
    r, order := Services(result), [svc] + order;
  }

  /** The list of services whose images are checked: the service itself and the result of the walk
      from an empty `visited` map. The walk panics exactly when an undeclared service is reachable;
      otherwise the list holds exactly the reachable services, and its duplicates are accounted for
      by one expansion per reachable service. */
  method ServicesToCheck(svc: string, bm: Manifest) returns (r: Walk, ghost order: seq<string>)
    ensures r.Panicked? <==> exists x :: Reaches(Edges(bm), svc, x) && x !in bm
    ensures r.Services? ==> forall x :: x in r.list <==> Reaches(Edges(bm), svc, x)
    ensures r.Services? ==> NoRepeats(order) && Declared(bm, order)
    ensures r.Services? ==> forall x :: x in order <==> Reaches(Edges(bm), svc, x)
    ensures r.Services? ==> multiset(r.list) == multiset{svc} + Expansion(bm, order)
  {
    var visited := new Visited();
    r, order := GetDependentServices(svc, bm, visited);
    if r.Services? {
      forall x | Reaches(Edges(bm), svc, x) ensures x in order {
        ClosedContainsReachable(Edges(bm), visited.marked, svc, x);
      }
      assert forall i :: 0 <= i < |order| ==> order[i] in order;
      var list := r.list;
      r := Services([svc] + list);
      forall x ensures x in r.list <==> Reaches(Edges(bm), svc, x) {
        MentionedIffReachable(bm, svc, order, list, x);
      }
    }
  }

  lemma {:induction false} InExpansion(bm: Manifest, order: seq<string>, x: string)
    requires Declared(bm, order)
    ensures x in Expansion(bm, order) <==> exists y :: y in order && x in bm[y]
  {
    if order != [] {
      InExpansion(bm, order[1..], x);
      assert order == [order[0]] + order[1..];
    }
  }

  /** Once the expanded services are exactly the reachable ones, so are the listed ones. */
  lemma MentionedIffReachable(bm: Manifest, svc: string, order: seq<string>, list: seq<string>, x: string)
    requires Declared(bm, order) && multiset(list) == Expansion(bm, order)
    requires forall y :: y in order <==> Reaches(Edges(bm), svc, y)
    ensures x in [svc] + list <==> Reaches(Edges(bm), svc, x)
  {
    InExpansion(bm, order, x);
    assert x in list <==> x in multiset(list);
    ReachesSelf(Edges(bm), svc);
    if x in list {
      var y :| y in order && x in bm[y];
      ReachesEdge(Edges(bm), svc, y, x);
    }
    if Reaches(Edges(bm), svc, x) && x != svc {
      var p :| PathFromTo(Edges(bm), p, svc, x);
      var k := |p| - 2;
      assert p[k + 1] in Edges(bm)[p[k]];
      assert PathFromTo(Edges(bm), p[..k + 1], svc, p[k]);
    }
  }
}
