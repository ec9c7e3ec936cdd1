/** Killing the local command of a hybrid session and everything it started (cmd/up/up.go).
    The recursion has no visited set: it relies on the process list being a forest below the root. */
module ProcessTree {
  import opened Options
  import opened Reachability

  datatype Process = Process(pid: int, ppid: int)

  /** The outcome of one kill; the walk goes on whatever it is. */
  datatype KillResult = Killed | AlreadyDone | KillFailed

  ghost predicate UniquePids(list: seq<Process>) {
    forall i, j :: 0 <= i < j < |list| ==> list[i].pid != list[j].pid
  }

  ghost function Parents(list: seq<Process>): set<int> {
    set k | 0 <= k < |list| :: list[k].ppid
  }

  /** From a parent to its children. */
  ghost function Tree(list: seq<Process>): map<int, set<int>> {
    map parent | parent in Parents(list) :: set k | 0 <= k < |list| && list[k].ppid == parent :: list[k].pid
  }

  ghost predicate IsChild(list: seq<Process>, parent: int, k: int) {
    0 <= k < |list| && list[k].ppid == parent
  }

  /** `x` is `a` itself or below it. */
  ghost predicate Below(list: seq<Process>, a: int, x: int) {
    Reaches(Tree(list), a, x)
  }

  /** `x` is a proper descendant of `a`. */
  ghost predicate Descends(list: seq<Process>, a: int, x: int) {
    exists k :: IsChild(list, a, k) && Below(list, list[k].pid, x)
  }

  ghost predicate OwnAncestor(list: seq<Process>, a: int) {
    Descends(list, a, a)
  }

  ghost function Descendants(list: seq<Process>, a: int): set<int> {
    set k | 0 <= k < |list| && Descends(list, a, list[k].pid) :: list[k].pid
  }

  lemma ChildEdge(list: seq<Process>, k: nat)
    requires k < |list|
    ensures list[k].ppid in Tree(list) && list[k].pid in Tree(list)[list[k].ppid]
  {
  }

  lemma EdgeChild(list: seq<Process>, a: int, b: int) returns (k: nat)
    requires a in Tree(list) && b in Tree(list)[a]
    ensures IsChild(list, a, k) && list[k].pid == b
  {
    k :| 0 <= k < |list| && list[k].ppid == a && list[k].pid == b;
  }

  lemma BelowChild(list: seq<Process>, a: int, k: nat)
    requires IsChild(list, a, k)
    ensures Below(list, a, list[k].pid) && Descends(list, a, list[k].pid)
  {
    ChildEdge(list, k);
    ReachesSelf(Tree(list), a);
    ReachesSelf(Tree(list), list[k].pid);
    ReachesEdge(Tree(list), a, a, list[k].pid);
  }

  /** Below means equal or a proper descendant. */
  lemma BelowSplits(list: seq<Process>, a: int, x: int)
    ensures Below(list, a, x) <==> x == a || Descends(list, a, x)
  {
    ReachesSelf(Tree(list), a);
    if Descends(list, a, x) {
      var k :| IsChild(list, a, k) && Below(list, list[k].pid, x);
      BelowChild(list, a, k);
      ReachesTransitive(Tree(list), a, list[k].pid, x);
    }
    if Below(list, a, x) && x != a {
      var p :| PathFromTo(Tree(list), p, a, x);
      assert p[0 + 1] in Tree(list)[p[0]];
      var k := EdgeChild(list, a, p[1]);
      assert PathFromTo(Tree(list), p[1..], p[1], x);
      assert Below(list, list[k].pid, x);
    }
  }

  /** With unique pids everybody has one parent, so two walks to the same process agree backwards. */
  lemma {:induction false} WalksAgree(list: seq<Process>, p: seq<int>, q: seq<int>, k: nat)
    requires UniquePids(list) && IsPath(Tree(list), p) && IsPath(Tree(list), q)
    requires p[|p| - 1] == q[|q| - 1] && k < |p| && k < |q|
    ensures p[|p| - 1 - k] == q[|q| - 1 - k]
  {
    if k > 0 {
      WalksAgree(list, p, q, k - 1);
      var i, j := |p| - 1 - k, |q| - 1 - k;
      assert p[i + 1] in Tree(list)[p[i]] && q[j + 1] in Tree(list)[q[j]];
      var a := EdgeChild(list, p[i], p[i + 1]);
      var b := EdgeChild(list, q[j], q[j + 1]);
    }
  }

  /** If the walk from sibling `d` is the longer one, it runs through the common parent. */
  lemma LongerWalkLoops(list: seq<Process>, a: int, c: nat, d: nat, p: seq<int>, q: seq<int>)
    requires UniquePids(list) && IsChild(list, a, c) && IsChild(list, a, d)
    requires IsPath(Tree(list), p) && p[0] == list[c].pid
    requires IsPath(Tree(list), q) && q[0] == list[d].pid
    requires p[|p| - 1] == q[|q| - 1] && |p| < |q|
    ensures OwnAncestor(list, a)
  {
    WalksAgree(list, p, q, |p| - 1);
    var i := |q| - |p| - 1;
    assert q[i + 1] in Tree(list)[q[i]];
    var k := EdgeChild(list, q[i], q[i + 1]);
    assert PathFromTo(Tree(list), q[..i + 1], list[d].pid, a);
    assert Below(list, list[d].pid, a);
  }

  /** Different children have disjoint families, unless the parent is its own ancestor. */
  lemma SiblingsDisjoint(list: seq<Process>, a: int, c: nat, d: nat, x: int)
    requires UniquePids(list) && !OwnAncestor(list, a)
    requires IsChild(list, a, c) && IsChild(list, a, d) && c != d
    requires Below(list, list[c].pid, x)
    ensures !Below(list, list[d].pid, x)
  {
    if Below(list, list[d].pid, x) {
      var p :| PathFromTo(Tree(list), p, list[c].pid, x);
      var q :| PathFromTo(Tree(list), q, list[d].pid, x);
      if |p| < |q| {
        LongerWalkLoops(list, a, c, d, p, q);
      } else if |q| < |p| {
        LongerWalkLoops(list, a, d, c, q, p);
      } else {
        WalksAgree(list, p, q, |p| - 1);
      }
    }
  }

  /** A child of somebody who is not its own ancestor is not its own ancestor either. */
  lemma ChildNotOwnAncestor(list: seq<Process>, a: int, c: nat)
    requires UniquePids(list) && !OwnAncestor(list, a) && IsChild(list, a, c)
    ensures !OwnAncestor(list, list[c].pid)
  {
    if OwnAncestor(list, list[c].pid) {
      var k :| IsChild(list, list[c].pid, k) && Below(list, list[k].pid, list[c].pid);
      var p :| PathFromTo(Tree(list), p, list[k].pid, list[c].pid);
      var up := [list[c].pid] + p;
      ChildEdge(list, k);
      var i := |up| - 2;
      assert IsPath(Tree(list), up) && up[i + 1] in Tree(list)[up[i]];
      var j := EdgeChild(list, up[i], up[i + 1]);
      assert PathFromTo(Tree(list), up[..i + 1], list[c].pid, a);
    }
  }

  lemma DescendantsShrink(list: seq<Process>, a: int, c: nat)
    requires UniquePids(list) && !OwnAncestor(list, a) && IsChild(list, a, c)
    ensures Descendants(list, list[c].pid) < Descendants(list, a)
  {
    var pid := list[c].pid;
    forall x | x in Descendants(list, pid) ensures x in Descendants(list, a) {
      BelowSplits(list, pid, x);
      assert Descends(list, a, x);
    }
    BelowChild(list, a, c);
    ChildNotOwnAncestor(list, a, c);
    assert pid in Descendants(list, a) && pid !in Descendants(list, pid);
  }

  /** Nobody is attempted before its own proper descendants. */
  ghost predicate PostOrder(list: seq<Process>, s: seq<int>) {
    forall i, x :: 0 <= i < |s| && Descends(list, s[i], x) ==> x in s[..i]
  }

  /** `s` attempts exactly the proper descendants of `a`, each once and after its own. */
  ghost predicate KillsBelow(list: seq<Process>, a: int, s: seq<int>) {
    NoRepeats(s) && PostOrder(list, s) && forall x :: x in s <==> Descends(list, a, x)
  }

  /** The same for the families of the children among the first `i` entries. */
  ghost predicate KillsPrefix(list: seq<Process>, a: int, s: seq<int>, i: nat) {
    && NoRepeats(s) && PostOrder(list, s)
    && forall x :: x in s <==> exists k :: k < i && IsChild(list, a, k) && Below(list, list[k].pid, x)
  }

  lemma PostOrderExtends(list: seq<Process>, s: seq<int>, t: seq<int>, c: int)
    requires PostOrder(list, s) && KillsBelow(list, c, t)
    ensures PostOrder(list, s + t + [c])
  {
    var all := s + t + [c];
    forall i, x | 0 <= i < |all| && Descends(list, all[i], x) ensures x in all[..i] {
      if i < |s| {
        assert all[..i] == s[..i];
      } else if i < |s| + |t| {
        assert all[..i] == s + t[..i - |s|];
        assert x in t[..i - |s|];
      } else {
        assert all[..i] == s + t;
        assert x in t;
      }
    }
  }

  lemma FamilyMembers(list: seq<Process>, t: seq<int>, c: int, x: int)
    requires KillsBelow(list, c, t)
    ensures x in t + [c] <==> Below(list, c, x)
  {
    BelowSplits(list, c, x);
  }

  /** One loop iteration: the family of child `i` is appended. */
  lemma PrefixNext(list: seq<Process>, a: int, s: seq<int>, i: nat, t: seq<int>)
    requires UniquePids(list) && !OwnAncestor(list, a) && IsChild(list, a, i)
    requires KillsPrefix(list, a, s, i) && KillsBelow(list, list[i].pid, t)
    ensures KillsPrefix(list, a, s + t + [list[i].pid], i + 1)
  {
    var c := list[i].pid;
    var family := t + [c];
    var all := s + t + [c];
    assert all == s + family;
    PostOrderExtends(list, s, t, c);
    ChildNotOwnAncestor(list, a, i);
    assert NoRepeats(family) by {
      assert forall k :: 0 <= k < |t| ==> t[k] in t;
    }
    forall x | x in s ensures x !in family {
      FamilyMembers(list, t, c, x);
      var k :| k < i && IsChild(list, a, k) && Below(list, list[k].pid, x);
      SiblingsDisjoint(list, a, k, i, x);
    }
    assert NoRepeats(all) by {
      assert forall k :: 0 <= k < |s| ==> s[k] in s;
      assert forall k :: 0 <= k < |family| ==> family[k] in family;
    }
    forall x ensures x in all <==> exists k :: k < i + 1 && IsChild(list, a, k) && Below(list, list[k].pid, x) {
      FamilyMembers(list, t, c, x);
    }
  }

  /** The processes a kill was attempted on, in order. */
  class Host {
    var attempts: seq<int>

    constructor ()
      ensures attempts == []
    {
      attempts := [];
    }

    method TerminateProcess(pid: int) returns (result: KillResult)
      modifies this
      ensures attempts == old(attempts) + [pid]
    {
      attempts := attempts + [pid];
      result := *;
    }

    /** `depth`: any call depth that the recursion may use; the number of descendants is enough. */
    method TerminateChildProcess(parent: int, list: seq<Process>, ghost depth: nat) returns (ghost added: seq<int>)
      requires UniquePids(list) && !OwnAncestor(list, parent) && |Descendants(list, parent)| <= depth
      modifies this
      ensures attempts == old(attempts) + added && KillsBelow(list, parent, added)
      ensures Attempts(parent, list, 0, depth) == Some(added)
      decreases Descendants(list, parent)
    {
      added := [];
      EnoughDepth(list, parent, 0, depth);
      assert [] + Attempts(parent, list, 0, depth).value == Attempts(parent, list, 0, depth).value;
      for i := 0 to |list|
        invariant attempts == old(attempts) + added && KillsPrefix(list, parent, added, i)
        invariant StillToAttempt(parent, list, i, depth, added)
      {
        if list[i].ppid != parent {
          continue;
        }
        var pid := list[i].pid;
        ChildNotOwnAncestor(list, parent, i);
        DescendantsShrink(list, parent, i);
        SmallerSet(Descendants(list, pid), Descendants(list, parent));
        ghost var below := TerminateChildProcess(pid, list, depth - 1);
        AttemptsNext(parent, list, i, depth, added, below);
        var _ := TerminateProcess(pid);
        PrefixNext(list, parent, added, i, below);
        added := added + below + [pid];
      }
      assert added + [] == added;
    }

    /** Nothing happens without a started command or without the process list; otherwise the whole
        family is attempted and the command itself comes last. */
    method ShutdownHybridMode(command: Option<int>, processes: Option<seq<Process>>) returns (ghost added: seq<int>)
      requires command.Some? && processes.Some? ==>
        UniquePids(processes.value) && !OwnAncestor(processes.value, command.value)
      modifies this
      ensures command.None? || processes.None? ==> attempts == old(attempts)
      ensures command.Some? && processes.Some? ==>
        attempts == old(attempts) + added + [command.value] && KillsBelow(processes.value, command.value, added)
      ensures command.Some? && processes.Some? ==> NoRepeats(added + [command.value])
    {
      added := [];
      if command.None? || processes.None? {
        return;
      }
      added := TerminateChildProcess(command.value, processes.value, |Descendants(processes.value, command.value)|);
      assert forall k :: 0 <= k < |added| ==> added[k] in added;
      var _ := TerminateProcess(command.value);
    }
  }

  /** The same recursion cut off at a call depth; `None` when the cut is hit. */
  function Attempts(parent: int, list: seq<Process>, i: nat, depth: nat): Option<seq<int>>
    requires i <= |list|
    decreases depth, |list| - i
  {
    if i == |list| then Some([])
    else if list[i].ppid != parent then Attempts(parent, list, i + 1, depth)
    else if depth == 0 then None
    else
      var below := Attempts(list[i].pid, list, 0, depth - 1);
      var rest := Attempts(parent, list, i + 1, depth);
      if below.None? || rest.None? then None else Some(below.value + [list[i].pid] + rest.value)
  }

  /** `done` is what the recursion attempts before entry `i`. */
  ghost predicate StillToAttempt(parent: int, list: seq<Process>, i: nat, depth: nat, done: seq<int>) {
    && i <= |list| && Attempts(parent, list, i, depth).Some?
    && Attempts(parent, list, 0, depth) == Some(done + Attempts(parent, list, i, depth).value)
  }

  lemma AttemptsNext(parent: int, list: seq<Process>, i: nat, depth: nat, done: seq<int>, below: seq<int>)
    requires StillToAttempt(parent, list, i, depth, done) && IsChild(list, parent, i) && depth > 0
    requires Attempts(list[i].pid, list, 0, depth - 1) == Some(below)
    ensures StillToAttempt(parent, list, i + 1, depth, done + below + [list[i].pid])
  {
    var rest := Attempts(parent, list, i + 1, depth).value;
    assert done + (below + [list[i].pid] + rest) == (done + below + [list[i].pid]) + rest;
  }

  lemma {:induction false} EnoughDepth(list: seq<Process>, a: int, i: nat, depth: nat)
    requires UniquePids(list) && !OwnAncestor(list, a) && i <= |list| && |Descendants(list, a)| <= depth
    ensures Attempts(a, list, i, depth).Some?
    decreases depth, |list| - i
  {
    if i < |list| {
      EnoughDepth(list, a, i + 1, depth);
      if list[i].ppid == a {
        ChildNotOwnAncestor(list, a, i);
        DescendantsShrink(list, a, i);
        SmallerSet(Descendants(list, list[i].pid), Descendants(list, a));
        EnoughDepth(list, list[i].pid, 0, depth - 1);
      }
    }
  }

  lemma SmallerSet(a: set<int>, b: set<int>)
    requires a < b
    ensures |a| < |b|
  {
    assert |b| == |a| + |b - a| by { assert b == a + (b - a); }
  }

  /** On a cycle every process has a child on the cycle, so no depth is enough. */
  lemma {:induction false} CycleNeverEnds(list: seq<Process>, a: int, k: nat, i: nat, depth: nat)
    requires IsChild(list, a, k) && Below(list, list[k].pid, a) && i <= k
    ensures Attempts(a, list, i, depth).None?
    decreases depth, |list| - i
  {
    if i < k {
      CycleNeverEnds(list, a, k, i + 1, depth);
    } else if depth > 0 {
      BelowChild(list, a, k);
      BelowSplits(list, list[k].pid, a);
      var c := list[k].pid;
      if a == c {
        CycleNeverEnds(list, c, k, 0, depth - 1);
      } else {
        var j :| IsChild(list, c, j) && Below(list, list[j].pid, a);
        ReachesTransitive(Tree(list), list[j].pid, a, c);
        CycleNeverEnds(list, c, j, 0, depth - 1);
      }
    }
  }

  /** The recursion ends exactly when the root is not its own ancestor. */
  lemma TerminatesIffNotOwnAncestor(list: seq<Process>, root: int)
    requires UniquePids(list)
    ensures (exists depth: nat :: Attempts(root, list, 0, depth).Some?) <==> !OwnAncestor(list, root)
  {
    if OwnAncestor(list, root) {
      var k :| IsChild(list, root, k) && Below(list, list[k].pid, root);
      forall depth: nat ensures Attempts(root, list, 0, depth).None? {
        CycleNeverEnds(list, root, k, 0, depth);
      }
    } else {
      EnoughDepth(list, root, 0, |Descendants(list, root)|);
    }
  }
}
