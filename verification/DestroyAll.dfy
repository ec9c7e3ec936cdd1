/** Waiting for the destruction of everything in a namespace (cmd/destroy/all.go). Two sticky flags
    summarise what was seen; the contract speaks about the whole history of polls instead. */
module DestroyAll {
  import opened Options

  datatype Status = Active | Sleeping | DestroyingAll | DestroyAllFailed | OtherStatus

  /** `configMaps`: the label keys of every config map, or `None` when listing them fails. */
  datatype Poll =
    | Timeout
    | GetFails
    | NoLabel
    | Labelled(status: Status, elapsed: int, configMaps: Option<seq<set<string>>>)

  datatype Outcome = Done | TimedOut | GetFailed | DestroyFailed | ResourcesLeft | StillPolling

  /** Half a minute, in nanoseconds. */
  const WINDOW := 30_000_000_000
  const RESOURCE_LABELS := {"dev.okteto.com/git-deploy", "stack.okteto.com", "dev.okteto.com/app"}

  predicate IsResource(labels: set<string>) {
    labels * RESOURCE_LABELS != {}
  }

  /** The three labels that mark a resource, in full. */
  lemma IsResourceIff(labels: set<string>)
    ensures IsResource(labels) <==>
      "dev.okteto.com/git-deploy" in labels || "stack.okteto.com" in labels || "dev.okteto.com/app" in labels
  {
    if l :| l in labels * RESOURCE_LABELS {
      assert l in RESOURCE_LABELS;
    }
    forall l | l in labels && l in RESOURCE_LABELS ensures IsResource(labels) {
      assert l in labels * RESOURCE_LABELS;
    }
  }

  /** Every listed config map is free of resource labels. */
  ghost predicate Gone(configMaps: Option<seq<set<string>>>) {
    configMaps.Some? && forall k :: 0 <= k < |configMaps.value| ==> !IsResource(configMaps.value[k])
  }

  /** The labels of each config map come in the order a map iteration produces. */
  method CheckAllResourcesDestroyed(configMaps: Option<seq<set<string>>>) returns (ok: bool)
    ensures ok <==> Gone(configMaps)
    ensures ok <==> configMaps.Some? && forall m :: m in configMaps.value ==>
      "dev.okteto.com/git-deploy" !in m && "stack.okteto.com" !in m && "dev.okteto.com/app" !in m
  {
    if configMaps.None? {
      return false;
    }
    forall m ensures IsResource(m) <==>
      "dev.okteto.com/git-deploy" in m || "stack.okteto.com" in m || "dev.okteto.com/app" in m
    {
      IsResourceIff(m);
    }
    var items := configMaps.value;
    for i := 0 to |items|
      invariant forall k :: 0 <= k < i ==> !IsResource(items[k])
    {
      var labels := items[i];
      while labels != {}
        invariant labels <= items[i]
        invariant IsResource(items[i]) <==> IsResource(labels)
      {
        var l :| l in labels;
        if l in RESOURCE_LABELS {
          assert l in items[i] * RESOURCE_LABELS;
          return false;
        }
        assert (labels - {l}) * RESOURCE_LABELS == labels * RESOURCE_LABELS;
        labels := labels - {l};
      }
    }
    ok := true;
  }

  // ----- what the history says -----

  ghost predicate Idle(p: Poll) {
    p.Labelled? && (p.status.Active? || p.status.Sleeping?)
  }

  /** A poll before `n` saw the destruction under way. */
  ghost predicate SeenDestroying(polls: seq<Poll>, n: int)
    requires n <= |polls|
  {
    exists k :: 0 <= k < n && polls[k].Labelled? && polls[k].status.DestroyingAll?
  }

  /** Up to and including poll `n`, the namespace was seen idle inside the window before any sign of the destruction. */
  ghost predicate IdleTooEarly(polls: seq<Poll>, n: int)
    requires n < |polls|
  {
    exists k :: 0 <= k <= n && Idle(polls[k]) && polls[k].elapsed < WINDOW && !SeenDestroying(polls, k)
  }

  /** Poll `n` is taken as success. */
  ghost predicate Succeeds(polls: seq<Poll>, n: int)
    requires 0 <= n < |polls|
  {
    && Idle(polls[n])
    && (Gone(polls[n].configMaps)
        || (!SeenDestroying(polls, n) && forall k :: 0 <= k <= n && Idle(polls[k]) ==> polls[k].elapsed >= WINDOW))
  }

  /** Poll `n` is taken as failure because something is left behind. */
  ghost predicate LeavesResources(polls: seq<Poll>, n: int)
    requires 0 <= n < |polls|
  {
    Idle(polls[n]) && !Gone(polls[n].configMaps) && SeenDestroying(polls, n) && !IdleTooEarly(polls, n)
  }

  ghost predicate Fails(p: Poll) {
    p.Labelled? && p.status.DestroyAllFailed?
  }

  /** Poll `n` does not end the wait. */
  ghost predicate KeepsPolling(polls: seq<Poll>, n: int)
    requires 0 <= n < |polls|
  {
    !polls[n].Timeout? && !polls[n].GetFails? && !Fails(polls[n]) && !Succeeds(polls, n) && !LeavesResources(polls, n)
  }

  method WaitForDestroyAll(polls: seq<Poll>) returns (o: Outcome, n: nat)
    ensures n <= |polls| && (o.StillPolling? <==> n == |polls|)
    ensures forall k :: 0 <= k < n ==> KeepsPolling(polls, k)
    ensures o.Done? <==> n < |polls| && Succeeds(polls, n)
    ensures o.ResourcesLeft? <==> n < |polls| && LeavesResources(polls, n)
    ensures o.DestroyFailed? <==> n < |polls| && Fails(polls[n])
    ensures o.TimedOut? <==> n < |polls| && polls[n].Timeout?
    ensures o.GetFailed? <==> n < |polls| && polls[n].GetFails?
    // once the destruction was seen under way, success means that nothing is left
    ensures o.Done? && SeenDestroying(polls, n) ==> Gone(polls[n].configMaps)
    // with something left, success means that no poll was idle in the first thirty seconds
    ensures o.Done? && !Gone(polls[n].configMaps) ==> forall k :: 0 <= k <= n && polls[k].Labelled? ==>
      (polls[k].status.Active? || polls[k].status.Sleeping? ==> polls[k].elapsed >= 30 * 1_000_000_000)
    ensures o.Done? ==> polls[n].Labelled? && (polls[n].status.Active? || polls[n].status.Sleeping?)
  {
    var hasBeenDestroyingAll, jobNotFound := false, false;
    n := 0;
    while n < |polls|
      invariant 0 <= n <= |polls|
      invariant forall k :: 0 <= k < n ==> KeepsPolling(polls, k)
      invariant hasBeenDestroyingAll <==> SeenDestroying(polls, n)
      invariant jobNotFound <==> n > 0 && IdleTooEarly(polls, n - 1)
    {
      match polls[n] {
        case Timeout =>
          return TimedOut, n;
        case GetFails =>
          return GetFailed, n;
        case NoLabel =>
        case Labelled(status, elapsed, configMaps) =>
          if status.Active? || status.Sleeping? {
            if !hasBeenDestroyingAll && elapsed < WINDOW {
              jobNotFound := true;
            }
            assert jobNotFound <==> IdleTooEarly(polls, n);
            IdleInWindow(polls, n);
            var ok := CheckAllResourcesDestroyed(configMaps);
            if ok {
              return Done, n;
            }
            if !jobNotFound {
              return if hasBeenDestroyingAll then ResourcesLeft else Done, n;
            }
          } else if status.DestroyingAll? {
            hasBeenDestroyingAll := true;
          } else if status.DestroyAllFailed? {
            return DestroyFailed, n;
          }
      }
      assert SeenDestroying(polls, n + 1) <==>
        SeenDestroying(polls, n) || (polls[n].Labelled? && polls[n].status.DestroyingAll?);
      n := n + 1;
    }
    o := StillPolling;
  }

  /** Without any sign of the destruction, "too early" is just "idle inside the window". */
  lemma IdleInWindow(polls: seq<Poll>, n: int)
    requires 0 <= n < |polls|
    ensures !SeenDestroying(polls, n) ==>
      (IdleTooEarly(polls, n) <==> exists k :: 0 <= k <= n && Idle(polls[k]) && polls[k].elapsed < WINDOW)
  {
  }

  /** An early idle poll is never forgotten: from then on an idle namespace with resources left keeps
      the wait going, even after the destruction was seen. */
  lemma EarlyIdleNeverReports(polls: seq<Poll>, k: int, n: int)
    requires 0 <= k <= n < |polls| && Idle(polls[k]) && polls[k].elapsed < WINDOW && !SeenDestroying(polls, k)
    ensures !LeavesResources(polls, n)
    ensures Succeeds(polls, n) ==> Gone(polls[n].configMaps)
  {
  }
}
