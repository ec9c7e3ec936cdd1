/** Claiming local ports for a session (cmd/up/forwards.go): a retry loop that remembers what it
    claimed. What the forwarder answers is a parameter. */
module Forwards {
  import opened Options

  /** `labels`: the service has to be looked up by labels first. */
  datatype Forward = Forward(local: int, remote: int, labels: bool, service: string)

  datatype Reverse = Reverse(local: int, remote: int)

  /** One `Add` or `AddReverse`: what is asked for, and the answer. */
  datatype Call = Call(local: int, remote: int, reverse: bool, labels: bool, service: string, ok: bool)

  datatype Outcome = Connected | Failed | TimedOut

  /** The port is never asked for again after this call. A forward found by labels is marked before it
      is tried, so even its failure is final. */
  predicate Final(c: Call) {
    c.ok || c.labels
  }

  ghost predicate Settled(log: seq<Call>, port: int) {
    exists k :: 0 <= k < |log| && log[k].local == port && Final(log[k])
  }

  ghost predicate Claimed(log: seq<Call>, port: int) {
    exists k :: 0 <= k < |log| && log[k].local == port && log[k].ok
  }

  /** A forward found by labels was refused. */
  ghost predicate LostByLabels(log: seq<Call>, port: int) {
    exists k :: 0 <= k < |log| && log[k].local == port && log[k].labels && !log[k].ok
  }

  /** No port gets two final calls; in particular none is claimed twice. */
  ghost predicate AtMostOnce(log: seq<Call>) {
    forall i, j :: 0 <= i < j < |log| && Final(log[i]) ==> log[i].local != log[j].local
  }

  /** The remembered ports are exactly the settled ones. */
  ghost predicate Remembers(log: seq<Call>, added: set<int>) {
    AtMostOnce(log) && forall p :: p in added <==> Settled(log, p)
  }

  /** Reverses come only after every forward is settled. */
  ghost predicate ForwardsFirst(log: seq<Call>, forwards: seq<Forward>) {
    forall i, f :: 0 <= i < |log| && log[i].reverse && 0 <= f < |forwards| ==> Settled(log[..i], forwards[f].local)
  }

  ghost predicate HasLabels(forwards: seq<Forward>, port: int) {
    exists f :: 0 <= f < |forwards| && forwards[f].labels && forwards[f].local == port
  }

  ghost predicate LabelsListed(log: seq<Call>, forwards: seq<Forward>) {
    forall k :: 0 <= k < |log| && log[k].labels ==> HasLabels(forwards, log[k].local)
  }

  /** The looked-up service name is all that changes in the list of forwards. */
  ghost predicate SamePorts(before: seq<Forward>, after: seq<Forward>) {
    && |before| == |after|
    && (forall i :: 0 <= i < |before| ==> after[i] == before[i].(service := after[i].service))
    && (forall i :: 0 <= i < |before| && !before[i].labels ==> after[i] == before[i])
  }

  lemma SettledSnoc(log: seq<Call>, c: Call, port: int)
    ensures Settled(log + [c], port) <==> Settled(log, port) || (c.local == port && Final(c))
  {
    var all := log + [c];
    if Settled(log, port) {
      var k :| 0 <= k < |log| && log[k].local == port && Final(log[k]);
      assert all[k].local == port && Final(all[k]);
    }
    assert all[|log|] == c;
  }

  lemma RemembersSnoc(log: seq<Call>, added: set<int>, c: Call)
    requires Remembers(log, added) && c.local !in added
    ensures Remembers(log + [c], if Final(c) then added + {c.local} else added)
  {
    forall p ensures Settled(log + [c], p) <==> Settled(log, p) || (c.local == p && Final(c)) {
      SettledSnoc(log, c, p);
    }
    forall i, j | 0 <= i < j < |log + [c]| && Final((log + [c])[i]) ensures (log + [c])[i].local != (log + [c])[j].local {
      if j == |log| {
        assert !Settled(log, c.local);
      }
    }
  }

  lemma ForwardsFirstSnoc(log: seq<Call>, forwards: seq<Forward>, c: Call)
    requires ForwardsFirst(log, forwards)
    requires c.reverse ==> forall f :: 0 <= f < |forwards| ==> Settled(log, forwards[f].local)
    ensures ForwardsFirst(log + [c], forwards)
  {
    var all := log + [c];
    forall i, f | 0 <= i < |all| && all[i].reverse && 0 <= f < |forwards| ensures Settled(all[..i], forwards[f].local) {
      if i < |log| {
        assert all[..i] == log[..i];
      } else {
        assert all[..i] == log;
      }
    }
  }

  /** On a log without repetitions, a settled port is claimed or was lost by labels, never both. */
  lemma SettledMeansClaimedOrLost(log: seq<Call>, port: int)
    requires AtMostOnce(log) && Settled(log, port)
    ensures Claimed(log, port) <==> !LostByLabels(log, port)
  {
  }

  // ----- the loop over values -----

  /** What the forwarder answers during one tick: the service found for the forward at an index, and
      whether it adds the forward or the reverse at an index. */
  datatype Tick = Tick(lookup: nat -> Option<string>, add: nat -> bool, addReverse: nat -> bool)

  /** `added`: the ports the loop remembers. `refusals`: failed lookups and refused calls so far. */
  datatype State = State(added: set<int>, log: seq<Call>, refusals: nat)

  const Start := State({}, [], 0)

  function Asked(s: State, c: Call): State {
    State(if Final(c) then s.added + {c.local} else s.added, s.log + [c], s.refusals + if c.ok then 0 else 1)
  }

  function ForwardStep(f: Forward, i: nat, tick: Tick, s: State): State {
    if f.local in s.added then s
    else if f.labels && tick.lookup(i).None? then s.(refusals := s.refusals + 1)
    else Asked(s, Call(f.local, f.remote, false, f.labels, if f.labels then tick.lookup(i).value else f.service, tick.add(i)))
  }

  /** The forwards before index `n`, in order. */
  function ForwardPass(forwards: seq<Forward>, tick: Tick, n: nat, s: State): State
    requires n <= |forwards|
  {
    if n == 0 then s else ForwardStep(forwards[n - 1], n - 1, tick, ForwardPass(forwards, tick, n - 1, s))
  }

  /** The forward at index `i` when a pass has tried it; `s` is what it finds there. */
  function Named(f: Forward, i: nat, tick: Tick, s: State): Forward {
    if f.local in s.added || !f.labels || tick.lookup(i).None? then f else f.(service := tick.lookup(i).value)
  }

  /** The list of forwards when a pass has tried those before index `n`. */
  function Renamed(forwards: seq<Forward>, tick: Tick, n: nat, s: State): (r: seq<Forward>)
    requires n <= |forwards|
    ensures |r| == |forwards|
  {
    if n == 0 then forwards
    else
      var before := Renamed(forwards, tick, n - 1, s);
      before[n - 1 := Named(forwards[n - 1], n - 1, tick, ForwardPass(forwards, tick, n - 1, s))]
  }

  function ReverseStep(r: Reverse, i: nat, tick: Tick, s: State): State {
    if r.local in s.added then s else Asked(s, Call(r.local, r.remote, true, false, "", tick.addReverse(i)))
  }

  function ReversePass(reverses: seq<Reverse>, tick: Tick, n: nat, s: State): State
    requires n <= |reverses|
  {
    if n == 0 then s else ReverseStep(reverses[n - 1], n - 1, tick, ReversePass(reverses, tick, n - 1, s))
  }

  /** One tick: the reverses are tried only if no forward was refused. */
  function TickStep(forwards: seq<Forward>, reverses: seq<Reverse>, tick: Tick, s: State): State {
    var s' := ForwardPass(forwards, tick, |forwards|, s);
    if s'.refusals > s.refusals then s' else ReversePass(reverses, tick, |reverses|, s')
  }

  function After(forwards: seq<Forward>, reverses: seq<Reverse>, ticks: seq<Tick>, n: nat): State
    requires n <= |ticks|
  {
    if n == 0 then Start else TickStep(forwards, reverses, ticks[n - 1], After(forwards, reverses, ticks, n - 1))
  }

  /** The list of forwards after the first `n` ticks. */
  function ForwardsAfter(forwards: seq<Forward>, reverses: seq<Reverse>, ticks: seq<Tick>, n: nat): (r: seq<Forward>)
    requires n <= |ticks|
    ensures |r| == |forwards|
  {
    if n == 0 then forwards
    else
      var before := ForwardsAfter(forwards, reverses, ticks, n - 1);
      Renamed(before, ticks[n - 1], |forwards|, After(forwards, reverses, ticks, n - 1))
  }

  /** Nothing is refused during tick `t`. */
  predicate Smooth(forwards: seq<Forward>, reverses: seq<Reverse>, ticks: seq<Tick>, t: nat)
    requires t < |ticks|
  {
    After(forwards, reverses, ticks, t + 1).refusals == After(forwards, reverses, ticks, t).refusals
  }

  // ----- what every tick keeps -----

  ghost predicate Inv(forwards: seq<Forward>, s: State) {
    Remembers(s.log, s.added) && ForwardsFirst(s.log, forwards) && LabelsListed(s.log, forwards)
  }

  lemma AskedKeeps(forwards: seq<Forward>, s: State, c: Call)
    requires Inv(forwards, s) && c.local !in s.added
    requires c.reverse ==> forall f :: 0 <= f < |forwards| ==> forwards[f].local in s.added
    requires c.labels ==> HasLabels(forwards, c.local)
    ensures Inv(forwards, Asked(s, c))
  {
    RemembersSnoc(s.log, s.added, c);
    ForwardsFirstSnoc(s.log, forwards, c);
  }

  lemma {:induction false} ForwardPassKeeps(forwards: seq<Forward>, tick: Tick, n: nat, s: State)
    requires n <= |forwards| && Inv(forwards, s)
    ensures var s' := ForwardPass(forwards, tick, n, s);
      && Inv(forwards, s') && s.added <= s'.added && s.refusals <= s'.refusals
      && (s'.refusals == s.refusals ==> forall f :: 0 <= f < n ==> forwards[f].local in s'.added)
  {
    if n > 0 {
      ForwardPassKeeps(forwards, tick, n - 1, s);
      var s', f := ForwardPass(forwards, tick, n - 1, s), forwards[n - 1];
      if f.local !in s'.added && !(f.labels && tick.lookup(n - 1).None?) {
        var service := if f.labels then tick.lookup(n - 1).value else f.service;
        AskedKeeps(forwards, s', Call(f.local, f.remote, false, f.labels, service, tick.add(n - 1)));
      }
    }
  }

  lemma {:induction false} ReversePassKeeps(forwards: seq<Forward>, reverses: seq<Reverse>, tick: Tick, n: nat, s: State)
    requires n <= |reverses| && Inv(forwards, s) && forall f :: 0 <= f < |forwards| ==> forwards[f].local in s.added
    ensures var s' := ReversePass(reverses, tick, n, s);
      && Inv(forwards, s') && s.added <= s'.added && s.refusals <= s'.refusals
      && (s'.refusals == s.refusals ==> forall r :: 0 <= r < n ==> reverses[r].local in s'.added)
  {
    if n > 0 {
      ReversePassKeeps(forwards, reverses, tick, n - 1, s);
      var s', r := ReversePass(reverses, tick, n - 1, s), reverses[n - 1];
      if r.local !in s'.added {
        AskedKeeps(forwards, s', Call(r.local, r.remote, true, false, "", tick.addReverse(n - 1)));
      }
    }
  }

  /** A tick keeps the invariant, and one without refusals settles every listed port. */
  lemma TickKeeps(forwards: seq<Forward>, reverses: seq<Reverse>, tick: Tick, s: State)
    requires Inv(forwards, s)
    ensures var s' := TickStep(forwards, reverses, tick, s);
      && Inv(forwards, s') && s.refusals <= s'.refusals
      && (s'.refusals == s.refusals ==> forall f :: 0 <= f < |forwards| ==> forwards[f].local in s'.added)
      && (s'.refusals == s.refusals ==> forall r :: 0 <= r < |reverses| ==> reverses[r].local in s'.added)
  {
    ForwardPassKeeps(forwards, tick, |forwards|, s);
    var s' := ForwardPass(forwards, tick, |forwards|, s);
    if s'.refusals == s.refusals {
      ReversePassKeeps(forwards, reverses, tick, |reverses|, s');
    }
  }

  lemma {:induction false} AfterKeeps(forwards: seq<Forward>, reverses: seq<Reverse>, ticks: seq<Tick>, n: nat)
    requires n <= |ticks|
    ensures Inv(forwards, After(forwards, reverses, ticks, n))
  {
    if n > 0 {
      AfterKeeps(forwards, reverses, ticks, n - 1);
      TickKeeps(forwards, reverses, ticks[n - 1], After(forwards, reverses, ticks, n - 1));
    }
  }

  ghost predicate Listed(forwards: seq<Forward>, reverses: seq<Reverse>, port: int) {
    || (exists f :: 0 <= f < |forwards| && forwards[f].local == port)
    || (exists r :: 0 <= r < |reverses| && reverses[r].local == port)
  }

  /** Every history of the loop: no port is claimed twice and reverses come last. After a smooth tick a listed
      port is claimed unless a labelled forward for it was refused, which takes a labelled forward. */
  lemma HistoryFacts(forwards: seq<Forward>, reverses: seq<Reverse>, ticks: seq<Tick>, n: nat, port: int)
    requires n <= |ticks|
    ensures var log := After(forwards, reverses, ticks, n).log;
      && AtMostOnce(log) && ForwardsFirst(log, forwards)
      && (n > 0 && Smooth(forwards, reverses, ticks, n - 1) && Listed(forwards, reverses, port) ==>
          (Claimed(log, port) <==> !LostByLabels(log, port)))
      && (LostByLabels(log, port) ==> HasLabels(forwards, port))
  {
    AfterKeeps(forwards, reverses, ticks, n);
    if n > 0 {
      AfterKeeps(forwards, reverses, ticks, n - 1);
      TickKeeps(forwards, reverses, ticks[n - 1], After(forwards, reverses, ticks, n - 1));
    }
    var s := After(forwards, reverses, ticks, n);
    if port in s.added {
      SettledMeansClaimedOrLost(s.log, port);
    }
  }

  // ----- the loop -----

  class Session {
    var forward: seq<Forward>
    const reverse: seq<Reverse>
    /** What the loop did so far: the ports it remembers, its calls, and what it was refused. */
    var state: State

    constructor (forward: seq<Forward>, reverse: seq<Reverse>)
      ensures this.forward == forward && this.reverse == reverse && state == Start
    {
      this.forward, this.reverse := forward, reverse;
      state := Start;
    }

    method Ask(c: Call)
      modifies this`state
      ensures state == Asked(old(state), c)
    {
      var added := state.added;
      if c.labels {
        added := added + {c.local};
      }
      if c.ok {
        added := added + {c.local};
      }
      state := State(added, state.log + [c], if c.ok then state.refusals else state.refusals + 1);
    }

    /** One pass over the forwards; a looked-up service replaces the name of its forward. */
    method TryForwards(tick: Tick) returns (err: bool)
      modifies this
      ensures forward == Renamed(old(forward), tick, |old(forward)|, old(state))
      ensures state == ForwardPass(old(forward), tick, |old(forward)|, old(state))
      ensures state.refusals >= old(state).refusals && (err <==> state.refusals > old(state).refusals)
    {
      err := false;
      for i := 0 to |forward|
        invariant forward == Renamed(old(forward), tick, i, old(state)) && forward[i..] == old(forward)[i..]
        invariant state == ForwardPass(old(forward), tick, i, old(state))
        invariant state.refusals >= old(state).refusals && (err <==> state.refusals > old(state).refusals)
      {
        var f := forward[i];
        assert f == forward[i..][0] && f == old(forward)[i];
        if f.local in state.added {
          continue;
        }
        if f.labels {
          var service := tick.lookup(i);
          if service.None? {
            err, state := true, state.(refusals := state.refusals + 1);
            continue;
          }
          f := f.(service := service.value);
          forward := forward[i := f];
        }
        var ok := tick.add(i);
        Ask(Call(f.local, f.remote, false, f.labels, f.service, ok));
        if !ok {
          err := true;
        }
      }
    }

    /** One pass over the reverses. */
    method TryReverses(tick: Tick) returns (err: bool)
      modifies this`state
      ensures state == ReversePass(reverse, tick, |reverse|, old(state))
      ensures state.refusals >= old(state).refusals && (err <==> state.refusals > old(state).refusals)
    {
      err := false;
      for i := 0 to |reverse|
        invariant state == ReversePass(reverse, tick, i, old(state))
        invariant state.refusals >= old(state).refusals && (err <==> state.refusals > old(state).refusals)
      {
        if reverse[i].local in state.added {
          continue;
        }
        var ok := tick.addReverse(i);
        Ask(Call(reverse[i].local, reverse[i].remote, true, false, "", ok));
        if !ok {
          err := true;
        }
      }
    }

    /** The ticks before the timeout. It connects at the first smooth tick and fails exactly if every tick was
        refused something. A port is claimed at most once over all ticks; after connecting, every listed
        port is claimed, except those for which a labelled forward was refused. */
    method AddToForwarder(ticks: seq<Tick>) returns (o: Outcome, ghost n: nat)
      requires state == Start
      modifies this
      ensures n <= |ticks| && forward == ForwardsAfter(old(forward), reverse, ticks, n)
      ensures n <= |ticks| && state == After(old(forward), reverse, ticks, n)
      ensures o.TimedOut? <==> ticks == []
      ensures o.Connected? <==> exists t :: 0 <= t < |ticks| && Smooth(old(forward), reverse, ticks, t)
      ensures o.Connected? ==> n > 0 && Smooth(old(forward), reverse, ticks, n - 1)
      ensures forall t :: 0 <= t < (if o.Connected? then n - 1 else |ticks|) ==> !Smooth(old(forward), reverse, ticks, t)
      ensures AtMostOnce(state.log) && ForwardsFirst(state.log, old(forward)) && Agrees(forward, reverse, state)
      ensures o.Connected? ==> forall p :: Listed(old(forward), reverse, p) ==>
        (Claimed(state.log, p) <==> !LostByLabels(state.log, p))
      ensures o.Connected? ==> forall p :: Listed(old(forward), reverse, p) && !HasLabels(old(forward), p) ==> Claimed(state.log, p)
    {
      var err := false;
      n := 0;
      ghost var before := forward;
      for tick := 0 to |ticks|
        invariant n == tick && forward == ForwardsAfter(before, reverse, ticks, n) && (err <==> tick > 0)
        invariant state == After(before, reverse, ticks, tick)
        invariant forall t :: 0 <= t < tick ==> !Smooth(before, reverse, ticks, t)
      {
        AfterSame(before, reverse, ticks, tick);
        SamePass(before, forward, ticks[tick], |forward|, state);
        n := n + 1;
        err := TryForwards(ticks[tick]);
        if err {
          continue;
        }
        err := TryReverses(ticks[tick]);
        if err {
          continue;
        }
        assert Smooth(before, reverse, ticks, n - 1);
        ConnectedFacts(before, reverse, ticks, n);
        AfterAgrees(before, reverse, ticks, n);
        return Connected, n;
      }
      HistoryFacts(before, reverse, ticks, n, 0);
      AfterAgrees(before, reverse, ticks, n);
      o := if err then Failed else TimedOut;
    }
  }

  lemma ConnectedFacts(forwards: seq<Forward>, reverses: seq<Reverse>, ticks: seq<Tick>, n: nat)
    requires 0 < n <= |ticks| && Smooth(forwards, reverses, ticks, n - 1)
    ensures var log := After(forwards, reverses, ticks, n).log;
      && AtMostOnce(log) && ForwardsFirst(log, forwards)
      && (forall p :: Listed(forwards, reverses, p) ==> (Claimed(log, p) <==> !LostByLabels(log, p)))
      && (forall p :: Listed(forwards, reverses, p) && !HasLabels(forwards, p) ==> Claimed(log, p))
  {
    var log := After(forwards, reverses, ticks, n).log;
    HistoryFacts(forwards, reverses, ticks, n, 0);
    forall p | Listed(forwards, reverses, p)
      ensures Claimed(log, p) <==> !LostByLabels(log, p)
      ensures LostByLabels(log, p) ==> HasLabels(forwards, p)
    {
      HistoryFacts(forwards, reverses, ticks, n, p);
    }
  }

  /** Passes change nothing in the list of forwards but looked-up names. */
  lemma {:induction false} RenamedSame(forwards: seq<Forward>, tick: Tick, n: nat, s: State)
    requires n <= |forwards|
    ensures SamePorts(forwards, Renamed(forwards, tick, n, s))
  {
    if n > 0 {
      RenamedSame(forwards, tick, n - 1, s);
    }
  }

  lemma {:induction false} AfterSame(forwards: seq<Forward>, reverses: seq<Reverse>, ticks: seq<Tick>, n: nat)
    requires n <= |ticks|
    ensures SamePorts(forwards, ForwardsAfter(forwards, reverses, ticks, n))
  {
    if n > 0 {
      AfterSame(forwards, reverses, ticks, n - 1);
      RenamedSame(ForwardsAfter(forwards, reverses, ticks, n - 1), ticks[n - 1], |forwards|, After(forwards, reverses, ticks, n - 1));
    }
  }

  /** A pass does not look at the service names that it looks up itself. */
  lemma {:induction false} SamePass(before: seq<Forward>, after: seq<Forward>, tick: Tick, n: nat, s: State)
    requires SamePorts(before, after) && n <= |before|
    ensures ForwardPass(after, tick, n, s) == ForwardPass(before, tick, n, s)
  {
    if n > 0 {
      SamePass(before, after, tick, n - 1, s);
    }
  }

  // ----- what the calls ask for -----

  /** The call is for what one of the entries says. */
  ghost predicate Says(forwards: seq<Forward>, reverses: seq<Reverse>, c: Call) {
    if c.reverse then Reverse(c.local, c.remote) in reverses
    else Forward(c.local, c.remote, c.labels, c.service) in forwards
  }

  /** For every call, the lists say what the forwarder was asked for: ports, and service. */
  ghost predicate Agrees(forwards: seq<Forward>, reverses: seq<Reverse>, s: State) {
    forall k :: 0 <= k < |s.log| ==> (s.log[k].labels ==> s.log[k].local in s.added) && Says(forwards, reverses, s.log[k])
  }

  /** One forward: a name is replaced only while its port is not remembered, so no earlier call is affected. */
  lemma StepAgrees(forwards: seq<Forward>, reverses: seq<Reverse>, i: nat, tick: Tick, s: State)
    requires i < |forwards| && Agrees(forwards, reverses, s)
    ensures Agrees(forwards[i := Named(forwards[i], i, tick, s)], reverses, ForwardStep(forwards[i], i, tick, s))
  {
    var now, s' := forwards[i := Named(forwards[i], i, tick, s)], ForwardStep(forwards[i], i, tick, s);
    forall k | 0 <= k < |s'.log|
      ensures (s'.log[k].labels ==> s'.log[k].local in s'.added) && Says(now, reverses, s'.log[k])
    {
      var c := s'.log[k];
      if k < |s.log| {
        assert s.log[k] == c && Says(forwards, reverses, c);
        if !c.reverse {
          var j :| 0 <= j < |forwards| && forwards[j] == Forward(c.local, c.remote, c.labels, c.service);
          assert now[j] == forwards[j];
        }
      } else {
        assert now[i] == Forward(c.local, c.remote, c.labels, c.service);
      }
    }
  }

  lemma {:induction false} ForwardsAgree(forwards: seq<Forward>, reverses: seq<Reverse>, tick: Tick, n: nat, s: State)
    requires n <= |forwards| && Agrees(forwards, reverses, s)
    ensures Agrees(Renamed(forwards, tick, n, s), reverses, ForwardPass(forwards, tick, n, s))
    ensures Renamed(forwards, tick, n, s)[n..] == forwards[n..]
  {
    if n > 0 {
      ForwardsAgree(forwards, reverses, tick, n - 1, s);
      var before := Renamed(forwards, tick, n - 1, s);
      assert before[n - 1] == before[n - 1..][0] && before[n - 1] == forwards[n - 1];
      assert before[n..] == before[n - 1..][1..] && forwards[n..] == forwards[n - 1..][1..];
      StepAgrees(before, reverses, n - 1, tick, ForwardPass(forwards, tick, n - 1, s));
    }
  }

  lemma {:induction false} ReversesAgree(forwards: seq<Forward>, reverses: seq<Reverse>, tick: Tick, n: nat, s: State)
    requires n <= |reverses| && Agrees(forwards, reverses, s)
    ensures Agrees(forwards, reverses, ReversePass(reverses, tick, n, s))
  {
    if n > 0 {
      ReversesAgree(forwards, reverses, tick, n - 1, s);
      assert reverses[n - 1] in reverses;
    }
  }

  /** After every number of ticks the lists agree with the calls. */
  lemma {:induction false} AfterAgrees(forwards: seq<Forward>, reverses: seq<Reverse>, ticks: seq<Tick>, n: nat)
    requires n <= |ticks|
    ensures Agrees(ForwardsAfter(forwards, reverses, ticks, n), reverses, After(forwards, reverses, ticks, n))
  {
    if n > 0 {
      AfterAgrees(forwards, reverses, ticks, n - 1);
      AfterSame(forwards, reverses, ticks, n - 1);
      var before, s := ForwardsAfter(forwards, reverses, ticks, n - 1), After(forwards, reverses, ticks, n - 1);
      SamePass(forwards, before, ticks[n - 1], |forwards|, s);
      ForwardsAgree(before, reverses, ticks[n - 1], |forwards|, s);
      var s' := ForwardPass(forwards, ticks[n - 1], |forwards|, s);
      ReversesAgree(ForwardsAfter(forwards, reverses, ticks, n), reverses, ticks[n - 1], |reverses|, s');
    }
  }

  /** The call is for an entry of the lists, with the service found for it if it has labels, and has the answer of the tick. */
  ghost predicate AnsweredBy(forwards: seq<Forward>, reverses: seq<Reverse>, tick: Tick, c: Call) {
    if c.reverse then
      exists r :: 0 <= r < |reverses| && reverses[r] == Reverse(c.local, c.remote) && tick.addReverse(r) == c.ok
    else
      exists f :: 0 <= f < |forwards| && forwards[f].(service := c.service) == Forward(c.local, c.remote, c.labels, c.service)
        && tick.add(f) == c.ok && (if c.labels then tick.lookup(f) == Some(c.service) else c.service == forwards[f].service)
  }

  /** `log` was extended by calls that the tick answered. */
  ghost predicate Extended(forwards: seq<Forward>, reverses: seq<Reverse>, tick: Tick, log: seq<Call>, log': seq<Call>) {
    log <= log' && forall k :: |log| <= k < |log'| ==> AnsweredBy(forwards, reverses, tick, log'[k])
  }

  lemma {:induction false} ForwardsAnswered(forwards: seq<Forward>, reverses: seq<Reverse>, tick: Tick, n: nat, s: State)
    requires n <= |forwards|
    ensures Extended(forwards, reverses, tick, s.log, ForwardPass(forwards, tick, n, s).log)
  {
    if n > 0 {
      ForwardsAnswered(forwards, reverses, tick, n - 1, s);
    }
  }

  lemma {:induction false} ReversesAnswered(forwards: seq<Forward>, reverses: seq<Reverse>, tick: Tick, n: nat, s: State)
    requires n <= |reverses|
    ensures Extended(forwards, reverses, tick, s.log, ReversePass(reverses, tick, n, s).log)
  {
    if n > 0 {
      ReversesAnswered(forwards, reverses, tick, n - 1, s);
    }
  }

  /** After every number of ticks, every call is for a listed entry and has the answer of one of the ticks. */
  lemma {:induction false} AllAnswered(forwards: seq<Forward>, reverses: seq<Reverse>, ticks: seq<Tick>, n: nat, k: nat)
    requires n <= |ticks| && k < |After(forwards, reverses, ticks, n).log|
    ensures exists t :: 0 <= t < n && AnsweredBy(forwards, reverses, ticks[t], After(forwards, reverses, ticks, n).log[k])
  {
    var s := After(forwards, reverses, ticks, n - 1);
    var s' := ForwardPass(forwards, ticks[n - 1], |forwards|, s);
    ForwardsAnswered(forwards, reverses, ticks[n - 1], |forwards|, s);
    ReversesAnswered(forwards, reverses, ticks[n - 1], |reverses|, s');
    if k < |s.log| {
      AllAnswered(forwards, reverses, ticks, n - 1, k);
    }
  }

  // ----- exactly when a port can be lost -----

  /** A forwarder that finds every service and grants everything except the forwards of one port. */
  function Against(forwards: seq<Forward>, port: int): Tick {
    Tick(i => Some("svc"), (i: nat) => i < |forwards| && forwards[i].local != port, i => true)
  }

  /** A forwarder that grants everything. */
  const Willing: Tick := Tick(i => Some("svc"), i => true, i => true)

  lemma {:induction false} AgainstPass(forwards: seq<Forward>, port: int, n: nat)
    requires n <= |forwards|
    ensures var s := ForwardPass(forwards, Against(forwards, port), n, Start);
      && (forall f :: 0 <= f < n && forwards[f].local != port ==> forwards[f].local in s.added)
      && (forall f :: 0 <= f < n && forwards[f].labels ==> forwards[f].local in s.added)
      && (forall k :: 0 <= k < |s.log| && s.log[k].local == port ==> !s.log[k].ok)
      && (port in s.added ==> s.refusals > 0)
      && (s.refusals == 0 ==> forall f :: 0 <= f < n ==> forwards[f].local != port)
  {
    if n > 0 {
      AgainstPass(forwards, port, n - 1);
    }
  }

  lemma {:induction false} WillingPass(forwards: seq<Forward>, n: nat, s: State)
    requires n <= |forwards| && forall f :: 0 <= f < |forwards| ==> forwards[f].local in s.added
    ensures ForwardPass(forwards, Willing, n, s) == s
  {
    if n > 0 {
      WillingPass(forwards, n - 1, s);
    }
  }

  lemma {:induction false} WillingReverses(reverses: seq<Reverse>, n: nat, s: State)
    requires n <= |reverses|
    ensures var s' := ReversePass(reverses, Willing, n, s);
      && s'.refusals == s.refusals && s.added <= s'.added
      && |s'.log| >= |s.log| && s'.log[..|s.log|] == s.log
      && forall k :: |s.log| <= k < |s'.log| ==> s'.log[k].local !in s.added
  {
    if n > 0 {
      WillingReverses(reverses, n - 1, s);
    }
  }

  /** Some forwarder makes the loop connect without the port. */
  ghost predicate CanBeLost(forwards: seq<Forward>, reverses: seq<Reverse>, port: int) {
    exists ticks: seq<Tick> :: |ticks| > 0
      && Smooth(forwards, reverses, ticks, |ticks| - 1)
      && (forall t :: 0 <= t < |ticks| - 1 ==> !Smooth(forwards, reverses, ticks, t))
      && !Claimed(After(forwards, reverses, ticks, |ticks|).log, port)
  }

  /** Two ticks are enough: the first refuses the port, whose labelled forward is marked all the same, and
      the second has nothing left to ask for among the forwards. */
  lemma LabelledPortCanBeLost(forwards: seq<Forward>, reverses: seq<Reverse>, port: int)
    requires HasLabels(forwards, port)
    ensures CanBeLost(forwards, reverses, port)
  {
    var ticks := [Against(forwards, port), Willing];
    var s := ForwardPass(forwards, ticks[0], |forwards|, Start);
    AgainstPass(forwards, port, |forwards|);
    var f :| 0 <= f < |forwards| && forwards[f].labels && forwards[f].local == port;
    assert After(forwards, reverses, ticks, 0) == Start;
    assert After(forwards, reverses, ticks, 1) == s;
    WillingPass(forwards, |forwards|, s);
    WillingReverses(reverses, |reverses|, s);
    var s' := After(forwards, reverses, ticks, 2);
    assert s' == ReversePass(reverses, Willing, |reverses|, s);
    forall k | 0 <= k < |s'.log| && s'.log[k].local == port ensures !s'.log[k].ok {
      assert k < |s.log| ==> s'.log[k] == s'.log[..|s.log|][k];
    }
    assert !Smooth(forwards, reverses, ticks, 0) && Smooth(forwards, reverses, ticks, 1);
  }

  /** A listed port can be lost exactly if one of its forwards is found by labels. */
  lemma LostIffLabelled(forwards: seq<Forward>, reverses: seq<Reverse>, port: int)
    requires Listed(forwards, reverses, port)
    ensures CanBeLost(forwards, reverses, port) <==> HasLabels(forwards, port)
  {
    if HasLabels(forwards, port) {
      LabelledPortCanBeLost(forwards, reverses, port);
    }
    if CanBeLost(forwards, reverses, port) {
      var ticks: seq<Tick> :| |ticks| > 0
        && Smooth(forwards, reverses, ticks, |ticks| - 1)
        && (forall t :: 0 <= t < |ticks| - 1 ==> !Smooth(forwards, reverses, ticks, t))
        && !Claimed(After(forwards, reverses, ticks, |ticks|).log, port);
      HistoryFacts(forwards, reverses, ticks, |ticks|, port);
    }
  }

  /** The smallest case: one labelled forward. */
  lemma RefusedLabelIsDropped()
    ensures CanBeLost([Forward(8080, 80, true, "")], [], 8080)
  {
    assert HasLabels([Forward(8080, 80, true, "")], 8080) by {
      assert [Forward(8080, 80, true, "")][0].labels;
    }
    LabelledPortCanBeLost([Forward(8080, 80, true, "")], [], 8080);
  }
}
