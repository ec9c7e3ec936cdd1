/** The background loop that adds the global forwards of the manifest (cmd/up/forwards.go). What the forwarder
    answers is a parameter. */
module GlobalForwarding {
  import opened Options

  datatype GlobalForward = GlobalForward(local: int, remote: int, service: string, labels: bool, isAdded: bool)

  datatype Answer = Added | AlreadyAllocated | Refused

  /** One turn of the loop: the session is cancelled, or a tick with what the forwarder answers during it
      (the service found for the entry at an index, the answer to its `Add`, whether forwarding starts). */
  datatype Turn = Cancel | Turn(lookup: nat -> Option<string>, add: nat -> Answer, start: bool)

  /** One `Add` for the entry at `index`: what is asked for, and the answer. */
  datatype GlobalCall = GlobalCall(index: nat, local: int, remote: int, service: string, answer: Answer)

  datatype LoopEnd = AllAdded | Error | Cancelled | StillTrying

  /** The entry at index `i` makes a pass fail: its service is not found, or its `Add` fails for
      another reason than a port that is taken. */
  predicate Fails(gf: GlobalForward, i: nat, turn: Turn)
    requires turn.Turn?
  {
    !gf.isAdded && ((gf.labels && turn.lookup(i).None?) || turn.add(i).Refused?)
  }

  /** The entry at index `i` once a pass has tried it. */
  function Tried(gf: GlobalForward, i: nat, turn: Turn): GlobalForward
    requires turn.Turn?
  {
    if gf.isAdded || (gf.labels && turn.lookup(i).None?) then gf
    else gf.(service := if gf.labels then turn.lookup(i).value else gf.service, isAdded := turn.add(i).Added?)
  }

  /** The first failing index from `i` on, or the number of entries. */
  function Stop(entries: seq<GlobalForward>, turn: Turn, i: nat): (n: nat)
    requires turn.Turn? && i <= |entries|
    ensures i <= n <= |entries| && (forall k :: i <= k < n ==> !Fails(entries[k], k, turn))
    ensures n < |entries| ==> Fails(entries[n], n, turn)
    decreases |entries| - i
  {
    if i == |entries| || Fails(entries[i], i, turn) then i else Stop(entries, turn, i + 1)
  }

  /** The entries after a pass: tried up to the first failing one, untouched behind it. */
  function Pass(entries: seq<GlobalForward>, turn: Turn): (r: seq<GlobalForward>)
    requires turn.Turn?
    ensures |r| == |entries|
  {
    var n := Stop(entries, turn, 0);
    seq(|entries|, i requires 0 <= i < |entries| => if i <= n then Tried(entries[i], i, turn) else entries[i])
  }

  /** The entries after the first `n` turns. */
  function EntriesAfter(entries: seq<GlobalForward>, turns: seq<Turn>, n: nat): seq<GlobalForward>
    requires n <= |turns|
  {
    if n == 0 then entries
    else
      var before := EntriesAfter(entries, turns, n - 1);
      if turns[n - 1].Cancel? then before else Pass(before, turns[n - 1])
  }

  ghost predicate Pending(entries: seq<GlobalForward>) {
    exists i :: 0 <= i < |entries| && !entries[i].isAdded
  }

  /** Some pending entry has no service to be found, or an `Add` that fails for another reason than a taken port. */
  ghost predicate PassFails(entries: seq<GlobalForward>, turn: Turn)
    requires turn.Turn?
  {
    exists i :: 0 <= i < |entries| && !entries[i].isAdded
      && ((entries[i].labels && turn.lookup(i) == None) || turn.add(i) == Refused)
  }

  /** The pass fails, or forwarding does not start after it. */
  ghost predicate TurnFails(entries: seq<GlobalForward>, turn: Turn)
    requires turn.Turn?
  {
    PassFails(entries, turn) || !turn.start
  }

  /** Turn `k` is over and the loop goes on. */
  ghost predicate GoesOn(entries: seq<GlobalForward>, turns: seq<Turn>, k: nat)
    requires k < |turns|
  {
    var now := EntriesAfter(entries, turns, k);
    Pending(now) && turns[k].Turn? && !TurnFails(now, turns[k])
  }

  /** The loop gets through `n` turns and then has the entries `now`. */
  ghost predicate Reached(entries: seq<GlobalForward>, turns: seq<Turn>, n: nat, now: seq<GlobalForward>) {
    n <= |turns| && now == EntriesAfter(entries, turns, n) && forall k :: 0 <= k < n ==> GoesOn(entries, turns, k)
  }

  lemma ReachedNext(entries: seq<GlobalForward>, turns: seq<Turn>, n: nat, now: seq<GlobalForward>)
    requires Reached(entries, turns, n, now) && n < |turns| && turns[n].Turn? && Pending(now)
    ensures EntriesAfter(entries, turns, n + 1) == Pass(now, turns[n])
    ensures TurnFails(now, turns[n]) ==> EndsAs(entries, turns, n, Error)
    ensures !TurnFails(now, turns[n]) ==> Reached(entries, turns, n + 1, Pass(now, turns[n]))
  {
  }

  /** How the loop ends after `n` turns that went on. The four cases exclude each other. */
  ghost predicate EndsAs(entries: seq<GlobalForward>, turns: seq<Turn>, n: nat, o: LoopEnd) {
    && n <= |turns|
    && (forall k :: 0 <= k < n ==> GoesOn(entries, turns, k))
    && var now := EntriesAfter(entries, turns, n);
       match o
       case AllAdded => !Pending(now)
       case StillTrying => Pending(now) && n == |turns|
       case Cancelled => Pending(now) && n < |turns| && turns[n].Cancel?
       case Error => Pending(now) && n < |turns| && turns[n].Turn? && TurnFails(now, turns[n])
  }

  /** The turns decide the end of the loop. */
  lemma EndUnique(entries: seq<GlobalForward>, turns: seq<Turn>, n: nat, o: LoopEnd, m: nat, o': LoopEnd)
    requires EndsAs(entries, turns, n, o) && EndsAs(entries, turns, m, o')
    ensures n == m && o == o'
  {
    assert n < m ==> GoesOn(entries, turns, n);
    assert m < n ==> GoesOn(entries, turns, m);
  }

  ghost predicate AddedIn(log: seq<GlobalCall>, i: int) {
    exists k :: 0 <= k < |log| && log[k].index == i && log[k].answer.Added?
  }

  ghost predicate AskedIn(log: seq<GlobalCall>, i: int) {
    exists k :: 0 <= k < |log| && log[k].index == i
  }

  lemma AskedSnoc(log: seq<GlobalCall>, c: GlobalCall, i: int)
    ensures AskedIn(log + [c], i) <==> AskedIn(log, i) || c.index == i
  {
    var all := log + [c];
    if AskedIn(log, i) {
      var k :| 0 <= k < |log| && log[k].index == i;
      assert all[k].index == i;
    }
    assert all[|log|] == c;
  }

  /** Since `start`, an entry is marked exactly by a successful add, and never asked for once it is marked. */
  ghost predicate Tracks(start: seq<GlobalForward>, now: seq<GlobalForward>, log: seq<GlobalCall>) {
    && |start| == |now|
    && (forall i :: 0 <= i < |now| ==> now[i] == start[i].(service := now[i].service, isAdded := now[i].isAdded))
    && (forall i :: 0 <= i < |now| ==> (now[i].isAdded <==> start[i].isAdded || AddedIn(log, i)))
    && (forall k :: 0 <= k < |log| ==> log[k].index < |start| && !start[log[k].index].isAdded)
    // an entry is asked for with its own ports, and with its own service unless that is looked up
    && (forall i :: 0 <= i < |now| && !start[i].labels ==> now[i].service == start[i].service)
    && (forall k :: 0 <= k < |log| ==> log[k].local == start[log[k].index].local && log[k].remote == start[log[k].index].remote)
    && (forall k :: 0 <= k < |log| && !start[log[k].index].labels ==> log[k].service == start[log[k].index].service)
    && (forall k :: 0 <= k < |log| && log[k].answer.Added? ==> log[k].service == now[log[k].index].service)
    && (forall j, k :: 0 <= j < k < |log| && log[j].answer.Added? ==> log[j].index != log[k].index)
  }

  lemma TracksSnoc(start: seq<GlobalForward>, now: seq<GlobalForward>, log: seq<GlobalCall>, i: nat, answer: Answer, service: string)
    requires Tracks(start, now, log) && i < |now| && !now[i].isAdded && (!now[i].labels ==> service == now[i].service)
    ensures Tracks(start, now[i := now[i].(service := service, isAdded := answer.Added?)],
                   log + [GlobalCall(i, now[i].local, now[i].remote, service, answer)])
  {
    var c := GlobalCall(i, now[i].local, now[i].remote, service, answer);
    var all := log + [c];
    forall x ensures AddedIn(all, x) <==> AddedIn(log, x) || (x == i && answer.Added?) {
      if AddedIn(log, x) {
        var k :| 0 <= k < |log| && log[k].index == x && log[k].answer.Added?;
        assert all[k].index == x && all[k].answer.Added?;
      }
      assert all[|log|] == c;
    }
    assert !AddedIn(log, i);
  }

  /** The call has the answer of the turn, and its service if that is looked up. */
  ghost predicate AnsweredBy(before: seq<GlobalForward>, turn: Turn, c: GlobalCall)
    requires turn.Turn?
  {
    && c.index < |before| && c.answer == turn.add(c.index)
    && (before[c.index].labels ==> turn.lookup(c.index) == Some(c.service))
  }

  /** What a pass did before index `i`: it tried the entries in order, and called for those that were pending. */
  ghost predicate Halfway(before: seq<GlobalForward>, now: seq<GlobalForward>, turn: Turn, i: nat, calls: seq<GlobalCall>)
    requires turn.Turn?
  {
    && i <= |before| == |now|
    && (forall k :: 0 <= k < i ==> now[k] == Tried(before[k], k, turn) && !Fails(before[k], k, turn))
    && (forall k :: i <= k < |now| ==> now[k] == before[k])
    && (forall k :: 0 <= k < |calls| ==> AnsweredBy(before, turn, calls[k]))
    && (forall k :: 0 <= k < i ==> before[k].isAdded || AskedIn(calls, k))
  }

  lemma HalfwayNext(before: seq<GlobalForward>, now: seq<GlobalForward>, turn: Turn, i: nat, calls: seq<GlobalCall>, more: seq<GlobalCall>)
    requires turn.Turn? && i < |before| && Halfway(before, now, turn, i, calls) && !Fails(before[i], i, turn)
    requires |more| == 1 && more[0].index == i && AnsweredBy(before, turn, more[0])
    ensures Halfway(before, now[i := Tried(before[i], i, turn)], turn, i + 1, calls + more)
  {
    assert calls + more == calls + [more[0]];
    forall k ensures AskedIn(calls + more, k) <==> AskedIn(calls, k) || k == i {
      AskedSnoc(calls, more[0], k);
    }
  }

  lemma HalfwaySkips(before: seq<GlobalForward>, now: seq<GlobalForward>, turn: Turn, i: nat, calls: seq<GlobalCall>)
    requires turn.Turn? && i < |before| && Halfway(before, now, turn, i, calls) && now[i].isAdded
    ensures Halfway(before, now, turn, i + 1, calls)
  {
  }

  /** A complete pass in the terms of the answers. */
  lemma CompletePass(before: seq<GlobalForward>, turn: Turn, i: nat)
    requires turn.Turn? && i < |before| && !before[i].isAdded && !PassFails(before, turn)
    ensures Pass(before, turn)[i].isAdded <==> turn.add(i) == Added
    ensures before[i].labels ==> turn.lookup(i) == Some(Pass(before, turn)[i].service)
  {
  }

  lemma HalfwayStops(before: seq<GlobalForward>, now: seq<GlobalForward>, turn: Turn, i: nat, calls: seq<GlobalCall>)
    requires turn.Turn? && Halfway(before, now, turn, i, calls) && (i < |before| ==> Fails(before[i], i, turn))
    ensures i == |before| ==> now == Pass(before, turn)
    ensures i < |before| ==> now[i := Tried(before[i], i, turn)] == Pass(before, turn)
    ensures PassFails(before, turn) <==> i < |before|
  {
    assert Stop(before, turn, 0) == i;
  }

  class GlobalForwards {
    var entries: seq<GlobalForward>
    var log: seq<GlobalCall>

    constructor (entries: seq<GlobalForward>)
      ensures this.entries == entries && log == []
    {
      this.entries, log := entries, [];
    }

    method IsNeeded() returns (b: bool)
      ensures b <==> Pending(entries)
    {
      for i := 0 to |entries|
        invariant forall k :: 0 <= k < i ==> entries[k].isAdded
      {
        if !entries[i].isAdded {
          return true;
        }
      }
      b := false;
    }

    /** One pending entry: at most one call for it. */
    method TryEntry(turn: Turn, i: nat, ghost start: seq<GlobalForward>) returns (err: bool, ghost calls: seq<GlobalCall>)
      requires turn.Turn? && Tracks(start, entries, log) && i < |entries| && !entries[i].isAdded
      modifies this
      ensures Tracks(start, entries, log)
      ensures err <==> Fails(old(entries)[i], i, turn)
      ensures entries == old(entries)[i := Tried(old(entries)[i], i, turn)] && log == old(log) + calls
      ensures |calls| <= 1 && (calls == [] ==> err)
      ensures forall k :: 0 <= k < |calls| ==> calls[k].index == i && AnsweredBy(old(entries), turn, calls[k])
    {
      var gf := entries[i];
      var service := gf.service;
      if gf.labels {
        var found := turn.lookup(i);
        if found.None? {
          return true, [];
        }
        service := found.value;
      }
      var answer := turn.add(i);
      TracksSnoc(start, entries, log, i, answer, service);
      entries := entries[i := gf.(service := service, isAdded := answer.Added?)];
      calls := [GlobalCall(i, gf.local, gf.remote, service, answer)];
      log := log + [GlobalCall(i, gf.local, gf.remote, service, answer)];
      err := answer.Refused?;
    }

    /** One pass: a port that is taken stays pending, any other failure ends the pass at once. */
    method AddGlobalForwards(turn: Turn, ghost start: seq<GlobalForward>) returns (err: bool, ghost calls: seq<GlobalCall>)
      requires turn.Turn? && Tracks(start, entries, log)
      modifies this
      ensures Tracks(start, entries, log)
      ensures err <==> PassFails(old(entries), turn)
      ensures entries == Pass(old(entries), turn)
      ensures log == old(log) + calls && forall k :: 0 <= k < |calls| ==> AnsweredBy(old(entries), turn, calls[k])
      // every pending entry was asked for
      ensures !err ==> forall i :: 0 <= i < |entries| ==> old(entries)[i].isAdded || AskedIn(calls, i)
    {
      err, calls := false, [];
      ghost var before := entries;
      for i := 0 to |entries|
        invariant Tracks(start, entries, log) && log == old(log) + calls
        invariant Halfway(before, entries, turn, i, calls)
      {
        if entries[i].isAdded {
          HalfwaySkips(before, entries, turn, i, calls);
          continue;
        }
        ghost var untried, more := entries, [];
        err, more := TryEntry(turn, i, start);
        if err {
          HalfwayStops(before, untried, turn, i, calls);
          calls := calls + more;
          return;
        }
        HalfwayNext(before, untried, turn, i, calls, more);
        calls := calls + more;
      }
      HalfwayStops(before, entries, turn, |entries|, calls);
    }

    /** The background loop. It ends with an error exactly when it reaches a turn whose pass fails or after which
        forwarding does not start, and well exactly when nothing is pending. */
    method SetGlobalForwardsLoop(turns: seq<Turn>) returns (o: LoopEnd, ghost n: nat)
      requires log == []
      modifies this
      ensures Tracks(old(entries), entries, log)
      ensures EndsAs(old(entries), turns, n, o)
      ensures entries == EntriesAfter(old(entries), turns, if o.Error? then n + 1 else n)
    {
      ghost var start := entries;
      n := 0;
      for turn := 0 to |turns|
        invariant n == turn && Tracks(start, entries, log) && Reached(start, turns, n, entries)
      {
        var needed := IsNeeded();
        if !needed {
          return AllAdded, n;
        }
        if turns[turn].Cancel? {
          return Cancelled, n;
        }
        ReachedNext(start, turns, n, entries);
        var err, _ := AddGlobalForwards(turns[turn], start);
        if err || !turns[turn].start {
          return Error, n;
        }
        n := n + 1;
      }
      var needed := IsNeeded();
      o := if needed then StillTrying else AllAdded;
    }
  }
}
