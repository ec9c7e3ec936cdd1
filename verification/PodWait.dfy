/** Waiting for the pod of the development container (cmd/up/activate.go): one loop over a ticker, the
    events of the pod and the updates of the pod, with a deadline that a scheduling failure starts and
    other events clear. */
module PodWait {
  import opened Options

  /** What matters in the text of an event. */
  datatype Message = Message(text: string, insufficient: bool, ignorable: bool, noSpace: bool, vethRace: bool)

  datatype Reason =
    | FailedScheduling
    | TriggeredScaleUp
    | Failure                 // Failed, FailedCreatePodSandBox, ErrImageNeverPull, ...
    | SuccessfulAttachVolume
    | Killing
    | Started
    | Pulling
    | OtherReason

  datatype Input =
    | Tick
    | PodEvent(uid: string, reason: Reason, message: Message)
    | BadEvent(rewatch: bool)
    | PodUpdate(uid: string, running: bool, deleted: bool)
    | BadUpdate(rewatch: bool)
    | Cancel

  /** One turn of the loop: the clock at its head, what the select picks, the clock while handling it. */
  datatype Turn = Turn(now: int, input: Input, handledAt: int)

  datatype Outcome =
    | PodRunning
    | Insufficient
    | Unscheduled(text: string)
    | NoSpace
    | PodFailed(text: string)
    | PodDeleted
    | WatchLost
    | Cancelled
    | StillWaiting

  datatype Setting = Setting(uid: string, statefulSet: bool, timeout: int)

  // ----- what the history says -----

  ghost predicate IsEvent(s: Setting, turns: seq<Turn>, k: int, r: Reason) {
    0 <= k < |turns| && turns[k].input.PodEvent? && turns[k].input.uid == s.uid && turns[k].input.reason == r
  }

  /** Before turn `n` the pod of a stateful set was reported as being killed; its events are ignored from then on. */
  ghost predicate Deaf(s: Setting, turns: seq<Turn>, n: int) {
    exists k :: k < n && IsEvent(s, turns, k, Killing)
  }

  ghost predicate Fails(s: Setting, turns: seq<Turn>, k: int) {
    IsEvent(s, turns, k, FailedScheduling) && !Deaf(s, turns, k)
  }

  ghost predicate Clears(s: Setting, turns: seq<Turn>, k: int) {
    && !Deaf(s, turns, k)
    && (IsEvent(s, turns, k, TriggeredScaleUp) || IsEvent(s, turns, k, SuccessfulAttachVolume)
        || IsEvent(s, turns, k, Started) || IsEvent(s, turns, k, Pulling))
  }

  /** The scheduling failure of turn `j` started the period that is still outstanding at turn `n`. */
  ghost predicate Outstanding(s: Setting, turns: seq<Turn>, j: int, n: int) {
    && j < n && Fails(s, turns, j)
    && (forall c :: j < c < n ==> !Clears(s, turns, c))
    && (forall i :: i < j && Fails(s, turns, i) ==> exists c :: i < c < j && Clears(s, turns, c))
  }

  ghost predicate NoneOutstanding(s: Setting, turns: seq<Turn>, n: int) {
    forall j :: !Outstanding(s, turns, j, n)
  }

  ghost predicate Expired(s: Setting, turns: seq<Turn>, n: int) {
    0 <= n < |turns| && exists j :: Outstanding(s, turns, j, n) && turns[n].now > turns[j].handledAt + s.timeout
  }

  /** How an input ends the wait, if it does. */
  function Ending(s: Setting, input: Input, deaf: bool): Option<Outcome> {
    match input
    case Tick => None
    case Cancel => Some(Cancelled)
    case BadEvent(rewatch) => if deaf || rewatch then None else Some(WatchLost)
    case BadUpdate(rewatch) => if rewatch then None else Some(WatchLost)
    case PodUpdate(uid, running, deleted) =>
      if uid != s.uid then None
      else if running then Some(PodRunning)
      else if deleted then Some(PodDeleted)
      else None
    case PodEvent(uid, reason, m) =>
      if deaf || uid != s.uid then None
      else match reason
        case Failure =>
          if m.ignorable then None
          else if m.noSpace then Some(NoSpace)
          else if m.vethRace then None
          else Some(PodFailed(m.text))
        case Killing => if s.statefulSet then None else Some(PodDeleted)
        case _ => None
  }

  /** An event of the pod that is listened to. */
  ghost predicate Heard(s: Setting, input: Input, deaf: bool, r: Reason) {
    !deaf && input.PodEvent? && input.uid == s.uid && input.reason == r
  }

  /** Which input leads to which end. A failure that may pass by itself, and the race over a veth name, lead to none. */
  lemma EndingIff(s: Setting, input: Input, deaf: bool)
    ensures Ending(s, input, deaf) == Some(Cancelled) <==> input.Cancel?
    ensures Ending(s, input, deaf) == Some(WatchLost) <==>
      (input.BadEvent? && !deaf && !input.rewatch) || (input.BadUpdate? && !input.rewatch)
    ensures Ending(s, input, deaf) == Some(PodRunning) <==> input.PodUpdate? && input.uid == s.uid && input.running
    ensures Ending(s, input, deaf) == Some(PodDeleted) <==>
      || (input.PodUpdate? && input.uid == s.uid && !input.running && input.deleted)
      || (Heard(s, input, deaf, Killing) && !s.statefulSet)
    ensures Ending(s, input, deaf) == Some(NoSpace) <==>
      Heard(s, input, deaf, Failure) && !input.message.ignorable && input.message.noSpace
    ensures forall text :: Ending(s, input, deaf) == Some(PodFailed(text)) <==>
      && Heard(s, input, deaf, Failure) && input.message.text == text
      && !input.message.ignorable && !input.message.noSpace && !input.message.vethRace
    ensures Ending(s, input, deaf).Some? ==>
      !Ending(s, input, deaf).value.Insufficient? && !Ending(s, input, deaf).value.Unscheduled? && !Ending(s, input, deaf).value.StillWaiting?
  {
  }

  lemma OutstandingUnique(s: Setting, turns: seq<Turn>, j: int, j': int, n: int)
    requires Outstanding(s, turns, j, n) && Outstanding(s, turns, j', n)
    ensures j == j'
  {
  }

  /** Scaling up, attaching the volume, pulling and starting drop whatever is outstanding, if they are listened to.
      Nothing else does. */
  lemma ProgressClears(s: Setting, turns: seq<Turn>, j: int, n: int, r: Reason)
    requires 0 <= n < |turns|
    ensures IsEvent(s, turns, n, r) && !Deaf(s, turns, n) && r in {TriggeredScaleUp, SuccessfulAttachVolume, Pulling, Started} ==>
      NoneOutstanding(s, turns, n + 1)
    ensures IsEvent(s, turns, n, r) && r in {FailedScheduling, Failure, Killing, OtherReason} && Outstanding(s, turns, j, n) ==>
      Outstanding(s, turns, j, n + 1)
    ensures (!turns[n].input.PodEvent? || turns[n].input.uid != s.uid || Deaf(s, turns, n)) && Outstanding(s, turns, j, n) ==>
      Outstanding(s, turns, j, n + 1)
  {
    if IsEvent(s, turns, n, r) && !Deaf(s, turns, n) && r in {TriggeredScaleUp, SuccessfulAttachVolume, Pulling, Started} {
      assert Clears(s, turns, n);
      var next := n + 1;
      forall i ensures !Outstanding(s, turns, i, next) {
        assert i < n || !Fails(s, turns, i) || i > n;
      }
    }
  }

  /** How the outstanding failure changes over one turn: a clearing event ends it, a failure starts one
      only if none is outstanding, and nothing else changes it. */
  lemma OutstandingNext(s: Setting, turns: seq<Turn>, start: Option<int>, n: int) returns (next: Option<int>)
    requires 0 <= n < |turns|
    requires start.Some? ==> Outstanding(s, turns, start.value, n)
    requires start.None? ==> NoneOutstanding(s, turns, n)
    ensures next == if Clears(s, turns, n) then None
                    else if Fails(s, turns, n) && start.None? then Some(n) else start
    ensures next.Some? ==> Outstanding(s, turns, next.value, n + 1)
    ensures next.None? ==> NoneOutstanding(s, turns, n + 1)
  {
    next := if Clears(s, turns, n) then None else if Fails(s, turns, n) && start.None? then Some(n) else start;
    if next == Some(n) {
      forall i | i < n && Fails(s, turns, i) ensures exists c :: i < c < n && Clears(s, turns, c) {
        UnclearedFailure(s, turns, i, n);
      }
    }
    if next.None? {
      var n' := n + 1;
      forall j ensures !Outstanding(s, turns, j, n') {
        assert !(j < n && Outstanding(s, turns, j, n')) || Outstanding(s, turns, j, n);
      }
    }
  }

  /** A failure with no clearing event after it belongs to an outstanding period. */
  lemma {:induction false} UnclearedFailure(s: Setting, turns: seq<Turn>, i: int, n: int)
    requires 0 <= i < n && Fails(s, turns, i)
    ensures (exists c :: i < c < n && Clears(s, turns, c)) || exists j :: Outstanding(s, turns, j, n)
    decreases i
  {
    if !exists c :: i < c < n && Clears(s, turns, c) {
      if k :| k < i && Fails(s, turns, k) && !exists c :: k < c < i && Clears(s, turns, c) {
        UnclearedFailure(s, turns, k, n);
        assert !Clears(s, turns, i);
      } else {
        assert Outstanding(s, turns, i, n);
      }
    }
  }

  /** Returns at the first turn whose head finds the outstanding failure expired or whose input ends the
      wait. A repeated failure never moves the deadline; only a clearing event drops it. */
  method WaitUntilRunning(s: Setting, turns: seq<Turn>) returns (o: Outcome, n: nat)
    ensures n <= |turns| && (o.StillWaiting? <==> n == |turns|)
    ensures forall k :: 0 <= k < n ==> !Expired(s, turns, k) && Ending(s, turns[k].input, Deaf(s, turns, k)) == None
    ensures n < |turns| ==> (o.Insufficient? || o.Unscheduled? <==> Expired(s, turns, n))
    ensures forall j :: n < |turns| && Expired(s, turns, n) && Outstanding(s, turns, j, n) ==>
      turns[n].now > turns[j].handledAt + s.timeout &&
      o == if turns[j].input.message.insufficient then Insufficient else Unscheduled(turns[j].input.message.text)
    ensures n < |turns| && !Expired(s, turns, n) ==> Ending(s, turns[n].input, Deaf(s, turns, n)) == Some(o)
    // each of the other outcomes in the terms of the input that ends the wait
    ensures o.Cancelled? <==> n < |turns| && !Expired(s, turns, n) && turns[n].input.Cancel?
    ensures o.WatchLost? <==> n < |turns| && !Expired(s, turns, n) && var input := turns[n].input;
      (input.BadEvent? && !Deaf(s, turns, n) && !input.rewatch) || (input.BadUpdate? && !input.rewatch)
    ensures o.PodRunning? <==> n < |turns| && !Expired(s, turns, n) && var input := turns[n].input;
      input.PodUpdate? && input.uid == s.uid && input.running
    ensures o.PodDeleted? <==> n < |turns| && !Expired(s, turns, n) && var input := turns[n].input;
      (input.PodUpdate? && input.uid == s.uid && !input.running && input.deleted)
      || (IsEvent(s, turns, n, Killing) && !Deaf(s, turns, n) && !s.statefulSet)
    ensures o.NoSpace? <==>
      && n < |turns| && !Expired(s, turns, n) && IsEvent(s, turns, n, Failure) && !Deaf(s, turns, n)
      && !turns[n].input.message.ignorable && turns[n].input.message.noSpace
    ensures forall text :: o == PodFailed(text) <==>
      && n < |turns| && !Expired(s, turns, n) && IsEvent(s, turns, n, Failure) && !Deaf(s, turns, n) && turns[n].input.message.text == text
      && !turns[n].input.message.ignorable && !turns[n].input.message.noSpace && !turns[n].input.message.vethRace
  {
    var killing := false;
    var to := 0;
    var failed: Option<Message> := None;
    ghost var start: Option<int> := None;
    n := 0;
    while n < |turns|
      invariant 0 <= n <= |turns|
      invariant forall k :: 0 <= k < n ==> !Expired(s, turns, k) && Ending(s, turns[k].input, Deaf(s, turns, k)) == None
      invariant killing == Deaf(s, turns, n)
      invariant start.Some? ==> Outstanding(s, turns, start.value, n)
      invariant start.None? ==> NoneOutstanding(s, turns, n)
      invariant failed.Some? <==> start.Some?
      invariant start.Some? ==> failed.value == turns[start.value].input.message
      invariant start.Some? ==> to == turns[start.value].handledAt + s.timeout
    {
      var turn := turns[n];
      forall j, j' | Outstanding(s, turns, j, n) && Outstanding(s, turns, j', n) ensures j == j' {
        OutstandingUnique(s, turns, j, j', n);
      }
      if failed.Some? && turn.now > to {
        o := if failed.value.insufficient then Insufficient else Unscheduled(failed.value.text);
        return;
      }
      assert !Expired(s, turns, n);
      var ended, failed', to', killing' := Handle(s, turn, failed, to, killing);
      if ended.Some? {
        EndingIff(s, turn.input, killing);
        return ended.value, n;
      }
      start := OutstandingNext(s, turns, start, n);
      assert Deaf(s, turns, n + 1) <==> Deaf(s, turns, n) || IsEvent(s, turns, n, Killing);
      failed, to, killing := failed', to', killing';
      n := n + 1;
    }
    o := StillWaiting;
  }

  /** The body of the select. */
  method Handle(s: Setting, turn: Turn, failed: Option<Message>, to: int, killing: bool)
    returns (ended: Option<Outcome>, failed': Option<Message>, to': int, killing': bool)
    ensures ended == Ending(s, turn.input, killing)
    ensures ended.None? ==> (killing' <==> killing || (turn.input.PodEvent? && turn.input.uid == s.uid && turn.input.reason.Killing?))
    ensures var mine := turn.input.PodEvent? && turn.input.uid == s.uid && !killing;
      if mine && turn.input.reason in {TriggeredScaleUp, SuccessfulAttachVolume, Started, Pulling} then failed'.None?
      else if mine && turn.input.reason.FailedScheduling? && failed.None?
        then failed' == Some(turn.input.message) && to' == turn.handledAt + s.timeout
      else failed' == failed && to' == to
  {
    ended, failed', to', killing' := None, failed, to, killing;
    match turn.input
    case Tick =>
    case Cancel =>
      ended := Some(Cancelled);
    case BadEvent(rewatch) =>
      if !killing && !rewatch {
        ended := Some(WatchLost);
      }
    case BadUpdate(rewatch) =>
      if !rewatch {
        ended := Some(WatchLost);
      }
    case PodUpdate(uid, running, deleted) =>
      if uid == s.uid {
        if running {
          ended := Some(PodRunning);
        } else if deleted {
          ended := Some(PodDeleted);
        }
      }
    case PodEvent(uid, reason, m) =>
      if !killing && uid == s.uid {
        match reason
        case FailedScheduling =>
          if failed.None? {
            failed', to' := Some(m), turn.handledAt + s.timeout;
          }
        case TriggeredScaleUp =>
          failed' := None;
        case Failure =>
          if !m.ignorable {
            if m.noSpace {
              ended := Some(NoSpace);
            } else if !m.vethRace {
              ended := Some(PodFailed(m.text));
            }
          }
        case SuccessfulAttachVolume =>
          failed' := None;
        case Killing =>
          if s.statefulSet {
            killing' := true;
          } else {
            ended := Some(PodDeleted);
          }
        case Started =>
          failed' := None;
        case Pulling =>
          failed' := None;
        case OtherReason =>
      }
  }
}
