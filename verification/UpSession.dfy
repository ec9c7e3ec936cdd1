/** The retry loop of `okteto up` (cmd/up/up.go, cmd/up/activate.go): activations, the one-token
    shutdown handshake between an activation and the loop, and the single exit value.
    No interrupt is received. */
module UpSession {
  import opened Options

  datatype Sentinel = NoSentinel | LostSyncthing | CommandFailed | ApplyToApp | SSHConnect

  /** An error: which sentinel it is, whether it is a user error, and what its text contains. */
  datatype Err = Err(id: Sentinel, user: bool, transientText: bool, noResponseText: bool)

  /** Wrapping keeps the text and loses the identity. */
  function Wrap(e: Err): Err {
    Err(NoSentinel, false, e.transientText, e.noResponseText)
  }

  /** The classification depends on the session: a silent syncthing is worth a retry only once the
      session has worked. */
  predicate IsTransient(e: Err, success: bool) {
    e.transientText || (success && e.noResponseText)
  }

  /** What the outside answers during one activation. */
  datatype Answers = Answers(
    stateFile: Option<Err>,   // writing the state file
    setup: Option<Err>,       // client, app and autocreate checks
    devModeOn: bool,          // the app is still in dev mode
    prepare: Option<Err>,     // restore, mounts, dev container, awaken
    devMode: Option<Err>,     // creating the dev container and waiting for it
    forwards: Option<Err>,
    startCheck: Err,          // diagnosis of a failed SSH start
    destroyPod: Option<Err>,
    sync: Option<Err>,
    ping: bool,               // syncthing answers
    services: Option<Err>,
    ended: Option<Err>,       // how the session ended
    persistent: bool)

  /** One turn of the loop: the pid read after a shutdown, the activation, and the token update. */
  datatype Round = Round(pidRead: Option<string>, a: Answers, token: Option<Err>)

  predicate ShouldRetry(e: Option<Err>, ping: bool) {
    match e
    case None => false
    case Some(err) => err.id == LostSyncthing || err.id == ApplyToApp || (err.id == CommandFailed && !ping)
  }

  /** The activation got as far as setting `isRetry`. */
  predicate PassedDevMode(a: Answers) {
    a.stateFile.None? && a.setup.None? && a.prepare.None? && a.devMode.None?
  }

  /** The activation got as far as setting `success`. */
  predicate Succeeded(a: Answers) {
    PassedDevMode(a) && a.forwards.None? && a.sync.None? && a.services.None?
  }

  /** What a failed activation reports: the first phase that failed. `success` is the flag as it was when
      the activation began. Only a failure of the synchronization or the end of the session is turned into
      a lost connection. */
  ghost function Failure(a: Answers, success: bool): Err
    requires !(a.setup.None? && Succeeded(a) && a.ended.None?) && a.stateFile.None?
  {
    if a.setup.Some? then a.setup.value
    else if a.prepare.Some? then a.prepare.value
    else if a.devMode.Some? then
      (if IsTransient(a.devMode.value, success) || a.devMode.value.user then a.devMode.value else Wrap(a.devMode.value))
    else if a.forwards.Some? then
      (if a.forwards.value.id != SSHConnect then Wrap(a.forwards.value)
       else if a.startCheck.id == LostSyncthing && a.destroyPod.Some? then Wrap(a.destroyPod.value)
       else a.startCheck)
    else if a.sync.Some? then (if ShouldRetry(a.sync, a.ping) then Lost else a.sync.value)
    else if a.services.Some? then a.services.value
    else if !ShouldRetry(a.ended, a.ping) then a.ended.value
    else if a.destroyPod.Some? && !a.persistent then a.destroyPod.value
    else Lost
  }

  /** The activation ends without an error: deactivated from outside, or ended by itself. */
  predicate EndsWell(a: Answers, isRetry: bool) {
    a.setup.None? && ((isRetry && !a.devModeOn) || (Succeeded(a) && a.ended.None?))
  }

  /** Wrapping never hides a text that asks for a retry. */
  lemma WrappingKeepsTransience(a: Answers, success: bool, now: bool)
    requires a.stateFile.None? && a.setup.None? && a.prepare.None?
    ensures a.devMode.Some? ==> (IsTransient(Failure(a, success), now) <==> IsTransient(a.devMode.value, now))
    ensures a.devMode.None? && a.forwards.Some? && a.forwards.value.id != SSHConnect ==>
      (IsTransient(Failure(a, success), now) <==> IsTransient(a.forwards.value, now))
    ensures a.devMode.None? && a.forwards.Some? && a.forwards.value.id == SSHConnect && a.startCheck.id == LostSyncthing && a.destroyPod.Some? ==>
      (IsTransient(Failure(a, success), now) <==> IsTransient(a.destroyPod.value, now))
  {
  }

  const Lost := Err(LostSyncthing, false, false, false)
  const AnotherUp := Err(NoSentinel, true, false, false)

  // ----- what the inputs alone say about the session -----

  ghost predicate RetryAfter(rounds: seq<Round>, n: int) {
    exists j :: 0 <= j < n && j < |rounds| && PassedDevMode(rounds[j].a)
  }

  ghost predicate SuccessAfter(rounds: seq<Round>, n: int) {
    exists j :: 0 <= j < n && j < |rounds| && Succeeded(rounds[j].a)
  }

  /** What the activation of round `k` returns, if the loop gets there. */
  ghost function Returned(rounds: seq<Round>, k: int): Option<Err>
    requires 0 <= k < |rounds|
  {
    var a := rounds[k].a;
    if a.stateFile.Some? then a.stateFile
    else if EndsWell(a, RetryAfter(rounds, k)) then None
    else Some(Failure(a, SuccessAfter(rounds, k)))
  }

  /** The failure of round `k` counts as transient for the loop. */
  ghost predicate TransientFailure(rounds: seq<Round>, k: int)
    requires 0 <= k < |rounds|
  {
    var e := Returned(rounds, k);
    e.Some? && (rounds[k].token.Some? || (e.value.id != LostSyncthing && IsTransient(e.value, SuccessAfter(rounds, k + 1))))
  }

  /** The loop goes on after round `k`. */
  ghost predicate GoesOn(rounds: seq<Round>, k: int)
    requires 0 <= k < |rounds|
  {
    Returned(rounds, k).Some? && (Returned(rounds, k).value.id == LostSyncthing || TransientFailure(rounds, k))
  }

  /** Before going on after round `k`, the loop waits for its shutdown. */
  ghost predicate Waits(rounds: seq<Round>, k: int)
    requires 0 <= k < |rounds|
  {
    GoesOn(rounds, k) && (RetryAfter(rounds, k + 1) || TransientFailure(rounds, k))
  }

  /** Before round `n` some channel holds a token that no wait has taken. */
  ghost predicate Unread(rounds: seq<Round>, n: int)
    requires n <= |rounds|
  {
    exists j :: 0 <= j < n && rounds[j].a.stateFile.None? && forall i :: j <= i < n - 1 ==> !Waits(rounds, i)
  }

  /** At the head of round `n` the loop waits for a token that nobody will send: the round before failed on
      its state file, so it made no channel, and no earlier token is left. */
  ghost predicate BlocksAt(rounds: seq<Round>, n: int) {
    && 0 < n < |rounds|
    && rounds[n - 1].a.stateFile.Some? && Waits(rounds, n - 1) && !Unread(rounds, n)
  }

  /** The head of round `n` finds another pid in the file. */
  ghost predicate Replaced(rounds: seq<Round>, pid: string, n: int)
    requires 0 <= n < |rounds|
  {
    n > 0 && Waits(rounds, n - 1) && rounds[n].pidRead != Some(pid)
  }

  /** The loop completes round `k` and goes on. */
  ghost predicate Passes(rounds: seq<Round>, pid: string, k: int)
    requires 0 <= k < |rounds|
  {
    !BlocksAt(rounds, k) && !Replaced(rounds, pid, k) && GoesOn(rounds, k)
  }

  /** The loop gets to the head of round `n`. */
  ghost predicate GetsTo(rounds: seq<Round>, pid: string, n: int) {
    0 <= n <= |rounds| && forall k :: 0 <= k < n ==> Passes(rounds, pid, k)
  }

  /** The answers make the loop block forever. */
  ghost predicate Deadlocks(rounds: seq<Round>, pid: string) {
    exists n :: GetsTo(rounds, pid, n) && BlocksAt(rounds, n)
  }

  // ----- the same in the terms of the answers -----

  /** Which error of a session that runs becomes a lost connection: a lost synchronization, a change of the app, or
      a failed command when the synchronization does not answer either. Any other one is reported as it is. */
  lemma WhatIsLost(a: Answers, success: bool, e: Err)
    requires a.stateFile.None? && a.setup.None? && a.prepare.None? && a.devMode.None? && a.forwards.None?
    requires a.sync == Some(e) || (a.sync.None? && a.services.None? && a.ended == Some(e))
    ensures a.sync.Some? || a.persistent || a.destroyPod.None? ==>
      (e.id == LostSyncthing || e.id == ApplyToApp ==> Failure(a, success) == Err(LostSyncthing, false, false, false))
    ensures a.sync.Some? || a.persistent || a.destroyPod.None? ==>
      (e.id == CommandFailed && !a.ping ==> Failure(a, success) == Err(LostSyncthing, false, false, false))
    // the pod of a lost session that is not persistent is destroyed, and that may fail
    ensures a.sync.None? && !a.persistent && a.destroyPod.Some? ==>
      (e.id == LostSyncthing || e.id == ApplyToApp || (e.id == CommandFailed && !a.ping) ==> Failure(a, success) == a.destroyPod.value)
    ensures e.id == CommandFailed && a.ping ==> Failure(a, success) == e
    ensures e.id == NoSentinel || e.id == SSHConnect ==> Failure(a, success) == e
  {
  }

  /** Which error of a session that does not come up is reported: the first one, with its identity taken away if it
      comes from the development container or from the connection to it. */
  lemma WhatIsReported(a: Answers, success: bool, e: Err)
    requires a.stateFile.None?
    ensures a.setup == Some(e) ==> Failure(a, success) == e
    ensures a.setup.None? && a.prepare == Some(e) ==> Failure(a, success) == e
    ensures a.setup.None? && a.prepare.None? && a.devMode == Some(e) ==>
      (e.user || e.transientText || (e.noResponseText && success) ==> Failure(a, success) == e)
    ensures a.setup.None? && a.prepare.None? && a.devMode == Some(e) ==>
      (!e.user && !e.transientText && !(e.noResponseText && success) ==>
        Failure(a, success) == Err(NoSentinel, false, false, e.noResponseText))
    ensures a.setup.None? && a.prepare.None? && a.devMode.None? && a.forwards == Some(e) ==>
      (e.id != SSHConnect ==> Failure(a, success) == Err(NoSentinel, false, e.transientText, e.noResponseText))
    ensures a.setup.None? && a.prepare.None? && a.devMode.None? && a.forwards == Some(e) && e.id == SSHConnect ==>
      (a.startCheck.id != LostSyncthing || a.destroyPod.None? ==> Failure(a, success) == a.startCheck)
    ensures a.setup.None? && a.prepare.None? && a.devMode.None? && a.forwards == Some(e) && e.id == SSHConnect ==>
      (a.startCheck.id == LostSyncthing && a.destroyPod.Some? ==>
        Failure(a, success) == Err(NoSentinel, false, a.destroyPod.value.transientText, a.destroyPod.value.noResponseText))
    ensures a.setup.None? && a.prepare.None? && a.devMode.None? && a.forwards.None? && a.sync.None? && a.services == Some(e) ==>
      Failure(a, success) == e
  {
  }

  /** The development container came up in some round before `n`. */
  ghost predicate CameUp(rounds: seq<Round>, n: int)
    requires n <= |rounds|
  {
    exists j :: 0 <= j < n && var a := rounds[j].a;
      a.stateFile.None? && a.setup.None? && a.prepare.None? && a.devMode.None?
  }

  /** The session worked in some round before `n`. */
  ghost predicate Worked(rounds: seq<Round>, n: int)
    requires n <= |rounds|
  {
    exists j :: 0 <= j < n && var a := rounds[j].a;
      && a.stateFile.None? && a.setup.None? && a.prepare.None? && a.devMode.None?
      && a.forwards.None? && a.sync.None? && a.services.None?
  }

  lemma HistoryFlags(rounds: seq<Round>, n: int)
    requires 0 <= n <= |rounds|
    ensures RetryAfter(rounds, n) <==> CameUp(rounds, n)
    ensures SuccessAfter(rounds, n) <==> Worked(rounds, n)
  {
    if RetryAfter(rounds, n) {
      var j :| 0 <= j < n && j < |rounds| && PassedDevMode(rounds[j].a);
      assert rounds[j].a.devMode.None?;
    }
    if SuccessAfter(rounds, n) {
      var j :| 0 <= j < n && j < |rounds| && Succeeded(rounds[j].a);
      assert rounds[j].a.services.None?;
    }
  }

  /** A round ends well exactly if all its phases do, or if the app left dev mode after it had come up. */
  lemma EndsWellIff(rounds: seq<Round>, k: int)
    requires 0 <= k < |rounds|
    ensures var a := rounds[k].a; Returned(rounds, k).None? <==>
      && a.stateFile.None? && a.setup.None?
      && ((!a.devModeOn && CameUp(rounds, k))
          || (a.prepare.None? && a.devMode.None? && a.forwards.None? && a.sync.None? && a.services.None? && a.ended.None?))
  {
    HistoryFlags(rounds, k);
  }

  /** When the loop goes on after an error `e`: a failed token update and a lost connection always count, then the
      text. A silent synchronization is worth a retry only once the session has worked. Unless all that happened is
      a lost connection before the container came up, the loop then waits for the shutdown. */
  lemma GoesOnIff(rounds: seq<Round>, k: int, e: Err)
    requires 0 <= k < |rounds| && Returned(rounds, k) == Some(e)
    ensures GoesOn(rounds, k) <==>
      rounds[k].token.Some? || e.id == LostSyncthing || e.transientText || (e.noResponseText && Worked(rounds, k + 1))
    ensures Waits(rounds, k) <==>
      GoesOn(rounds, k) && (rounds[k].token.Some? || e.id != LostSyncthing || CameUp(rounds, k + 1))
  {
    HistoryFlags(rounds, k + 1);
  }

  /** Before any success an error that only says that the synchronization is silent ends the loop; after one it does not. */
  lemma SilentSyncthing(rounds: seq<Round>, k: int, user: bool)
    requires 0 <= k < |rounds| && rounds[k].token.None? && Returned(rounds, k) == Some(Err(NoSentinel, user, false, true))
    ensures GoesOn(rounds, k) <==> Worked(rounds, k + 1)
  {
    GoesOnIff(rounds, k, Err(NoSentinel, user, false, true));
  }

  // ----- blocking -----

  /** With state files that can be written the loop never blocks. */
  lemma NeverBlocksWithStateFile(rounds: seq<Round>, pid: string)
    requires forall k :: 0 <= k < |rounds| ==> rounds[k].a.stateFile.None?
    ensures !Deadlocks(rounds, pid)
  {
  }

  /** A first state file that cannot be written, with an error that is worth a retry, blocks every session. */
  lemma FirstStateFileBlocks(rounds: seq<Round>, pid: string)
    requires |rounds| > 1 && rounds[0].a.stateFile.Some?
    requires rounds[0].token.Some? || (rounds[0].a.stateFile.value.id != LostSyncthing && rounds[0].a.stateFile.value.transientText)
    ensures Deadlocks(rounds, pid)
  {
    assert Returned(rounds, 0) == rounds[0].a.stateFile;
    assert Passes(rounds, pid, 0);
    assert GetsTo(rounds, pid, 1) && BlocksAt(rounds, 1);
  }

  /** What the loop did in one round. `received`: the channel whose token was taken first.
      `waits`: the loop wants the shutdown of this activation before the next one. */
  datatype Turn =
    | Activated(received: Option<nat>, channel: Option<nat>, err: Option<Err>, waits: bool)
    | Refused(received: Option<nat>)  // the file did not hold the own pid

  /** How many channels the first `n` turns made. */
  ghost function Made(log: seq<Turn>, n: nat): nat
    requires n <= |log|
  {
    if n == 0 then 0 else Made(log, n - 1) + if log[n - 1].Activated? && log[n - 1].channel.Some? then 1 else 0
  }

  /** Turn `k` keeps the protocol: an activation past its state file uses a channel of its own; it is
      preceded by a token and by reading the own pid exactly when the turn before asks for it. */
  ghost predicate KeepsProtocol(rounds: seq<Round>, pid: string, log: seq<Turn>, k: nat)
    requires k < |log| <= |rounds|
  {
    && (log[k].received.Some? <==> k > 0 && log[k - 1].Activated? && log[k - 1].waits)
    && (log[k].received.Some? ==> Made(log, k) > 0 && log[k].received.value == Made(log, k) - 1)
    && (log[k].received.Some? ==> (log[k].Activated? <==> rounds[k].pidRead == Some(pid)))
    && (log[k].Refused? ==> log[k].received.Some? && k == |log| - 1)
    && (log[k].Activated? ==> log[k].channel == if rounds[k].a.stateFile.None? then Some(Made(log, k)) else None)
    && (log[k].Activated? ==> log[k].err == Returned(rounds, k) && (log[k].waits <==> Waits(rounds, k)))
  }

  ghost predicate Handshake(rounds: seq<Round>, pid: string, log: seq<Turn>) {
    |log| <= |rounds| && forall k :: 0 <= k < |log| ==> KeepsProtocol(rounds, pid, log, k)
  }

  ghost predicate Taken(log: seq<Turn>, c: nat) {
    exists k :: 0 <= k < |log| && log[k].received == Some(c)
  }

  /** Every channel holds the one token put on it until the one receive that takes it. */
  ghost predicate Tokens(log: seq<Turn>, channels: seq<nat>) {
    && |channels| == Made(log, |log|)
    && (forall c :: 0 <= c < |channels| ==> channels[c] == if Taken(log, c) then 0 else 1)
    && (forall j, k :: 0 <= j < k < |log| && log[j].received.Some? ==> log[j].received != log[k].received)
  }

  /** The newest channel still holds its token. */
  ghost predicate TokenLeft(log: seq<Turn>) {
    Made(log, |log|) > 0 && !Taken(log, Made(log, |log|) - 1)
  }

  /** The value sent on exit when the loop ends in round `n`: the message that another session took over, or
      what the activation returned. */
  ghost function ExitValue(rounds: seq<Round>, pid: string, n: int): Option<Err>
    requires 0 <= n < |rounds|
  {
    if Replaced(rounds, pid, n) then Some(AnotherUp) else Returned(rounds, n)
  }

  lemma {:induction false} MadePrefix(log: seq<Turn>, t: Turn, n: nat)
    requires n <= |log|
    ensures Made(log + [t], n) == Made(log, n)
  {
    if n > 0 {
      MadePrefix(log, t, n - 1);
    }
  }

  lemma HandshakeNext(rounds: seq<Round>, pid: string, log: seq<Turn>, t: Turn)
    requires Handshake(rounds, pid, log) && |log| < |rounds|
    requires forall k :: 0 <= k < |log| ==> log[k].Activated?
    requires KeepsProtocol(rounds, pid, log + [t], |log|)
    ensures Handshake(rounds, pid, log + [t])
  {
    forall k | 0 <= k < |log| ensures KeepsProtocol(rounds, pid, log + [t], k) {
      MadePrefix(log, t, k);
      assert KeepsProtocol(rounds, pid, log, k);
    }
  }

  /** Taking the newest token, if the turn does, and adding a full channel, if the turn does. */
  lemma TokensNext(log: seq<Turn>, channels: seq<nat>, t: Turn, after: seq<nat>)
    requires Tokens(log, channels)
    requires t.received.Some? ==> TokenLeft(log) && t.received.value == |channels| - 1
    requires var taken := if t.received.Some? then channels[t.received.value := 0] else channels;
      after == if t.Activated? && t.channel.Some? then taken + [1] else taken
    requires forall k :: 0 <= k < |log| && log[k].received.Some? ==> log[k].received.value < |channels|
    ensures Tokens(log + [t], after)
  {
    var all := log + [t];
    MadePrefix(log, t, |log|);
    forall c: nat ensures Taken(all, c) <==> Taken(log, c) || t.received == Some(c) {
      if Taken(log, c) {
        var k :| 0 <= k < |log| && log[k].received == Some(c);
        assert all[k].received == Some(c);
      }
      assert all[|log|].received == t.received;
    }
  }

  datatype Outcome = Exited | Deadlocked | Running

  datatype Next = Again(isTransientError: bool) | Stop(o: Outcome)

  class UpContext {
    const pid: string
    var isRetry: bool
    var success: bool
    /** The tokens in every channel made so far; the last one is the current `ShutdownCompleted`. */
    var channels: seq<nat>
    /** Values sent on `Exit`. */
    var exit: seq<Option<Err>>

    constructor (pid: string)
      ensures this.pid == pid && !isRetry && !success && channels == [] && exit == []
    {
      this.pid := pid;
      isRetry, success, channels, exit := false, false, [], [];
    }

    /** Puts the token on the current channel, whose capacity is one. */
    method Shutdown() returns (blocked: bool)
      modifies this`channels
      ensures |channels| == |old(channels)|
      ensures blocked <==> channels == [] || old(channels)[|channels| - 1] >= 1
      ensures channels == if blocked then old(channels) else old(channels)[|channels| - 1 := old(channels)[|channels| - 1] + 1]
    {
      blocked := channels == [] || channels[|channels| - 1] >= 1;
      if !blocked {
        channels := channels[|channels| - 1 := channels[|channels| - 1] + 1];
      }
    }

    /** The phases between making the channels and the deferred shutdown. */
    method Phases(a: Answers) returns (r: Option<Err>)
      requires a.stateFile.None?
      modifies this`isRetry, this`success
      ensures r == if EndsWell(a, old(isRetry)) then None else Some(Failure(a, old(success)))
      ensures r.Some? ==> isRetry == (old(isRetry) || PassedDevMode(a))
      ensures r.Some? ==> success == (old(success) || Succeeded(a))
    {
      if a.setup.Some? {
        return a.setup;
      }
      if isRetry && !a.devModeOn {
        return None;
      }
      if a.prepare.Some? {
        return a.prepare;
      }
      if a.devMode.Some? {
        if IsTransient(a.devMode.value, success) || a.devMode.value.user {
          return a.devMode;
        }
        return Some(Wrap(a.devMode.value));
      }
      isRetry := true;
      if a.forwards.Some? {
        if a.forwards.value.id == SSHConnect {
          if a.startCheck.id == LostSyncthing && a.destroyPod.Some? {
            return Some(Wrap(a.destroyPod.value));
          }
          return Some(a.startCheck);
        }
        return Some(Wrap(a.forwards.value));
      }
      if a.sync.Some? {
        return if ShouldRetry(a.sync, a.ping) then Some(Lost) else a.sync;
      }
      if a.services.Some? {
        return a.services;
      }
      success := true;
      if ShouldRetry(a.ended, a.ping) {
        return if !a.persistent && a.destroyPod.Some? then a.destroyPod else Some(Lost);
      }
      r := a.ended;
    }

    /** An activation that gets past its state file makes a fresh channel, and its deferred shutdown
        puts exactly one token on it without blocking. */
    method Activate(a: Answers) returns (r: Option<Err>, ghost blocked: bool)
      modifies this`isRetry, this`success, this`channels
      ensures !blocked
      ensures channels == if a.stateFile.None? then old(channels) + [1] else old(channels)
      ensures a.stateFile.Some? ==> r == a.stateFile && isRetry == old(isRetry) && success == old(success)
      ensures r.Some? ==> isRetry == (old(isRetry) || PassedDevMode(a))
      ensures r.Some? ==> success == (old(success) || Succeeded(a))
      ensures a.stateFile.None? ==> r == if EndsWell(a, old(isRetry)) then None else Some(Failure(a, old(success)))
    {
      blocked := false;
      if a.stateFile.Some? {
        return a.stateFile, false;
      }
      channels := channels + [0];
      r := Phases(a);
      blocked := Shutdown();
    }

    /** Runs until it exits, blocks forever on a receive, or the given rounds are used up. The answers alone
        decide which, where, and what is sent on exit. */
    method ActivateLoop(rounds: seq<Round>) returns (o: Outcome, ghost log: seq<Turn>)
      requires !isRetry && !success && channels == [] && exit == []
      modifies this
      ensures Handshake(rounds, pid, log)
      ensures Tokens(log, channels)
      ensures var n := if o.Exited? then |log| - 1 else |log|;
        GetsTo(rounds, pid, n)
      // exactly one exit value, in the round that does not go on
      ensures o.Exited? ==> 0 < |log| <= |rounds| && !BlocksAt(rounds, |log| - 1) && !Passes(rounds, pid, |log| - 1)
      ensures o.Exited? ==> exit == [ExitValue(rounds, pid, |log| - 1)]
      ensures !o.Exited? ==> exit == []
      // after a wait the loop goes on only with its own pid in the file
      ensures forall k :: 0 < k < |log| - 1 && Waits(rounds, k - 1) ==> rounds[k].pidRead == Some(pid)
      ensures o.Exited? && |log| > 1 && Waits(rounds, |log| - 2) && rounds[|log| - 1].pidRead != Some(pid) ==>
        exit == [Some(Err(NoSentinel, true, false, false))]
      // a lost connection or a transient error is always retried, never reported
      ensures o.Exited? && exit[0].Some? ==> exit[0].value.id != LostSyncthing && !exit[0].value.transientText
      ensures o.Exited? && exit[0].Some? && exit[0].value.noResponseText ==> !Worked(rounds, |log|)
      ensures o.Exited? && exit[0].None? ==> rounds[|log| - 1].a.stateFile.None? && rounds[|log| - 1].a.setup.None?
      // the only way to block
      ensures o.Deadlocked? ==> BlocksAt(rounds, |log|)
      ensures o.Deadlocked? <==> Deadlocks(rounds, pid)
      ensures o.Running? ==> |log| == |rounds|
    {
      log := [];
      var isTransientError := false;
      for i := 0 to |rounds|
        invariant |log| == i && exit == []
        invariant LoopInv(rounds, pid, log, channels, isRetry, success, isTransientError)
      {
        var next;
        OwnPid(rounds, pid, i);
        next, log := RunRound(rounds, i, isTransientError, log);
        if next.Stop? {
          if next.o.Exited? {
            ExitNeverDeadlocks(rounds, pid, |log| - 1);
            HistoryFlags(rounds, |log|);
          }
          return next.o, log;
        }
        isTransientError := next.isTransientError;
      }
      OwnPid(rounds, pid, |rounds|);
      RunNeverDeadlocks(rounds, pid);
      o := Running;
    }

    /** The body of the loop. */
    method RunRound(rounds: seq<Round>, i: nat, isTransientError: bool, ghost log: seq<Turn>)
      returns (next: Next, ghost log': seq<Turn>)
      requires |log| == i < |rounds| && exit == []
      requires LoopInv(rounds, pid, log, channels, isRetry, success, isTransientError)
      modifies this
      ensures next.Again? ==> exit == [] && |log'| == i + 1
      ensures next.Again? ==> LoopInv(rounds, pid, log', channels, isRetry, success, next.isTransientError)
      ensures next.Stop? ==> Handshake(rounds, pid, log') && Tokens(log', channels) && !next.o.Running?
      ensures next.Stop? && next.o.Exited? ==>
        |log'| == i + 1 && !BlocksAt(rounds, i) && !Passes(rounds, pid, i) && exit == [ExitValue(rounds, pid, i)]
      ensures next.Stop? && next.o.Deadlocked? ==> exit == [] && log' == log && BlocksAt(rounds, i)
    {
      var round := rounds[i];
      log' := log;
      ghost var before, wasRetry, wasSuccess := channels, isRetry, success;
      HeadFacts(rounds, pid, log, channels, isRetry, success, isTransientError);
      if isRetry || isTransientError {
        if channels == [] || channels[|channels| - 1] == 0 {
          return Stop(Deadlocked), log;
        }
        channels := channels[|channels| - 1 := 0];
        if round.pidRead != Some(pid) {
          exit := [Some(AnotherUp)];
          log' := RefusedTurn(rounds, pid, log, before, isRetry, success, isTransientError);
          return Stop(Exited), log';
        }
      }
      var err, _ := Activate(round.a);
      log' := ActivatedTurn(rounds, pid, log, before, channels, wasRetry, wasSuccess, isTransientError);
      if err.None? {
        exit := [None];
        return Stop(Exited), log';
      }
      FlagsNext(rounds, i, wasRetry, wasSuccess);
      next := Decide(rounds, i, err.value);
      if next.Stop? {
        exit := [err];
      }
    }

    /** What the loop does with the error of an activation. */
    method Decide(rounds: seq<Round>, i: nat, err: Err) returns (next: Next)
      requires i < |rounds| && success == SuccessAfter(rounds, i + 1) && Returned(rounds, i) == Some(err)
      ensures next.Again? <==> GoesOn(rounds, i)
      ensures next.Again? ==> next.isTransientError == TransientFailure(rounds, i)
      ensures next.Stop? ==> next.o.Exited?
    {
      if rounds[i].token.Some? {
        return Again(true);
      }
      if err.id == LostSyncthing {
        return Again(false);
      }
      if IsTransient(err, success) {
        return Again(true);
      }
      next := Stop(Exited);
    }
  }

  /** What holds whenever the loop is about to start a round. */
  ghost predicate LoopInv(rounds: seq<Round>, pid: string, log: seq<Turn>, channels: seq<nat>,
                          isRetry: bool, success: bool, isTransientError: bool)
  {
    && Handshake(rounds, pid, log) && Tokens(log, channels) && GetsTo(rounds, pid, |log|)
    && (forall k :: 0 <= k < |log| ==> log[k].Activated?)
    && isRetry == RetryAfter(rounds, |log|) && success == SuccessAfter(rounds, |log|)
    && (isRetry || isTransientError <==> log != [] && Waits(rounds, |log| - 1))
  }

  /** A round in which the loop ends is the last one it gets to. */
  lemma ExitNeverDeadlocks(rounds: seq<Round>, pid: string, n: int)
    requires 0 <= n < |rounds| && GetsTo(rounds, pid, n) && !BlocksAt(rounds, n) && !Passes(rounds, pid, n)
    ensures !Deadlocks(rounds, pid)
  {
    forall m | GetsTo(rounds, pid, m) ensures !BlocksAt(rounds, m) {
      assert m <= n;
      assert m < n ==> Passes(rounds, pid, m);
    }
  }

  lemma OwnPid(rounds: seq<Round>, pid: string, n: int)
    requires GetsTo(rounds, pid, n)
    ensures forall k :: 0 < k < n && Waits(rounds, k - 1) ==> rounds[k].pidRead == Some(pid)
  {
    forall k | 0 < k < n && Waits(rounds, k - 1) ensures rounds[k].pidRead == Some(pid) {
      assert Passes(rounds, pid, k);
    }
  }

  lemma RunNeverDeadlocks(rounds: seq<Round>, pid: string)
    requires GetsTo(rounds, pid, |rounds|)
    ensures !Deadlocks(rounds, pid)
  {
    forall m | GetsTo(rounds, pid, m) ensures !BlocksAt(rounds, m) {
      assert m < |rounds| ==> Passes(rounds, pid, m);
    }
  }

  /** The turn that finds another pid in the file. */
  lemma RefusedTurn(rounds: seq<Round>, pid: string, log: seq<Turn>, channels: seq<nat>,
                    isRetry: bool, success: bool, isTransientError: bool) returns (log': seq<Turn>)
    requires LoopInv(rounds, pid, log, channels, isRetry, success, isTransientError) && |log| < |rounds|
    requires isRetry || isTransientError
    requires channels != [] && channels[|channels| - 1] != 0 && rounds[|log|].pidRead != Some(pid)
    ensures log' == log + [Refused(Some(|channels| - 1))]
    ensures Handshake(rounds, pid, log') && Tokens(log', channels[|channels| - 1 := 0])
  {
    var t := Refused(Some(|channels| - 1));
    LogFacts(rounds, pid, log);
    MadePrefix(log, t, |log|);
    HandshakeNext(rounds, pid, log, t);
    TokensNext(log, channels, t, channels[|channels| - 1 := 0]);
    log' := log + [t];
  }

  /** The turn that activates. */
  lemma ActivatedTurn(rounds: seq<Round>, pid: string, log: seq<Turn>, channels: seq<nat>, after: seq<nat>,
                      isRetry: bool, success: bool, isTransientError: bool) returns (log': seq<Turn>)
    requires LoopInv(rounds, pid, log, channels, isRetry, success, isTransientError) && |log| < |rounds|
    requires isRetry || isTransientError ==>
      channels != [] && channels[|channels| - 1] != 0 && rounds[|log|].pidRead == Some(pid)
    requires var taken := if isRetry || isTransientError then channels[|channels| - 1 := 0] else channels;
      after == if rounds[|log|].a.stateFile.None? then taken + [1] else taken
    ensures |log'| == |log| + 1 && log'[..|log|] == log && log'[|log|].Activated?
    ensures Handshake(rounds, pid, log') && Tokens(log', after)
  {
    var received := if isRetry || isTransientError then Some(|channels| - 1) else None;
    var channel := if rounds[|log|].a.stateFile.None? then Some(Made(log, |log|)) else None;
    var t := Activated(received, channel, Returned(rounds, |log|), Waits(rounds, |log|));
    LogFacts(rounds, pid, log);
    MadePrefix(log, t, |log|);
    HandshakeNext(rounds, pid, log, t);
    TokensNext(log, channels, t, after);
    log' := log + [t];
  }

  /** At the head of a round the loop would block exactly when the answers say so. */
  lemma HeadFacts(rounds: seq<Round>, pid: string, log: seq<Turn>, channels: seq<nat>,
                  isRetry: bool, success: bool, isTransientError: bool)
    requires LoopInv(rounds, pid, log, channels, isRetry, success, isTransientError) && |log| < |rounds|
    ensures (isRetry || isTransientError) && (channels == [] || channels[|channels| - 1] == 0) <==> BlocksAt(rounds, |log|)
    ensures Replaced(rounds, pid, |log|) <==> (isRetry || isTransientError) && rounds[|log|].pidRead != Some(pid)
  {
    LogFacts(rounds, pid, log);
    LeftIffUnread(rounds, pid, log);
  }

  /** The newest channel of the log holds its token exactly when the answers leave a token unread. */
  lemma LeftIffUnread(rounds: seq<Round>, pid: string, log: seq<Turn>)
    requires Handshake(rounds, pid, log) && forall k :: 0 <= k < |log| ==> log[k].Activated?
    ensures TokenLeft(log) <==> Unread(rounds, |log|)
  {
    var n := |log|;
    forall k | 0 <= k < n ensures KeepsProtocol(rounds, pid, log, k) {
    }
    if TokenLeft(log) {
      var j := LastMade(log, n);
      forall i | j <= i < n - 1 ensures !Waits(rounds, i) {
        MadeGrows(log, j + 1, i + 1);
        MadeGrows(log, i + 1, n);
        assert KeepsProtocol(rounds, pid, log, i) && KeepsProtocol(rounds, pid, log, i + 1);
        assert log[i + 1].received != Some(Made(log, n) - 1);
      }
      assert KeepsProtocol(rounds, pid, log, j);
    }
    if Unread(rounds, n) {
      var j :| 0 <= j < n && rounds[j].a.stateFile.None? && forall i :: j <= i < n - 1 ==> !Waits(rounds, i);
      assert KeepsProtocol(rounds, pid, log, j);
      MadeGrows(log, j + 1, n);
      forall m | 0 <= m < n ensures log[m].received != Some(Made(log, n) - 1) {
        assert KeepsProtocol(rounds, pid, log, m);
        if m <= j {
          MadeGrows(log, m, j);
        } else {
          assert KeepsProtocol(rounds, pid, log, m - 1);
        }
      }
    }
  }

  /** The turn that made the newest channel. */
  lemma {:induction false} LastMade(log: seq<Turn>, n: nat) returns (j: nat)
    requires n <= |log| && Made(log, n) > 0
    ensures j < n && log[j].Activated? && log[j].channel.Some? && Made(log, j + 1) == Made(log, n)
  {
    if log[n - 1].Activated? && log[n - 1].channel.Some? {
      j := n - 1;
    } else {
      j := LastMade(log, n - 1);
    }
  }

  lemma FlagsNext(rounds: seq<Round>, i: nat, wasRetry: bool, wasSuccess: bool)
    requires i < |rounds| && wasRetry == RetryAfter(rounds, i) && wasSuccess == SuccessAfter(rounds, i)
    ensures RetryAfter(rounds, i + 1) == (wasRetry || PassedDevMode(rounds[i].a))
    ensures SuccessAfter(rounds, i + 1) == (wasSuccess || Succeeded(rounds[i].a))
  {
  }

  /** What the protocol says about the newest channel when the next turn begins. */
  lemma LogFacts(rounds: seq<Round>, pid: string, log: seq<Turn>)
    requires Handshake(rounds, pid, log)
    ensures log != [] ==> KeepsProtocol(rounds, pid, log, |log| - 1)
    ensures forall k :: 0 <= k < |log| && log[k].received.Some? ==> log[k].received.value < Made(log, |log|)
    ensures log != [] && log[|log| - 1].Activated? && log[|log| - 1].channel.Some? ==> TokenLeft(log)
  {
    forall k | 0 <= k < |log| && log[k].received.Some?
      ensures log[k].received.value < Made(log, |log|) && log[k].received.value < Made(log, |log| - 1)
    {
      assert KeepsProtocol(rounds, pid, log, k);
      MadeGrows(log, k, |log| - 1);
    }
  }

  lemma {:induction false} MadeGrows(log: seq<Turn>, m: nat, n: nat)
    requires m <= n <= |log|
    ensures Made(log, m) <= Made(log, n)
  {
    if m < n {
      MadeGrows(log, m, n - 1);
    }
  }
}
