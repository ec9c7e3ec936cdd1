/** Competing `okteto up` processes and the PID file that says who owns the development container
    (cmd/up/pid.go). */
module PidOwnership {
  import opened Options

  /** A process id as written to the file. */
  type Pid = string

  datatype FsEvent = Write | Remove | Rename | Create | Chmod | Mixed

  datatype Reaction = Ignore | Recreate | Announce

  /** What one event makes a process do, given what it then reads from the file. */
  function React(pid: Pid, e: FsEvent, read: Option<Pid>): Reaction {
    match e
    case Remove => Recreate
    case Rename => Recreate
    case Write => if read.Some? && read.value != pid then Announce else Ignore
    case _ => Ignore
  }

  // ----- one controller and its file -----

  class PidFile {
    /** `None`: there is no file. */
    var content: Option<Pid>

    constructor (c: Option<Pid>)
      ensures content == c
    {
      content := c;
    }
  }

  /** Which of the calls made by `create` succeed. */
  datatype CreateAnswers = CreateAnswers(create: bool, write: bool, provide: bool, add: bool)

  /** One arrival on the channels of the watcher; `read` and `recreate` answer what handling it asks. */
  datatype Arrival =
    | Event(e: FsEvent, read: Option<Pid>, recreate: bool)
    | ClosedChannel
    | WatcherError

  datatype Verdict = Announced(at: nat) | Stopped(at: nat) | Watching

  /** Arrival `a` is the one that announces a new owner. */
  predicate Announces(pid: Pid, a: Arrival) {
    a.Event? && a.e.Write? && a.read.Some? && a.read.value != pid
  }

  /** Arrival `a` makes the watcher give up silently. */
  predicate GivesUp(pid: Pid, a: Arrival) {
    a.WatcherError? || (a.Event? && (a.e.Remove? || a.e.Rename?) && !a.recreate)
  }

  class PidController {
    const pid: Pid
    const file: PidFile
    var watching: bool

    constructor (pid: Pid, file: PidFile)
      ensures this.pid == pid && this.file == file && !watching
    {
      this.pid, this.file := pid, file;
      watching := false;
    }

    /** Writes the own pid and starts watching once. A failed write leaves a truncated file. */
    method Create(a: CreateAnswers) returns (ok: bool)
      modifies this, file
      ensures ok <==> a.create && a.write && (old(watching) || (a.provide && a.add))
      ensures file.content == if !a.create then old(file.content) else if a.write then Some(pid) else Some("")
      ensures watching <==> old(watching) || (a.create && a.write && a.provide)
    {
      ok := false;
      if !a.create {
        return;
      }
      file.content := Some("");
      if !a.write {
        return;
      }
      file.content := Some(pid);
      if !watching {
        if !a.provide {
          return;
        }
        watching := true;
        if !a.add {
          return;
        }
      }
      ok := true;
    }

    /** Stops watching; the file goes away only if the own pid was read from it. */
    method Delete(readable: bool, removable: bool)
      modifies this, file
      ensures !watching
      ensures file.content == if readable && removable && old(file.content) == Some(pid) then None else old(file.content)
    {
      var read := if readable then file.content else None;
      watching := false;
      if read != Some(pid) {
        return;
      }
      if removable {
        file.content := None;
      }
    }

    /** The watcher loop: it announces at the first write after which another pid is read, unless it
        gave up before. */
    method NotifyIfPIDFileChange(arrivals: seq<Arrival>) returns (v: Verdict)
      ensures v.Announced? ==> v.at < |arrivals| && Announces(pid, arrivals[v.at])
      ensures v.Stopped? ==> v.at < |arrivals| && GivesUp(pid, arrivals[v.at])
      ensures var n := if v.Watching? then |arrivals| else v.at;
        forall i :: 0 <= i < n ==> !Announces(pid, arrivals[i]) && !GivesUp(pid, arrivals[i])
    {
      for i := 0 to |arrivals|
        invariant forall k :: 0 <= k < i ==> !Announces(pid, arrivals[k]) && !GivesUp(pid, arrivals[k])
      {
        match arrivals[i]
        case ClosedChannel =>
        case WatcherError =>
          return Stopped(i);
        case Event(e, read, recreate) =>
          match React(pid, e, read) {
            case Ignore =>
            case Recreate =>
              if !recreate {
                return Stopped(i);
              }
            case Announce =>
              return Announced(i);
          }
      }
      v := Watching;
    }
  }

  // ----- any number of processes -----

  datatype Status = Live | Leaving | Gone

  /** `queue`: the events the process has not handled yet. */
  datatype Proc = Proc(status: Status, watching: bool, queue: seq<FsEvent>)

  datatype World = World(file: Option<Pid>, lastWriter: Option<Pid>, procs: map<Pid, Proc>)

  datatype Action =
    | Start(p: Pid)              // `create`, as one step
    | Handle(p: Pid)             // the watcher loop takes its next event
    | Leave(p: Pid)              // `start` returns and runs `delete`
    | Noise(p: Pid, e: FsEvent)  // events that are not about the content

  const Nobody := World(None, None, map[])

  predicate IsNoise(e: FsEvent) {
    e.Create? || e.Chmod? || e.Mixed?
  }

  predicate Enabled(w: World, a: Action) {
    match a
    case Start(p) => p !in w.procs || w.procs[p].status == Gone
    case Handle(p) => p in w.procs && w.procs[p].status == Live && w.procs[p].queue != []
    case Leave(p) => p in w.procs && w.procs[p].status != Gone
    case Noise(p, e) => p in w.procs && w.procs[p].watching && IsNoise(e)
  }

  /** Everybody who watches gets the event; the removal of the file also ends their watch. */
  function Broadcast(procs: map<Pid, Proc>, e: FsEvent): map<Pid, Proc> {
    map q | q in procs :: if procs[q].watching
                          then procs[q].(queue := procs[q].queue + [e], watching := e != Remove)
                          else procs[q]
  }

  function Step(w: World, a: Action): World
    requires Enabled(w, a)
  {
    match a
    case Start(p) => World(Some(p), Some(p), Broadcast(w.procs, Write)[p := Proc(Live, true, [])])
    case Noise(p, e) => w.(procs := w.procs[p := w.procs[p].(queue := w.procs[p].queue + [e])])
    case Handle(p) =>
      var rest := w.procs[p].(queue := w.procs[p].queue[1..]);
      (match React(p, w.procs[p].queue[0], w.file)
       case Ignore => w.(procs := w.procs[p := rest])
       case Announce => w.(procs := w.procs[p := rest.(status := Leaving)])
       case Recreate => World(Some(p), Some(p), Broadcast(w.procs[p := rest], Write)))
    case Leave(p) =>
      var procs := w.procs[p := Proc(Gone, false, [])];
      if w.file == Some(p) then World(None, w.lastWriter, Broadcast(procs, Remove)) else w.(procs := procs)
  }

  /** The one proviso: an owner does not remove the file while somebody else is live. */
  predicate Quiet(w: World, a: Action) {
    a.Leave? && w.file == Some(a.p) ==> forall q :: q in w.procs && q != a.p ==> w.procs[q].status != Live
  }

  ghost predicate ValidRun(w: World, run: seq<Action>)
    decreases run
  {
    run == [] || (Enabled(w, run[0]) && ValidRun(Step(w, run[0]), run[1..]))
  }

  ghost predicate QuietRun(w: World, run: seq<Action>)
    requires ValidRun(w, run)
    decreases run
  {
    run == [] || (Quiet(w, run[0]) && QuietRun(Step(w, run[0]), run[1..]))
  }

  function After(w: World, run: seq<Action>): World
    requires ValidRun(w, run)
    decreases run
  {
    if run == [] then w else After(Step(w, run[0]), run[1..])
  }

  predicate IsLive(w: World, p: Pid) {
    p in w.procs && w.procs[p].status == Live
  }

  /** Lost ownership without an event that will tell. */
  predicate Unaware(w: World, p: Pid) {
    IsLive(w, p) && w.file != Some(p) && Write !in w.procs[p].queue
  }

  /** The action removes the file under the feet of `p`. */
  predicate Removes(w: World, a: Action, p: Pid) {
    a.Leave? && w.file == Some(a.p) && p != a.p && IsLive(w, p)
  }

  /** In the course of the run `p` lives through a removal and does not start anew afterwards. */
  ghost predicate Hit(w: World, run: seq<Action>, p: Pid)
    requires ValidRun(w, run)
    decreases run
  {
    run != [] && ((Removes(w, run[0], p) && Start(p) !in run[1..]) || Hit(Step(w, run[0]), run[1..], p))
  }

  /** The processes that lived through a removal, step by step. */
  ghost function HitStep(w: World, a: Action, hit: set<Pid>): set<Pid> {
    if a.Start? then hit - {a.p} else hit + set p | p in w.procs && Removes(w, a, p)
  }

  ghost function HitAfter(w: World, run: seq<Action>, hit: set<Pid>): set<Pid>
    requires ValidRun(w, run)
    decreases run
  {
    if run == [] then hit else HitAfter(Step(w, run[0]), run[1..], HitStep(w, run[0], hit))
  }

  /** The two accounts agree. */
  lemma {:induction false} HitAfterIffHit(w: World, run: seq<Action>, hit: set<Pid>, p: Pid)
    requires ValidRun(w, run)
    ensures p in HitAfter(w, run, hit) <==> (p in hit && Start(p) !in run) || Hit(w, run, p)
    decreases run
  {
    if run != [] {
      HitAfterIffHit(Step(w, run[0]), run[1..], HitStep(w, run[0], hit), p);
      assert run == [run[0]] + run[1..];
    }
  }

  /** What holds for everybody but the processes in `hit`. */
  ghost predicate InvExcept(w: World, hit: set<Pid>) {
    && (w.file.Some? ==> w.lastWriter == w.file)
    && (w.file.None? ==> forall p :: IsLive(w, p) ==> p in hit)
    && (forall p :: IsLive(w, p) && p !in hit ==>
          w.procs[p].watching && Remove !in w.procs[p].queue && Rename !in w.procs[p].queue && !Unaware(w, p))
  }

  ghost predicate Inv(w: World) {
    InvExcept(w, {})
  }

  /** Every step of every process keeps it. */
  lemma InvExceptStep(w: World, a: Action, hit: set<Pid>)
    requires InvExcept(w, hit) && Enabled(w, a)
    ensures InvExcept(Step(w, a), HitStep(w, a, hit))
  {
    var w', hit' := Step(w, a), HitStep(w, a, hit);
    forall p | IsLive(w', p) && p !in hit'
      ensures w'.file.Some? && w'.procs[p].watching
      ensures Remove !in w'.procs[p].queue && Rename !in w'.procs[p].queue && !Unaware(w', p)
    {
      if a != Start(p) {
        assert IsLive(w, p) && !Removes(w, a, p) && p !in hit && !Unaware(w, p);
        if a == Handle(p) {
          var q := w.procs[p].queue;
          assert q == [q[0]] + q[1..];
          assert q[0] in q;
        }
      }
    }
  }

  lemma {:induction false} InvExceptRun(w: World, run: seq<Action>, hit: set<Pid>)
    requires InvExcept(w, hit) && ValidRun(w, run)
    ensures InvExcept(After(w, run), HitAfter(w, run, hit))
    decreases run
  {
    if run != [] {
      InvExceptStep(w, run[0], hit);
      InvExceptRun(Step(w, run[0]), run[1..], HitStep(w, run[0], hit));
    }
  }

  /** Over every run of any number of processes, whoever removes the file and whenever: a live process that has
      lived through no removal since its own start is never left unaware, and once it has handled its
      events it is the last writer. */
  lemma OwnershipPerProcess(run: seq<Action>, p: Pid)
    requires ValidRun(Nobody, run) && !Hit(Nobody, run, p)
    ensures var w := After(Nobody, run);
      && (IsLive(w, p) && w.file != Some(p) ==> Write in w.procs[p].queue)
      && (IsLive(w, p) && w.procs[p].queue == [] ==> w.lastWriter == Some(p))
  {
    InvExceptRun(Nobody, run, {});
    HitAfterIffHit(Nobody, run, {}, p);
  }

  lemma {:induction false} StartForgets(w: World, run: seq<Action>, p: Pid)
    requires ValidRun(w, run + [Start(p)])
    ensures !Hit(w, run + [Start(p)], p)
    decreases run
  {
    var all := run + [Start(p)];
    if run == [] {
      assert all[1..] == [];
    } else {
      assert all[1..] == run[1..] + [Start(p)];
      StartForgets(Step(w, all[0]), run[1..], p);
    }
  }

  /** A new start heals: a process that is gone can start again after every run, has the file, watches it, and is
      told from then on whatever it lived through before. */
  lemma RestartHeals(run: seq<Action>, p: Pid)
    requires ValidRun(Nobody, run)
    requires var w := After(Nobody, run); p in w.procs && w.procs[p].status == Gone
    ensures ValidRun(Nobody, run + [Start(p)]) && !Hit(Nobody, run + [Start(p)], p)
    ensures var w := After(Nobody, run + [Start(p)]);
      IsLive(w, p) && w.file == Some(p) && w.procs[p].watching && w.procs[p].queue == []
  {
    var w := After(Nobody, run);
    var last := [Start(p)];
    assert last[1..] == [] && ValidRun(Step(w, Start(p)), []) && ValidRun(w, last);
    assert After(w, last) == Step(w, Start(p));
    RunsCompose(Nobody, run, last);
    StartForgets(Nobody, run, p);
  }

  /** A quiet step hits nobody. */
  lemma QuietHitsNobody(w: World, a: Action)
    requires Quiet(w, a)
    ensures HitStep(w, a, {}) == {}
  {
    assert forall p :: !Removes(w, a, p);
  }

  lemma InvStep(w: World, a: Action)
    requires Inv(w) && Enabled(w, a) && Quiet(w, a)
    ensures Inv(Step(w, a))
  {
    QuietHitsNobody(w, a);
    InvExceptStep(w, a, {});
  }

  /** Over every run in which nobody removes the file under somebody else's feet. */
  lemma {:induction false} InvRun(w: World, run: seq<Action>)
    requires Inv(w) && ValidRun(w, run) && QuietRun(w, run)
    ensures Inv(After(w, run))
    decreases run
  {
    if run != [] {
      InvStep(w, run[0]);
      InvRun(Step(w, run[0]), run[1..]);
    }
  }

  lemma {:induction false} QuietRunHitsNobody(w: World, run: seq<Action>, p: Pid)
    requires ValidRun(w, run) && QuietRun(w, run)
    ensures !Hit(w, run, p)
    decreases run
  {
    if run != [] {
      QuietRunHitsNobody(Step(w, run[0]), run[1..], p);
    }
  }

  /** If no removal happens under anybody's feet, this holds for everybody, and once the events are drained
      only the last writer is live. */
  lemma OwnershipSafety(run: seq<Action>, p: Pid, q: Pid)
    requires ValidRun(Nobody, run) && QuietRun(Nobody, run)
    ensures var w := After(Nobody, run);
      && (IsLive(w, p) && w.file != Some(p) ==> Write in w.procs[p].queue)
      && (IsLive(w, p) && w.procs[p].queue == [] ==> w.lastWriter == Some(p))
      && (IsLive(w, p) && IsLive(w, q) && w.procs[p].queue == [] && w.procs[q].queue == [] ==> p == q)
  {
    forall x | x == p || x == q ensures !Hit(Nobody, run, x) {
      QuietRunHitsNobody(Nobody, run, x);
    }
    OwnershipPerProcess(run, p);
    OwnershipPerProcess(run, q);
  }

  /** Handling its own events never throws the owner out, and never touches anybody else. */
  lemma OwnerStays(w: World, hit: set<Pid>, p: Pid)
    requires InvExcept(w, hit) && p !in hit && Enabled(w, Handle(p))
    ensures var w' := Step(w, Handle(p));
      && w'.file == w.file && |w'.procs[p].queue| == |w.procs[p].queue| - 1
      && (w.file == Some(p) ==> IsLive(w', p))
      && forall q :: q in w.procs && q != p ==> q in w'.procs && w'.procs[q] == w.procs[q]
  {
  }

  function Handles(p: Pid, n: nat): seq<Action> {
    seq(n, i => Handle(p))
  }

  /** A process that lost the file leaves within its pending events, if nobody else acts. */
  lemma {:induction false} LoserLeaves(w: World, hit: set<Pid>, p: Pid) returns (n: nat)
    requires InvExcept(w, hit) && p !in hit && IsLive(w, p) && w.file != Some(p)
    ensures n <= |w.procs[p].queue| && ValidRun(w, Handles(p, n))
    ensures p in After(w, Handles(p, n)).procs && After(w, Handles(p, n)).procs[p].status == Leaving
    decreases |w.procs[p].queue|
  {
    assert !Unaware(w, p);
    var queue := w.procs[p].queue;
    var w' := Step(w, Handle(p));
    if queue[0] == Write {
      n := 1;
      assert Handles(p, 1) == [Handle(p)];
      assert ValidRun(w', []);
      assert After(w, Handles(p, 1)) == After(w', Handles(p, 1)[1..]) == w';
    } else {
      InvExceptStep(w, Handle(p), hit);
      assert HitStep(w, Handle(p), hit) == hit;
      assert queue == [queue[0]] + queue[1..] && queue[0] in queue;
      var m := LoserLeaves(w', hit, p);
      n := m + 1;
      assert Handles(p, n)[1..] == Handles(p, m);
    }
  }

  predicate Drained(w: World, p: Pid) {
    IsLive(w, p) ==> w.procs[p].queue == []
  }

  /** From `w` to `w'` only the processes in `touched` changed, and the owner is still live. */
  ghost predicate Drains(w: World, w': World, touched: set<Pid>) {
    && Inv(w') && w'.file == w.file && w'.procs.Keys == w.procs.Keys
    && (forall p :: p in touched ==> Drained(w', p))
    && (forall p :: p in w.procs && p !in touched ==> w'.procs[p] == w.procs[p])
    && (forall p :: IsLive(w', p) ==> IsLive(w, p))
    && (forall p :: IsLive(w, p) && w.file == Some(p) ==> IsLive(w', p))
  }

  lemma {:induction false} DrainOne(w: World, p: Pid) returns (n: nat)
    requires Inv(w)
    ensures ValidRun(w, Handles(p, n)) && Drains(w, After(w, Handles(p, n)), {p})
    decreases if IsLive(w, p) then |w.procs[p].queue| else 0
  {
    if !IsLive(w, p) || w.procs[p].queue == [] {
      n := 0;
    } else {
      OwnerStays(w, {}, p);
      InvStep(w, Handle(p));
      var m := DrainOne(Step(w, Handle(p)), p);
      n := m + 1;
      assert Handles(p, n)[1..] == Handles(p, m);
    }
  }

  lemma {:induction false} DrainAll(w: World, todo: set<Pid>) returns (run: seq<Action>)
    requires Inv(w)
    ensures ValidRun(w, run) && (forall i :: 0 <= i < |run| ==> run[i].Handle?)
    ensures Drains(w, After(w, run), todo)
    decreases todo
  {
    if todo == {} {
      run := [];
    } else {
      var p :| p in todo;
      var n := DrainOne(w, p);
      var w' := After(w, Handles(p, n));
      var rest := DrainAll(w', todo - {p});
      RunsCompose(w, Handles(p, n), rest);
      run := Handles(p, n) + rest;
    }
  }

  /** The pending events can always be handled, and when they are, exactly the owner of the file is left
      among the processes that were live. */
  lemma DrainingLeavesTheOwner(w: World) returns (run: seq<Action>)
    requires Inv(w)
    ensures ValidRun(w, run) && (forall i :: 0 <= i < |run| ==> run[i].Handle?)
    ensures forall p :: IsLive(After(w, run), p) <==> IsLive(w, p) && w.file == Some(p)
  {
    run := DrainAll(w, w.procs.Keys);
    var w' := After(w, run);
    forall p | IsLive(w', p) ensures w.file == Some(p) {
      assert Drained(w', p) && !Unaware(w', p);
    }
  }

  /** The file disappears exactly when its owner leaves, having read its own pid. */
  lemma OnlyTheOwnerDeletes(w: World, a: Action)
    requires Enabled(w, a) && w.file.Some?
    ensures Step(w, a).file.None? <==> a == Leave(w.file.value)
  {
  }

  // ----- what a removal does to the processes it hits -----

  /** What else holds of the processes: the one in the file is there, one that is gone hears nothing, and a process hit
      by a removal no longer watches. */
  ghost predicate Deaf(w: World, hit: set<Pid>) {
    && (w.file.Some? ==> w.file.value in w.procs && w.procs[w.file.value].status != Gone)
    && (forall p :: p in w.procs && w.procs[p].status == Gone ==> !w.procs[p].watching && w.procs[p].queue == [])
    && (forall p :: p in hit && IsLive(w, p) ==> !w.procs[p].watching)
  }

  lemma DeafStep(w: World, a: Action, hit: set<Pid>)
    requires Deaf(w, hit) && Enabled(w, a)
    ensures Deaf(Step(w, a), HitStep(w, a, hit))
  {
    var w', hit' := Step(w, a), HitStep(w, a, hit);
    forall p | p in hit' && IsLive(w', p) ensures !w'.procs[p].watching {
      assert IsLive(w, p) && (p in hit || Removes(w, a, p));
    }
  }

  lemma {:induction false} DeafRun(w: World, run: seq<Action>, hit: set<Pid>)
    requires Deaf(w, hit) && ValidRun(w, run)
    ensures Deaf(After(w, run), HitAfter(w, run, hit))
    decreases run
  {
    if run != [] {
      DeafStep(w, run[0], hit);
      DeafRun(Step(w, run[0]), run[1..], HitStep(w, run[0], hit));
    }
  }

  /** `q` is live, does not watch, and reads no other pid. */
  predicate Alone(w: World, q: Pid) {
    IsLive(w, q) && !w.procs[q].watching && (w.file.None? || w.file == Some(q))
  }

  predicate Owes(w: World, q: Pid)
    requires q in w.procs
  {
    w.file == Some(q) || Remove in w.procs[q].queue || Rename in w.procs[q].queue
  }

  /** Such a process handles all its events and stays: a write tells it nothing, and a removal makes it recreate the
      file, which it does not watch. If it is in the file or has a removal to handle, it ends up in the file. */
  lemma {:induction false} DrainsAlone(w: World, q: Pid, n: nat)
    requires Alone(w, q) && n == |w.procs[q].queue|
    ensures ValidRun(w, Handles(q, n))
    ensures var w' := After(w, Handles(q, n)); Alone(w', q) && w'.procs[q].queue == [] && w'.procs.Keys == w.procs.Keys
    ensures After(w, Handles(q, n)).file == if Owes(w, q) then Some(q) else None
    decreases n
  {
    if n > 0 {
      assert w.procs[q].queue == [w.procs[q].queue[0]] + w.procs[q].queue[1..];
      assert Handles(q, n)[1..] == Handles(q, n - 1);
      DrainsAlone(Step(w, Handle(q)), q, n - 1);
    }
  }

  /** A removal is repaired: when the owner `p` removes the file while `q` is live, `q` is in the file again as soon as
      it has handled its events, if nobody else acts. */
  lemma RemovalIsRepaired(before: seq<Action>, p: Pid, q: Pid)
    requires ValidRun(Nobody, before) && After(Nobody, before).file == Some(p)
    requires IsLive(After(Nobody, before), q) && q != p && After(Nobody, before).procs[q].watching
    ensures var w := After(Nobody, before);
      var run := [Leave(p)] + Handles(q, |w.procs[q].queue| + 1);
      ValidRun(w, run) && After(w, run).file == Some(q) && IsLive(After(w, run), q)
  {
    var w := After(Nobody, before);
    DeafRun(Nobody, before, {});
    var w1, n := Step(w, Leave(p)), |w.procs[q].queue| + 1;
    assert w1.procs[q].queue == w.procs[q].queue + [Remove];
    assert w1.procs[q].queue[n - 1] == Remove;
    DrainsAlone(w1, q, n);
    assert ([Leave(p)] + Handles(q, n))[1..] == Handles(q, n);
  }

  lemma AloneIsLeftBehind(w: World, q: Pid, r: Pid) returns (run: seq<Action>)
    requires Alone(w, q) && r !in w.procs
    ensures ValidRun(w, run) && Start(q) !in run
    ensures var w' := After(w, run); Unaware(w', q) && w'.procs[q].queue == [] && IsLive(w', r)
  {
    var n := |w.procs[q].queue|;
    DrainsAlone(w, q, n);
    var w1 := After(w, Handles(q, n));
    var w2 := Step(w1, Start(r));
    var last := [Start(r)];
    assert last[1..] == [] && ValidRun(w2, []) && ValidRun(w1, last) && After(w1, last) == After(w2, []) == w2;
    RunsCompose(w, Handles(q, n), last);
    run := Handles(q, n) + last;
  }

  lemma {:induction false} RunsCompose(w: World, a: seq<Action>, b: seq<Action>)
    requires ValidRun(w, a) && ValidRun(After(w, a), b)
    ensures ValidRun(w, a + b) && After(w, a + b) == After(After(w, a), b)
    decreases a
  {
    if a == [] {
      assert a + b == b;
    } else {
      assert (a + b)[1..] == a[1..] + b;
      RunsCompose(Step(w, a[0]), a[1..], b);
    }
  }

  /** After every run: a live process `q` that was hit by a removal can be left behind for good. The run can go on
      so that `q` is live, not in the file, and has no event that will tell. */
  lemma HitCanBeLeftBehind(before: seq<Action>, q: Pid, r: Pid) returns (run: seq<Action>)
    requires ValidRun(Nobody, before) && Hit(Nobody, before, q)
    requires IsLive(After(Nobody, before), q) && r !in After(Nobody, before).procs
    ensures var w := After(Nobody, before);
      && ValidRun(w, run) && Start(q) !in run
      && Unaware(After(w, run), q) && After(w, run).procs[q].queue == [] && IsLive(After(w, run), r)
  {
    var w := After(Nobody, before);
    DeafRun(Nobody, before, {});
    HitAfterIffHit(Nobody, before, {}, q);
    if Alone(w, q) {
      run := AloneIsLeftBehind(w, q, r);
    } else {
      var leave := Leave(w.file.value);
      var rest := AloneIsLeftBehind(Step(w, leave), q, r);
      run := [leave] + rest;
      assert run[1..] == rest;
    }
  }

  /** After every run: if the owner `p` removes the file while `q` is live, the run can go on so that `q` is
      left behind. */
  lemma RemovalBreaksOwnership(before: seq<Action>, p: Pid, q: Pid, r: Pid) returns (run: seq<Action>)
    requires ValidRun(Nobody, before) && After(Nobody, before).file == Some(p)
    requires IsLive(After(Nobody, before), q) && q != p && r !in After(Nobody, before).procs
    ensures var w := After(Nobody, before);
      && ValidRun(w, run) && run != [] && run[0] == Leave(p)
      && Unaware(After(w, run), q) && After(w, run).procs[q].queue == [] && IsLive(After(w, run), r)
  {
    var w := After(Nobody, before);
    DeafRun(Nobody, before, {});
    DeafStep(w, Leave(p), HitAfter(Nobody, before, {}));
    assert Removes(w, Leave(p), q);
    var rest := AloneIsLeftBehind(Step(w, Leave(p)), q, r);
    run := [Leave(p)] + rest;
    assert run[1..] == rest;
  }

  /** From the empty start: two processes that are given the file in turn meet the premise of `RemovalBreaksOwnership`,
      so some run of three processes ends in one that lost the file and is never told. */
  lemma OwnershipCanBreak(q: Pid, p: Pid, r: Pid) returns (run: seq<Action>)
    requires q != p && p != r && q != r
    ensures |run| > 3 && run[..3] == [Start(q), Start(p), Leave(p)]
    ensures ValidRun(Nobody, run) && Unaware(After(Nobody, run), q) && After(Nobody, run).procs[q].queue == []
  {
    var starts := [Start(q), Start(p)];
    var w1 := Step(Nobody, Start(q));
    var w2 := Step(w1, Start(p));
    assert starts[1..] == [Start(p)] && starts[1..][1..] == [];
    assert ValidRun(w2, []) && ValidRun(w1, starts[1..]) && ValidRun(Nobody, starts);
    assert After(w1, starts[1..]) == After(w2, []) == w2;
    var broken := RemovalBreaksOwnership(starts, p, q, r);
    RunsCompose(Nobody, starts, broken);
    run := starts + broken;
  }
}
