/** The environment of the deploy commands (pkg/deployable): a list of `K=V` entries that only grows,
    with the contents of the `$OKTETO_ENV` file appended after every command. */
module EnvSteps {
  import opened KeyValue
  import opened Options

  type Env = map<string, string>

  /** The meaning of a list of entries: the last one for a name wins. */
  function Meaning(list: seq<string>): Env {
    if list == [] then map[]
    else
      var before := Meaning(list[..|list| - 1]);
      var kv := Split(list[|list| - 1]);
      if kv.None? then before else before[kv.value.name := kv.value.value]
  }

  /** Entry `i` binds `k` and no later entry does. */
  ghost predicate LastFor(list: seq<string>, k: string, i: int) {
    && 0 <= i < |list| && Split(list[i]).Some? && Split(list[i]).value.name == k
    && forall j :: i < j < |list| ==> Split(list[j]).None? || Split(list[j]).value.name != k
  }

  /** `Meaning` binds `k` to what its last entry says. */
  lemma {:induction false} MeaningIsLast(list: seq<string>, k: string)
    ensures k in Meaning(list) <==> exists i :: LastFor(list, k, i)
    ensures forall i :: LastFor(list, k, i) ==> k in Meaning(list) && Meaning(list)[k] == Split(list[i]).value.value
  {
    if list != [] {
      var n := |list| - 1;
      MeaningIsLast(list[..n], k);
      var kv := Split(list[n]);
      if kv.Some? && kv.value.name == k {
        assert LastFor(list, k, n);
        forall i | LastFor(list, k, i) ensures i == n {
        }
      } else {
        forall i ensures LastFor(list, k, i) <==> LastFor(list[..n], k, i) {
          LastForPrefix(list, k, i);
        }
      }
    }
  }

  lemma LastForPrefix(list: seq<string>, k: string, i: int)
    requires list != []
    requires Split(list[|list| - 1]).None? || Split(list[|list| - 1]).value.name != k
    ensures LastFor(list, k, i) <==> LastFor(list[..|list| - 1], k, i)
  {
  }

  lemma {:induction false} MeaningConcat(a: seq<string>, b: seq<string>)
    ensures Meaning(a + b) == Meaning(a) + Meaning(b)
  {
    if b == [] {
      assert a + b == a;
    } else {
      assert (a + b)[..|a + b| - 1] == a + b[..|b| - 1];
      MeaningConcat(a, b[..|b| - 1]);
    }
  }

  /** Names that a `.env` file can produce. */
  ghost predicate Names(env: Env) {
    forall k :: k in env ==> '=' !in k
  }

  /** The entries of a map in any order: the order does not change their meaning. */
  method MapToEnvList(env: Env) returns (list: seq<string>)
    requires Names(env)
    ensures Meaning(list) == env
    ensures |list| == |env| && forall i :: 0 <= i < |list| ==> '=' in list[i]
  {
    list := [];
    var rest := env.Keys;
    while rest != {}
      invariant rest <= env.Keys && |list| + |rest| == |env.Keys|
      invariant Meaning(list) == map k | k in env && k !in rest :: env[k]
      invariant forall i :: 0 <= i < |list| ==> '=' in list[i]
    {
      var k :| k in rest;
      MeaningSnoc(list, Variable(k, env[k]));
      list := list + [Print(Variable(k, env[k]))];
      rest := rest - {k};
    }
  }

  lemma MeaningSnoc(list: seq<string>, v: Variable)
    requires '=' !in v.name
    ensures Meaning(list + [Print(v)]) == Meaning(list)[v.name := v.value] && '=' in Print(v)
  {
    SplitPrint(v);
    assert (list + [Print(v)])[..|list|] == list;
    assert Print(v)[|v.name|] == '=';
  }

  /** The config map of the environment: it cannot be had, because the read fails or because there is none, or it
      is there and a write works or not. */
  datatype Store = Unreachable | Present(writable: bool)

  /** An entry without `=`. */
  ghost predicate Malformed(envs: seq<string>) {
    exists i :: 0 <= i < |envs| && '=' !in envs[i]
  }

  /** The variables of a list that means `envs` cannot be persisted. */
  ghost predicate PersistFails(store: Store, malformed: bool, envs: Env) {
    store.Unreachable? || malformed || (envs != map[] && !store.writable)
  }

  /** Every entry into one map, as it is persisted. An entry without `=` refuses the whole list, and an empty map
      is not written. */
  method UpdateEnvs(store: Store, envs: seq<string>) returns (err: bool, written: Option<Env>)
    ensures err <==> PersistFails(store, Malformed(envs), Meaning(envs))
    ensures written == if !err && Meaning(envs) != map[] then Some(Meaning(envs)) else None
  {
    err, written := false, None;
    if store.Unreachable? {
      return true, None;
    }
    var m: Env := map[];
    for i := 0 to |envs|
      invariant forall k :: 0 <= k < i ==> '=' in envs[k]
      invariant m == Meaning(envs[..i])
    {
      var kv := Split(envs[i]);
      if kv.None? {
        return true, None;
      }
      assert envs[..i + 1][..i] == envs[..i];
      m := m[kv.value.name := kv.value.value];
    }
    assert envs[..|envs|] == envs;
    if m != map[] {
      err := !store.writable;
      written := if err then None else Some(m);
    }
  }

  class EnvStepper {
    var env: Env

    constructor ()
      ensures env == map[]
    {
      env := map[];
    }

    /** `file`: the parsed contents, or `None` when it cannot be read or parsed; then nothing changes. */
    method Step(file: Option<Env>) returns (list: Option<seq<string>>)
      requires file.Some? ==> Names(file.value)
      modifies this
      ensures file.None? ==> list.None? && env == old(env)
      ensures file.Some? ==> list.Some? && env == file.value && Meaning(list.value) == file.value
      ensures list.Some? ==> forall i :: 0 <= i < |list.value| ==> '=' in list.value[i]
    {
      if file.None? {
        return None;
      }
      var l := MapToEnvList(file.value);
      env := file.value;
      list := Some(l);
    }
  }

  /** One command: whether it succeeds, and what the `$OKTETO_ENV` file holds afterwards. */
  datatype Command = Command(ok: bool, file: Option<Env>)

  /** `base` overlaid in order with the readable snapshots. */
  ghost function Overlay(base: Env, commands: seq<Command>): Env {
    if commands == [] then base
    else
      var before := Overlay(base, commands[..|commands| - 1]);
      var file := commands[|commands| - 1].file;
      if file.None? then before else before + file.value
  }

  /** The last readable snapshot. */
  ghost function LastSnapshot(commands: seq<Command>): Env {
    if commands == [] then map[]
    else if commands[|commands| - 1].file.Some? then commands[|commands| - 1].file.value
    else LastSnapshot(commands[..|commands| - 1])
  }

  /** A binding of the last snapshot is never overridden afterwards. */
  lemma {:induction false} SnapshotIsEffective(base: Env, commands: seq<Command>)
    ensures forall k :: k in LastSnapshot(commands) ==>
      k in Overlay(base, commands) && Overlay(base, commands)[k] == LastSnapshot(commands)[k]
  {
    if commands != [] {
      SnapshotIsEffective(base, commands[..|commands| - 1]);
    }
  }

  /** `seen[i]`, the list command `i` ran with, extends the base list and means the base overlaid with the
      snapshots taken after the commands before it. */
  ghost predicate SeesOverlay(base: seq<string>, commands: seq<Command>, seen: seq<seq<string>>) {
    && |seen| <= |commands|
    && forall i :: 0 <= i < |seen| ==> base <= seen[i] && Meaning(seen[i]) == Overlay(Meaning(base), commands[..i])
  }

  /** Entries that were added to `base`, all of them with a `=`. */
  ghost predicate Extends(base: seq<string>, list: seq<string>) {
    base <= list && forall i :: |base| <= i < |list| ==> '=' in list[i]
  }

  lemma SnapshotNext(base: Env, commands: seq<Command>, i: nat)
    requires i < |commands|
    ensures commands[i].file.None? ==>
      Overlay(base, commands[..i + 1]) == Overlay(base, commands[..i]) && LastSnapshot(commands[..i + 1]) == LastSnapshot(commands[..i])
    ensures commands[i].file.Some? ==>
      Overlay(base, commands[..i + 1]) == Overlay(base, commands[..i]) + commands[i].file.value && LastSnapshot(commands[..i + 1]) == commands[i].file.value
  {
    assert commands[..i + 1][..i] == commands[..i];
  }

  /** The loop before command `i`. */
  ghost predicate LoopInv(base: seq<string>, commands: seq<Command>, i: nat, variables: seq<string>,
                          seen: seq<seq<string>>, env: Env)
  {
    && |seen| == i <= |commands| && SeesOverlay(base, commands, seen) && Extends(base, variables)
    && (forall k :: 0 <= k < i ==> commands[k].ok)
    && Meaning(variables) == Overlay(Meaning(base), commands[..i])
    && env == LastSnapshot(commands[..i])
  }

  lemma SeesNext(base: seq<string>, commands: seq<Command>, i: nat, variables: seq<string>, seen: seq<seq<string>>, env: Env)
    requires LoopInv(base, commands, i, variables, seen, env) && i < |commands|
    ensures SeesOverlay(base, commands, seen + [variables])
  {
  }

  /** A readable file is appended, anything else changes nothing. */
  lemma LoopNext(base: seq<string>, commands: seq<Command>, i: nat, variables: seq<string>, seen: seq<seq<string>>, env: Env,
                 list: seq<string>, env': Env)
    requires LoopInv(base, commands, i, variables, seen, env) && i < |commands| && commands[i].ok
    requires commands[i].file.None? ==> list == [] && env' == env
    requires commands[i].file.Some? ==> Meaning(list) == commands[i].file.value && env' == commands[i].file.value
    requires forall k :: 0 <= k < |list| ==> '=' in list[k]
    ensures LoopInv(base, commands, i + 1, variables + list, seen + [variables], env')
  {
    SeesNext(base, commands, i, variables, seen, env);
    MeaningNext(Meaning(base), commands, i, variables, list);
    SnapshotNext(Meaning(base), commands, i);
    ExtendsNext(base, variables, list);
  }

  lemma MeaningNext(base: Env, commands: seq<Command>, i: nat, variables: seq<string>, list: seq<string>)
    requires i < |commands| && Meaning(variables) == Overlay(base, commands[..i])
    requires if commands[i].file.None? then list == [] else Meaning(list) == commands[i].file.value
    ensures Meaning(variables + list) == Overlay(base, commands[..i + 1])
  {
    SnapshotNext(base, commands, i);
    if commands[i].file.None? {
      assert variables + list == variables;
    } else {
      MeaningConcat(variables, list);
    }
  }

  lemma ExtendsNext(base: seq<string>, variables: seq<string>, list: seq<string>)
    requires Extends(base, variables) && forall i :: 0 <= i < |list| ==> '=' in list[i]
    ensures Extends(base, variables + list)
  {
  }

  /** The command loop: in order, up to the first failure. */
  method RunCommands(base: seq<string>, commands: seq<Command>, stepper: EnvStepper)
    returns (failed: bool, variables: seq<string>, seen: seq<seq<string>>)
    requires forall i :: 0 <= i < |commands| && commands[i].file.Some? ==> Names(commands[i].file.value)
    requires stepper.env == map[]
    modifies stepper
    ensures SeesOverlay(base, commands, seen) && Extends(base, variables)
    ensures forall i :: 0 <= i < |seen| - 1 ==> commands[i].ok
    ensures failed <==> seen != [] && !commands[|seen| - 1].ok
    ensures !failed ==> |seen| == |commands|
    ensures !failed ==> Meaning(variables) == Overlay(Meaning(base), commands) && stepper.env == LastSnapshot(commands)
  {
    variables, seen := base, [];
    for i := 0 to |commands|
      invariant LoopInv(base, commands, i, variables, seen, stepper.env)
    {
      ghost var env := stepper.env;
      if !commands[i].ok {
        SeesNext(base, commands, i, variables, seen, env);
        return true, variables, seen + [variables];
      }
      var list := stepper.Step(commands[i].file);
      var added := if list.Some? then list.value else [];
      LoopNext(base, commands, i, variables, seen, env, added, stepper.env);
      seen := seen + [variables];
      variables := variables + added;
    }
    assert commands[..|commands|] == commands;
    failed := false;
  }

  /** How the section ends: a command fails, the variables cannot be persisted, or all is well and `written` is
      what went into the config map. */
  datatype Result = CommandFailed | NotPersisted | Done(written: Option<Env>)

  /** The whole section. What is persisted is the base overlaid with every snapshot, and what the external
      resources are given, the last snapshot, agrees with it. */
  method RunCommandsSection(base: seq<string>, commands: seq<Command>, store: Store)
    returns (r: Result, seen: seq<seq<string>>, external: Env)
    requires forall i :: 0 <= i < |commands| && commands[i].file.Some? ==> Names(commands[i].file.value)
    ensures SeesOverlay(base, commands, seen)
    ensures forall i :: 0 <= i < |seen| - 1 ==> commands[i].ok
    ensures r.CommandFailed? <==> seen != [] && !commands[|seen| - 1].ok
    ensures !r.CommandFailed? ==> |seen| == |commands|
    ensures r.NotPersisted? <==> !r.CommandFailed? && PersistFails(store, Malformed(base), Overlay(Meaning(base), commands))
    ensures r.Done? ==> (r.written.Some? <==> Overlay(Meaning(base), commands) != map[])
    ensures r.Done? && r.written.Some? ==> r.written.value == Overlay(Meaning(base), commands)
    ensures r.Done? ==> external == LastSnapshot(commands)
    ensures r.Done? && r.written.Some? ==> forall k :: k in external ==> k in r.written.value && r.written.value[k] == external[k]
  {
    var stepper := new EnvStepper();
    var failed, variables;
    failed, variables, seen := RunCommands(base, commands, stepper);
    external := stepper.env;
    if failed {
      return CommandFailed, seen, external;
    }
    SnapshotIsEffective(Meaning(base), commands);
    var err, written := UpdateEnvs(store, variables);
    assert forall i :: 0 <= i < |base| ==> variables[i] == base[i];
    r := if err then NotPersisted else Done(written);
  }
}
