/** Layers of the process environment (cmd/context): what is already set wins over the `.env` file, which
    wins over the variables of the platform. */
module EnvLayers {
  import opened Options

  type Env = map<string, string>

  datatype Var = Var(name: string, value: string)

  /** What the operating system accepts as an environment entry. */
  predicate Settable(name: string, value: string) {
    name != "" && '=' !in name && '\0' !in name && '\0' !in value
  }

  /** Why the `.env` file may yield nothing. */
  datatype DotEnv = Absent | Unreadable | Parsed(vars: Env)

  function Vars(d: DotEnv): Env {
    if d.Parsed? then d.vars else map[]
  }

  /** `part` holds variables of the file that were absent and can be set. */
  ghost predicate PartOf(part: Env, vars: Env, before: Env) {
    forall k :: k in part ==> k in vars && part[k] == vars[k] && k !in before && Settable(k, vars[k])
  }

  /** `i` is the first platform variable of that name that can be set. */
  ghost predicate FirstOf(list: seq<Var>, name: string, i: int) {
    && 0 <= i < |list| && list[i].name == name && Settable(name, list[i].value)
    && forall j :: 0 <= j < i ==> list[j].name != name || !Settable(name, list[j].value)
  }

  /** The first layer that defines a name gives its value. */
  ghost predicate FirstLayerWins(process: Env, dotEnv: Env, platform: seq<Var>, after: Env, name: string) {
    if name in process then name in after && after[name] == process[name]
    else if name in dotEnv then name in after && after[name] == dotEnv[name]
    else if exists i :: FirstOf(platform, name, i)
      then name in after && forall i :: FirstOf(platform, name, i) ==> after[name] == platform[i].value
    else name !in after
  }

  class Process {
    var env: Env

    constructor (env: Env)
      ensures this.env == env
    {
      this.env := env;
    }

    method SetEnv(name: string, value: string) returns (ok: bool)
      modifies this
      ensures ok <==> Settable(name, value)
      ensures !ok <==> name == "" || '=' in name || '\0' in name || '\0' in value
      ensures env == if ok then old(env)[name := value] else old(env)
    {
      ok := Settable(name, value);
      if ok {
        env := env[name := value];
      }
    }

    /** Sets the absent variables of the file, in any order. It fails on the first one that cannot be set;
        `part` is what it has set until then. Nothing that was set before is ever changed. */
    method LoadDotEnv(file: DotEnv) returns (ok: bool, ghost part: Env)
      modifies this
      ensures ok <==> !file.Unreadable? && forall k :: k in Vars(file) && k !in old(env) ==> Settable(k, Vars(file)[k])
      ensures PartOf(part, Vars(file), old(env)) && env == part + old(env)
      ensures ok ==> env == Vars(file) + old(env)
    {
      part := map[];
      if file.Absent? {
        assert Vars(file) + env == env;
        return true, part;
      }
      if file.Unreadable? {
        return false, part;
      }
      var rest := file.vars.Keys;
      while rest != {}
        invariant rest <= file.vars.Keys
        invariant PartOf(part, file.vars, old(env)) && env == part + old(env)
        invariant forall k :: k in file.vars && k !in rest ==> k in part || k in old(env)
        invariant forall k :: k in rest ==> k !in part
      {
        var k :| k in rest;
        rest := rest - {k};
        if k in env {
          continue;
        }
        var set_ := SetEnv(k, file.vars[k]);
        if !set_ {
          return false, part;
        }
        part := part[k := file.vars[k]];
      }
      ok := true;
    }

    /** Sets the absent platform variables in order; a name that cannot be set is passed over. */
    method ExportPlatformVariables(variables: seq<Var>)
      modifies this
      ensures forall k :: FirstLayerWins(old(env), map[], variables, env, k)
    {
      for i := 0 to |variables|
        invariant forall k :: FirstLayerWins(old(env), map[], variables[..i], env, k)
      {
        var v := variables[i];
        ghost var before := env;
        if v.name !in env {
          var _ := SetEnv(v.name, v.value);
        }
        ghost var seen := variables[..i + 1];
        assert seen == variables[..i] + [v];
        forall k ensures FirstLayerWins(old(env), map[], seen, env, k) {
          PlatformNext(old(env), variables[..i], v, before, env, k);
        }
      }
      assert variables[..|variables|] == variables;
    }

    /** The order of the layers in a context run. A `.env` file that fails to load is only warned about: the part
        of it that was set before the failure stays, and the platform variables are exported all the same. */
    method Layers(file: DotEnv, platform: seq<Var>) returns (loaded: bool, ghost part: Env)
      modifies this
      ensures loaded <==> !file.Unreadable? && forall k :: k in Vars(file) && k !in old(env) ==> Settable(k, Vars(file)[k])
      ensures PartOf(part, Vars(file), old(env)) && forall k :: FirstLayerWins(old(env), part, platform, env, k)
      ensures loaded ==> forall k :: FirstLayerWins(old(env), Vars(file), platform, env, k)
    {
      loaded, part := LoadDotEnv(file);
      ghost var mid := env;
      ExportPlatformVariables(platform);
      forall k ensures FirstLayerWins(old(env), part, platform, env, k) {
        assert FirstLayerWins(mid, map[], platform, env, k);
      }
      if loaded {
        forall k ensures FirstLayerWins(old(env), Vars(file), platform, env, k) {
          assert FirstLayerWins(mid, map[], platform, env, k);
        }
      }
    }
  }

  lemma FirstOfSnoc(list: seq<Var>, v: Var, name: string, j: int)
    ensures FirstOf(list + [v], name, j) <==>
      FirstOf(list, name, j) ||
      (j == |list| && v.name == name && Settable(name, v.value) && !exists k :: FirstOf(list, name, k))
  {
    var all := list + [v];
    if j == |list| && v.name == name && Settable(name, v.value) {
      if k :| 0 <= k < |list| && list[k].name == name && Settable(name, list[k].value) {
        SomeFirst(list, name, k);
        assert all[k].name == name && Settable(name, all[k].value);
      } else {
        assert all[j] == v;
        assert forall k :: 0 <= k < |list| ==> all[k] == list[k];
      }
    } else if 0 <= j < |list| {
      assert forall k :: 0 <= k <= j ==> all[k] == list[k];
    }
  }

  lemma {:induction false} SomeFirst(list: seq<Var>, name: string, k: nat)
    requires k < |list| && list[k].name == name && Settable(name, list[k].value)
    ensures exists i :: FirstOf(list, name, i)
  {
    if j :| 0 <= j < k && list[j].name == name && Settable(name, list[j].value) {
      SomeFirst(list, name, j);
    } else {
      assert FirstOf(list, name, k);
    }
  }

  /** One more platform variable. */
  lemma PlatformNext(process: Env, list: seq<Var>, v: Var, before: Env, after: Env, name: string)
    requires FirstLayerWins(process, map[], list, before, name)
    requires after == if v.name !in before && Settable(v.name, v.value) then before[v.name := v.value] else before
    ensures FirstLayerWins(process, map[], list + [v], after, name)
  {
    var all := list + [v];
    forall j ensures FirstOf(all, name, j) <==>
      FirstOf(list, name, j) ||
      (j == |list| && v.name == name && Settable(name, v.value) && !exists k :: FirstOf(list, name, k))
    {
      FirstOfSnoc(list, v, name, j);
    }
    if name !in process {
      if k :| FirstOf(list, name, k) {
        assert FirstOf(all, name, k);
      } else if v.name == name && Settable(name, v.value) {
        assert FirstOf(all, name, |list|);
      }
    }
  }
}
