/** Build variables of an environment, grouped for storage and handed to the environments that depend on
    it (cmd/deploy/cfghandler.go). Storage itself is the identity. */
module BuildVars {
  import opened Options
  import opened Regroup

  type Env = map<string, string>
  type Nested = map<string, map<string, string>>

  const PREFIX := "OKTETO_BUILD_"
  const ORIGIN := "OKTETO_DEPENDENCY_"
  const VARS := {"REGISTRY", "REPOSITORY", "IMAGE", "TAG", "SHA"}

  function Key(name: string, v: string): string {
    PREFIX + name + "_" + v
  }

  /** `^OKTETO_BUILD_(.+)_(REGISTRY|REPOSITORY|IMAGE|TAG|SHA)$`, where `.` is anything but a newline. */
  ghost predicate Matches(k: string, name: string, v: string) {
    k == Key(name, v) && name != "" && '\n' !in name && v in VARS
  }

  /** The position after the last `_`, or 0. */
  function AfterLast(s: string): (n: nat)
    ensures n <= |s| && '_' !in s[n..] && (n > 0 ==> s[n - 1] == '_')
  {
    if s == [] then 0
    else if s[|s| - 1] == '_' then |s|
    else
      var n := AfterLast(s[..|s| - 1]);
      assert s[n..] == s[..|s| - 1][n..] + [s[|s| - 1]];
      n
  }

  function Parse(k: string): Option<(string, string)> {
    if !(PREFIX <= k) then None
    else
      var rest := k[|PREFIX|..];
      var n := AfterLast(rest);
      if n < 2 || '\n' in rest[..n - 1] || rest[n..] !in VARS then None
      else Some((rest[..n - 1], rest[n..]))
  }

  lemma VarsHaveNoUnderscore(v: string)
    requires v in VARS
    ensures '_' !in v
  {
  }

  lemma LastUnderscore(name: string, v: string)
    requires '_' !in v
    ensures AfterLast(name + "_" + v) == |name| + 1
  {
    var s := name + "_" + v;
    var n := AfterLast(s);
    assert s[|name|] == '_';
    assert s[|name| + 1..] == v;
  }

  lemma MatchIsParsed(name: string, v: string)
    requires name != "" && '\n' !in name && v in VARS
    ensures Parse(Key(name, v)) == Some((name, v))
  {
    VarsHaveNoUnderscore(v);
    var rest := Key(name, v)[|PREFIX|..];
    assert rest == name + "_" + v;
    LastUnderscore(name, v);
    assert rest[..|name|] == name && rest[|name| + 1..] == v;
  }

  lemma ParsedMatches(k: string)
    requires Parse(k).Some?
    ensures Matches(k, Parse(k).value.0, Parse(k).value.1)
  {
    var rest := k[|PREFIX|..];
    var n := AfterLast(rest);
    assert k == PREFIX + rest && rest == rest[..n - 1] + "_" + rest[n..];
  }

  /** The match is unique, whatever underscores the name has, and parsing finds it. */
  lemma ParseIffMatches(k: string, name: string, v: string)
    ensures Parse(k) == Some((name, v)) <==> Matches(k, name, v)
  {
    if Matches(k, name, v) {
      MatchIsParsed(name, v);
    } else if Parse(k).Some? {
      ParsedMatches(k);
    }
  }

  /** The five variables and the prefix, in full. */
  lemma BuildVariables(name: string, v: string)
    requires name != "" && '\n' !in name
    ensures Parse("OKTETO_BUILD_" + name + "_" + v) == Some((name, v)) <==>
      v == "REGISTRY" || v == "REPOSITORY" || v == "IMAGE" || v == "TAG" || v == "SHA"
  {
    ParseIffMatches("OKTETO_BUILD_" + name + "_" + v, name, v);
  }

  lemma ParseInjective()
    ensures InjectiveParse(Parse)
  {
    forall k, k' | Parse(k).Some? && Parse(k) == Parse(k') ensures k == k' {
      var (name, v) := Parse(k).value;
      ParseIffMatches(k, name, v);
      ParseIffMatches(k', name, v);
    }
  }

  /** Picks the build variables out of an environment, in any order, and loses none. */
  method SetBuildEnvVars(env: Env) returns (nested: Nested, ghost entries: set<(string, string)>)
    ensures Groups(nested, env, Parse) && KnownVars(nested)
    ensures Entries(entries, nested) && |entries| == |ParsedKeys(env, Parse)|
  {
    ParseInjective();
    nested, entries := Group(env, Parse);
    GroupsKnown(nested, env);
  }

  ghost predicate KnownVars(nested: Nested) {
    forall name, v :: Has(nested, name, v) ==> v in VARS
  }

  lemma GroupsKnown(nested: Nested, env: Env)
    requires Groups(nested, env, Parse)
    ensures KnownVars(nested)
  {
  }

  function DepKey(dep: string, name: string, v: string): string {
    ORIGIN + dep + "_BUILD_" + name + "_" + v
  }

  /** What stands before the name in every variable of a dependency. */
  function Front(dep: string): string {
    dep + "_BUILD_"
  }

  /** An entry that the store can hold. */
  predicate Storable(name: string, v: string) {
    name != "" && '\n' !in name && v in VARS
  }

  /** Some entries of the two dependencies print as the same variable. */
  ghost predicate Collide(dep: string, dep': string) {
    exists name, v, name', v' ::
      Storable(name, v) && Storable(name', v') && DepKey(dep, name, v) == DepKey(dep', name', v')
  }

  /** The front of `long` continues that of `short` on the same line. */
  predicate Continues(short: string, long: string) {
    Front(short) <= Front(long) && '\n' !in Front(long)[|Front(short)|..]
  }

  lemma DependencyVariable(dep: string, name: string, v: string)
    ensures DepKey(dep, name, v) == "OKTETO_DEPENDENCY_" + dep + "_BUILD_" + name + "_" + v
  {
  }

  lemma DepKeyParts(dep: string, name: string, v: string)
    ensures DepKey(dep, name, v) == ORIGIN + (Front(dep) + name) + "_" + v
  {
  }

  /** The last underscore separates the two parts. */
  lemma TailSplits(a: string, v: string, b: string, v': string)
    requires '_' !in v && '_' !in v' && a + "_" + v == b + "_" + v'
    ensures a == b && v == v'
  {
    LastUnderscore(a, v);
    LastUnderscore(b, v');
    var k := a + "_" + v;
    assert k[..|a|] == a && k[|a| + 1..] == v;
    assert k[..|a|] == b && k[|a| + 1..] == v';
  }

  lemma SamePrefix(o: string, a: string, b: string)
    requires o + a == o + b
    ensures a == b
  {
    assert (o + a)[|o|..] == a && (o + b)[|o|..] == b;
  }

  /** A variable of a dependency determines the known variable at its end, and front and name together. */
  lemma DepKeySplits(dep: string, name: string, v: string, dep': string, name': string, v': string)
    requires v in VARS && v' in VARS && DepKey(dep, name, v) == DepKey(dep', name', v')
    ensures Front(dep) + name == Front(dep') + name' && v == v'
  {
    VarsHaveNoUnderscore(v);
    VarsHaveNoUnderscore(v');
    DepKeyParts(dep, name, v);
    DepKeyParts(dep', name', v');
    TailSplits(ORIGIN + (Front(dep) + name), v, ORIGIN + (Front(dep') + name'), v');
    SamePrefix(ORIGIN, Front(dep) + name, Front(dep') + name');
  }

  /** Two entries of one dependency never print as the same variable. */
  lemma DepKeyInjective(dep: string, name: string, v: string, name': string, v': string)
    requires v in VARS && v' in VARS && DepKey(dep, name, v) == DepKey(dep, name', v')
    ensures name == name' && v == v'
  {
    DepKeySplits(dep, name, v, dep, name', v');
    SamePrefix(Front(dep), name, name');
  }

  /** If the front of `long` continues that of `short`, a name of `short` can take over the rest of it. */
  lemma ContinuationCollides(short: string, long: string, name: string, v: string)
    requires Continues(short, long) && Storable(name, v)
    ensures var longer := Front(long)[|Front(short)|..] + name;
      Storable(longer, v) && DepKey(short, longer, v) == DepKey(long, name, v)
  {
    var rest := Front(long)[|Front(short)|..];
    DepKeyParts(short, rest + name, v);
    DepKeyParts(long, name, v);
    assert Front(short) + (rest + name) == Front(long) + name;
  }

  lemma PrefixContinues(short: string, name: string, long: string, name': string)
    requires Front(short) + name == Front(long) + name' && '\n' !in name && |Front(short)| <= |Front(long)|
    ensures Continues(short, long)
  {
    var all := Front(short) + name;
    assert all[..|Front(short)|] == Front(short) && all[..|Front(long)|] == Front(long);
    assert forall c :: c in Front(long)[|Front(short)|..] ==> c in name;
  }

  /** Entries of two dependencies can collide exactly if the front of one dependency continues that of the other. */
  lemma CollideIffContinues(dep: string, dep': string)
    ensures Collide(dep, dep') <==> Continues(dep, dep') || Continues(dep', dep)
  {
    if Collide(dep, dep') {
      var name, v, name', v' :|
        Storable(name, v) && Storable(name', v') && DepKey(dep, name, v) == DepKey(dep', name', v');
      DepKeySplits(dep, name, v, dep', name', v');
      if |Front(dep)| <= |Front(dep')| {
        PrefixContinues(dep, name, dep', name');
      } else {
        PrefixContinues(dep', name', dep, name);
      }
    }
    if Continues(dep, dep') {
      ContinuationCollides(dep, dep', "a", "TAG");
    }
    if Continues(dep', dep) {
      ContinuationCollides(dep', dep, "a", "TAG");
    }
  }

  /** The smallest pattern: one dependency is called like another with `_BUILD_` inside. */
  lemma DependenciesCanCollide()
    ensures DepKey("A", "X_BUILD_Y", "TAG") == DepKey("A_BUILD_X", "Y", "TAG") && Collide("A", "A_BUILD_X")
  {
    assert Storable("X_BUILD_Y", "TAG") && Storable("Y", "TAG");
  }

  lemma DepKeysInjective(dep: string, nested: Nested, key: (string, string) -> string)
    requires KnownVars(nested) && forall name, v :: key(name, v) == DepKey(dep, name, v)
    ensures InjectiveOn(key, nested)
  {
    forall n, v, n', v' | Has(nested, n, v) && Has(nested, n', v') && key(n, v) == key(n', v') ensures n == n' && v == v' {
      DepKeyInjective(dep, n, v, n', v');
    }
  }

  /** The stored entries as variables of the dependency, in any order. */
  method GetDependencyBuildEnvVars(nested: Nested, dep: string) returns (flat: Env, ghost done: set<(string, string)>)
    requires KnownVars(nested)
    ensures forall name, v :: Has(nested, name, v) ==>
      DepKey(dep, name, v) in flat && flat[DepKey(dep, name, v)] == nested[name][v]
    ensures forall k :: k in flat ==> exists name, v :: Has(nested, name, v) && k == DepKey(dep, name, v)
    ensures Entries(done, nested) && |flat| == |done|
  {
    var key := (name, v) => DepKey(dep, name, v);
    DepKeysInjective(dep, nested, key);
    flat, done := Flatten(nested, key);
    forall name, v | Has(nested, name, v)
      ensures DepKey(dep, name, v) in flat && flat[DepKey(dep, name, v)] == nested[name][v]
    {
      assert key(name, v) in flat;
    }
    forall k | k in flat ensures exists name, v :: Has(nested, name, v) && k == DepKey(dep, name, v) {
      var name, v :| Has(nested, name, v) && key(name, v) == k;
      assert k == DepKey(dep, name, v);
    }
  }

  /** From the environment of a build to the variables of whoever depends on it: every build variable
      arrives under its dependency name with its value, and there are no others. */
  method EndToEnd(env: Env, dep: string) returns (flat: Env)
    ensures forall k :: k in env && Parse(k).Some? ==> Arrives(env, flat, dep, k)
    ensures |flat| == |ParsedKeys(env, Parse)|
  {
    var nested, entries := SetBuildEnvVars(env);
    ghost var done;
    flat, done := GetDependencyBuildEnvVars(nested, dep);
    assert entries == done;
  }

  /** The build variable `k` is found under its dependency name, with its value. */
  ghost predicate Arrives(env: Env, flat: Env, dep: string, k: string)
    requires k in env && Parse(k).Some?
  {
    var d := DepKey(dep, Parse(k).value.0, Parse(k).value.1);
    d in flat && flat[d] == env[k]
  }
}
