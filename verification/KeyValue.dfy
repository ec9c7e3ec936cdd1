/** `KEY=VALUE` entries: printing, splitting at the first `=`, and lists of them
    (cmd/pipeline/deploy.go). */
module KeyValue {
  import opened Options

  datatype Variable = Variable(name: string, value: string)

  function Print(v: Variable): string {
    v.name + "=" + v.value
  }

  /** Split in two at the first `=`. */
  function Split(s: string): (r: Option<Variable>)
    ensures r.None? <==> '=' !in s
    ensures r.Some? ==> Print(r.value) == s && '=' !in r.value.name
  {
    if s == [] then None
    else if s[0] == '=' then Some(Variable("", s[1..]))
    else
      var rest := Split(s[1..]);
      if rest.None? then None else Some(Variable([s[0]] + rest.value.name, rest.value.value))
  }

  /** Splitting undoes printing exactly when the name has no `=`; the value may have any. */
  lemma {:induction false} SplitPrint(v: Variable)
    ensures Split(Print(v)) == Some(v) <==> '=' !in v.name
    decreases |v.name|
  {
    if v.name == [] {
      assert Print(v)[1..] == v.value;
    } else {
      var rest := Variable(v.name[1..], v.value);
      assert Print(v)[1..] == Print(rest);
      SplitPrint(rest);
      assert v.name == [v.name[0]] + rest.name;
    }
  }

  function PrintAll(vars: seq<Variable>): seq<string> {
    seq(|vars|, i requires 0 <= i < |vars| => Print(vars[i]))
  }

  /** One entry without `=` rejects the whole list; an accepted list is what its variables print as. */
  method ParseVariables(list: seq<string>) returns (r: Option<seq<Variable>>)
    ensures r.Some? <==> forall i :: 0 <= i < |list| ==> '=' in list[i]
    ensures r.Some? ==> PrintAll(r.value) == list
    ensures r.Some? ==> forall i :: 0 <= i < |r.value| ==> '=' !in r.value[i].name
  {
    var vars: seq<Variable> := [];
    for i := 0 to |list|
      invariant |vars| == i
      invariant forall k :: 0 <= k < i ==> '=' in list[k] && Print(vars[k]) == list[k] && '=' !in vars[k].name
    {
      var kv := Split(list[i]);
      if kv.None? {
        return None;
      }
      vars := vars + [kv.value];
    }
    r := Some(vars);
  }

  method PrintVariables(vars: seq<Variable>) returns (list: seq<string>)
    ensures list == PrintAll(vars)
  {
    list := [];
    for i := 0 to |vars|
      invariant list == PrintAll(vars[..i])
    {
      list := list + [Print(vars[i])];
    }
    assert vars[..|vars|] == vars;
  }

  /** Printing a list and parsing it again gives the list back exactly when no name has an `=`. */
  method RoundTrip(vars: seq<Variable>) returns (r: Option<seq<Variable>>)
    ensures r.Some?
    ensures r.value == vars <==> forall i :: 0 <= i < |vars| ==> '=' !in vars[i].name
  {
    var list := PrintVariables(vars);
    assert forall i :: 0 <= i < |vars| ==> list[i][|vars[i].name|] == '=';
    r := ParseVariables(list);
    forall i | 0 <= i < |vars| ensures r.value[i] == vars[i] <==> '=' !in vars[i].name {
      assert PrintAll(r.value)[i] == list[i] == PrintAll(vars)[i];
      SplitPrint(r.value[i]);
      SplitPrint(vars[i]);
    }
  }
}
