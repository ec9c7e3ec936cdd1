/** Turning a flat map into a nested one along a partial parse of its keys, and back along a printer.
    Maps are walked in any order. */
module Regroup {
  import opened Options

  ghost predicate Has<N, V, X>(nested: map<N, map<V, X>>, n: N, v: V) {
    n in nested && v in nested[n]
  }

  /** `entries` are the pairs that `nested` has. */
  ghost predicate Entries<N(!new), V(!new), X>(entries: set<(N, V)>, nested: map<N, map<V, X>>) {
    forall e :: e in entries <==> Has(nested, e.0, e.1)
  }

  ghost predicate InjectiveParse<K(!new), N, V>(parse: K -> Option<(N, V)>) {
    forall k, k' :: parse(k).Some? && parse(k) == parse(k') ==> k == k'
  }

  /** `nested` holds exactly the parsed entries of `flat`, with their values, and no empty group. */
  ghost predicate Groups<K(!new), N(!new), V(!new), X>(nested: map<N, map<V, X>>, flat: map<K, X>, parse: K -> Option<(N, V)>) {
    && (forall k :: k in flat && parse(k).Some? ==>
          Has(nested, parse(k).value.0, parse(k).value.1) && nested[parse(k).value.0][parse(k).value.1] == flat[k])
    && (forall n, v :: Has(nested, n, v) ==> exists k :: k in flat && parse(k) == Some((n, v)))
    && (forall n :: n in nested ==> nested[n] != map[])
  }

  function Put<N, V, X>(nested: map<N, map<V, X>>, n: N, v: V, x: X): map<N, map<V, X>> {
    nested[n := (if n in nested then nested[n] else map[])[v := x]]
  }

  lemma HasPut<N, V, X>(nested: map<N, map<V, X>>, n: N, v: V, x: X, n': N, v': V)
    ensures Has(Put(nested, n, v, x), n', v') <==> Has(nested, n', v') || (n' == n && v' == v)
    ensures Put(nested, n, v, x)[n][v] == x
    ensures Has(nested, n', v') && !(n' == n && v' == v) ==> Put(nested, n, v, x)[n'][v'] == nested[n'][v']
  {
  }

  ghost function ParsedKeys<K, N, V, X>(flat: map<K, X>, parse: K -> Option<(N, V)>): set<K> {
    set k | k in flat && parse(k).Some?
  }

  /** One more key. */
  lemma GroupsNext<K(!new), N(!new), V(!new), X>(
    nested: map<N, map<V, X>>, flat: map<K, X>, parse: K -> Option<(N, V)>, k: K, x: X)
    requires Groups(nested, flat, parse) && InjectiveParse(parse) && k !in flat
    ensures parse(k).None? ==> Groups(nested, flat[k := x], parse)
    ensures parse(k).Some? ==> !Has(nested, parse(k).value.0, parse(k).value.1)
    ensures parse(k).Some? ==> Groups(Put(nested, parse(k).value.0, parse(k).value.1, x), flat[k := x], parse)
  {
    var flat' := flat[k := x];
    if parse(k).None? {
      forall n, v | Has(nested, n, v) ensures exists j :: j in flat' && parse(j) == Some((n, v)) {
        var j :| j in flat && parse(j) == Some((n, v));
        assert j in flat';
      }
    } else {
      var (n0, v0) := parse(k).value;
      var nested' := Put(nested, n0, v0, x);
      forall n, v | Has(nested', n, v) ensures exists j :: j in flat' && parse(j) == Some((n, v)) {
        HasPut(nested, n0, v0, x, n, v);
        if n == n0 && v == v0 {
          assert k in flat' && parse(k) == Some((n, v));
        } else {
          var j :| j in flat && parse(j) == Some((n, v));
          assert j in flat';
        }
      }
      forall j | j in flat' && parse(j).Some?
        ensures Has(nested', parse(j).value.0, parse(j).value.1) && nested'[parse(j).value.0][parse(j).value.1] == flat'[j]
      {
        HasPut(nested, n0, v0, x, parse(j).value.0, parse(j).value.1);
        assert j != k ==> parse(j) != parse(k);
      }
      assert v0 in nested'[n0];
    }
  }

  lemma EntriesNext<N(!new), V(!new), X>(entries: set<(N, V)>, nested: map<N, map<V, X>>, n: N, v: V, x: X)
    requires Entries(entries, nested) && !Has(nested, n, v)
    ensures Entries(entries + {(n, v)}, Put(nested, n, v, x)) && |entries + {(n, v)}| == |entries| + 1
  {
  }

  lemma ParsedKeysNext<K, N, V, X>(flat: map<K, X>, parse: K -> Option<(N, V)>, k: K, x: X)
    requires k !in flat
    ensures parse(k).None? ==> ParsedKeys(flat[k := x], parse) == ParsedKeys(flat, parse)
    ensures parse(k).Some? ==> |ParsedKeys(flat[k := x], parse)| == |ParsedKeys(flat, parse)| + 1
  {
    if parse(k).Some? {
      assert ParsedKeys(flat[k := x], parse) == ParsedKeys(flat, parse) + {k};
    }
  }

  /** `nested` and `entries` are what the loop has made of `done`. */
  ghost predicate Grouped<K(!new), N(!new), V(!new), X>(
    nested: map<N, map<V, X>>, done: map<K, X>, parse: K -> Option<(N, V)>, entries: set<(N, V)>)
  {
    Groups(nested, done, parse) && Entries(entries, nested) && |entries| == |ParsedKeys(done, parse)|
  }

  lemma GroupedNext<K(!new), N(!new), V(!new), X>(
    nested: map<N, map<V, X>>, done: map<K, X>, parse: K -> Option<(N, V)>, entries: set<(N, V)>, k: K, x: X)
    requires Grouped(nested, done, parse, entries) && InjectiveParse(parse) && k !in done
    ensures parse(k).None? ==> Grouped(nested, done[k := x], parse, entries)
    ensures parse(k).Some? ==>
      Grouped(Put(nested, parse(k).value.0, parse(k).value.1, x), done[k := x], parse, entries + {parse(k).value})
  {
    GroupsNext(nested, done, parse, k, x);
    ParsedKeysNext(done, parse, k, x);
    if parse(k).Some? {
      EntriesNext(entries, nested, parse(k).value.0, parse(k).value.1, x);
      assert parse(k).value == (parse(k).value.0, parse(k).value.1);
    }
  }

  /** Groups every entry whose key parses; none is lost and none is added. */
  method Group<K(==, !new), N(==, !new), V(==, !new), X>(flat: map<K, X>, parse: K -> Option<(N, V)>)
    returns (nested: map<N, map<V, X>>, ghost entries: set<(N, V)>)
    requires InjectiveParse(parse)
    ensures Groups(nested, flat, parse)
    ensures Entries(entries, nested) && |entries| == |ParsedKeys(flat, parse)|
  {
    nested, entries := map[], {};
    var rest := flat.Keys;
    ghost var done: map<K, X> := map[];
    while rest != {}
      invariant rest <= flat.Keys && done.Keys == flat.Keys - rest && forall k :: k in done ==> done[k] == flat[k]
      invariant Grouped(nested, done, parse, entries)
    {
      var k :| k in rest;
      GroupedNext(nested, done, parse, entries, k, flat[k]);
      var p := parse(k);
      if p.Some? {
        nested, entries := Put(nested, p.value.0, p.value.1, flat[k]), entries + {p.value};
      }
      rest, done := rest - {k}, done[k := flat[k]];
    }
    assert done == flat;
  }

  /** There is only one way to group, so the order of iteration cannot matter. */
  lemma GroupsUnique<K(!new), N(!new), V(!new), X>(
    a: map<N, map<V, X>>, b: map<N, map<V, X>>, flat: map<K, X>, parse: K -> Option<(N, V)>)
    requires Groups(a, flat, parse) && Groups(b, flat, parse)
    ensures a == b
  {
    forall n ensures n in a ==> n in b && a[n] == b[n] {
      GroupIncluded(a, b, flat, parse, n);
    }
    forall n ensures n in b ==> n in a {
      GroupIncluded(b, a, flat, parse, n);
    }
  }

  lemma GroupIncluded<K(!new), N(!new), V(!new), X>(
    a: map<N, map<V, X>>, b: map<N, map<V, X>>, flat: map<K, X>, parse: K -> Option<(N, V)>, n: N)
    requires Groups(a, flat, parse) && Groups(b, flat, parse)
    ensures n in a ==> n in b && a[n] == b[n]
  {
    if n in a {
      forall v | v in a[n] ensures Has(b, n, v) && a[n][v] == b[n][v] {
        assert Has(a, n, v);
        var k :| k in flat && parse(k) == Some((n, v));
      }
      var v :| v in a[n];
      assert Has(b, n, v);
      forall w | w in b[n] ensures w in a[n] {
        assert Has(b, n, w);
        var k :| k in flat && parse(k) == Some((n, w));
      }
    }
  }

  // ----- and back -----

  ghost predicate InjectiveOn<N(!new), V(!new), X, K>(key: (N, V) -> K, nested: map<N, map<V, X>>) {
    forall n, v, n', v' :: Has(nested, n, v) && Has(nested, n', v') && key(n, v) == key(n', v') ==> n == n' && v == v'
  }

  /** `flat` holds exactly the entries listed in `done`, under their printed keys; `origin` says which
      entry is behind a key. */
  ghost predicate FlatPart<N(!new), V(!new), X, K(!new)>(
    flat: map<K, X>, nested: map<N, map<V, X>>, key: (N, V) -> K, done: set<(N, V)>, origin: map<K, (N, V)>)
  {
    && flat.Keys == origin.Keys && |flat| == |done|
    && (forall k :: k in origin ==> origin[k] in done && key(origin[k].0, origin[k].1) == k)
    && (forall e :: e in done ==> key(e.0, e.1) in origin && origin[key(e.0, e.1)] == e)
    && (forall e :: e in done ==> Has(nested, e.0, e.1) && flat[key(e.0, e.1)] == nested[e.0][e.1])
  }

  lemma FreshKey<N(!new), V(!new), X, K(!new)>(
    flat: map<K, X>, nested: map<N, map<V, X>>, key: (N, V) -> K, done: set<(N, V)>, origin: map<K, (N, V)>, n: N, v: V)
    requires FlatPart(flat, nested, key, done, origin) && InjectiveOn(key, nested)
    requires Has(nested, n, v) && (n, v) !in done
    ensures key(n, v) !in origin
  {
  }

  lemma MapGrows<K, X>(m: map<K, X>, k: K, x: X)
    requires k !in m
    ensures |m[k := x]| == |m| + 1
  {
    assert m[k := x].Keys == m.Keys + {k};
  }

  lemma FlatNext<N(!new), V(!new), X, K(!new)>(
    flat: map<K, X>, nested: map<N, map<V, X>>, key: (N, V) -> K, done: set<(N, V)>, origin: map<K, (N, V)>, n: N, v: V)
    requires FlatPart(flat, nested, key, done, origin) && InjectiveOn(key, nested)
    requires Has(nested, n, v) && (n, v) !in done
    ensures FlatPart(flat[key(n, v) := nested[n][v]], nested, key, done + {(n, v)}, origin[key(n, v) := (n, v)])
  {
    FreshKey(flat, nested, key, done, origin, n, v);
    MapGrows(flat, key(n, v), nested[n][v]);
    FlatExtends(flat, nested, key, done, origin, n, v);
  }

  lemma FlatExtends<N(!new), V(!new), X, K(!new)>(
    flat: map<K, X>, nested: map<N, map<V, X>>, key: (N, V) -> K, done: set<(N, V)>, origin: map<K, (N, V)>, n: N, v: V)
    requires FlatPart(flat, nested, key, done, origin) && key(n, v) !in origin && (n, v) !in done
    requires Has(nested, n, v) && |flat[key(n, v) := nested[n][v]]| == |flat| + 1
    ensures FlatPart(flat[key(n, v) := nested[n][v]], nested, key, done + {(n, v)}, origin[key(n, v) := (n, v)])
  {
  }

  /** `flat` holds exactly the entries of `nested` under their printed keys. */
  ghost predicate Flattens<N(!new), V(!new), X, K(!new)>(flat: map<K, X>, nested: map<N, map<V, X>>, key: (N, V) -> K) {
    && (forall n, v :: Has(nested, n, v) ==> key(n, v) in flat && flat[key(n, v)] == nested[n][v])
    && (forall k :: k in flat ==> exists n, v :: Has(nested, n, v) && key(n, v) == k)
  }

  lemma FlatAll<N(!new), V(!new), X, K(!new)>(
    flat: map<K, X>, nested: map<N, map<V, X>>, key: (N, V) -> K, done: set<(N, V)>, origin: map<K, (N, V)>)
    requires FlatPart(flat, nested, key, done, origin) && Entries(done, nested)
    ensures Flattens(flat, nested, key)
  {
    forall n, v | Has(nested, n, v) ensures key(n, v) in flat && flat[key(n, v)] == nested[n][v] {
      assert (n, v) in done;
    }
    forall k | k in flat ensures exists n, v :: Has(nested, n, v) && key(n, v) == k {
      assert Has(nested, origin[k].0, origin[k].1);
    }
  }

  /** Prints every entry under its own key; none is lost and none is added. */
  method Flatten<N(==, !new), V(==, !new), X, K(==, !new)>(nested: map<N, map<V, X>>, key: (N, V) -> K)
    returns (flat: map<K, X>, ghost done: set<(N, V)>)
    requires InjectiveOn(key, nested)
    ensures Flattens(flat, nested, key)
    ensures Entries(done, nested) && |flat| == |done|
  {
    flat, done := map[], {};
    ghost var origin: map<K, (N, V)> := map[];
    var groups := nested.Keys;
    while groups != {}
      invariant groups <= nested.Keys && FlatPart(flat, nested, key, done, origin)
      invariant forall n, v :: Has(nested, n, v) ==> ((n, v) in done <==> n !in groups)
    {
      var n :| n in groups;
      flat, done, origin := FlattenGroup(nested, key, n, flat, done, origin);
      groups := groups - {n};
    }
    FlatAll(flat, nested, key, done, origin);
  }

  /** The inner loop: one group. */
  method FlattenGroup<N(==, !new), V(==, !new), X, K(==, !new)>(
    nested: map<N, map<V, X>>, key: (N, V) -> K, n: N, flat: map<K, X>, ghost done: set<(N, V)>, ghost origin: map<K, (N, V)>)
    returns (flat': map<K, X>, ghost done': set<(N, V)>, ghost origin': map<K, (N, V)>)
    requires InjectiveOn(key, nested) && FlatPart(flat, nested, key, done, origin)
    requires n in nested && forall v :: (n, v) !in done
    ensures FlatPart(flat', nested, key, done', origin')
    ensures forall e :: e in done' <==> e in done || (e.0 == n && e.1 in nested[n])
  {
    flat', done', origin' := flat, done, origin;
    var vars := nested[n].Keys;
    while vars != {}
      invariant vars <= nested[n].Keys && FlatPart(flat', nested, key, done', origin')
      invariant forall e :: e in done' <==> e in done || (e.0 == n && e.1 in nested[n] && e.1 !in vars)
    {
      var v :| v in vars;
      FlatNext(flat', nested, key, done', origin', n, v);
      flat' := flat'[key(n, v) := nested[n][v]];
      origin' := origin'[key(n, v) := (n, v)];
      done', vars := done' + {(n, v)}, vars - {v};
    }
  }
}
