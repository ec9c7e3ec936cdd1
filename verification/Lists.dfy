/** Lists filtered and mapped in one pass. */
module Lists {
  import opened Options

  /** Applies `f` to every element and keeps what it yields, in order. */
  function FilterMap<T, U>(f: T -> Option<U>, s: seq<T>): seq<U> {
    if s == [] then [] else Kept(f(s[0])) + FilterMap(f, s[1..])
  }

  function Kept<U>(r: Option<U>): seq<U> {
    if r.Some? then [r.value] else []
  }

  lemma {:induction false} FilterMapConcat<T, U>(f: T -> Option<U>, a: seq<T>, b: seq<T>)
    ensures FilterMap(f, a + b) == FilterMap(f, a) + FilterMap(f, b)
  {
    if a == [] {
      assert a + b == b;
    } else {
      assert (a + b)[1..] == a[1..] + b;
      FilterMapConcat(f, a[1..], b);
      var x, y := FilterMap(f, a[1..]), FilterMap(f, b);
      assert Kept(f(a[0])) + (x + y) == (Kept(f(a[0])) + x) + y;
    }
  }

  lemma {:induction false} FilterMapFixed<T>(f: T -> Option<T>, s: seq<T>)
    requires forall i :: 0 <= i < |s| ==> f(s[i]) == Some(s[i])
    ensures FilterMap(f, s) == s
  {
    if s != [] {
      FilterMapFixed(f, s[1..]);
    }
  }

  /** Every kept element comes from an element of the input. */
  lemma {:induction false} FilterMapSource<T, U>(f: T -> Option<U>, s: seq<T>, i: nat) returns (k: nat)
    requires i < |FilterMap(f, s)|
    ensures k < |s| && f(s[k]) == Some(FilterMap(f, s)[i])
  {
    var head := |Kept(f(s[0]))|;
    if i < head {
      k := 0;
    } else {
      k := FilterMapSource(f, s[1..], i - head);
      k := k + 1;
    }
  }

  /** Every element that yields something is in the output. */
  lemma {:induction false} FilterMapTarget<T, U>(f: T -> Option<U>, s: seq<T>, k: nat) returns (i: nat)
    requires k < |s| && f(s[k]).Some?
    ensures i < |FilterMap(f, s)| && FilterMap(f, s)[i] == f(s[k]).value
  {
    if k == 0 {
      i := 0;
    } else {
      i := FilterMapTarget(f, s[1..], k - 1);
      i := i + |Kept(f(s[0]))|;
    }
  }
}
