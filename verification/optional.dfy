/** The optional value used wherever the source may hold `undefined` or `null`. */
module Optional {

  datatype Option<+T> = None | Some(value: T) {

    /** The held value, or `default` when there is none (JavaScript's `x ?? default`). */
    function GetOr(default: T): T {
      match this
      case Some(v) => v
      case None => default
    }
  }

  /** Applies a fallible conversion to every item: all results when every item
      converts, and nothing when any one of them fails. */
  function MapAll<A, B>(xs: seq<A>, f: A -> Option<B>): (r: Option<seq<B>>)
    ensures r.Some? <==> forall i :: 0 <= i < |xs| ==> f(xs[i]).Some?
    ensures r.Some? ==> |r.value| == |xs| && forall i :: 0 <= i < |xs| ==> f(xs[i]) == Some(r.value[i])
  {
    if |xs| == 0 then Some([])
    else
      match f(xs[0])
      case None => None
      case Some(y) =>
        match MapAll(xs[1..], f)
        case None => None
        case Some(ys) =>
          assert forall i :: 1 <= i < |xs| ==> xs[i] == xs[1..][i - 1];
          Some([y] + ys)
  }

  /** `xs.map(f)` with the absent results dropped, as React drops a `null`
      child: the present results, in the order of their items. */
  function Somes<A, B>(xs: seq<A>, f: A -> Option<B>): (r: seq<B>)
    ensures |r| <= |xs|
    ensures (forall i :: 0 <= i < |xs| ==> f(xs[i]).Some?) ==> |r| == |xs|
    ensures (forall i :: 0 <= i < |xs| ==> f(xs[i]).None?) ==> r == []
  {
    if |xs| == 0 then []
    else
      var rest := Somes(xs[1..], f);
      assert forall i :: 0 <= i < |xs[1..]| ==> xs[1..][i] == xs[i + 1];
      match f(xs[0])
      case None => rest
      case Some(y) => [y] + rest
  }

  /** A result is kept exactly when some item yields it. */
  lemma {:induction false} SomesMembers<A, B>(xs: seq<A>, f: A -> Option<B>)
    ensures forall y :: y in Somes(xs, f) <==> exists i :: 0 <= i < |xs| && f(xs[i]) == Some(y)
  {
    if |xs| > 0 {
      var tail := xs[1..];
      SomesMembers(tail, f);
      assert forall i :: 1 <= i < |xs| ==> xs[i] == tail[i - 1];
      assert forall i :: 0 <= i < |tail| ==> tail[i] == xs[i + 1];
    }
  }

  /** One item gives its result when it has one and nothing otherwise. */
  lemma SomesSingle<A, B>(x: A, f: A -> Option<B>)
    ensures Somes([x], f) == if f(x).Some? then [f(x).value] else []
  {
    assert [x][1..] == [];
  }

  /** The results of a concatenation are the results of its parts, one after
      the other; with `SomesSingle` this fixes the results in item order. */
  lemma {:induction false} SomesSplit<A, B>(xs: seq<A>, ys: seq<A>, f: A -> Option<B>)
    ensures Somes(xs + ys, f) == Somes(xs, f) + Somes(ys, f)
    decreases |xs|
  {
    if |xs| == 0 {
      assert xs + ys == ys;
    } else {
      var z := xs + ys;
      assert z[0] == xs[0] && z[1..] == xs[1..] + ys;
      SomesSplit(xs[1..], ys, f);
    }
  }
}
