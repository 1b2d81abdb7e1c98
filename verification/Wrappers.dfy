/** Failure-carrying results, used wherever the C++ code throws or returns a null pointer. */
module Wrappers {
  datatype Option<+T> = None | Some(value: T)

  datatype Result<+T, +E> = Ok(value: T) | Err(error: E)

  /** f applied to every element of xs in order, stopping at the first failure. */
  function Traverse<A, B, E>(f: A -> Result<B, E>, xs: seq<A>): (r: Result<seq<B>, E>)
    ensures r.Ok? ==> |r.value| == |xs|
  {
    if xs == [] then Ok([])
    else match f(xs[0])
      case Err(e) => Err(e)
      case Ok(y) => Prepend([y], Traverse(f, xs[1..]))
  }

  function Prepend<B, E>(ys: seq<B>, r: Result<seq<B>, E>): Result<seq<B>, E> {
    match r
    case Err(e) => Err(e)
    case Ok(zs) => Ok(ys + zs)
  }

  lemma TraverseOne<A, B, E>(f: A -> Result<B, E>, x: A)
    ensures Traverse(f, [x]) == match f(x) case Err(e) => Err(e) case Ok(y) => Ok([y])
  {
    assert [x][1..] == [];
    if f(x).Ok? {
      assert [f(x).value] + [] == [f(x).value];
    }
  }

  lemma TraverseCons<A, B, E>(f: A -> Result<B, E>, x: A, xs: seq<A>, y: B, ys: seq<B>)
    requires f(x) == Ok(y) && Traverse(f, xs) == Ok(ys)
    ensures Traverse(f, [x] + xs) == Ok([y] + ys)
  {
    assert ([x] + xs)[1..] == xs;
  }

  lemma TraverseMore<A, B, E>(f: A -> Result<B, E>, x: A, xs: seq<A>, ys: seq<B>)
    requires ys != [] && f(x) == Ok(ys[0]) && Traverse(f, xs) == Ok(ys[1..])
    ensures Traverse(f, [x] + xs) == Ok(ys)
  {
    TraverseCons(f, x, xs, ys[0], ys[1..]);
    assert [ys[0]] + ys[1..] == ys;
  }

  /** A traversal succeeds exactly when every element does, and then holds each result in place. */
  lemma {:induction false} TraverseOk<A, B, E>(f: A -> Result<B, E>, xs: seq<A>)
    ensures Traverse(f, xs).Ok? <==> forall k :: 0 <= k < |xs| ==> f(xs[k]).Ok?
    ensures Traverse(f, xs).Ok? ==>
              forall k :: 0 <= k < |xs| ==> f(xs[k]) == Ok(Traverse(f, xs).value[k])
  {
    if xs != [] {
      TraverseOk(f, xs[1..]);
      assert forall k :: 1 <= k < |xs| ==> xs[k] == xs[1..][k - 1];
      if forall k :: 0 <= k < |xs| ==> f(xs[k]).Ok? {
        assert forall k :: 0 <= k < |xs[1..]| ==> xs[1..][k] == xs[k + 1];
      }
    }
  }

  /** A failing traversal reports the failure of the first element that has one. */
  lemma {:induction false} TraverseErr<A, B, E>(f: A -> Result<B, E>, xs: seq<A>, k: nat)
    requires k < |xs| && f(xs[k]).Err?
    requires forall l :: 0 <= l < k ==> f(xs[l]).Ok?
    ensures Traverse(f, xs) == Err(f(xs[k]).error)
  {
    if k > 0 {
      assert f(xs[0]).Ok?;
      assert forall l :: 0 <= l < k - 1 ==> xs[1..][l] == xs[l + 1];
      TraverseErr(f, xs[1..], k - 1);
    }
  }
}
