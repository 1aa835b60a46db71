/** Optional values: `None` stands for JavaScript's `undefined` (or `null`, where noted). */
module Wrappers {

  datatype Option<+T> = None | Some(value: T)

  /** `f` applied to every element, or `None` as soon as one of them gives `None`. */
  function AllOf<A, B>(xs: seq<A>, f: A -> Option<B>): (r: Option<seq<B>>)
    ensures r.Some? ==> |r.value| == |xs|
  {
    if xs == [] then Some([])
    else
      match f(xs[0])
      case None => None
      case Some(y) =>
        match AllOf(xs[1..], f)
        case None => None
        case Some(ys) => Some([y] + ys)
  }

  /** All or nothing: the result is `None` exactly when some element gives `None`. */
  lemma {:induction false} AllOfFails<A, B>(xs: seq<A>, f: A -> Option<B>)
    ensures AllOf(xs, f).None? <==> exists i :: 0 <= i < |xs| && f(xs[i]).None?
  {
    if xs != [] {
      AllOfFails(xs[1..], f);
      if exists i :: 0 <= i < |xs| && f(xs[i]).None? {
        var i :| 0 <= i < |xs| && f(xs[i]).None?;
        if i > 0 {
          assert f(xs[1..][i - 1]).None?;
        }
      }
      if exists i :: 0 <= i < |xs| - 1 && f(xs[1..][i]).None? {
        var i :| 0 <= i < |xs| - 1 && f(xs[1..][i]).None?;
        assert f(xs[i + 1]).None?;
      }
    }
  }

  /** A result holds, in order, what `f` gives for every element. */
  lemma {:induction false} AllOfAt<A, B>(xs: seq<A>, f: A -> Option<B>, i: nat)
    requires AllOf(xs, f).Some? && i < |xs|
    ensures f(xs[i]) == Some(AllOf(xs, f).value[i])
  {
    if i > 0 {
      AllOfAt(xs[1..], f, i - 1);
    }
  }

  /** On one element, the result is what `f` gives for it. */
  lemma AllOfOne<A, B>(x: A, f: A -> Option<B>)
    ensures AllOf([x], f) == if f(x).Some? then Some([f(x).value]) else None
  {
    assert [x][1..] == [];
    assert AllOf([x][1..], f) == Some([]);
    if f(x).Some? {
      assert [f(x).value] + [] == [f(x).value];
    }
  }
}
