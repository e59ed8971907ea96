/** The Option type that stands for Rust's `Option<T>`, and collecting the present values of a sequence. */
module Wrappers {

  datatype Option<+T> = None | Some(value: T) {

    /** Rust's `unwrap_or`: the value, or `default` when there is none. */
    function GetOr(default: T): T {
      match this
      case Some(v) => v
      case None => default
    }

    /** The value as a list: one element, or none. */
    function ToSeq(): (s: seq<T>)
      ensures |s| <= 1
      ensures s == [] <==> None?
      ensures Some? ==> s == [value]
    {
      match this
      case Some(v) => [v]
      case None => []
    }
  }

  /**
   * The values `f` gives for the elements of `xs` that it does not skip,
   * in order: a loop that pushes each present value and `continue`s past
   * the others.
   */
  function FilterMap<A, B>(f: A -> Option<B>, xs: seq<A>): (ys: seq<B>)
    ensures |ys| <= |xs|
  {
    if xs == [] then []
    else FilterMap(f, xs[..|xs| - 1]) + f(xs[|xs| - 1]).ToSeq()
  }

  /** One more element adds its value, if present. */
  lemma FilterMapStep<A, B>(f: A -> Option<B>, xs: seq<A>, i: nat)
    requires i < |xs|
    ensures FilterMap(f, xs[..i + 1]) == FilterMap(f, xs[..i]) + f(xs[i]).ToSeq()
  {
    assert xs[..i + 1][..i] == xs[..i];
  }

  /** Elements are handled one by one: two runs of elements give concatenated results. */
  lemma {:induction false} FilterMapAppend<A, B>(f: A -> Option<B>, a: seq<A>, b: seq<A>)
    ensures FilterMap(f, a + b) == FilterMap(f, a) + FilterMap(f, b)
    decreases |b|
  {
    if b == [] {
      assert a + b == a;
    } else {
      var init := b[..|b| - 1];
      assert (a + b)[..|a + b| - 1] == a + init;
      FilterMapAppend(f, a, init);
    }
  }

  /** Nothing is collected exactly when every element is skipped. */
  lemma {:induction false} FilterMapEmpty<A, B>(f: A -> Option<B>, xs: seq<A>)
    ensures FilterMap(f, xs) == [] <==> forall k :: 0 <= k < |xs| ==> f(xs[k]).None?
  {
    if xs != [] {
      var init := xs[..|xs| - 1];
      FilterMapEmpty(f, init);
      if forall k :: 0 <= k < |init| ==> f(init[k]).None? {
        forall k | 0 <= k < |xs| - 1 ensures f(xs[k]).None? {
          assert xs[k] == init[k];
        }
      } else {
        var k :| 0 <= k < |init| && f(init[k]).Some?;
        assert xs[k] == init[k];
      }
    }
  }

  /** Every collected value is the value of some element. */
  lemma {:induction false} FilterMapFrom<A, B>(f: A -> Option<B>, xs: seq<A>, k: nat)
    requires k < |FilterMap(f, xs)|
    ensures exists j :: 0 <= j < |xs| && f(xs[j]) == Some(FilterMap(f, xs)[k])
  {
    var init := xs[..|xs| - 1];
    var ys := FilterMap(f, xs);
    if k < |FilterMap(f, init)| {
      FilterMapFrom(f, init, k);
      var j :| 0 <= j < |init| && f(init[j]) == Some(FilterMap(f, init)[k]);
      assert xs[j] == init[j];
    } else {
      assert f(xs[|xs| - 1]) == Some(ys[k]);
    }
  }
}
