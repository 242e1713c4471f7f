/** Keeping, in order, the values a partial conversion yields for the
    elements of a sequence: Rust's `for x in xs { if let Ok(v) = f(x) { push(v) } }`. */
module Filtering {
  import opened Results

  /** What one element contributes: its value, or nothing. */
  function Kept<B>(o: Option<B>): (r: seq<B>)
    ensures |r| <= 1
    ensures |r| == 1 <==> o.Some?
  {
    match o
    case Some(v) => [v]
    case None => []
  }

  /** The values `f` yields for the elements of `xs`, in order. */
  function FilterMap<A, B>(xs: seq<A>, f: A -> Option<B>): (r: seq<B>)
    ensures |r| <= |xs|
    decreases |xs|
  {
    if |xs| == 0 then [] else FilterMap(xs[..|xs| - 1], f) + Kept(f(xs[|xs| - 1]))
  }

  /** The values of a concatenation are the concatenation of the values. */
  lemma {:induction false} FilterMapAppend<A, B>(a: seq<A>, b: seq<A>, f: A -> Option<B>)
    ensures FilterMap(a + b, f) == FilterMap(a, f) + FilterMap(b, f)
    decreases |b|
  {
    if |b| == 0 {
      assert a + b == a;
    } else {
      var b' := b[..|b| - 1];
      assert (a + b)[..|a + b| - 1] == a + b';
      assert (a + b)[|a + b| - 1] == b[|b| - 1];
      FilterMapAppend(a, b', f);
    }
  }

  lemma FilterMapOne<A, B>(x: A, f: A -> Option<B>)
    ensures FilterMap([x], f) == Kept(f(x))
  {
    assert [x][..0] == [];
  }

  /** A value is kept exactly when some element yields it. */
  lemma {:induction false} FilterMapMembership<A, B>(xs: seq<A>, f: A -> Option<B>, v: B)
    ensures v in FilterMap(xs, f) <==> exists i :: 0 <= i < |xs| && f(xs[i]) == Some(v)
    decreases |xs|
  {
    if |xs| > 0 {
      var n := |xs| - 1;
      var init := xs[..n];
      FilterMapMembership(init, f, v);
      assert v in Kept(f(xs[n])) <==> f(xs[n]) == Some(v);
      if v in FilterMap(xs, f) && v in FilterMap(init, f) {
        var i :| 0 <= i < |init| && f(init[i]) == Some(v);
        assert xs[i] == init[i];
      }
      if exists i :: 0 <= i < |xs| && f(xs[i]) == Some(v) {
        var i :| 0 <= i < |xs| && f(xs[i]) == Some(v);
        if i < n {
          assert init[i] == xs[i];
        }
      }
    }
  }

  /** Every element is kept exactly when every element yields a value. */
  lemma {:induction false} FilterMapKeepsAll<A, B>(xs: seq<A>, f: A -> Option<B>)
    ensures |FilterMap(xs, f)| == |xs| <==> forall i :: 0 <= i < |xs| ==> f(xs[i]).Some?
    decreases |xs|
  {
    if |xs| > 0 {
      var n := |xs| - 1;
      var init := xs[..n];
      FilterMapKeepsAll(init, f);
      if forall i :: 0 <= i < |xs| ==> f(xs[i]).Some? {
        forall i | 0 <= i < n
          ensures f(init[i]).Some?
        {
          assert init[i] == xs[i];
        }
      }
      if |FilterMap(xs, f)| == |xs| {
        forall i | 0 <= i < |xs|
          ensures f(xs[i]).Some?
        {
          if i < n {
            assert init[i] == xs[i];
          }
        }
      }
    }
  }
}
