/** Generic list builders over sequences, with the facts the models use about them. */
module Lists {
  import opened Wrappers

  /** `[]` or the one value. */
  function OptionToSeq<T>(o: Option<T>): (r: seq<T>)
    ensures |r| == if o.Some? then 1 else 0
    ensures o.Some? ==> r[0] == o.value
  {
    match o
    case None => []
    case Some(x) => [x]
  }

  /** The values `f` gives for the elements of `xs`, in order, skipping those it gives none for. */
  function FilterMap<A, B>(xs: seq<A>, f: A -> Option<B>): (r: seq<B>)
    ensures |r| <= |xs|
  {
    if xs == [] then [] else FilterMap(xs[..|xs| - 1], f) + OptionToSeq(f(xs[|xs| - 1]))
  }

  /** The values for consecutive runs of elements follow one another. */
  lemma {:induction false} FilterMapAppend<A, B>(xs: seq<A>, ys: seq<A>, f: A -> Option<B>)
    ensures FilterMap(xs + ys, f) == FilterMap(xs, f) + FilterMap(ys, f)
    decreases |ys|
  {
    if ys == [] {
      assert xs + ys == xs;
    } else {
      var init := ys[..|ys| - 1];
      var last := OptionToSeq(f(ys[|ys| - 1]));
      assert (xs + ys)[..|xs + ys| - 1] == xs + init;
      assert (xs + ys)[|xs + ys| - 1] == ys[|ys| - 1];
      assert FilterMap(xs + ys, f) == FilterMap(xs + init, f) + last;
      assert FilterMap(ys, f) == FilterMap(init, f) + last;
      FilterMapAppend(xs, init, f);
    }
  }

  /** A value is produced exactly when `f` gives it for some element. */
  lemma {:induction false} FilterMapMember<A, B>(xs: seq<A>, f: A -> Option<B>, y: B)
    ensures y in FilterMap(xs, f) <==> exists i :: 0 <= i < |xs| && f(xs[i]) == Some(y)
  {
    if xs != [] {
      var init := xs[..|xs| - 1];
      var last := OptionToSeq(f(xs[|xs| - 1]));
      var before := FilterMap(init, f);
      assert FilterMap(xs, f) == before + last;
      FilterMapMember(init, f, y);
      if y in before {
        var i :| 0 <= i < |init| && f(init[i]) == Some(y);
        assert xs[i] == init[i];
      }
      if exists i :: 0 <= i < |xs| && f(xs[i]) == Some(y) {
        var i :| 0 <= i < |xs| && f(xs[i]) == Some(y);
        if i < |init| {
          assert init[i] == xs[i];
        }
      }
    }
  }

  /** Two maps that agree on every element produce the same values. */
  lemma {:induction false} FilterMapPointwise<A, B>(xs: seq<A>, f: A -> Option<B>, g: A -> Option<B>)
    requires forall i :: 0 <= i < |xs| ==> f(xs[i]) == g(xs[i])
    ensures FilterMap(xs, f) == FilterMap(xs, g)
  {
    if xs != [] {
      var init := xs[..|xs| - 1];
      assert forall i :: 0 <= i < |init| ==> init[i] == xs[i];
      FilterMapPointwise(init, f, g);
    }
  }

  /** The lists `f` gives for the elements of `xs`, concatenated in order. */
  function FlatMap<A, B>(xs: seq<A>, f: A -> seq<B>): seq<B>
  {
    if xs == [] then [] else FlatMap(xs[..|xs| - 1], f) + f(xs[|xs| - 1])
  }

  /** The lists for consecutive runs of elements follow one another. */
  lemma {:induction false} FlatMapAppend<A, B>(xs: seq<A>, ys: seq<A>, f: A -> seq<B>)
    ensures FlatMap(xs + ys, f) == FlatMap(xs, f) + FlatMap(ys, f)
    decreases |ys|
  {
    if ys == [] {
      assert xs + ys == xs;
    } else {
      var init := ys[..|ys| - 1];
      var last := f(ys[|ys| - 1]);
      assert (xs + ys)[..|xs + ys| - 1] == xs + init;
      assert (xs + ys)[|xs + ys| - 1] == ys[|ys| - 1];
      assert FlatMap(xs + ys, f) == FlatMap(xs + init, f) + last;
      assert FlatMap(ys, f) == FlatMap(init, f) + last;
      FlatMapAppend(xs, init, f);
    }
  }

  /** A value is in the result exactly when it is in the list of some element. */
  lemma {:induction false} FlatMapMember<A, B>(xs: seq<A>, f: A -> seq<B>, y: B)
    ensures y in FlatMap(xs, f) <==> exists i :: 0 <= i < |xs| && y in f(xs[i])
  {
    if xs != [] {
      var init := xs[..|xs| - 1];
      var before := FlatMap(init, f);
      assert FlatMap(xs, f) == before + f(xs[|xs| - 1]);
      FlatMapMember(init, f, y);
      if y in before {
        var i :| 0 <= i < |init| && y in f(init[i]);
        assert xs[i] == init[i];
      }
      if exists i :: 0 <= i < |xs| && y in f(xs[i]) {
        var i :| 0 <= i < |xs| && y in f(xs[i]);
        if i < |init| {
          assert init[i] == xs[i];
        }
      }
    }
  }

  /** The result is empty exactly when every element's list is. */
  lemma {:induction false} FlatMapEmptyIff<A, B>(xs: seq<A>, f: A -> seq<B>)
    ensures FlatMap(xs, f) == [] <==> forall i :: 0 <= i < |xs| ==> f(xs[i]) == []
  {
    if xs != [] {
      var init := xs[..|xs| - 1];
      assert FlatMap(xs, f) == FlatMap(init, f) + f(xs[|xs| - 1]);
      FlatMapEmptyIff(init, f);
      assert forall i :: 0 <= i < |init| ==> init[i] == xs[i];
    }
  }
}
