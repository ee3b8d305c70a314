/** Keeping, in order, the images of the elements a partial function accepts.

    Three stages of the search pipeline are instances of this one shape: a
    status bucket keeps the lines of the members classified into it, the
    descriptive lines keep the facts whose text has no "null", and the
    category blocks keep the categories whose bucket is non-empty. The lemmas
    here say, once, what "in order" means for all three. */
module FilterMaps {
  import opened Options

  function FilterMap<T, U>(xs: seq<T>, f: T -> Option<U>): (r: seq<U>)
    ensures |r| <= |xs|
  {
    if xs == [] then []
    else
      (match f(xs[0]) case Some(y) => [y] case None => []) + FilterMap(xs[1..], f)
  }

  /** How many accepted elements come before position `i`: the position the
      image of `xs[i]` takes in the result. */
  function Rank<T, U>(xs: seq<T>, f: T -> Option<U>, i: nat): nat
    requires i <= |xs|
  {
    |FilterMap(xs[..i], f)|
  }

  /** Filtering distributes over concatenation. */
  lemma {:induction false} FilterMapAppend<T, U>(a: seq<T>, b: seq<T>, f: T -> Option<U>)
    ensures FilterMap(a + b, f) == FilterMap(a, f) + FilterMap(b, f)
  {
    if a == [] {
      assert a + b == b;
    } else {
      assert (a + b)[0] == a[0];
      assert (a + b)[1..] == a[1..] + b;
      FilterMapAppend(a[1..], b, f);
    }
  }

  /** A single element contributes its image, or nothing. */
  lemma {:induction false} FilterMapSingle<T, U>(x: T, f: T -> Option<U>)
    ensures FilterMap([x], f) == if f(x).Some? then [f(x).value] else []
  {
    assert [x][1..] == [];
  }

  /** Splitting `xs` around position `i`. */
  lemma {:induction false} FilterMapSplit<T, U>(xs: seq<T>, f: T -> Option<U>, i: nat)
    requires i < |xs|
    ensures FilterMap(xs, f)
         == FilterMap(xs[..i], f) + FilterMap([xs[i]], f) + FilterMap(xs[i + 1..], f)
  {
    var a, b, c := xs[..i], [xs[i]], xs[i + 1..];
    assert xs == (a + b) + c;
    FilterMapAppend(a + b, c, f);
    FilterMapAppend(a, b, f);
  }

  /** An accepted element's image sits at its rank. */
  lemma {:induction false} FilterMapAt<T, U>(xs: seq<T>, f: T -> Option<U>, i: nat)
    requires i < |xs| && f(xs[i]).Some?
    ensures Rank(xs, f, i) < |FilterMap(xs, f)|
    ensures FilterMap(xs, f)[Rank(xs, f, i)] == f(xs[i]).value
  {
    FilterMapSplit(xs, f, i);
    assert FilterMap([xs[i]], f) == [f(xs[i]).value];
  }

  /** Accepted elements keep their relative order: an accepted element ranks
      strictly below every later position. */
  lemma {:induction false} RankIncreases<T, U>(xs: seq<T>, f: T -> Option<U>, i: nat, j: nat)
    requires i < j <= |xs| && f(xs[i]).Some?
    ensures Rank(xs, f, i) < Rank(xs, f, j)
  {
    var prefix := xs[..j];
    assert prefix[..i] == xs[..i];
    assert prefix[i] == xs[i];
    FilterMapSplit(prefix, f, i);
    assert FilterMap([xs[i]], f) == [f(xs[i]).value];
  }

  /** Every entry of the result is the image of some accepted element. */
  lemma {:induction false} FilterMapFrom<T, U>(xs: seq<T>, f: T -> Option<U>, k: nat)
    requires k < |FilterMap(xs, f)|
    ensures exists i :: 0 <= i < |xs| && f(xs[i]).Some? && Rank(xs, f, i) == k
                        && FilterMap(xs, f)[k] == f(xs[i]).value
  {
    var n := |xs| - 1;
    var init := xs[..n];
    assert xs == init + [xs[n]];
    FilterMapAppend(init, [xs[n]], f);
    if k < |FilterMap(init, f)| {
      FilterMapFrom(init, f, k);
      var i :| 0 <= i < |init| && f(init[i]).Some? && Rank(init, f, i) == k
               && FilterMap(init, f)[k] == f(init[i]).value;
      assert init[..i] == xs[..i];
      assert Rank(xs, f, i) == k;
    } else {
      assert f(xs[n]).Some?;
      assert Rank(xs, f, n) == k;
    }
  }

  /** Membership in the result, both directions. */
  lemma {:induction false} FilterMapMembership<T, U>(xs: seq<T>, f: T -> Option<U>, y: U)
    ensures y in FilterMap(xs, f) <==> exists i :: 0 <= i < |xs| && f(xs[i]) == Some(y)
  {
    if y in FilterMap(xs, f) {
      var k :| 0 <= k < |FilterMap(xs, f)| && FilterMap(xs, f)[k] == y;
      FilterMapFrom(xs, f, k);
    }
    if i :| 0 <= i < |xs| && f(xs[i]) == Some(y) {
      FilterMapAt(xs, f, i);
    }
  }

  /** Nothing is kept when nothing is accepted. */
  lemma {:induction false} FilterMapNone<T, U>(xs: seq<T>, f: T -> Option<U>)
    requires forall i :: 0 <= i < |xs| ==> f(xs[i]).None?
    ensures FilterMap(xs, f) == []
  {
    if xs != [] {
      assert f(xs[0]).None?;
      FilterMapNone(xs[1..], f);
    }
  }

  /** When exactly one element is accepted, the result is its image alone. */
  lemma {:induction false} FilterMapOnly<T, U>(xs: seq<T>, f: T -> Option<U>, i: nat)
    requires i < |xs| && f(xs[i]).Some?
    requires forall j :: 0 <= j < |xs| && j != i ==> f(xs[j]).None?
    ensures FilterMap(xs, f) == [f(xs[i]).value]
  {
    FilterMapSplit(xs, f, i);
    FilterMapSingle(xs[i], f);
    FilterMapNone(xs[..i], f);
    FilterMapNone(xs[i + 1..], f);
  }
}
