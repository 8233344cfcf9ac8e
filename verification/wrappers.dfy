/** Option and Result values used for the error paths of the model. */
module Wrappers {

  datatype Option<+T> = None | Some(value: T) {
    function GetOr(default: T): T {
      match this
      case Some(v) => v
      case None => default
    }

    /** Python's `a or b` on two optional values: the first one present. */
    function Or(other: Option<T>): Option<T> {
      if Some? then this else other
    }
  }

  datatype Result<+R, +E> = Ok(value: R) | Err(error: E)

  /** Apply `f` to each element in order, stopping at the first error. */
  function MapAll<A, B, E>(f: A -> Result<B, E>, xs: seq<A>): Result<seq<B>, E> {
    if xs == [] then Ok([])
    else match MapAll(f, xs[..|xs| - 1])
      case Err(e) => Err(e)
      case Ok(init) =>
        match f(xs[|xs| - 1])
        case Err(e) => Err(e)
        case Ok(y) => Ok(init + [y])
  }

  /** The results come out exactly when no element fails. */
  lemma {:induction false} MapAllOk<A, B, E>(f: A -> Result<B, E>, xs: seq<A>)
    ensures MapAll(f, xs).Ok? <==> forall k :: 0 <= k < |xs| ==> f(xs[k]).Ok?
  {
    if xs != [] {
      var init := xs[..|xs| - 1];
      MapAllOk(f, init);
      if MapAll(f, xs).Ok? {
        forall k | 0 <= k < |xs| ensures f(xs[k]).Ok? {
          if k < |init| {
            assert init[k] == xs[k];
          }
        }
      } else if MapAll(f, init).Err? {
        var k :| 0 <= k < |init| && f(init[k]).Err?;
        assert init[k] == xs[k];
      }
    }
  }

  /** One result per element, in order. */
  lemma {:induction false} MapAllValues<A, B, E>(f: A -> Result<B, E>, xs: seq<A>)
    ensures MapAll(f, xs).Ok? ==> |MapAll(f, xs).value| == |xs|
    ensures MapAll(f, xs).Ok? ==> forall k :: 0 <= k < |xs| ==> f(xs[k]) == Ok(MapAll(f, xs).value[k])
  {
    if xs != [] && MapAll(f, xs).Ok? {
      var init := xs[..|xs| - 1];
      MapAllValues(f, init);
      forall k | 0 <= k < |xs| ensures f(xs[k]) == Ok(MapAll(f, xs).value[k]) {
        if k < |init| {
          assert init[k] == xs[k];
        }
      }
    }
  }

  /** Once a prefix fails, the whole sequence fails with the same error. */
  lemma {:induction false} MapAllErrStays<A, B, E>(f: A -> Result<B, E>, xs: seq<A>, n: nat)
    requires n <= |xs| && MapAll(f, xs[..n]).Err?
    ensures MapAll(f, xs) == MapAll(f, xs[..n])
    decreases |xs| - n
  {
    if n < |xs| {
      assert xs[..n + 1][..n] == xs[..n];
      MapAllErrStays(f, xs, n + 1);
    } else {
      assert xs[..n] == xs;
    }
  }

  /** Concatenation does not depend on grouping. */
  lemma Regroup<T>(a: seq<T>, b: seq<T>, c: seq<T>)
    ensures a + (b + c) == (a + b) + c
  {
  }

  /** Each element's pieces, concatenated in order: a list comprehension with a filter. */
  function Collect<A, B>(f: A -> seq<B>, xs: seq<A>): seq<B> {
    if xs == [] then [] else Collect(f, xs[..|xs| - 1]) + f(xs[|xs| - 1])
  }

  /** One more element adds its own pieces at the end. */
  lemma CollectStep<A, B>(f: A -> seq<B>, xs: seq<A>, i: nat)
    requires i < |xs|
    ensures Collect(f, xs[..i + 1]) == Collect(f, xs[..i]) + f(xs[i])
  {
    assert xs[..i + 1][..i] == xs[..i];
  }

  /** Collecting works element by element, so it keeps the order of the input. */
  lemma {:induction false} CollectAppend<A, B>(f: A -> seq<B>, a: seq<A>, b: seq<A>)
    ensures Collect(f, a + b) == Collect(f, a) + Collect(f, b)
    decreases |b|
  {
    if b == [] {
      assert a + b == a;
    } else {
      var b0 := b[..|b| - 1];
      var ab := a + b;
      assert Collect(f, ab) == Collect(f, a + b0) + f(b[|b| - 1]) by {
        assert ab[..|ab| - 1] == a + b0;
        assert ab[|ab| - 1] == b[|b| - 1];
      }
      CollectAppend(f, a, b0);
    }
  }

  /** A piece is collected exactly when some element yields it. */
  lemma {:induction false} CollectIn<A, B>(f: A -> seq<B>, xs: seq<A>, y: B)
    ensures y in Collect(f, xs) <==> exists i :: 0 <= i < |xs| && y in f(xs[i])
    decreases |xs|
  {
    if xs != [] {
      var init := xs[..|xs| - 1];
      CollectIn(f, init, y);
      if exists i :: 0 <= i < |xs| && y in f(xs[i]) {
        var i :| 0 <= i < |xs| && y in f(xs[i]);
        if i < |init| {
          assert init[i] == xs[i];
        }
      }
      if exists i :: 0 <= i < |init| && y in f(init[i]) {
        var i :| 0 <= i < |init| && y in f(init[i]);
        assert init[i] == xs[i];
      }
    }
  }

  /** Elements that yield nothing can be left out. */
  lemma {:induction false} CollectEmpty<A, B>(f: A -> seq<B>, xs: seq<A>)
    requires forall i :: 0 <= i < |xs| ==> f(xs[i]) == []
    ensures Collect(f, xs) == []
    decreases |xs|
  {
    if xs != [] {
      CollectEmpty(f, xs[..|xs| - 1]);
    }
  }

  /** The first `Some` that `f` gives along `xs`: a loop that returns on the first acceptable element. */
  function FirstSome<A, B>(f: A -> Option<B>, xs: seq<A>): Option<B> {
    if xs == [] then None
    else if f(xs[0]).Some? then f(xs[0])
    else FirstSome(f, xs[1..])
  }

  /** Nothing is found exactly when no element gives anything. */
  lemma {:induction false} FirstSomeNone<A, B>(f: A -> Option<B>, xs: seq<A>)
    ensures FirstSome(f, xs).None? <==> forall k :: 0 <= k < |xs| ==> f(xs[k]).None?
    decreases |xs|
  {
    if xs != [] {
      FirstSomeNone(f, xs[1..]);
      assert forall k :: 1 <= k < |xs| ==> xs[k] == xs[1..][k - 1];
    }
  }

  /** What is found is what some element gives. */
  lemma {:induction false} FirstSomeFrom<A, B>(f: A -> Option<B>, xs: seq<A>)
    requires FirstSome(f, xs).Some?
    ensures exists k :: 0 <= k < |xs| && f(xs[k]) == FirstSome(f, xs)
    decreases |xs|
  {
    if f(xs[0]).None? {
      FirstSomeFrom(f, xs[1..]);
      var k :| 0 <= k < |xs[1..]| && f(xs[1..][k]) == FirstSome(f, xs[1..]);
      assert xs[1..][k] == xs[k + 1];
    }
  }

  /** What is found is what the first element that gives anything gives. */
  lemma {:induction false} FirstSomeFirst<A, B>(f: A -> Option<B>, xs: seq<A>)
    requires FirstSome(f, xs).Some?
    ensures exists k :: (0 <= k < |xs| && f(xs[k]) == FirstSome(f, xs) && forall j :: 0 <= j < k ==> f(xs[j]).None?)
    decreases |xs|
  {
    if f(xs[0]).None? {
      FirstSomeFirst(f, xs[1..]);
      var k :| 0 <= k < |xs[1..]| && f(xs[1..][k]) == FirstSome(f, xs[1..]) && forall j :: 0 <= j < k ==> f(xs[1..][j]).None?;
      assert xs[1..][k] == xs[k + 1];
      forall j | 0 <= j < k + 1 ensures f(xs[j]).None? {
        if j > 0 {
          assert xs[j] == xs[1..][j - 1];
        }
      }
    } else {
      assert f(xs[0]) == FirstSome(f, xs);
    }
  }

  /** The element found is the first that gives anything. */
  lemma {:induction false} FirstSomeWins<A, B>(f: A -> Option<B>, xs: seq<A>, k: nat)
    requires k < |xs| && f(xs[k]).Some?
    requires forall j :: 0 <= j < k ==> f(xs[j]).None?
    ensures FirstSome(f, xs) == f(xs[k])
    decreases k
  {
    if k > 0 {
      assert forall j :: 0 <= j < k - 1 ==> xs[1..][j] == xs[j + 1];
      FirstSomeWins(f, xs[1..], k - 1);
    }
  }

  /** A first element that gives nothing is passed over. */
  lemma FirstSomeSkip<A, B>(f: A -> Option<B>, xs: seq<A>)
    requires xs != [] && f(xs[0]).None?
    ensures FirstSome(f, xs) == FirstSome(f, xs[1..])
  {
  }

  /** The least position in `from..last` where `f` holds: a scan that stops at the first hit. */
  function Leftmost(f: nat -> bool, from: nat, last: nat): (r: Option<nat>)
    ensures r.Some? ==> from <= r.value <= last && f(r.value)
    decreases last + 1 - from
  {
    if from > last then None
    else if f(from) then Some(from)
    else Leftmost(f, from + 1, last)
  }

  /** No position before the one found (or before `last`, when nothing is found) satisfies `f`. */
  lemma {:induction false} LeftmostSkips(f: nat -> bool, from: nat, last: nat, i: nat)
    requires from <= i <= last
    requires Leftmost(f, from, last).None? || i < Leftmost(f, from, last).value
    ensures !f(i)
    decreases i - from
  {
    if !f(from) && i > from {
      LeftmostSkips(f, from + 1, last, i);
    }
  }

  /** A position that satisfies `f` after none before it is the one found. */
  lemma {:induction false} LeftmostFinds(f: nat -> bool, from: nat, last: nat, k: nat)
    requires from <= k <= last && f(k)
    requires forall j :: from <= j < k ==> !f(j)
    ensures Leftmost(f, from, last) == Some(k)
    decreases k - from
  {
    if from < k {
      LeftmostFinds(f, from + 1, last, k);
    }
  }

  /** The greatest position in `first..last` where `f` holds: a greedy repetition giving back one step at a time. */
  function Rightmost(f: nat -> bool, first: nat, last: nat): (r: Option<nat>)
    ensures r.Some? ==> first <= r.value <= last && f(r.value)
    decreases last
  {
    if last < first then None
    else if f(last) then Some(last)
    else if last == first then None
    else Rightmost(f, first, last - 1)
  }

  /** Nothing is found exactly when no position in range satisfies `f`. */
  lemma {:induction false} RightmostNone(f: nat -> bool, first: nat, last: nat)
    ensures Rightmost(f, first, last).None? <==> forall k :: first <= k <= last ==> !f(k)
    decreases last
  {
    if first < last && !f(last) {
      RightmostNone(f, first, last - 1);
    }
  }

  /** The elements of `xs` that satisfy `p`, in order: a loop that appends each element it keeps. */
  function Filter<T>(p: T -> bool, xs: seq<T>): seq<T> {
    if xs == [] then []
    else
      var r := Filter(p, xs[..|xs| - 1]);
      if p(xs[|xs| - 1]) then r + [xs[|xs| - 1]] else r
  }

  /** One more element is kept at the end exactly when it satisfies `p`. */
  lemma FilterSnoc<T>(p: T -> bool, xs: seq<T>, x: T)
    ensures Filter(p, xs + [x]) == if p(x) then Filter(p, xs) + [x] else Filter(p, xs)
  {
    assert (xs + [x])[..|xs|] == xs;
  }

  /** One more element of a prefix is kept exactly when it satisfies `p`. */
  lemma FilterStep<T>(p: T -> bool, xs: seq<T>, i: nat)
    requires i < |xs|
    ensures Filter(p, xs[..i + 1]) == if p(xs[i]) then Filter(p, xs[..i]) + [xs[i]] else Filter(p, xs[..i])
  {
    assert xs[..i + 1][..i] == xs[..i];
  }

  /** An element is kept exactly when it occurs and satisfies `p`. */
  lemma {:induction false} FilterIn<T>(p: T -> bool, xs: seq<T>, x: T)
    ensures x in Filter(p, xs) <==> x in xs && p(x)
    decreases |xs|
  {
    if xs != [] {
      var init := xs[..|xs| - 1];
      FilterIn(p, init, x);
      assert xs == init + [xs[|xs| - 1]];
    }
  }

  /** The kept elements keep their order: two of them come from two positions of `xs` in the same order. */
  lemma {:induction false} FilterOrder<T>(p: T -> bool, xs: seq<T>, i: nat, j: nat)
    requires i < j < |Filter(p, xs)|
    ensures exists a, b :: 0 <= a < b < |xs| && xs[a] == Filter(p, xs)[i] && xs[b] == Filter(p, xs)[j]
    decreases |xs|
  {
    var init := xs[..|xs| - 1];
    var r := Filter(p, init);
    var last := |xs| - 1;
    if j < |r| {
      FilterOrder(p, init, i, j);
      var a, b :| 0 <= a < b < |init| && init[a] == r[i] && init[b] == r[j];
      assert xs[a] == init[a] && xs[b] == init[b];
    } else {
      assert Filter(p, xs)[j] == xs[last];
      assert Filter(p, xs)[i] == r[i] && r[i] in r;
      FilterIn(p, init, r[i]);
      var a :| 0 <= a < |init| && init[a] == r[i];
      assert xs[a] == init[a];
    }
  }

  /** One more element adds its own pieces at the end. */
  lemma CollectSnoc<A, B>(f: A -> seq<B>, xs: seq<A>, x: A)
    ensures Collect(f, xs + [x]) == Collect(f, xs) + f(x)
  {
    assert (xs + [x])[..|xs|] == xs;
  }
}
