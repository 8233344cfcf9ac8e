/**
 * A Python `dict` as the sequence of its items in insertion order.
 *
 * Assigning `d[k] = v` to a key already present keeps the key at its first
 * position and replaces its value; a new key goes to the end.
 */
module Assoc {
  import opened Wrappers

  type Dict<K, V> = seq<(K, V)>

  function Keys<K, V>(d: Dict<K, V>): (r: seq<K>)
    ensures |r| == |d|
    ensures forall i :: 0 <= i < |d| ==> r[i] == d[i].0
  {
    if d == [] then [] else [d[0].0] + Keys(d[1..])
  }

  predicate DistinctKeys<K(==), V>(d: Dict<K, V>) {
    forall i, j :: 0 <= i < j < |d| ==> d[i].0 != d[j].0
  }

  /** The elements of `xs` without repeats, each at its first occurrence (the keys of `dict.fromkeys(xs)`). */
  function Distinct<T(==,!new)>(xs: seq<T>): (r: seq<T>)
    ensures forall x :: x in r <==> x in xs
    ensures forall i, j :: 0 <= i < j < |r| ==> r[i] != r[j]
  {
    if xs == [] then []
    else
      var r := Distinct(xs[..|xs| - 1]);
      assert forall x :: x in xs <==> x in xs[..|xs| - 1] || x == xs[|xs| - 1];
      if xs[|xs| - 1] in r then r else r + [xs[|xs| - 1]]
  }

  /** One more element: appended when it is new, dropped when it was seen. */
  lemma DistinctSnoc<T(!new)>(xs: seq<T>, x: T)
    ensures Distinct(xs + [x]) == if x in Distinct(xs) then Distinct(xs) else Distinct(xs) + [x]
  {
    assert (xs + [x])[..|xs|] == xs;
  }

  /** `DistinctSnoc` for a loop over `xs` after a prefix `a` has been seen. */
  lemma DistinctStep<T(!new)>(a: seq<T>, xs: seq<T>, j: nat)
    requires j < |xs|
    ensures Distinct(a + xs[..j + 1]) ==
      if xs[j] in Distinct(a + xs[..j]) then Distinct(a + xs[..j]) else Distinct(a + xs[..j]) + [xs[j]]
  {
    assert a + xs[..j + 1] == (a + xs[..j]) + [xs[j]];
    DistinctSnoc(a + xs[..j], xs[j]);
  }

  /** Regrouping what has been seen does not change the distinct elements. */
  lemma DistinctRegroup<T(!new)>(a: seq<T>, b: seq<T>, c: seq<T>)
    ensures Distinct(a + (b + c)) == Distinct((a + b) + c)
  {
    assert a + (b + c) == (a + b) + c;
  }

  /** What is seen first stays first: the distinct elements of `a` begin those of `a + b`. */
  lemma {:induction false} DistinctPrefix<T(!new)>(a: seq<T>, b: seq<T>)
    ensures Distinct(a) <= Distinct(a + b)
    decreases |b|
  {
    if b == [] {
      assert a + b == a;
    } else {
      var init := b[..|b| - 1];
      DistinctPrefix(a, init);
      assert a + b == (a + init) + [b[|b| - 1]];
      DistinctSnoc(a + init, b[|b| - 1]);
    }
  }

  /** The key of every element, in order. */
  function Project<T, K>(key: T -> K, xs: seq<T>): (r: seq<K>)
    ensures |r| == |xs|
    ensures forall i :: 0 <= i < |xs| ==> r[i] == key(xs[i])
  {
    seq(|xs|, i requires 0 <= i < |xs| => key(xs[i]))
  }

  /** The keys of two pieces, one after the other. */
  lemma ProjectAppend<T, K>(key: T -> K, a: seq<T>, b: seq<T>)
    ensures Project(key, a + b) == Project(key, a) + Project(key, b)
  {
    assert forall i :: 0 <= i < |a| + |b| ==> Project(key, a + b)[i] == (Project(key, a) + Project(key, b))[i];
  }

  /** Keying pieces collected by `f` is collecting the keyed pieces, when `g` keys each piece. */
  lemma {:induction false} ProjectCollect<A, T, K>(key: T -> K, f: A -> seq<T>, g: A -> seq<K>, xs: seq<A>)
    requires forall x :: Project(key, f(x)) == g(x)
    ensures Project(key, Collect(f, xs)) == Collect(g, xs)
  {
    if xs != [] {
      ProjectCollect(key, f, g, xs[..|xs| - 1]);
      ProjectAppend(key, Collect(f, xs[..|xs| - 1]), f(xs[|xs| - 1]));
    }
  }

  /** Some element of `xs` has key `k`. */
  predicate HasKey<T, K(==)>(key: T -> K, xs: seq<T>, k: K) {
    exists i :: 0 <= i < |xs| && key(xs[i]) == k
  }

  /** `xs[i]` is the first element of `xs` with its key. */
  predicate FirstOfKey<T, K(==)>(key: T -> K, xs: seq<T>, i: nat)
    requires i < |xs|
  {
    forall j :: 0 <= j < i ==> key(xs[j]) != key(xs[i])
  }

  /**
   * A loop that keeps an element only when no element with the same key was
   * kept before: the first element for each key, in order.
   */
  function FirstPerKey<T, K(==)>(key: T -> K, xs: seq<T>): seq<T> {
    if xs == [] then []
    else
      var r := FirstPerKey(key, xs[..|xs| - 1]);
      if HasKey(key, r, key(xs[|xs| - 1])) then r else r + [xs[|xs| - 1]]
  }

  /** A key is kept exactly when some element has it. */
  lemma {:induction false} FirstPerKeyHas<T, K>(key: T -> K, xs: seq<T>, k: K)
    ensures HasKey(key, FirstPerKey(key, xs), k) <==> HasKey(key, xs, k)
  {
    if xs != [] {
      var init := xs[..|xs| - 1];
      var x := xs[|xs| - 1];
      FirstPerKeyHas(key, init, k);
      FirstPerKeyHas(key, init, key(x));
      var r := FirstPerKey(key, init);
      if HasKey(key, xs, k) {
        var i :| 0 <= i < |xs| && key(xs[i]) == k;
        if i < |xs| - 1 {
          assert key(init[i]) == k;
          var m :| 0 <= m < |r| && key(r[m]) == k;
          if !HasKey(key, r, key(x)) {
            assert (r + [x])[m] == r[m];
          }
        } else if !HasKey(key, r, key(x)) {
          assert (r + [x])[|r|] == x;
        }
      }
      if HasKey(key, FirstPerKey(key, xs), k) {
        var m :| 0 <= m < |FirstPerKey(key, xs)| && key(FirstPerKey(key, xs)[m]) == k;
        if m < |r| {
          assert FirstPerKey(key, xs)[m] == r[m];
          var i :| 0 <= i < |init| && key(init[i]) == k;
          assert xs[i] == init[i];
        } else {
          assert key(xs[|xs| - 1]) == k;
        }
      }
    }
  }

  /** No key is kept twice, and the keys kept are the distinct keys in first-seen order. */
  lemma {:induction false} FirstPerKeyProject<T, K(!new)>(key: T -> K, xs: seq<T>)
    ensures Project(key, FirstPerKey(key, xs)) == Distinct(Project(key, xs))
  {
    if xs != [] {
      var init := xs[..|xs| - 1];
      var x := xs[|xs| - 1];
      var r := FirstPerKey(key, init);
      FirstPerKeyProject(key, init);
      FirstPerKeyHas(key, init, key(x));
      ProjectSnoc(key, init, x);
      assert init + [x] == xs;
      DistinctSnoc(Project(key, init), key(x));
      KeyInProject(key, init, key(x));
      if !HasKey(key, r, key(x)) {
        ProjectSnoc(key, r, x);
      }
    }
  }

  /** The keys of a sequence and one more element. */
  lemma ProjectSnoc<T, K>(key: T -> K, xs: seq<T>, x: T)
    ensures Project(key, xs + [x]) == Project(key, xs) + [key(x)]
  {
    assert forall i :: 0 <= i <= |xs| ==> Project(key, xs + [x])[i] == (Project(key, xs) + [key(x)])[i];
  }

  /** The keys of one more element of a prefix. */
  lemma ProjectStep<T, K>(key: T -> K, xs: seq<T>, i: nat)
    requires i < |xs|
    ensures Project(key, xs[..i + 1]) == Project(key, xs[..i]) + [key(xs[i])]
  {
    assert xs[..i + 1] == xs[..i] + [xs[i]];
    ProjectSnoc(key, xs[..i], xs[i]);
  }

  /** A key is among the keys exactly when some element has it. */
  lemma KeyInProject<T, K>(key: T -> K, xs: seq<T>, k: K)
    ensures k in Project(key, xs) <==> HasKey(key, xs, k)
  {
    if HasKey(key, xs, k) {
      var i :| 0 <= i < |xs| && key(xs[i]) == k;
      assert Project(key, xs)[i] == k;
    }
  }

  /** The first element with each key is kept. */
  lemma {:induction false} FirstPerKeyKeeps<T, K>(key: T -> K, xs: seq<T>, i: nat)
    requires i < |xs| && FirstOfKey(key, xs, i)
    ensures xs[i] in FirstPerKey(key, xs)
    decreases |xs|
  {
    var init := xs[..|xs| - 1];
    var r := FirstPerKey(key, init);
    if i < |xs| - 1 {
      assert FirstOfKey(key, init, i) by {
        forall j | 0 <= j < i ensures key(init[j]) != key(init[i]) {
          assert init[j] == xs[j] && init[i] == xs[i];
        }
      }
      FirstPerKeyKeeps(key, init, i);
      assert xs[i] == init[i];
    } else {
      FirstPerKeyHas(key, init, key(xs[i]));
      assert !HasKey(key, init, key(xs[i])) by {
        forall j | 0 <= j < |init| ensures key(init[j]) != key(xs[i]) {
          assert init[j] == xs[j];
        }
      }
      assert FirstPerKey(key, xs) == r + [xs[i]];
    }
  }

  /** Only the first element with its key is kept. */
  lemma {:induction false} FirstPerKeyOnlyFirst<T, K>(key: T -> K, xs: seq<T>, x: T)
    requires x in FirstPerKey(key, xs)
    ensures exists i :: 0 <= i < |xs| && xs[i] == x && FirstOfKey(key, xs, i)
    decreases |xs|
  {
    var init := xs[..|xs| - 1];
    var r := FirstPerKey(key, init);
    if x in r {
      FirstPerKeyOnlyFirst(key, init, x);
      var i :| 0 <= i < |init| && init[i] == x && FirstOfKey(key, init, i);
      assert xs[i] == x;
      forall j | 0 <= j < i ensures key(xs[j]) != key(xs[i]) {
        assert xs[j] == init[j];
      }
    } else {
      var last := |xs| - 1;
      assert x == xs[last] && !HasKey(key, r, key(x));
      FirstPerKeyHas(key, init, key(x));
      forall j | 0 <= j < last ensures key(xs[j]) != key(xs[last]) {
        assert xs[j] == init[j];
      }
    }
  }

  /**
   * The `dict` a loop builds by assigning `d[k] = v` for every element of `xs`
   * for which `f` gives an entry `(k, v)`: a later entry for a key replaces the
   * earlier value.
   */
  function Assigned<A, K, V>(f: A -> Option<(K, V)>, xs: seq<A>): map<K, V> {
    if xs == [] then map[]
    else
      var m := Assigned(f, xs[..|xs| - 1]);
      var e := f(xs[|xs| - 1]);
      if e.Some? then m[e.value.0 := e.value.1] else m
  }

  /** One more element: its entry, if any, is assigned last. */
  lemma AssignedSnoc<A, K, V>(f: A -> Option<(K, V)>, xs: seq<A>, x: A)
    ensures Assigned(f, xs + [x]) == if f(x).Some? then Assigned(f, xs)[f(x).value.0 := f(x).value.1] else Assigned(f, xs)
  {
    assert (xs + [x])[..|xs|] == xs;
  }

  /** A key is present exactly when some element gives an entry for it. */
  lemma {:induction false} AssignedKeys<A, K, V>(f: A -> Option<(K, V)>, xs: seq<A>, k: K)
    ensures k in Assigned(f, xs) <==> exists i :: 0 <= i < |xs| && f(xs[i]).Some? && f(xs[i]).value.0 == k
    decreases |xs|
  {
    if xs != [] {
      var init := xs[..|xs| - 1];
      AssignedKeys(f, init, k);
      assert forall i :: 0 <= i < |init| ==> init[i] == xs[i];
    }
  }

  /** The value of a key is the one its last entry gives. */
  lemma {:induction false} AssignedLast<A, K, V>(f: A -> Option<(K, V)>, xs: seq<A>, i: nat)
    requires i < |xs| && f(xs[i]).Some?
    requires forall j :: i < j < |xs| && f(xs[j]).Some? ==> f(xs[j]).value.0 != f(xs[i]).value.0
    ensures f(xs[i]).value.0 in Assigned(f, xs) && Assigned(f, xs)[f(xs[i]).value.0] == f(xs[i]).value.1
    decreases |xs|
  {
    var init := xs[..|xs| - 1];
    if i < |xs| - 1 {
      assert init[i] == xs[i];
      forall j | i < j < |init| && f(init[j]).Some? ensures f(init[j]).value.0 != f(init[i]).value.0 {
        assert init[j] == xs[j];
      }
      AssignedLast(f, init, i);
    }
  }

  /** The position of the first item at or after `from` with key `k`. */
  function IndexOf<K(==), V>(d: Dict<K, V>, k: K, from: nat): (r: Option<nat>)
    requires from <= |d|
    ensures r.Some? ==> from <= r.value < |d| && d[r.value].0 == k
    ensures forall j :: from <= j < |d| && (r.None? || j < r.value) ==> d[j].0 != k
    decreases |d| - from
  {
    if from == |d| then None else if d[from].0 == k then Some(from) else IndexOf(d, k, from + 1)
  }

  /** `d[k]` as an option: the value of the item with key `k`. */
  function Get<K(==), V>(d: Dict<K, V>, k: K): Option<V> {
    match IndexOf(d, k, 0)
    case Some(i) => Some(d[i].1)
    case None => None
  }

  /** `d[k] = v`: a present key keeps its position and takes the new value; a new key goes to the end. */
  function Put<K(==), V>(d: Dict<K, V>, k: K, v: V): Dict<K, V> {
    match IndexOf(d, k, 0)
    case Some(i) => d[i := (k, v)]
    case None => d + [(k, v)]
  }

  /** A present key keeps its position; a new key goes to the end. */
  lemma PutKeys<K, V>(d: Dict<K, V>, k: K, v: V)
    ensures Keys(Put(d, k, v)) == if k in Keys(d) then Keys(d) else Keys(d) + [k]
  {
    var r := Put(d, k, v);
    match IndexOf(d, k, 0)
    case Some(i) =>
      assert Keys(d)[i] == k;
      assert Keys(r) == Keys(d);
    case None =>
      assert Keys(r) == Keys(d) + [k];
  }

  /** After `d[k] = v`, `k` reads `v` and every other key reads what it read before. */
  lemma PutGet<K, V>(d: Dict<K, V>, k: K, v: V, k': K)
    ensures Get(Put(d, k, v), k') == if k' == k then Some(v) else Get(d, k')
  {
    var r := Put(d, k, v);
    var x := IndexOf(d, k', 0);
    var y := IndexOf(r, k', 0);
    if k' == k {
      match IndexOf(d, k, 0)
      case Some(i) =>
        assert r == d[i := (k, v)];
        assert forall j :: 0 <= j < i ==> r[j] == d[j] && d[j].0 != k;
        assert r[i].0 == k;
        assert y == Some(i);
      case None =>
        assert r == d + [(k, v)];
        assert forall j :: 0 <= j < |d| ==> r[j] == d[j] && d[j].0 != k;
        assert r[|d|].0 == k;
        assert y == Some(|d|);
    } else {
      assert forall j :: 0 <= j < |d| ==> (r[j].0 == k' <==> d[j].0 == k');
      assert |r| > |d| ==> r[|d|].0 != k';
      if x.Some? {
        assert y == x;
        assert r[x.value] == d[x.value];
      } else {
        assert y.None?;
      }
    }
  }

  /** Putting keeps keys distinct. */
  lemma PutDistinct<K, V>(d: Dict<K, V>, k: K, v: V)
    requires DistinctKeys(d)
    ensures DistinctKeys(Put(d, k, v))
  {
    var r := Put(d, k, v);
    PutKeys(d, k, v);
    forall i, j | 0 <= i < j < |r| ensures r[i].0 != r[j].0 {
      assert Keys(r)[i] == r[i].0 && Keys(r)[j] == r[j].0;
      assert forall a, b :: 0 <= a < b < |d| ==> Keys(d)[a] != Keys(d)[b];
    }
  }

  /** The dict after assigning `d[ks[i]] = vs[i]` for `i` from 0 to `n - 1`, starting from the empty dict. */
  function PutPairs<K(==), V>(ks: seq<K>, vs: seq<V>, n: nat): Dict<K, V>
    requires n <= |ks| && n <= |vs|
  {
    if n == 0 then [] else Put(PutPairs(ks, vs, n - 1), ks[n - 1], vs[n - 1])
  }

  /** The keys of the assignments are the distinct assigned keys, in first-assignment order. */
  lemma {:induction false} PutPairsKeys<K(!new), V>(ks: seq<K>, vs: seq<V>, n: nat)
    requires n <= |ks| && n <= |vs|
    ensures Keys(PutPairs(ks, vs, n)) == Distinct(ks[..n])
  {
    if n > 0 {
      PutPairsKeys(ks, vs, n - 1);
      PutKeys(PutPairs(ks, vs, n - 1), ks[n - 1], vs[n - 1]);
      assert ks[..n][..n - 1] == ks[..n - 1];
    }
  }

  /** A key reads the value of its last assignment. */
  lemma {:induction false} PutPairsLast<K, V>(ks: seq<K>, vs: seq<V>, n: nat, j: nat)
    requires j < n <= |ks| && n <= |vs|
    requires forall m :: j < m < n ==> ks[m] != ks[j]
    ensures Get(PutPairs(ks, vs, n), ks[j]) == Some(vs[j])
  {
    var d := PutPairs(ks, vs, n - 1);
    PutGet(d, ks[n - 1], vs[n - 1], ks[j]);
    if j < n - 1 {
      PutPairsLast(ks, vs, n - 1, j);
    }
  }

  /** A key never assigned is absent. */
  lemma {:induction false} PutPairsAbsent<K, V>(ks: seq<K>, vs: seq<V>, n: nat, k: K)
    requires n <= |ks| && n <= |vs|
    requires forall m :: 0 <= m < n ==> ks[m] != k
    ensures Get(PutPairs(ks, vs, n), k).None?
  {
    if n > 0 {
      var d := PutPairs(ks, vs, n - 1);
      PutPairsAbsent(ks, vs, n - 1, k);
      PutGet(d, ks[n - 1], vs[n - 1], k);
      assert ks[n - 1] != k;
    }
  }

  /** The assignments never repeat a key. */
  lemma {:induction false} PutPairsDistinct<K, V>(ks: seq<K>, vs: seq<V>, n: nat)
    requires n <= |ks| && n <= |vs|
    ensures DistinctKeys(PutPairs(ks, vs, n))
  {
    if n > 0 {
      PutPairsDistinct(ks, vs, n - 1);
      PutDistinct(PutPairs(ks, vs, n - 1), ks[n - 1], vs[n - 1]);
    }
  }

  /** No two elements of `xs` have the same key. */
  predicate UniqueKeys<T, K(==)>(key: T -> K, xs: seq<T>) {
    forall i, j :: 0 <= i < j < |xs| ==> key(xs[i]) != key(xs[j])
  }

  /** The loop that keeps the first element per key never keeps a key twice. */
  lemma FirstPerKeyUnique<T, K(!new)>(key: T -> K, xs: seq<T>)
    ensures UniqueKeys(key, FirstPerKey(key, xs))
  {
    var r := FirstPerKey(key, xs);
    FirstPerKeyProject(key, xs);
    forall i, j | 0 <= i < j < |r| ensures key(r[i]) != key(r[j]) {
      assert Project(key, r)[i] == key(r[i]) && Project(key, r)[j] == key(r[j]);
    }
  }

  /** Dropping elements keeps keys unique. */
  lemma {:induction false} FilterUnique<T, K>(p: T -> bool, key: T -> K, xs: seq<T>)
    requires UniqueKeys(key, xs)
    ensures UniqueKeys(key, Filter(p, xs))
    decreases |xs|
  {
    if xs != [] {
      var init := xs[..|xs| - 1];
      var x := xs[|xs| - 1];
      var r := Filter(p, init);
      FilterUnique(p, key, init);
      if p(x) {
        forall i | 0 <= i < |r| ensures key(r[i]) != key(x) {
          assert r[i] in r;
          FilterIn(p, init, r[i]);
          var a :| 0 <= a < |init| && init[a] == r[i];
          assert xs[a] == init[a];
        }
      }
    }
  }

  /** A sequence without repeats is its own distinct elements. */
  lemma {:induction false} NoRepeatsDistinct<K(!new)>(xs: seq<K>)
    requires forall i, j :: 0 <= i < j < |xs| ==> xs[i] != xs[j]
    ensures Distinct(xs) == xs
    decreases |xs|
  {
    if xs != [] {
      var init := xs[..|xs| - 1];
      forall i, j | 0 <= i < j < |init| ensures init[i] != init[j] {
        assert init[i] == xs[i] && init[j] == xs[j];
      }
      NoRepeatsDistinct(init);
      assert xs[|xs| - 1] !in init by {
        forall i | 0 <= i < |init| ensures init[i] != xs[|xs| - 1] {
          assert init[i] == xs[i];
        }
      }
      assert xs == init + [xs[|xs| - 1]];
      DistinctSnoc(init, xs[|xs| - 1]);
    }
  }

  /**
   * The dict a loop builds by assigning `d[k] = v` for every element of `xs`
   * that gives an entry `(k, v)`, in insertion order.
   */
  function PutEach<A, K(==), V>(entry: A -> Option<(K, V)>, xs: seq<A>): Dict<K, V> {
    if xs == [] then []
    else
      var d := PutEach(entry, xs[..|xs| - 1]);
      match entry(xs[|xs| - 1])
      case None => d
      case Some(e) => Put(d, e.0, e.1)
  }

  /** The keys the elements give, in order, repeats included. */
  function EntryKeys<A, K, V>(entry: A -> Option<(K, V)>, xs: seq<A>): seq<K> {
    if xs == [] then []
    else
      var ks := EntryKeys(entry, xs[..|xs| - 1]);
      match entry(xs[|xs| - 1])
      case None => ks
      case Some(e) => ks + [e.0]
  }

  /** The dict's keys are the distinct keys given, in first-assignment order. */
  lemma {:induction false} PutEachKeys<A, K(!new), V>(entry: A -> Option<(K, V)>, xs: seq<A>)
    ensures Keys(PutEach(entry, xs)) == Distinct(EntryKeys(entry, xs))
    decreases |xs|
  {
    if xs != [] {
      var init := xs[..|xs| - 1];
      PutEachKeys(entry, init);
      match entry(xs[|xs| - 1])
      case None =>
      case Some(e) =>
        PutKeys(PutEach(entry, init), e.0, e.1);
        DistinctSnoc(EntryKeys(entry, init), e.0);
    }
  }

  /** A key reads the value of the last element that gives it. */
  lemma {:induction false} PutEachLast<A, K, V>(entry: A -> Option<(K, V)>, xs: seq<A>, i: nat)
    requires i < |xs| && entry(xs[i]).Some?
    requires forall j :: i < j < |xs| && entry(xs[j]).Some? ==> entry(xs[j]).value.0 != entry(xs[i]).value.0
    ensures Get(PutEach(entry, xs), entry(xs[i]).value.0) == Some(entry(xs[i]).value.1)
    decreases |xs|
  {
    var init := xs[..|xs| - 1];
    var k := entry(xs[i]).value.0;
    var d := PutEach(entry, init);
    match entry(xs[|xs| - 1])
    case None =>
      assert init[i] == xs[i];
      PutEachLast(entry, init, i);
    case Some(e) =>
      PutGet(d, e.0, e.1, k);
      if i < |xs| - 1 {
        assert init[i] == xs[i];
        forall j | i < j < |init| && entry(init[j]).Some? ensures entry(init[j]).value.0 != k {
          assert init[j] == xs[j];
        }
        PutEachLast(entry, init, i);
      }
  }

  /** A key no element gives is absent. */
  lemma {:induction false} PutEachAbsent<A, K, V>(entry: A -> Option<(K, V)>, xs: seq<A>, k: K)
    requires forall j :: 0 <= j < |xs| && entry(xs[j]).Some? ==> entry(xs[j]).value.0 != k
    ensures Get(PutEach(entry, xs), k).None?
    decreases |xs|
  {
    if xs != [] {
      var init := xs[..|xs| - 1];
      forall j | 0 <= j < |init| && entry(init[j]).Some? ensures entry(init[j]).value.0 != k {
        assert init[j] == xs[j];
      }
      PutEachAbsent(entry, init, k);
      match entry(xs[|xs| - 1])
      case None =>
      case Some(e) =>
        PutGet(PutEach(entry, init), e.0, e.1, k);
    }
  }
  /** One more element: kept at the end exactly when its key is new. */
  lemma FirstPerKeySnoc<T, K>(key: T -> K, xs: seq<T>, x: T)
    ensures FirstPerKey(key, xs + [x]) == if HasKey(key, xs, key(x)) then FirstPerKey(key, xs) else FirstPerKey(key, xs) + [x]
  {
    assert (xs + [x])[..|xs|] == xs;
    FirstPerKeyHas(key, xs, key(x));
  }

  /** A key occurs in a sequence and one more element exactly when it occurs in the sequence or is that element's. */
  lemma HasKeySnoc<T, K>(key: T -> K, xs: seq<T>, x: T, k: K)
    ensures HasKey(key, xs + [x], k) <==> HasKey(key, xs, k) || key(x) == k
  {
    var ys := xs + [x];
    if HasKey(key, xs, k) {
      var i :| 0 <= i < |xs| && key(xs[i]) == k;
      assert ys[i] == xs[i];
    }
    if key(x) == k {
      assert ys[|xs|] == x;
    }
    if HasKey(key, ys, k) {
      var i :| 0 <= i < |ys| && key(ys[i]) == k;
      if i < |xs| {
        assert ys[i] == xs[i];
      }
    }
  }

  /** The kept elements keep their order: two of them come from two positions of `xs` in the same order. */
  lemma {:induction false} FirstPerKeyOrder<T, K>(key: T -> K, xs: seq<T>, i: nat, j: nat)
    requires i < j < |FirstPerKey(key, xs)|
    ensures exists a, b :: 0 <= a < b < |xs| && xs[a] == FirstPerKey(key, xs)[i] && xs[b] == FirstPerKey(key, xs)[j]
    decreases |xs|
  {
    var init := xs[..|xs| - 1];
    var r := FirstPerKey(key, init);
    var last := |xs| - 1;
    if j < |r| {
      FirstPerKeyOrder(key, init, i, j);
      var a, b :| 0 <= a < b < |init| && init[a] == r[i] && init[b] == r[j];
      assert xs[a] == init[a] && xs[b] == init[b];
    } else {
      assert FirstPerKey(key, xs)[j] == xs[last];
      assert FirstPerKey(key, xs)[i] == r[i] && r[i] in r;
      FirstPerKeyOnlyFirst(key, init, r[i]);
      var a :| 0 <= a < |init| && init[a] == r[i] && FirstOfKey(key, init, a);
      assert xs[a] == init[a];
    }
  }

  /** One more element: its entry, if any, is put last. */
  lemma PutEachStep<A, K, V>(entry: A -> Option<(K, V)>, xs: seq<A>, i: nat)
    requires i < |xs|
    ensures PutEach(entry, xs[..i + 1]) == match entry(xs[i]) case None => PutEach(entry, xs[..i]) case Some(e) => Put(PutEach(entry, xs[..i]), e.0, e.1)
  {
    assert xs[..i + 1][..i] == xs[..i];
  }

  /** Putting a key that is absent appends it. */
  lemma PutNew<K, V>(d: Dict<K, V>, k: K, v: V)
    requires k !in Keys(d)
    ensures Put(d, k, v) == d + [(k, v)]
  {
  }

  /** Elements with distinct keys that all give an entry make a dict of exactly those entries, in order. */
  lemma {:induction false} PutEachPairs<A, K, V>(entry: A -> Option<(K, V)>, xs: seq<A>)
    requires forall i :: 0 <= i < |xs| ==> entry(xs[i]).Some?
    requires forall i, j :: 0 <= i < j < |xs| ==> entry(xs[i]).value.0 != entry(xs[j]).value.0
    ensures |PutEach(entry, xs)| == |xs|
    ensures forall i :: 0 <= i < |xs| ==> PutEach(entry, xs)[i] == entry(xs[i]).value
    decreases |xs|
  {
    if xs != [] {
      var init := xs[..|xs| - 1];
      var e := entry(xs[|xs| - 1]).value;
      forall i | 0 <= i < |init| ensures entry(init[i]).Some? {
        assert init[i] == xs[i];
      }
      forall i, j | 0 <= i < j < |init| ensures entry(init[i]).value.0 != entry(init[j]).value.0 {
        assert init[i] == xs[i] && init[j] == xs[j];
      }
      PutEachPairs(entry, init);
      var d := PutEach(entry, init);
      assert e.0 !in Keys(d) by {
        forall i | 0 <= i < |d| ensures Keys(d)[i] != e.0 {
          assert d[i] == entry(init[i]).value && init[i] == xs[i];
        }
      }
      PutNew(d, e.0, e.1);
      forall i | 0 <= i < |init| ensures PutEach(entry, xs)[i] == entry(xs[i]).value {
        assert init[i] == xs[i];
      }
    }
  }
}
