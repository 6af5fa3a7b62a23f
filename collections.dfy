/** Small helpers shared by the modules below: sequences without repetitions, the
    enumeration of a Python set in some iteration order, and the dense index map that
    `{k: i for i, k in enumerate(xs)}` builds. */
module Collections {

  datatype Option<T> = None | Some(value: T)

  /** A value, or the exception a Python operation raises instead. */
  datatype Result<T, E> = Ok(value: T) | Err(error: E)

  /** No element occurs twice in `s`. */
  ghost predicate Distinct<T>(s: seq<T>) {
    forall i, j :: 0 <= i < j < |s| ==> s[i] != s[j]
  }

  /** The elements of a sequence, as a set. */
  function Elems<T(!new)>(s: seq<T>): (r: set<T>)
    ensures forall x :: x in r <==> x in s
  {
    set x | x in s
  }

  /** Python's iteration over a set: every element exactly once, in an order the
      caller may not rely on. */
  method Enumerate<T(!new)>(s: set<T>) returns (q: seq<T>)
    ensures Distinct(q)
    ensures Elems(q) == s
    ensures |q| == |s|
  {
    q := [];
    var rest := s;
    while rest != {}
      invariant Distinct(q)
      invariant Elems(q) !! rest
      invariant Elems(q) + rest == s
      invariant |q| + |rest| == |s|
      decreases |rest|
    {
      var x :| x in rest;
      q := q + [x];
      rest := rest - {x};
    }
  }

  /** `[f(x) for x in xs]`. */
  function MapSeq<A, B>(f: A -> B, xs: seq<A>): (ys: seq<B>)
    ensures |ys| == |xs|
  {
    if xs == [] then [] else [f(xs[0])] + MapSeq(f, xs[1..])
  }

  lemma {:induction false} MapSeqAt<A, B>(f: A -> B, xs: seq<A>, k: nat)
    requires k < |xs|
    ensures MapSeq(f, xs)[k] == f(xs[k])
    decreases k
  {
    if k > 0 {
      MapSeqAt(f, xs[1..], k - 1);
    }
  }

  lemma MapSeqFirst<A, B>(f: A -> B, xs: seq<A>)
    requires xs != []
    ensures MapSeq(f, xs) == [f(xs[0])] + MapSeq(f, xs[1..])
  {
  }

  /** `{k: i for i, k in enumerate(s)}`: a bijection from the elements of `s` onto
      `0 .. |s|-1` that inverts indexing. */
  function IndexOf<T(!new)>(s: seq<T>): (m: map<T, nat>)
    requires Distinct(s)
    ensures m.Keys == Elems(s)
    ensures forall i :: 0 <= i < |s| ==> s[i] in m && m[s[i]] == i
    ensures forall x :: x in m ==> m[x] < |s| && s[m[x]] == x
  {
    map i | 0 <= i < |s| :: s[i] := i
  }

  /** A sequence without repetitions has as many elements as its set. */
  lemma {:induction false} DistinctCard<T(!new)>(s: seq<T>)
    requires Distinct(s)
    ensures |Elems(s)| == |s|
  {
    if s != [] {
      var init := s[..|s| - 1];
      assert s == init + [s[|s| - 1]];
      ElemsSnoc(init, s[|s| - 1]);
      DistinctCard(init);
    }
  }

  /** Appending an element adds it to the set of elements. */
  lemma ElemsSnoc<T(!new)>(s: seq<T>, x: T)
    ensures Elems(s + [x]) == Elems(s) + {x}
  {
    assert forall y :: y in s + [x] <==> y in s || y == x;
  }

  /** Taking one more element out of `rest` moves it to the part of `all` already seen. */
  lemma TakeOne<T>(all: set<T>, rest: set<T>, x: T)
    requires rest <= all && x in rest
    ensures all - (rest - {x}) == (all - rest) + {x}
    ensures |rest - {x}| < |rest|
  {
  }

  /** Once nothing is left of `rest`, all of `all` has been seen. */
  lemma NoneLeft<T>(all: set<T>, rest: set<T>)
    requires rest == {}
    ensures all - rest == all
  {
  }

  /** A subset of the same size is the whole set. */
  lemma SubsetSameSize<T>(a: set<T>, b: set<T>)
    requires a <= b && |a| == |b|
    ensures a == b
  {
    assert b == a + (b - a) && a !! (b - a);
  }

  /** Growing a subset of `g` leaves a smaller complement in `g`. */
  lemma GrowthShrinksComplement<T>(g: set<T>, a: set<T>, b: set<T>)
    requires a <= b <= g && |a| != |b|
    ensures |g - b| < |g - a|
  {
    assert g - a == (g - b) + (b - a) && (g - b) * (b - a) == {};
  }

  /** Sets that grow from each index to the next grow from any index to any later one. */
  lemma {:induction false} ChainMono<T>(f: nat -> set<T>, i: nat, j: nat)
    requires forall k: nat :: f(k) <= f(k + 1)
    requires i <= j
    ensures f(i) <= f(j)
    decreases j
  {
    if i < j {
      ChainMono(f, i, j - 1);
      assert f(j - 1) <= f(j);
    }
  }
}
