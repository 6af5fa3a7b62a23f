/** Reachability along a finite relation, by paths of length at least one. Used to
    state what the transitive-closure loop of a regular path query computes. */
module Paths {

  /** `p` is a walk of at least one step along `e`. */
  ghost predicate IsPath<T(!new)>(e: set<(T, T)>, p: seq<T>) {
    |p| >= 2 && forall k :: 0 <= k < |p| - 1 ==> (p[k], p[k + 1]) in e
  }

  /** `b` is reachable from `a` in one or more steps of `e` (no identity is implied). */
  ghost predicate Reach<T(!new)>(e: set<(T, T)>, a: T, b: T) {
    exists p :: IsPath(e, p) && p[0] == a && p[|p| - 1] == b
  }

  lemma ReachStep<T(!new)>(e: set<(T, T)>, a: T, b: T)
    requires (a, b) in e
    ensures Reach(e, a, b)
  {
    assert IsPath(e, [a, b]);
  }

  /** Walks compose. */
  lemma ReachTrans<T(!new)>(e: set<(T, T)>, a: T, b: T, c: T)
    requires Reach(e, a, b) && Reach(e, b, c)
    ensures Reach(e, a, c)
  {
    var p :| IsPath(e, p) && p[0] == a && p[|p| - 1] == b;
    var q :| IsPath(e, q) && q[0] == b && q[|q| - 1] == c;
    var w := p + q[1..];
    forall k | 0 <= k < |w| - 1 ensures (w[k], w[k + 1]) in e {
      if k < |p| - 1 {
        assert w[k] == p[k] && w[k + 1] == p[k + 1];
      } else {
        assert w[k] == q[k - |p| + 1] && w[k + 1] == q[k - |p| + 2];
      }
    }
    assert IsPath(e, w);
  }

  /** The first step of a walk, and the walk that remains. */
  lemma ReachFirstStep<T(!new)>(e: set<(T, T)>, a: T, b: T) returns (c: T)
    requires Reach(e, a, b)
    ensures (a, c) in e && (c == b || Reach(e, c, b))
  {
    var p :| IsPath(e, p) && p[0] == a && p[|p| - 1] == b;
    c := p[1];
    assert (p[0], p[1]) in e;
    if |p| > 2 {
      var q := p[1..];
      forall k | 0 <= k < |q| - 1 ensures (q[k], q[k + 1]) in e {
        assert (p[k + 1], p[k + 2]) in e;
      }
      assert IsPath(e, q);
    }
  }

  /** A relation `c` that contains `e` and is transitive contains every pair reachable
      along `e`. */
  lemma {:induction false} ReachWithinClosed<T(!new)>(e: set<(T, T)>, c: set<(T, T)>, p: seq<T>)
    requires e <= c
    requires forall x, y, z :: (x, y) in c && (y, z) in c ==> (x, z) in c
    requires IsPath(e, p)
    ensures (p[0], p[|p| - 1]) in c
    decreases |p|
  {
    assert (p[0], p[1]) in e;
    if |p| > 2 {
      var q := p[1..];
      forall k | 0 <= k < |q| - 1 ensures (q[k], q[k + 1]) in e {
        assert (p[k + 1], p[k + 2]) in e;
      }
      ReachWithinClosed(e, c, q);
      assert (p[1], p[|p| - 1]) in c;
    }
  }

  /** A map that carries every step of `e1` to a step of `e2` carries walks to walks. */
  lemma ReachImage<T(!new), U(!new)>(e1: set<(T, T)>, e2: set<(U, U)>, f: map<T, U>, a: T, b: T)
    requires forall x, y :: (x, y) in e1 ==> x in f && y in f && (f[x], f[y]) in e2
    requires Reach(e1, a, b)
    ensures a in f && b in f && Reach(e2, f[a], f[b])
  {
    var p :| IsPath(e1, p) && p[0] == a && p[|p| - 1] == b;
    assert forall k :: 0 <= k < |p| ==> p[k] in f by {
      forall k | 0 <= k < |p| ensures p[k] in f {
        if k < |p| - 1 {
          assert (p[k], p[k + 1]) in e1;
        } else {
          assert (p[k - 1], p[k]) in e1;
        }
      }
    }
    var q := seq(|p|, k requires 0 <= k < |p| => f[p[k]]);
    forall k | 0 <= k < |q| - 1 ensures (q[k], q[k + 1]) in e2 {
      assert (p[k], p[k + 1]) in e1;
    }
    assert IsPath(e2, q);
  }

  /** A transitive relation is its own transitive closure: closing it again changes
      nothing. */
  lemma ReachOfTransitive<T(!new)>(e: set<(T, T)>, a: T, b: T)
    requires forall x, y, z :: (x, y) in e && (y, z) in e ==> (x, z) in e
    ensures Reach(e, a, b) <==> (a, b) in e
  {
    if Reach(e, a, b) {
      var p :| IsPath(e, p) && p[0] == a && p[|p| - 1] == b;
      ReachWithinClosed(e, e, p);
    }
    if (a, b) in e {
      ReachStep(e, a, b);
    }
  }
}
