/** `project/graph.py`: Hellings' worklist algorithm for context-free path queries, and
    the query that reads the start variable's node pairs off its result.

    The grammar is taken as already in weak Chomsky normal form (the output of
    `cfg_to_whnf`): every body is empty, one terminal, or two variables. A triple
    (u, H, v) says that some path from u to v spells a word H derives. */
module Hellings {
  import opened Collections
  import opened Graphs

  /** A production of a grammar in weak Chomsky normal form. */
  datatype Production<V, L> =
    | Epsilon(head: V)
    | Terminal(head: V, symbol: L)
    | Binary(head: V, left: V, right: V)

  /** The triples one production contributes before any combination: (n, H, n) for
      every node when H derives the empty word, (u, H, v) for every edge u -t-> v when
      H -> t. */
  ghost function SeedsOf<N(!new), V(!new), L(!new)>(p: Production<V, L>, g: Graph<N, L>): set<(N, V, N)> {
    match p
    case Epsilon(h) => set n | n in g.nodes :: (n, h, n)
    case Terminal(h, s) => set e | e in g.edges && e.1 == s :: (e.0, h, e.2)
    case Binary(_, _, _) => {}
  }

  /** The triples of all productions. */
  ghost function Seeds<N(!new), V(!new), L(!new)>(prods: seq<Production<V, L>>, g: Graph<N, L>): set<(N, V, N)> {
    set p, x | p in prods && x in SeedsOf(p, g) :: x
  }

  /** The heads H of the productions H -> A B. */
  ghost function Heads<V(!new), L(!new)>(prods: seq<Production<V, L>>, a: V, b: V): set<V> {
    set p | p in prods && p.Binary? && p.left == a && p.right == b :: p.head
  }

  /** (x, H, z) for every H -> A B with (x, A, y) and (y, B, z) in `r`. */
  ghost function Combos<N(!new), V(!new), L(!new)>(prods: seq<Production<V, L>>, r: set<(N, V, N)>): set<(N, V, N)> {
    set t1, t2, h | t1 in r && t2 in r && t1.2 == t2.0 && h in Heads(prods, t1.1, t2.1) :: (t1.0, h, t2.2)
  }

  /** The triples derivable in `k` rounds of combination. */
  ghost function Iter<N(!new), V(!new), L(!new)>(prods: seq<Production<V, L>>, g: Graph<N, L>, k: nat): set<(N, V, N)>
    decreases k
  {
    if k == 0 then Seeds(prods, g) else Iter(prods, g, k - 1) + Combos(prods, Iter(prods, g, k - 1))
  }

  /** The answer Hellings' algorithm is meant to compute: the least set of triples that
      holds the seeds and is closed under combination. */
  ghost predicate Derivable<N(!new), V(!new), L(!new)>(prods: seq<Production<V, L>>, g: Graph<N, L>, t: (N, V, N)) {
    exists k: nat :: t in Iter(prods, g, k)
  }

  /** The heads of all productions. */
  ghost function AllHeads<V(!new), L(!new)>(prods: seq<Production<V, L>>): set<V> {
    set p | p in prods :: p.head
  }

  /** `t` joins two graph nodes through the head of some production. */
  ghost predicate InGraph<N(!new), V(!new), L(!new)>(prods: seq<Production<V, L>>, g: Graph<N, L>, t: (N, V, N)) {
    t.0 in g.nodes && t.1 in AllHeads(prods) && t.2 in g.nodes
  }

  /** Every triple a graph node, a head and a graph node can form. */
  ghost function Universe<N(!new), V(!new), L(!new)>(prods: seq<Production<V, L>>, g: Graph<N, L>): set<(N, V, N)> {
    set x, h, y | x in g.nodes && h in AllHeads(prods) && y in g.nodes :: (x, h, y)
  }

  lemma IterMono<N(!new), V(!new), L(!new)>(prods: seq<Production<V, L>>, g: Graph<N, L>, i: nat, j: nat)
    requires i <= j
    ensures Iter(prods, g, i) <= Iter(prods, g, j)
  {
    forall k: nat ensures Iter(prods, g, k) <= Iter(prods, g, k + 1) {
      IterGrows(prods, g, k);
    }
    ChainMono(k => Iter(prods, g, k), i, j);
  }

  /** A round of combination keeps every triple it started from. */
  lemma IterGrows<N(!new), V(!new), L(!new)>(prods: seq<Production<V, L>>, g: Graph<N, L>, k: nat)
    ensures Iter(prods, g, k) <= Iter(prods, g, k + 1)
  {
  }

  lemma CombosMono<N(!new), V(!new), L(!new)>(prods: seq<Production<V, L>>, a: set<(N, V, N)>, b: set<(N, V, N)>)
    requires a <= b
    ensures Combos(prods, a) <= Combos(prods, b)
  {
  }

  /** Combining two derivable triples gives a derivable triple. */
  lemma ComboDerivable<N(!new), V(!new), L(!new)>(prods: seq<Production<V, L>>, g: Graph<N, L>,
      t1: (N, V, N), t2: (N, V, N), h: V)
    requires Derivable(prods, g, t1) && Derivable(prods, g, t2)
    requires t1.2 == t2.0 && h in Heads(prods, t1.1, t2.1)
    ensures Derivable(prods, g, (t1.0, h, t2.2))
  {
    var k1: nat :| t1 in Iter(prods, g, k1);
    var k2: nat :| t2 in Iter(prods, g, k2);
    var k := if k1 < k2 then k2 else k1;
    IterMono(prods, g, k1, k);
    IterMono(prods, g, k2, k);
    assert (t1.0, h, t2.2) in Combos(prods, Iter(prods, g, k));
    assert (t1.0, h, t2.2) in Iter(prods, g, k + 1);
  }

  /** A set that holds the seeds and is closed under combination holds every derivable
      triple: the derivable triples are the least such set. */
  lemma {:induction false} IterWithin<N(!new), V(!new), L(!new)>(prods: seq<Production<V, L>>, g: Graph<N, L>,
      r: set<(N, V, N)>, k: nat)
    requires Seeds(prods, g) <= r && Combos(prods, r) <= r
    ensures Iter(prods, g, k) <= r
    decreases k
  {
    if k > 0 {
      IterWithin(prods, g, r, k - 1);
      CombosMono(prods, Iter(prods, g, k - 1), r);
    }
  }

  /** The seeds join graph nodes through production heads. */
  lemma SeedsInGraph<N(!new), V(!new), L(!new)>(prods: seq<Production<V, L>>, g: Graph<N, L>, x: (N, V, N))
    requires g.Valid() && x in Seeds(prods, g)
    ensures InGraph(prods, g, x)
  {
    var p :| p in prods && x in SeedsOf(p, g);
    assert p.head in AllHeads(prods);
    match p
    case Epsilon(h) =>
    case Terminal(h, s) =>
      var e :| e in g.edges && e.1 == s && x == (e.0, h, e.2);
  }

  /** Combination stays among graph nodes and production heads. */
  lemma CombosInGraph<N(!new), V(!new), L(!new)>(prods: seq<Production<V, L>>, g: Graph<N, L>,
      r: set<(N, V, N)>, x: (N, V, N))
    requires forall t :: t in r ==> InGraph(prods, g, t)
    requires x in Combos(prods, r)
    ensures InGraph(prods, g, x)
  {
    var t1, t2, h :| t1 in r && t2 in r && t1.2 == t2.0 && h in Heads(prods, t1.1, t2.1) && x == (t1.0, h, t2.2);
    var p :| p in prods && p.Binary? && p.left == t1.1 && p.right == t2.1 && p.head == h;
    assert InGraph(prods, g, t1) && InGraph(prods, g, t2);
    assert p.head in AllHeads(prods);
  }

  /** Derivable triples join graph nodes through a head of some production. */
  lemma {:induction false} IterInGraph<N(!new), V(!new), L(!new)>(prods: seq<Production<V, L>>, g: Graph<N, L>, k: nat)
    requires g.Valid()
    ensures forall x :: x in Iter(prods, g, k) ==> InGraph(prods, g, x)
    decreases k
  {
    if k == 0 {
      forall x | x in Iter(prods, g, 0) ensures InGraph(prods, g, x) {
        SeedsInGraph(prods, g, x);
      }
    } else {
      IterInGraph(prods, g, k - 1);
      forall x | x in Iter(prods, g, k) ensures InGraph(prods, g, x) {
        if x !in Iter(prods, g, k - 1) {
          CombosInGraph(prods, g, Iter(prods, g, k - 1), x);
        }
      }
    }
  }

  /** Every triple of a set of derivable triples lies in the universe. */
  lemma DerivableInUniverse<N(!new), V(!new), L(!new)>(prods: seq<Production<V, L>>, g: Graph<N, L>, r: set<(N, V, N)>)
    requires g.Valid()
    requires forall x :: x in r ==> Derivable(prods, g, x)
    ensures forall x :: x in r ==> InGraph(prods, g, x)
    ensures r <= Universe(prods, g)
  {
    forall x | x in r ensures InGraph(prods, g, x) && x in Universe(prods, g) {
      var k: nat :| x in Iter(prods, g, k);
      IterInGraph(prods, g, k);
      var (a, h, b) := x;
      assert (a, h, b) in Universe(prods, g);
    }
  }

  lemma SeedsSnoc<N(!new), V(!new), L(!new)>(prods: seq<Production<V, L>>, p: Production<V, L>, g: Graph<N, L>)
    ensures Seeds(prods + [p], g) == Seeds(prods, g) + SeedsOf(p, g)
  {
    assert forall q :: q in prods + [p] <==> q in prods || q == p;
  }

  /** The seeds of an epsilon production `H -> epsilon`: `(node, H, node)` for every node,
      added to the result and the queue. */
  method SeedNodes<N(==,!new), V(==,!new)>(result: set<(N, V, N)>, queue: seq<(N, V, N)>, h: V, nodes: seq<N>)
    returns (result': set<(N, V, N)>, queue': seq<(N, V, N)>)
    requires Elems(queue) == result
    ensures result' == result + set n | n in nodes :: (n, h, n)
    ensures Elems(queue') == result'
  {
    result', queue' := result, queue;
    for k := 0 to |nodes|
      invariant result' == result + set n | n in nodes[..k] :: (n, h, n)
      invariant Elems(queue') == result'
    {
      var t := (nodes[k], h, nodes[k]);
      assert forall n :: n in nodes[..k + 1] <==> n in nodes[..k] || n == nodes[k];
      ElemsSnoc(queue', t);
      result' := result' + {t};
      queue' := queue' + [t];
    }
    assert nodes[..|nodes|] == nodes;
  }

  /** The seeds of a terminal production `H -> s`: `(u, H, v)` for every edge u -> v
      labelled `s`. */
  method SeedEdges<N(==,!new), V(==,!new), L(==,!new)>(result: set<(N, V, N)>, queue: seq<(N, V, N)>,
      h: V, s: L, edges: seq<(N, L, N)>)
    returns (result': set<(N, V, N)>, queue': seq<(N, V, N)>)
    requires Elems(queue) == result
    ensures result' == result + set e | e in edges && e.1 == s :: (e.0, h, e.2)
    ensures Elems(queue') == result'
  {
    result', queue' := result, queue;
    for k := 0 to |edges|
      invariant result' == result + set e | e in edges[..k] && e.1 == s :: (e.0, h, e.2)
      invariant Elems(queue') == result'
    {
      var e := edges[k];
      assert forall e' :: e' in edges[..k + 1] <==> e' in edges[..k] || e' == e;
      if e.1 == s {
        var t := (e.0, h, e.2);
        ElemsSnoc(queue', t);
        result' := result' + {t};
        queue' := queue' + [t];
      }
    }
    assert edges[..|edges|] == edges;
  }

  /** The seeding pass over the productions: every seed, each both in the result and in
      the queue. */
  method Seed<N(==,!new), V(==,!new), L(==,!new)>(prods: seq<Production<V, L>>, g: Graph<N, L>)
    returns (result: set<(N, V, N)>, queue: seq<(N, V, N)>)
    ensures result == Seeds(prods, g)
    ensures Elems(queue) == result
  {
    result, queue := {}, [];
    for k := 0 to |prods|
      invariant result == Seeds(prods[..k], g)
      invariant Elems(queue) == result
    {
      var p := prods[k];
      match p {
        case Epsilon(h) =>
          result, queue := SeedNodes(result, queue, h, g.nodes);
        case Terminal(h, s) =>
          result, queue := SeedEdges(result, queue, h, s, g.edges);
        case Binary(_, _, _) =>
      }
      assert prods[..k + 1] == prods[..k] + [p];
      SeedsSnoc(prods[..k], p, g);
    }
    assert prods[..|prods|] == prods;
  }

  /** The triples with head H from x to z, one per H in `hs`. */
  ghost function Spans<N(!new), V(!new)>(x: N, hs: set<V>, z: N): set<(N, V, N)> {
    set h | h in hs :: (x, h, z)
  }

  /** Joining two adjacent triples labelled A and B: `(x, H, z)` for every production
      H -> A B. */
  method AddJoins<N(==,!new), V(==,!new), L(==,!new)>(diff: set<(N, V, N)>, prods: seq<Production<V, L>>,
      x: N, a: V, b: V, z: N) returns (diff': set<(N, V, N)>)
    ensures diff' == diff + Spans(x, Heads(prods, a, b), z)
  {
    diff' := diff;
    for k := 0 to |prods|
      invariant diff' == diff + Spans(x, Heads(prods[..k], a, b), z)
    {
      var p := prods[k];
      assert forall q :: q in prods[..k + 1] <==> q in prods[..k] || q == p;
      if p.Binary? && p.left == a && p.right == b {
        assert Heads(prods[..k + 1], a, b) == Heads(prods[..k], a, b) + {p.head};
        diff' := diff' + {(x, p.head, z)};
      } else {
        assert Heads(prods[..k + 1], a, b) == Heads(prods[..k], a, b);
      }
    }
    assert prods[..|prods|] == prods;
  }

  /** What one dequeued triple `t` = (u, A, v) combines into with the triples of `r`:
      (x, H, v) for (x, B, u) in `r` and H -> B A, and (u, H, z) for (v, B, z) in `r` and
      H -> A B. */
  ghost function StepDiff<N(!new), V(!new), L(!new)>(prods: seq<Production<V, L>>, r: set<(N, V, N)>, t: (N, V, N)): set<(N, V, N)> {
    (set t1, h | t1 in r && t1.2 == t.0 && h in Heads(prods, t1.1, t.1) :: (t1.0, h, t.2)) +
    (set t2, h | t2 in r && t.2 == t2.0 && h in Heads(prods, t.1, t2.1) :: (t.0, h, t2.2))
  }

  lemma StepDiffAdd<N(!new), V(!new), L(!new)>(prods: seq<Production<V, L>>, r: set<(N, V, N)>,
      t: (N, V, N), t': (N, V, N))
    ensures StepDiff(prods, r + {t'}, t) ==
            StepDiff(prods, r, t)
            + (if t'.2 == t.0 then Spans(t'.0, Heads(prods, t'.1, t.1), t.2) else {})
            + (if t'.0 == t.2 then Spans(t.0, Heads(prods, t.1, t'.1), t'.2) else {})
  {
  }

  /** One round of the main loop: the combinations of the dequeued triple with every
      triple of the result, on either side. */
  method Combine<N(==,!new), V(==,!new), L(==,!new)>(prods: seq<Production<V, L>>, result: set<(N, V, N)>,
      t: (N, V, N)) returns (diff: set<(N, V, N)>)
    ensures diff == StepDiff(prods, result, t)
  {
    var (u, a, v) := t;
    diff := {};
    var rest := result;
    while rest != {}
      invariant rest <= result
      invariant diff == StepDiff(prods, result - rest, t)
      decreases |rest|
    {
      var t' :| t' in rest;
      var (uu, b, vv) := t';
      if vv == u {
        diff := AddJoins(diff, prods, uu, b, a, v);
      }
      if uu == v {
        diff := AddJoins(diff, prods, u, a, b, vv);
      }
      StepDiffAdd(prods, result - rest, t, t');
      TakeOne(result, rest, t');
      rest := rest - {t'};
    }
  }

  /** The worklist invariant: a combination missing from `r` is still owed by a triple
      waiting in the queue. */
  ghost predicate PendingClosed<N(!new), V(!new), L(!new)>(prods: seq<Production<V, L>>, r: set<(N, V, N)>, q: seq<(N, V, N)>) {
    forall t1, t2, h :: t1 in r && t2 in r && t1.2 == t2.0 && h in Heads(prods, t1.1, t2.1) ==>
      (t1.0, h, t2.2) in r || t1 in q || t2 in q
  }

  /** Processing the head of the queue keeps the worklist invariant. */
  lemma PendingStep<N(!new), V(!new), L(!new)>(prods: seq<Production<V, L>>, r: set<(N, V, N)>,
      q: seq<(N, V, N)>, diff: set<(N, V, N)>, added: seq<(N, V, N)>)
    requires PendingClosed(prods, r, q) && q != [] && q[0] in r
    requires diff == StepDiff(prods, r, q[0]) - r && Elems(added) == diff
    ensures PendingClosed(prods, r + diff, q[1..] + added)
  {
    var t := q[0];
    var r', q' := r + diff, q[1..] + added;
    forall t1, t2, h | t1 in r' && t2 in r' && t1.2 == t2.0 && h in Heads(prods, t1.1, t2.1)
      ensures (t1.0, h, t2.2) in r' || t1 in q' || t2 in q'
    {
      if t1 in diff {
        assert t1 in added;
      } else if t2 in diff {
        assert t2 in added;
      } else if t1 == t {
        assert (t1.0, h, t2.2) in StepDiff(prods, r, t);
      } else if t2 == t {
        assert (t1.0, h, t2.2) in StepDiff(prods, r, t);
      } else if t1 in q {
        var i :| 0 <= i < |q| && q[i] == t1;
        assert q'[i - 1] == t1;
      } else if t2 in q {
        var i :| 0 <= i < |q| && q[i] == t2;
        assert q'[i - 1] == t2;
      }
    }
  }

  /** With nothing owed, the result is closed under combination. */
  lemma PendingDone<N(!new), V(!new), L(!new)>(prods: seq<Production<V, L>>, r: set<(N, V, N)>)
    requires PendingClosed(prods, r, [])
    ensures Combos(prods, r) <= r
  {
  }

  /** Every triple the dequeued triple combines into is derivable. */
  lemma StepSound<N(!new), V(!new), L(!new)>(prods: seq<Production<V, L>>, g: Graph<N, L>,
      r: set<(N, V, N)>, t: (N, V, N))
    requires t in r && forall x :: x in r ==> Derivable(prods, g, x)
    ensures forall x :: x in StepDiff(prods, r, t) ==> Derivable(prods, g, x)
  {
    forall x | x in StepDiff(prods, r, t) ensures Derivable(prods, g, x) {
      if t1, h :| t1 in r && t1.2 == t.0 && h in Heads(prods, t1.1, t.1) && x == (t1.0, h, t.2) {
        ComboDerivable(prods, g, t1, t, h);
      } else {
        var t2, h :| t2 in r && t.2 == t2.0 && h in Heads(prods, t.1, t2.1) && x == (t.0, h, t2.2);
        ComboDerivable(prods, g, t, t2, h);
      }
    }
  }

  /** `hellings_cfpq`: exactly the derivable triples. The result holds the seeds, is
      closed under combination, and joins graph nodes through production heads. */
  method HellingsCfpq<N(==,!new), V(==,!new), L(==,!new)>(prods: seq<Production<V, L>>, g: Graph<N, L>)
    returns (result: set<(N, V, N)>)
    requires g.Valid()
    ensures forall t :: t in result <==> Derivable(prods, g, t)
    ensures Seeds(prods, g) <= result && Combos(prods, result) <= result
    ensures forall t :: t in result ==> InGraph(prods, g, t)
  {
    var queue;
    result, queue := Seed(prods, g);
    forall x | x in result ensures Derivable(prods, g, x) {
      assert x in Iter(prods, g, 0);
    }
    while queue != []
      invariant Seeds(prods, g) <= result
      invariant Elems(queue) <= result
      invariant forall x :: x in result ==> Derivable(prods, g, x)
      invariant PendingClosed(prods, result, queue)
      decreases |Universe(prods, g) - result|, |queue|
    {
      ghost var before := result;
      var t := queue[0];
      var diff := Combine(prods, result, t);
      diff := diff - result;
      var added := Enumerate(diff);
      PendingStep(prods, result, queue, diff, added);
      StepSound(prods, g, result, t);
      queue := queue[1..] + added;
      result := result + diff;
      DerivableInUniverse(prods, g, result);
      if diff != {} {
        GrowthShrinksComplement(Universe(prods, g), before, result);
      }
    }
    PendingDone(prods, result);
    forall t | Derivable(prods, g, t) ensures t in result {
      var k: nat :| t in Iter(prods, g, k);
      IterWithin(prods, g, result, k);
    }
    DerivableInUniverse(prods, g, result);
  }

  /** `query_cfg_graph`: for every start node u, the final nodes v with (u, S, v)
      derivable. */
  method QueryCfgGraph<N(==,!new), V(==,!new), L(==,!new)>(prods: seq<Production<V, L>>, g: Graph<N, L>,
      s: V, starts: seq<N>, finals: seq<N>) returns (res: map<N, set<N>>)
    requires g.Valid()
    ensures res.Keys == Elems(starts)
    ensures forall u, v :: u in res ==> (v in res[u] <==> v in finals && Derivable(prods, g, (u, s, v)))
  {
    res := map u | u in starts :: {};
    var tuples := HellingsCfpq(prods, g);
    var rest := tuples;
    while rest != {}
      invariant rest <= tuples
      invariant res.Keys == Elems(starts)
      invariant Collected(res, s, finals, tuples - rest)
      decreases |rest|
    {
      ghost var before, found := res, tuples - rest;
      var t :| t in rest;
      var (u, var1, v) := t;
      if var1 == s && u in starts && v in finals {
        res := res[u := res[u] + {v}];
      }
      CollectStep(before, s, starts, finals, found, t, res);
      TakeOne(tuples, rest, t);
      rest := rest - {t};
    }
  }

  /** Every start node `u` of `res` holds the final nodes `v` with (u, S, v) in
      `found`. */
  ghost predicate Collected<N(!new), V>(res: map<N, set<N>>, s: V, finals: seq<N>, found: set<(N, V, N)>) {
    forall u, v :: u in res ==> (v in res[u] <==> v in finals && (u, s, v) in found)
  }

  /** Filing one more triple keeps `res` collected. */
  lemma CollectStep<N(!new), V>(res: map<N, set<N>>, s: V, starts: seq<N>, finals: seq<N>,
      found: set<(N, V, N)>, t: (N, V, N), res': map<N, set<N>>)
    requires res.Keys == Elems(starts) && Collected(res, s, finals, found)
    requires res' == if t.1 == s && t.0 in starts && t.2 in finals then res[t.0 := res[t.0] + {t.2}] else res
    ensures res'.Keys == Elems(starts) && Collected(res', s, finals, found + {t})
  {
  }
}
