/** Finite automata as `dfa_utils.py` sees them (pyformlang automata: a state set, a
    transition set, start and final sets), the synchronous product of two of them, and
    the specification of a regular path query: the facts that the matrix algorithms in
    module DfaUtils are proved against. */
module Automata {
  import opened Collections
  import opened BoolMatrices
  import opened Paths

  /** An epsilon-free automaton. `states` is the iteration order of the automaton's
      state set (the order `enumerate(nfa.states)` sees), so it has no repetitions. */
  datatype Nfa<S(==,!new), Sym(==,!new)> = Nfa(states: seq<S>, transitions: set<(S, Sym, S)>,
                             starts: set<S>, finals: set<S>)
  {
    /** pyformlang adds the endpoints of every transition and every start and final
        state to the state set. */
    ghost predicate Valid() {
      && Distinct(states)
      && (forall t :: t in transitions ==> t.0 in states && t.2 in states)
      && (forall x :: x in starts ==> x in states)
      && (forall x :: x in finals ==> x in states)
    }
  }

  /** The symbols that label at least one transition. */
  function Labels<S(==,!new), Sym(==,!new)>(a: Nfa<S, Sym>): set<Sym> {
    set t | t in a.transitions :: t.1
  }

  /** The states a set of transitions touches; `add_transition` adds both to the
      automaton's state set. */
  function Endpoints<S(==,!new), Sym(==,!new)>(ts: set<(S, Sym, S)>): (r: set<S>)
    ensures forall t :: t in ts ==> t.0 in r && t.2 in r
  {
    (set t | t in ts :: t.0) + (set t | t in ts :: t.2)
  }

  /** Adding a transition adds its two ends. */
  lemma EndpointsAdd<S(!new), Sym(!new)>(ts: set<(S, Sym, S)>, t: (S, Sym, S))
    ensures Endpoints(ts + {t}) == Endpoints(ts) + {t.0, t.2}
  {
  }

  /** One move of the automaton on any symbol. */
  ghost function StepRel<S(!new), Sym(!new)>(a: Nfa<S, Sym>): set<(S, S)> {
    set t | t in a.transitions :: (t.0, t.2)
  }

  /** Moves of the synchronous product: both automata read the same symbol. */
  ghost function ProductSteps<P(!new), N(!new), Sym(!new)>(ta: set<(P, Sym, P)>, tb: set<(N, Sym, N)>): set<((P, N), (P, N))> {
    set t1, t2 | t1 in ta && t2 in tb && t1.1 == t2.1 :: ((t1.0, t2.0), (t1.2, t2.2))
  }

  /** The answer of a regular path query: (x, y) with x a start and y a final node, such
      that some start state of the pattern and x reach, in one or more joint moves of the
      pattern and the graph, some final state of the pattern and y. */
  ghost function RpqAnswer<P(!new), N(!new), Sym(!new)>(pattern: Nfa<P, Sym>, edges: set<(N, Sym, N)>,
                                      starts: set<N>, finals: set<N>): set<(N, N)>
  {
    set x, y, p, q | x in starts && y in finals && p in pattern.starts && q in pattern.finals &&
                     Reach(ProductSteps(pattern.transitions, edges), (p, x), (q, y)) :: (x, y)
  }

  /** The flattened product states `idx1[x] * n2 + idx2[y]` for x in `s1`, y in `s2`. */
  function EncodedPairs<P(==,!new), N(==,!new)>(i1: map<P, nat>, i2: map<N, nat>, n2: nat,
                              s1: set<P>, s2: set<N>): set<nat>
    requires s1 <= i1.Keys && s2 <= i2.Keys
  {
    set x, y | x in s1 && y in s2 :: Encode(i1[x], i2[y], n2)
  }

  /** Product state `x` stands for a state of `a` and a state of `b`: its quotient and
      remainder by `|b.states|` are positions in `a.states` and `b.states`. */
  ghost predicate Decodable<P(!new), N(!new), Sym(!new)>(a: Nfa<P, Sym>, b: Nfa<N, Sym>, x: nat) {
    |b.states| > 0 && x / |b.states| < |a.states|
  }

  /** The pair of states product state `x` stands for. */
  ghost function DecodeState<P(!new), N(!new), Sym(!new)>(a: Nfa<P, Sym>, b: Nfa<N, Sym>, x: nat): (P, N)
    requires Decodable(a, b, x)
  {
    (a.states[x / |b.states|], b.states[x % |b.states|])
  }

  /** Every move of the product automaton `prod` decodes, by `/ |b|` and `% |b|`, to a
      move of `a` and a move of `b` on the same symbol. */
  ghost predicate DecodesToPairs<P(!new), N(!new), Sym(!new)>(a: Nfa<P, Sym>, b: Nfa<N, Sym>, prod: Nfa<nat, Sym>) {
    forall t :: t in prod.transitions ==>
      && Decodable(a, b, t.0) && Decodable(a, b, t.2)
      && (DecodeState(a, b, t.0).0, t.1, DecodeState(a, b, t.2).0) in a.transitions
      && (DecodeState(a, b, t.0).1, t.1, DecodeState(a, b, t.2).1) in b.transitions
  }

  /** Every pair of same-symbol moves of `a` and `b` is a move of the product `prod`,
      between the encoded indices of the pairs of states. */
  ghost predicate EncodesPairs<P(!new), N(!new), Sym(!new)>(a: Nfa<P, Sym>, b: Nfa<N, Sym>, prod: Nfa<nat, Sym>) {
    var n1, n2 := |a.states|, |b.states|;
    forall i1: nat, i2: nat, j1: nat, j2: nat, s ::
      (&& i1 < n1 && j1 < n1 && i2 < n2 && j2 < n2
       && (a.states[i1], s, a.states[j1]) in a.transitions
       && (b.states[i2], s, b.states[j2]) in b.transitions) ==>
      (Encode(i1, i2, n2), s, Encode(j1, j2, n2)) in prod.transitions
  }

  /** A walk between matrix positions of `a` (bit (i, j) set iff some transition goes from
      state i to state j) is a walk between the corresponding states. */
  lemma PositionsToStates<S(!new), Sym(!new)>(a: Nfa<S, Sym>, c: set<(nat, nat)>, i: nat, j: nat)
    requires a.Valid()
    requires forall p :: p in c ==>
      p.0 < |a.states| && p.1 < |a.states| && (a.states[p.0], a.states[p.1]) in StepRel(a)
    requires Reach(c, i, j)
    ensures i < |a.states| && j < |a.states| && Reach(StepRel(a), a.states[i], a.states[j])
  {
    var f := map k: nat | k < |a.states| :: a.states[k];
    ReachImage(c, StepRel(a), f, i, j);
  }

  /** A walk between states of `a` is a walk between their matrix positions. */
  lemma StatesToPositions<S(!new), Sym(!new)>(a: Nfa<S, Sym>, c: set<(nat, nat)>, v: S, u: S)
    requires a.Valid()
    requires forall i: nat, j: nat ::
      (i < |a.states| && j < |a.states| && (a.states[i], a.states[j]) in StepRel(a)) ==> (i, j) in c
    requires Reach(StepRel(a), v, u)
    ensures v in a.states && u in a.states
    ensures Reach(c, IndexOf(a.states)[v], IndexOf(a.states)[u])
  {
    var f := IndexOf(a.states);
    forall x, y | (x, y) in StepRel(a) ensures x in f && y in f && (f[x], f[y]) in c {
      var t :| t in a.transitions && (x, y) == (t.0, t.2);
    }
    ReachImage(StepRel(a), c, f, v, u);
  }

  /** One move of the product automaton is one joint move of its operands. */
  lemma ProductStepToPair<P(!new), N(!new), Sym(!new)>(a: Nfa<P, Sym>, b: Nfa<N, Sym>, prod: Nfa<nat, Sym>, x: nat, y: nat)
    requires DecodesToPairs(a, b, prod)
    requires (x, y) in StepRel(prod)
    ensures Decodable(a, b, x) && Decodable(a, b, y)
    ensures (DecodeState(a, b, x), DecodeState(a, b, y)) in ProductSteps(a.transitions, b.transitions)
  {
    var t :| t in prod.transitions && (x, y) == (t.0, t.2);
    var t1 := (DecodeState(a, b, x).0, t.1, DecodeState(a, b, y).0);
    var t2 := (DecodeState(a, b, x).1, t.1, DecodeState(a, b, y).1);
    assert t1 in a.transitions && t2 in b.transitions;
  }

  /** A walk of the product automaton is a joint walk of its two operands. */
  lemma ProductToPairs<P(!new), N(!new), Sym(!new)>(a: Nfa<P, Sym>, b: Nfa<N, Sym>, prod: Nfa<nat, Sym>, v: nat, u: nat)
    requires DecodesToPairs(a, b, prod)
    requires Reach(StepRel(prod), v, u)
    ensures Decodable(a, b, v) && Decodable(a, b, u)
    ensures Reach(ProductSteps(a.transitions, b.transitions), DecodeState(a, b, v), DecodeState(a, b, u))
  {
    var steps := ProductSteps(a.transitions, b.transitions);
    var f := map x | x in Endpoints(prod.transitions) && Decodable(a, b, x) :: DecodeState(a, b, x);
    forall x, y | (x, y) in StepRel(prod)
      ensures x in f && y in f && (f[x], f[y]) in steps
    {
      var t :| t in prod.transitions && (x, y) == (t.0, t.2);
      ProductStepToPair(a, b, prod, x, y);
    }
    ReachImage(StepRel(prod), steps, f, v, u);
  }

  /** A joint walk of two automata is a walk of their product automaton. */
  lemma PairsToProduct<P(!new), N(!new), Sym(!new)>(a: Nfa<P, Sym>, b: Nfa<N, Sym>, prod: Nfa<nat, Sym>, x: (P, N), y: (P, N))
    requires a.Valid() && b.Valid()
    requires EncodesPairs(a, b, prod)
    requires Reach(ProductSteps(a.transitions, b.transitions), x, y)
    ensures x.0 in a.states && y.0 in a.states && x.1 in b.states && y.1 in b.states
    ensures Reach(StepRel(prod),
                  Encode(IndexOf(a.states)[x.0], IndexOf(b.states)[x.1], |b.states|),
                  Encode(IndexOf(a.states)[y.0], IndexOf(b.states)[y.1], |b.states|))
  {
    var ia, ib, n2 := IndexOf(a.states), IndexOf(b.states), |b.states|;
    var dom := set p, q | p in Elems(a.states) && q in Elems(b.states) :: (p, q);
    var f := map pq | pq in dom :: Encode(ia[pq.0], ib[pq.1], n2);
    var steps := ProductSteps(a.transitions, b.transitions);
    forall pq, pq' | (pq, pq') in steps
      ensures pq in f && pq' in f && (f[pq], f[pq']) in StepRel(prod)
    {
      var t1, t2 :| t1 in a.transitions && t2 in b.transitions && t1.1 == t2.1 &&
                    (pq, pq') == ((t1.0, t2.0), (t1.2, t2.2));
      JointMoveEncoded(a, b, prod, t1, t2);
      assert pq in dom && pq' in dom;
    }
    ReachImage(steps, StepRel(prod), f, x, y);
  }

  /** A joint move of `a` and `b` is a move of their product between the encoded
      indices of its ends. */
  lemma JointMoveEncoded<P(!new), N(!new), Sym(!new)>(a: Nfa<P, Sym>, b: Nfa<N, Sym>, prod: Nfa<nat, Sym>,
      t1: (P, Sym, P), t2: (N, Sym, N))
    requires a.Valid() && b.Valid() && EncodesPairs(a, b, prod)
    requires t1 in a.transitions && t2 in b.transitions && t1.1 == t2.1
    ensures t1.0 in IndexOf(a.states) && t1.2 in IndexOf(a.states)
    ensures t2.0 in IndexOf(b.states) && t2.2 in IndexOf(b.states)
    ensures (Encode(IndexOf(a.states)[t1.0], IndexOf(b.states)[t2.0], |b.states|),
             Encode(IndexOf(a.states)[t1.2], IndexOf(b.states)[t2.2], |b.states|)) in StepRel(prod)
  {
    var ia, ib, n2 := IndexOf(a.states), IndexOf(b.states), |b.states|;
    var i1, j1, i2, j2 := ia[t1.0], ia[t1.2], ib[t2.0], ib[t2.2];
    assert (a.states[i1], t1.1, a.states[j1]) in a.transitions;
    assert (b.states[i2], t1.1, b.states[j2]) in b.transitions;
    var t := (Encode(i1, i2, n2), t1.1, Encode(j1, j2, n2));
    assert t in prod.transitions;
  }

  /** A flattened pair of states decodes back to that pair. */
  lemma DecodeEncoded<P(!new), N(!new), Sym(!new)>(a: Nfa<P, Sym>, b: Nfa<N, Sym>, p: P, x: N)
    requires a.Valid() && b.Valid() && p in a.states && x in b.states
    ensures Decodable(a, b, Encode(IndexOf(a.states)[p], IndexOf(b.states)[x], |b.states|))
    ensures DecodeState(a, b, Encode(IndexOf(a.states)[p], IndexOf(b.states)[x], |b.states|)) == (p, x)
  {
    EncodeDecode(IndexOf(a.states)[p], IndexOf(b.states)[x], |b.states|);
  }

  /** Every flattened start (or final) state is the encoding of a pair of such states. */
  lemma EncodedPairsMember<P(!new), N(!new), Sym(!new)>(a: Nfa<P, Sym>, b: Nfa<N, Sym>,
      s1: set<P>, s2: set<N>, v: nat) returns (p: P, x: N)
    requires a.Valid() && b.Valid() && s1 <= Elems(a.states) && s2 <= Elems(b.states)
    requires v in EncodedPairs(IndexOf(a.states), IndexOf(b.states), |b.states|, s1, s2)
    ensures p in s1 && x in s2 && p in a.states && x in b.states
    ensures v == Encode(IndexOf(a.states)[p], IndexOf(b.states)[x], |b.states|)
    ensures Decodable(a, b, v) && DecodeState(a, b, v) == (p, x)
  {
    p, x :| p in s1 && x in s2 && v == Encode(IndexOf(a.states)[p], IndexOf(b.states)[x], |b.states|);
    DecodeEncoded(a, b, p, x);
  }
}
