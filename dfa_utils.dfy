/** `project/dfa_utils.py`: a labelled graph as an automaton, automata as boolean
    adjacency matrices (one per symbol), the intersection of two automata by Kronecker
    products, and the regular path query answered by a transitive closure of the
    product's adjacency matrix. */
module DfaUtils {
  import opened Collections
  import opened BoolMatrices
  import opened Paths
  import opened Graphs
  import opened Automata

  /** `add_transitions` of every edge: the transitions and the states they touch. */
  method AddEdges<N(==,!new), L(==,!new)>(edges: seq<(N, L, N)>)
    returns (trans: set<(N, L, N)>, states: set<N>)
    ensures trans == Elems(edges) && states == Endpoints(trans)
  {
    trans, states := {}, {};
    for k := 0 to |edges|
      invariant trans == Elems(edges[..k])
      invariant states == Endpoints(trans)
    {
      assert edges[..k + 1] == edges[..k] + [edges[k]];
      ElemsSnoc(edges[..k], edges[k]);
      EndpointsAdd(trans, edges[k]);
      trans := trans + {edges[k]};
      states := states + {edges[k].0, edges[k].2};
    }
    assert edges[..|edges|] == edges;
  }

  /** `add_start_state` (or `add_final_state`) of every node in turn. */
  method AddStates<N(==,!new)>(nodes: seq<N>) returns (r: set<N>)
    ensures r == Elems(nodes)
  {
    r := {};
    for k := 0 to |nodes|
      invariant r == Elems(nodes[..k])
    {
      assert nodes[..k + 1] == nodes[..k] + [nodes[k]];
      ElemsSnoc(nodes[..k], nodes[k]);
      r := r + {nodes[k]};
    }
    assert nodes[..|nodes|] == nodes;
  }

  /** `graph2nfa`: every edge becomes a transition on its label; the given nodes become
      start and final states. The state set is whatever the transitions, the starts and
      the finals touch, in some iteration order. */
  method Graph2Nfa<N(==,!new), L(==,!new)>(g: Graph<N, L>, starts: seq<N>, finals: seq<N>)
    returns (a: Nfa<N, L>)
    ensures a.Valid()
    ensures a.transitions == Elems(g.edges)
    ensures a.starts == Elems(starts) && a.finals == Elems(finals)
    ensures Elems(a.states) == Endpoints(Elems(g.edges)) + Elems(starts) + Elems(finals)
  {
    var trans, states := AddEdges(g.edges);
    var ss := AddStates(starts);
    var fs := AddStates(finals);
    var order := Enumerate(states + ss + fs);
    a := Nfa(order, trans, ss, fs);
  }

  /** The exception `graph2nfa` raises when it is left with its default `None` for the
      start or the final nodes: iterating over `None` is a `TypeError`. */
  datatype ArgError = NoneNotIterable

  /** `graph2nfa` with its optional arguments: `None` (the default) for either node
      sequence raises, and otherwise the automaton is the one `Graph2Nfa` builds. */
  method Graph2NfaOptional<N(==,!new), L(==,!new)>(g: Graph<N, L>, starts: Option<seq<N>>,
                                                  finals: Option<seq<N>>)
    returns (r: Result<Nfa<N, L>, ArgError>)
    ensures r.Err? <==> starts.None? || finals.None?
    ensures r.Ok? ==> r.value.Valid() && r.value.transitions == Elems(g.edges)
    ensures r.Ok? ==> r.value.starts == Elems(starts.value) && r.value.finals == Elems(finals.value)
    ensures r.Ok? ==> Elems(r.value.states) == Endpoints(Elems(g.edges)) + Elems(starts.value) + Elems(finals.value)
  {
    if starts.None? || finals.None? {
      return Err(NoneNotIterable);
    }
    var a := Graph2Nfa(g, starts.value, finals.value);
    return Ok(a);
  }

  /** The adjacency relation of the transitions `ts` on symbol `s`, states numbered by
      their position in `a.states`. */
  ghost function Adjacency<S(!new), Sym(!new)>(a: Nfa<S, Sym>, ts: set<(S, Sym, S)>, s: Sym)
    : set<(nat, nat)>
  {
    set i: nat, j: nat | i < |a.states| && j < |a.states| && (a.states[i], s, a.states[j]) in ts
      :: (i, j)
  }

  /** `mats` holds, for every symbol of the transitions `ts` and for no other, the
      `|a.states|`-square adjacency matrix of `ts` on that symbol. */
  ghost predicate MatricesOf<S(!new), Sym(!new)>(a: Nfa<S, Sym>, ts: set<(S, Sym, S)>,
                                                mats: map<Sym, BoolMatrix>)
  {
    && mats.Keys == (set t | t in ts :: t.1)
    && (forall s :: s in mats ==> mats[s] == BoolMatrix(|a.states|, Adjacency(a, ts, s)))
    && (forall s :: s in mats ==> mats[s].Valid())
  }

  /** `mats.setdefault(s, dok_matrix((n, n)))[i, j] = 1`. */
  function SetDefaultBit<Sym(==)>(mats: map<Sym, BoolMatrix>, s: Sym, n: nat, i: nat, j: nat)
    : (r: map<Sym, BoolMatrix>)
    requires forall s' :: s' in mats ==> mats[s'].Valid() && mats[s'].size == n
    requires i < n && j < n
    ensures r.Keys == mats.Keys + {s}
    ensures forall s' :: s' in r ==> r[s'].Valid() && r[s'].size == n
    ensures forall s' :: s' in mats && s' != s ==> r[s'] == mats[s']
    ensures r[s].bits == (if s in mats then mats[s].bits else {}) + {(i, j)}
  {
    var m := if s in mats then mats[s] else Zero(n);
    mats[s := SetBit(m, i, j)]
  }

  /** A new transition on `t.1` adds exactly its own pair of positions to the
      adjacency relation on `t.1`. */
  lemma AdjacencyAdd<S(!new), Sym(!new)>(a: Nfa<S, Sym>, ts: set<(S, Sym, S)>,
      t: (S, Sym, S), i: nat, j: nat)
    requires Distinct(a.states)
    requires i < |a.states| && j < |a.states| && a.states[i] == t.0 && a.states[j] == t.2
    ensures Adjacency(a, ts + {t}, t.1) == Adjacency(a, ts, t.1) + {(i, j)}
  {
    forall p | p in Adjacency(a, ts + {t}, t.1) ensures p in Adjacency(a, ts, t.1) + {(i, j)} {
      var (i', j') := p;
      if (a.states[i'], t.1, a.states[j']) == t {
        assert i' == i && j' == j;
      }
    }
  }

  /** ... and leaves the adjacency relations on the other symbols alone. */
  lemma AdjacencyAddOther<S(!new), Sym(!new)>(a: Nfa<S, Sym>, ts: set<(S, Sym, S)>,
      t: (S, Sym, S), s: Sym)
    requires s != t.1
    ensures Adjacency(a, ts + {t}, s) == Adjacency(a, ts, s)
  {
  }

  /** Setting the bit of one more transition keeps the matrices those of the
      transitions seen so far. */
  lemma MatricesOfAdd<S(!new), Sym(!new)>(a: Nfa<S, Sym>, ts: set<(S, Sym, S)>,
      mats: map<Sym, BoolMatrix>, t: (S, Sym, S), i: nat, j: nat)
    requires Distinct(a.states) && MatricesOf(a, ts, mats)
    requires i < |a.states| && j < |a.states| && a.states[i] == t.0 && a.states[j] == t.2
    ensures forall s :: s in mats ==> mats[s].Valid() && mats[s].size == |a.states|
    ensures MatricesOf(a, ts + {t}, SetDefaultBit(mats, t.1, |a.states|, i, j))
  {
    var n := |a.states|;
    forall s | s in mats ensures mats[s].Valid() && mats[s].size == n {
      assert mats[s] == BoolMatrix(n, Adjacency(a, ts, s));
    }
    var r := SetDefaultBit(mats, t.1, n, i, j);
    forall s | s in r ensures r[s] == BoolMatrix(n, Adjacency(a, ts + {t}, s)) {
      if s == t.1 {
        AdjacencyAdd(a, ts, t, i, j);
      } else {
        AdjacencyAddOther(a, ts, t, s);
      }
    }
    LabelsAdd(ts, t);
  }

  /** The symbols of one more transition. */
  lemma LabelsAdd<S(!new), Sym(!new)>(ts: set<(S, Sym, S)>, t: (S, Sym, S))
    ensures (set t' | t' in ts + {t} :: t'.1) == (set t' | t' in ts :: t'.1) + {t.1}
  {
  }

  /** One step of the loop over the transitions of `a`. */
  lemma MatricesOfStep<S(!new), Sym(!new)>(a: Nfa<S, Sym>, rest: set<(S, Sym, S)>,
      mats: map<Sym, BoolMatrix>, t: (S, Sym, S))
    requires a.Valid() && rest <= a.transitions && t in rest
    requires MatricesOf(a, a.transitions - rest, mats)
    ensures t.0 in IndexOf(a.states) && t.2 in IndexOf(a.states)
    ensures IndexOf(a.states)[t.0] < |a.states| && IndexOf(a.states)[t.2] < |a.states|
    ensures forall s :: s in mats ==> mats[s].Valid() && mats[s].size == |a.states|
    ensures MatricesOf(a, a.transitions - (rest - {t}),
                       SetDefaultBit(mats, t.1, |a.states|, IndexOf(a.states)[t.0], IndexOf(a.states)[t.2]))
  {
    var index := IndexOf(a.states);
    MatricesOfAdd(a, a.transitions - rest, mats, t, index[t.0], index[t.2]);
    TakeOne(a.transitions, rest, t);
  }

  /** `nfa_to_bool_matrices`: the index of every state, one adjacency matrix per symbol
      that labels a transition (created the first time the symbol is seen), and the start
      and final states. */
  method NfaToBoolMatrices<S(==,!new), Sym(==,!new)>(a: Nfa<S, Sym>)
    returns (index: map<S, nat>, mats: map<Sym, BoolMatrix>, starts: set<S>, finals: set<S>)
    requires a.Valid()
    ensures index == IndexOf(a.states)
    ensures mats.Keys == Labels(a)
    ensures MatricesOf(a, a.transitions, mats)
    ensures starts == a.starts && finals == a.finals
  {
    index := IndexOf(a.states);
    var n := |a.states|;
    mats := map[];
    var rest := a.transitions;
    while rest != {}
      invariant rest <= a.transitions
      invariant MatricesOf(a, a.transitions - rest, mats)
      decreases |rest|
    {
      var t :| t in rest;
      var (v, s, u) := t;
      MatricesOfStep(a, rest, mats, t);
      TakeOne(a.transitions, rest, t);
      mats := SetDefaultBit(mats, s, n, index[v], index[u]);
      rest := rest - {t};
    }
    assert a.transitions - rest == a.transitions;
    starts, finals := a.starts, a.finals;
  }

  /** The moves `(i, s, j)` of a product automaton, one for each bit (i, j) of the
      Kronecker product of the operands' matrices for each symbol `s` in `syms`. */
  function IntersectMoves<Sym(==,!new)>(ma: map<Sym, BoolMatrix>, mb: map<Sym, BoolMatrix>,
                                        syms: set<Sym>): set<(nat, Sym, nat)>
    requires syms <= ma.Keys && syms <= mb.Keys
    requires forall s :: s in ma ==> ma[s].Valid()
    requires forall s :: s in mb ==> mb[s].Valid()
  {
    set s, p | s in syms && p in KronBits(ma[s].bits, mb[s].bits, mb[s].size) :: (p.0, s, p.1)
  }

  /** The moves of a product automaton as line 51 of `dfa_utils.py` builds them: the
      Kronecker product of the left operand's matrix with itself. */
  function IntersectMovesAsWritten<Sym(==,!new)>(ma: map<Sym, BoolMatrix>,
                                                 mb: map<Sym, BoolMatrix>,
                                                 syms: set<Sym>): set<(nat, Sym, nat)>
    requires syms <= ma.Keys && syms <= mb.Keys
    requires forall s :: s in ma ==> ma[s].Valid()
  {
    set s, p | s in syms && p in KronBits(ma[s].bits, ma[s].bits, ma[s].size) :: (p.0, s, p.1)
  }

  /** A bit of the Kronecker product on a common symbol is a move. */
  lemma IntersectMovesMember<Sym(!new)>(ma: map<Sym, BoolMatrix>, mb: map<Sym, BoolMatrix>,
      syms: set<Sym>, s: Sym, p: (nat, nat))
    requires syms <= ma.Keys && syms <= mb.Keys
    requires forall s' :: s' in ma ==> ma[s'].Valid()
    requires forall s' :: s' in mb ==> mb[s'].Valid()
    requires s in syms && p in KronBits(ma[s].bits, mb[s].bits, mb[s].size)
    ensures (p.0, s, p.1) in IntersectMoves(ma, mb, syms)
  {
  }

  /** Every move of the product as written is a bit of the left matrix's square. */
  lemma AsWrittenMember<Sym(!new)>(ma: map<Sym, BoolMatrix>, mb: map<Sym, BoolMatrix>,
      syms: set<Sym>, x: nat, s: Sym, y: nat)
    requires syms <= ma.Keys && syms <= mb.Keys
    requires forall s' :: s' in ma ==> ma[s'].Valid()
    requires (x, s, y) in IntersectMovesAsWritten(ma, mb, syms)
    ensures s in syms && (x, y) in KronBits(ma[s].bits, ma[s].bits, ma[s].size)
  {
    var s', p :| s' in syms && p in KronBits(ma[s'].bits, ma[s'].bits, ma[s'].size) && (x, s, y) == (p.0, s', p.1);
  }

  /** The left operand has one state with a loop on 'a'; the right one has a move from
      state 0 to state 1 on 'a'. The joint move from (0, 0), encoded 0 * 2 + 0, to (0, 1),
      encoded 0 * 2 + 1, is a move of the intended product and is missing from the
      product as written. */
  lemma AsWrittenMissesJointMove()
    ensures var ma := map['a' := BoolMatrix(1, {(0, 0)})];
            var mb := map['a' := BoolMatrix(2, {(0, 1)})];
            && (Encode(0, 0, 2), 'a', Encode(0, 1, 2)) in IntersectMoves(ma, mb, {'a'})
            && (Encode(0, 0, 2), 'a', Encode(0, 1, 2)) !in IntersectMovesAsWritten(ma, mb, {'a'})
  {
    var m1, m2 := BoolMatrix(1, {(0, 0)}), BoolMatrix(2, {(0, 1)});
    var ma, mb := map['a' := m1], map['a' := m2];
    var p := (Encode(0, 0, 2), Encode(0, 1, 2));
    KronBitsRule(m1, m2, 0, 0, 0, 1);
    IntersectMovesMember(ma, mb, {'a'}, 'a', p);
    if (p.0, 'a', p.1) in IntersectMovesAsWritten(ma, mb, {'a'}) {
      AsWrittenMember(ma, mb, {'a'}, p.0, 'a', p.1);
      KronBitsDecode(m1, m1, p);
      assert false;
    }
  }

  /** One transition per bit of `m`: `for v, u in zip(*m.nonzero()): add_transition(v, s, u)`. */
  method AddMatrixMoves<Sym(==,!new)>(trans: set<(nat, Sym, nat)>, s: Sym, m: BoolMatrix)
    returns (r: set<(nat, Sym, nat)>)
    ensures r == trans + set p | p in m.bits :: (p.0, s, p.1)
  {
    r := trans;
    var rest := m.bits;
    ghost var done: set<(nat, nat)> := {};
    while rest != {}
      invariant done + rest == m.bits && done !! rest
      invariant r == trans + set p | p in done :: (p.0, s, p.1)
      decreases |rest|
    {
      var p :| p in rest;
      r := r + {(p.0, s, p.1)};
      done := done + {p};
      rest := rest - {p};
    }
  }

  /** The flattened product states `i1[x] * n2 + i2[y]` for every x in `s1` and y in `s2`,
      as the nested loops over start (or final) states add them. */
  method ProductStates<P(==,!new), N(==,!new)>(i1: map<P, nat>, i2: map<N, nat>, n2: nat,
                                              s1: set<P>, s2: set<N>) returns (r: set<nat>)
    requires s1 <= i1.Keys && s2 <= i2.Keys
    ensures r == EncodedPairs(i1, i2, n2, s1, s2)
  {
    r := {};
    var rest1 := s1;
    while rest1 != {}
      invariant rest1 <= s1
      invariant r == EncodedPairs(i1, i2, n2, s1 - rest1, s2)
      decreases |rest1|
    {
      var x :| x in rest1;
      var row := ProductStatesRow(i1, i2, n2, x, s2);
      r := r + row;
      EncodedPairsAdd(i1, i2, n2, s1 - rest1, x, s2);
      TakeOne(s1, rest1, x);
      rest1 := rest1 - {x};
    }
  }

  /** The inner loop of the nested loops over start (or final) states: the flattened
      states of `x` paired with every state of `s2`. */
  method ProductStatesRow<P(==,!new), N(==,!new)>(i1: map<P, nat>, i2: map<N, nat>, n2: nat,
                                                 x: P, s2: set<N>) returns (r: set<nat>)
    requires x in i1 && s2 <= i2.Keys
    ensures r == set y | y in s2 :: Encode(i1[x], i2[y], n2)
  {
    r := {};
    var rest := s2;
    while rest != {}
      invariant rest <= s2
      invariant r == set y | y in s2 - rest :: Encode(i1[x], i2[y], n2)
      decreases |rest|
    {
      var y :| y in rest;
      r := r + {Encode(i1[x], i2[y], n2)};
      TakeOne(s2, rest, y);
      rest := rest - {y};
    }
  }

  /** The pairs with one more left state. */
  lemma EncodedPairsAdd<P(!new), N(!new)>(i1: map<P, nat>, i2: map<N, nat>, n2: nat,
                                          s1: set<P>, x: P, s2: set<N>)
    requires s1 <= i1.Keys && x in i1 && s2 <= i2.Keys
    ensures EncodedPairs(i1, i2, n2, s1 + {x}, s2) ==
            EncodedPairs(i1, i2, n2, s1, s2) + set y | y in s2 :: Encode(i1[x], i2[y], n2)
  {
  }

  /** One bit of the Kronecker product of the adjacency matrices on symbol `s` decodes
      to a move of `a` and a move of `b` on `s`. */
  lemma KronBitDecodes<P(!new), N(!new), Sym(!new)>(a: Nfa<P, Sym>, b: Nfa<N, Sym>,
      s: Sym, p: (nat, nat))
    requires p in KronBits(Adjacency(a, a.transitions, s), Adjacency(b, b.transitions, s), |b.states|)
    ensures Decodable(a, b, p.0) && Decodable(a, b, p.1)
    ensures (DecodeState(a, b, p.0).0, s, DecodeState(a, b, p.1).0) in a.transitions
    ensures (DecodeState(a, b, p.0).1, s, DecodeState(a, b, p.1).1) in b.transitions
  {
    var ma := BoolMatrix(|a.states|, Adjacency(a, a.transitions, s));
    var mb := BoolMatrix(|b.states|, Adjacency(b, b.transitions, s));
    KronBitsDecode(ma, mb, p);
  }

  /** Every move built from the Kronecker products is a joint move of the operands. */
  lemma IntersectMovesDecode<P(!new), N(!new), Sym(!new)>(a: Nfa<P, Sym>, b: Nfa<N, Sym>,
      ma: map<Sym, BoolMatrix>, mb: map<Sym, BoolMatrix>, prod: Nfa<nat, Sym>)
    requires MatricesOf(a, a.transitions, ma) && MatricesOf(b, b.transitions, mb)
    requires prod.transitions == IntersectMoves(ma, mb, ma.Keys * mb.Keys)
    ensures DecodesToPairs(a, b, prod)
  {
    forall t | t in prod.transitions
      ensures && Decodable(a, b, t.0) && Decodable(a, b, t.2)
              && (DecodeState(a, b, t.0).0, t.1, DecodeState(a, b, t.2).0) in a.transitions
              && (DecodeState(a, b, t.0).1, t.1, DecodeState(a, b, t.2).1) in b.transitions
    {
      var s, p :| s in ma.Keys * mb.Keys && p in KronBits(ma[s].bits, mb[s].bits, mb[s].size) &&
                  t == (p.0, s, p.1);
      assert ma[s] == BoolMatrix(|a.states|, Adjacency(a, a.transitions, s));
      assert mb[s] == BoolMatrix(|b.states|, Adjacency(b, b.transitions, s));
      KronBitDecodes(a, b, s, p);
    }
  }

  /** A move of `a` and a move of `b` on a common symbol give a move built from the
      Kronecker product on that symbol. */
  lemma JointMoveEncodes<P(!new), N(!new), Sym(!new)>(a: Nfa<P, Sym>, b: Nfa<N, Sym>,
      ma: map<Sym, BoolMatrix>, mb: map<Sym, BoolMatrix>,
      i1: nat, i2: nat, j1: nat, j2: nat, s: Sym)
    requires MatricesOf(a, a.transitions, ma) && MatricesOf(b, b.transitions, mb)
    requires i1 < |a.states| && j1 < |a.states| && i2 < |b.states| && j2 < |b.states|
    requires (a.states[i1], s, a.states[j1]) in a.transitions
    requires (b.states[i2], s, b.states[j2]) in b.transitions
    ensures (Encode(i1, i2, |b.states|), s, Encode(j1, j2, |b.states|)) in
            IntersectMoves(ma, mb, ma.Keys * mb.Keys)
  {
    var ta, tb := (a.states[i1], s, a.states[j1]), (b.states[i2], s, b.states[j2]);
    assert s == ta.1 && s == tb.1;
    assert s in ma && s in mb;
    assert (i1, j1) in Adjacency(a, a.transitions, s);
    assert (i2, j2) in Adjacency(b, b.transitions, s);
    KronBitsRule(ma[s], mb[s], i1, i2, j1, j2);
    IntersectMovesMember(ma, mb, ma.Keys * mb.Keys, s,
                         (Encode(i1, i2, |b.states|), Encode(j1, j2, |b.states|)));
  }

  /** Every joint move of the operands is a move built from the Kronecker products. */
  lemma IntersectMovesEncode<P(!new), N(!new), Sym(!new)>(a: Nfa<P, Sym>, b: Nfa<N, Sym>,
      ma: map<Sym, BoolMatrix>, mb: map<Sym, BoolMatrix>, prod: Nfa<nat, Sym>)
    requires MatricesOf(a, a.transitions, ma) && MatricesOf(b, b.transitions, mb)
    requires prod.transitions == IntersectMoves(ma, mb, ma.Keys * mb.Keys)
    ensures EncodesPairs(a, b, prod)
  {
    var n1, n2 := |a.states|, |b.states|;
    forall i1: nat, i2: nat, j1: nat, j2: nat, s |
      && i1 < n1 && j1 < n1 && i2 < n2 && j2 < n2
      && (a.states[i1], s, a.states[j1]) in a.transitions
      && (b.states[i2], s, b.states[j2]) in b.transitions
      ensures (Encode(i1, i2, n2), s, Encode(j1, j2, n2)) in prod.transitions
    {
      JointMoveEncodes(a, b, ma, mb, i1, i2, j1, j2, s);
    }
  }

  /** Adding the moves of one more symbol. */
  lemma IntersectMovesAdd<Sym(!new)>(ma: map<Sym, BoolMatrix>, mb: map<Sym, BoolMatrix>,
      syms: set<Sym>, s: Sym)
    requires syms <= ma.Keys && syms <= mb.Keys && s in ma && s in mb
    requires forall s' :: s' in ma ==> ma[s'].Valid()
    requires forall s' :: s' in mb ==> mb[s'].Valid()
    ensures IntersectMoves(ma, mb, syms + {s}) ==
            IntersectMoves(ma, mb, syms) +
            set p | p in KronBits(ma[s].bits, mb[s].bits, mb[s].size) :: (p.0, s, p.1)
  {
  }

  /** The transitions of `nfa_intersect`'s product: for every symbol of both automata, one transition per
      bit of the Kronecker product of their matrices on that symbol. The source's line 51
      builds the Kronecker product of the left operand's matrix with itself; this is the
      evidently intended `kron(m1[s], m2[s])` (see `IntersectMovesAsWritten` and
      `AsWrittenMissesJointMove`). */
  method ProductMoves<Sym(==,!new)>(ma: map<Sym, BoolMatrix>, mb: map<Sym, BoolMatrix>)
    returns (trans: set<(nat, Sym, nat)>)
    requires forall s :: s in ma ==> ma[s].Valid()
    requires forall s :: s in mb ==> mb[s].Valid()
    ensures trans == IntersectMoves(ma, mb, ma.Keys * mb.Keys)
  {
    var symbols := ma.Keys * mb.Keys;
    trans := {};
    var rest := symbols;
    while rest != {}
      invariant rest <= symbols
      invariant trans == IntersectMoves(ma, mb, symbols - rest)
      decreases |rest|
    {
      var s :| s in rest;
      var m := Kron(ma[s], mb[s]);
      trans := AddMatrixMoves(trans, s, m);
      IntersectMovesAdd(ma, mb, symbols - rest, s);
      TakeOne(symbols, rest, s);
      rest := rest - {s};
    }
  }

  /** `nfa_intersect`: the product automaton, numbered by `i1 * |b| + i2`. Its moves are
      exactly the joint moves of the operands on a common symbol, and its start (final)
      states are the encoded pairs of start (final) states. */
  method NfaIntersect<P(==,!new), N(==,!new), Sym(==,!new)>(a: Nfa<P, Sym>, b: Nfa<N, Sym>)
    returns (r: Nfa<nat, Sym>)
    requires a.Valid() && b.Valid()
    ensures r.Valid()
    ensures DecodesToPairs(a, b, r) && EncodesPairs(a, b, r)
    ensures r.starts == EncodedPairs(IndexOf(a.states), IndexOf(b.states), |b.states|, a.starts, b.starts)
    ensures r.finals == EncodedPairs(IndexOf(a.states), IndexOf(b.states), |b.states|, a.finals, b.finals)
  {
    var ia, ma, ss1, fs1 := NfaToBoolMatrices(a);
    var ib, mb, ss2, fs2 := NfaToBoolMatrices(b);
    var trans := ProductMoves(ma, mb);
    // len(state_to_inx) of the right operand
    var n2 := |b.states|;
    var starts := ProductStates(ia, ib, n2, ss1, ss2);
    var finals := ProductStates(ia, ib, n2, fs1, fs2);
    var order := Enumerate(Endpoints(trans) + starts + finals);
    r := Nfa(order, trans, starts, finals);
    IntersectMovesDecode(a, b, ma, mb, r);
    IntersectMovesEncode(a, b, ma, mb, r);
  }

  /** `c_matrix |= matrix` for every matrix: bit (i, j) is set iff some matrix has it. */
  method UnionMatrix<Sym(==,!new)>(mats: map<Sym, BoolMatrix>, n: nat) returns (c: BoolMatrix)
    requires forall s :: s in mats ==> mats[s].Valid() && mats[s].size == n
    ensures c.Valid() && c.size == n
    ensures forall p :: p in c.bits <==> exists s :: s in mats && p in mats[s].bits
  {
    c := Zero(n);
    var rest := mats.Keys;
    while rest != {}
      invariant rest <= mats.Keys
      invariant c.Valid() && c.size == n
      invariant forall p :: p in c.bits <==> exists s :: s in mats.Keys - rest && p in mats[s].bits
      decreases |rest|
    {
      var s :| s in rest;
      c := Or(c, mats[s]);
      rest := rest - {s};
    }
  }

  /** One round `c += c @ c` keeps every bit a walk of `c0`. */
  lemma SquareSound(c0: set<(nat, nat)>, r: BoolMatrix)
    requires r.Valid()
    requires forall i: nat, j: nat :: (i, j) in r.bits ==> Reach(c0, i, j)
    ensures forall i: nat, j: nat :: (i, j) in Mul(r, r).bits ==> Reach(c0, i, j)
  {
    forall i: nat, j: nat | (i, j) in Mul(r, r).bits ensures Reach(c0, i, j) {
      var k: nat :| (i, k) in r.bits && (k, j) in r.bits;
      ReachTrans(c0, i, k, j);
    }
  }

  /** A matrix closed under squaring is a transitive relation. */
  lemma SquareClosedTransitive(r: BoolMatrix)
    requires r.Valid() && Mul(r, r).bits <= r.bits
    ensures forall x, y, z :: (x, y) in r.bits && (y, z) in r.bits ==> (x, z) in r.bits
  {
    forall x: nat, y: nat, z: nat | (x, y) in r.bits && (y, z) in r.bits ensures (x, z) in r.bits {
      assert (x, z) in Mul(r, r).bits;
    }
  }

  /** The closure loop of `query`: `c += c @ c` until the number of set bits stops changing.
      The result is the transitive closure of `c`: bit (i, j) is set iff j is reachable
      from i in one or more steps. */
  method Closure(c: BoolMatrix) returns (r: BoolMatrix)
    requires c.Valid()
    ensures r.Valid() && r.size == c.size
    ensures forall i: nat, j: nat :: (i, j) in r.bits <==> Reach(c.bits, i, j)
  {
    r := c;
    var flag := false;
    forall i: nat, j: nat | (i, j) in c.bits ensures Reach(c.bits, i, j) {
      ReachStep(c.bits, i, j);
    }
    while !flag
      invariant r.Valid() && r.size == c.size
      invariant c.bits <= r.bits
      invariant forall i: nat, j: nat :: (i, j) in r.bits ==> Reach(c.bits, i, j)
      invariant flag ==> Mul(r, r).bits <= r.bits
      decreases |Grid(c.size) - r.bits| + (if flag then 0 else 1)
    {
      var p1 := r.Count();
      var next := Or(r, Mul(r, r));
      SquareSound(c.bits, r);
      ValidInGrid(r);
      ValidInGrid(next);
      if p1 != next.Count() {
        GrowthShrinksComplement(Grid(c.size), r.bits, next.bits);
      } else {
        SubsetSameSize(r.bits, next.bits);
      }
      r := next;
      flag := p1 == r.Count();
    }
    SquareClosedTransitive(r);
    forall i: nat, j: nat | Reach(c.bits, i, j) ensures (i, j) in r.bits {
      var p :| IsPath(c.bits, p) && p[0] == i && p[|p| - 1] == j;
      ReachWithinClosed(c.bits, r.bits, p);
    }
  }

  /** Closing an already closed matrix changes nothing: the loop of `query` stops after
      one round on its own output. */
  lemma ClosureIdempotent(c: BoolMatrix, r: BoolMatrix, r2: BoolMatrix)
    requires forall i: nat, j: nat :: (i, j) in r.bits <==> Reach(c.bits, i, j)
    requires forall i: nat, j: nat :: (i, j) in r2.bits <==> Reach(r.bits, i, j)
    ensures r2.bits == r.bits
  {
    forall x, y, z | (x, y) in r.bits && (y, z) in r.bits ensures (x, z) in r.bits {
      ReachTrans(c.bits, x, y, z);
    }
    forall p | p in r2.bits ensures p in r.bits {
      ReachOfTransitive(r.bits, p.0, p.1);
    }
    forall p | p in r.bits ensures p in r2.bits {
      ReachOfTransitive(r.bits, p.0, p.1);
    }
  }

  /** Bit (i, j) of `c` is set iff some transition of `a` goes from state i to state j. */
  ghost predicate StepMatrix<S(!new), Sym(!new)>(a: Nfa<S, Sym>, c: set<(nat, nat)>) {
    forall i: nat, j: nat :: (i, j) in c <==>
      i < |a.states| && j < |a.states| && (a.states[i], a.states[j]) in StepRel(a)
  }

  /** The union of the per-symbol matrices is the one-step adjacency matrix. */
  lemma UnionIsStepMatrix<S(!new), Sym(!new)>(a: Nfa<S, Sym>, mats: map<Sym, BoolMatrix>,
      c: set<(nat, nat)>)
    requires a.Valid() && MatricesOf(a, a.transitions, mats)
    requires forall p :: p in c <==> exists s :: s in mats && p in mats[s].bits
    ensures StepMatrix(a, c)
  {
    forall i: nat, j: nat ensures (i, j) in c <==>
      i < |a.states| && j < |a.states| && (a.states[i], a.states[j]) in StepRel(a)
    {
      if (i, j) in c {
        var s :| s in mats && (i, j) in mats[s].bits;
        assert (i, j) in Adjacency(a, a.transitions, s);
        var t := (a.states[i], s, a.states[j]);
        assert t in a.transitions;
      }
      if i < |a.states| && j < |a.states| && (a.states[i], a.states[j]) in StepRel(a) {
        var t :| t in a.transitions && (a.states[i], a.states[j]) == (t.0, t.2);
        assert t.1 in mats;
        assert (i, j) in Adjacency(a, a.transitions, t.1);
      }
    }
  }

  /** What `query` knows about the automata it builds: `prod` is the product of the
      pattern and the graph's automaton `g2`, as `NfaIntersect` promises. */
  ghost predicate ProductOf<P(!new), N(!new), Sym(!new)>(pattern: Nfa<P, Sym>, g2: Nfa<N, Sym>,
                                                      prod: Nfa<nat, Sym>) {
    && pattern.Valid() && g2.Valid() && prod.Valid()
    && DecodesToPairs(pattern, g2, prod) && EncodesPairs(pattern, g2, prod)
    && prod.starts == EncodedPairs(IndexOf(pattern.states), IndexOf(g2.states), |g2.states|,
                                   pattern.starts, g2.starts)
    && prod.finals == EncodedPairs(IndexOf(pattern.states), IndexOf(g2.states), |g2.states|,
                                   pattern.finals, g2.finals)
  }

  /** Bit `p` of the closure joins a start state to a final state of the product. */
  ghost predicate Hit<N(!new), Sym(!new)>(prod: Nfa<nat, Sym>, states2: seq<N>, p: (nat, nat)) {
    && p.0 < |prod.states| && p.1 < |prod.states|
    && prod.states[p.0] in prod.starts && prod.states[p.1] in prod.finals
    && |states2| > 0
  }

  /** The pair of graph nodes such a bit reports: `states_list[id % n_states]`. */
  ghost function AnswerOf<N(!new), Sym(!new)>(prod: Nfa<nat, Sym>, states2: seq<N>, p: (nat, nat)): (N, N)
    requires Hit(prod, states2, p)
  {
    (states2[prod.states[p.0] % |states2|], states2[prod.states[p.1] % |states2|])
  }

  /** The pairs reported for the bits `bits`. */
  ghost function Answers<N(!new), Sym(!new)>(prod: Nfa<nat, Sym>, states2: seq<N>,
                                           bits: set<(nat, nat)>): set<(N, N)>
  {
    set p | p in bits && Hit(prod, states2, p) :: AnswerOf(prod, states2, p)
  }

  lemma AnswersAdd<N(!new), Sym(!new)>(prod: Nfa<nat, Sym>, states2: seq<N>,
      bits: set<(nat, nat)>, p: (nat, nat))
    ensures Answers(prod, states2, bits + {p}) ==
            Answers(prod, states2, bits) + if Hit(prod, states2, p) then {AnswerOf(prod, states2, p)} else {}
  {
  }

  /** The answer step of `query` for one closure bit `p`: report its pair of graph nodes
      if it joins a start state to a final state of the product. */
  method AddAnswer<P(==,!new), N(==,!new), Sym(==,!new)>(pattern: Nfa<P, Sym>, g2: Nfa<N, Sym>,
      prod: Nfa<nat, Sym>, ss: set<nat>, fs: set<nat>, res: set<(N, N)>,
      ghost done: set<(nat, nat)>, p: (nat, nat)) returns (res': set<(N, N)>)
    requires ProductOf(pattern, g2, prod) && ss == prod.starts && fs == prod.finals
    requires p.0 < |prod.states| && p.1 < |prod.states|
    requires res == Answers(prod, g2.states, done)
    ensures res' == Answers(prod, g2.states, done + {p})
  {
    var n2 := |g2.states|;
    // mapping[fro], mapping[to]
    var froId, toId := prod.states[p.0], prod.states[p.1];
    AnswersAdd(prod, g2.states, done, p);
    res' := res;
    if froId in ss && toId in fs {
      var _, _ := EncodedPairsMember(pattern, g2, pattern.starts, g2.starts, froId);
      assert Hit(prod, g2.states, p);
      res' := res + {(g2.states[froId % n2], g2.states[toId % n2])};
    } else {
      assert !Hit(prod, g2.states, p);
    }
  }

  /** The answer loop of `query`: the graph nodes of every closure bit that joins a start
      state to a final state of the product. */
  method CollectAnswers<P(==,!new), N(==,!new), Sym(==,!new)>(pattern: Nfa<P, Sym>, g2: Nfa<N, Sym>,
      prod: Nfa<nat, Sym>, ss: set<nat>, fs: set<nat>, bits: set<(nat, nat)>)
    returns (res: set<(N, N)>)
    requires ProductOf(pattern, g2, prod) && ss == prod.starts && fs == prod.finals
    requires forall p :: p in bits ==> p.0 < |prod.states| && p.1 < |prod.states|
    ensures res == Answers(prod, g2.states, bits)
  {
    res := {};
    var rest := bits;
    ghost var done := {};
    while rest != {}
      invariant rest <= bits && done == bits - rest
      invariant res == Answers(prod, g2.states, done)
      decreases |rest|
    {
      var p :| p in rest;
      res := AddAnswer(pattern, g2, prod, ss, fs, res, done, p);
      TakeOne(bits, rest, p);
      done := done + {p};
      rest := rest - {p};
    }
  }

  /** `closure` holds exactly the pairs joined by one or more steps of `c0`. */
  ghost predicate ClosureOf(c0: set<(nat, nat)>, closure: set<(nat, nat)>) {
    forall i: nat, j: nat :: (i, j) in closure <==> Reach(c0, i, j)
  }

  /** Every reported pair answers the query. */
  lemma AnswerSound<P(!new), N(!new), Sym(!new)>(pattern: Nfa<P, Sym>, g2: Nfa<N, Sym>,
      prod: Nfa<nat, Sym>, c0: set<(nat, nat)>, closure: set<(nat, nat)>, p: (nat, nat))
    requires ProductOf(pattern, g2, prod) && StepMatrix(prod, c0)
    requires ClosureOf(c0, closure)
    requires p in closure && Hit(prod, g2.states, p)
    ensures AnswerOf(prod, g2.states, p) in RpqAnswer(pattern, g2.transitions, g2.starts, g2.finals)
  {
    assert Reach(c0, p.0, p.1);
    forall q | q in c0 ensures
      q.0 < |prod.states| && q.1 < |prod.states| && (prod.states[q.0], prod.states[q.1]) in StepRel(prod)
    {
      assert (q.0, q.1) in c0;
    }
    PositionsToStates(prod, c0, p.0, p.1);
    var v, u := prod.states[p.0], prod.states[p.1];
    ProductToPairs(pattern, g2, prod, v, u);
    var ps, x := EncodedPairsMember(pattern, g2, pattern.starts, g2.starts, v);
    var qf, y := EncodedPairsMember(pattern, g2, pattern.finals, g2.finals, u);
    assert Reach(ProductSteps(pattern.transitions, g2.transitions), (ps, x), (qf, y));
    assert AnswerOf(prod, g2.states, p) == (x, y);
  }

  /** Every answer of the query is reported for some bit of the closure. */
  lemma AnswerComplete<P(!new), N(!new), Sym(!new)>(pattern: Nfa<P, Sym>, g2: Nfa<N, Sym>,
      prod: Nfa<nat, Sym>, c0: set<(nat, nat)>, closure: set<(nat, nat)>, x: N, y: N)
    returns (p: (nat, nat))
    requires ProductOf(pattern, g2, prod) && StepMatrix(prod, c0)
    requires ClosureOf(c0, closure)
    requires (x, y) in RpqAnswer(pattern, g2.transitions, g2.starts, g2.finals)
    ensures p in closure && Hit(prod, g2.states, p) && AnswerOf(prod, g2.states, p) == (x, y)
  {
    var ia, ib, n2 := IndexOf(pattern.states), IndexOf(g2.states), |g2.states|;
    var ps, qf :| ps in pattern.starts && qf in pattern.finals && x in g2.starts && y in g2.finals &&
                  Reach(ProductSteps(pattern.transitions, g2.transitions), (ps, x), (qf, y));
    PairsToProduct(pattern, g2, prod, (ps, x), (qf, y));
    var v, u := Encode(ia[ps], ib[x], n2), Encode(ia[qf], ib[y], n2);
    StatesToPositions(prod, c0, v, u);
    p := (IndexOf(prod.states)[v], IndexOf(prod.states)[u]);
    assert p in closure;
    assert v in prod.starts && u in prod.finals;
    DecodeEncoded(pattern, g2, ps, x);
    DecodeEncoded(pattern, g2, qf, y);
  }

  /** The reported pairs are exactly the answers of the query. */
  lemma QueryAnswer<P(!new), N(!new), Sym(!new)>(pattern: Nfa<P, Sym>, g2: Nfa<N, Sym>,
      prod: Nfa<nat, Sym>, c0: set<(nat, nat)>, closure: set<(nat, nat)>)
    requires ProductOf(pattern, g2, prod) && StepMatrix(prod, c0)
    requires ClosureOf(c0, closure)
    ensures Answers(prod, g2.states, closure) == RpqAnswer(pattern, g2.transitions, g2.starts, g2.finals)
  {
    var want := RpqAnswer(pattern, g2.transitions, g2.starts, g2.finals);
    forall xy | xy in Answers(prod, g2.states, closure) ensures xy in want {
      var p :| p in closure && Hit(prod, g2.states, p) && xy == AnswerOf(prod, g2.states, p);
      AnswerSound(pattern, g2, prod, c0, closure, p);
    }
    forall xy | xy in want ensures xy in Answers(prod, g2.states, closure) {
      var p := AnswerComplete(pattern, g2, prod, c0, closure, xy.0, xy.1);
    }
  }

  /** The middle of `query`: the matrices of the product automaton, their union `c` (the
      one-step matrix) and its transitive closure, and the start and final states. */
  method ProductClosure<Sym(==,!new)>(prod: Nfa<nat, Sym>)
    returns (c: BoolMatrix, closure: BoolMatrix, ss: set<nat>, fs: set<nat>)
    requires prod.Valid()
    ensures ss == prod.starts && fs == prod.finals
    ensures StepMatrix(prod, c.bits) && ClosureOf(c.bits, closure.bits)
    ensures forall p :: p in closure.bits ==> p.0 < |prod.states| && p.1 < |prod.states|
  {
    var index, mats;
    index, mats, ss, fs := NfaToBoolMatrices(prod);
    // len(state_to_inx)
    var n := |prod.states|;
    c := UnionMatrix(mats, n);
    closure := Closure(c);
    UnionIsStepMatrix(prod, mats, c.bits);
  }

  /** The rest of `query`, once the product `prod` of the pattern and the graph's
      automaton `g2` is built: the pairs of graph nodes joined by a walk of the product
      from a start state to a final state. */
  method ProductAnswers<P(==,!new), N(==,!new), Sym(==,!new)>(pattern: Nfa<P, Sym>, g2: Nfa<N, Sym>,
      prod: Nfa<nat, Sym>) returns (res: set<(N, N)>)
    requires ProductOf(pattern, g2, prod)
    ensures res == RpqAnswer(pattern, g2.transitions, g2.starts, g2.finals)
  {
    var c, closure, ss, fs := ProductClosure(prod);
    res := CollectAnswers(pattern, g2, prod, ss, fs, closure.bits);
    QueryAnswer(pattern, g2, prod, c.bits, closure.bits);
  }

  /** `query` for a pattern automaton (the minimal DFA of the regular expression): the
      pairs (x, y) of a start node x and a final node y joined by a path of the graph
      whose labels the pattern accepts. */
  method Query<P(==,!new), N(==,!new), Sym(==,!new)>(pattern: Nfa<P, Sym>, g: Graph<N, Sym>,
      starts: seq<N>, finals: seq<N>) returns (res: set<(N, N)>)
    requires pattern.Valid()
    ensures res == RpqAnswer(pattern, Elems(g.edges), Elems(starts), Elems(finals))
  {
    var g2 := Graph2Nfa(g, starts, finals);
    var prod := NfaIntersect(pattern, g2);
    res := ProductAnswers(pattern, g2, prod);
  }
}
