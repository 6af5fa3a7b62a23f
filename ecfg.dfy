/** `project/ecfg.py`: recursive finite automata, whose boxes are combined into one
    family of boolean matrices, and extended context-free grammars, built from text or
    from a context-free grammar. Regular-expression bodies are kept as their text. */
module Ecfg {
  import opened Collections
  import opened BoolMatrices
  import opened Automata
  import opened DfaUtils
  import opened Strings
  import opened Dicts

  /** A recursive finite automaton: a start variable and one automaton (box) per
      variable. */
  datatype Rfa<V(==,!new), S(==,!new), Sym(==,!new)> = Rfa(start: V, dfas: map<V, Nfa<S, Sym>>)

  /** The states of the boxes of the variables in `vs`, each tagged with its variable. */
  ghost function StatePairsIn<V(!new), S(!new), Sym(!new)>(dfas: map<V, Nfa<S, Sym>>, vs: set<V>): set<(V, S)> {
    set v, x | v in vs && v in dfas && x in dfas[v].states :: (v, x)
  }

  /** The transitions of one box with both ends tagged by its variable. */
  ghost function Tag<V(!new), S(!new), Sym(!new)>(v: V, ts: set<(S, Sym, S)>): set<((V, S), Sym, (V, S))> {
    set t | t in ts :: ((v, t.0), t.1, (v, t.2))
  }

  /** The tagged transitions of the boxes of the variables in `vs`. */
  ghost function TaggedIn<V(!new), S(!new), Sym(!new)>(dfas: map<V, Nfa<S, Sym>>, vs: set<V>)
    : set<((V, S), Sym, (V, S))>
  {
    set v, t | v in vs && v in dfas && t in dfas[v].transitions :: ((v, t.0), t.1, (v, t.2))
  }

  /** A numbering of tagged states, as an automaton with no transitions of its own:
      the matrices of `to_matrices` are adjacency matrices over it. */
  ghost function Numbering<V(!new), S(!new), Sym(!new)>(order: seq<(V, S)>): Nfa<(V, S), Sym> {
    Nfa(order, {}, {}, {})
  }

  lemma StatePairsAdd<V(!new), S(!new), Sym(!new)>(dfas: map<V, Nfa<S, Sym>>, vs: set<V>, v: V)
    requires v in dfas
    ensures StatePairsIn(dfas, vs + {v}) == StatePairsIn(dfas, vs) + (set x | x in dfas[v].states :: (v, x))
  {
  }

  lemma TaggedAdd<V(!new), S(!new), Sym(!new)>(dfas: map<V, Nfa<S, Sym>>, vs: set<V>, v: V)
    requires v in dfas
    ensures TaggedIn(dfas, vs + {v}) == TaggedIn(dfas, vs) + Tag(v, dfas[v].transitions)
  {
  }

  lemma TagAdd<V(!new), S(!new), Sym(!new)>(v: V, ts: set<(S, Sym, S)>, t: (S, Sym, S))
    ensures Tag(v, ts + {t}) == Tag(v, ts) + {((v, t.0), t.1, (v, t.2))}
  {
  }

  lemma TagEmpty<V(!new), S(!new), Sym(!new)>(v: V)
    ensures Tag<V, S, Sym>(v, {}) == {}
  {
  }

  /** `all_states.add((var, x))` for every state `x` of one box. */
  method TagStates<V(==,!new), S(==,!new)>(all: set<(V, S)>, v: V, states: seq<S>) returns (r: set<(V, S)>)
    ensures r == all + set x | x in states :: (v, x)
  {
    r := all;
    for i := 0 to |states|
      invariant r == all + set x | x in states[..i] :: (v, x)
    {
      assert states[..i + 1] == states[..i] + [states[i]];
      r := r + {(v, states[i])};
    }
    assert states[..|states|] == states;
  }

  /** The first loop of `to_matrices`: every state of every box, tagged. */
  method AllStates<V(==,!new), S(==,!new), Sym(==,!new)>(dfas: map<V, Nfa<S, Sym>>) returns (all: set<(V, S)>)
    ensures all == StatePairsIn(dfas, dfas.Keys)
  {
    all := {};
    var rest := dfas.Keys;
    ghost var done := {};
    while rest != {}
      invariant rest <= dfas.Keys && done == dfas.Keys - rest
      invariant all == StatePairsIn(dfas, done)
      decreases |rest|
    {
      var v :| v in rest;
      StatePairsAdd(dfas, done, v);
      all := TagStates(all, v, dfas[v].states);
      TakeOne(dfas.Keys, rest, v);
      done := done + {v};
      rest := rest - {v};
    }
    NoneLeft(dfas.Keys, rest);
  }

  /** One transition of the box of `v` more. */
  lemma BoxStep<V(!new), S(!new), Sym(!new)>(order: seq<(V, S)>, index: map<(V, S), nat>,
      mats: map<Sym, BoolMatrix>, v: V, box: Nfa<S, Sym>, seen: set<((V, S), Sym, (V, S))>,
      done: set<(S, Sym, S)>, t: (S, Sym, S))
    requires Distinct(order) && index == IndexOf(order)
    requires box.Valid() && t in box.transitions && forall x :: x in box.states ==> (v, x) in index
    requires MatricesOf(Numbering(order), seen + Tag(v, done), mats)
    ensures (v, t.0) in index && (v, t.2) in index
    ensures index[(v, t.0)] < |order| && index[(v, t.2)] < |order|
    ensures forall s :: s in mats ==> mats[s].Valid() && mats[s].size == |order|
    ensures MatricesOf(Numbering(order), seen + Tag(v, done + {t}),
                       SetDefaultBit(mats, t.1, |order|, index[(v, t.0)], index[(v, t.2)]))
  {
    var a: Nfa<(V, S), Sym> := Numbering(order);
    var tagged := ((v, t.0), t.1, (v, t.2));
    TagAdd(v, done, t);
    assert seen + Tag(v, done + {t}) == (seen + Tag(v, done)) + {tagged};
    assert t.0 in box.states && t.2 in box.states;
    var i, j := index[(v, t.0)], index[(v, t.2)];
    assert order[i] == (v, t.0) && order[j] == (v, t.2);
    MatricesOfAdd(a, seen + Tag(v, done), mats, tagged, i, j);
  }

  /** `mat[state_idx[(var, fro)], state_idx[(var, to)]] = True` for one transition of
      the box of `v`. */
  method AddTransitionBit<V(==,!new), S(==,!new), Sym(==,!new)>(order: seq<(V, S)>, index: map<(V, S), nat>,
      mats: map<Sym, BoolMatrix>, v: V, box: Nfa<S, Sym>, ghost seen: set<((V, S), Sym, (V, S))>,
      ghost done: set<(S, Sym, S)>, t: (S, Sym, S))
    returns (mats': map<Sym, BoolMatrix>)
    requires Distinct(order) && index == IndexOf(order)
    requires box.Valid() && t in box.transitions && forall x :: x in box.states ==> (v, x) in index
    requires MatricesOf(Numbering(order), seen + Tag(v, done), mats)
    ensures MatricesOf(Numbering(order), seen + Tag(v, done + {t}), mats')
  {
    BoxStep(order, index, mats, v, box, seen, done, t);
    mats' := SetDefaultBit(mats, t.1, |order|, index[(v, t.0)], index[(v, t.2)]);
  }

  /** The inner loop of the second loop of `to_matrices`: the bit of every transition of
      the box of `v`, at the indices of its tagged ends. */
  method AddBoxBits<V(==,!new), S(==,!new), Sym(==,!new)>(order: seq<(V, S)>, index: map<(V, S), nat>,
      mats: map<Sym, BoolMatrix>, v: V, box: Nfa<S, Sym>, ghost seen: set<((V, S), Sym, (V, S))>)
    returns (mats': map<Sym, BoolMatrix>)
    requires Distinct(order) && index == IndexOf(order)
    requires box.Valid() && forall x :: x in box.states ==> (v, x) in index
    requires MatricesOf(Numbering(order), seen, mats)
    ensures MatricesOf(Numbering(order), seen + Tag(v, box.transitions), mats')
  {
    mats' := mats;
    var rest := box.transitions;
    TagEmpty<V, S, Sym>(v);
    assert box.transitions - rest == {};
    while rest != {}
      invariant rest <= box.transitions
      invariant MatricesOf(Numbering(order), seen + Tag(v, box.transitions - rest), mats')
      decreases |rest|
    {
      var t :| t in rest;
      mats' := AddTransitionBit(order, index, mats', v, box, seen, box.transitions - rest, t);
      TakeOne(box.transitions, rest, t);
      rest := rest - {t};
    }
    NoneLeft(box.transitions, rest);
  }

  /** `(k1, s, k2)` is a transition of a box, between states tagged with that box's
      variable. */
  ghost predicate BoxMove<V(!new), S(!new), Sym(!new)>(dfas: map<V, Nfa<S, Sym>>, k1: (V, S), s: Sym, k2: (V, S)) {
    k1.0 == k2.0 && k1.0 in dfas && (k1.1, s, k2.1) in dfas[k1.0].transitions
  }

  /** `s` labels a transition of some box. */
  ghost predicate BoxLabel<V(!new), S(!new), Sym(!new)>(dfas: map<V, Nfa<S, Sym>>, s: Sym) {
    exists v, t :: v in dfas && t in dfas[v].transitions && t.1 == s
  }

  lemma TaggedMember<V(!new), S(!new), Sym(!new)>(dfas: map<V, Nfa<S, Sym>>, t: ((V, S), Sym, (V, S)))
    ensures t in TaggedIn(dfas, dfas.Keys) <==> BoxMove(dfas, t.0, t.1, t.2)
  {
    if BoxMove(dfas, t.0, t.1, t.2) {
      var u := (t.0.1, t.1, t.2.1);
      assert u in dfas[t.0.0].transitions && t == ((t.0.0, u.0), u.1, (t.0.0, u.2));
    }
  }

  /** `RFA.to_matrices`: the tagged states of all boxes, numbered in the iteration order
      of their set, and one matrix per symbol holding the bit of every transition of
      every box. */
  method RfaToMatrices<V(==,!new), S(==,!new), Sym(==,!new)>(rfa: Rfa<V, S, Sym>)
    returns (mats: map<Sym, BoolMatrix>, index: map<(V, S), nat>)
    requires forall v :: v in rfa.dfas ==> rfa.dfas[v].Valid()
    ensures index.Keys == StatePairsIn(rfa.dfas, rfa.dfas.Keys)
    ensures forall k :: k in index ==> index[k] < |index|
    ensures forall k1, k2 :: k1 in index && k2 in index && index[k1] == index[k2] ==> k1 == k2
    ensures forall i: nat :: i < |index| ==> i in index.Values
    ensures forall s :: s in mats ==> mats[s].Valid() && mats[s].size == |index|
    ensures forall s :: s in mats <==> BoxLabel(rfa.dfas, s)
    ensures forall s, k1, k2 :: s in mats && k1 in index && k2 in index ==>
      ((index[k1], index[k2]) in mats[s].bits <==> BoxMove(rfa.dfas, k1, s, k2))
    ensures forall s, k1, k2 ::
      s in mats && k1 in index && k2 in index && (index[k1], index[k2]) in mats[s].bits ==> k1.0 == k2.0
  {
    var dfas := rfa.dfas;
    var all := AllStates(dfas);
    var order := Enumerate(all);
    index := IndexOf(order);
    mats := map[];
    var rest := dfas.Keys;
    ghost var done := {};
    while rest != {}
      invariant rest <= dfas.Keys && done == dfas.Keys - rest
      invariant MatricesOf(Numbering(order), TaggedIn(dfas, done), mats)
      decreases |rest|
    {
      var v :| v in rest;
      TaggedAdd(dfas, done, v);
      mats := AddBoxBits(order, index, mats, v, dfas[v], TaggedIn(dfas, done));
      TakeOne(dfas.Keys, rest, v);
      done := done + {v};
      rest := rest - {v};
    }
    NoneLeft(dfas.Keys, rest);
    MatricesByIndex(dfas, order, index, mats);
  }

  /** The bits of the adjacency matrices over a numbering of the tagged states, read
      back through the numbering. */
  lemma MatricesByIndex<V(!new), S(!new), Sym(!new)>(dfas: map<V, Nfa<S, Sym>>, order: seq<(V, S)>,
      index: map<(V, S), nat>, mats: map<Sym, BoolMatrix>)
    requires Distinct(order) && index == IndexOf(order)
    requires MatricesOf(Numbering(order), TaggedIn(dfas, dfas.Keys), mats)
    ensures forall k :: k in index ==> index[k] < |index|
    ensures forall i: nat :: i < |index| ==> i in index.Values
    ensures forall s :: s in mats ==> mats[s].Valid() && mats[s].size == |index|
    ensures forall s :: s in mats <==> BoxLabel(dfas, s)
    ensures forall s, k1, k2 :: s in mats && k1 in index && k2 in index ==>
      ((index[k1], index[k2]) in mats[s].bits <==> BoxMove(dfas, k1, s, k2))
  {
    IndexOnto(order, index);
    MatricesLabels(dfas, order, mats);
    MatricesBits(dfas, order, index, mats);
  }

  /** The numbering of a sequence without repetitions takes exactly the values below
      its size. */
  lemma IndexOnto<T(!new)>(order: seq<T>, index: map<T, nat>)
    requires Distinct(order) && index == IndexOf(order)
    ensures |index| == |order|
    ensures forall k :: k in index ==> index[k] < |index|
    ensures forall i: nat :: i < |index| ==> i in index.Values
  {
    assert |index| == |order| by {
      DistinctCard(order);
    }
    forall i: nat | i < |index| ensures i in index.Values {
      assert order[i] in index && index[order[i]] == i;
    }
  }

  /** The matrices are those of the symbols that label some transition of some box. */
  lemma MatricesLabels<V(!new), S(!new), Sym(!new)>(dfas: map<V, Nfa<S, Sym>>, order: seq<(V, S)>,
      mats: map<Sym, BoolMatrix>)
    requires MatricesOf(Numbering(order), TaggedIn(dfas, dfas.Keys), mats)
    ensures forall s :: s in mats <==> BoxLabel(dfas, s)
  {
    var ts := TaggedIn(dfas, dfas.Keys);
    forall s ensures s in mats <==> BoxLabel(dfas, s) {
      if BoxLabel(dfas, s) {
        var v, t :| v in dfas && t in dfas[v].transitions && t.1 == s;
        assert ((v, t.0), t.1, (v, t.2)) in ts;
      }
    }
  }

  /** A bit of a matrix, read through the numbering, is a transition of a box. */
  lemma MatricesBits<V(!new), S(!new), Sym(!new)>(dfas: map<V, Nfa<S, Sym>>, order: seq<(V, S)>,
      index: map<(V, S), nat>, mats: map<Sym, BoolMatrix>)
    requires Distinct(order) && index == IndexOf(order)
    requires MatricesOf(Numbering(order), TaggedIn(dfas, dfas.Keys), mats)
    ensures forall s, k1, k2 :: s in mats && k1 in index && k2 in index ==>
      ((index[k1], index[k2]) in mats[s].bits <==> BoxMove(dfas, k1, s, k2))
  {
    var a: Nfa<(V, S), Sym> := Numbering(order);
    var ts := TaggedIn(dfas, dfas.Keys);
    forall s, k1, k2 | s in mats && k1 in index && k2 in index
      ensures (index[k1], index[k2]) in mats[s].bits <==> BoxMove(dfas, k1, s, k2)
    {
      var i, j := index[k1], index[k2];
      assert order[i] == k1 && order[j] == k2;
      assert mats[s].bits == Adjacency(a, ts, s);
      TaggedMember(dfas, (k1, s, k2));
    }
  }

  /** An extended context-free grammar. Variables and terminals are named by their
      text; each head's body is the text of a regular expression over them. */
  datatype Ecfg = Ecfg(variables: set<string>, terminals: set<string>, start: Option<string>,
                       productions: Dict<string, string>)

  /** `ECFG.__init__`: a missing variable set, terminal set or production dictionary
      becomes an empty one; a missing start symbol stays missing. */
  function MakeEcfg(variables: Option<set<string>>, terminals: Option<set<string>>,
                    start: Option<string>, productions: Option<Dict<string, string>>): Ecfg
  {
    Ecfg(if variables.Some? then variables.value else {},
         if terminals.Some? then terminals.value else {},
         start,
         if productions.Some? then productions.value else [])
  }

  /** `x or set()`: leaving out the variables, the terminals or the productions is the
      same as giving empty ones, and leaving out all three gives the empty grammar. */
  lemma MakeEcfgDefaults(variables: Option<set<string>>, terminals: Option<set<string>>,
                         start: Option<string>, productions: Option<Dict<string, string>>)
    ensures MakeEcfg(None, terminals, start, productions) == MakeEcfg(Some({}), terminals, start, productions)
    ensures MakeEcfg(variables, None, start, productions) == MakeEcfg(variables, Some({}), start, productions)
    ensures MakeEcfg(variables, terminals, start, None) == MakeEcfg(variables, terminals, start, Some([]))
    ensures MakeEcfg(None, None, start, None) == Ecfg({}, {}, start, [])
  {
  }

  /** Given every field of a grammar, the constructor builds that grammar. */
  lemma MakeEcfgFields(e: Ecfg)
    ensures MakeEcfg(Some(e.variables), Some(e.terminals), e.start, Some(e.productions)) == e
  {
  }

  /** The lines of `ECFG.__repr__`, one `head -> body` per production, in order. */
  function ReprLines(d: Dict<string, string>): (ls: seq<string>)
    ensures |ls| == |d|
  {
    if d == [] then [] else [d[0].0 + " -> " + d[0].1] + ReprLines(d[1..])
  }

  /** `ECFG.__repr__`. */
  function Repr(e: Ecfg): string {
    Join("\n", ReprLines(e.productions))
  }

  /** The error `from_text` raises: unpacking a line that does not split into exactly
      two parts at `->` (a `ValueError`). */
  datatype TextError = UnpackError(parts: nat)

  /** What one line of the text is to `from_text`. */
  datatype LineKind = Blank | Prod(head: string, body: string) | Bad(parts: nat)

  /** A line that strips to nothing is skipped; otherwise it must split at `->` into a
      head, which is stripped, and a body, which is kept as it is. */
  function Classify(line: string): LineKind {
    var l := Strip(line);
    if l == [] then Blank
    else
      var parts := Split(l, "->");
      if |parts| != 2 then Bad(|parts|) else Prod(Strip(parts[0]), parts[1])
  }

  /** What each line is, in order. */
  function Kinds(lines: seq<string>): (ks: seq<LineKind>)
    ensures |ks| == |lines|
  {
    MapSeq(Classify, lines)
  }

  lemma KindsAt(lines: seq<string>, k: nat)
    requires k < |lines|
    ensures Kinds(lines)[k] == Classify(lines[k])
  {
    MapSeqAt(Classify, lines, k);
  }

  /** The loop of `from_text` over the lines that remain, from the variables and
      productions read so far, with each line already classified. */
  function ReadKinds(ks: seq<LineKind>, vars: set<string>, prods: Dict<string, string>)
    : Result<(set<string>, Dict<string, string>), TextError>
    decreases |ks|
  {
    if ks == [] then Ok((vars, prods))
    else
      match ks[0]
      case Blank => ReadKinds(ks[1..], vars, prods)
      case Bad(n) => Err(UnpackError(n))
      case Prod(h, b) => ReadKinds(ks[1..], vars + {h}, Put(prods, h, b))
  }

  /** What `from_text` returns or raises. */
  function Parse(text: string, start: Option<string>): Result<Ecfg, TextError> {
    var r := ReadKinds(Kinds(SplitLines(text)), {}, []);
    if r.Err? then Err(r.error) else Ok(Ecfg(r.value.0, {}, start, r.value.1))
  }

  /** `ECFG.from_text`. */
  method FromText(text: string, start: Option<string>) returns (r: Result<Ecfg, TextError>)
    ensures r == Parse(text, start)
  {
    var lines := SplitLines(text);
    ghost var ks := Kinds(lines);
    var vars: set<string> := {};
    var prods: Dict<string, string> := [];
    for i := 0 to |lines|
      invariant ReadKinds(ks, {}, []) == ReadKinds(ks[i..], vars, prods)
    {
      KindsAt(lines, i);
      ReadKindsStep(ks, i, vars, prods);
      var line := Strip(lines[i]);
      if line != [] {
        var parts := Split(line, "->");
        if |parts| != 2 {
          return Err(UnpackError(|parts|));
        }
        var head := Strip(parts[0]);
        vars := vars + {head};
        prods := Put(prods, head, parts[1]);
      }
    }
    r := Ok(Ecfg(vars, {}, start, prods));
  }

  /** One line of the reading loop. */
  lemma ReadKindsStep(ks: seq<LineKind>, i: nat, vars: set<string>, prods: Dict<string, string>)
    requires i < |ks|
    ensures ks[i].Blank? ==> ReadKinds(ks[i..], vars, prods) == ReadKinds(ks[i + 1..], vars, prods)
    ensures ks[i].Bad? ==> ReadKinds(ks[i..], vars, prods) == Err(UnpackError(ks[i].parts))
    ensures ks[i].Prod? ==>
      ReadKinds(ks[i..], vars, prods) == ReadKinds(ks[i + 1..], vars + {ks[i].head}, Put(prods, ks[i].head, ks[i].body))
  {
    assert ks[i..][1..] == ks[i + 1..] && ks[i..][0] == ks[i];
  }

  /** `if not line.strip(): continue` skips exactly the lines made of whitespace. */
  lemma ClassifyBlank(line: string)
    ensures Classify(line).Blank? <==> forall k :: 0 <= k < |line| ==> IsSpace(line[k])
  {
    StripEmpty(line);
  }

  /** A line is malformed exactly when it holds a non-whitespace character and its
      stripped text does not split at `->` into two parts; the error carries the number
      of parts it does split into. */
  lemma ClassifyBad(line: string)
    ensures Classify(line).Bad? <==>
      (exists k :: 0 <= k < |line| && !IsSpace(line[k])) && |Split(Strip(line), "->")| != 2
    ensures Classify(line).Bad? ==> Classify(line).parts == |Split(Strip(line), "->")|
  {
    ClassifyBlank(line);
  }

  /** A production line is, once stripped, the text of its head, the arrow, and its
      body, with only the head stripped. */
  lemma ClassifyProd(line: string)
    requires Classify(line).Prod?
    ensures |Split(Strip(line), "->")| == 2
    ensures Strip(line) == Split(Strip(line), "->")[0] + "->" + Classify(line).body
    ensures Classify(line).head == Strip(Split(Strip(line), "->")[0])
  {
    var parts := Split(Strip(line), "->");
    JoinSplit(Strip(line), "->");
    assert Join("->", parts) == parts[0] + "->" + Join("->", parts[1..]);
    assert parts[1..] == [parts[1]];
  }

  /** Reading fails exactly when some line is malformed ... */
  lemma {:induction false} ReadKindsFails(ks: seq<LineKind>, vars: set<string>, prods: Dict<string, string>)
    ensures ReadKinds(ks, vars, prods).Err? <==> exists k :: 0 <= k < |ks| && ks[k].Bad?
    decreases |ks|
  {
    if ks != [] {
      var c := ks[0];
      var vs, ps := vars, prods;
      if c.Prod? {
        vs, ps := vars + {c.head}, Put(prods, c.head, c.body);
      }
      if !c.Bad? {
        ReadKindsFails(ks[1..], vs, ps);
        assert ReadKinds(ks, vars, prods) == ReadKinds(ks[1..], vs, ps);
        if exists k :: 0 <= k < |ks| && ks[k].Bad? {
          var k :| 0 <= k < |ks| && ks[k].Bad?;
          assert ks[1..][k - 1].Bad?;
        }
      }
    }
  }

  /** ... and then with the part count of the first malformed line. */
  lemma {:induction false} ReadKindsError(ks: seq<LineKind>, vars: set<string>, prods: Dict<string, string>)
      returns (k: nat)
    requires ReadKinds(ks, vars, prods).Err?
    ensures k < |ks| && ks[k] == Bad(ReadKinds(ks, vars, prods).error.parts)
    ensures forall j :: 0 <= j < k ==> !ks[j].Bad?
    decreases |ks|
  {
    var c := ks[0];
    if c.Bad? {
      k := 0;
    } else {
      var vs, ps := vars, prods;
      if c.Prod? {
        vs, ps := vars + {c.head}, Put(prods, c.head, c.body);
      }
      assert ReadKinds(ks, vars, prods) == ReadKinds(ks[1..], vs, ps);
      var k' := ReadKindsError(ks[1..], vs, ps);
      k := k' + 1;
      assert ks[k] == ks[1..][k'];
      forall j | 0 <= j < k ensures !ks[j].Bad? {
        if j > 0 {
          assert ks[j] == ks[1..][j - 1];
        }
      }
    }
  }

  /** `from_text` raises when a non-blank line of the text does not split at `->` into
      two parts ... */
  lemma ParseFailsOn(text: string, start: Option<string>, k: nat)
    requires k < |SplitLines(text)| && Classify(SplitLines(text)[k]).Bad?
    ensures Parse(text, start).Err?
  {
    var lines := SplitLines(text);
    var ks := Kinds(lines);
    KindsAt(lines, k);
    assert ks[k].Bad?;
    ReadKindsFails(ks, {}, []);
  }

  /** ... and only then, reporting the part count of the first such line. */
  lemma ParseError(text: string, start: Option<string>) returns (k: nat)
    requires Parse(text, start).Err?
    ensures k < |SplitLines(text)| && Classify(SplitLines(text)[k]) == Bad(Parse(text, start).error.parts)
    ensures Parse(text, start).error.parts != 2
    ensures forall j :: 0 <= j < k ==> !Classify(SplitLines(text)[j]).Bad?
  {
    var lines := SplitLines(text);
    var ks := Kinds(lines);
    k := ReadKindsError(ks, {}, []);
    KindsAt(lines, k);
    ClassifyBad(lines[k]);
    forall j | 0 <= j < k ensures !Classify(lines[j]).Bad? {
      KindsAt(lines, j);
    }
  }

  /** Leaving out a blank line changes nothing. */
  lemma {:induction false} ReadKindsSkip(ks: seq<LineKind>, k: nat, vars: set<string>, prods: Dict<string, string>)
    requires k < |ks| && ks[k].Blank?
    ensures ReadKinds(ks[..k] + ks[k + 1..], vars, prods) == ReadKinds(ks, vars, prods)
    decreases k
  {
    var skipped := ks[..k] + ks[k + 1..];
    if k == 0 {
      assert skipped == ks[1..];
    } else {
      assert skipped[0] == ks[0];
      assert skipped[1..] == ks[1..][..k - 1] + ks[1..][k..];
      var c := ks[0];
      if c.Prod? {
        ReadKindsSkip(ks[1..], k - 1, vars + {c.head}, Put(prods, c.head, c.body));
      } else if c.Blank? {
        ReadKindsSkip(ks[1..], k - 1, vars, prods);
      }
    }
  }

  /** The heads of the production lines. */
  ghost function HeadSet(ks: seq<LineKind>): set<string> {
    set k | 0 <= k < |ks| && ks[k].Prod? :: ks[k].head
  }

  /** The body of the last production line for `h`, if any. */
  function LastBody(ks: seq<LineKind>, h: string): Option<string>
    decreases |ks|
  {
    if ks == [] then None
    else
      var later := LastBody(ks[1..], h);
      if later.Some? then later
      else if ks[0].Prod? && ks[0].head == h then Some(ks[0].body)
      else None
  }

  lemma HeadSetFirst(ks: seq<LineKind>)
    requires ks != []
    ensures ks[0].Prod? ==> HeadSet(ks) == {ks[0].head} + HeadSet(ks[1..])
    ensures !ks[0].Prod? ==> HeadSet(ks) == HeadSet(ks[1..])
  {
    var rest := ks[1..];
    forall x | x in HeadSet(rest) ensures x in HeadSet(ks) {
      var k :| 0 <= k < |rest| && rest[k].Prod? && rest[k].head == x;
      assert ks[k + 1] == rest[k];
    }
    forall x | x in HeadSet(ks) ensures x in HeadSet(rest) || (ks[0].Prod? && x == ks[0].head) {
      var k :| 0 <= k < |ks| && ks[k].Prod? && ks[k].head == x;
      if k > 0 {
        assert rest[k - 1] == ks[k];
      }
    }
  }

  /** What a successful read produces: the heads are added to the variables ... */
  lemma {:induction false} ReadKindsVars(ks: seq<LineKind>, vars: set<string>, prods: Dict<string, string>)
    requires ReadKinds(ks, vars, prods).Ok?
    ensures ReadKinds(ks, vars, prods).value.0 == vars + HeadSet(ks)
    decreases |ks|
  {
    if ks != [] {
      HeadSetFirst(ks);
      var c := ks[0];
      if c.Prod? {
        ReadKindsVars(ks[1..], vars + {c.head}, Put(prods, c.head, c.body));
      } else {
        ReadKindsVars(ks[1..], vars, prods);
      }
    }
  }

  /** ... and to the keys ... */
  lemma {:induction false} ReadKindsKeys(ks: seq<LineKind>, vars: set<string>, prods: Dict<string, string>)
    requires ReadKinds(ks, vars, prods).Ok?
    ensures KeySet(ReadKinds(ks, vars, prods).value.1) == KeySet(prods) + HeadSet(ks)
    decreases |ks|
  {
    if ks != [] {
      HeadSetFirst(ks);
      var c := ks[0];
      if c.Prod? {
        var ps := Put(prods, c.head, c.body);
        var r := ReadKinds(ks[1..], vars + {c.head}, ps);
        assert ReadKinds(ks, vars, prods) == r;
        ReadKindsKeys(ks[1..], vars + {c.head}, ps);
        PutKeySet(prods, c.head, c.body);
        UnionStep(KeySet(r.value.1), KeySet(ps), KeySet(prods), HeadSet(ks), HeadSet(ks[1..]), c.head);
      } else if c.Blank? {
        var r := ReadKinds(ks[1..], vars, prods);
        assert ReadKinds(ks, vars, prods) == r;
        ReadKindsKeys(ks[1..], vars, prods);
      } else {
        assert false;
      }
    }
  }

  lemma UnionStep<T>(r: set<T>, ps: set<T>, p: set<T>, hs: set<T>, later: set<T>, h: T)
    requires r == ps + later && ps == p + {h} && hs == {h} + later
    ensures r == p + hs
  {
  }

  /** ... without storing a key twice ... */
  lemma {:induction false} ReadKindsValid(ks: seq<LineKind>, vars: set<string>, prods: Dict<string, string>)
    requires ReadKinds(ks, vars, prods).Ok? && Valid(prods)
    ensures Valid(ReadKinds(ks, vars, prods).value.1)
    decreases |ks|
  {
    if ks != [] {
      var c := ks[0];
      if c.Prod? {
        var ps := Put(prods, c.head, c.body);
        PutValid(prods, c.head, c.body);
        ReadKindsValid(ks[1..], vars + {c.head}, ps);
      } else {
        ReadKindsValid(ks[1..], vars, prods);
      }
    }
  }

  /** ... and each head ends up with the body of its last line. */
  lemma {:induction false} ReadKindsGet(ks: seq<LineKind>, vars: set<string>, prods: Dict<string, string>, h: string)
    requires ReadKinds(ks, vars, prods).Ok?
    ensures Get(ReadKinds(ks, vars, prods).value.1, h) ==
      if LastBody(ks, h).Some? then LastBody(ks, h) else Get(prods, h)
    decreases |ks|
  {
    if ks != [] {
      var c := ks[0];
      if c.Prod? {
        ReadKindsGet(ks[1..], vars + {c.head}, Put(prods, c.head, c.body), h);
        if h == c.head {
          PutGet(prods, c.head, c.body);
        } else {
          PutOther(prods, c.head, c.body, h);
        }
      } else {
        ReadKindsGet(ks[1..], vars, prods, h);
      }
    }
  }

  /** `from_text` on success: the variables are the heads of the production lines,
      which are also the keys of the productions, each head has the body of its last
      line, there are no terminals, and the start symbol is the one given. */
  lemma ParseOk(text: string, start: Option<string>)
    requires Parse(text, start).Ok?
    ensures Parse(text, start).value.variables == HeadSet(Kinds(SplitLines(text)))
    ensures KeySet(Parse(text, start).value.productions) == HeadSet(Kinds(SplitLines(text)))
    ensures Valid(Parse(text, start).value.productions)
    ensures forall h :: Get(Parse(text, start).value.productions, h) == LastBody(Kinds(SplitLines(text)), h)
    ensures Parse(text, start).value.terminals == {}
    ensures Parse(text, start).value.start == start
  {
    var ks := Kinds(SplitLines(text));
    forall h ensures Get(Parse(text, start).value.productions, h) == LastBody(ks, h) {
      ReadKindsGet(ks, {}, [], h);
    }
    ReadKindsVars(ks, {}, []);
    ReadKindsKeys(ks, {}, []);
    ReadKindsValid(ks, {}, []);
  }

  /** The default start symbol of `from_text`. */
  const DefaultStart: Option<string> := Some("S")

  /** A name or body that `__repr__` writes and `from_text` reads back unchanged: not
      empty, no whitespace at either end, no line break, and no `->` in it. */
  ghost predicate Clean(s: string) {
    && s != [] && !IsSpace(s[0]) && !IsSpace(s[|s| - 1]) && NoBreak(s)
    && forall i :: 0 <= i < |s| ==> !OccursAt(s, "->", i)
  }

  /** `from_text` keeps the text after `->` as it is, so the body it reads from a
      `__repr__` line keeps the space written after the arrow. */
  function Spaced(body: string): string {
    " " + body
  }

  /** A line `head -> body` of `__repr__` reads back as that head and the spaced body. */
  lemma ClassifyLine(h: string, b: string)
    requires Clean(h) && Clean(b)
    ensures Classify(h + " -> " + b) == Prod(h, Spaced(b))
  {
    var line := h + " -> " + b;
    assert line[0] == h[0] && line[|line| - 1] == b[|b| - 1];
    StripNoop(line);
    ArrowSplit(h, b);
    var parts := Split(line, "->");
    StripNoop(h);
    StripTrailing(h, " ");
    assert Strip(parts[0]) == h && parts[1] == Spaced(b);
  }

  /** The arrow written by `__repr__` is the only one on its line. */
  lemma ArrowSplit(h: string, b: string)
    requires Clean(h) && Clean(b)
    ensures Split(h + " -> " + b, "->") == [h + " ", Spaced(b)]
  {
    var x, y := h + " ", Spaced(b);
    assert h + " -> " + b == x + "->" + y;
    HeadNoArrow(h, y);
    SplitFirst(x, "->", y);
    BodyNoArrow(b);
    SplitNone(y, "->");
  }

  lemma HeadNoArrow(h: string, y: string)
    requires Clean(h)
    ensures forall i :: 0 <= i < |h + " "| ==> !OccursAt(h + " " + "->" + y, "->", i)
  {
    var line := h + " " + "->" + y;
    forall i | 0 <= i < |h| + 1 ensures !OccursAt(line, "->", i) {
      if i + 1 < |h| {
        assert !OccursAt(h, "->", i);
        assert line[i..i + 2] == h[i..i + 2];
      } else if i + 1 == |h| {
        assert line[i + 1] == ' ';
      } else {
        assert line[i] == ' ';
      }
    }
  }

  lemma BodyNoArrow(b: string)
    requires Clean(b)
    ensures forall i :: 0 <= i < |Spaced(b)| ==> !OccursAt(Spaced(b), "->", i)
  {
    var y := Spaced(b);
    forall i | 0 <= i < |y| ensures !OccursAt(y, "->", i) {
      if i == 0 {
        assert y[0] == ' ';
      } else if i + 2 <= |y| {
        assert !OccursAt(b, "->", i - 1);
        assert y[i..i + 2] == b[i - 1..i + 1];
      }
    }
  }

  /** Every key and every body of `d` is `Clean`. */
  ghost predicate CleanEntries(d: Dict<string, string>) {
    forall i :: 0 <= i < |d| ==> Clean(d[i].0) && Clean(d[i].1)
  }

  /** How the lines of `__repr__` classify: one production line per entry. */
  function ReprKinds(d: Dict<string, string>): (ks: seq<LineKind>)
    ensures |ks| == |d|
  {
    if d == [] then [] else [Prod(d[0].0, Spaced(d[0].1))] + ReprKinds(d[1..])
  }

  lemma {:induction false} KindsRepr(d: Dict<string, string>)
    requires CleanEntries(d)
    ensures Kinds(ReprLines(d)) == ReprKinds(d)
    decreases |d|
  {
    if d != [] {
      CleanEntriesTail(d);
      KindsRepr(d[1..]);
      KindsReprStep(d);
    }
  }

  lemma CleanEntriesTail(d: Dict<string, string>)
    requires d != [] && CleanEntries(d)
    ensures Clean(d[0].0) && Clean(d[0].1) && CleanEntries(d[1..])
  {
    forall i | 0 <= i < |d| - 1 ensures Clean(d[1..][i].0) && Clean(d[1..][i].1) {
      assert d[1..][i] == d[i + 1];
    }
  }

  /** If the lines after the first classify as `ReprKinds` says, so do all of them. */
  lemma KindsReprStep(d: Dict<string, string>)
    requires d != [] && Clean(d[0].0) && Clean(d[0].1)
    requires Kinds(ReprLines(d[1..])) == ReprKinds(d[1..])
    ensures Kinds(ReprLines(d)) == ReprKinds(d)
  {
    var ls := ReprLines(d);
    assert ls[0] == d[0].0 + " -> " + d[0].1 && ls[1..] == ReprLines(d[1..]);
    ClassifyLine(d[0].0, d[0].1);
    MapSeqFirst(Classify, ls);
  }

  /** Reading the `__repr__` lines of `d` after `prods`, whose keys `d` does not
      repeat, adds the keys of `d` to the variables and its spaced entries to the
      productions. */
  lemma {:induction false} ReadRepr(d: Dict<string, string>, vars: set<string>, prods: Dict<string, string>)
    requires Valid(d)
    requires forall i :: 0 <= i < |d| ==> d[i].0 !in Keys(prods)
    ensures ReadKinds(ReprKinds(d), vars, prods) == Ok((vars + KeySet(d), prods + MapValues(d, Spaced)))
    decreases |d|
  {
    if d == [] {
      assert MapValues(d, Spaced) == [] && prods + [] == prods;
      assert KeySet(d) == {} && vars + {} == vars;
    } else {
      var h, b := d[0].0, d[0].1;
      var rest := d[1..];
      var ks := ReprKinds(d);
      assert ks[0] == Prod(h, Spaced(b)) && ks[1..] == ReprKinds(rest);
      PutAbsent(prods, h, Spaced(b));
      PutKeys(prods, h, Spaced(b));
      var ps := prods + [(h, Spaced(b))];
      assert ReadKinds(ks, vars, prods) == ReadKinds(ks[1..], vars + {h}, ps);
      forall i | 0 <= i < |rest| ensures rest[i].0 !in Keys(ps) {
        assert rest[i] == d[i + 1] && d[i + 1].0 != h;
        assert Keys(ps) == Keys(prods) + [h];
      }
      ReadRepr(rest, vars + {h}, ps);
      KeySetFirst(d);
      assert vars + {h} + KeySet(rest) == vars + KeySet(d);
      var mv := MapValues(rest, Spaced);
      assert MapValues(d, Spaced) == [(h, Spaced(b))] + mv;
      AppendAssoc(prods, [(h, Spaced(b))], mv);
    }
  }

  /** The lines of `__repr__` are the lines its text splits into. */
  lemma ReprSplitLines(d: Dict<string, string>)
    requires CleanEntries(d)
    ensures SplitLines(Join("\n", ReprLines(d))) == ReprLines(d)
  {
    var ls := ReprLines(d);
    if ls != [] {
      forall k | 0 <= k < |ls| ensures NoBreak(ls[k]) {
        ReprLine(d, k);
      }
      ReprLine(d, |ls| - 1);
      SplitLinesJoin(ls);
    }
  }

  lemma {:induction false} ReprLine(d: Dict<string, string>, k: nat)
    requires CleanEntries(d) && k < |d|
    ensures ReprLines(d)[k] == d[k].0 + " -> " + d[k].1
    ensures NoBreak(ReprLines(d)[k]) && ReprLines(d)[k] != []
    decreases k
  {
    if k > 0 {
      ReprLine(d[1..], k - 1);
    } else {
      var l := d[0].0 + " -> " + d[0].1;
      forall i | 0 <= i < |l| ensures !IsLineBreak(l[i]) {
        if i >= |d[0].0| + 4 {
          assert l[i] == d[0].1[i - |d[0].0| - 4];
        } else if i < |d[0].0| {
          assert l[i] == d[0].0[i];
        }
      }
    }
  }

  /** `from_text(repr(g))`: a grammar whose heads and bodies are `Clean`, with each head
      stored once, reads back with its heads as variables, its productions in the same
      order with each body spaced, no terminals, and the start symbol given. */
  lemma FromTextRepr(e: Ecfg, start: Option<string>)
    requires CleanEntries(e.productions) && Valid(e.productions)
    ensures Parse(Repr(e), start) == Ok(Ecfg(KeySet(e.productions), {}, start, MapValues(e.productions, Spaced)))
  {
    var d := e.productions;
    ReprSplitLines(d);
    assert SplitLines(Repr(e)) == ReprLines(d);
    KindsRepr(d);
    ReadRepr(d, {}, []);
    assert ReadKinds(ReprKinds(d), {}, []) == Ok(({} + KeySet(d), [] + MapValues(d, Spaced)));
    assert {} + KeySet(d) == KeySet(d) && [] + MapValues(d, Spaced) == MapValues(d, Spaced);
  }

  /** A production of a context-free grammar: a head variable and a body of symbol
      names, empty for an epsilon production. */
  datatype CfgProduction = CfgProduction(head: string, body: seq<string>)

  /** A context-free grammar, with its symbols named by their text. */
  datatype Cfg = Cfg(variables: set<string>, terminals: set<string>, start: Option<string>,
                     productions: set<CfgProduction>)

  /** A production body as `from_cfg` writes it: `$` for the empty body, the symbol
      names joined by `.` otherwise. */
  function BodyText(body: seq<string>): string {
    if body == [] then "$" else Join(".", body)
  }

  /** The body texts for head `h`, in the order its productions come in `prods`. */
  function BodiesOf(prods: seq<CfgProduction>, h: string): seq<string>
    decreases |prods|
  {
    if prods == [] then []
    else
      var init, p := BodiesOf(prods[..|prods| - 1], h), prods[|prods| - 1];
      if p.head == h then init + [BodyText(p.body)] else init
  }

  /** The heads of `prods`. */
  ghost function HeadsIn(prods: seq<CfgProduction>): set<string> {
    set k | 0 <= k < |prods| :: prods[k].head
  }

  /** `f"({elem})"` for each body. */
  function Parenthesised(bodies: seq<string>): (ps: seq<string>)
    ensures |ps| == |bodies| && forall i :: 0 <= i < |bodies| ==> ps[i] == "(" + bodies[i] + ")"
  {
    if bodies == [] then [] else ["(" + bodies[0] + ")"] + Parenthesised(bodies[1..])
  }

  /** The regular expression `from_cfg` gives a head: its bodies as alternatives. */
  function Alternatives(bodies: seq<string>): string {
    Join(" | ", Parenthesised(bodies))
  }

  /** A body is listed for `h` exactly when some production for `h` has that text ... */
  lemma {:induction false} BodiesOfMember(prods: seq<CfgProduction>, h: string, b: string)
    ensures b in BodiesOf(prods, h) <==> exists k :: 0 <= k < |prods| && prods[k].head == h && BodyText(prods[k].body) == b
    decreases |prods|
  {
    if prods != [] {
      var init := prods[..|prods| - 1];
      BodiesOfMember(init, h, b);
      if exists k :: 0 <= k < |prods| && prods[k].head == h && BodyText(prods[k].body) == b {
        var k :| 0 <= k < |prods| && prods[k].head == h && BodyText(prods[k].body) == b;
        if k < |init| {
          assert init[k] == prods[k];
        }
      }
      if b in BodiesOf(init, h) {
        var k :| 0 <= k < |init| && init[k].head == h && BodyText(init[k].body) == b;
        assert prods[k] == init[k];
      }
    }
  }

  /** ... and once per such production. */
  lemma {:induction false} BodiesOfCount(prods: seq<CfgProduction>, h: string)
    ensures |BodiesOf(prods, h)| == |set k | 0 <= k < |prods| && prods[k].head == h|
    decreases |prods|
  {
    var ks := set k | 0 <= k < |prods| && prods[k].head == h;
    if prods == [] {
      assert ks == {};
    } else {
      var n := |prods| - 1;
      var init := prods[..n];
      var ks' := set k | 0 <= k < n && init[k].head == h;
      BodiesOfCount(init, h);
      if prods[n].head == h {
        assert ks == ks' + {n};
      } else {
        assert ks == ks';
      }
    }
  }

  /** A head has bodies exactly when it heads some production. */
  lemma {:induction false} BodiesOfEmpty(prods: seq<CfgProduction>, h: string)
    ensures BodiesOf(prods, h) == [] <==> h !in HeadsIn(prods)
    decreases |prods|
  {
    if prods != [] {
      var n := |prods| - 1;
      var init := prods[..n];
      BodiesOfEmpty(init, h);
      HeadsInSnoc(prods);
    }
  }

  lemma HeadsInSnoc(prods: seq<CfgProduction>)
    requires prods != []
    ensures HeadsIn(prods) == HeadsIn(prods[..|prods| - 1]) + {prods[|prods| - 1].head}
  {
    var n := |prods| - 1;
    var init := prods[..n];
    forall x | x in HeadsIn(prods) ensures x in HeadsIn(init) + {prods[n].head} {
      var k :| 0 <= k < |prods| && prods[k].head == x;
      if k < n {
        assert init[k] == prods[k];
      }
    }
    forall x | x in HeadsIn(init) ensures x in HeadsIn(prods) {
      var k :| 0 <= k < n && init[k].head == x;
      assert prods[k] == init[k];
    }
  }

  /** The `setdefault(...).append(...)` loop of `from_cfg`: a dictionary from each head,
      in order of first appearance, to its body texts in production order. */
  method GroupBodies(prods: seq<CfgProduction>) returns (d: Dict<string, seq<string>>)
    ensures Valid(d)
    ensures KeySet(d) == HeadsIn(prods)
    ensures forall h :: h in HeadsIn(prods) ==> Get(d, h) == Some(BodiesOf(prods, h))
  {
    d := [];
    for i := 0 to |prods|
      invariant Valid(d)
      invariant KeySet(d) == HeadsIn(prods[..i])
      invariant forall h :: Get(d, h) == if h in HeadsIn(prods[..i]) then Some(BodiesOf(prods[..i], h)) else None
    {
      var p := prods[i];
      var lst := Get(d, p.head);
      var bodies := if lst.Some? then lst.value else [];
      ghost var d0 := d;
      d := Put(d, p.head, bodies + [BodyText(p.body)]);
      GroupStep(prods, i, d0, bodies);
    }
    assert prods[..|prods|] == prods;
  }

  lemma GroupStep(prods: seq<CfgProduction>, i: nat, d: Dict<string, seq<string>>, bodies: seq<string>)
    requires i < |prods| && Valid(d) && KeySet(d) == HeadsIn(prods[..i])
    requires forall h :: Get(d, h) == if h in HeadsIn(prods[..i]) then Some(BodiesOf(prods[..i], h)) else None
    requires bodies == if Get(d, prods[i].head).Some? then Get(d, prods[i].head).value else []
    ensures Valid(Put(d, prods[i].head, bodies + [BodyText(prods[i].body)]))
    ensures KeySet(Put(d, prods[i].head, bodies + [BodyText(prods[i].body)])) == HeadsIn(prods[..i + 1])
    ensures forall h :: (Get(Put(d, prods[i].head, bodies + [BodyText(prods[i].body)]), h) ==
                         if h in HeadsIn(prods[..i + 1]) then Some(BodiesOf(prods[..i + 1], h)) else None)
  {
    var p := prods[i];
    var v := bodies + [BodyText(p.body)];
    var pre, post := prods[..i], prods[..i + 1];
    assert post[..i] == pre && post[i] == p;
    HeadsInSnoc(post);
    PutValid(d, p.head, v);
    PutKeySet(d, p.head, v);
    forall h ensures Get(Put(d, p.head, v), h) == if h in HeadsIn(post) then Some(BodiesOf(post, h)) else None {
      if h == p.head {
        PutGet(d, p.head, v);
        BodiesOfEmpty(pre, h);
      } else {
        PutOther(d, p.head, v, h);
      }
    }
  }

  /** The alternatives `from_cfg` lists for `h` are the body texts of the productions
      for `h`, taken along some listing of those productions without repeats. */
  ghost predicate AlternativesFor(prods: set<CfgProduction>, h: string, bs: seq<string>) {
    exists q :: Distinct(q) && Elems(q) == ProductionsFor(prods, h) && bs == BodyTexts(q)
  }

  /** The body text of each production of `q`, in order. */
  function BodyTexts(q: seq<CfgProduction>): seq<string> {
    seq(|q|, i requires 0 <= i < |q| => BodyText(q[i].body))
  }

  /** The productions of `q` whose head is `h`, in order. */
  function WithHead(q: seq<CfgProduction>, h: string): seq<CfgProduction>
    decreases |q|
  {
    if q == [] then []
    else
      var init, p := WithHead(q[..|q| - 1], h), q[|q| - 1];
      if p.head == h then init + [p] else init
  }

  /** Listing the alternatives of `h` along a listing of the productions: a text is
      listed iff some production of `h` has it, and one text per production. */
  lemma AlternativesForMembers(prods: set<CfgProduction>, h: string, bs: seq<string>)
    requires AlternativesFor(prods, h, bs)
    ensures forall b :: b in bs <==> exists p :: p in prods && p.head == h && BodyText(p.body) == b
    ensures |bs| == |ProductionsFor(prods, h)|
  {
    var q :| Distinct(q) && Elems(q) == ProductionsFor(prods, h) && bs == BodyTexts(q);
    DistinctCard(q);
    forall b ensures b in bs <==> exists p :: p in prods && p.head == h && BodyText(p.body) == b {
      if b in bs {
        var i :| 0 <= i < |bs| && bs[i] == b;
        assert q[i] in Elems(q);
      }
      if exists p :: p in prods && p.head == h && BodyText(p.body) == b {
        var p :| p in prods && p.head == h && BodyText(p.body) == b;
        assert p in Elems(q);
        var i :| 0 <= i < |q| && q[i] == p;
        assert bs[i] == b;
      }
    }
  }

  /** The bodies of `h` along a listing are the body texts of its productions for `h`. */
  lemma {:induction false} BodiesOfWithHead(q: seq<CfgProduction>, h: string)
    ensures BodiesOf(q, h) == BodyTexts(WithHead(q, h))
    decreases |q|
  {
    if q != [] {
      var n := |q| - 1;
      BodiesOfWithHead(q[..n], h);
      if q[n].head == h {
        BodyTextsSnoc(WithHead(q[..n], h), q[n]);
      }
    }
  }

  lemma BodyTextsSnoc(w: seq<CfgProduction>, p: CfgProduction)
    ensures BodyTexts(w + [p]) == BodyTexts(w) + [BodyText(p.body)]
  {
  }

  /** `WithHead` keeps exactly the productions of `h` and repeats none of them. */
  lemma {:induction false} WithHeadElems(q: seq<CfgProduction>, h: string)
    requires Distinct(q)
    ensures Distinct(WithHead(q, h))
    ensures forall p :: p in WithHead(q, h) <==> p in q && p.head == h
    decreases |q|
  {
    if q != [] {
      var n := |q| - 1;
      var init := q[..n];
      assert q == init + [q[n]];
      WithHeadElems(init, h);
      if q[n].head == h {
        WithHeadSnoc(WithHead(init, h), init, q[n]);
      }
    }
  }

  lemma WithHeadSnoc(w: seq<CfgProduction>, init: seq<CfgProduction>, p: CfgProduction)
    requires Distinct(w) && Distinct(init + [p])
    requires forall x :: x in w ==> x in init
    ensures Distinct(w + [p])
  {
    forall i, j | 0 <= i < j < |w| + 1 ensures (w + [p])[i] != (w + [p])[j] {
      if j == |w| {
        assert w[i] in w;
        var k :| 0 <= k < |init| && init[k] == w[i];
        assert (init + [p])[k] == w[i] && (init + [p])[|init|] == p;
      } else {
        assert (w + [p])[i] == w[i] && (w + [p])[j] == w[j];
      }
    }
  }

  /** The productions for head `h`. */
  ghost function ProductionsFor(prods: set<CfgProduction>, h: string): set<CfgProduction> {
    set p | p in prods && p.head == h
  }

  /** `ECFG.from_cfg`: the grammar's variables, terminals and start symbol are kept, and
      each head gets one regular expression with one alternative per production for it.
      The productions are visited in the order Python iterates over their set. */
  method FromCfg(cfg: Cfg) returns (e: Ecfg)
    ensures e.variables == cfg.variables && e.terminals == cfg.terminals && e.start == cfg.start
    ensures Valid(e.productions)
    ensures KeySet(e.productions) == set p | p in cfg.productions :: p.head
    ensures forall h :: Get(e.productions, h).Some? ==>
      exists bs :: Get(e.productions, h).value == Alternatives(bs) && AlternativesFor(cfg.productions, h, bs)
  {
    var q := Enumerate(cfg.productions);
    var grouped := GroupBodies(q);
    var prods := MapValues(grouped, Alternatives);
    e := MakeEcfg(Some(cfg.variables), Some(cfg.terminals), cfg.start, Some(prods));
    assert Keys(prods) == Keys(grouped) by {
      MapValuesGet(grouped, Alternatives, "");
    }
    HeadsOfListing(cfg.productions, q);
    forall h | Get(prods, h).Some?
      ensures exists bs :: Get(prods, h).value == Alternatives(bs) && AlternativesFor(cfg.productions, h, bs)
    {
      MapValuesGet(grouped, Alternatives, h);
      assert h in HeadsIn(q);
      ListingBodies(cfg.productions, q, h);
    }
  }

  /** A listing of a set of productions has the same heads as the set ... */
  lemma HeadsOfListing(prods: set<CfgProduction>, q: seq<CfgProduction>)
    requires Elems(q) == prods
    ensures HeadsIn(q) == set p | p in prods :: p.head
  {
    forall x | x in HeadsIn(q) ensures x in set p | p in prods :: p.head {
      var k :| 0 <= k < |q| && q[k].head == x;
      assert q[k] in Elems(q);
    }
    forall x | x in set p | p in prods :: p.head ensures x in HeadsIn(q) {
      var p :| p in prods && p.head == x;
      var k :| 0 <= k < |q| && q[k] == p;
    }
  }

  /** ... and, when it has no repeats, lists for each head the alternatives of the set. */
  lemma ListingBodies(prods: set<CfgProduction>, q: seq<CfgProduction>, h: string)
    requires Distinct(q) && Elems(q) == prods
    ensures AlternativesFor(prods, h, BodiesOf(q, h))
  {
    var w := WithHead(q, h);
    BodiesOfWithHead(q, h);
    WithHeadElems(q, h);
    assert Elems(w) == ProductionsFor(prods, h);
  }

  /** A non-empty body whose symbol names contain no `.` splits back into its symbols. */
  lemma BodyTextSplit(body: seq<string>)
    requires body != []
    requires forall k, i :: 0 <= k < |body| && 0 <= i < |body[k]| ==> body[k][i] != '.'
    ensures Split(BodyText(body), ".") == body
  {
    forall k | 0 <= k < |body| ensures SepFree(body[k], ".") {
      var x := body[k];
      forall i | 0 <= i < |x| ensures !OccursAt(x + ".", ".", i) {
        assert (x + ".")[i] == x[i];
      }
    }
    SplitJoin(".", body);
  }

  /** Bodies in which ` | ` does not occur split back into their parenthesised forms. */
  lemma AlternativesSplit(bodies: seq<string>)
    requires bodies != []
    requires forall k, i :: 0 <= k < |bodies| && 0 <= i < |bodies[k]| ==> !OccursAt(bodies[k], " | ", i)
    ensures Split(Alternatives(bodies), " | ") == Parenthesised(bodies)
  {
    var ps := Parenthesised(bodies);
    forall k | 0 <= k < |ps| ensures SepFree(ps[k], " | ") {
      ParenthesisedSepFree(bodies[k]);
    }
    SplitJoin(" | ", ps);
  }

  lemma ParenthesisedSepFree(b: string)
    requires forall i :: 0 <= i < |b| ==> !OccursAt(b, " | ", i)
    ensures SepFree("(" + b + ")", " | ")
  {
    var x := "(" + b + ")";
    var y := x + " | ";
    forall i | 0 <= i < |x| ensures !OccursAt(y, " | ", i) {
      if i == 0 {
        assert y[0] == '(';
      } else if i + 3 <= |x| - 1 {
        assert !OccursAt(b, " | ", i - 1);
        assert y[i..i + 3] == b[i - 1..i + 2];
      } else {
        // the window covers the closing parenthesis
        var c := |x| - 1 - i;
        assert 0 <= c < 3 && y[i + c] == x[|x| - 1] == ')';
        assert y[i..i + 3][c] == y[i + c];
      }
    }
  }

  /** `test_1` of `tests/test_ecfg.py`, first case: `S -> epsilon` becomes `S: ($)`. */
  method FromCfgEpsilon() returns (e: Ecfg)
    ensures e.productions == [("S", "($)")]
  {
    var eps := CfgProduction("S", []);
    e := FromCfg(Cfg({"S"}, {}, Some("S"), {eps}));
    var d := e.productions;
    assert KeySet(d) == {"S"};
    SingleKey(d, "S");
    assert Get(d, "S") == Some(d[0].1);
    ghost var bs :| d[0].1 == Alternatives(bs) && AlternativesFor({eps}, "S", bs);
    AlternativesForMembers({eps}, "S", bs);
    assert ProductionsFor({eps}, "S") == {eps};
    assert |bs| == 1 && bs[0] in bs;
    assert bs == ["$"];
    var ps := Parenthesised(bs);
    assert |ps| == 1 && ps[0] == "(" + "$" + ")" == "($)";
    assert ps == ["($)"];
    assert Alternatives(bs) == "($)";
    assert d == [(d[0].0, d[0].1)];
  }

  /** A dictionary without repeated keys whose only key is `k` has one entry. */
  lemma SingleKey(d: Dict<string, string>, k: string)
    requires Valid(d) && KeySet(d) == {k}
    ensures |d| == 1 && d[0].0 == k
  {
    DistinctCard(Keys(d));
    assert Keys(d)[0] in KeySet(d);
  }

  /** `test_1`, second case: `S -> epsilon | a S b S` becomes one regular expression
      for `S` with both bodies as alternatives, in whichever order the set of
      productions is visited. */
  method FromCfgTwoBodies() returns (e: Ecfg)
    ensures KeySet(e.productions) == {"S"}
    ensures Get(e.productions, "S") == Some("($) | (a.S.b.S)") || Get(e.productions, "S") == Some("(a.S.b.S) | ($)")
  {
    var eps := CfgProduction("S", []);
    var asbs := CfgProduction("S", ["a", "S", "b", "S"]);
    var prods := {eps, asbs};
    e := FromCfg(Cfg({"S"}, {"a", "b"}, Some("S"), prods));
    var d := e.productions;
    assert "S" in Keys(d);
    ghost var bs :| Get(d, "S").value == Alternatives(bs) && AlternativesFor(prods, "S", bs);
    TwoBodies(bs);
  }

  lemma TwoBodies(bs: seq<string>)
    requires AlternativesFor({CfgProduction("S", []), CfgProduction("S", ["a", "S", "b", "S"])}, "S", bs)
    ensures Alternatives(bs) == "($) | (a.S.b.S)" || Alternatives(bs) == "(a.S.b.S) | ($)"
  {
    TwoBodiesOrder(bs);
    AlternativesPair(bs[0], bs[1]);
    assert bs == [bs[0], bs[1]];
    PairText(bs[0], bs[1]);
  }

  lemma PairText(x: string, y: string)
    requires [x, y] == ["$", "a.S.b.S"] || [x, y] == ["a.S.b.S", "$"]
    ensures "(" + x + ")" + " | " + "(" + y + ")" in {"($) | (a.S.b.S)", "(a.S.b.S) | ($)"}
  {
    if x == "$" {
      assert "(" + "$" + ")" + " | " + "(" + "a.S.b.S" + ")" == "($) | (a.S.b.S)";
    } else {
      assert "(" + "a.S.b.S" + ")" + " | " + "(" + "$" + ")" == "(a.S.b.S) | ($)";
    }
  }

  lemma TwoBodiesOrder(bs: seq<string>)
    requires AlternativesFor({CfgProduction("S", []), CfgProduction("S", ["a", "S", "b", "S"])}, "S", bs)
    ensures bs == ["$", "a.S.b.S"] || bs == ["a.S.b.S", "$"]
  {
    var eps := CfgProduction("S", []);
    var asbs := CfgProduction("S", ["a", "S", "b", "S"]);
    var prods := {eps, asbs};
    AlternativesForMembers(prods, "S", bs);
    assert ProductionsFor(prods, "S") == prods;
    assert |prods| == 2;
    LongBody();
    assert BodyText(eps.body) == "$";
    assert "$" in bs && "a.S.b.S" in bs;
    assert bs[0] in bs && bs[1] in bs;
  }

  lemma LongBody()
    ensures BodyText(["a", "S", "b", "S"]) == "a.S.b.S"
  {
    var body := ["a", "S", "b", "S"];
    assert body[1..] == ["S", "b", "S"] && body[1..][1..] == ["b", "S"] && body[1..][1..][1..] == ["S"];
  }

  lemma AlternativesPair(x: string, y: string)
    ensures Alternatives([x, y]) == "(" + x + ")" + " | " + "(" + y + ")"
  {
    var ps := Parenthesised([x, y]);
    assert |ps| == 2 && ps[1..] == [ps[1]];
    assert Join(" | ", ps[1..]) == ps[1];
    assert Join(" | ", ps) == ps[0] + " | " + ps[1];
    AppendAssoc(ps[0] + " | ", "(" + y, ")");
    AppendAssoc(ps[0] + " | ", "(", y);
  }
}
