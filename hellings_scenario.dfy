/** The context-free path query of `tests/test_hellings.py`: the grammar
    S -> A B | A S1, S1 -> S B, A -> a, B -> b (already in weak Chomsky normal form, it
    derives a^n b^n for n >= 1) over the two-cycle graph with an a-cycle 0 -> 1 -> 2 -> 0
    and a b-cycle 0 -> 3 -> 0. */
module HellingsScenario {
  import opened Collections
  import opened Graphs
  import opened Hellings

  function Grammar(): seq<Production<string, char>> {
    [Binary("S", "A", "B"), Binary("S", "A", "S1"), Binary("S1", "S", "B"),
     Terminal("A", 'a'), Terminal("B", 'b')]
  }

  /** `create_two_cycles_graph(2, 1)`: the first cycle has n + 1 = 3 nodes labelled
      `a`, the second m + 1 = 2 nodes labelled `b`, sharing node 0. */
  function TwoCycles(): Graph<nat, char> {
    Graph([0, 1, 2, 3], [(0, 'a', 1), (1, 'a', 2), (2, 'a', 0), (0, 'b', 3), (3, 'b', 0)])
  }

  /** What every derivable triple of this grammar looks like on this graph: the words of
      A, S and S1 start with an `a`, so never at node 3, and the words of B, S and S1
      end with a `b`, so at node 0 or 3. */
  ghost predicate Shape(x: (nat, string, nat)) {
    && (x.1 in {"A", "S", "S1"} ==> x.0 != 3)
    && (x.1 in {"B", "S", "S1"} ==> x.2 == 0 || x.2 == 3)
  }

  lemma SeedShape(x: (nat, string, nat))
    requires x in Seeds(Grammar(), TwoCycles())
    ensures Shape(x)
  {
    var prods, g := Grammar(), TwoCycles();
    var p :| p in prods && x in SeedsOf(p, g);
    assert p == prods[3] || p == prods[4] || !p.Terminal?;
    if p == prods[3] {
      var e :| e in g.edges && e.1 == 'a' && x == (e.0, "A", e.2);
      assert e.0 in {0, 1, 2};
    } else if p == prods[4] {
      var e :| e in g.edges && e.1 == 'b' && x == (e.0, "B", e.2);
      assert e.2 in {0, 3};
    }
  }

  lemma ComboShape(r: set<(nat, string, nat)>, x: (nat, string, nat))
    requires forall y :: y in r ==> Shape(y)
    requires x in Combos(Grammar(), r)
    ensures Shape(x)
  {
    var prods := Grammar();
    var t1, t2, h :| t1 in r && t2 in r && t1.2 == t2.0 && h in Heads(prods, t1.1, t2.1) && x == (t1.0, h, t2.2);
    var p :| p in prods && p.Binary? && p.left == t1.1 && p.right == t2.1 && p.head == h;
    assert Shape(t1) && Shape(t2);
    assert p == prods[0] || p == prods[1] || p == prods[2];
  }

  lemma {:induction false} IterShape(k: nat)
    ensures forall x :: x in Iter(Grammar(), TwoCycles(), k) ==> Shape(x)
    decreases k
  {
    var prods, g := Grammar(), TwoCycles();
    if k == 0 {
      forall x | x in Seeds(prods, g) ensures Shape(x) {
        SeedShape(x);
      }
    } else {
      IterShape(k - 1);
      forall x | x in Iter(prods, g, k) ensures Shape(x) {
        if x !in Iter(prods, g, k - 1) {
          ComboShape(Iter(prods, g, k - 1), x);
        }
      }
    }
  }

  lemma DerivableShape(x: (nat, string, nat))
    requires Derivable(Grammar(), TwoCycles(), x)
    ensures Shape(x)
  {
    var k: nat :| x in Iter(Grammar(), TwoCycles(), k);
    IterShape(k);
  }

  lemma SeedDerivable<N(!new), V(!new), L(!new)>(prods: seq<Production<V, L>>, g: Graph<N, L>,
      p: Production<V, L>, x: (N, V, N))
    requires p in prods && x in SeedsOf(p, g)
    ensures Derivable(prods, g, x)
  {
    assert x in Iter(prods, g, 0);
  }

  /** S derives a^n b^n from node (6 - n) % 3 to node 3 (n odd) or 0 (n even), for
      n = 1 .. 6: one derivation for each of the six expected pairs. */
  lemma ChainDerivable()
    ensures forall u, v :: u in {0, 1, 2} && v in {0, 3} ==> Derivable(Grammar(), TwoCycles(), (u, "S", v))
  {
    var prods, g := Grammar(), TwoCycles();
    var ab, aS1, s1 := prods[0], prods[1], prods[2];
    var ta, tb := prods[3], prods[4];
    assert g.edges[0] == (0, 'a', 1) && g.edges[1] == (1, 'a', 2) && g.edges[2] == (2, 'a', 0);
    assert g.edges[3] == (0, 'b', 3) && g.edges[4] == (3, 'b', 0);
    SeedDerivable(prods, g, ta, (0, "A", 1));
    SeedDerivable(prods, g, ta, (1, "A", 2));
    SeedDerivable(prods, g, ta, (2, "A", 0));
    SeedDerivable(prods, g, tb, (0, "B", 3));
    SeedDerivable(prods, g, tb, (3, "B", 0));
    assert "S" in Heads(prods, "A", "B") && "S" in Heads(prods, "A", "S1") && "S1" in Heads(prods, "S", "B") by {
      assert ab in prods && aS1 in prods && s1 in prods;
    }
    // n = 1: a b from 2 to 3
    ComboDerivable(prods, g, (2, "A", 0), (0, "B", 3), "S");
    // n = 2 .. 6: S -> A S1 and S1 -> S B around the previous pair
    ComboDerivable(prods, g, (2, "S", 3), (3, "B", 0), "S1");
    ComboDerivable(prods, g, (1, "A", 2), (2, "S1", 0), "S");
    ComboDerivable(prods, g, (1, "S", 0), (0, "B", 3), "S1");
    ComboDerivable(prods, g, (0, "A", 1), (1, "S1", 3), "S");
    ComboDerivable(prods, g, (0, "S", 3), (3, "B", 0), "S1");
    ComboDerivable(prods, g, (2, "A", 0), (0, "S1", 0), "S");
    ComboDerivable(prods, g, (2, "S", 0), (0, "B", 3), "S1");
    ComboDerivable(prods, g, (1, "A", 2), (2, "S1", 3), "S");
    ComboDerivable(prods, g, (1, "S", 3), (3, "B", 0), "S1");
    ComboDerivable(prods, g, (0, "A", 1), (1, "S1", 0), "S");
  }

  /** The expected answer of the test: any map `QueryCfgGraph` may return for these
      inputs is {0: {0, 3}, 1: {0, 3}, 2: {0, 3}, 3: {}}. */
  lemma QueryScenario(res: map<nat, set<nat>>)
    requires res.Keys == Elems([0, 1, 2, 3])
    requires forall u, v :: u in res ==>
      (v in res[u] <==> v in [0, 1, 2, 3] && Derivable(Grammar(), TwoCycles(), (u, "S", v)))
    ensures res == map[0 := {0, 3}, 1 := {0, 3}, 2 := {0, 3}, 3 := {}]
  {
    var want: map<nat, set<nat>> := map[0 := {0, 3}, 1 := {0, 3}, 2 := {0, 3}, 3 := {}];
    forall u | u in res ensures res[u] == want[u] {
      QueryRow(u, res[u]);
    }
    assert res.Keys == want.Keys;
  }

  /** One row of the answer: the final nodes reached from start node `u` by a word of
      S are 0 and 3, unless `u` is node 3, which reaches none. */
  lemma QueryRow(u: nat, r: set<nat>)
    requires u in [0, 1, 2, 3]
    requires forall v :: v in r <==> v in [0, 1, 2, 3] && Derivable(Grammar(), TwoCycles(), (u, "S", v))
    ensures r == if u == 3 then {} else {0, 3}
  {
    var want: set<nat> := if u == 3 then {} else {0, 3};
    ChainDerivable();
    forall v | v in r ensures v in want {
      DerivableShape((u, "S", v));
    }
    forall v | v in want ensures v in r {
      assert u in {0, 1, 2} && v in {0, 3};
      assert v in [0, 1, 2, 3];
    }
  }

  /** `test_query_cfg_sf`: the query with start variable S and every node as start and
      final node. */
  method QueryExample() returns (res: map<nat, set<nat>>)
    ensures res == map[0 := {0, 3}, 1 := {0, 3}, 2 := {0, 3}, 3 := {}]
  {
    var g := TwoCycles();
    assert g.Valid() by {
      assert forall i, j :: 0 <= i < j < |g.nodes| ==> g.nodes[i] != g.nodes[j];
    }
    res := QueryCfgGraph(Grammar(), g, "S", [0, 1, 2, 3], [0, 1, 2, 3]);
    QueryScenario(res);
  }
}
