# formal-lang-course path queries in Dafny

This project models the algebra behind the path queries of the formal-lang-course
repository, and proves properties of that model.

- **Regular path queries** (`project/dfa_utils.py`):
  - a labelled graph becomes an automaton;
  - each automaton becomes one boolean adjacency matrix per symbol;
  - two automata are intersected through Kronecker products of these matrices;
  - the union of the product's matrices is closed by repeated squaring
    (`C := C + C @ C`) until the number of set bits stops changing;
  - the closure bits that join a product start state to a product final state are
    decoded back to pairs of graph nodes.
- **Context-free path queries** (`project/graph.py`): Hellings' worklist algorithm over
  a grammar in weak Chomsky normal form, and `query_cfg_graph`, which filters its
  triples by start variable, start nodes and final nodes.
- **Recursive automata and extended grammars** (`project/ecfg.py`):
  - `RFA.to_matrices` numbers the tagged states of all boxes and builds one matrix
    family;
  - `ECFG` has its constructor defaults, `__repr__`, `from_text` (line splitting,
    stripping, `->` splitting, later lines overwriting earlier ones) and `from_cfg`
    (body texts joined by `.`, `$` for the empty body, `(b1) | (b2) | ...`).
- **Runtime values of the query language** (`project/lang/utils.py`):
  - `Entity` and its operators `&`, `|` and `+`, with the type errors they raise;
  - equality and the four orderings;
  - the `Identifiers` name table;
  - `InterpretError` messages with their `line:column` prefix.

## How the model is built

- A `dok_matrix` of booleans is a `BoolMatrix`: a dimension and the set of its nonzero
  coordinates.
- An automaton (`Automata.Nfa`) has:
  - a state sequence without repeats, in the iteration order of pyformlang's state
    set;
  - a transition set;
  - start and final sets.
- Wherever the source iterates over a Python set, the model uses `Collections.Enumerate`
  or a `:|` choice. Every contract therefore holds for every iteration order.
- Python dictionaries whose insertion order shows in the result are association lists
  without repeated keys (`Dicts`):
  - `ECFG.productions`;
  - the `productions_lst` of `from_cfg`.
- Loops of the source are Dafny `while`/`for` loops with invariants:
  - the closure loop, whose measure is the number of still-unset bits;
  - Hellings' queue, whose measure is the number of triples not yet in the result;
  - the matrix filling loops;
  - the reading loop of `from_text`.
- Their methods are proved against specification functions or predicates:
  - `Paths.Reach`, walks of one or more steps;
  - `Automata.RpqAnswer`, pairs joined by a joint walk of pattern and graph;
  - `Hellings.Derivable`, the least set of triples closed under the grammar's rules;
  - `Ecfg.Parse`, what `from_text` returns or raises.
- `Identifiers` is a class whose `data` map its methods update.

## Model

| member | source | states |
|---|---|---|
| Collections.Enumerate | project/dfa_utils.py:38 | iterating over a set visits every element exactly once |
| Collections.IndexOf | project/dfa_utils.py:35-36 | `{k: i for i, k in enumerate(states)}` maps the states bijectively onto 0..n-1 |
| Collections.DistinctCard | project/dfa_utils.py:36 | `len(states)` equals the number of distinct states |
| BoolMatrices.Zero | project/dfa_utils.py:89 | a fresh `dok_matrix((n, n))` is an n x n matrix with no bit set |
| BoolMatrices.SetBit | project/dfa_utils.py:39-41 | `m[i, j] = 1` sets exactly bit (i, j) and keeps the dimension |
| BoolMatrices.Or | project/dfa_utils.py:90-91 | the in-place or of `c` with a matrix holds a bit iff either operand holds it |
| BoolMatrices.Mul | project/dfa_utils.py:96 | bit (i, j) of `c @ c` is set iff some k has (i, k) and (k, j) |
| BoolMatrices.EncodeValue | project/dfa_utils.py:61 | the flattened product index is `idx1 * n2 + idx2` |
| BoolMatrices.EncodeDecode | project/dfa_utils.py:110-111 | `/ n2` and `% n2` recover both halves of a flattened index |
| BoolMatrices.EncodeBound | project/dfa_utils.py:61 | a flattened index lies below n1 * n2 |
| BoolMatrices.EncodeInjective | project/dfa_utils.py:58-70 | distinct pairs of states get distinct product states |
| BoolMatrices.Kron | project/dfa_utils.py:51 | scipy's `kron` on boolean matrices: dimension size(a) * size(b), bits from pairs of bits; stated by `KronValid`, `KronBitsRule` and `KronBitsDecode` |
| BoolMatrices.KronBitsDecode | project/dfa_utils.py:51 | every bit of `kron(a, b)` lies in the product square and comes from a bit of a and a bit of b |
| BoolMatrices.KronBitsRule | project/dfa_utils.py:51 | bit (i1 n2 + i2, j1 n2 + j2) of `kron(a, b)` is set iff a has (i1, j1) and b has (i2, j2) |
| BoolMatrices.KronValid | project/dfa_utils.py:51 | the Kronecker product is a square matrix of dimension size(a) * size(b) |
| Automata.Endpoints | project/dfa_utils.py:23 | `add_transitions` adds both ends of every transition as states |
| Automata.EndpointsAdd | project/dfa_utils.py:23 | one more transition adds exactly its two ends |
| Automata.PositionsToStates | project/dfa_utils.py:93-97 | a walk between matrix positions is a walk between the automaton states at those positions |
| Automata.StatesToPositions | project/dfa_utils.py:93-97 | a walk between states is a walk between their matrix positions |
| Automata.ProductStepToPair | project/dfa_utils.py:53-56 | one product move is one joint move of the operands on the same symbol |
| Automata.ProductToPairs | project/dfa_utils.py:45-72 | a walk of the product automaton decodes to a joint walk of its operands |
| Automata.PairsToProduct | project/dfa_utils.py:45-72 | a joint walk of the operands encodes to a walk of the product automaton |
| Automata.DecodeEncoded | project/dfa_utils.py:58-70 | a flattened pair of states decodes back to that pair |
| Automata.EncodedPairsMember | project/dfa_utils.py:58-70 | every product start or final state encodes a start (final) pair and decodes to it |
| Paths.ReachTrans | project/dfa_utils.py:93-97 | walks compose |
| Paths.ReachFirstStep | project/dfa_utils.py:93-97 | a walk starts with one step, and the rest of it is a walk or nothing |
| Paths.ReachWithinClosed | project/dfa_utils.py:93-97 | a transitive relation that contains the steps contains every walk |
| Paths.ReachImage | project/dfa_utils.py:110-111 | a map that carries steps to steps carries walks to walks |
| Paths.ReachOfTransitive | project/dfa_utils.py:93-97 | a transitive relation is its own closure |
| DfaUtils.AddEdges | project/dfa_utils.py:23 | one transition `v --label--> u` per edge; the states are their endpoints |
| DfaUtils.AddStates | project/dfa_utils.py:25-28 | `add_start_state`/`add_final_state` of each node marks exactly the given nodes |
| DfaUtils.Graph2Nfa | project/dfa_utils.py:17-29 | the automaton's transitions are the edges and its start and final sets are the given nodes; its states are the edge endpoints plus those nodes, without repeats |
| DfaUtils.Graph2NfaOptional | project/dfa_utils.py:17-29 | with the default `None` for the start or the final nodes the call raises the `TypeError` of iterating over `None`; with both given it builds what `Graph2Nfa` builds |
| DfaUtils.IntersectMovesAsWritten | project/dfa_utils.py:51 | the product's moves as line 51 builds them, from the left operand's matrix with itself; what that loses is stated by `AsWrittenMember` and `AsWrittenMissesJointMove` |
| DfaUtils.SetDefaultBit | project/dfa_utils.py:39-41 | `setdefault(s, zero)[i, j] = 1` adds (i, j) to the matrix of s (new if absent) and leaves the other matrices alone |
| DfaUtils.AdjacencyAdd | project/dfa_utils.py:38-41 | a new transition adds exactly its position pair to the adjacency of its symbol |
| DfaUtils.AdjacencyAddOther | project/dfa_utils.py:38-41 | a new transition leaves the adjacency of every other symbol unchanged |
| DfaUtils.MatricesOfAdd | project/dfa_utils.py:38-41 | setting the bit of one more transition keeps the matrices exact for the transitions seen so far |
| DfaUtils.MatricesOfStep | project/dfa_utils.py:38-41 | one loop step: both ends of the transition have indices and the matrices stay exact |
| DfaUtils.NfaToBoolMatrices | project/dfa_utils.py:32-42 | the index is the state bijection; a symbol has a matrix iff it labels a transition; every matrix is n x n with bit (i, j) set iff state i moves to state j on that symbol; starts and finals come back unchanged |
| DfaUtils.IntersectMovesMember | project/dfa_utils.py:50-56 | every Kronecker bit on a common symbol is a product move on that symbol |
| DfaUtils.AsWrittenMember | project/dfa_utils.py:51 | as written, every product move comes from the square of the first operand's matrix |
| DfaUtils.AsWrittenMissesJointMove | project/dfa_utils.py:51 | as written, a joint move of the two operands is missing from the product |
| DfaUtils.AddMatrixMoves | project/dfa_utils.py:53-56 | `for v, u in zip(*m.nonzero()): add_transition(v, s, u)` adds one move on s per bit |
| DfaUtils.ProductMoves | project/dfa_utils.py:50-56 | the product moves are the Kronecker bits of the two operands' matrices, on the symbols of both operands only |
| DfaUtils.ProductStatesRow | project/dfa_utils.py:59-63 | the inner loop adds `i1 * n2 + i2` for one left state and every right state |
| DfaUtils.ProductStates | project/dfa_utils.py:58-70 | the product start (final) states are exactly `{idx1(s1) * n2 + idx2(s2)}` over the Cartesian product |
| DfaUtils.EncodedPairsAdd | project/dfa_utils.py:58-63 | one more left state adds its row of encoded pairs |
| DfaUtils.KronBitDecodes | project/dfa_utils.py:51-56 | a Kronecker bit on s decodes to a move on s of each operand |
| DfaUtils.IntersectMovesDecode | project/dfa_utils.py:50-56 | every product move decodes to a joint move of the operands |
| DfaUtils.JointMoveEncodes | project/dfa_utils.py:50-56 | a move of each operand on a common symbol encodes to a product move |
| DfaUtils.IntersectMovesEncode | project/dfa_utils.py:50-56 | every joint move of the operands encodes to a product move |
| DfaUtils.IntersectMovesAdd | project/dfa_utils.py:53-56 | the moves of one more symbol are its Kronecker bits |
| DfaUtils.NfaIntersect | project/dfa_utils.py:45-72 | the product's moves are exactly the encoded joint moves of both operands, in both directions; its start and final sets are the encoded Cartesian products |
| DfaUtils.UnionMatrix | project/dfa_utils.py:89-91 | bit (i, j) of `c` is set iff some symbol's matrix has it |
| DfaUtils.UnionIsStepMatrix | project/dfa_utils.py:89-91 | the union of the per-symbol matrices is the one-step relation of the automaton |
| DfaUtils.SquareSound | project/dfa_utils.py:96 | one squaring round keeps every bit a walk of the original matrix |
| DfaUtils.SquareClosedTransitive | project/dfa_utils.py:97 | when squaring adds no bit, the matrix is transitive |
| DfaUtils.Closure | project/dfa_utils.py:93-97 | the loop ends; bit (i, j) is set iff j is reachable from i in one or more steps, with no identity added |
| DfaUtils.ClosureIdempotent | project/dfa_utils.py:93-97 | closing the closure again changes nothing |
| DfaUtils.AnswersAdd | project/dfa_utils.py:104-113 | one more closure bit adds at most its decoded pair |
| DfaUtils.AddAnswer | project/dfa_utils.py:106-113 | a bit from a product start state to a product final state adds `states_list[id % n]` of both ends |
| DfaUtils.CollectAnswers | project/dfa_utils.py:99-113 | the result is the decoded pairs of exactly the start-to-final closure bits |
| DfaUtils.AnswerSound | project/dfa_utils.py:99-113 | every reported pair is joined by a graph walk whose labels the pattern accepts |
| DfaUtils.AnswerComplete | project/dfa_utils.py:99-113 | every such pair is reported for some closure bit |
| DfaUtils.QueryAnswer | project/dfa_utils.py:85-115 | the reported pairs are exactly the answers of the query |
| DfaUtils.ProductClosure | project/dfa_utils.py:85-97 | `c` is the product's one-step matrix and `closure` its transitive closure |
| DfaUtils.ProductAnswers | project/dfa_utils.py:85-115 | from the product of pattern and graph automaton, the exact answer set |
| DfaUtils.Query | project/dfa_utils.py:75-115 | `query` returns exactly the (start, final) node pairs joined by one or more edges whose label word the pattern automaton accepts |
| Hellings.IterMono | project/graph.py:80-82 | the specification rounds are monotone: round i's triples are among round j's when i <= j |
| Hellings.CombosMono | project/graph.py:71-79 | more triples combine into more triples |
| Hellings.ComboDerivable | project/graph.py:71-79 | combining two derivable triples through `H -> A B` gives a derivable triple |
| Hellings.IterWithin | project/graph.py:52-83 | a set that holds the seeds and is closed under combination holds every derivable triple |
| Hellings.SeedsInGraph | project/graph.py:55-66 | seed triples join graph nodes through production heads |
| Hellings.CombosInGraph | project/graph.py:71-79 | combined triples join graph nodes through production heads |
| Hellings.IterInGraph | project/graph.py:58-79 | every derivable triple joins graph nodes through a head of some production |
| Hellings.DerivableInUniverse | project/graph.py:68-82 | derivable triples lie among nodes x heads x nodes, the measure of the loop |
| Hellings.SeedsSnoc | project/graph.py:55 | the seeds of one more production are added to the seeds so far |
| Hellings.SeedNodes | project/graph.py:56-60 | `H -> epsilon` adds (n, H, n) for every node n to both the result and the queue |
| Hellings.SeedEdges | project/graph.py:61-66 | `H -> t` adds (u, H, v) for every edge u -> v labelled t to both the result and the queue |
| Hellings.Seed | project/graph.py:52-66 | the seeding loop produces exactly the seeds, each both in the result and in the queue |
| Hellings.AddJoins | project/graph.py:73-75 | one pass over the productions adds (x, H, z) for each `H -> A B` |
| Hellings.StepDiffAdd | project/graph.py:71-79 | each triple of the result contributes its own combinations to `diff` |
| Hellings.Combine | project/graph.py:70-79 | `diff` is exactly what the dequeued triple combines into, on its left and on its right |
| Hellings.PendingStep | project/graph.py:68-82 | one dequeue keeps the invariant: every missing combination is still owed by a queued triple |
| Hellings.PendingDone | project/graph.py:68-83 | with the queue empty, the result is closed under combination |
| Hellings.StepSound | project/graph.py:70-80 | every triple added is derivable |
| Hellings.HellingsCfpq | project/graph.py:46-83 | the loop ends; the result is exactly the derivable triples, holds the seeds, is closed under every `H -> A B`, and joins graph nodes through production heads |
| Hellings.QueryCfgGraph | project/graph.py:86-99 | the keys are exactly the start nodes; v is in `result[u]` iff v is a final node and (u, S, v) is derivable |
| HellingsScenario.SeedShape | tests/test_hellings.py:5-22 | on the two-cycle graph, A-triples never start at node 3 and B-triples end at node 0 or 3 |
| HellingsScenario.IterShape | tests/test_hellings.py:5-22 | that shape holds for every round of combination |
| HellingsScenario.DerivableShape | tests/test_hellings.py:5-22 | that shape holds for every derivable triple |
| HellingsScenario.ChainDerivable | tests/test_hellings.py:5-22 | S derives a path from each of nodes 0, 1, 2 to each of nodes 0, 3 |
| HellingsScenario.QueryScenario | tests/test_hellings.py:5-22 | any map meeting the `query_cfg_graph` contract is {0: {0, 3}, 1: {0, 3}, 2: {0, 3}, 3: {}} |
| HellingsScenario.QueryExample | tests/test_hellings.py:5-22 | the query of the test returns {0: {0, 3}, 1: {0, 3}, 2: {0, 3}, 3: {}} |
| Ecfg.StatePairsAdd | project/ecfg.py:24-26 | one more box adds its states tagged with its variable |
| Ecfg.TaggedAdd | project/ecfg.py:30-35 | one more box adds its transitions, tagged at both ends |
| Ecfg.TagAdd | project/ecfg.py:31-35 | one more transition adds one tagged transition |
| Ecfg.TagStates | project/ecfg.py:25-26 | `all_states.add((var, x))` for every state x of one box |
| Ecfg.AllStates | project/ecfg.py:23-26 | the first loop collects every state of every box, tagged with its variable |
| Ecfg.BoxStep | project/ecfg.py:31-35 | one more transition of a box keeps the matrices exact for the tagged transitions seen |
| Ecfg.AddTransitionBit | project/ecfg.py:32-35 | `mat[idx[(var, fro)], idx[(var, to)]] = True` sets that transition's bit on its symbol |
| Ecfg.AddBoxBits | project/ecfg.py:31-35 | the inner loop sets the bit of every transition of one box |
| Ecfg.TaggedMember | project/ecfg.py:30-35 | a tagged transition belongs to the family iff it is a move of one box between states tagged with that box's variable |
| Ecfg.MatricesByIndex | project/ecfg.py:27-35 | the index is onto 0..n-1; a symbol has a matrix iff it labels a box transition; bit (idx k1, idx k2) is set iff k1 and k2 belong to one box with a move between them |
| Ecfg.RfaToMatrices | project/ecfg.py:22-36 | the index is a bijection from the tagged states onto 0..n-1; a symbol has an n x n matrix iff some box uses it; a bit is set iff its box has that move; no bit joins states of two different variables |
| Ecfg.MakeEcfg | project/ecfg.py:44-54 | `ECFG.__init__`: the fields from the arguments, `or` an empty set or dictionary; its meaning is stated by `MakeEcfgDefaults` and `MakeEcfgFields` |
| Ecfg.MakeEcfgDefaults | project/ecfg.py:44-54 | leaving out the variables, the terminals or the productions is the same as giving empty ones; leaving out all three gives the empty grammar with the given start |
| Ecfg.MakeEcfgFields | project/ecfg.py:51-54 | given every field of a grammar, the constructor builds that grammar |
| Ecfg.Repr | project/ecfg.py:56-57 | `__repr__` joins the production lines with `\n`; its lines are stated by `ReprLine` and `ReprSplitLines`, and reading it back by `FromTextRepr` |
| Ecfg.ReprLines | project/ecfg.py:57 | the generator of `__repr__`: one line per production; the lines themselves are stated by `ReprLine` |
| Ecfg.ReprLine | project/ecfg.py:56-57 | line k of `__repr__` is `head -> body` of production k, with no line break inside |
| Ecfg.ReprSplitLines | project/ecfg.py:56-64 | splitting the `__repr__` text into lines gives back the production lines |
| Ecfg.FromText | project/ecfg.py:59-78 | `from_text` returns or raises exactly what `Parse` prescribes |
| Ecfg.ClassifyBlank | project/ecfg.py:65-67 | a line is skipped iff it is whitespace only |
| Ecfg.Kinds | project/ecfg.py:64-72 | one classification per line of the text; `KindsAt` states that line k is classified by `Classify` |
| Ecfg.Classify | project/ecfg.py:64-72 | the treatment of one line (skipped, a head and a body, or the unpacking error); what it means is stated by `ClassifyBlank`, `ClassifyBad` and `ClassifyProd` |
| Ecfg.ClassifyBad | project/ecfg.py:65-70 | a line is malformed iff it holds a non-whitespace character and its stripped text does not split at `->` into exactly two parts; the error carries the number of parts |
| Ecfg.ClassifyProd | project/ecfg.py:65-72 | an accepted line is, once stripped, the text before the arrow, the arrow and the body; the head is that text stripped and the body is kept unstripped |
| Ecfg.ReadKinds | project/ecfg.py:64-76 | the reading loop over the classified lines, stopping at the first malformed one; its meaning is stated by `ReadKindsFails`, `ReadKindsError` and `ReadKindsGet` |
| Ecfg.ReadKindsFails | project/ecfg.py:64-76 | reading fails iff some line is malformed |
| Ecfg.ReadKindsError | project/ecfg.py:69-70 | the error reports the part count of the first malformed line |
| Ecfg.Parse | project/ecfg.py:59-78 | what `from_text` returns or raises: the lines read in order, then a grammar with empty terminals and the given start; its meaning is stated by `ParseFailsOn`, `ParseError` and `ParseOk` |
| Ecfg.ParseFailsOn | project/ecfg.py:64-70 | `from_text` raises when some non-blank line does not split at `->` into two parts |
| Ecfg.ParseError | project/ecfg.py:64-70 | when `from_text` raises, some line splits into other than two parts, and the error reports the first such line |
| Ecfg.ReadKindsSkip | project/ecfg.py:66-67 | a blank line changes nothing |
| Ecfg.ReadKindsVars | project/ecfg.py:72-74 | the stripped heads are added to the variables |
| Ecfg.ReadKindsKeys | project/ecfg.py:76 | the stripped heads are added to the production keys |
| Ecfg.ReadKindsValid | project/ecfg.py:76 | no key is stored twice |
| Ecfg.ReadKindsGet | project/ecfg.py:76 | each head ends up with the body of its last line; a later line overwrites an earlier one |
| Ecfg.ParseOk | project/ecfg.py:59-78 | on success the variables and the keys are the heads of the lines; each head has its last body; the terminals are empty and the start symbol is the one given |
| Ecfg.ClassifyLine | project/ecfg.py:57-72 | a `__repr__` line reads back as its head and its body with the arrow's space |
| Ecfg.ArrowSplit | project/ecfg.py:57-69 | the arrow `__repr__` writes is the only one on its line |
| Ecfg.KindsRepr | project/ecfg.py:56-72 | every `__repr__` line reads back as its production |
| Ecfg.ReadRepr | project/ecfg.py:72-76 | reading the `__repr__` lines adds each head and its body in their order |
| Ecfg.FromTextRepr | project/ecfg.py:56-78 | `from_text(repr(g))` gives back g's heads as variables and keys, in their order, each body with the space `__repr__` writes after the arrow in front of it, empty terminals and the given start |
| Ecfg.BodyText | project/ecfg.py:85-88 | a body is written as its symbol names joined by `.`, the empty body as `$`; its meaning is stated by `BodyTextSplit` and `LongBody` |
| Ecfg.Alternatives | project/ecfg.py:89-92 | a head's expression is its parenthesised bodies joined by the bar separator; its meaning is stated by `AlternativesSplit` and `AlternativesPair` |
| Ecfg.Parenthesised | project/ecfg.py:90 | `f"({elem})"` wraps each body in parentheses |
| Ecfg.BodiesOfMember | project/ecfg.py:83-88 | a text is listed for a head iff some production of that head has that body text |
| Ecfg.BodiesOfCount | project/ecfg.py:83-88 | each production of a head contributes exactly one body text |
| Ecfg.BodiesOfEmpty | project/ecfg.py:84 | a head has bodies iff it heads some production |
| Ecfg.HeadsInSnoc | project/ecfg.py:83-84 | one more production adds its head |
| Ecfg.GroupBodies | project/ecfg.py:82-88 | the `setdefault(...).append(...)` loop maps each head, and only heads, to its body texts in order |
| Ecfg.GroupStep | project/ecfg.py:84-88 | one loop step keeps that description |
| Ecfg.FromCfg | project/ecfg.py:80-99 | the grammar's variables, terminals and start symbol are kept; the keys are exactly the heads; each head's expression lists the body texts of its productions, one per production, along some listing of those productions without repeats |
| Ecfg.AlternativesForMembers | project/ecfg.py:83-92 | the alternatives of a head hold a text iff some production of that head has it, and there are as many as productions of the head |
| Ecfg.BodiesOfWithHead | project/ecfg.py:83-88 | the bodies collected for a head are the body texts of the productions with that head, in their order |
| Ecfg.WithHeadElems | project/ecfg.py:83-84 | the productions with a head, taken from a listing without repeats, repeat none and are exactly those of the head |
| Ecfg.HeadsOfListing | project/ecfg.py:83-84 | iterating over the production set visits the same heads |
| Ecfg.ListingBodies | project/ecfg.py:83-92 | an iteration of the production set lists for each head the body text of each of its productions, in the iteration's order |
| Ecfg.BodyTextSplit | project/ecfg.py:85-86 | a non-empty body whose symbols contain no `.` splits back into its symbols |
| Ecfg.AlternativesSplit | project/ecfg.py:89-92 | the alternatives joined by the bar separator split back into the parenthesised bodies |
| Ecfg.FromCfgEpsilon | tests/test_ecfg.py:8-21 | `S -> epsilon` becomes the single production `S: ($)` |
| Ecfg.FromCfgTwoBodies | tests/test_ecfg.py:8-21 | the grammar `S -> epsilon`, `S -> a S b S` gives the single key S, whose expression lists `($)` and `(a.S.b.S)` as alternatives in one of the two orders |
| Ecfg.TwoBodiesOrder | tests/test_ecfg.py:8-21 | the two bodies are listed once each, in either order |
| Ecfg.LongBody | project/ecfg.py:86 | `a S b S` is written `a.S.b.S` |
| Ecfg.AlternativesPair | project/ecfg.py:90 | two bodies become `(x)`, the bar separator and `(y)` |
| Dicts.Keys | project/ecfg.py:57 | `items()` lists the keys in order |
| Dicts.Get | project/ecfg.py:84 | a lookup finds nothing iff the key is absent, otherwise a stored value |
| Dicts.GetEntry | project/ecfg.py:84 | without repeated keys each stored entry is what a lookup finds |
| Dicts.Put | project/ecfg.py:76 | `d[k] = v` on an insertion-ordered dictionary; its meaning is stated by `PutGet`, `PutOther`, `PutKeys` and `PutValid` |
| Dicts.PutGet | project/ecfg.py:76 | after `d[k] = v`, `d[k]` is v |
| Dicts.PutOther | project/ecfg.py:76 | after `d[k] = v`, every other key is unchanged |
| Dicts.PutKeys | project/ecfg.py:76 | assignment keeps the key order and appends a new key at the end |
| Dicts.PutKeySet | project/ecfg.py:76 | assignment adds its key to the key set |
| Dicts.PutAbsent | project/ecfg.py:84 | assigning to a new key appends an entry |
| Dicts.PutValid | project/ecfg.py:76 | assignment stores no key twice |
| Dicts.MapValues | project/ecfg.py:89-92 | the dictionary comprehension over `items()`: one entry per entry; its meaning is stated by `MapValuesGet` |
| Dicts.MapValuesGet | project/ecfg.py:89-92 | the comprehension keeps the keys and their order and maps each value |
| Strings.IsSpace | project/ecfg.py:65 | the characters `strip()` removes, Python's whitespace; what stripping them means is stated by `LStrip`, `RStrip` and `StripEmpty` |
| Strings.Strip | project/ecfg.py:65 | `strip()` is no longer than its argument and has whitespace at neither end |
| Strings.LStrip | project/ecfg.py:65 | drops the leading whitespace and nothing else |
| Strings.RStrip | project/ecfg.py:65 | drops the trailing whitespace and nothing else |
| Strings.StripSlice | project/ecfg.py:65 | `strip()` is a slice with only whitespace around it and none at its ends |
| Strings.StripEmpty | project/ecfg.py:66 | a line strips to nothing iff it is whitespace only |
| Strings.StripNoop | project/ecfg.py:72 | a string without whitespace at its ends is its own strip |
| Strings.StripIdempotent | project/ecfg.py:65-72 | stripping twice is stripping once |
| Strings.StripTrailing | project/ecfg.py:72 | whitespace after a stripped text is stripped away |
| Strings.StripLeading | project/ecfg.py:65 | whitespace before a stripped text is stripped away |
| Strings.Join | project/ecfg.py:57 | `sep.join(parts)`; its meaning is stated by `JoinSplit` and `SplitJoin` (join and split are inverse) and `SplitLinesJoin` |
| Strings.JoinSplit | project/ecfg.py:69 | joining the pieces with the separator gives back the line |
| Strings.Split | project/ecfg.py:69 | `split(sep)` gives at least one piece; the pieces join back to the line (`JoinSplit`) |
| Strings.SplitNone | project/ecfg.py:69 | a line without the separator is one piece |
| Strings.SplitFirst | project/ecfg.py:69 | the first piece ends at the first separator |
| Strings.SplitJoin | project/ecfg.py:90 | pieces free of the separator split back out of their join |
| Strings.LineEnd | project/ecfg.py:64 | the first line ends at the first line break |
| Strings.IsLineBreak | project/ecfg.py:64 | the characters `splitlines()` breaks at; what breaking at them means is stated by `SplitLines`, `LineEnd` and `SplitLinesJoin` |
| Strings.SplitLines | project/ecfg.py:64 | `splitlines()` gives lines without line breaks |
| Strings.SplitLinesJoin | project/ecfg.py:57-64 | lines joined by `\n` split back into the same lines |
| LangUtils.KindOf | project/lang/utils.py:52-53 | `get_type()` tells the four kinds of value apart |
| LangUtils.And | project/lang/utils.py:61-72 | `&` succeeds iff both operands are automata or both sets; on sets it is intersection; otherwise it raises the type error naming both kinds |
| LangUtils.Or | project/lang/utils.py:74-85 | the or operator succeeds iff both operands are automata or both sets; on sets it is union; otherwise it raises the type error |
| LangUtils.Add | project/lang/utils.py:87-100 | `+` succeeds iff both operands are automata, strings or numbers; strings concatenate and numbers add; otherwise it raises the type error |
| LangUtils.SetOpsCommute | project/lang/utils.py:66-80 | a consequence of `&` and the or operator being intersection and union of the wrapped sets: on sets of the language they commute |
| LangUtils.SetOpsAbsorb | project/lang/utils.py:66-80 | a consequence of the same: on sets of the language `&` and the or operator absorb each other |
| LangUtils.AddStrAssoc | project/lang/utils.py:92-93 | a consequence of `+` being concatenation of the wrapped strings: on strings of the language it is associative |
| LangUtils.AddIntLaws | project/lang/utils.py:94-95 | a consequence of `+` being the sum of the wrapped numbers: on numbers of the language it is commutative and associative |
| LangUtils.MixedKindsFail | project/lang/utils.py:68-99 | operands of different kinds make all three operators raise |
| LangUtils.Eq | project/lang/utils.py:102-105 | a non-Entity is never equal; entities of different kinds are never equal; other entities are equal iff their values are |
| LangUtils.EqRefl | project/lang/utils.py:102-108 | every non-automaton entity equals itself and is not `!=` to itself |
| LangUtils.Ne | project/lang/utils.py:102-108 | `!=` holds against a non-Entity and against an entity of another kind; between other values it holds iff they differ; with `EqRefl` no non-automaton entity is `!=` to itself |
| LangUtils.EqSymm | project/lang/utils.py:102-105 | equality is symmetric |
| LangUtils.Compare | project/lang/utils.py:110-128 | an ordering fails iff the two values are not both numbers, both strings or both sets |
| LangUtils.CompareEntity | project/lang/utils.py:110-128 | an ordering succeeds iff the other operand is an entity and both values are numbers, both strings or both sets; against a non-Entity it raises the comparison error naming the other type, otherwise Python's unordered-types error |
| LangUtils.CompareEntityFlip | project/lang/utils.py:110-128 | between entities, `x < y` is `y > x` and `x <= y` is `y >= x`, and a pair without an ordering stays without one |
| LangUtils.CompareFlip | project/lang/utils.py:110-124 | `x < y` is `y > x` and `x <= y` is `y >= x` |
| LangUtils.LeIsLtOrEq | project/lang/utils.py:110-118 | `<=` is `<` or equality |
| LangUtils.StrLess | project/lang/utils.py:112 | Python's `<` on strings, lexicographic by code point; a strict total order by `StrLessIrrefl`, `StrLessTrans` and `StrLessTotal` |
| LangUtils.StrLessIrrefl | project/lang/utils.py:112 | no string is below itself |
| LangUtils.StrLessTrans | project/lang/utils.py:112 | string order is transitive |
| LangUtils.StrLessTotal | project/lang/utils.py:112 | any two strings are ordered or equal |
| LangUtils.Trichotomy | project/lang/utils.py:110-124 | on numbers and on strings exactly one of `<`, `==` and `>` holds |
| LangUtils.SetScenario | tests/test_interpreter.py:8-13 | `{3, 2} & {1, 2}` is `{2}` and their union is `{1, 2, 3}` |
| LangUtils.AddScenario | tests/test_interpreter.py:16-25 | `2 ++ 2` is `4` and `"2" ++ "2"` is `"22"` |
| LangUtils.AsEntity | project/lang/utils.py:145-148 | what `__setitem__` stores: an entity as given, anything else wrapped; its meaning is stated by `AsEntityOnce` and `SetThenGet` |
| LangUtils.AsEntityOnce | project/lang/utils.py:145-148 | assigning an entity or the plain value it wraps stores the same value: nothing is wrapped twice |
| LangUtils.Identifiers.constructor | project/lang/utils.py:143 | a new table is empty |
| LangUtils.Identifiers.SetItem | project/lang/utils.py:144-148 | `__setitem__` stores the entity of the value under the key and changes nothing else |
| LangUtils.Identifiers.GetItem | project/lang/utils.py:150-155 | `__getitem__` returns the stored entity, or raises `KeyError` with `<key> : identifier not found` |
| LangUtils.SetThenGet | project/lang/utils.py:144-155 | reading a name just assigned gives its entity; other names are unaffected |
| LangUtils.NatToString | project/lang/utils.py:41 | a number is written with decimal digits only |
| LangUtils.NatToStringValue | project/lang/utils.py:41 | the digits read back as the number |
| LangUtils.CtxLocation | project/lang/utils.py:40-41 | `ctx_location` is the line, `:`, and the column plus one |
| LangUtils.Render | project/lang/utils.py:136-140 | the message always ends with the error's text, and it is that text alone iff there is no context; `RenderLocation` reads the location back |
| LangUtils.RenderLocation | project/lang/utils.py:136-140 | the line, the column plus one and the error can be read back from a rendered message |

## Left out

- `regex2dfa` (`project/dfa_utils.py:12-14`) is a pyformlang call. `DfaUtils.Query`
  takes the pattern as the automaton `regex2dfa` returns: epsilon-free, with
  distinct states.
- The matrix form of the ECFG starts from given boxes, because `ECFG.to_rfa`
  (`project/ecfg.py:101-108`) calls the pyformlang minimiser. Regular expression bodies are
  their text: `Regex(...)` construction and its parse errors are not modelled.
- `cfg_to_whnf` (`project/cfg.py`) is foreign. Hellings' algorithm takes the grammar
  already in weak Chomsky normal form, with bodies of length 0, 1 or 2. The test's
  grammar is written out by hand in that form.
- Graph I/O and generators (`load_graph`, `save_graph`, `graph_info`,
  `get_graph_info_by_name`, `create_two_cycles_graph`) call cfpq_data and networkx. The
  test's two-cycle graph is built by hand (`HellingsScenario.TwoCycles`).
- `Entity` operators on automata stay abstract. Intersection, union and concatenation are
  symbolic terms over an abstract automaton. `==` between two automata is the
  `sameAut` parameter of `LangUtils.Eq`, because pyformlang's equality is not part of
  this model.
- `log` and `whoami` inspect the interpreter's stack and write logs. They are not
  modelled. The text of the type error is its operator and operand kinds.
- `Entity.__str__` and `get_val` are left out. They show the wrapped value, which the
  model holds directly.
- Values of kinds other than numbers, strings, sets of numbers and strings, and automata
  are not modelled. That excludes booleans, tuples and lambdas.
- `Identifiers` models `__setitem__` and `__getitem__`. The other `UserDict` methods are
  inherited unchanged and are not part of this model.
- The order in which Python iterates over a set is not modelled. Every contract holds
  for any order. `Ecfg.FromCfg` and `Ecfg.FromCfgTwoBodies` therefore promise the bodies
  of a head in some order, one per production.
- scipy's sparse storage formats and dtypes are not modelled. Only the boolean-semiring
  meaning of the matrices is kept.
- The ANTLR interpreter and the dot exporter (`project/lang/interpreter.py`,
  `project/lang/dot.py`) are not part of this model. The same holds for `query_bfs` and
  `check_program`, which the tests import but the source does not define. The
  interpreter's one-argument call `graph2nfa(graph)` takes the `None` defaults, which
  `DfaUtils.Graph2NfaOptional` models as the `TypeError` they raise.
- `from_text` defaults its start symbol to `Variable("S")`. This default is the constant
  `Ecfg.DefaultStart`, and `Ecfg.Parse` takes the start symbol as a parameter.
- `Ecfg.FromTextRepr` is stated for grammars whose heads and bodies `__repr__` writes
  unambiguously:
  - no whitespace at their ends;
  - no `->` inside;
  - no line break;
  - a non-empty body.
  For other texts, re-reading changes them (stripping, splitting), and no round trip is
  promised.
- `DfaUtils.Graph2Nfa` and `Hellings.HellingsCfpq` take every edge as labelled (`Graphs.Graph`
  gives each edge a label). The `KeyError` that `d["label"]` raises at
  `project/dfa_utils.py:23` on an edge without a `label` attribute is not modelled, and
  neither is the way `hellings_cfpq` passes over such an edge, whose label reads as
  `None` (`project/graph.py:62`) and matches no terminal.
- `Hellings.HellingsCfpq` compares the edge label with the production's terminal by
  value. The comparison `Variable(symb) == prod.body[0]` at `project/graph.py:63` is
  taken to compare the symbols' texts.

## Findings

| source | as written | input that shows it | evidently intended | confidence | as-written member | corrected member |
|---|---|---|---|---|---|---|
| project/dfa_utils.py:51 | `kron(nfa1_matrices[s], nfa1_matrices[s])` takes the Kronecker product of the first automaton's matrix with itself | first automaton: one state with an `a` loop; second automaton: states 0, 1 and a move 0 -> 1 on `a`. The joint move from pair (0, 0) to pair (0, 1), product states 0 -> 1, is missing; the as-written product holds only 0 -> 0 | `kron(nfa1_matrices[s], nfa2_matrices[s])`, matching the `* len(nfa2_state_to_inx)` encoding of lines 58-70 | not executed | DfaUtils.AsWrittenMissesJointMove | DfaUtils.ProductMoves |

The corrected product is what `DfaUtils.NfaIntersect` and `DfaUtils.Query` use.
`DfaUtils.IntersectMovesAsWritten` is the as-written construction.
`DfaUtils.AsWrittenMember` states that it only ever reads the first operand's matrices.
