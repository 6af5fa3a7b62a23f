/** Square boolean matrices over the boolean semiring (`or` as addition, `and` as
    multiplication), stored sparsely as the set of their nonzero coordinates, as a
    `dok_matrix` of booleans keeps them. */
module BoolMatrices {

  datatype BoolMatrix = BoolMatrix(size: nat, bits: set<(nat, nat)>) {

    /** Every nonzero coordinate lies inside the `size` x `size` square. */
    ghost predicate Valid() {
      forall p :: p in bits ==> p.0 < size && p.1 < size
    }

    /** `count_nonzero()`. */
    function Count(): nat {
      |bits|
    }
  }

  /** All coordinates of an `n` x `n` matrix. */
  ghost function Grid(n: nat): set<(nat, nat)> {
    set i: nat, j: nat | i < n && j < n :: (i, j)
  }

  lemma ValidInGrid(m: BoolMatrix)
    requires m.Valid()
    ensures m.bits <= Grid(m.size)
  {
    forall p | p in m.bits ensures p in Grid(m.size) {
      var (i, j) := p;
      assert (i, j) in Grid(m.size);
    }
  }

  /** `dok_matrix((n, n), dtype=np.bool_)`: the all-false matrix. */
  function Zero(n: nat): (m: BoolMatrix)
    ensures m.Valid() && m.size == n && m.Count() == 0
  {
    BoolMatrix(n, {})
  }

  /** `m[i, j] = True`. */
  function SetBit(m: BoolMatrix, i: nat, j: nat): (r: BoolMatrix)
    requires m.Valid() && i < m.size && j < m.size
    ensures r.Valid() && r.size == m.size
    ensures forall p :: p in r.bits <==> p in m.bits || p == (i, j)
  {
    BoolMatrix(m.size, m.bits + {(i, j)})
  }

  /** Elementwise or, `a | b` (written `a + b` on boolean matrices). */
  function Or(a: BoolMatrix, b: BoolMatrix): (r: BoolMatrix)
    requires a.Valid() && b.Valid() && a.size == b.size
    ensures r.Valid() && r.size == a.size
    ensures forall p :: p in r.bits <==> p in a.bits || p in b.bits
  {
    BoolMatrix(a.size, a.bits + b.bits)
  }

  /** Boolean matrix product `a @ b`: bit (i, j) is set iff some k has a[i, k] and b[k, j]. */
  function Mul(a: BoolMatrix, b: BoolMatrix): (r: BoolMatrix)
    requires a.Valid() && b.Valid() && a.size == b.size
    ensures r.Valid() && r.size == a.size
    ensures forall i: nat, j: nat :: (i, j) in r.bits <==>
      exists k: nat :: (i, k) in a.bits && (k, j) in b.bits
  {
    var n := a.size;
    var r := BoolMatrix(n, set i: nat, j: nat | i < n && j < n && exists k: nat | k < n :: (i, k) in a.bits && (k, j) in b.bits :: (i, j));
    assert forall i: nat, j: nat :: (i, j) in r.bits <==>
      exists k: nat :: (i, k) in a.bits && (k, j) in b.bits by {
      forall i: nat, j: nat | exists k: nat :: (i, k) in a.bits && (k, j) in b.bits
        ensures (i, j) in r.bits
      {
        var k: nat :| (i, k) in a.bits && (k, j) in b.bits;
        assert i < n && k < n && j < n;
      }
    }
    r
  }

  /** The flattened index of the pair (i1, i2) in a Kronecker product whose right
      operand has dimension n2: i1 blocks of n2 rows, then i2 more. Written by recursion
      on i1 so that the solver does not see a product of two variables; `EncodeValue`
      gives its closed form. */
  function Encode(i1: nat, i2: nat, n2: nat): nat {
    if i1 == 0 then i2 else Encode(i1 - 1, i2, n2) + n2
  }

  /** `Encode(i1, i2, n2) == i1 * n2 + i2`, the `state_to_inx[s1] * len(...) +
      state_to_inx[s2]` of `nfa_intersect`. */
  lemma {:induction false} EncodeValue(i1: nat, i2: nat, n2: nat)
    ensures Encode(i1, i2, n2) == i1 * n2 + i2
  {
    if i1 > 0 {
      EncodeValue(i1 - 1, i2, n2);
      assert i1 * n2 == (i1 - 1) * n2 + n2;
    }
  }

  /** Multiplication by a natural number is monotone. */
  lemma {:induction false} MulMono(a: nat, b: nat, c: nat)
    requires a <= b
    ensures a * c <= b * c
  {
    if c > 0 {
      MulMono(a, b, c - 1);
      assert a * c == a * (c - 1) + a;
      assert b * c == b * (c - 1) + b;
    }
  }

  /** Quotient and remainder by `n` are unique. */
  lemma QuotientUnique(q: nat, r: nat, q': nat, r': nat, n: nat)
    requires r < n && r' < n && q * n + r == q' * n + r'
    ensures q == q'
  {
    if q < q' {
      assert (q + 1) * n == q * n + n;
      MulMono(q + 1, q', n);
      assert false;
    }
    if q' < q {
      assert (q' + 1) * n == q' * n + n;
      MulMono(q' + 1, q, n);
      assert false;
    }
  }

  /** Encoding is invertible by Euclidean division on the right operand's dimension. */
  lemma EncodeDecode(i1: nat, i2: nat, n2: nat)
    requires i2 < n2
    ensures Encode(i1, i2, n2) / n2 == i1 && Encode(i1, i2, n2) % n2 == i2
  {
    EncodeValue(i1, i2, n2);
    var x := i1 * n2 + i2;
    var q, r := x / n2, x % n2;
    assert x == q * n2 + r && r < n2;
    QuotientUnique(q, r, i1, i2, n2);
    assert q * n2 == i1 * n2;
  }

  /** An encoded index stays inside the product's dimension. */
  lemma EncodeBound(i1: nat, i2: nat, n1: nat, n2: nat)
    requires i1 < n1 && i2 < n2
    ensures Encode(i1, i2, n2) < n1 * n2
  {
    EncodeValue(i1, i2, n2);
    MulMono(i1 + 1, n1, n2);
    assert (i1 + 1) * n2 == i1 * n2 + n2;
  }

  /** Two pairs with one encoding are the same pair. */
  lemma EncodeInjective(i1: nat, i2: nat, j1: nat, j2: nat, n2: nat)
    requires i2 < n2 && j2 < n2
    requires Encode(i1, i2, n2) == Encode(j1, j2, n2)
    ensures i1 == j1 && i2 == j2
  {
    EncodeDecode(i1, i2, n2);
    EncodeDecode(j1, j2, n2);
  }

  /** The nonzero coordinates of `kron(a, b)`, one for each pair of nonzero
      coordinates of the operands. */
  function KronBits(a: set<(nat, nat)>, b: set<(nat, nat)>, n2: nat): set<(nat, nat)> {
    set p, q | p in a && q in b :: (Encode(p.0, q.0, n2), Encode(p.1, q.1, n2))
  }

  lemma KronBitsDecode(a: BoolMatrix, b: BoolMatrix, x: (nat, nat))
    requires a.Valid() && b.Valid()
    requires x in KronBits(a.bits, b.bits, b.size)
    ensures x.0 < a.size * b.size && x.1 < a.size * b.size
    ensures (x.0 / b.size, x.1 / b.size) in a.bits && (x.0 % b.size, x.1 % b.size) in b.bits
  {
    var n2 := b.size;
    var p, q :| p in a.bits && q in b.bits && x == (Encode(p.0, q.0, n2), Encode(p.1, q.1, n2));
    EncodeBound(p.0, q.0, a.size, n2);
    EncodeBound(p.1, q.1, a.size, n2);
    EncodeDecode(p.0, q.0, n2);
    EncodeDecode(p.1, q.1, n2);
  }

  lemma KronBitsRule(a: BoolMatrix, b: BoolMatrix, i1: nat, i2: nat, j1: nat, j2: nat)
    requires a.Valid() && b.Valid()
    requires i2 < b.size && j2 < b.size
    ensures (Encode(i1, i2, b.size), Encode(j1, j2, b.size)) in KronBits(a.bits, b.bits, b.size) <==>
            (i1, j1) in a.bits && (i2, j2) in b.bits
  {
    var n2 := b.size;
    var x := (Encode(i1, i2, n2), Encode(j1, j2, n2));
    if x in KronBits(a.bits, b.bits, n2) {
      var p, q :| p in a.bits && q in b.bits && x == (Encode(p.0, q.0, n2), Encode(p.1, q.1, n2));
      EncodeInjective(i1, i2, p.0, q.0, n2);
      EncodeInjective(j1, j2, p.1, q.1, n2);
    }
    if (i1, j1) in a.bits && (i2, j2) in b.bits {
      var p, q := (i1, j1), (i2, j2);
      assert x == (Encode(p.0, q.0, n2), Encode(p.1, q.1, n2));
    }
  }

  /** `kron(a, b)`: the `|a| * |b|`-square matrix whose bits are `KronBits`; its meaning
      is stated by `KronValid`, `KronBitsRule` and `KronBitsDecode`. */
  function Kron(a: BoolMatrix, b: BoolMatrix): BoolMatrix {
    BoolMatrix(a.size * b.size, KronBits(a.bits, b.bits, b.size))
  }

  /** The Kronecker product of two matrices is a matrix of the product dimension. */
  lemma KronValid(a: BoolMatrix, b: BoolMatrix)
    requires a.Valid() && b.Valid()
    ensures Kron(a, b).Valid() && Kron(a, b).size == a.size * b.size
  {
    forall x | x in Kron(a, b).bits ensures x.0 < a.size * b.size && x.1 < a.size * b.size {
      KronBitsDecode(a, b, x);
    }
  }
}
