/** 128-bit blocks as sixteen bytes, their XOR, and XOR sums over index ranges. */
module Blocks {

  type Byte = bv8

  /** The byte as a number. */
  function Number(b: Byte): nat {
    b as nat
  }

  lemma SameNumber(a: Byte, b: Byte)
    requires Number(a) == Number(b)
    ensures a == b
  {}

  lemma ByteOfNat(n: nat)
    requires n < 128
    ensures Number(n as Byte) == n
  {}

  const BLOCK_SIZE: nat := 16

  type Block = b: seq<Byte> | |b| == BLOCK_SIZE witness [0, 0, 0, 0, 0, 0, 0, 0, 0, 0, 0, 0, 0, 0, 0, 0]

  const ZeroBlock: Block := [0, 0, 0, 0, 0, 0, 0, 0, 0, 0, 0, 0, 0, 0, 0, 0]

  function Xor(a: Block, b: Block): Block {
    seq(BLOCK_SIZE, i requires 0 <= i < BLOCK_SIZE => a[i] ^ b[i])
  }

  lemma XorComm(a: Block, b: Block)
    ensures Xor(a, b) == Xor(b, a)
  {}

  lemma XorAssoc(a: Block, b: Block, c: Block)
    ensures Xor(Xor(a, b), c) == Xor(a, Xor(b, c))
  {}

  lemma XorZero(a: Block)
    ensures Xor(a, ZeroBlock) == a && Xor(ZeroBlock, a) == a && Xor(a, a) == ZeroBlock
  {}

  lemma XorCancel(a: Block, b: Block)
    ensures Xor(a, Xor(a, b)) == b && Xor(Xor(b, a), a) == b
  {}

  lemma XorInterchange(a: Block, b: Block, c: Block, d: Block)
    ensures Xor(Xor(a, b), Xor(c, d)) == Xor(Xor(a, c), Xor(b, d))
  {}

  /** The first k bytes, the part of a block that memcpy and memcmp with length k look at. */
  function Prefix(b: Block, k: nat): seq<Byte>
    requires k <= BLOCK_SIZE
  {
    b[..k]
  }

  lemma PrefixXor(a: Block, b: Block, c: Block, d: Block, k: nat)
    requires k <= BLOCK_SIZE && Prefix(a, k) == Prefix(c, k) && Prefix(b, k) == Prefix(d, k)
    ensures Prefix(Xor(a, b), k) == Prefix(Xor(c, d), k)
  {
    forall i | 0 <= i < k ensures Xor(a, b)[i] == Xor(c, d)[i] {
      assert a[i] == Prefix(a, k)[i] && b[i] == Prefix(b, k)[i];
      assert c[i] == Prefix(c, k)[i] && d[i] == Prefix(d, k)[i];
    }
  }

  /** Two blocks agree on the first k bytes exactly when their XOR is zero there. */
  lemma AgreeIff(a: Block, b: Block, k: nat)
    requires k <= BLOCK_SIZE
    ensures Prefix(a, k) == Prefix(b, k) <==> Prefix(Xor(a, b), k) == Prefix(ZeroBlock, k)
  {
    hide Xor, Prefix;
    XorZero(b);
    XorCancel(b, a);
    if Prefix(a, k) == Prefix(b, k) {
      PrefixXor(a, b, b, b, k);
    } else if Prefix(Xor(a, b), k) == Prefix(ZeroBlock, k) {
      PrefixXor(Xor(a, b), b, ZeroBlock, b, k);
    }
  }

  /** A sum in which only one term is not zero on the first k bytes is that term there. */
  lemma OneTerm(n: nat, i: nat, f: nat -> Block, k: nat)
    requires i < n && k <= BLOCK_SIZE
    requires forall j: nat :: j < n && j != i ==> Prefix(f(j), k) == Prefix(ZeroBlock, k)
    ensures Prefix(XorSum(n, f), k) == Prefix(f(i), k)
  {
    hide Xor, Prefix;
    var rest := (j: nat) => if j == i then ZeroBlock else f(j);
    var zero := (j: nat) => ZeroBlock;
    SumRemove(n, i, f, rest);
    SumPrefix(n, k, rest, zero);
    SumZero(n, zero);
    PrefixXor(f(i), XorSum(n, rest), f(i), ZeroBlock, k);
    XorZero(f(i));
  }

  /** A block whose first bytes are p and whose other bytes stay zero. */
  function Padded(p: seq<Byte>): Block {
    if |p| <= BLOCK_SIZE then p + seq(BLOCK_SIZE - |p|, _ => 0) else ZeroBlock
  }

  // ----- XOR sums -----

  /** f(0) ^ f(1) ^ ... ^ f(n-1) */
  function XorSum(n: nat, f: nat -> Block): Block {
    if n == 0 then ZeroBlock else Xor(XorSum(n - 1, f), f(n - 1))
  }

  lemma {:induction false} SumExt(n: nat, f: nat -> Block, g: nat -> Block)
    requires forall i: nat :: i < n ==> f(i) == g(i)
    ensures XorSum(n, f) == XorSum(n, g)
  {
    if n > 0 { SumExt(n - 1, f, g); }
  }

  lemma {:induction false} SumZero(n: nat, f: nat -> Block)
    requires forall i: nat :: i < n ==> f(i) == ZeroBlock
    ensures XorSum(n, f) == ZeroBlock
  {
    if n > 0 {
      SumZero(n - 1, f);
      XorZero(ZeroBlock);
    }
  }

  lemma {:induction false} SumXor(n: nat, f: nat -> Block, g: nat -> Block, h: nat -> Block)
    requires forall i: nat :: i < n ==> h(i) == Xor(f(i), g(i))
    ensures XorSum(n, h) == Xor(XorSum(n, f), XorSum(n, g))
  {
    if n == 0 {
      XorZero(ZeroBlock);
    } else {
      SumXor(n - 1, f, g, h);
      XorInterchange(XorSum(n - 1, f), XorSum(n - 1, g), f(n - 1), g(n - 1));
    }
  }

  lemma {:induction false} SumSplit(m: nat, n: nat, f: nat -> Block, g: nat -> Block)
    requires forall i: nat :: i < n ==> g(i) == f(m + i)
    ensures XorSum(m + n, f) == Xor(XorSum(m, f), XorSum(n, g))
  {
    if n == 0 {
      XorZero(XorSum(m, f));
    } else {
      SumSplit(m, n - 1, f, g);
      XorAssoc(XorSum(m, f), XorSum(n - 1, g), g(n - 1));
    }
  }

  lemma ModRing(a: nat, n: nat)
    requires 0 < n && a < 2 * n
    ensures a % n == if a < n then a else a - n
  {}

  /** Going round a ring of n places from any starting place meets every place once. */
  lemma SumRotate(n: nat, k: nat, f: nat -> Block, g: nat -> Block)
    requires 0 < n && k <= n
    requires forall i: nat :: i < n ==> g(i) == f((i + k) % n)
    ensures XorSum(n, g) == XorSum(n, f)
  {
    SumRotateParts(n - k, k, f, g, i => f(k + i), i => g(n - k + i)) by {
      forall i: nat | i < n ensures g(i) == f(if i < n - k then k + i else i - (n - k)) {
        ModRing(i + k, n);
      }
    }
  }

  lemma SumRotateParts(m: nat, k: nat, f: nat -> Block, g: nat -> Block, high: nat -> Block, low: nat -> Block)
    requires forall i: nat :: i < m + k ==> g(i) == f(if i < m then k + i else i - m)
    requires forall i: nat :: i < m ==> high(i) == f(k + i)
    requires forall i: nat :: i < k ==> low(i) == g(m + i)
    ensures XorSum(m + k, g) == XorSum(m + k, f)
  {
    hide *;
    assert XorSum(m + k, g) == Xor(XorSum(m, high), XorSum(k, f)) by {
      SumSplit(m, k, g, low);
      SumExt(m, g, high);
      SumExt(k, low, f);
    }
    assert XorSum(k + m, f) == Xor(XorSum(k, f), XorSum(m, high)) by {
      SumSplit(k, m, f, high);
    }
    XorComm(XorSum(k, f), XorSum(m, high));
  }

  lemma {:induction false} SumReverse(n: nat, f: nat -> Block, g: nat -> Block)
    requires forall i: nat :: i < n ==> g(i) == f(n - 1 - i)
    ensures XorSum(n, g) == XorSum(n, f)
  {
    hide Xor;
    if n > 0 {
      var g' := (i: nat) => g(i + 1);
      SumSplit(1, n - 1, g, g');
      SumReverse(n - 1, f, g');
      assert XorSum(1, g) == Xor(ZeroBlock, g(0)) by {
        assert XorSum(0, g) == ZeroBlock;
      }
      XorZero(g(0));
      XorComm(g(0), XorSum(n - 1, f));
    }
  }

  /** A double sum by rows equals the double sum by columns. */
  lemma {:induction false} SumSwap(m: nat, n: nat, f: nat -> (nat -> Block), g: nat -> (nat -> Block),
                                   rows: nat -> Block, columns: nat -> Block)
    requires forall i: nat, j: nat :: i < m && j < n ==> f(i)(j) == g(j)(i)
    requires forall i: nat :: i < m ==> rows(i) == XorSum(n, f(i))
    requires forall j: nat :: j < n ==> columns(j) == XorSum(m, g(j))
    ensures XorSum(m, rows) == XorSum(n, columns)
  {
    if m == 0 {
      SumZero(n, columns);
    } else {
      var shorter := (j: nat) => XorSum(m - 1, g(j));
      SumSwap(m - 1, n, f, g, rows, shorter);
      SumXor(n, shorter, f(m - 1), columns);
    }
  }

  /** One summand taken out of a sum. */
  lemma {:induction false} SumRemove(n: nat, k: nat, f: nat -> Block, g: nat -> Block)
    requires k < n && g(k) == ZeroBlock
    requires forall i: nat :: i < n && i != k ==> g(i) == f(i)
    ensures XorSum(n, f) == Xor(f(k), XorSum(n, g))
  {
    if k == n - 1 {
      SumExt(n - 1, f, g);
      XorZero(XorSum(n - 1, g));
      XorComm(f(k), XorSum(n - 1, g));
    } else {
      SumRemove(n - 1, k, f, g);
      XorAssoc(f(k), XorSum(n - 1, g), f(n - 1));
    }
  }

  lemma {:induction false} SumPrefix(n: nat, k: nat, f: nat -> Block, g: nat -> Block)
    requires k <= BLOCK_SIZE && forall i: nat :: i < n ==> Prefix(f(i), k) == Prefix(g(i), k)
    ensures Prefix(XorSum(n, f), k) == Prefix(XorSum(n, g), k)
  {
    if n > 0 {
      SumPrefix(n - 1, k, f, g);
      PrefixXor(XorSum(n - 1, f), f(n - 1), XorSum(n - 1, g), g(n - 1), k);
    }
  }
}
