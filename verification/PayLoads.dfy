/** The payload tables of the protocols in frontend/OtBinMain.cpp: one row per other party or
    neighbour, one block per element of the set. */
module PayLoads {
  import opened Blocks

  type Rows = seq<seq<Block>>

  /** Entry of a payload table; the code's tables are always long enough. */
  function At(p: Rows, row: nat, i: nat): Block {
    if row < |p| && i < |p[row]| then p[row][i] else ZeroBlock
  }

  /** The XOR of the first `rows` rows at index i. */
  function ColumnSum(p: Rows, rows: nat, i: nat): Block {
    XorSum(rows, k => At(p, k, i))
  }

  /** The XOR of the rows other than `me` and `skip` at index i. */
  function OthersSum(p: Rows, rows: nat, me: nat, skip: nat, i: nat): Block {
    XorSum(rows, k => if k == me || k == skip then ZeroBlock else At(p, k, i))
  }

  /** The decoded vector holds the payload at index i, as far as maskSize bytes go. */
  predicate Delivers(decoded: seq<Block>, i: nat, payload: Block, maskSize: nat)
    requires maskSize <= BLOCK_SIZE
  {
    i < |decoded| && Prefix(decoded[i], maskSize) == Prefix(payload, maskSize)
  }

  predicate Shape(p: Rows, rows: nat, setSize: nat) {
    |p| == rows && forall k :: 0 <= k < rows ==> |p[k]| == setSize
  }

  lemma ColumnSumStep(p: Rows, k: nat, i: nat)
    ensures ColumnSum(p, k + 1, i) == Xor(ColumnSum(p, k, i), At(p, k, i))
  {
    SumExt(k, r => At(p, r, i), r => At(p, r, i));
  }

  lemma OthersSumStep(p: Rows, k: nat, me: nat, skip: nat, i: nat)
    ensures OthersSum(p, k + 1, me, skip, i) ==
            if k == me || k == skip then OthersSum(p, k, me, skip, i)
            else Xor(OthersSum(p, k, me, skip, i), At(p, k, i))
  {
    var f := (r: nat) => if r == me || r == skip then ZeroBlock else At(p, r, i);
    SumExt(k, f, r => if r == me || r == skip then ZeroBlock else At(p, r, i));
    SumExt(k + 1, f, r => if r == me || r == skip then ZeroBlock else At(p, r, i));
    XorZero(XorSum(k, f));
  }
}
