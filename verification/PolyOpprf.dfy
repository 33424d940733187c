/** The polynomial encoding of one bin: BaseOPPRF::getBlkCoefficients and evalPolynomial in
    libOPRF/Hashing/Hints.cpp, OPPRFSender::sendSSPolyBased and OPPRFReceiver::recvSSPolyBased. */
module PolyOpprf {
  import opened Blocks
  import opened Sequences
  import opened GaloisField
  import opened Polynomials
  import opened TableOpprf

  /** GF2XFromBytes and BytesFromGF2X for the field of size 256^size that poly_init sets up. */
  datatype Coding<!F(!new)> = Coding(size: nat, fromBytes: seq<Byte> -> F, toBytes: F -> seq<Byte>)

  ghost predicate FromLaw<F(!new)>(c: Coding<F>, b: seq<Byte>) {
    |b| == c.size ==> c.toBytes(c.fromBytes(b)) == b
  }

  ghost predicate ToLaw<F(!new)>(c: Coding<F>, e: F) {
    |c.toBytes(e)| == c.size && c.fromBytes(c.toBytes(e)) == e
  }

  /** Field elements and byte strings of the right size correspond one to one, zero to zero. */
  ghost predicate IsCoding<F(!new)>(k: Field<F>, c: Coding<F>) {
    && 0 < c.size <= BLOCK_SIZE
    && (forall b :: FromLaw(c, b)) && (forall e :: ToLaw(c, e))
    && c.fromBytes(Prefix(ZeroBlock, c.size)) == k.zero
  }

  function ByteCoding(): Coding<Byte> {
    Coding(1, b => if |b| == 1 then b[0] else 0, e => [e])
  }

  /** The laws are satisfiable: one-byte masks over the field of 256 elements. */
  lemma BytesAreACoding()
    ensures IsField(Arithmetic()) && IsCoding(Arithmetic(), ByteCoding())
  {
    IsFieldArithmetic();
    hide IsField;
    assert Arithmetic().zero == 0 && Prefix(ZeroBlock, 1) == [0];
    forall b ensures FromLaw(ByteCoding(), b) {}
    forall e ensures ToLaw(ByteCoding(), e) {}
  }

  /** GF2EFromBlock */
  function Element<F(!new)>(c: Coding<F>, b: Block): F
    requires c.size <= BLOCK_SIZE
  {
    c.fromBytes(Prefix(b, c.size))
  }

  /** BlockFromGF2E writes the low bytes of a block and leaves the others as they were. */
  function IntoBlock<F(!new)>(c: Coding<F>, was: Block, e: F): (b: Block)
    requires c.size <= BLOCK_SIZE && |c.toBytes(e)| == c.size
    ensures Prefix(b, c.size) == c.toBytes(e)
  {
    c.toBytes(e) + was[c.size..]
  }

  function Elements<F(!new)>(c: Coding<F>, bs: seq<Block>): (r: Poly<F>)
    requires c.size <= BLOCK_SIZE
    ensures |r| == |bs| && forall i :: 0 <= i < |r| ==> r[i] == Element(c, bs[i])
  {
    seq(|bs|, i requires 0 <= i < |bs| => Element(c, bs[i]))
  }

  /** NTL::interpolate raises on a repeated point, and NTL::random on a negative length. */
  datatype Coefficients = Coefficients(coeffs: seq<Block>) | RepeatedPoint | TooManyPoints

  method GetBlkCoefficients<F(==,!new)>(k: Field<F>, c: Coding<F>, degree: nat, setX: seq<Block>, setY: seq<Block>,
                                        dummy: Poly<F>) returns (r: Coefficients)
    requires IsCoding(k, c) && |setX| == |setY|
    requires |setX| <= degree ==> |dummy| == degree - |setX|
    ensures r.RepeatedPoint? <==> !NoDup(Elements(c, setX))
    ensures r.TooManyPoints? <==> NoDup(Elements(c, setX)) && degree < |setX|
    ensures r.Coefficients? ==> Elements(c, r.coeffs) == Normalize(k, WithDummy(k, Elements(c, setX), Elements(c, setY), dummy))
  {
    var x: seq<F>, y: seq<F> := [], [];
    for i := 0 to |setX|
      invariant x == Elements(c, setX[..i]) && y == Elements(c, setY[..i])
    {
      x := x + [Element(c, setX[i])];
      y := y + [Element(c, setY[i])];
    }
    assert setX[..|setX|] == setX && setY[..|setX|] == setY;
    if !NoDup(x) {
      return RepeatedPoint;
    }
    if degree < |setX| {
      return TooManyPoints;
    }
    var polynomial := Normalize(k, WithDummy(k, x, y, dummy));
    var coeffs := [];
    for i := 0 to |polynomial|
      invariant Elements(c, coeffs) == polynomial[..i]
    {
      assert ToLaw(c, polynomial[i]);
      coeffs := coeffs + [IntoBlock(c, ZeroBlock, polynomial[i])];
    }
    r := Coefficients(coeffs);
  }

  /** The value of the polynomial on the low bytes of y; the other bytes of y keep what they held. */
  method EvalPolynomial<F(==,!new)>(k: Field<F>, c: Coding<F>, coeffs: seq<Block>, x: Block, was: Block) returns (y: Block)
    requires IsField(k) && IsCoding(k, c)
    ensures Prefix(y, c.size) == c.toBytes(Eval(k, Elements(c, coeffs), Element(c, x)))
  {
    var res: Poly<F> := [];
    for i := 0 to |coeffs|
      invariant res == Normalize(k, Elements(c, coeffs[..i]))
    {
      var e := Element(c, coeffs[i]);
      SetCoeffAppends(k, Elements(c, coeffs[..i]), e);
      assert Elements(c, coeffs[..i + 1]) == Elements(c, coeffs[..i]) + [e];
      res := SetCoeff(k, res, i, e);
    }
    assert coeffs[..|coeffs|] == coeffs;
    EvalNormalize(k, Elements(c, coeffs), Element(c, x));
    var value := Eval(k, res, Element(c, x));
    assert ToLaw(c, value);
    y := IntoBlock(c, was, value);
  }

  // ----- one bin at the sender -----

  /** A row is mMaxBinSize coefficients, with no header. */
  function RowParams<F(!new)>(c: Coding<F>, maxBinSize: nat): Params {
    Params(0, maxBinSize, c.size)
  }

  /** The polynomial a row holds. */
  function RowPolynomial<F(!new)>(c: Coding<F>, row: seq<Byte>, maxBinSize: nat): (r: Poly<F>)
    requires |row| == RowParams(c, maxBinSize).RowLength()
    ensures |r| == maxBinSize
  {
    seq(maxBinSize, i requires 0 <= i < maxBinSize => c.fromBytes(SlotOf(row, RowParams(c, maxBinSize), i)))
  }

  /** Coefficient i takes the bytes from i * size on. */
  lemma CoefficientBytes<F(!new)>(c: Coding<F>, row: seq<Byte>, maxBinSize: nat, i: nat)
    requires |row| == maxBinSize * c.size && i < maxBinSize
    ensures i * c.size + c.size <= |row|
    ensures RowPolynomial(c, row, maxBinSize)[i] == c.fromBytes(row[i * c.size..i * c.size + c.size])
  {
    var p := RowParams(c, maxBinSize);
    SlotInside(p, i);
    assert p.Slot(i) == i * c.size;
    assert SlotOf(row, p, i) == row[i * c.size..i * c.size + c.size];
  }

  ghost predicate CopiedSoFar<F(!new)>(c: Coding<F>, row: seq<Byte>, maxBinSize: nat, coeffs: seq<Block>, n: nat) {
    && c.size <= BLOCK_SIZE && |row| == RowParams(c, maxBinSize).RowLength() && n <= maxBinSize && n <= |coeffs|
    && forall i :: 0 <= i < n ==> SlotOf(row, RowParams(c, maxBinSize), i) == Prefix(coeffs[i], c.size)
  }

  datatype Status = Written | NotInterpolated | ReadPastCoefficients

  /** The copy loop always reads mMaxBinSize coefficients. */
  method CopyCoefficients<F(!new)>(c: Coding<F>, row: array<Byte>, maxBinSize: nat, coeffs: seq<Block>) returns (inside: bool)
    requires c.size <= BLOCK_SIZE && row.Length == RowParams(c, maxBinSize).RowLength()
    modifies row
    ensures inside <==> maxBinSize <= |coeffs|
    ensures inside ==> CopiedSoFar(c, row[..], maxBinSize, coeffs, maxBinSize)
  {
    hide SlotOf;
    for i := 0 to maxBinSize
      invariant CopiedSoFar(c, row[..], maxBinSize, coeffs, i)
    {
      if |coeffs| <= i {
        return false;
      }
      WriteSlot(row, RowParams(c, maxBinSize), i, Prefix(coeffs[i], c.size));
    }
    inside := true;
  }

  /** Every slot of a bin without elements is zero. */
  method PadRow<F(!new)>(c: Coding<F>, row: array<Byte>, maxBinSize: nat)
    requires c.size <= BLOCK_SIZE && row.Length == RowParams(c, maxBinSize).RowLength()
    modifies row
    ensures CopiedSoFar(c, row[..], maxBinSize, seq(maxBinSize, _ => ZeroBlock), maxBinSize)
  {
    hide SlotOf;
    for i := 0 to maxBinSize
      invariant CopiedSoFar(c, row[..], maxBinSize, seq(maxBinSize, _ => ZeroBlock), i)
    {
      WriteSlot(row, RowParams(c, maxBinSize), i, Prefix(ZeroBlock, c.size));
    }
  }

  lemma CopiedIsRow<F(!new)>(c: Coding<F>, row: seq<Byte>, maxBinSize: nat, coeffs: seq<Block>)
    requires CopiedSoFar(c, row, maxBinSize, coeffs, maxBinSize) && |coeffs| == maxBinSize
    ensures RowPolynomial(c, row, maxBinSize) == Elements(c, coeffs)
  {
    hide SlotOf;
  }

  /** The sender reads inside the coefficient vector exactly when the padded polynomial has full degree. */
  ghost predicate FullDegree<F(!new)>(k: Field<F>, xs: seq<F>, ys: seq<F>, dummy: Poly<F>)
    requires |xs| == |ys|
  {
    xs == [] || Leading(if dummy == [] then Interpolate(k, xs, ys) else dummy) != k.zero
  }

  lemma FullDegreeIff<F(!new)>(k: Field<F>, xs: seq<F>, ys: seq<F>, dummy: Poly<F>, degree: nat)
    requires IsField(k) && |xs| == |ys| && xs != [] && |xs| + |dummy| == degree
    ensures |WithDummy(k, xs, ys, dummy)| == degree
    ensures FullDegree(k, xs, ys, dummy) <==> Normalize(k, WithDummy(k, xs, ys, dummy)) == WithDummy(k, xs, ys, dummy)
    ensures !FullDegree(k, xs, ys, dummy) ==> |Normalize(k, WithDummy(k, xs, ys, dummy))| < degree
  {
    LeadingWithDummy(k, xs, ys, dummy);
  }

  /** The sender's part for one bin: the y values are the payloads masked by the OPRF values. */
  method SendBin<F(==,!new)>(k: Field<F>, c: Coding<F>, row: array<Byte>, maxBinSize: nat, oprfs: seq<Block>,
                             payloads: seq<Block>, dummy: Poly<F>) returns (status: Status)
    requires IsField(k) && IsCoding(k, c) && row.Length == RowParams(c, maxBinSize).RowLength()
    requires |oprfs| == |payloads| && (|oprfs| <= maxBinSize ==> |dummy| == maxBinSize - |oprfs|)
    modifies row
    ensures status.NotInterpolated? <==> oprfs != [] && (!NoDup(Elements(c, oprfs)) || maxBinSize < |oprfs|)
    ensures status.ReadPastCoefficients? <==>
              && NoDup(Elements(c, oprfs)) && |oprfs| <= maxBinSize
              && !FullDegree(k, Elements(c, oprfs), Elements(c, Masked(oprfs, payloads)), dummy)
    ensures status.Written? && oprfs != [] ==>
              RowPolynomial(c, row[..], maxBinSize)
              == WithDummy(k, Elements(c, oprfs), Elements(c, Masked(oprfs, payloads)), dummy)
    ensures status.Written? && oprfs == [] ==> RowPolynomial(c, row[..], maxBinSize) == seq(maxBinSize, _ => k.zero)
  {
    hide SlotOf, IsField, Normalize;
    if oprfs == [] {
      PadRow(c, row, maxBinSize);
      CopiedIsRow(c, row[..], maxBinSize, seq(maxBinSize, _ => ZeroBlock));
      return Written;
    }
    var setY := [];
    for i := 0 to |oprfs|
      invariant setY == Masked(oprfs, payloads)[..i]
      invariant row[..] == old(row[..])
    {
      setY := setY + [Xor(oprfs[i], payloads[i])];
    }
    assert setY == Masked(oprfs, payloads);
    var r := GetBlkCoefficients(k, c, maxBinSize, oprfs, setY, dummy);
    match r {
      case RepeatedPoint => status := NotInterpolated;
      case TooManyPoints => status := NotInterpolated;
      case Coefficients(coeffs) =>
        FullDegreeIff(k, Elements(c, oprfs), Elements(c, setY), dummy, maxBinSize);
        var inside := CopyCoefficients(c, row, maxBinSize, coeffs);
        if inside {
          CopiedIsRow(c, row[..], maxBinSize, coeffs);
          status := Written;
        } else {
          status := ReadPastCoefficients;
        }
    }
  }

  // ----- one bin at the receiver -----

  /** The receiver's part for a non-empty bin; `was` is the uninitialised result block and `held` what
      the bin's coefficient blocks held before. */
  method RecvBin<F(==,!new)>(k: Field<F>, c: Coding<F>, row: seq<Byte>, maxBinSize: nat, oprf: Block,
                             held: seq<Block>, was: Block) returns (plaintext: Block)
    requires IsField(k) && IsCoding(k, c) && |row| == RowParams(c, maxBinSize).RowLength() && |held| == maxBinSize
    ensures Element(c, Xor(oprf, plaintext)) == Eval(k, RowPolynomial(c, row, maxBinSize), Element(c, oprf))
  {
    hide SlotOf, IsField;
    var p := RowParams(c, maxBinSize);
    var coeffs: seq<Block> := held;
    for i := 0 to maxBinSize
      invariant |coeffs| == maxBinSize
      invariant CopiedSoFar(c, row, maxBinSize, coeffs, i)
    {
      SlotInside(p, i);
      var coeff: Block := SlotOf(row, p, i) + coeffs[i][c.size..];
      coeffs := coeffs[i := coeff];
    }
    CopiedIsRow(c, row, maxBinSize, coeffs);
    var blkY := EvalPolynomial(k, c, coeffs, oprf, was);
    plaintext := Xor(oprf, blkY);
    XorCancel(oprf, blkY);
    assert ToLaw(c, Eval(k, Elements(c, coeffs), Element(c, oprf)));
  }

  /** Main result: whoever holds one of the sender's OPRF values recovers its payload on the mask prefix,
      whatever the other bytes are. */
  lemma RoundTrip<F(!new)>(k: Field<F>, c: Coding<F>, row: seq<Byte>, maxBinSize: nat, oprfs: seq<Block>,
                           payloads: seq<Block>, dummy: Poly<F>, i: nat, oprf: Block, plaintext: Block)
    requires IsField(k) && IsCoding(k, c) && |row| == RowParams(c, maxBinSize).RowLength()
    requires |oprfs| == |payloads| && NoDup(Elements(c, oprfs)) && |oprfs| + |dummy| == maxBinSize && i < |oprfs|
    requires RowPolynomial(c, row, maxBinSize)
          == WithDummy(k, Elements(c, oprfs), Elements(c, Masked(oprfs, payloads)), dummy)
    requires Prefix(oprf, c.size) == Prefix(oprfs[i], c.size)
    requires Element(c, Xor(oprf, plaintext)) == Eval(k, RowPolynomial(c, row, maxBinSize), Element(c, oprf))
    ensures Prefix(plaintext, c.size) == Prefix(payloads[i], c.size)
  {
    hide Xor, IsField, RowPolynomial;
    var ys := Masked(oprfs, payloads);
    WithDummyInterpolates(k, Elements(c, oprfs), Elements(c, ys), dummy, maxBinSize);
    assert Element(c, oprf) == Elements(c, oprfs)[i] && Elements(c, ys)[i] == Element(c, ys[i]);
    assert Element(c, Xor(oprf, plaintext)) == Element(c, Xor(oprfs[i], payloads[i]));
    assert FromLaw(c, Prefix(Xor(oprf, plaintext), c.size)) && FromLaw(c, Prefix(Xor(oprfs[i], payloads[i]), c.size));
    PrefixXor(oprf, Xor(oprf, plaintext), oprfs[i], Xor(oprfs[i], payloads[i]), c.size);
    XorCancel(oprf, plaintext);
    XorCancel(oprfs[i], payloads[i]);
  }

  /** The zero row of an empty bin gives the receiver its own OPRF value back. */
  lemma EmptyBin<F(!new)>(k: Field<F>, c: Coding<F>, row: seq<Byte>, maxBinSize: nat, oprf: Block, plaintext: Block)
    requires IsField(k) && IsCoding(k, c) && |row| == RowParams(c, maxBinSize).RowLength()
    requires RowPolynomial(c, row, maxBinSize) == seq(maxBinSize, _ => k.zero)
    requires Element(c, Xor(oprf, plaintext)) == Eval(k, RowPolynomial(c, row, maxBinSize), Element(c, oprf))
    ensures Prefix(plaintext, c.size) == Prefix(oprf, c.size)
  {
    hide Xor, IsField, RowPolynomial;
    EvalZeros(k, [], maxBinSize, Element(c, oprf));
    assert [] + seq(maxBinSize, _ => k.zero) == seq(maxBinSize, _ => k.zero);
    assert Eval(k, [], Element(c, oprf)) == k.zero;
    assert FromLaw(c, Prefix(Xor(oprf, plaintext), c.size)) && FromLaw(c, Prefix(ZeroBlock, c.size));
    PrefixXor(oprf, Xor(oprf, plaintext), oprf, ZeroBlock, c.size);
    XorCancel(oprf, plaintext);
    XorZero(oprf);
  }

  /** Both sides of one bin in a row. */
  method EncodeDecode<F(==,!new)>(k: Field<F>, c: Coding<F>, maxBinSize: nat, oprfs: seq<Block>, payloads: seq<Block>,
                                  dummy: Poly<F>, i: nat, held: seq<Block>, was: Block)
    returns (status: Status, row: seq<Byte>, plaintext: Block)
    requires IsField(k) && IsCoding(k, c) && |oprfs| == |payloads| && |oprfs| + |dummy| == maxBinSize
    requires i < |oprfs| && |held| == maxBinSize && NoDup(Elements(c, oprfs))
    ensures status.Written? <==> FullDegree(k, Elements(c, oprfs), Elements(c, Masked(oprfs, payloads)), dummy)
    ensures |row| == RowParams(c, maxBinSize).RowLength()
    ensures status.Written? ==>
              RowPolynomial(c, row, maxBinSize) == WithDummy(k, Elements(c, oprfs), Elements(c, Masked(oprfs, payloads)), dummy)
    ensures Element(c, Xor(oprfs[i], plaintext)) == Eval(k, RowPolynomial(c, row, maxBinSize), Element(c, oprfs[i]))
    ensures status.Written? ==> Prefix(plaintext, c.size) == Prefix(payloads[i], c.size)
  {
    hide Xor, IsField, RowPolynomial, IsCoding, FullDegree, WithDummy;
    var buffer := new Byte[RowParams(c, maxBinSize).RowLength()];
    status := SendBin(k, c, buffer, maxBinSize, oprfs, payloads, dummy);
    row := buffer[..];
    plaintext := RecvBin(k, c, row, maxBinSize, oprfs[i], held, was);
    if status.Written? {
      RoundTrip(k, c, row, maxBinSize, oprfs, payloads, dummy, i, oprfs[i], plaintext);
    }
  }
}
