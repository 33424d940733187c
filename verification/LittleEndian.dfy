/** Unsigned integers in memory, low byte first. */
module LittleEndian {
  import opened Blocks

  function Pow256(k: nat): (r: nat)
    ensures 0 < r
  {
    if k == 0 then 1 else 256 * Pow256(k - 1)
  }

  /** A remainder as a byte. */
  function AsByte(n: nat): Byte {
    SmallByte(n % 256)
  }

  function SmallByte(m: nat): Byte
    requires m < 256
  {
    m as Byte
  }

  /** The bytes of the k-byte integer n. */
  function Stored(n: nat, k: nat): (r: seq<Byte>)
    ensures |r| == k
  {
    if k == 0 then [] else [AsByte(n)] + Stored(n / 256, k - 1)
  }

  /** The integer that bytes hold. */
  function Loaded(b: seq<Byte>): nat {
    if b == [] then 0 else Number(b[0]) + 256 * Loaded(b[1..])
  }

  lemma NextByte(b: Byte)
    requires Number(b) < 255
    ensures Number(b + 1) == Number(b) + 1
  {}

  lemma ItsByte(b: Byte, m: nat)
    requires Number(b) == m < 256
    ensures SmallByte(m) == b
  {}

  lemma {:induction false} SomeByte(m: nat) returns (b: Byte)
    requires m < 256
    ensures Number(b) == m
  {
    if m == 0 {
      b := 0;
    } else {
      var below := SomeByte(m - 1);
      NextByte(below);
      b := below + 1;
    }
  }

  lemma SmallNumber(m: nat)
    requires m < 256
    ensures Number(SmallByte(m)) == m
  {
    hide Number, SmallByte;
    var b := SomeByte(m);
    ItsByte(b, m);
  }

  lemma ByteNumber(n: nat)
    ensures Number(AsByte(n)) == n % 256
  {
    hide Number, SmallByte;
    SmallNumber(n % 256);
  }

  lemma ByteRange(b: Byte)
    ensures Number(b) < 256
  {}

  lemma NumberByte(b: Byte)
    ensures AsByte(Number(b)) == b
  {
    hide Number, AsByte;
    ByteRange(b);
    ByteNumber(Number(b));
    SameNumber(AsByte(Number(b)), b);
  }

  /** Loading what was stored gives the integer, reduced to its k bytes. */
  lemma {:induction false} LoadedStored(n: nat, k: nat)
    ensures Loaded(Stored(n, k)) == n % Pow256(k)
  {
    hide Number, AsByte;
    if k > 0 {
      LoadedStored(n / 256, k - 1);
      ByteNumber(n);
      assert Stored(n, k)[1..] == Stored(n / 256, k - 1);
      SplitMod(n, Pow256(k - 1));
    }
  }

  lemma SplitMod(n: nat, p: nat)
    requires 0 < p
    ensures n % (256 * p) == n % 256 + 256 * (n / 256 % p)
  {
    var q := n / 256;
    var r := n % 256 + 256 * (q % p);
    assert q % p <= p - 1;
    assert n == r + 256 * p * (q / p) by {
      assert q == p * (q / p) + q % p;
    }
    ModUnique(n, 256 * p, q / p, r);
  }

  lemma ModUnique(n: nat, d: nat, q: nat, r: nat)
    requires 0 < d && n == r + d * q && r < d
    ensures n % d == r
  {
    SameQuotient(d, n / d, n % d, q, r);
  }

  lemma SameQuotient(d: nat, q: nat, r: nat, q': nat, r': nat)
    requires d * q + r == d * q' + r' && r < d && r' < d
    ensures q == q' && r == r'
  {
    if q < q' {
      Apart(d, q, q');
    } else if q' < q {
      Apart(d, q', q);
    }
  }

  lemma Apart(d: nat, q: nat, q': nat)
    requires q < q'
    ensures d * q + d <= d * q'
  {
    var k := q' - q - 1;
    assert q' == q + 1 + k;
    Distribute(d, q, k);
  }

  lemma Distribute(d: nat, q: nat, k: nat)
    ensures d * (q + 1 + k) == d * q + d + d * k && d * k >= 0
  {}

  /** Storing what was loaded gives the bytes. */
  lemma {:induction false} StoredLoaded(b: seq<Byte>)
    ensures Stored(Loaded(b), |b|) == b && Loaded(b) < Pow256(|b|)
  {
    hide Number, AsByte;
    if b != [] {
      var n := Loaded(b);
      StoredLoaded(b[1..]);
      ByteRange(b[0]);
      NumberByte(b[0]);
      assert n % 256 == Number(b[0]) && n / 256 == Loaded(b[1..]);
      ByteNumber(n);
      ByteNumber(Number(b[0]));
      SameNumber(AsByte(n), AsByte(Number(b[0])));
      assert b == [b[0]] + b[1..];
    }
  }

  /** Byte i is digit i in base 256. */
  lemma {:induction false} StoredAt(n: nat, k: nat, i: nat)
    requires i < k
    ensures Number(Stored(n, k)[i]) == n / Pow256(i) % 256
  {
    hide Number, AsByte;
    if i == 0 {
      ByteNumber(n);
    } else {
      StoredAt(n / 256, k - 1, i - 1);
      DivDiv(n, Pow256(i - 1));
    }
  }

  lemma DivDiv(n: nat, p: nat)
    requires 0 < p
    ensures n / 256 / p == n / (256 * p)
  {
    var q := n / 256 / p;
    var r := n - 256 * p * q;
    assert n / 256 == p * q + n / 256 % p;
    assert r == 256 * (n / 256 % p) + n % 256;
    assert r < 256 * p;
    DivUnique(n, 256 * p, q, r);
  }

  lemma DivUnique(n: nat, d: nat, q: nat, r: nat)
    requires 0 < d && n == r + d * q && r < d
    ensures n / d == q
  {
    ModUnique(n, d, q, r);
    assert d * (n / d - q) == 0;
  }
}
