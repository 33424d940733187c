/** Chunked absorption as in SHA1::Update of cryptoTools/Crypto/sha1.cpp.  The compression function is a
    parameter; there is no padding and the initial state is zero. */
module Sha1 {
  import opened Blocks

  const CHUNK: nat := 64

  type Digest = seq<bv32>

  type Buffer = b: seq<Byte> | |b| == 64 witness seq(64, _ => 0)

  type Compression = (Digest, Buffer) -> Digest

  datatype State = State(digest: Digest, buffer: Buffer, idx: nat) {
    predicate Valid() {
      idx < CHUNK
    }
  }

  const START: State := State([0, 0, 0, 0, 0], seq(64, _ => 0), 0)

  /** One byte: it overwrites a place of the buffer, and a full buffer is compressed but not cleared. */
  function AbsorbByte(compress: Compression, s: State, b: Byte): (r: State)
    requires s.Valid()
    ensures r.Valid()
  {
    var buffer := s.buffer[s.idx := b];
    if s.idx + 1 == CHUNK then State(compress(s.digest, buffer), buffer, 0) else State(s.digest, buffer, s.idx + 1)
  }

  /** The reference: bytes one at a time. */
  function Absorb(compress: Compression, s: State, data: seq<Byte>): (r: State)
    requires s.Valid()
    ensures r.Valid()
    decreases |data|
  {
    if data == [] then s else AbsorbByte(compress, Absorb(compress, s, data[..|data| - 1]), data[|data| - 1])
  }

  /** Updating with a and then b is updating once with a + b: digest, whole buffer and index agree. */
  lemma {:induction false} ChunkingIsInvisible(compress: Compression, s: State, a: seq<Byte>, b: seq<Byte>)
    requires s.Valid()
    ensures Absorb(compress, s, a + b) == Absorb(compress, Absorb(compress, s, a), b)
    decreases |b|
  {
    if b == [] {
      assert a + b == a;
    } else {
      var n := |b| - 1;
      ChunkingIsInvisible(compress, s, a, b[..n]);
      assert (a + b)[..|a + b| - 1] == a + b[..n];
    }
  }

  function Overwrite(buffer: Buffer, at: nat, data: seq<Byte>): Buffer
    requires at + |data| <= CHUNK
  {
    buffer[..at] + data + buffer[at + |data|..]
  }

  /** A stretch that fits into the buffer is one memcpy, with a compression when it fills the buffer. */
  lemma {:induction false} AbsorbStretch(compress: Compression, s: State, data: seq<Byte>)
    requires s.Valid() && s.idx + |data| <= CHUNK
    ensures Absorb(compress, s, data)
         == var buffer := Overwrite(s.buffer, s.idx, data);
            if s.idx + |data| == CHUNK then State(compress(s.digest, buffer), buffer, 0)
            else State(s.digest, buffer, s.idx + |data|)
    decreases |data|
  {
    if data == [] {
      assert Overwrite(s.buffer, s.idx, data) == s.buffer;
    } else {
      var n := |data| - 1;
      AbsorbStretch(compress, s, data[..n]);
      assert Overwrite(s.buffer, s.idx, data[..n])[s.idx + n := data[n]] == Overwrite(s.buffer, s.idx, data);
    }
  }

  class SHA1 {
    const compress: Compression
    var state: Digest
    var buffer: array<Byte>
    var idx: nat

    ghost predicate Valid()
      reads this
    {
      buffer.Length == CHUNK && idx < CHUNK
    }

    ghost function Now(): State
      requires Valid()
      reads this, buffer
    {
      State(state, buffer[..], idx)
    }

    constructor (c: Compression)
      ensures Valid() && fresh(buffer) && compress == c && Now() == START
    {
      compress := c;
      state := [0, 0, 0, 0, 0];
      buffer := new Byte[64](_ => 0);
      idx := 0;
    }

    method Reset()
      requires Valid()
      modifies this, buffer
      ensures Valid() && buffer == old(buffer) && Now() == START
    {
      state := [0, 0, 0, 0, 0];
      for i := 0 to buffer.Length
        invariant Valid() && buffer == old(buffer) && state == [0, 0, 0, 0, 0]
        invariant forall k :: 0 <= k < i ==> buffer[k] == 0
      {
        buffer[i] := 0;
      }
      idx := 0;
    }

    method CopyIn(data: seq<Byte>)
      requires Valid() && idx + |data| <= CHUNK
      modifies buffer
      ensures buffer[..] == Overwrite(old(buffer[..]), idx, data)
    {
      forall i | 0 <= i < |data| {
        buffer[idx + i] := data[i];
      }
    }

    /** The loop that fills the buffer stretch by stretch absorbs the data byte for byte. */
    method Update(data: seq<Byte>)
      requires Valid()
      modifies this, buffer
      ensures Valid() && buffer == old(buffer) && Now() == Absorb(compress, old(Now()), data)
    {
      hide Absorb, Overwrite;
      ghost var start := Now();
      var at := 0;
      NothingAbsorbed(compress, start, data);
      while at < |data|
        invariant Valid() && buffer == old(buffer) && at <= |data|
        invariant Now() == Absorb(compress, start, data[..at])
      {
        ghost var before := Now();
        var length := |data| - at;
        var step := if length < 64 - idx then length else 64 - idx;
        var stretch := data[at..at + step];
        CopyIn(stretch);
        idx := idx + step;
        if idx == 64 {
          state := compress(state, buffer[..]);
          idx := 0;
        }
        AbsorbStretch(compress, before, stretch);
        ChunkingIsInvisible(compress, start, data[..at], stretch);
        assert data[..at] + stretch == data[..at + step];
        at := at + step;
      }
      assert data[..at] == data;
    }

    /** A partly filled buffer is compressed with whatever its tail holds. */
    method Final() returns (digest: Digest)
      requires Valid()
      modifies this
      ensures Valid() && buffer == old(buffer) && idx == 0
      ensures digest == state == FinalDigest(compress, old(Now()))
    {
      if idx != 0 {
        state := compress(state, buffer[..]);
      }
      idx := 0;
      digest := state;
    }

    /** operator= copies the digest and the buffer and leaves the index alone. */
    method Assign(src: SHA1)
      requires Valid() && src.Valid()
      modifies this`state, buffer
      ensures Valid() && buffer == old(buffer)
      ensures Now() == State(old(src.Now()).digest, old(src.Now()).buffer, old(idx))
      ensures Now() == old(src.Now()) <==> old(idx) == old(src.idx)
    {
      state := src.state;
      for i := 0 to 64
        invariant Valid() && src.Valid() && buffer == old(buffer) && src.buffer == old(src.buffer)
        invariant src.buffer[..] == old(src.buffer[..]) && state == old(src.state) && idx == old(idx)
        invariant forall k :: 0 <= k < i ==> buffer[k] == src.buffer[k]
      {
        buffer[i] := src.buffer[i];
      }
      assert buffer[..] == old(src.buffer[..]);
    }
  }

  lemma NothingAbsorbed(compress: Compression, s: State, data: seq<Byte>)
    requires s.Valid()
    ensures Absorb(compress, s, data[..0]) == s
  {}

  function FinalDigest(compress: Compression, s: State): Digest {
    if s.idx == 0 then s.digest else compress(s.digest, s.buffer)
  }

  // ----- what the digest of a message is -----

  /** The digest of the first k whole chunks. */
  function Chain(compress: Compression, data: seq<Byte>, k: nat): Digest
    requires CHUNK * k <= |data|
  {
    if k == 0 then START.digest else
    compress(Chain(compress, data, k - 1), data[CHUNK * (k - 1)..CHUNK * k])
  }

  /** Byte j of the buffer after a whole message: of the last, partial chunk if it reaches that far,
      otherwise left over from the chunk before, or zero. */
  function BufferAfter(data: seq<Byte>, j: nat): Byte
    requires j < CHUNK
  {
    var k := |data| / CHUNK;
    if CHUNK * k + j < |data| then data[CHUNK * k + j]
    else if 0 < k then data[CHUNK * (k - 1) + j]
    else 0
  }

  ghost predicate Absorbed(compress: Compression, data: seq<Byte>, s: State) {
    && s.idx == |data| % CHUNK && s.digest == Chain(compress, data, |data| / CHUNK)
    && forall j: nat :: j < CHUNK ==> s.buffer[j] == BufferAfter(data, j)
  }

  lemma {:induction false} ChainPrefix(compress: Compression, data: seq<Byte>, more: seq<Byte>, k: nat)
    requires CHUNK * k <= |data|
    ensures Chain(compress, data + more, k) == Chain(compress, data, k)
  {
    if k > 0 {
      ChainPrefix(compress, data, more, k - 1);
      assert (data + more)[CHUNK * (k - 1)..CHUNK * k] == data[CHUNK * (k - 1)..CHUNK * k];
    }
  }

  lemma NextIndex(n: nat)
    ensures n % CHUNK + 1 < CHUNK ==> (n + 1) % CHUNK == n % CHUNK + 1 && (n + 1) / CHUNK == n / CHUNK
    ensures n % CHUNK + 1 == CHUNK ==> (n + 1) % CHUNK == 0 && (n + 1) / CHUNK == n / CHUNK + 1
    ensures CHUNK * (n / CHUNK) + n % CHUNK == n
  {}

  lemma BufferSteps(data: seq<Byte>, b: Byte, j: nat)
    requires j < CHUNK
    ensures BufferAfter(data + [b], j) == if j == |data| % CHUNK then b else BufferAfter(data, j)
  {
    var n := |data|;
    NextIndex(n);
    var k := n / CHUNK;
    if n % CHUNK + 1 == CHUNK {
      assert CHUNK * (k + 1) == n + 1;
    }
  }

  lemma AbsorbedStep(compress: Compression, data: seq<Byte>, b: Byte, s: State)
    requires s.Valid() && Absorbed(compress, data, s)
    ensures Absorbed(compress, data + [b], AbsorbByte(compress, s, b))
  {
    var n := |data|;
    var k := n / CHUNK;
    var t := AbsorbByte(compress, s, b);
    NextIndex(n);
    ChainPrefix(compress, data, [b], k);
    forall j: nat | j < CHUNK ensures t.buffer[j] == BufferAfter(data + [b], j) {
      BufferSteps(data, b, j);
    }
    if n % CHUNK + 1 == CHUNK {
      var chunk := (data + [b])[CHUNK * k..CHUNK * (k + 1)];
      forall j: nat | j < CHUNK ensures chunk[j] == t.buffer[j] {
        BufferSteps(data, b, j);
      }
      assert chunk == t.buffer;
    }
  }

  /** Main result: a message absorbed from the start, however it was cut up, gives the chain of its whole
      chunks, and the last compression sees the partial chunk followed by the tail of the chunk before. */
  lemma {:induction false} MessageDigest(compress: Compression, data: seq<Byte>)
    ensures Absorbed(compress, data, Absorb(compress, START, data))
    decreases |data|
  {
    if data != [] {
      var n := |data| - 1;
      MessageDigest(compress, data[..n]);
      hide Absorbed, AbsorbByte;
      AbsorbedStep(compress, data[..n], data[n], Absorb(compress, START, data[..n]));
      assert data[..n] + [data[n]] == data;
    }
  }

  /** The bytes that the last compression sees: the partial chunk, then what is left of the chunk before
      it, or zeros. */
  function LastChunk(data: seq<Byte>): (b: Buffer)
    requires |data| % CHUNK != 0
  {
    var k, r := |data| / CHUNK, |data| % CHUNK;
    NextIndex(|data|);
    data[CHUNK * k..] + if k > 0 then data[CHUNK * (k - 1) + r..CHUNK * k] else seq(CHUNK - r, _ => 0)
  }

  lemma LastChunkAt(data: seq<Byte>, j: nat)
    requires |data| % CHUNK != 0 && j < CHUNK
    ensures LastChunk(data)[j] == BufferAfter(data, j)
  {
    NextIndex(|data|);
  }

  /** The digest of a message, whose partial chunk counts. */
  lemma DigestOf(compress: Compression, data: seq<Byte>)
    ensures FinalDigest(compress, Absorb(compress, START, data)) ==
            var chain := Chain(compress, data, |data| / CHUNK);
            if |data| % CHUNK == 0 then chain else compress(chain, LastChunk(data))
  {
    hide Absorb, Chain, BufferAfter, LastChunk;
    MessageDigest(compress, data);
    var s := Absorb(compress, START, data);
    if |data| % CHUNK != 0 {
      forall j: nat | j < CHUNK ensures LastChunk(data)[j] == s.buffer[j] {
        LastChunkAt(data, j);
      }
      SameBuffer(LastChunk(data), s.buffer);
    }
  }

  lemma SameBuffer(a: Buffer, b: Buffer)
    requires forall j: nat :: j < CHUNK ==> a[j] == b[j]
    ensures a == b
  {}

  /** One message through a new object, in one call. */
  method Hash(compress: Compression, data: seq<Byte>) returns (digest: Digest)
    ensures digest == var chain := Chain(compress, data, |data| / CHUNK);
                      if |data| % CHUNK == 0 then chain else compress(chain, LastChunk(data))
  {
    hide Absorb, Chain, LastChunk, FinalDigest;
    var sha := new SHA1(compress);
    sha.Update(data);
    digest := sha.Final();
    DigestOf(compress, data);
  }
}
