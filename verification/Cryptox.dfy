/** cryptox.go: the keyed stream cipher, its random access, and the SHA-512 generator. */
module Cryptox {
  import opened Common

  /** The primitives the repository takes from libraries, left uninterpreted. */
  datatype Primitives = Primitives(
    random: (Uuid, nat) -> Byte,                      // byte i of the ChaCha8 generator of a seed
    block: (seq<Byte>, seq<Byte>, nat, nat) -> Byte)  // byte j of the ChaCha20 block of a counter

  const BLOCK_SIZE: nat := 64
  const KEY_SIZE: nat := 32
  const NONCE_SIZE: nat := 12

  /** n bytes of the generator, from position at on. */
  function Random(P: Primitives, seed: Uuid, at: nat, n: nat): (r: seq<Byte>)
    ensures |r| == n
    decreases n, seed
  {
    if n == 0 then [] else [P.random(seed, at)] + Random(P, seed, at + 1, n - 1)
  }

  /** Byte k of it is the generator's byte at + k. */
  lemma {:induction false} RandomAt(P: Primitives, seed: Uuid, at: nat, n: nat, k: nat)
    requires k < n
    ensures Random(P, seed, at, n)[k] == P.random(seed, at + k)
    decreases k
  {
    if k == 0 {
    } else {
      RandomAt(P, seed, at + 1, n - 1, k - 1);
    }
  }

  /** Byte i of the keystream: block i / 64 of the counter, as in section 2.4 of RFC 8439. */
  function KeyByte(P: Primitives, key: seq<Byte>, nonce: seq<Byte>, i: nat): Byte {
    P.block(key, nonce, i / BLOCK_SIZE, i % BLOCK_SIZE)
  }

  /** data combined with the keystream from byte at on. */
  function Xor(P: Primitives, key: seq<Byte>, nonce: seq<Byte>, at: nat, data: seq<Byte>): (r: seq<Byte>)
    ensures |r| == |data|
    decreases |data|
  {
    if data == [] then []
    else [data[0] ^ KeyByte(P, key, nonce, at)] + Xor(P, key, nonce, at + 1, data[1..])
  }

  lemma {:induction false} XorAt(P: Primitives, key: seq<Byte>, nonce: seq<Byte>, at: nat, data: seq<Byte>, i: nat)
    requires i < |data|
    ensures Xor(P, key, nonce, at, data)[i] == data[i] ^ KeyByte(P, key, nonce, at + i)
    decreases |data|
  {
    hide KeyByte;
    if i == 0 {
    } else {
      XorAt(P, key, nonce, at + 1, data[1..], i - 1);
    }
  }

  /** Encrypting twice from the same position is the identity. */
  lemma XorTwice(P: Primitives, key: seq<Byte>, nonce: seq<Byte>, at: nat, data: seq<Byte>)
    ensures Xor(P, key, nonce, at, Xor(P, key, nonce, at, data)) == data
  {
    hide Xor, KeyByte;
    var once := Xor(P, key, nonce, at, data);
    forall i | 0 <= i < |data| ensures Xor(P, key, nonce, at, once)[i] == data[i] {
      XorAt(P, key, nonce, at, data, i);
      XorAt(P, key, nonce, at, once, i);
      XorBytes(data[i], KeyByte(P, key, nonce, at + i));
    }
  }

  lemma XorBytes(x: Byte, k: Byte)
    ensures (x ^ k) ^ k == x
  {
  }

  /** A slice of the ciphertext is the slice of the plaintext under the keystream from there on. */
  lemma XorSlice(P: Primitives, key: seq<Byte>, nonce: seq<Byte>, at: nat, data: seq<Byte>, i: nat, j: nat)
    requires i <= j <= |data|
    ensures Xor(P, key, nonce, at, data)[i..j] == Xor(P, key, nonce, at + i, data[i..j])
  {
    hide Xor, KeyByte;
    forall k | 0 <= k < j - i
      ensures Xor(P, key, nonce, at, data)[i..j][k] == Xor(P, key, nonce, at + i, data[i..j])[k]
    {
      XorAt(P, key, nonce, at, data, i + k);
      XorAt(P, key, nonce, at + i, data[i..j], k);
      assert at + (i + k) == at + i + k;
    }
  }

  lemma XorConcat(P: Primitives, key: seq<Byte>, nonce: seq<Byte>, at: nat, a: seq<Byte>, b: seq<Byte>)
    ensures Xor(P, key, nonce, at, a + b) == Xor(P, key, nonce, at, a) + Xor(P, key, nonce, at + |a|, b)
  {
    hide Xor, KeyByte;
    var whole := Xor(P, key, nonce, at, a + b);
    XorSlice(P, key, nonce, at, a + b, 0, |a|);
    XorSlice(P, key, nonce, at, a + b, |a|, |a + b|);
    assert (a + b)[0..|a|] == a && (a + b)[|a|..|a + b|] == b;
    assert whole == whole[0..|a|] + whole[|a|..|a + b|];
  }

  // ----- chunked streams ----------------------------------------------------

  function Flatten(chunks: seq<seq<Byte>>): seq<Byte> {
    if chunks == [] then [] else chunks[0] + Flatten(chunks[1..])
  }

  /** What one cipher object makes of a sequence of writes: its position runs on between them. */
  function XorChunks(P: Primitives, key: seq<Byte>, nonce: seq<Byte>, at: nat, chunks: seq<seq<Byte>>): seq<Byte>
    decreases |chunks|
  {
    if chunks == [] then []
    else Xor(P, key, nonce, at, chunks[0]) + XorChunks(P, key, nonce, at + |chunks[0]|, chunks[1..])
  }

  lemma {:induction false} ChunksDoNotMatter(P: Primitives, key: seq<Byte>, nonce: seq<Byte>, at: nat,
                                             chunks: seq<seq<Byte>>)
    ensures XorChunks(P, key, nonce, at, chunks) == Xor(P, key, nonce, at, Flatten(chunks))
    decreases |chunks|
  {
    hide Xor, KeyByte;
    if chunks == [] {
      assert Xor(P, key, nonce, at, []) == [];
    } else {
      ChunksDoNotMatter(P, key, nonce, at + |chunks[0]|, chunks[1..]);
      XorConcat(P, key, nonce, at, chunks[0], Flatten(chunks[1..]));
    }
  }

  // ----- random access ------------------------------------------------------

  /** Keystream position a cipher for an offset starts from: uint32 conversion, then SetCounter(offset / 64). */
  function StartIndex(offset: nat): nat {
    offset % TWO_32 / BLOCK_SIZE * BLOCK_SIZE
  }

  lemma StartIndexExact(offset: nat)
    ensures StartIndex(offset) == offset <==> offset % BLOCK_SIZE == 0 && offset < TWO_32
  {
  }

  /** Decrypting ciphertext[o..] in any chunking gives the plaintext from o on. */
  lemma RandomAccess(P: Primitives, key: seq<Byte>, nonce: seq<Byte>, plain: seq<Byte>, o: nat, chunks: seq<seq<Byte>>)
    requires o % BLOCK_SIZE == 0 && o < TWO_32
    requires o + |Flatten(chunks)| <= |plain|
    requires Flatten(chunks) == Xor(P, key, nonce, 0, plain)[o..o + |Flatten(chunks)|]
    ensures XorChunks(P, key, nonce, StartIndex(o), chunks) == plain[o..o + |Flatten(chunks)|]
  {
    hide Xor, KeyByte;
    var e := o + |Flatten(chunks)|;
    StartIndexExact(o);
    ChunksDoNotMatter(P, key, nonce, o, chunks);
    XorSlice(P, key, nonce, 0, plain, o, e);
    XorTwice(P, key, nonce, o, plain[o..e]);
  }

  /** Decrypting n bytes of the ciphertext from o on gives those n bytes of the plaintext. */
  predicate Recovered(P: Primitives, key: seq<Byte>, nonce: seq<Byte>, plain: seq<Byte>, o: nat, n: nat)
    requires o + n <= |plain|
  {
    Xor(P, key, nonce, StartIndex(o), Xor(P, key, nonce, 0, plain)[o..o + n]) == plain[o..o + n]
  }

  lemma RecoveredWithin(P: Primitives, key: seq<Byte>, nonce: seq<Byte>, plain: seq<Byte>, o: nat, n: nat)
    requires o + n <= |plain| && o % BLOCK_SIZE == 0 && o < TWO_32
    ensures Recovered(P, key, nonce, plain, o, n)
  {
    StartIndexExact(o);
    XorSlice(P, key, nonce, 0, plain, o, o + n);
    XorTwice(P, key, nonce, o, plain[o..o + n]);
  }

  /** Random access at o works for every key, nonce, plaintext and length. */
  ghost predicate Recovers(o: nat) {
    forall P: Primitives, key: seq<Byte>, nonce: seq<Byte>, plain: seq<Byte>, n: nat | o + n <= |plain| ::
      Recovered(P, key, nonce, plain, o, n)
  }

  /** It works exactly at the multiples of 64 below 2^32; past 4 GiB the uint32 conversion breaks it. */
  lemma RecoversExactly(o: nat)
    ensures Recovers(o) <==> o % 64 == 0 && o < 0x1_0000_0000
  {
    if o % BLOCK_SIZE == 0 && o < TWO_32 {
      forall P: Primitives, key: seq<Byte>, nonce: seq<Byte>, plain: seq<Byte>, n: nat | o + n <= |plain|
        ensures Recovered(P, key, nonce, plain, o, n)
      {
        RecoveredWithin(P, key, nonce, plain, o, n);
      }
    } else {
      StartIndexExact(o);
      NotRecovered(o);
    }
  }

  lemma {:induction false} ZeroBytes(n: nat) returns (z: seq<Byte>)
    ensures |z| == n && forall i :: 0 <= i < n ==> z[i] == 0
  {
    z := [];
    while |z| < n
      invariant |z| <= n && forall i :: 0 <= i < |z| ==> z[i] == 0
    {
      z := z + [0];
    }
  }

  /** A keystream that is 1 at position o and 0 elsewhere, for every key and nonce. */
  function Marked(o: nat): Primitives {
    Primitives((s, i) => 0, (k, n, c, j) => if c * BLOCK_SIZE + j == o then 1 else 0)
  }

  /** It tells the two positions apart: zeros come back as a 1. */
  lemma MarkedMisreads(key: seq<Byte>, nonce: seq<Byte>, plain: seq<Byte>, o: nat, n: nat)
    requires StartIndex(o) != o && o + n <= |plain| && 0 < n && plain[o] == 0
    ensures Xor(Marked(o), key, nonce, StartIndex(o), Xor(Marked(o), key, nonce, 0, plain)[o..o + n])[0] == 1
  {
    hide Xor;
    XorAt(Marked(o), key, nonce, 0, plain, o);
    XorAt(Marked(o), key, nonce, StartIndex(o), Xor(Marked(o), key, nonce, 0, plain)[o..o + n], 0);
    assert KeyByte(Marked(o), key, nonce, o) == 1 && KeyByte(Marked(o), key, nonce, StartIndex(o)) == 0;
  }

  lemma NotRecovered(o: nat)
    requires StartIndex(o) != o
    ensures !Recovers(o)
  {
    var plain := ZeroBytes(o + 1);
    MarkedMisreads([], [], plain, o, 1);
    assert plain[o..o + 1][0] == 0;
    assert !Recovered(Marked(o), [], [], plain, o, 1);
  }

  // ----- the objects --------------------------------------------------------

  /** rand.ChaCha8 as an io.Reader. */
  class Prng {
    const P: Primitives
    const seed: Uuid
    var pos: nat

    constructor (P: Primitives, seed: Uuid)
      ensures this.P == P && this.seed == seed && pos == 0
    {
      this.P, this.seed, pos := P, seed, 0;
    }

    method ReadFull(n: nat) returns (b: seq<Byte>)
      modifies this
      ensures b == Random(P, seed, old(pos), n) && pos == old(pos) + n
    {
      b := Random(P, seed, pos, n);
      pos := pos + n;
    }
  }

  /** An unauthenticated ChaCha20 cipher: key, nonce, and the next keystream byte. */
  class Cipher {
    const P: Primitives
    const key: seq<Byte>
    const nonce: seq<Byte>
    var next: nat

    constructor (P: Primitives, key: seq<Byte>, nonce: seq<Byte>)
      ensures this.P == P && this.key == key && this.nonce == nonce && next == 0
    {
      this.P, this.key, this.nonce, next := P, key, nonce, 0;
    }

    method SetCounter(counter: nat)
      modifies this
      ensures next == counter * BLOCK_SIZE
    {
      next := counter * BLOCK_SIZE;
    }

    method XORKeyStream(src: seq<Byte>) returns (dst: seq<Byte>)
      modifies this
      ensures dst == Xor(P, key, nonce, old(next), src) && next == old(next) + |src|
    {
      dst := Xor(P, key, nonce, next, src);
      next := next + |src|;
    }
  }

  /** The generator gives the key first, then the nonce. */
  method NewReaderChaCha20(prng: Prng) returns (s: Cipher)
    modifies prng
    ensures fresh(s) && s.P == prng.P && s.next == 0
    ensures s.key == Random(prng.P, prng.seed, old(prng.pos), KEY_SIZE)
    ensures s.nonce == Random(prng.P, prng.seed, old(prng.pos) + KEY_SIZE, NONCE_SIZE)
  {
    var key := prng.ReadFull(KEY_SIZE);
    var nonce := prng.ReadFull(NONCE_SIZE);
    s := new Cipher(prng.P, key, nonce);
  }

  method NewOffsetWriterChaCha20(prng: Prng, offset: nat) returns (s: Cipher)
    requires offset < TWO_32
    modifies prng
    ensures fresh(s) && s.P == prng.P && s.next == StartIndex(offset)
    ensures s.key == Random(prng.P, prng.seed, old(prng.pos), KEY_SIZE)
    ensures s.nonce == Random(prng.P, prng.seed, old(prng.pos) + KEY_SIZE, NONCE_SIZE)
  {
    var key := prng.ReadFull(KEY_SIZE);
    var nonce := prng.ReadFull(NONCE_SIZE);
    s := new Cipher(prng.P, key, nonce);
    s.SetCounter(offset / BLOCK_SIZE);
  }
}
