/** cryptox.go: the generator that hashes its own state. */
module Csprng {
  import opened Common

  const SIZE: nat := 64

  /** A SHA-512 digest, and SHA-512 itself as an uninterpreted function on digests. */
  type Digest = s: seq<Byte> | |s| == SIZE witness seq(SIZE, i => 0)
  type Hash = Digest -> Digest

  /** The state after n updates. */
  function Iterated(H: Hash, s: Digest, n: nat): Digest {
    if n == 0 then s else H(Iterated(H, s, n - 1))
  }

  /** Byte i of the stream H(s), H(H(s)), ... */
  function StreamByte(H: Hash, s: Digest, i: nat): Byte {
    Iterated(H, s, i / SIZE + 1)[i % SIZE]
  }

  /** The stream begins with H(s); after any 64 bytes it goes on as the stream of the digest they were. */
  lemma StreamStarts(H: Hash, s: Digest, i: nat)
    ensures StreamByte(H, s, i) == if i < 64 then H(s)[i] else StreamByte(H, H(s), i - 64)
  {
    if i < 64 {
      assert Iterated(H, s, 0) == s && Iterated(H, s, 1) == H(Iterated(H, s, 0));
    } else {
      var n := (i - 64) / SIZE + 1;
      IteratedPlus(H, s, 1, n);
      assert Iterated(H, s, 0) == s && Iterated(H, s, 1) == H(Iterated(H, s, 0));
      assert i / SIZE + 1 == 1 + n && i % SIZE == (i - 64) % SIZE;
    }
  }

  /** out is the stream's first |out| bytes. */
  ghost predicate Streams(H: Hash, s: Digest, out: seq<Byte>) {
    forall i :: 0 <= i < |out| ==> out[i] == StreamByte(H, s, i)
  }

  /** Updates that a read of n bytes makes: a partly used digest counts as used. */
  function Updates(n: nat): nat {
    (n + SIZE - 1) / SIZE
  }

  lemma {:induction false} IteratedPlus(H: Hash, s: Digest, a: nat, b: nat)
    ensures Iterated(H, Iterated(H, s, a), b) == Iterated(H, s, a + b)
  {
    if b == 0 {
    } else {
      IteratedPlus(H, s, a, b - 1);
    }
  }

  class Sha512Csprng {
    const H: Hash
    var state: Digest

    /** NewPRNGSHA512, given the digest of the seed. */
    constructor (H: Hash, digest: Digest)
      ensures this.H == H && state == digest
    {
      this.H, state := H, digest;
    }

    method Read(b: array<Byte>) returns (n: nat)
      modifies this, b
      ensures n == b.Length
      ensures Streams(H, old(state), b[..])
      ensures state == Iterated(H, old(state), Updates(b.Length))
    {
      n := 0;
      var i: int := b.Length;
      ghost var k := 0;
      while 0 < i
        invariant i == b.Length - k * SIZE
        invariant n == Min(k * SIZE, b.Length)
        invariant n < b.Length ==> 0 < i
        invariant 0 < k ==> (k - 1) * SIZE < b.Length
        invariant state == Iterated(H, old(state), k)
        invariant Streams(H, old(state), b[..n])
      {
        state := H(state);
        var size := Min(|state|, i);
        forall j | 0 <= j < size {
          b[n + j] := state[j];
        }
        forall j | 0 <= j < n + size ensures b[j] == StreamByte(H, old(state), j) {
          if n <= j {
            assert j / SIZE == k && j % SIZE == j - n;
          } else {
            assert old(b[..n])[j] == old(b[j]);
          }
        }
        n := n + size;
        i := i - |state|;
        k := k + 1;
      }
      assert b[..n] == b[..];
    }
  }

  /** Two reads in a row: m bytes, then n bytes from the state the first one left. */
  ghost predicate TwoReads(H: Hash, s: Digest, a: seq<Byte>, b: seq<Byte>) {
    Streams(H, s, a) && Streams(H, Iterated(H, s, Updates(|a|)), b)
  }

  /** Two reads of m and n bytes always equal one read of m + n bytes. */
  ghost predicate Joins(m: nat, n: nat) {
    forall H: Hash, s: Digest, a: seq<Byte>, b: seq<Byte> | TwoReads(H, s, a, b) && |a| == m && |b| == n ::
      Streams(H, s, a + b)
  }

  /** That is so exactly when the first length is a multiple of 64 or the second read asks for nothing. */
  lemma JoinsExactly(m: nat, n: nat)
    ensures Joins(m, n) <==> m % 64 == 0 || n == 0
  {
    if m % SIZE == 0 || n == 0 {
      forall H: Hash, s: Digest, a: seq<Byte>, b: seq<Byte> | TwoReads(H, s, a, b) && |a| == m && |b| == n
        ensures Streams(H, s, a + b)
      {
        AlignedReadsJoin(H, s, a, b);
      }
    } else {
      Misaligned(m, n);
    }
  }

  lemma AlignedReadsJoin(H: Hash, s: Digest, a: seq<Byte>, b: seq<Byte>)
    requires TwoReads(H, s, a, b) && (|a| % SIZE == 0 || b == [])
    ensures Streams(H, s, a + b)
  {
    var u := Updates(|a|);
    forall i | 0 <= i < |a + b| ensures (a + b)[i] == StreamByte(H, s, i) {
      if |a| <= i {
        var j := i - |a|;
        IteratedPlus(H, s, u, j / SIZE + 1);
        assert u + j / SIZE == i / SIZE && j % SIZE == i % SIZE;
        assert b[j] == StreamByte(H, Iterated(H, s, u), j);
      }
    }
  }

  /** The first n stream bytes as a sequence. */
  lemma {:induction false} StreamPrefix(H: Hash, s: Digest, n: nat) returns (out: seq<Byte>)
    ensures |out| == n && Streams(H, s, out)
  {
    out := [];
    while |out| < n
      invariant |out| <= n && Streams(H, s, out)
    {
      out := out + [StreamByte(H, s, |out|)];
    }
  }

  /** A hash that always gives the digest 1, 0, 0, ... shows the discarded tail. */
  lemma Misaligned(m: nat, n: nat)
    requires m % SIZE != 0 && 0 < n
    ensures !Joins(m, n)
  {
    var digest: Digest := [1] + seq(SIZE - 1, i => 0);
    var H: Hash := (x: Digest) => digest;
    var a := StreamPrefix(H, digest, m);
    var b := StreamPrefix(H, Iterated(H, digest, Updates(m)), n);
    assert TwoReads(H, digest, a, b);
    assert b[0] == StreamByte(H, Iterated(H, digest, Updates(m)), 0) == 1;
    assert StreamByte(H, digest, m) == 0;
    assert (a + b)[m] == 1;
  }
}
