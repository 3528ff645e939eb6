/** The objects behind Retrieval: the upload, the download, and the two read-through caches. */
module Library {
  import opened Common
  import opened BlockStore
  import opened Cryptox
  import opened Ranges
  import opened Answers
  import opened Retrieval

  /** A cipher writing into the block files from a position on: cipher.StreamWriter over io.OffsetWriter. */
  class StreamWriter {
    const cipher: Cipher
    const dst: DirCache
    var off: nat

    constructor (cipher: Cipher, dst: DirCache, base: nat)
      ensures this.cipher == cipher && this.dst == dst && off == base
    {
      this.cipher, this.dst, off := cipher, dst, base;
    }

    /** p as the cipher turns it out from keystream position at on. */
    function Turned(at: nat, p: seq<Byte>): seq<Byte> {
      Xor(cipher.P, cipher.key, cipher.nonce, at, p)
    }

    method Write(p: seq<Byte>)
      modifies this, cipher, dst`files
      ensures dst.files == Written(old(dst.files), dst.blockLength, old(off), Turned(old(cipher.next), p))
      ensures off == old(off) + |p| && cipher.next == old(cipher.next) + |p|
    {
      var c := cipher.XORKeyStream(p);
      var n := dst.WriteAt(c, off);
      off := off + n;
    }
  }

  /** The remote store. */
  class Deeppool {
    var objects: map<Uuid, seq<Byte>>

    constructor ()
      ensures objects == map[]
    {
      objects := map[];
    }

    /** The range's bytes arrive in order, in the transfer's pieces, possibly cut short. */
    method Download(id: Uuid, start: nat, end: nat, t: Transfer, into: StreamWriter) returns (err: Option<Error>)
      modifies into, into.cipher, into.dst`files
      ensures id !in objects ==> err == Some(Remote(false)) && into.dst.files == old(into.dst.files)
      ensures id in objects ==>
        && err == (if t.end.Complete? then None else Some(Remote(t.end.Unrecoverable?)))
        && var part := Clip(objects[id], start, end);
           into.dst.files == Written(old(into.dst.files), into.dst.blockLength, old(into.off),
                                     into.Turned(old(into.cipher.next), part[..Delivered(t, |part|)]))
    {
      if id !in objects {
        return Some(Remote(false));
      }
      hide Written, Xor, Clip;
      var part := Clip(objects[id], start, end);
      var i, k := 0, 0;
      assert part[..0] == [];
      EmptyWrite(into, into.dst.files, into.off, into.cipher.next);
      while k < |t.cuts|
        invariant 0 <= k <= |t.cuts| && i == Min(Sum(t.cuts[..k]), |part|)
        invariant into.off == old(into.off) + i && into.cipher.next == old(into.cipher.next) + i
        invariant into.dst.files == Written(old(into.dst.files), into.dst.blockLength, old(into.off),
                                            into.Turned(old(into.cipher.next), part[..i]))
      {
        SumSnoc(t.cuts, k);
        i := Deliver(part, i, Min(i + t.cuts[k], |part|), into,
                     old(into.dst.files), old(into.off), old(into.cipher.next));
        k := k + 1;
      }
      assert t.cuts[..k] == t.cuts;
      if t.end.Complete? {
        i := Deliver(part, i, |part|, into, old(into.dst.files), old(into.off), old(into.cipher.next));
        return None;
      }
      return Some(Remote(t.end.Unrecoverable?));
    }

    /** One piece of a transfer: part[i..j] follows part[..i]. */
    static method Deliver(part: seq<Byte>, i: nat, j: nat, into: StreamWriter,
                          ghost d: Disk, ghost base: nat, ghost at: nat)
      returns (r: nat)
      requires i <= j <= |part| && into.off == base + i && into.cipher.next == at + i
      requires into.dst.files == Written(d, into.dst.blockLength, base, into.Turned(at, part[..i]))
      modifies into, into.cipher, into.dst`files
      ensures r == j && into.off == base + j && into.cipher.next == at + j
      ensures into.dst.files == Written(d, into.dst.blockLength, base, into.Turned(at, part[..j]))
    {
      hide Written, Xor;
      into.Write(part[i..j]);
      assert part[..j] == part[..i] + part[i..j];
      XorConcat(into.cipher.P, into.cipher.key, into.cipher.nonce, at, part[..i], part[i..j]);
      WrittenConcat(d, into.dst.blockLength, base, into.Turned(at, part[..i]), into.Turned(at + i, part[i..j]));
      r := j;
    }
  }

  lemma EmptyWrite(into: StreamWriter, d: Disk, off: nat, at: nat)
    ensures Written(d, into.dst.blockLength, off, into.Turned(at, [])) == d
  {
  }

  lemma {:induction false} SumSnoc(cuts: seq<nat>, k: nat)
    requires k < |cuts|
    ensures Sum(cuts[..k + 1]) == Sum(cuts[..k]) + cuts[k]
    decreases k
  {
    if k == 0 {
      assert cuts[..1] == [cuts[0]] && cuts[..0] == [];
      assert Sum([cuts[0]]) == cuts[0] + Sum([cuts[0]][1..]);
    } else {
      SumSnoc(cuts[1..], k - 1);
      assert cuts[..k + 1][1..] == cuts[1..][..k] && cuts[..k][1..] == cuts[1..][..k - 1];
    }
  }

  /** What both caches do to fetch a range: a fresh generator from the media's seed, a cipher at the block start. */
  method FetchRange(P: Primitives, dl: Deeppool, cache: DirCache, md: Metadata, range: (nat, nat), t: Transfer)
    returns (err: Option<Error>)
    modifies cache`files
    ensures var env := Env(P, dl.objects, cache.blockLength);
            && cache.files == FetchFiles(env, old(cache.files), md, range, t)
            && err == FetchError(env, md, t)
  {
    hide Written, Xor, Clip, Random, Delivered;
    var prng := new Prng(P, Seed(md));
    var s := NewOffsetWriterChaCha20(prng, range.0 % TWO_32);
    assert StartIndex(range.0 % TWO_32) == StartIndex(range.0);
    var w := new StreamWriter(s, cache, range.0);
    err := dl.Download(md.archiveId, range.0, (range.0 + range.1) % TWO_64, t, w);
  }

  /** Reading the block files as they are. */
  method TryRead(cache: DirCache, p: array<Byte>, off: nat) returns (n: nat, err: Option<Error>)
    modifies p
    ensures n <= p.Length && p[..n] == ReadBytes(cache.files, cache.blockLength, off, p.Length)
    ensures err == ReadError(cache.files, cache.blockLength, off, p.Length)
  {
    n, err := cache.ReadAt(p, off);
    ReadsExactly(cache.files, cache.blockLength, off, p.Length, p[..n], err);
  }

  /** deeppool.torrent.cache.go: the read-through cache of a torrent. */
  class Fallback {
    const P: Primitives
    const dl: Deeppool
    const cache: DirCache
    var cacheblocked: bool

    constructor (P: Primitives, dl: Deeppool, cache: DirCache)
      ensures this.P == P && this.dl == dl && this.cache == cache && !cacheblocked
    {
      this.P, this.dl, this.cache, cacheblocked := P, dl, cache, false;
    }

    ghost function CurrentEnv(): Env
      reads dl
    {
      Env(P, dl.objects, cache.blockLength)
    }

    ghost function State(): Local
      reads this, cache
    {
      Local(cache.files, cacheblocked)
    }

    method DownloadChunk(m: Match, offset: nat) returns (err: Option<Error>)
      modifies this`cacheblocked, cache`files
      ensures State() == Fetch(CurrentEnv(), old(State()), offset, m)
      ensures err == FetchError(CurrentEnv(), m.md, m.transfer)
    {
      var range := CalculateBlockRange(cache.blockLength, offset, m.md.bytes);
      err := FetchRange(P, dl, cache, m.md, range, m.transfer);
      if err == Some(Remote(true)) {
        cacheblocked := true;
      }
    }

    /** Taking the mutex: the readers ahead of this one finish their downloads first, and a reclaim may go on. */
    method Lock(others: seq<Other>)
      modifies this`cacheblocked, cache`files
      ensures State() == Waited(CurrentEnv(), old(State()), others)
    {
      hide Fetch;
      var i := 0;
      while i < |others|
        invariant 0 <= i <= |others|
        invariant Waited(CurrentEnv(), State(), others[i..]) == Waited(CurrentEnv(), old(State()), others)
      {
        match others[i] {
          case Ended(off, row) => var e := DownloadChunk(row, off);
          case Unlinked(b) => cache.files := cache.files - {b};
        }
        assert others[i..][1..] == others[i + 1..];
        i := i + 1;
      }
    }

    method ReadAt(p: array<Byte>, off: nat, others: seq<Other>, matches: seq<Match>, queryFails: bool)
      returns (n: nat, err: Option<Error>)
      modifies this`cacheblocked, cache`files, p
      ensures var r := ReadThrough(CurrentEnv(), old(State()), off, p.Length, others, matches, queryFails);
              State() == r.local && n <= p.Length && p[..n] == r.got && err == r.err
      ensures err == Some(CacheUnrecoverable)
              <==> old(cacheblocked)
                   && exists got :: Reads(old(cache.files), cache.blockLength, off, p.Length, got, Some(NotExist))
      ensures err == Some(CacheUnrecoverable) ==>
        State() == old(State()) && Reads(old(cache.files), cache.blockLength, off, p.Length, p[..n], Some(NotExist))
    {
      hide ReadBytes, ReadError, Fetch, FetchError, Reads;
      RefusedExactly(CurrentEnv(), State(), off, p.Length, others, matches, queryFails);
      n, err := TryRead(cache, p, off);
      if err != Some(NotExist) {
        return;
      }
      if cacheblocked {
        return n, Some(CacheUnrecoverable);
      }
      Lock(others);
      n, err := TryRead(cache, p, off);
      if err == None {
        return;
      }
      ghost var second := State();
      var i := 0;
      while i < |matches|
        invariant 0 <= i <= |matches|
        invariant p[..n] == ReadBytes(second.files, cache.blockLength, off, p.Length)
        invariant Refill(CurrentEnv(), State(), off, matches[i..]) == Refill(CurrentEnv(), second, off, matches)
      {
        var v := matches[i];
        assert matches[i..][1..] == matches[i + 1..];
        i := i + 1;
        if v.md.archiveId.Nil? || v.md.archiveId.Max? {
          continue;
        }
        var cerr := DownloadChunk(v, off);
        if cerr != None {
          return n, cerr;
        }
      }
      if queryFails {
        return;
      }
      n, err := TryRead(cache, p, off);
    }
  }

  /** deeppool.reader.at.cache.go: the read-through cache of one media. */
  class DeeppoolReaderAtCache {
    const P: Primitives
    const d: Deeppool
    const localstorage: DirCache
    const md: Metadata

    constructor (P: Primitives, d: Deeppool, localstorage: DirCache, md: Metadata)
      ensures this.P == P && this.d == d && this.localstorage == localstorage && this.md == md
    {
      this.P, this.d, this.localstorage, this.md := P, d, localstorage, md;
    }

    method ReadAt(p: array<Byte>, off: nat, others: seq<Other>, t: Transfer) returns (n: nat, err: Option<Error>)
      modifies localstorage`files, p
      ensures var env := Env(P, d.objects, localstorage.blockLength);
              var r := ReaderAt(env, Local(old(localstorage.files), false), md, off, p.Length, others, t);
              localstorage.files == r.local.files && n <= p.Length && p[..n] == r.got && err == r.err
    {
      hide ReadBytes, ReadError, FetchFiles, FetchError, ModuloRange;
      n, err := TryRead(localstorage, p, off);
      if err != Some(NotExist) {
        return;
      }
      var readers := new Fallback(P, d, localstorage);
      readers.Lock(others);
      n, err := TryRead(localstorage, p, off);
      if err == None {
        return;
      }
      var range := ModuloRange(DEFAULT_BLOCK_LENGTH, md.diskOffset + off, md.diskOffset + md.bytes);
      var cerr := FetchRange(P, d, localstorage, md, range, t);
      if cerr != None {
        return;
      }
      n, err := TryRead(localstorage, p, off);
    }
  }

  /** One buffer of the section: k bytes were read so far, the next m bytes are asked for. */
  lemma SectionRead(d: Disk, L: BlockLength, off: nat, k: nat, m: nat, bytes: nat)
    requires ReadError(d, L, off, k) == None && k + m <= bytes
    ensures var got, e := ReadBytes(d, L, off + k, m), ReadError(d, L, off + k, m);
            var now := ReadBytes(d, L, off, k + |got|);
            && now == ReadBytes(d, L, off, k) + got && |ReadBytes(d, L, off, k)| == k
            && ReadError(d, L, off, k + |got|) == None
            && (e == None ==> |got| == m)
            && (e != None ==> ReadError(d, L, off, bytes) == e && ReadBytes(d, L, off, bytes) == now)
  {
    hide ReadBytes, Quot;
    var got := ReadBytes(d, L, off + k, m);
    ReadBytesStop(d, L, off + k, m, 0);
    ReadBytesSplit(d, L, off, k, |got|);
    ReadBytesSplit(d, L, off, k, m);
    ReadBytesStop(d, L, off, k + m, bytes - (k + m));
  }

  /** What was sent so far grows by the encryption of what the read returned. */
  lemma SectionStep(P: Primitives, md: Metadata, d: Disk, L: BlockLength, off: nat, k: nat, m: nat, bytes: nat)
    requires ReadError(d, L, off, k) == None && k + m <= bytes
    ensures var got, e := ReadBytes(d, L, off + k, m), ReadError(d, L, off + k, m);
            var now := ReadBytes(d, L, off, k + |got|);
            && Cipherbytes(P, md, 0, now) == Cipherbytes(P, md, 0, ReadBytes(d, L, off, k)) + Cipherbytes(P, md, k, got)
            && ReadError(d, L, off, k + |got|) == None
            && (e == None ==> |got| == m)
            && (e != None ==> ReadError(d, L, off, bytes) == e && ReadBytes(d, L, off, bytes) == now)
  {
    hide ReadBytes, ReadError, Xor, Random;
    SectionRead(d, L, off, k, m, bytes);
    XorConcat(P, Random(P, Seed(md), 0, KEY_SIZE), Random(P, Seed(md), KEY_SIZE, NONCE_SIZE), 0,
              ReadBytes(d, L, off, k), ReadBytes(d, L, off + k, m));
  }

  /** archiver.go: the media's section is read through the cipher in buffers of some size, and uploaded.
      A short block file ends the section like its end does; an absent one fails the upload.
      refused: the remote side fails it. unrecorded: the row update fails after it. */
  method Archive(P: Primitives, dl: Deeppool, cache: DirCache, md: Metadata, uploaded: Uuid, buffer: nat,
                 refused: bool, unrecorded: bool)
    returns (md': Metadata, err: Option<Error>)
    requires 0 < buffer
    modifies dl
    ensures var e := ReadError(cache.files, cache.blockLength, md.diskOffset, md.bytes);
            && (err == if e == Some(NotExist) then e
                       else if refused then Some(Remote(false)) else if unrecorded then Some(Query) else None)
            && md' == (if err == None then md.(archiveId := uploaded) else md)
            && dl.objects == (if e == Some(NotExist) || refused then old(dl.objects)
                              else old(dl.objects)[uploaded := Archived(P, cache.blockLength, cache.files, md)])
  {
    hide ReadBytes, ReadError, Xor, Random;
    var prng := new Prng(P, Seed(md));
    var src := NewReaderChaCha20(prng);
    ghost var d, L := cache.files, cache.blockLength;
    var sent, eof := [], None;
    EmptySection(P, md, d, L);
    while |sent| < md.bytes && eof == None
      invariant |sent| <= md.bytes && src.next == |sent|
      invariant sent == Cipherbytes(P, md, 0, ReadBytes(d, L, md.diskOffset, |sent|))
      invariant ReadError(d, L, md.diskOffset, |sent|) == None
      invariant eof != None ==> eof == ReadError(d, L, md.diskOffset, md.bytes)
      invariant eof != None ==> ReadBytes(d, L, md.diskOffset, |sent|) == ReadBytes(d, L, md.diskOffset, md.bytes)
      invariant dl.objects == old(dl.objects)
      decreases md.bytes - |sent|, eof == None
    {
      var p := new Byte[Min(buffer, md.bytes - |sent|)];
      SectionStep(P, md, d, L, md.diskOffset, |sent|, p.Length, md.bytes);
      var n: nat;
      n, eof := TryRead(cache, p, md.diskOffset + |sent|);
      var c := src.XORKeyStream(p[..n]);
      sent := sent + c;
    }
    if eof == Some(NotExist) {
      return md, eof;
    }
    if refused {
      return md, Some(Remote(false));
    }
    dl.objects := dl.objects[uploaded := sent];
    if unrecorded {
      return md, Some(Query);
    }
    return md.(archiveId := uploaded), None;
  }

  lemma EmptySection(P: Primitives, md: Metadata, d: Disk, L: BlockLength)
    ensures Cipherbytes(P, md, 0, ReadBytes(d, L, md.diskOffset, 0)) == [] && ReadError(d, L, md.diskOffset, 0) == None
  {
  }

  /** The link to the media's directory is resolved and the directory removed, file by file. linked: the link is
      there. stuck: the block files that cannot be removed. */
  method ReclaimDisk(cache: DirCache, linked: bool, stuck: set<nat>) returns (ok: bool)
    modifies cache`files
    ensures ok <==> linked && cache.files == map[]
    ensures !linked ==> cache.files == old(cache.files)
    ensures linked ==> cache.files.Keys == old(cache.files).Keys * stuck
    ensures forall b :: b in cache.files ==> cache.files[b] == old(cache.files)[b]
  {
    if !linked {
      return false;
    }
    var left := cache.files.Keys - stuck;
    while left != {}
      invariant cache.files.Keys == old(cache.files).Keys * stuck + left && left !! stuck
      invariant forall b :: b in cache.files ==> b in old(cache.files) && cache.files[b] == old(cache.files)[b]
      decreases left
    {
      var b :| b in left;
      cache.files := cache.files - {b};
      left := left - {b};
    }
    return cache.files == map[];
  }

  /** The whole trip on the objects: archive the media, remove its block files, open it again, which makes the
      directory anew, and read a range of one block back. */
  method RoundTrip(P: Primitives, dl: Deeppool, cache: DirCache, md: Metadata, n: nat, buffer: nat,
                   cuts: seq<nat>, off: nat, want: nat)
    returns (archived: bool, got: seq<Byte>, err: Option<Error>)
    requires 0 < buffer && md.diskOffset == 0 && InBlock(cache.blockLength, off, want)
    requires Sound(Env(P, dl.objects, cache.blockLength), md, off)
    modifies dl, cache`files
    ensures var d, L := old(cache.files), cache.blockLength;
            && (archived <==> ReadError(d, L, 0, md.bytes) != Some(NotExist))
            && (archived ==> (err == None <==> off + want <= |ReadBytes(d, L, 0, md.bytes)|))
            && (archived && err == None ==> got == ReadBytes(d, L, off, want) && |got| == want)
  {
    hide ReadBytes, ReadError, Quot, Rem, ReadThrough, Archived, BlockStart;
    ArchiveReclaimRead(Env(P, dl.objects, cache.blockLength), cache.files, md, n, cuts, off, want);
    var md', failed := Archive(P, dl, cache, md, Id(n), buffer, false, false);
    if failed != None {
      return false, [], failed;
    }
    var ok := ReclaimDisk(cache, true, {});
    assert cache.files == map[];
    var fallback := new Fallback(P, dl, cache);
    var p := new Byte[want];
    var m: nat;
    m, err := fallback.ReadAt(p, off, [], [Match(md', Transfer(cuts, Complete))], false);
    return true, p[..m], err;
  }
}
