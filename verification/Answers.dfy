/** What a read's answer tells its caller, and under whose key a media is archived. */
module Answers {
  import opened Common
  import opened BlockStore
  import opened Cryptox
  import opened Ranges
  import opened Retrieval

  // ----- errors -------------------------------------------------------------

  lemma PlainReads(env: Env, s: Local, off: nat, want: nat)
    ensures var o := Plain(env, s, off, want); Reads(s.files, env.L, off, want, o.got, o.err)
    ensures var e := Plain(env, s, off, want).err; e == None || e == Some(NotExist) || e == Some(EndOfFile)
  {
    ReadBytesReads(s.files, env.L, off, want);
  }

  /** A read is refused if and only if the latch was set and the first gap of its range is an absent block file. It
      then has the bytes before the gap, and changes nothing. */
  lemma RefusedExactly(env: Env, s: Local, off: nat, want: nat, others: seq<Other>, matches: seq<Match>, fails: bool)
    ensures var r := ReadThrough(env, s, off, want, others, matches, fails);
            && (r.err == Some(CacheUnrecoverable)
                <==> s.blocked && exists got :: Reads(s.files, env.L, off, want, got, Some(NotExist)))
            && (r.err == Some(CacheUnrecoverable) ==>
                  r.local == s && Reads(s.files, env.L, off, want, r.got, Some(NotExist)))
  {
    hide ReadBytes, ReadError, Reads, Waited, Refill, FetchError;
    PlainReads(env, s, off, want);
    PlainReads(env, Waited(env, s, others), off, want);
    RefillErrors(env, Waited(env, s, others), off, matches);
    PlainReads(env, Refill(env, Waited(env, s, others), off, matches).0, off, want);
    forall got | Reads(s.files, env.L, off, want, got, Some(NotExist))
      ensures ReadError(s.files, env.L, off, want) == Some(NotExist)
    {
      ReadsExactly(s.files, env.L, off, want, got, Some(NotExist));
    }
  }

  /** A download works if and only if the object is there and the transfer completes; it latches if and only if the
      object is there and the transfer fails unrecoverably. */
  lemma DownloadExactly(env: Env, s: Local, off: nat, m: Match)
    ensures var e := FetchError(env, m.md, m.transfer);
            var there := m.md.archiveId in env.objects;
            && (e == None <==> there && m.transfer.end.Complete?)
            && (Fetch(env, s, off, m).blocked <==> s.blocked || (there && m.transfer.end.Unrecoverable?))
            && (!there ==> Fetch(env, s, off, m) == s)
  {
    hide Written, Cipherbytes, CalculateBlockRange;
  }

  /** A failed row's error is that of its own download, and the latch is set if and only if it is unrecoverable. */
  lemma {:induction false} RefillErrors(env: Env, s: Local, off: nat, matches: seq<Match>)
    ensures var (s', e) := Refill(env, s, off, matches);
            && (e == None || e == Some(Remote(false)) || e == Some(Remote(true)))
            && (e != None ==> exists m :: m in matches && m.md.archiveId.Id? && FetchError(env, m.md, m.transfer) == e)
            && (s'.blocked <==> s.blocked || e == Some(Remote(true)))
    decreases |matches|
  {
    hide FetchFiles, CalculateBlockRange;
    if matches == [] {
    } else {
      assert matches == [matches[0]] + matches[1..];
      var next := if matches[0].md.archiveId.Id? then Fetch(env, s, off, matches[0]) else s;
      RefillErrors(env, next, off, matches[1..]);
    }
  }

  /** Every row of the lookup gets its turn until one fails: rows that come later meet what the earlier ones left. */
  lemma {:induction false} RowsInTurn(env: Env, s: Local, off: nat, a: seq<Match>, b: seq<Match>)
    ensures var (s', e) := Refill(env, s, off, a);
            Refill(env, s, off, a + b) == if e == None then Refill(env, s', off, b) else (s', e)
    decreases |a|
  {
    hide FetchError, Fetch;
    if a == [] {
      assert a + b == b;
    } else {
      assert (a + b)[1..] == a[1..] + b;
      RowsInTurn(env, if a[0].md.archiveId.Id? then Fetch(env, s, off, a[0]) else s, off, a[1..], b);
    }
  }

  /** A read that fails remotely has a row whose download failed so; an unrecoverable failure, and nothing else that
      the read does, sets the latch. */
  lemma RemoteExactly(env: Env, s: Local, off: nat, want: nat, others: seq<Other>, matches: seq<Match>, fails: bool)
    ensures var r := ReadThrough(env, s, off, want, others, matches, fails);
            && (forall x :: r.err == Some(Remote(x)) ==>
                  exists m :: m in matches && m.md.archiveId.Id? && FetchError(env, m.md, m.transfer) == r.err)
            && (r.err == Some(Remote(true)) ==> r.local.blocked)
            && (r.local.blocked && r.err != Some(Remote(true)) ==> s.blocked || Waited(env, s, others).blocked)
  {
    hide ReadBytes, ReadError, Waited, Refill, FetchError;
    PlainReads(env, s, off, want);
    PlainReads(env, Waited(env, s, others), off, want);
    RefillErrors(env, Waited(env, s, others), off, matches);
    PlainReads(env, Refill(env, Waited(env, s, others), off, matches).0, off, want);
  }

  /** Any other answer describes the files: those that the read leaves, or, when its lookup failed, those of its
      second look. A remote failure comes with the bytes of the second look. */
  lemma AnswersAreReads(env: Env, s: Local, off: nat, want: nat, others: seq<Other>, matches: seq<Match>, fails: bool)
    ensures var r := ReadThrough(env, s, off, want, others, matches, fails);
            var w := Waited(env, s, others);
            match r.err
            case Some(CacheUnrecoverable) => s.blocked
            case Some(Remote(_)) => r.got == ReadBytes(w.files, env.L, off, want)
            case _ =>
              || Reads(r.local.files, env.L, off, want, r.got, r.err)
              || (fails && Reads(w.files, env.L, off, want, r.got, r.err))
  {
    hide ReadBytes, ReadError, Reads, Waited, Refill, FetchError;
    var w := Waited(env, s, others);
    PlainReads(env, s, off, want);
    PlainReads(env, w, off, want);
    RefillErrors(env, Waited(env, s, others), off, matches);
    PlainReads(env, Refill(env, Waited(env, s, others), off, matches).0, off, want);
  }

  /** The second cache never shows a download's failure: its answer describes the files it leaves when its download
      works, and those of one of its two looks when it does not. */
  lemma ReaderAtAnswers(env: Env, s: Local, md: Metadata, off: nat, want: nat, others: seq<Other>, t: Transfer)
    ensures var r := ReaderAt(env, s, md, off, want, others, t);
            if FetchError(env, md, t) == None then Reads(r.local.files, env.L, off, want, r.got, r.err)
            else || Reads(s.files, env.L, off, want, r.got, r.err)
                 || Reads(Waited(env, s, others).files, env.L, off, want, r.got, r.err)
  {
    hide ReadBytes, ReadError, Reads, Waited, FetchFiles, FetchError, ModuloRange;
    var w := Waited(env, s, others);
    var range := ModuloRange(DEFAULT_BLOCK_LENGTH, md.diskOffset + off, md.diskOffset + md.bytes);
    PlainReads(env, s, off, want);
    PlainReads(env, w, off, want);
    PlainReads(env, w.(files := FetchFiles(env, w.files, md, range, t)), off, want);
  }

  /** The second cache's download is that of the block holding the media's disk offset plus the position asked for. */
  lemma ReaderAtFetches(env: Env, s: Local, md: Metadata, off: nat, want: nat, others: seq<Other>, t: Transfer, i: nat)
    requires Plain(env, s, off, want).err == Some(NotExist) && Plain(env, Waited(env, s, others), off, want).err != None
    requires md.archiveId in env.objects && t.end.Complete?
    requires var start := BlockStart(md.diskOffset + off, 33_554_432);
             start <= i < start + 33_554_432 && i < |env.objects[md.archiveId]|
             && i < md.diskOffset + md.bytes && start + 33_554_432 < TWO_64
    ensures At(ReaderAt(env, s, md, off, want, others, t).local.files, env.L, i) != None
  {
    hide ReadBytes, ReadError, Waited, At, BlockStart, Cipherbytes, Written, Quot, Rem, ModuloRange;
    var start := BlockStart(md.diskOffset + off, DEFAULT_BLOCK_LENGTH);
    var w := Waited(env, s, others);
    var range := ModuloRange(DEFAULT_BLOCK_LENGTH, md.diskOffset + off, md.diskOffset + md.bytes);
    ModuloCovers(md.diskOffset + off, md.diskOffset + md.bytes, i);
    var part := Clip(env.objects[md.archiveId], range.0, (range.0 + range.1) % TWO_64);
    assert |part| == Min(range.0 + range.1, |env.objects[md.archiveId]|) - range.0;
    var data := Cipherbytes(env.P, md, StartIndex(range.0), part[..Delivered(t, |part|)]);
    WrittenIsFlat(w.files, env.L, range.0, data, i);
  }

  lemma ModuloCovers(offset: nat, length: nat, i: nat)
    requires var start := BlockStart(offset, DEFAULT_BLOCK_LENGTH);
             start <= i < start + DEFAULT_BLOCK_LENGTH && i < length && start + DEFAULT_BLOCK_LENGTH < TWO_64
    ensures var r := ModuloRange(DEFAULT_BLOCK_LENGTH, offset, length);
            r.0 == BlockStart(offset, DEFAULT_BLOCK_LENGTH) && r.0 <= i < r.0 + r.1 < TWO_64
  {
    hide BlockStart, Rem, Quot;
    var start := BlockStart(offset, DEFAULT_BLOCK_LENGTH);
    EndRemainder(start, Min(DEFAULT_BLOCK_LENGTH, length - start), DEFAULT_BLOCK_LENGTH);
  }

  // ----- keys ---------------------------------------------------------------

  /** A media with an encryption seed is archived under it: its id plays no part. */
  lemma SeedDecides(P: Primitives, L: BlockLength, d: Disk, md: Metadata, id: Uuid)
    requires md.encryptionSeed != Nil
    ensures Archived(P, L, d, md) == Archived(P, L, d, md.(id := id))
  {
    hide ReadBytes, Xor, Random;
  }

  /** Without one, the id stands in for it. */
  lemma IdStandsIn(P: Primitives, L: BlockLength, d: Disk, md: Metadata)
    requires md.encryptionSeed == Nil
    ensures Archived(P, L, d, md) == Archived(P, L, d, md.(encryptionSeed := md.id))
  {
    hide ReadBytes, Xor, Random;
  }

  /** key and nonce are what the generator of seed gives first. */
  ghost predicate Drawn(P: Primitives, seed: Uuid, key: seq<Byte>, nonce: seq<Byte>) {
    && |key| == 32 && (forall k :: 0 <= k < 32 ==> key[k] == P.random(seed, k))
    && |nonce| == 12 && (forall k :: 0 <= k < 12 ==> nonce[k] == P.random(seed, 32 + k))
  }

  /** Byte i of the object is byte i of the media's section, combined with byte i % 64 of keystream block i / 64. */
  lemma ArchivedByte(P: Primitives, L: BlockLength, d: Disk, md: Metadata, key: seq<Byte>, nonce: seq<Byte>, i: nat)
    requires Drawn(P, if md.encryptionSeed == Nil then md.id else md.encryptionSeed, key, nonce)
    requires i < |Archived(P, L, d, md)|
    ensures At(d, L, md.diskOffset + i) != None
    ensures Archived(P, L, d, md)[i] == At(d, L, md.diskOffset + i).value ^ P.block(key, nonce, i / 64, i % 64)
  {
    hide ReadBytes, Xor, Random, At;
    var data := ReadBytes(d, L, md.diskOffset, md.bytes);
    ReadBytesReads(d, L, md.diskOffset, md.bytes);
    assert At(d, L, md.diskOffset + i) == Some(data[i]);
    DrawnIs(P, Seed(md), key, nonce);
    XorAt(P, key, nonce, 0, data, i);
  }

  lemma DrawnIs(P: Primitives, seed: Uuid, key: seq<Byte>, nonce: seq<Byte>)
    requires Drawn(P, seed, key, nonce)
    ensures Random(P, seed, 0, KEY_SIZE) == key && Random(P, seed, KEY_SIZE, NONCE_SIZE) == nonce
  {
    hide Random;
    forall k | 0 <= k < KEY_SIZE ensures Random(P, seed, 0, KEY_SIZE)[k] == key[k] {
      RandomAt(P, seed, 0, KEY_SIZE, k);
    }
    forall k | 0 <= k < NONCE_SIZE ensures Random(P, seed, KEY_SIZE, NONCE_SIZE)[k] == nonce[k] {
      RandomAt(P, seed, KEY_SIZE, NONCE_SIZE, k);
    }
  }

  /** How long the object is: all of the section that is readable. */
  lemma ArchivedLength(P: Primitives, L: BlockLength, d: Disk, md: Metadata)
    ensures var n := |Archived(P, L, d, md)|;
            && n <= md.bytes && (forall j :: md.diskOffset <= j < md.diskOffset + n ==> At(d, L, j) != None)
            && (n < md.bytes ==> At(d, L, md.diskOffset + n) == None)
  {
    hide ReadBytes, Xor, Random, At;
    ReadBytesReads(d, L, md.diskOffset, md.bytes);
    var data := ReadBytes(d, L, md.diskOffset, md.bytes);
    forall j | md.diskOffset <= j < md.diskOffset + |data| ensures At(d, L, j) != None {
      assert At(d, L, j) == Some(data[j - md.diskOffset]);
    }
  }
}
