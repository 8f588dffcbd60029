/** `TStreamingCityHash64`: the hash of a buffer that arrives in pieces. */
module CityStream {
  import opened City

  /** Everything cut into pieces, put together again. */
  function Joined(chunks: seq<seq<bv8>>): seq<bv8> {
    if chunks == [] then [] else chunks[0] + Joined(chunks[1..])
  }

  /** How many bytes are carried over, and which: what has been fed after the last whole block. */
  ghost predicate Carried(fed: seq<bv8>, done: nat, rest: nat, buf: seq<bv8>, size: nat) {
    && size <= |buf| && 64 * done <= |fed|
    && (rest > 0 ==> size < 64 && 64 * done + size == |fed| && buf[..size] == fed[64 * done..])
  }

  lemma CarriedFacts(fed: seq<bv8>, done: nat, rest: nat, buf: seq<bv8>, size: nat)
    requires Carried(fed, done, rest, buf, size) && rest > 0
    ensures size < 64 && 64 * done + size == |fed|
  {
  }

  /** Nothing more is carried after the last block. */
  lemma CarriedDone(fed: seq<bv8>, s: seq<bv8>, done: nat, buf: seq<bv8>, size: nat)
    requires Carried(fed, done, 0, buf, size)
    ensures Carried(fed + s, done, 0, buf, size)
  {
  }

  lemma CarryMore(fed: seq<bv8>, s: seq<bv8>, done: nat, rest: nat, was: seq<bv8>, buf: seq<bv8>, size: nat)
    requires Carried(fed, done, rest, was, size) && rest > 0
    requires size + |s| < 64 == |buf| && buf[..size + |s|] == was[..size] + s
    ensures Carried(fed + s, done, rest, buf, size + |s|)
  {
    assert (fed + s)[64 * done..] == fed[64 * done..] + s;
  }

  /** A full carry buffer holds the next block. */
  lemma FullBuffer(fed: seq<bv8>, s: seq<bv8>, done: nat, rest: nat, was: seq<bv8>, buf: seq<bv8>, size: nat)
    requires Carried(fed, done, rest, was, size) && rest > 0
    requires |buf| == 64 && size + |s| >= 64 && buf[..64] == was[..size] + s[0..64 - size]
    ensures 64 * done + 64 <= |fed + s| && SameBlock(fed + s, 64 * done, buf, 0)
  {
    var n := 64 - size;
    assert (fed + s)[64 * done..64 * done + 64] == fed[64 * done..] + s[0..n];
  }

  /** A block inside a chunk is the same block of everything. */
  lemma ChunkBlock(fed: seq<bv8>, s: seq<bv8>, at: nat, p: nat)
    requires p == |fed| + at && at + 64 <= |s|
    ensures SameBlock(fed + s, p, s, at)
  {
    assert (fed + s)[p..p + 64] == s[at..at + 64];
  }

  lemma MixNext(start: State, all: seq<bv8>, k: nat, t: seq<bv8>, q: nat)
    requires SameBlock(all, 64 * k, t, q)
    ensures 64 * (k + 1) <= |all| && Blocks(start, all, k + 1) == Mix(Blocks(start, all, k), t, q)
  {
    hide Mix;
    MixLocal(Blocks(start, all, k), all, 64 * k, t, q);
  }

  /** What is left of a chunk behind the last whole block. */
  lemma CarryLast(fed: seq<bv8>, s: seq<bv8>, at: nat, done: nat, rest: nat, buf: seq<bv8>, size: nat)
    requires at <= |s| && |buf| == 64 && size < 64 && 64 * done <= |fed + s|
    requires rest > 0 ==> 64 * done == |fed| + at && size == |s| - at && buf[..size] == s[at..]
    ensures Carried(fed + s, done, rest, buf, size)
  {
    if rest > 0 { assert (fed + s)[64 * done..] == s[at..]; }
  }

  class Hasher {
    var st: State
    const unalignBuf: array<bv8>
    var unalignBufSize: nat
    var rest: nat

    /** Everything that was ever fed, the state before that and the number of blocks to take. */
    ghost var fed: seq<bv8>
    ghost const start: State
    ghost const total: nat

    /** Whole blocks are mixed in at once; at most 63 bytes are carried over. */
    ghost predicate Valid()
      reads this, unalignBuf
    {
      && unalignBuf.Length == 64 && rest <= total
      && Carried(fed, total - rest, rest, unalignBuf[..], unalignBufSize)
      && st == Blocks(start, fed, total - rest)
      && unalignBufSize < 64
    }

    constructor (len: nat, head: seq<bv8>, tail: seq<bv8>)
      requires 64 < len < SIZE_LIMIT && |head| == 64 && |tail| == 64
      ensures Valid() && fed == [] && fresh(unalignBuf)
      ensures start == Start(len, head, tail, 0) && total == (len - 1) / 64
    {
      hide Start;
      st := Start(len, head, tail, 0);
      rest := (len - 1) / 64;
      unalignBufSize := 0;
      unalignBuf := new bv8[64];
      fed := [];
      start := Start(len, head, tail, 0);
      total := (len - 1) / 64;
    }

    /** `memcpy` into the carry buffer, inside its bounds */
    method Carry(s: seq<bv8>, from: nat, n: nat)
      requires unalignBuf.Length == 64 && unalignBufSize + n <= 64 && from + n <= |s|
      modifies unalignBuf
      ensures unalignBuf[..unalignBufSize + n] == old(unalignBuf[..unalignBufSize]) + s[from..from + n]
    {
      var i := 0;
      while i < n
        invariant 0 <= i <= n
        invariant unalignBuf[..unalignBufSize + i] == old(unalignBuf[..unalignBufSize]) + s[from..from + i]
      {
        unalignBuf[unalignBufSize + i] := s[from + i];
        assert unalignBuf[..unalignBufSize + i + 1] == unalignBuf[..unalignBufSize + i] + [s[from + i]];
        i := i + 1;
      }
    }

    method Process(s: seq<bv8>)
      requires Valid()
      modifies this, unalignBuf
      ensures Valid() && fed == old(fed) + s
    {
      hide Mix, Carried, Blocks, SameBlock;
      ghost var fed0, all, was := fed, fed + s, unalignBuf[..];
      ghost var done, size := total - rest, unalignBufSize;
      CarriedFits(fed0, done, rest, was, size);
      BlocksOfPrefix(start, fed0, s, done);
      fed := all;
      if rest == 0 {
        CarriedDone(fed0, s, done, was, size);
        return;
      }
      CarriedFacts(fed0, done, rest, was, size);
      var at, avail := 0, |s|;
      if unalignBufSize > 0 {
        if unalignBufSize + avail < 64 {
          Carry(s, 0, avail);
          assert s[0..avail] == s;
          CarryMore(fed0, s, done, rest, was, unalignBuf[..], size);
          unalignBufSize := unalignBufSize + avail;
          return;
        }
        at := TopUp(s, fed0);
        avail := avail - at;
      }
      at, avail := Whole(s, at, avail, fed0);
      KeepRest(s, at, avail, fed0);
    }

    /** The carry buffer is filled up and mixed in. */
    method TopUp(s: seq<bv8>, ghost fed0: seq<bv8>) returns (at: nat)
      requires unalignBuf.Length == 64 && fed == fed0 + s && 0 < rest <= total
      requires 0 < unalignBufSize < 64 <= unalignBufSize + |s|
      requires Carried(fed0, total - rest, rest, unalignBuf[..], unalignBufSize)
      requires 64 * (total - rest) <= |fed| && st == Blocks(start, fed, total - rest)
      modifies this`st, this`rest, this`unalignBufSize, unalignBuf
      ensures at <= |s| && rest <= total && unalignBufSize == 0
      ensures |fed0| + at == 64 * (total - rest) <= |fed| && st == Blocks(start, fed, total - rest)
    {
      hide Mix, Carried, Blocks, SameBlock;
      ghost var done, was := total - rest, unalignBuf[..];
      CarriedFacts(fed0, done, rest, was, unalignBufSize);
      at := 64 - unalignBufSize;
      Carry(s, 0, at);
      FullBuffer(fed0, s, done, rest, was, unalignBuf[..], unalignBufSize);
      MixNext(start, fed, done, unalignBuf[..], 0);
      st := Mix(st, unalignBuf[..], 0);
      rest := rest - 1;
      unalignBufSize := 0;
    }

    /** What follows the last whole block is kept for the next call. */
    method KeepRest(s: seq<bv8>, at: nat, avail: nat, ghost fed0: seq<bv8>)
      requires unalignBuf.Length == 64 && unalignBufSize == 0
      requires fed == fed0 + s && rest <= total && at + avail == |s| && (rest == 0 || avail < 64)
      requires |fed0| + at == 64 * (total - rest) <= |fed| && st == Blocks(start, fed, total - rest)
      modifies this`unalignBufSize, unalignBuf
      ensures Valid()
    {
      hide Mix, Carried, Blocks;
      if rest > 0 && avail > 0 {
        Carry(s, at, avail);
        unalignBufSize := avail;
      }
      CarryLast(fed0, s, at, total - rest, rest, unalignBuf[..], unalignBufSize);
    }

    /** The loop over the whole blocks of a chunk */
    method Whole(s: seq<bv8>, at0: nat, avail0: nat, ghost fed0: seq<bv8>) returns (at: nat, avail: nat)
      requires fed == fed0 + s && rest <= total && at0 + avail0 == |s|
      requires |fed0| + at0 == 64 * (total - rest) <= |fed| && st == Blocks(start, fed, total - rest)
      modifies this`st, this`rest
      ensures rest <= total && at + avail == |s|
      ensures |fed0| + at == 64 * (total - rest) <= |fed| && st == Blocks(start, fed, total - rest)
      ensures rest == 0 || avail < 64
    {
      hide Mix, Blocks, SameBlock;
      at, avail := at0, avail0;
      while rest > 0 && avail >= 64
        invariant rest <= total && at + avail == |s|
        invariant |fed0| + at == 64 * (total - rest) <= |fed| && st == Blocks(start, fed, total - rest)
        decreases avail
      {
        ChunkBlock(fed0, s, at, 64 * (total - rest));
        MixNext(start, fed, total - rest, s, at);
        st := Mix(st, s, at);
        at, avail, rest := at + 64, avail - 64, rest - 1;
      }
    }

    /** `operator()`: once enough is fed for every block, the rest does not matter. */
    method Result() returns (h: Word)
      requires Valid()
      ensures |fed| >= 64 * total ==> h == Finish(Blocks(start, fed, total))
    {
      hide Mix, Finish;
      h := Finish(st);
    }
  }

  lemma CarriedFits(fed: seq<bv8>, done: nat, rest: nat, buf: seq<bv8>, size: nat)
    requires Carried(fed, done, rest, buf, size)
    ensures 64 * done <= |fed|
  {
  }

  /** Feeding a buffer of more than 64 bytes, cut in any way, gives the one-shot hash of it. */
  method HashInPieces(ghost s: seq<bv8>, len: nat, head64: seq<bv8>, tail64: seq<bv8>, chunks: seq<seq<bv8>>)
    returns (h: Word)
    requires 64 < len == |s| < SIZE_LIMIT && head64 == s[..64] && tail64 == s[len - 64..]
    requires Joined(chunks) == s
    ensures h == LongHash(s)
  {
    hide Mix, Finish, Start, Hasher.Valid;
    var hasher := new Hasher(len, head64, tail64);
    assert s[len - 64..len] == tail64[0..64] && head64[..8] == s[..8];
    StartLocal(s, head64, tail64);
    var i := 0;
    assert chunks[0..] == chunks;
    while i < |chunks|
      invariant 0 <= i <= |chunks| && hasher.Valid() && fresh(hasher) && fresh(hasher.unalignBuf)
      invariant s == hasher.fed + Joined(chunks[i..])
    {
      assert hasher.fed + (chunks[i] + Joined(chunks[i + 1..])) == hasher.fed + chunks[i] + Joined(chunks[i + 1..]);
      hasher.Process(chunks[i]);
      i := i + 1;
    }
    assert hasher.fed == s;
    h := hasher.Result();
  }
}
