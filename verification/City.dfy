/** CityHash64: the mixing functions and the one-shot hash.

Words are 64-bit machine words; loads are little-endian and must lie inside their buffer.  The
state is advanced a block of 64 bytes at a time; `Blocks` folds the step over the first blocks of a
buffer.
*/
module City {

  type Word = bv64

  const K0: Word := 0xc3a5c85c97cb3127
  const K1: Word := 0xb492b66fbe98f273
  const K2: Word := 0x9ae16a3b2f90404f
  const K3: Word := 0xc949d7c7509e6557
  const K_MUL: Word := 0x9ddfea08eb382d69

  const SIZE_LIMIT: nat := 0x1_0000_0000_0000_0000

  datatype Pair = Pair(first: Word, second: Word)

  datatype State = State(x: Word, y: Word, z: Word, v: Pair, w: Pair)

  // ---------------------------------------------------------------- loads

  function FourBytes(a: bv8, b: bv8, c: bv8, d: bv8): Word {
    (a as Word) | ((b as Word) << 8) | ((c as Word) << 16) | ((d as Word) << 24)
  }

  function EightBytes(low: Word, high: Word): Word {
    low | (high << 32)
  }

  function Load32(s: seq<bv8>, at: nat): Word
    requires at + 4 <= |s|
  {
    FourBytes(s[at], s[at + 1], s[at + 2], s[at + 3])
  }

  function Load64(s: seq<bv8>, at: nat): Word
    requires at + 8 <= |s|
  {
    EightBytes(Load32(s, at), Load32(s, at + 4))
  }

  /** The eight words of the 64 bytes at `at`. */
  function Words(s: seq<bv8>, at: nat): (c: seq<Word>)
    requires at + 64 <= |s|
    ensures |c| == 8
  {
    [Load64(s, at), Load64(s, at + 8), Load64(s, at + 16), Load64(s, at + 24),
     Load64(s, at + 32), Load64(s, at + 40), Load64(s, at + 48), Load64(s, at + 56)]
  }

  // ---------------------------------------------------------------- mixing

  function Rotate(val: Word, shift: Word): Word
    requires shift < 64
  {
    if shift == 0 then val else (val >> shift) | (val << (64 - shift))
  }

  function ShiftMix(val: Word): Word {
    val ^ (val >> 47)
  }

  /** `Hash128to64` */
  function HashLen16(u: Word, v: Word): Word {
    var a := ShiftMix((u ^ v) * K_MUL);
    ShiftMix((v ^ a) * K_MUL) * K_MUL
  }

  function WeakHash(w: Word, x: Word, y: Word, z: Word, a0: Word, b0: Word): Pair {
    var c := a0 + w;
    var b := Rotate(b0 + c + z, 21);
    var a := c + x + y;
    Pair(a + z, b + Rotate(a, 44) + c)
  }

  // ---------------------------------------------------------------- short inputs

  /** 1 to 3 bytes: the first, the middle and the last */
  function MixBytes(a: bv8, b: bv8, c: bv8, len: Word): Word {
    var y := (a as Word) + ((b as Word) << 8);
    var z := len + ((c as Word) << 2);
    ShiftMix((y * K2) ^ (z * K3)) * K2
  }

  /** 4 to 8 bytes: the first and the last four */
  function MixHalves(a: Word, b: Word, len: Word): Word {
    HashLen16(len + (a << 3), b)
  }

  /** 9 to 16 bytes: the first and the last eight */
  function MixEnds(a: Word, b: Word, len: Word): Word
    requires len < 64
  {
    HashLen16(a, Rotate(b + len, len)) ^ b
  }

  function HashLen0to16(s: seq<bv8>): Word
    requires |s| <= 16
  {
    var len := |s| as Word;
    if |s| > 8 then MixEnds(Load64(s, 0), Load64(s, |s| - 8), len)
    else if |s| >= 4 then MixHalves(Load32(s, 0), Load32(s, |s| - 4), len)
    else if |s| > 0 then MixBytes(s[0], s[|s| / 2], s[|s| - 1], len)
    else K2
  }

  /** The first two words and the last two */
  function MixFour(first: Word, b: Word, last: Word, before: Word, len: Word): Word {
    var a := first * K1;
    var c := last * K2;
    var d := before * K0;
    HashLen16(Rotate(a - b, 43) + Rotate(c, 30) + d, a + Rotate(b ^ K3, 20) - c + len)
  }

  function HashLen17to32(s: seq<bv8>): Word
    requires 17 <= |s| <= 32
  {
    MixFour(Load64(s, 0), Load64(s, 8), Load64(s, |s| - 8), Load64(s, |s| - 16), |s| as Word)
  }

  /** One half of 33 to 64 bytes: a sum to start from, the last word and two more */
  function MixHalf(a: Word, z: Word, second: Word, third: Word): Pair {
    var a1 := a + second;
    var a2 := a1 + third;
    Pair(a2 + z, Rotate(a + z, 52) + Rotate(a2, 31) + (Rotate(a, 37) + Rotate(a1, 7)))
  }

  function MixBoth(v: Pair, w: Pair): Word {
    var r := ShiftMix((v.first + w.second) * K2 + (w.first + v.second) * K0);
    ShiftMix(r * K0 + v.second) * K2
  }

  /** What the first half starts from, and the second. */
  function FirstSum(first: Word, before: Word, len: Word): Word {
    first + (len + before) * K0
  }

  function SecondSum(third: Word, fourth: Word): Word {
    third + fourth
  }

  function HashLen33to64(s: seq<bv8>): Word
    requires 33 <= |s| <= 64
  {
    var a := FirstSum(Load64(s, 0), Load64(s, |s| - 16), |s| as Word);
    var v := MixHalf(a, Load64(s, 24), Load64(s, 8), Load64(s, 16));
    var e := SecondSum(Load64(s, 16), Load64(s, |s| - 32));
    var w := MixHalf(e, Load64(s, |s| - 8), Load64(s, |s| - 24), Load64(s, |s| - 16));
    MixBoth(v, w)
  }

  // ---------------------------------------------------------------- long inputs

  /** The state before the first block, from the length, the first word and the last eight. */
  function StartWords(n: Word, first: Word, c: seq<Word>): State
    requires |c| == 8
  {
    var y := c[6] ^ K1;
    var v := WeakHash(c[0], c[1], c[2], c[3], n, y);
    var w := WeakHash(c[4], c[5], c[6], c[7], n * K1, K0);
    var z := (c[1] ^ K0) + ShiftMix(v.second) * K1;
    State(Rotate(z + first, 39) * K1, Rotate(y, 33) * K1, z, v, w)
  }

  function Start(len: nat, head: seq<bv8>, tail: seq<bv8>, at: nat): State
    requires len < SIZE_LIMIT && |head| >= 8 && at + 64 <= |tail|
  {
    StartWords(len as Word, Load64(head, 0), Words(tail, at))
  }

  /** A block of eight words is mixed in. */
  function MixWords(st: State, c: seq<Word>): State
    requires |c| == 8
  {
    var x := (Rotate(st.x + st.y + st.v.first + c[2], 37) * K1) ^ st.w.second;
    var y := (Rotate(st.y + st.v.second + c[6], 42) * K1) ^ st.v.first;
    var z := Rotate(st.z ^ st.w.first, 33);
    var v := WeakHash(c[0], c[1], c[2], c[3], st.v.second * K1, x + st.w.first);
    var w := WeakHash(c[4], c[5], c[6], c[7], z + st.w.second, y);
    State(z, y, x, v, w)
  }

  function Mix(st: State, s: seq<bv8>, at: nat): State
    requires at + 64 <= |s|
  {
    MixWords(st, Words(s, at))
  }

  function Finish(st: State): Word {
    HashLen16(HashLen16(st.v.first, st.w.first) + ShiftMix(st.y) * K1 + st.z,
              HashLen16(st.v.second, st.w.second) + st.x)
  }

  /** The first `k` blocks of `s`. */
  function Blocks(st: State, s: seq<bv8>, k: nat): State
    requires 64 * k <= |s|
  {
    if k == 0 then st else Mix(Blocks(st, s, k - 1), s, 64 * (k - 1))
  }

  /** What is hashed of a buffer of more than 64 bytes: its ends, then all but the last 1 to 64. */
  function LongHash(s: seq<bv8>): Word
    requires 64 < |s| < SIZE_LIMIT
  {
    Finish(Blocks(Start(|s|, s, s, |s| - 64), s, (|s| - 1) / 64))
  }

  /** `CityHash64` */
  method CityHash64(s: seq<bv8>) returns (h: Word)
    requires |s| < SIZE_LIMIT
    ensures |s| > 64 ==> h == LongHash(s)
    ensures |s| <= 64 ==> h == if |s| <= 16 then HashLen0to16(s) else if |s| <= 32 then HashLen17to32(s) else HashLen33to64(s)
  {
    hide Mix, Start, Finish, HashLen0to16, HashLen17to32, HashLen33to64;
    if |s| <= 32 {
      if |s| <= 16 { return HashLen0to16(s); } else { return HashLen17to32(s); }
    } else if |s| <= 64 {
      return HashLen33to64(s);
    }
    var st := Start(|s|, s, s, |s| - 64);
    ghost var st0 := st;
    var at, len := 0, (|s| - 1) / 64 * 64;
    st := Mix(st, s, at);
    at, len := at + 64, len - 64;
    assert Blocks(st0, s, 1) == Mix(Blocks(st0, s, 0), s, 0);
    ghost var k := 1;
    while len != 0
      invariant 0 <= len && at == 64 * k && len == (|s| - 1) / 64 * 64 - at
      invariant at <= |s| && st == Blocks(st0, s, k)
      decreases len
    {
      st := Mix(st, s, at);
      at, len, k := at + 64, len - 64, k + 1;
    }
    return Finish(st);
  }

  // ---------------------------------------------------------------- locality

  lemma Slice<T>(s: seq<T>, p: nat, n: nat, at: nat, m: nat)
    requires p + n <= |s| && at + m <= n
    ensures s[p..p + n][at..at + m] == s[p + at..p + at + m]
  {
    var inner, outer := s[p..p + n][at..at + m], s[p + at..p + at + m];
    forall i | 0 <= i < m ensures inner[i] == outer[i] {
      assert s[p..p + n][at + i] == s[p + (at + i)];
    }
  }

  lemma SameByte(s: seq<bv8>, p: nat, t: seq<bv8>, q: nat, i: nat)
    requires p + 8 <= |s| && q + 8 <= |t| && s[p..p + 8] == t[q..q + 8] && i < 8
    ensures s[p + i] == t[q + i]
  {
    assert s[p + i] == s[p..p + 8][i] && t[q + i] == t[q..q + 8][i];
  }

  lemma SameLoad(s: seq<bv8>, p: nat, t: seq<bv8>, q: nat)
    requires p + 8 <= |s| && q + 8 <= |t| && s[p..p + 8] == t[q..q + 8]
    ensures Load64(s, p) == Load64(t, q)
  {
    hide FourBytes, EightBytes;
    SameByte(s, p, t, q, 0);
    SameByte(s, p, t, q, 1);
    SameByte(s, p, t, q, 2);
    SameByte(s, p, t, q, 3);
    SameByte(s, p, t, q, 4);
    SameByte(s, p, t, q, 5);
    SameByte(s, p, t, q, 6);
    SameByte(s, p, t, q, 7);
  }

  /** The 64 bytes of `s` at `p` are those of `t` at `q`. */
  ghost predicate SameBlock(s: seq<bv8>, p: nat, t: seq<bv8>, q: nat) {
    p + 64 <= |s| && q + 64 <= |t| && s[p..p + 64] == t[q..q + 64]
  }

  lemma SameWord(s: seq<bv8>, p: nat, t: seq<bv8>, q: nat, at: nat)
    requires SameBlock(s, p, t, q) && at + 8 <= 64
    ensures Load64(s, p + at) == Load64(t, q + at)
  {
    hide Load64;
    Slice(s, p, 64, at, 8);
    Slice(t, q, 64, at, 8);
    SameLoad(s, p + at, t, q + at);
  }

  /** A block's words depend on its 64 bytes only, not on the buffer they are in. */
  lemma SameWords(s: seq<bv8>, p: nat, t: seq<bv8>, q: nat)
    requires SameBlock(s, p, t, q)
    ensures Words(s, p) == Words(t, q)
  {
    hide Load64;
    SameWord(s, p, t, q, 0);
    SameWord(s, p, t, q, 8);
    SameWord(s, p, t, q, 16);
    SameWord(s, p, t, q, 24);
    SameWord(s, p, t, q, 32);
    SameWord(s, p, t, q, 40);
    SameWord(s, p, t, q, 48);
    SameWord(s, p, t, q, 56);
  }

  lemma MixLocal(st: State, s: seq<bv8>, p: nat, t: seq<bv8>, q: nat)
    requires SameBlock(s, p, t, q)
    ensures Mix(st, s, p) == Mix(st, t, q)
  {
    hide Words, MixWords;
    SameWords(s, p, t, q);
  }

  /** The state before the first block depends on the first eight and the last 64 bytes only. */
  lemma StartLocal(s: seq<bv8>, head: seq<bv8>, tail: seq<bv8>)
    requires 64 < |s| < SIZE_LIMIT && |head| >= 8 && head[..8] == s[..8] && SameBlock(s, |s| - 64, tail, 0)
    ensures Start(|s|, head, tail, 0) == Start(|s|, s, s, |s| - 64)
  {
    hide Words, StartWords, Load64;
    SameWords(s, |s| - 64, tail, 0);
    SameLoad(head, 0, s, 0);
  }

  lemma {:induction false} BlocksOfPrefix(st: State, s: seq<bv8>, more: seq<bv8>, k: nat)
    requires 64 * k <= |s|
    ensures Blocks(st, s + more, k) == Blocks(st, s, k)
  {
    hide Mix;
    if k > 0 {
      BlocksOfPrefix(st, s, more, k - 1);
      var at := 64 * (k - 1);
      assert (s + more)[at..at + 64] == s[at..at + 64];
      MixLocal(Blocks(st, s, k - 1), s, at, s + more, at);
    }
  }
}
