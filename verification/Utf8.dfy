/** UTF-8, one character at a time: the two readers and the two writers.

`CharLen` is the grammar of section 4 of RFC 3629, written down without reference to how the
readers work.  Bit masks and shifts are quotients and remainders; `LeadMasks` and `BitPacking` show
on machine words that the two are the same.
*/
module Utf8 {

  type Byte = n: int | 0 <= n < 0x100 witness 0

  /** A `wchar32`. */
  type Rune = n: int | 0 <= n < 0x1_0000_0000 witness 0

  const BROKEN_RUNE: Rune := 0xFFFD

  datatype RecodeResult = Ok | EndOfInput | BrokenSymbol | EndOfOutput

  /** A Unicode scalar value: what UTF-8 can encode. */
  predicate IsScalar(r: int) {
    0 <= r <= 0x10FFFF && !IsSurrogate(r)
  }

  predicate IsSurrogate(r: int) {
    0xD800 <= r <= 0xDFFF
  }

  // ---------------------------------------------------------------- section 4 of RFC 3629

  predicate Tail(b: Byte) {
    0x80 <= b <= 0xBF
  }

  /** How long the character at the start of `s` is; 0 if there is none. */
  function CharLen(s: seq<Byte>): (n: nat)
    ensures n <= |s| && n <= 4
  {
    if |s| >= 1 && s[0] <= 0x7F then 1
    else if |s| >= 2 && 0xC2 <= s[0] <= 0xDF && Tail(s[1]) then 2
    else if |s| >= 3 && Tail(s[2]) &&
            (|| (s[0] == 0xE0 && 0xA0 <= s[1] <= 0xBF)
             || (0xE1 <= s[0] <= 0xEC && Tail(s[1]))
             || (s[0] == 0xED && 0x80 <= s[1] <= 0x9F)
             || (0xEE <= s[0] <= 0xEF && Tail(s[1]))) then 3
    else if |s| >= 4 && Tail(s[2]) && Tail(s[3]) &&
            (|| (s[0] == 0xF0 && 0x90 <= s[1] <= 0xBF)
             || (0xF1 <= s[0] <= 0xF3 && Tail(s[1]))
             || (s[0] == 0xF4 && 0x80 <= s[1] <= 0x8F)) then 4
    else 0
  }

  /** A surrogate, written as if it were a character. */
  predicate EncodedSurrogate(s: seq<Byte>) {
    |s| >= 3 && s[0] == 0xED && 0xA0 <= s[1] <= 0xBF && Tail(s[2])
  }

  /** What a reader accepts at the start of `s`: the grammar, and unless strict also surrogates. */
  function Accepted(strict: bool, s: seq<Byte>): (n: nat)
    ensures n <= |s| && n <= 4
  {
    if !strict && EncodedSurrogate(s) then 3 else CharLen(s)
  }

  // ---------------------------------------------------------------- bits

  /** `UTF8RuneLen`: the length announced by the first byte. */
  function RuneLen(lead: Byte): nat {
    if lead / 0x80 == 0 then 1
    else if lead / 0x20 == 6 then 2
    else if lead / 0x10 == 14 then 3
    else if lead / 8 == 30 then 4
    else 0
  }

  /** `IsUTF8ContinuationByte` */
  predicate IsContinuation(b: Byte) {
    b / 0x40 == 2
  }

  /** `(rune << 6) | (c & 0x3F)`, in 32 bits */
  function SixMore(rune: Rune, c: Byte): Rune {
    (rune * 0x40 + c % 0x40) % 0x1_0000_0000
  }

  lemma LeadMasks(b: bv8)
    ensures b & 0x80 == 0 <==> b / 0x80 == 0
    ensures b & 0xe0 == 0xc0 <==> b / 0x20 == 6
    ensures b & 0xf0 == 0xe0 <==> b / 0x10 == 14
    ensures b & 0xf8 == 0xf0 <==> b / 8 == 30
    ensures b & 0xc0 == 0x80 <==> b / 0x40 == 2
    ensures b & 0x1f == b % 0x20 && b & 0x0f == b % 0x10 && b & 0x07 == b % 8 && b & 0x3f == b % 0x40
  {
  }

  lemma BitPacking(rune: bv32, c: bv32)
    requires c < 0x40
    ensures (rune << 6) | c == rune * 0x40 + c
    ensures rune & 0x3f == rune % 0x40 && (rune >> 6) == rune / 0x40
    ensures rune < 0x800 ==> 0xC0 | (rune >> 6) == 0xC0 + rune / 0x40
    ensures 0x80 | (rune & 0x3f) == 0x80 + rune % 0x40
  {
  }

  /** The bytes written for more than two. */
  lemma LongPacking(rune: bv32)
    ensures rune < 0x10000 ==> 0xE0 | (rune >> 12) == 0xE0 + rune / 0x1000
    ensures 0xF0 | ((rune >> 18) & 0x07) == 0xF0 + (rune / 0x40000) % 8
    ensures 0x80 | ((rune >> 12) & 0x3f) == 0x80 + (rune / 0x1000) % 0x40
    ensures 0x80 | ((rune >> 6) & 0x3f) == 0x80 + (rune / 0x40) % 0x40
  {
  }

  // ---------------------------------------------------------------- writing

  /** The bytes the writers produce. */
  function Encode(r: Rune): (s: seq<Byte>)
    ensures 1 <= |s| <= 4
  {
    if r < 0x80 then [r]
    else if r < 0x800 then [0xC0 + r / 0x40, 0x80 + r % 0x40]
    else if r < 0x10000 then [0xE0 + r / 0x1000, 0x80 + (r / 0x40) % 0x40, 0x80 + r % 0x40]
    else [0xF0 + (r / 0x40000) % 8, 0x80 + (r / 0x1000) % 0x40, 0x80 + (r / 0x40) % 0x40, 0x80 + r % 0x40]
  }

  /** The low `m` values of a byte, as a number. */
  function Low(b: Byte, m: int): (n: int)
    requires m > 0
    ensures 0 <= n < m
  {
    b % m
  }

  /** The rune in the first `n` bytes. */
  function RuneOf(s: seq<Byte>, n: nat): Rune
    requires 1 <= n <= 4 && n <= |s|
  {
    if n == 1 then s[0]
    else if n == 2 then Low(s[0], 0x20) * 0x40 + Low(s[1], 0x40)
    else if n == 3 then Low(s[0], 0x10) * 0x1000 + Low(s[1], 0x40) * 0x40 + Low(s[2], 0x40)
    else Low(s[0], 8) * 0x40000 + Low(s[1], 0x40) * 0x1000 + Low(s[2], 0x40) * 0x40 + Low(s[3], 0x40)
  }

  lemma SplitThree(a: int, b: int, c: int)
    requires 0 <= a && 0 <= b < 0x40 && 0 <= c < 0x40
    ensures var r := a * 0x1000 + b * 0x40 + c; r / 0x1000 == a && (r / 0x40) % 0x40 == b && r % 0x40 == c
  {
    var r := a * 0x1000 + b * 0x40 + c;
    assert r / 0x40 == a * 0x40 + b;
  }

  lemma SplitFour(a: int, b: int, c: int, d: int)
    requires 0 <= a && 0 <= b < 0x40 && 0 <= c < 0x40 && 0 <= d < 0x40
    ensures var r := a * 0x40000 + b * 0x1000 + c * 0x40 + d;
            r / 0x40000 == a && (r / 0x1000) % 0x40 == b && (r / 0x40) % 0x40 == c && r % 0x40 == d
  {
    SplitThree(a * 0x40 + b, c, d);
  }

  lemma Two(x: Byte, y: Byte)
    requires 0xC0 <= x <= 0xDF && Tail(y)
    ensures var r := Low(x, 0x20) * 0x40 + Low(y, 0x40);
            && 0 <= r < 0x800 && (r >= 0x80 <==> x >= 0xC2)
            && (r >= 0x80 ==> Encode(r) == [x, y])
  {
    assert Low(x, 0x20) == x - 0xC0 && Low(y, 0x40) == y - 0x80;
  }

  lemma Three(x: Byte, y: Byte, z: Byte)
    requires 0xE0 <= x <= 0xEF && Tail(y) && Tail(z)
    ensures var r := Low(x, 0x10) * 0x1000 + Low(y, 0x40) * 0x40 + Low(z, 0x40);
            && 0 <= r < 0x10000
            && (r >= 0x800 <==> x > 0xE0 || y >= 0xA0)
            && (IsSurrogate(r) <==> x == 0xED && y >= 0xA0)
            && (r >= 0x800 ==> Encode(r) == [x, y, z])
  {
    SplitThree(x - 0xE0, y - 0x80, z - 0x80);
    assert Low(x, 0x10) == x - 0xE0 && Low(y, 0x40) == y - 0x80 && Low(z, 0x40) == z - 0x80;
  }

  lemma FourInRange(a: int, b: int, c: int, d: int)
    requires 0 <= a < 8 && 0 <= b < 0x40 && 0 <= c < 0x40 && 0 <= d < 0x40
    ensures var r := a * 0x40000 + b * 0x1000 + c * 0x40 + d;
            && 0 <= r < 0x200000 && (r >= 0x10000 <==> a > 0 || b >= 0x10)
            && (r <= 0x10FFFF <==> a < 4 || (a == 4 && b < 0x10))
  {
  }

  lemma EncodeFour(a: int, b: int, c: int, d: int)
    requires 0 <= a < 8 && 0 <= b < 0x40 && 0 <= c < 0x40 && 0 <= d < 0x40
    ensures var r := a * 0x40000 + b * 0x1000 + c * 0x40 + d;
            0x10000 <= r < 0x200000 ==> Encode(r) == [0xF0 + a, 0x80 + b, 0x80 + c, 0x80 + d]
  {
    SplitFour(a, b, c, d);
  }

  lemma Four(x: Byte, y: Byte, z: Byte, t: Byte)
    requires 0xF0 <= x <= 0xF7 && Tail(y) && Tail(z) && Tail(t)
    ensures var r := Low(x, 8) * 0x40000 + Low(y, 0x40) * 0x1000 + Low(z, 0x40) * 0x40 + Low(t, 0x40);
            && 0 <= r < 0x200000
            && (r >= 0x10000 <==> x > 0xF0 || y >= 0x90)
            && (r <= 0x10FFFF <==> x < 0xF4 || (x == 0xF4 && y < 0x90))
            && (r >= 0x10000 ==> Encode(r) == [x, y, z, t])
  {
    assert Low(x, 8) == x - 0xF0 && Low(y, 0x40) == y - 0x80 && Low(z, 0x40) == z - 0x80 && Low(t, 0x40) == t - 0x80;
    hide Low, Encode;
    FourInRange(x - 0xF0, y - 0x80, z - 0x80, t - 0x80);
    EncodeFour(x - 0xF0, y - 0x80, z - 0x80, t - 0x80);
  }

  /** Writing the rune of an accepted sequence reproduces its bytes. */
  lemma EncodeDecode(s: seq<Byte>)
    ensures var n := Accepted(false, s);
            n > 0 ==>
              && Encode(RuneOf(s, n)) == s[..n]
              && RuneOf(s, n) <= 0x10FFFF
              && (IsScalar(RuneOf(s, n)) <==> CharLen(s) > 0)
  {
    hide Low, Encode;
    var n := Accepted(false, s);
    if n == 1 {
      One(s[0]);
    } else if n == 2 {
      Two(s[0], s[1]);
    } else if n == 3 {
      Three(s[0], s[1], s[2]);
    } else if n == 4 {
      Four(s[0], s[1], s[2], s[3]);
    }
  }

  lemma One(x: Byte)
    ensures x < 0x80 ==> Encode(x) == [x]
  {
  }

  /** The first bytes determine the character, whatever follows. */
  lemma CharLenOfPrefix(s: seq<Byte>, rest: seq<Byte>)
    ensures Accepted(false, s) == |s| > 0 ==> Accepted(false, s + rest) == |s| && RuneOf(s + rest, |s|) == RuneOf(s, |s|)
    ensures CharLen(s) == |s| > 0 ==> CharLen(s + rest) == |s| && RuneOf(s + rest, |s|) == RuneOf(s, |s|)
  {
    hide Low;
    assert forall i | 0 <= i < |s| :: (s + rest)[i] == s[i];
  }

  /** Every scalar value is written as a character of the grammar, and is read back, whatever
      follows it. */
  lemma DecodeEncode(r: Rune, rest: seq<Byte>)
    requires IsScalar(r)
    ensures CharLen(Encode(r) + rest) == |Encode(r)|
    ensures RuneOf(Encode(r) + rest, |Encode(r)|) == r
  {
    hide Encode, CharLen, RuneOf;
    if r < 0x800 {
      SmallEncode(r);
    } else if r < 0x10000 {
      MediumEncode(r);
    } else {
      LargeEncode(r);
    }
    CharLenOfPrefix(Encode(r), rest);
  }

  lemma MediumEncode(r: Rune)
    requires 0x800 <= r < 0x10000 && !IsSurrogate(r)
    ensures CharLen(Encode(r)) == 3 == |Encode(r)| && RuneOf(Encode(r), 3) == r
  {
    ThreeBytes(r);
    var e := Encode(r);
    assert Low(e[0], 0x10) == r / 0x1000 && Low(e[1], 0x40) == (r / 0x40) % 0x40 && Low(e[2], 0x40) == r % 0x40;
  }

  lemma SmallEncode(r: Rune)
    requires r < 0x800
    ensures CharLen(Encode(r)) == |Encode(r)| && RuneOf(Encode(r), |Encode(r)|) == r
  {
  }

  lemma LargeEncode(r: Rune)
    requires 0x10000 <= r <= 0x10FFFF
    ensures CharLen(Encode(r)) == 4 == |Encode(r)| && RuneOf(Encode(r), 4) == r
  {
    FourBytes(r);
    var e := Encode(r);
    assert Low(e[0], 8) == r / 0x40000 && Low(e[1], 0x40) == (r / 0x1000) % 0x40;
    assert Low(e[2], 0x40) == (r / 0x40) % 0x40 && Low(e[3], 0x40) == r % 0x40;
  }

  lemma ThreeBytes(r: Rune)
    requires 0x800 <= r < 0x10000
    ensures var a, b, c := r / 0x1000, (r / 0x40) % 0x40, r % 0x40;
            && 0 <= a < 0x10 && r == a * 0x1000 + b * 0x40 + c
            && (a == 0 ==> b >= 0x20) && (a == 13 ==> (b >= 0x20 <==> IsSurrogate(r)))
  {
  }

  lemma FourBytes(r: Rune)
    requires 0x10000 <= r <= 0x10FFFF
    ensures var a, b, c, d := r / 0x40000, (r / 0x1000) % 0x40, (r / 0x40) % 0x40, r % 0x40;
            && 0 <= a <= 4 && r == a * 0x40000 + b * 0x1000 + c * 0x40 + d
            && (a == 0 ==> b >= 0x10) && (a == 4 ==> b < 0x10)
  {
    var q := r / 0x40;
    Nested(r);
    assert r == q * 0x40 + r % 0x40 && q == q / 0x40 * 0x40 + q % 0x40;
    assert q / 0x40 == q / 0x40 / 0x40 * 0x40 + q / 0x40 % 0x40;
  }

  lemma Nested(r: int)
    ensures r / 0x1000 == r / 0x40 / 0x40 && r / 0x40000 == r / 0x40 / 0x40 / 0x40
  {
    assert r / 0x1000 == r / 0x40 / 0x40;
    assert r / 0x40000 == r / 0x1000 / 0x40;
  }

  /** What the writers produce for a surrogate is what a reader that is not strict takes for one. */
  lemma SurrogateEncode(r: Rune, rest: seq<Byte>)
    requires IsSurrogate(r)
    ensures EncodedSurrogate(Encode(r) + rest) && |Encode(r)| == 3 && RuneOf(Encode(r) + rest, 3) == r
  {
    ThreeBytes(r);
  }

  /** The examples of section 7 of RFC 3629 that need two, three and four bytes. */
  lemma KnownCharacters()
    ensures Encode(0x41) == [0x41] && Encode(0x391) == [0xCE, 0x91]
    ensures Encode(0x2262) == [0xE2, 0x89, 0xA2] && Encode(0x233B4) == [0xF0, 0xA3, 0x8E, 0xB4]
    ensures RuneOf([0xCE, 0x91], 2) == 0x391 && RuneOf([0xE2, 0x89, 0xA2], 3) == 0x2262
    ensures RuneOf([0xF0, 0xA3, 0x8E, 0xB4], 4) == 0x233B4
  {
  }
}
