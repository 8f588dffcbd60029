/** `DoIsStringASCII`: a machine word at a time, between an unaligned start and an unaligned end.

A kind of character is its size, the mask of the bits that no ASCII character has, how a character
is widened to a word and how a word is loaded.  Two kinds are shown to be lawful: signed 8-bit
characters, which are sign-extended, and 16-bit ones.
*/
module AsciiScan {

  const WORD: nat := 8

  datatype Kind<!T> = Kind(size: nat, mask: bv64, widen: T -> bv64, load: seq<T> -> bv64, ascii: T -> bool)

  ghost predicate AllAscii<T>(k: Kind<T>, s: seq<T>) {
    forall i | 0 <= i < |s| :: k.ascii(s[i])
  }

  /** The mask tells ASCII from the rest, on a widened character and on a loaded word. */
  ghost predicate Lawful<T(!new)>(k: Kind<T>) {
    && (k.size == 1 || k.size == 2)
    && (forall c: T :: Clean(k.mask, k.widen(c)) <==> k.ascii(c))
    && (forall w: seq<T> | |w| * k.size == WORD :: Clean(k.mask, k.load(w)) <==> AllAscii(k, w))
  }

  /** None of the masked bits is set. */
  predicate Clean(mask: bv64, w: bv64) {
    w & mask == 0
  }

  function Or(a: bv64, b: bv64): bv64 {
    a | b
  }

  lemma OrWords(m: bv64, a: bv64, b: bv64)
    ensures (a | b) & m == 0 <==> a & m == 0 && b & m == 0
  {
    Distributes(m, a, b);
    OrZero(a & m, b & m);
  }

  lemma Distributes(m: bv64, a: bv64, b: bv64)
    ensures (a | b) & m == (a & m) | (b & m)
  {
  }

  lemma OrZero(a: bv64, b: bv64)
    ensures a | b == 0 <==> a == 0 && b == 0
  {
  }

  lemma CleanWords(m: bv64, a: bv64, b: bv64)
    ensures Clean(m, a | b) <==> (a | b) & m == 0
    ensures Clean(m, a) <==> a & m == 0
    ensures Or(a, b) == a | b
  {
  }

  /** Collecting bits keeps exactly what is clean. */
  lemma CleanOr(m: bv64, a: bv64, b: bv64)
    ensures Clean(m, Or(a, b)) <==> Clean(m, a) && Clean(m, b)
  {
    hide Clean, Or;
    OrWords(m, a, b);
    CleanWords(m, a, b);
    CleanWords(m, b, a);
  }

  lemma AllAsciiConcat<T>(k: Kind<T>, a: seq<T>, b: seq<T>)
    ensures AllAscii(k, a + b) <==> AllAscii(k, a) && AllAscii(k, b)
  {
    if AllAscii(k, a + b) {
      assert forall i | 0 <= i < |a| :: a[i] == (a + b)[i];
      assert forall i | 0 <= i < |b| :: b[i] == (a + b)[|a| + i];
    }
  }

  /** `DoIsStringASCIISlow` */
  method IsAsciiSlow<T(!new)>(s: seq<T>, k: Kind<T>) returns (ok: bool)
    ensures ok <==> AllAscii(k, s)
  {
    var i := 0;
    while i != |s|
      invariant 0 <= i <= |s| && AllAscii(k, s[..i])
      decreases |s| - i
    {
      if !k.ascii(s[i]) { return false; }
      assert s[..i + 1] == s[..i] + [s[i]];
      i := i + 1;
    }
    assert s[..i] == s;
    return true;
  }

  /** The bits collected from the characters in front of `i`. */
  ghost predicate Collected<T>(k: Kind<T>, s: seq<T>, i: nat, bits: bv64) {
    i <= |s| && (Clean(k.mask, bits) <==> AllAscii(k, s[..i]))
  }

  lemma CollectOne<T(!new)>(k: Kind<T>, s: seq<T>, i: nat, bits: bv64)
    requires Lawful(k) && Collected(k, s, i, bits) && i < |s|
    ensures Collected(k, s, i + 1, Or(bits, k.widen(s[i])))
  {
    hide Clean, Or;
    CleanOr(k.mask, bits, k.widen(s[i]));
    assert s[..i + 1] == s[..i] + [s[i]];
    AllAsciiConcat(k, s[..i], [s[i]]);
    assert AllAscii(k, [s[i]]) <==> k.ascii(s[i]);
  }

  lemma CollectWord<T(!new)>(k: Kind<T>, s: seq<T>, i: nat, n: nat, bits: bv64)
    requires Lawful(k) && Collected(k, s, i, bits) && i + n <= |s| && n * k.size == WORD
    ensures Collected(k, s, i + n, Or(bits, k.load(s[i..i + n])))
  {
    hide Clean, Or, AllAscii;
    var w := s[i..i + n];
    CleanOr(k.mask, bits, k.load(w));
    assert s[..i + n] == s[..i] + w;
    AllAsciiConcat(k, s[..i], w);
  }

  /** An answer of no is final. */
  lemma NotAscii<T>(k: Kind<T>, s: seq<T>, i: nat, bits: bv64)
    requires Collected(k, s, i, bits) && !Clean(k.mask, bits)
    ensures !AllAscii(k, s)
  {
    assert s == s[..i] + s[i..];
    AllAsciiConcat(k, s[..i], s[i..]);
  }

  lemma CollectedAll<T>(k: Kind<T>, s: seq<T>, bits: bv64)
    requires Collected(k, s, |s|, bits)
    ensures Clean(k.mask, bits) <==> AllAscii(k, s)
  {
    assert s[..|s|] == s;
  }

  lemma CollectNone<T>(k: Kind<T>, s: seq<T>)
    ensures Collected(k, s, 0, 0)
  {
    MaskZero(k.mask);
  }

  lemma MaskZero(m: bv64)
    ensures (0 as bv64) & m == 0
  {
  }

  /** Whole words up to the last aligned address: each lies inside the string. */
  lemma WordInside(address: nat, i: nat, size: nat, len: nat)
    requires size == 1 || size == 2
    requires (address + i * size) % WORD == 0 && i <= len
    requires address + i * size < (address + len * size) / WORD * WORD
    ensures i + WORD / size <= len && WORD / size * size == WORD
    ensures (address + (i + WORD / size) * size) % WORD == 0
  {
    NextWord(address + i * size, address + len * size);
  }

  lemma NextWord(first: nat, last: nat)
    requires first % WORD == 0 && first < last / WORD * WORD
    ensures first + WORD <= last && (first + WORD) % WORD == 0
  {
    assert first == first / WORD * WORD;
  }

  /** `DoIsStringASCII`, for a string at `address` */
  method IsAscii<T(!new)>(s: seq<T>, address: nat, k: Kind<T>) returns (ok: bool)
    requires Lawful(k)
    ensures ok <==> AllAscii(k, s)
  {
    hide Collected, Clean, Or, Lawful, AllAscii;
    var slow := |s| < 10;
    if slow {
      ok := IsAsciiSlow(s, k);
      return;
    }
    SizePositive(k);
    var bits: bv64 := 0;
    var first := 0;
    CollectNone(k, s);
    while (address + first * k.size) % WORD != 0 && first != |s|
      invariant 0 <= first <= |s| && Collected(k, s, first, bits)
      decreases |s| - first
    {
      CollectOne(k, s, first, bits);
      bits := Or(bits, k.widen(s[first]));
      first := first + 1;
    }
    var wordEnd := (address + |s| * k.size) / WORD * WORD;
    var increment := WORD / k.size;
    while address + first * k.size < wordEnd
      invariant 0 <= first <= |s| && Collected(k, s, first, bits)
      invariant first == |s| || (address + first * k.size) % WORD == 0
      decreases |s| - first
    {
      WordInside(address, first, k.size, |s|);
      CollectWord(k, s, first, increment, bits);
      bits := Or(bits, k.load(s[first..first + increment]));
      first := first + increment;
      if !Clean(k.mask, bits) {
        NotAscii(k, s, first, bits);
        return false;
      }
    }
    while first != |s|
      invariant 0 <= first <= |s| && Collected(k, s, first, bits)
      decreases |s| - first
    {
      CollectOne(k, s, first, bits);
      bits := Or(bits, k.widen(s[first]));
      first := first + 1;
    }
    CollectedAll(k, s, bits);
    return Clean(k.mask, bits);
  }

  lemma SizePositive<T(!new)>(k: Kind<T>)
    requires Lawful(k)
    ensures k.size == 1 || k.size == 2
  {
  }

  // ---------------------------------------------------------------- the two kinds

  /** A signed `char` is sign-extended. */
  function WidenChar(c: bv8): bv64 {
    if c >= 0x80 then (c as bv64) | 0xffff_ffff_ffff_ff00 else c as bv64
  }

  function LoadChars(a: bv8, b: bv8, c: bv8, d: bv8, e: bv8, f: bv8, g: bv8, h: bv8): bv64 {
    (a as bv64) | ((b as bv64) << 8) | ((c as bv64) << 16) | ((d as bv64) << 24) |
    ((e as bv64) << 32) | ((f as bv64) << 40) | ((g as bv64) << 48) | ((h as bv64) << 56)
  }

  function LoadWides(a: bv16, b: bv16, c: bv16, d: bv16): bv64 {
    (a as bv64) | ((b as bv64) << 16) | ((c as bv64) << 32) | ((d as bv64) << 48)
  }

  function WidenWide(c: bv16): bv64 {
    c as bv64
  }

  function CharWord(w: seq<bv8>): bv64 {
    if |w| == 8 then LoadChars(w[0], w[1], w[2], w[3], w[4], w[5], w[6], w[7]) else 0
  }

  function WideWord(w: seq<bv16>): bv64 {
    if |w| == 4 then LoadWides(w[0], w[1], w[2], w[3]) else 0
  }

  predicate IsAsciiChar(c: bv8) {
    c <= 0x7f
  }

  predicate IsAsciiWide(c: bv16) {
    c <= 0x7f
  }

  const CHARS: Kind<bv8> :=
    Kind(1, 0x8080_8080_8080_8080, WidenChar,
         CharWord, IsAsciiChar)

  const WIDES: Kind<bv16> :=
    Kind(2, 0xff80_ff80_ff80_ff80, WidenWide,
         WideWord, IsAsciiWide)

  lemma CharBits(c: bv8)
    ensures WidenChar(c) & 0x8080_8080_8080_8080 == 0 <==> c <= 0x7f
  {
  }

  lemma CharWordBits(a: bv8, b: bv8, c: bv8, d: bv8, e: bv8, f: bv8, g: bv8, h: bv8)
    ensures LoadChars(a, b, c, d, e, f, g, h) & 0x8080_8080_8080_8080 == 0 <==>
            a <= 0x7f && b <= 0x7f && c <= 0x7f && d <= 0x7f && e <= 0x7f && f <= 0x7f && g <= 0x7f && h <= 0x7f
  {
  }

  lemma WideBits(c: bv16)
    ensures WidenWide(c) & 0xff80_ff80_ff80_ff80 == 0 <==> c <= 0x7f
  {
  }

  lemma WideWordBits(a: bv16, b: bv16, c: bv16, d: bv16)
    ensures LoadWides(a, b, c, d) & 0xff80_ff80_ff80_ff80 == 0 <==> a <= 0x7f && b <= 0x7f && c <= 0x7f && d <= 0x7f
  {
  }

  lemma CharsLawful()
    ensures Lawful(CHARS)
  {
    hide WidenChar, LoadChars;
    forall c: bv8 ensures Clean(CHARS.mask, CHARS.widen(c)) <==> CHARS.ascii(c) {
      CharBits(c);
    }
    forall w: seq<bv8> | |w| * CHARS.size == WORD ensures Clean(CHARS.mask, CHARS.load(w)) <==> AllAscii(CHARS, w) {
      CharWordBits(w[0], w[1], w[2], w[3], w[4], w[5], w[6], w[7]);
    }
  }

  lemma WidesLawful()
    ensures Lawful(WIDES)
  {
    hide WidenWide, LoadWides;
    forall c: bv16 ensures Clean(WIDES.mask, WIDES.widen(c)) <==> WIDES.ascii(c) {
      WideBits(c);
    }
    forall w: seq<bv16> | |w| * WIDES.size == WORD ensures Clean(WIDES.mask, WIDES.load(w)) <==> AllAscii(WIDES, w) {
      WideWordBits(w[0], w[1], w[2], w[3]);
    }
  }

  /** Both scans of 8-bit and of 16-bit text agree, at every address. */
  method CharScansAgree(s: seq<bv8>, address: nat) returns (fast: bool, slow: bool)
    ensures fast == slow && (fast <==> forall i | 0 <= i < |s| :: s[i] <= 0x7f)
  {
    CharsLawful();
    fast := IsAscii(s, address, CHARS);
    slow := IsAsciiSlow(s, CHARS);
  }

  method WideScansAgree(s: seq<bv16>, address: nat) returns (fast: bool, slow: bool)
    ensures fast == slow && (fast <==> forall i | 0 <= i < |s| :: s[i] <= 0x7f)
  {
    WidesLawful();
    fast := IsAscii(s, address, WIDES);
    slow := IsAsciiSlow(s, WIDES);
  }
}
