/** Robust decoding followed by `WideToUTF8`, a character at a time and with the bytes written out. */
module Utf16Recode {
  import opened Utf8
  import opened Utf8Text
  import opened Utf16

  lemma SymbolsStep(u: seq<Unit>, n: nat, r: Rune)
    requires u != [] && n == SymbolSize(u) && r == ReadSymbol(u)
    ensures EncodeAll(Symbols(u)) == Encode(r) + EncodeAll(Symbols(u[n..]))
  {
    hide ReadSymbol, Encode, SymbolSize;
    var rs := Symbols(u);
    assert rs[0] == r && rs[1..] == Symbols(u[n..]);
  }

  /** A character stays as it is. */
  lemma RecodeCharacter(b: seq<Byte>)
    requires CharLen(b) > 0
    ensures Recode(b) == b[..CharLen(b)] + Recode(b[CharLen(b)..])
  {
    hide CharLen, Units, ReadSymbol, Encode, RuneOf, SymbolSize;
    var n := CharLen(b);
    StrictAccepted(b);
    EncodeDecode(b);
    var r, rest := RuneOf(b, n), WideOf(true, b[n..]);
    WriteRead(r, rest);
    var u := Units(r) + rest;
    assert u[|Units(r)|..] == rest;
    SymbolsStep(u, |Units(r)|, r);
  }

  /** A byte that starts no character, not even a surrogate written as one, becomes the three bytes of
      U+FFFD. */
  lemma RecodeBroken(b: seq<Byte>)
    requires b != [] && CharLen(b) == 0 && !EncodedSurrogate(b)
    ensures Recode(b) == [0xEF, 0xBF, 0xBD] + Recode(b[1..])
  {
    hide CharLen, Encode, RuneOf, Units;
    var u := WideOf(true, b);
    assert u[0] == 0xFFFD && u[1..] == WideOf(true, b[1..]);
    hide WideOf, EncodeAll, Symbols;
    SymbolsStep(u, 1, 0xFFFD);
    Replacement();
  }

  /** Only a written trail surrogate is decoded to something that starts with one. */
  lemma TrailFirst(b: seq<Byte>)
    ensures WideOf(true, b) != [] && IsTrail(WideOf(true, b)[0]) <==> EncodedSurrogate(b) && b[1] >= 0xB0
  {
    hide Units;
    if b != [] {
      if EncodedSurrogate(b) {
        SurrogateUnit(b);
      } else if CharLen(b) > 0 {
        StrictAccepted(b);
        EncodeDecode(b);
        ScalarFirst(RuneOf(b, CharLen(b)));
      }
    }
  }

  lemma ScalarFirst(r: Rune)
    requires IsScalar(r)
    ensures !IsTrail(Units(r)[0])
  {
  }

  /** The unit of a written surrogate. */
  function Surrogate(b: seq<Byte>): (u: int)
    requires EncodedSurrogate(b)
    ensures 0xD800 <= u <= 0xDFFF && (u >= 0xDC00 <==> b[1] >= 0xB0)
  {
    var x: int, y: int := b[1], b[2];
    0xD800 + (x - 0xA0) * 0x40 + (y - 0x80)
  }

  lemma SurrogateUnit(b: seq<Byte>)
    requires EncodedSurrogate(b)
    ensures WideOf(true, b) == [Surrogate(b)] + WideOf(true, b[3..])
  {
  }

  /** A surrogate written as a character becomes U+FFFD too, unless it is a lead surrogate and a trail
      surrogate is written behind it: the two become the one character they stand for. */
  lemma RecodeSurrogate(b: seq<Byte>)
    requires EncodedSurrogate(b)
    ensures var rest := b[3..];
            Recode(b) ==
            if Surrogate(b) < 0xDC00 && EncodedSurrogate(rest) && Surrogate(rest) >= 0xDC00
            then Encode(0x10000 + (Surrogate(b) - 0xD800) * 0x400 + (Surrogate(rest) - 0xDC00)) + Recode(b[6..])
            else [0xEF, 0xBF, 0xBD] + Recode(rest)
  {
    hide Encode, WideOf, EncodeAll, Symbols;
    var u, rest := WideOf(true, b), b[3..];
    SurrogateUnit(b);
    TrailFirst(rest);
    assert u[0] == Surrogate(b) && u[1..] == WideOf(true, rest);
    if Surrogate(b) < 0xDC00 && EncodedSurrogate(rest) && Surrogate(rest) >= 0xDC00 {
      SurrogateUnit(rest);
      assert u[1] == Surrogate(rest) && rest[3..] == b[6..] && u[2..] == WideOf(true, b[6..]);
      PairValue(u[0], u[1]);
      SymbolsStep(u, 2, FromPair(u[0], u[1]));
    } else {
      SymbolsStep(u, 1, 0xFFFD);
      Replacement();
    }
  }

  lemma Replacement()
    ensures Encode(0xFFFD) == [0xEF, 0xBF, 0xBD]
  {
  }

  /** What is no scalar is written as U+FFFD in UTF-16, except a surrogate. */
  lemma WrittenBroken(r: Rune)
    ensures Units(r) == [0xFFFD] <==> r == 0xFFFD || r > 0x10FFFF
  {
  }
}
