/** UTF-16 and its conversion from and to UTF-8.

A `wchar16` buffer may hold anything: a surrogate that is not half of a pair is read as the broken
rune.
*/
module Utf16 {
  import opened Utf8
  import opened Utf8Text

  type Unit = n: int | 0 <= n < 0x10000 witness 0

  // ---------------------------------------------------------------- one symbol

  predicate IsLead(u: Unit) {
    0xD800 <= u <= 0xDBFF
  }

  predicate IsTrail(u: Unit) {
    0xDC00 <= u <= 0xDFFF
  }

  predicate StartsWithPair(u: seq<Unit>) {
    |u| > 1 && IsLead(u[0]) && IsTrail(u[1])
  }

  /** `W16SymbolSize` */
  function SymbolSize(u: seq<Unit>): (n: nat)
    requires u != []
    ensures 1 <= n <= 2 && n <= |u|
  {
    if StartsWithPair(u) then 2 else 1
  }

  /** `ReadSurrogatePair`: the offset wraps around in 32 bits. */
  function FromPair(lead: Unit, trail: Unit): Rune {
    (lead * 0x400 + trail + (0x10000 - 0xD800 * 0x400 - 0xDC00) % 0x1_0000_0000) % 0x1_0000_0000
  }

  /** `ReadSymbol` */
  function ReadSymbol(u: seq<Unit>): Rune
    requires u != []
  {
    if IsLead(u[0]) then
      if |u| > 1 && IsTrail(u[1]) then FromPair(u[0], u[1]) else BROKEN_RUNE
    else if IsTrail(u[0]) then BROKEN_RUNE
    else u[0]
  }

  /** `WriteSymbol` */
  function Units(r: Rune): (u: seq<Unit>)
    ensures 1 <= |u| <= 2
  {
    if r > 0xFFFF then
      if r >= 0x110000 then [BROKEN_RUNE] else [0xD7C0 + r / 0x400, 0xDC00 + r % 0x400]
    else [r]
  }

  lemma PairValue(lead: Unit, trail: Unit)
    requires IsLead(lead) && IsTrail(trail)
    ensures FromPair(lead, trail) == 0x10000 + (lead - 0xD800) * 0x400 + (trail - 0xDC00)
  {
  }

  /** Whatever is read is a scalar; it was written as it would be written again, unless it was a
      stray surrogate. */
  lemma ReadIsScalar(u: seq<Unit>)
    requires u != []
    ensures IsScalar(ReadSymbol(u))
    ensures Units(ReadSymbol(u)) == u[..SymbolSize(u)] <==> StartsWithPair(u) || !IsSurrogate(u[0])
    ensures ReadSymbol(u) >= 0x10000 <==> StartsWithPair(u)
  {
    if StartsWithPair(u) { PairValue(u[0], u[1]); }
    hide FromPair;
  }

  /** A scalar that is written is read back, whatever follows it. */
  lemma WriteRead(r: Rune, rest: seq<Unit>)
    requires IsScalar(r)
    ensures SymbolSize(Units(r) + rest) == |Units(r)| && ReadSymbol(Units(r) + rest) == r
  {
    if r > 0xFFFF { PairValue(0xD7C0 + r / 0x400, 0xDC00 + r % 0x400); }
    hide FromPair;
  }

  // ---------------------------------------------------------------- whole texts

  function Symbols(u: seq<Unit>): seq<Rune> {
    if u == [] then [] else [ReadSymbol(u)] + Symbols(u[SymbolSize(u)..])
  }

  function UnitsAll(rs: seq<Rune>): seq<Unit> {
    if rs == [] then [] else Units(rs[0]) + UnitsAll(rs[1..])
  }

  /** Every surrogate is half of a pair. */
  predicate WellFormed(u: seq<Unit>) {
    u == [] || ((StartsWithPair(u) || !IsSurrogate(u[0])) && WellFormed(u[SymbolSize(u)..]))
  }

  /** Reading never yields anything but scalars. */
  lemma {:induction false} SymbolsAreScalar(u: seq<Unit>)
    ensures AllScalar(Symbols(u))
    decreases |u|
  {
    if u != [] {
      ReadIsScalar(u);
      SymbolsAreScalar(u[SymbolSize(u)..]);
      AllScalarCons(Symbols(u));
    }
  }

  /** What is written for scalars is well formed and is read back. */
  lemma {:induction false} WriteReadAll(rs: seq<Rune>)
    requires AllScalar(rs)
    ensures Symbols(UnitsAll(rs)) == rs && WellFormed(UnitsAll(rs))
    decreases |rs|
  {
    if rs != [] {
      var u, rest := UnitsAll(rs), UnitsAll(rs[1..]);
      AllScalarCons(rs);
      WriteReadAll(rs[1..]);
      WriteRead(rs[0], rest);
      assert u[|Units(rs[0])|..] == rest;
    }
  }

  /** A text is what would be written for its symbols exactly when it is well formed. */
  lemma {:induction false} ReadWriteAll(u: seq<Unit>)
    ensures UnitsAll(Symbols(u)) == u <==> WellFormed(u)
    decreases |u|
  {
    if UnitsAll(Symbols(u)) == u {
      SymbolsAreScalar(u);
      WriteReadAll(Symbols(u));
    }
    if WellFormed(u) && u != [] {
      var n := SymbolSize(u);
      ReadIsScalar(u);
      ReadWriteAll(u[n..]);
      assert u == u[..n] + u[n..];
    }
  }

  /** `IsValidUTF16` */
  method IsValid(u: seq<Unit>) returns (ok: bool)
    ensures ok <==> BROKEN_RUNE !in Symbols(u)
  {
    var b := 0;
    assert u[0..] == u;
    while b < |u|
      invariant 0 <= b <= |u|
      invariant BROKEN_RUNE in Symbols(u) <==> BROKEN_RUNE in Symbols(u[b..])
    {
      var symbol := ReadSymbol(u[b..]);
      if symbol == BROKEN_RUNE { return false; }
      assert u[b..][SymbolSize(u[b..])..] == u[b + SymbolSize(u[b..])..];
      b := b + SymbolSize(u[b..]);
    }
    return true;
  }

  lemma InEither(u: seq<Unit>, n: nat, x: Unit)
    requires n <= |u|
    ensures x in u <==> x in u[..n] || x in u[n..]
  {
    assert u == u[..n] + u[n..];
  }

  /** Only a replacement character, or a stray surrogate, reads as one. */
  lemma InFirst(u: seq<Unit>)
    requires u != []
    ensures ReadSymbol(u) == BROKEN_RUNE <==> BROKEN_RUNE in u[..SymbolSize(u)] || (IsSurrogate(u[0]) && !StartsWithPair(u))
  {
    ReadIsScalar(u);
    hide FromPair;
    assert u[..1] == [u[0]];
    if |u| > 1 { assert u[..2] == [u[0], u[1]]; }
  }

  /** It therefore also rejects well-formed text that contains the replacement character itself. */
  lemma {:induction false} ValidMeans(u: seq<Unit>)
    ensures BROKEN_RUNE !in Symbols(u) <==> WellFormed(u) && BROKEN_RUNE !in u
    decreases |u|
  {
    if u != [] {
      ValidMeans(u[SymbolSize(u)..]);
      ReadIsScalar(u);
      var n := SymbolSize(u);
      InEither(u, n, BROKEN_RUNE);
      InFirst(u);
    }
  }

  lemma ReplacementIsRejected()
    ensures WellFormed([BROKEN_RUNE]) && BROKEN_RUNE in Symbols([BROKEN_RUNE])
  {
    assert [BROKEN_RUNE][1..] == [];
    assert Symbols([BROKEN_RUNE])[0] == BROKEN_RUNE;
  }

  // ---------------------------------------------------------------- from UTF-8

  /** What decoding `b` writes: a robust decoder puts the replacement character for a byte that
      starts no character, the other one stops there. */
  function WideOf(robust: bool, b: seq<Byte>): seq<Unit> {
    var n := Accepted(false, b);
    if b == [] then []
    else if n > 0 then Units(RuneOf(b, n)) + WideOf(robust, b[n..])
    else if robust then [BROKEN_RUNE] + WideOf(robust, b[1..])
    else []
  }

  /** How many bytes decoding `b` consumes. */
  function Consumed(robust: bool, b: seq<Byte>): (k: nat)
    ensures k <= |b|
  {
    var n := Accepted(false, b);
    if b == [] then 0
    else if n > 0 then n + Consumed(robust, b[n..])
    else if robust then 1 + Consumed(robust, b[1..])
    else 0
  }

  lemma {:induction false} RobustConsumesAll(b: seq<Byte>)
    ensures Consumed(true, b) == |b|
    decreases |b|
  {
    if b != [] { RobustConsumesAll(b[if Accepted(false, b) > 0 then Accepted(false, b) else 1..]); }
  }

  lemma UnitsFit(b: seq<Byte>)
    requires Accepted(false, b) > 0
    ensures |Units(RuneOf(b, Accepted(false, b)))| <= Accepted(false, b)
  {
    hide Low;
  }

  /** Never more units than bytes. */
  lemma {:induction false} WideFits(robust: bool, b: seq<Byte>)
    ensures |WideOf(robust, b)| <= |b|
    decreases |b|
  {
    var n := Accepted(false, b);
    if b == [] {
    } else if n > 0 {
      UnitsFit(b);
      WideFits(robust, b[n..]);
    } else {
      WideFits(robust, b[1..]);
    }
  }

  /** Where a decoder stands: `out` is written, the bytes from `cur` on are still to come. */
  ghost predicate Decoding(robust: bool, b: seq<Byte>, cur: nat, out: seq<Unit>) {
    && cur <= |b|
    && WideOf(robust, b) == out + WideOf(robust, b[cur..])
    && Consumed(robust, b) == cur + Consumed(robust, b[cur..])
  }

  lemma DecodingStart(robust: bool, b: seq<Byte>)
    ensures Decoding(robust, b, 0, [])
  {
    assert b[0..] == b;
  }

  lemma DecodingOne(robust: bool, b: seq<Byte>, cur: nat, out: seq<Unit>, n: nat, r: Rune)
    requires Decoding(robust, b, cur, out) && cur < |b|
    requires n == Accepted(false, b[cur..]) > 0 && r == RuneOf(b[cur..], n)
    ensures cur + n <= |b| && Decoding(robust, b, cur + n, out + Units(r))
  {
    hide Accepted, RuneOf, Units;
    var t := b[cur..];
    assert t[n..] == b[cur + n..];
    assert out + (Units(r) + WideOf(robust, t[n..])) == out + Units(r) + WideOf(robust, t[n..]);
  }

  lemma DecodingBad(b: seq<Byte>, cur: nat, out: seq<Unit>)
    requires Decoding(true, b, cur, out) && cur < |b| && Accepted(false, b[cur..]) == 0
    ensures Decoding(true, b, cur + 1, out + Units(BROKEN_RUNE))
  {
    hide Accepted, RuneOf;
    var t := b[cur..];
    assert t[1..] == b[cur + 1..];
    assert out + ([BROKEN_RUNE] + WideOf(true, t[1..])) == out + [BROKEN_RUNE] + WideOf(true, t[1..]);
  }

  /** Something is still to be written, and there is room for it. */
  lemma RoomLeft(robust: bool, b: seq<Byte>, cur: nat, out: seq<Unit>, more: seq<Unit>)
    requires Decoding(robust, b, cur, out + more)
    ensures |out| + |more| <= |b|
  {
    WideFits(robust, b);
    hide WideOf;
  }

  /** `WriteSymbol` through a pointer into the destination */
  method WriteSymbol(r: Rune, dest: array<Unit>, at: nat) returns (next: nat)
    requires at + |Units(r)| <= dest.Length
    modifies dest
    ensures next == at + |Units(r)|
    ensures dest[..next] == old(dest[..at]) + Units(r) && dest[next..] == old(dest[next..])
  {
    if r > 0xFFFF {
      if r >= 0x110000 {
        dest[at] := BROKEN_RUNE;
        return at + 1;
      }
      dest[at] := 0xD7C0 + r / 0x400;
      dest[at + 1] := 0xDC00 + r % 0x400;
      return at + 2;
    }
    dest[at] := r;
    return at + 1;
  }

  /** `UTF8ToWideImplScalar`: as many units of room as there are bytes is enough. */
  method Utf8ToWide(b: seq<Byte>, robust: bool, dest: array<Unit>) returns (cur: nat, written: nat)
    requires dest.Length >= |b|
    modifies dest
    ensures cur == Consumed(robust, b) && (robust ==> cur == |b|)
    ensures written <= |b| && dest[..written] == WideOf(robust, b)
  {
    hide Accepted, RuneOf, Units, Decoding, RuneLen;
    RobustConsumesAll(b);
    var rune: Rune := BROKEN_RUNE;
    cur, written := 0, 0;
    DecodingStart(robust, b);
    assert dest[..0] == [];
    while cur != |b|
      invariant 0 <= cur <= |b| && written <= |b|
      invariant Decoding(robust, b, cur, dest[..written])
      decreases |b| - cur
    {
      var res;
      ghost var was, out := cur, dest[..written];
      res, rune, cur := ReadAndAdvance(b, cur, rune, false);
      if res != Ok {
        if robust {
          rune := BROKEN_RUNE;
          cur := cur + 1;
          DecodingBad(b, was, out);
        } else {
          StopsHere(b, cur, out);
          return;
        }
      } else {
        DecodingOne(robust, b, was, out, cur - was, rune);
      }
      RoomLeft(robust, b, cur, out, Units(rune));
      written := WriteSymbol(rune, dest, written);
    }
    DecodingDone(robust, b, dest[..written]);
  }

  lemma StopsHere(b: seq<Byte>, cur: nat, out: seq<Unit>)
    requires Decoding(false, b, cur, out) && cur < |b| && Accepted(false, b[cur..]) == 0
    ensures Consumed(false, b) == cur && WideOf(false, b) == out
  {
  }

  lemma DecodingDone(robust: bool, b: seq<Byte>, out: seq<Unit>)
    requires Decoding(robust, b, |b|, out)
    ensures Consumed(robust, b) == |b| && WideOf(robust, b) == out
  {
    assert b[|b|..] == [];
  }

  // ---------------------------------------------------------------- to UTF-8

  /** `WriteUTF8Char` */
  method WriteChar(r: Rune, dest: array<Byte>, at: nat) returns (len: nat)
    requires at + |Encode(r)| <= dest.Length
    modifies dest
    ensures len == |Encode(r)| && dest[..at + len] == old(dest[..at]) + Encode(r)
  {
    if r < 0x80 {
      dest[at] := r;
      return 1;
    }
    if r < 0x800 {
      dest[at], dest[at + 1] := 0xC0 + r / 0x40, 0x80 + r % 0x40;
      return 2;
    }
    if r < 0x10000 {
      dest[at], dest[at + 1], dest[at + 2] := 0xE0 + r / 0x1000, 0x80 + (r / 0x40) % 0x40, 0x80 + r % 0x40;
      return 3;
    }
    dest[at], dest[at + 1] := 0xF0 + (r / 0x40000) % 8, 0x80 + (r / 0x1000) % 0x40;
    dest[at + 2], dest[at + 3] := 0x80 + (r / 0x40) % 0x40, 0x80 + r % 0x40;
    return 4;
  }

  /** `WideToUTF8`: four bytes of room for each unit are enough. */
  method WideToUtf8(u: seq<Unit>, dest: array<Byte>) returns (written: nat)
    requires dest.Length >= 4 * |u|
    modifies dest
    ensures written <= dest.Length && dest[..written] == EncodeAll(Symbols(u))
  {
    hide Encode, ReadSymbol, StartsWithPair;
    var cur := 0;
    written := 0;
    assert u[0..] == u && dest[..0] == [];
    while cur != |u|
      invariant 0 <= cur <= |u| && written <= 4 * cur
      invariant EncodeAll(Symbols(u)) == dest[..written] + EncodeAll(Symbols(u[cur..]))
      decreases |u| - cur
    {
      var t := u[cur..];
      var symbol, size := ReadSymbol(t), SymbolSize(t);
      assert t[size..] == u[cur + size..];
      ghost var out := dest[..written];
      NextSymbol(t, out);
      var runeLen := WriteChar(symbol, dest, written);
      cur := cur + size;
      written := written + runeLen;
    }
  }

  lemma NextSymbol(t: seq<Unit>, out: seq<Byte>)
    requires t != []
    ensures out + EncodeAll(Symbols(t)) == out + Encode(ReadSymbol(t)) + EncodeAll(Symbols(t[SymbolSize(t)..]))
  {
    hide ReadSymbol, Encode, StartsWithPair;
    var rs := Symbols(t);
    assert rs[0] == ReadSymbol(t) && rs[1..] == Symbols(t[SymbolSize(t)..]);
    assert EncodeAll(rs) == Encode(rs[0]) + EncodeAll(rs[1..]);
  }

  // ---------------------------------------------------------------- there and back

  /** Robust decoding followed by `WideToUTF8`. */
  function Recode(b: seq<Byte>): seq<Byte> {
    EncodeAll(Symbols(WideOf(true, b)))
  }

  /** Decoding text writes its runes. */
  lemma {:induction false} WideOfText(robust: bool, b: seq<Byte>)
    requires IsText(false, b)
    ensures WideOf(robust, b) == UnitsAll(Runes(b)) && Consumed(robust, b) == |b|
    decreases |b|
  {
    hide Accepted, RuneOf, Units;
    if b != [] {
      var n := Accepted(false, b);
      WideOfText(robust, b[n..]);
      var rs := Runes(b);
      assert rs[0] == RuneOf(b, n) && rs[1..] == Runes(b[n..]);
    }
  }

  /** The round trip always yields strictly valid text. */
  lemma RecodeIsText(b: seq<Byte>)
    ensures IsText(true, Recode(b))
  {
    SymbolsAreScalar(WideOf(true, b));
    EncodedIsText(Symbols(WideOf(true, b)));
  }

  /** It changes exactly what was not. */
  lemma RecodeKeeps(b: seq<Byte>)
    ensures Recode(b) == b <==> IsText(true, b)
  {
    RecodeIsText(b);
    if IsText(true, b) {
      StrictIsLax(b);
      TextIsEncoded(b);
      WideOfText(true, b);
      WriteReadAll(Runes(b));
    }
  }

  lemma RecodeIdempotent(b: seq<Byte>)
    ensures Recode(Recode(b)) == Recode(b)
  {
    RecodeIsText(b);
    RecodeKeeps(Recode(b));
  }

  /** Both conversions, one after the other. */
  method RoundTrip(b: seq<Byte>) returns (out: seq<Byte>)
    ensures out == Recode(b) && IsText(true, out)
    ensures out == b <==> IsText(true, b)
  {
    var wide := new Unit[|b|];
    var cur, units := Utf8ToWide(b, true, wide);
    var bytes := new Byte[4 * units];
    var written := WideToUtf8(wide[..units], bytes);
    RecodeIsText(b);
    RecodeKeeps(b);
    out := bytes[..written];
  }
}
