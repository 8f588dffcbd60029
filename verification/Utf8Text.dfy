/** UTF-8 text: whole strings, read and written a character at a time through cursors. */
module Utf8Text {
  import opened Utf8

  // ---------------------------------------------------------------- text and its runes

  /** `s` is a sequence of characters (`*( UTF8-char )` in section 4 of RFC 3629); unless strict,
      encoded surrogates are let through. */
  predicate IsText(strict: bool, s: seq<Byte>) {
    s == [] || (Accepted(strict, s) > 0 && IsText(strict, s[Accepted(strict, s)..]))
  }

  function Runes(s: seq<Byte>): seq<Rune>
    requires IsText(false, s)
  {
    if s == [] then [] else [RuneOf(s, Accepted(false, s))] + Runes(s[Accepted(false, s)..])
  }

  function EncodeAll(rs: seq<Rune>): seq<Byte> {
    if rs == [] then [] else Encode(rs[0]) + EncodeAll(rs[1..])
  }

  ghost predicate AllScalar(rs: seq<Rune>) {
    forall i | 0 <= i < |rs| :: IsScalar(rs[i])
  }

  lemma {:induction false} EncodeAllConcat(a: seq<Rune>, b: seq<Rune>)
    ensures EncodeAll(a + b) == EncodeAll(a) + EncodeAll(b)
  {
    if a == [] {
      assert a + b == b;
    } else {
      assert (a + b)[1..] == a[1..] + b;
      EncodeAllConcat(a[1..], b);
    }
  }

  lemma AllScalarCons(rs: seq<Rune>)
    requires rs != []
    ensures AllScalar(rs) <==> IsScalar(rs[0]) && AllScalar(rs[1..])
  {
    if IsScalar(rs[0]) && AllScalar(rs[1..]) {
      assert forall i | 1 <= i < |rs| :: rs[i] == rs[1..][i - 1];
    }
    if AllScalar(rs) {
      assert forall i | 0 <= i < |rs[1..]| :: rs[1..][i] == rs[i + 1];
    }
  }

  /** The strict reader takes the same characters, but no surrogates. */
  lemma StrictAccepted(s: seq<Byte>)
    ensures Accepted(true, s) == CharLen(s)
    ensures CharLen(s) > 0 ==> Accepted(false, s) == CharLen(s)
  {
  }

  /** Text is the encoding of its runes.  It is strictly valid exactly when they are all scalars. */
  lemma {:induction false} TextIsEncoded(s: seq<Byte>)
    requires IsText(false, s)
    ensures EncodeAll(Runes(s)) == s
    ensures IsText(true, s) <==> AllScalar(Runes(s))
    ensures forall i | 0 <= i < |Runes(s)| :: Runes(s)[i] <= 0x10FFFF
    decreases |s|
  {
    hide Accepted, CharLen, RuneOf, Encode, AllScalar, IsScalar;
    if s != [] {
      var n := Accepted(false, s);
      EncodeDecode(s);
      StrictAccepted(s);
      TextIsEncoded(s[n..]);
      assert s == s[..n] + s[n..];
      var rs := Runes(s);
      assert rs[0] == RuneOf(s, n) && rs[1..] == Runes(s[n..]);
      AllScalarCons(rs);
    } else {
      NoneScalar();
    }
  }

  lemma NoneScalar()
    ensures AllScalar([])
  {
  }

  /** Strict text is text. */
  lemma {:induction false} StrictIsLax(s: seq<Byte>)
    requires IsText(true, s)
    ensures IsText(false, s)
    decreases |s|
  {
    hide CharLen;
    if s != [] {
      StrictAccepted(s);
      StrictIsLax(s[CharLen(s)..]);
    }
  }

  /** The encoding of any scalars is strictly valid, and its runes are those scalars. */
  lemma {:induction false} EncodedIsText(rs: seq<Rune>)
    requires AllScalar(rs)
    ensures IsText(true, EncodeAll(rs)) && IsText(false, EncodeAll(rs)) && Runes(EncodeAll(rs)) == rs
    decreases |rs|
  {
    if rs != [] {
      var s, n := EncodeAll(rs), |Encode(rs[0])|;
      DecodeEncode(rs[0], EncodeAll(rs[1..]));
      assert s[n..] == EncodeAll(rs[1..]);
      EncodedIsText(rs[1..]);
    }
  }

  // ---------------------------------------------------------------- the readers

  predicate ValidRune(strict: bool, n: nat, r: Rune) {
    if n == 2 then r >= 0x80
    else if n == 3 then r >= 0x800 && !(strict && IsSurrogate(r))
    else 0x10000 <= r <= 0x10FFFF
  }

  /** `s & UTF8LeadByteMask(n)` keeps this many values. */
  function LeadMask(n: nat): int {
    if n == 2 then 0x20 else if n == 3 then 0x10 else 8
  }

  /** The readers put a rune together six bits at a time. */
  function Assemble(t: seq<Byte>, n: nat): Rune
    requires 2 <= n <= 4 && n <= |t|
  {
    var two := SixMore(Low(t[0], LeadMask(n)), t[1]);
    if n == 2 then two else if n == 3 then SixMore(two, t[2]) else SixMore(SixMore(two, t[2]), t[3])
  }

  lemma AssembleIsRune(t: seq<Byte>, n: nat)
    requires 2 <= n <= 4 && n <= |t|
    ensures Assemble(t, n) == RuneOf(t, n)
  {
    hide SixMore, Low;
    var one := Low(t[0], LeadMask(n));
    Shifted(one, t[1]);
    if n > 2 { Shifted(SixMore(one, t[1]), t[2]); }
    if n > 3 { Shifted(SixMore(SixMore(one, t[1]), t[2]), t[3]); }
  }

  lemma Shifted(r: Rune, c: Byte)
    requires r < 0x100_0000
    ensures SixMore(r, c) == r * 0x40 + Low(c, 0x40)
  {
  }

  /** When a first byte is followed by the continuations it announces, the grammar accepts them
      exactly when the rune is in the range of that length. */
  lemma ReadOk(t: seq<Byte>, strict: bool, n: nat)
    requires t != [] && n == RuneLen(t[0]) && 2 <= n <= |t|
    requires forall i | 1 <= i < n :: IsContinuation(t[i])
    ensures Accepted(strict, t) == if ValidRune(strict, n, RuneOf(t, n)) then n else 0
  {
    assert Tail(t[1]);
    hide Low;
    if n == 2 {
      Two(t[0], t[1]);
    } else if n == 3 {
      assert Tail(t[2]);
      Three(t[0], t[1], t[2]);
    } else {
      assert Tail(t[2]) && Tail(t[3]);
      Four(t[0], t[1], t[2], t[3]);
    }
  }

  /** Without them it accepts nothing. */
  lemma ReadBad(t: seq<Byte>, strict: bool, i: nat)
    requires t != [] && RuneLen(t[0]) != 1
    requires RuneLen(t[0]) == 0 || RuneLen(t[0]) > |t| || (1 <= i < RuneLen(t[0]) && !IsContinuation(t[i]))
    ensures Accepted(strict, t) == 0
  {
  }

  lemma ReadAscii(t: seq<Byte>, strict: bool)
    requires t != [] && RuneLen(t[0]) == 1
    ensures Accepted(strict, t) == 1 && RuneOf(t, 1) == t[0]
  {
  }

  lemma LenBound(b: Byte)
    ensures RuneLen(b) <= 4
  {
  }

  /** `SafeReadUTF8Char` */
  method SafeRead(s: seq<Byte>, pos: nat, strict: bool) returns (res: RecodeResult, rune: Rune, len: nat)
    requires pos < |s|
    ensures res == Ok <==> Accepted(strict, s[pos..]) > 0
    ensures res == Ok ==> len == Accepted(strict, s[pos..]) && rune == RuneOf(s[pos..], len)
    ensures res == EndOfInput <==> pos + RuneLen(s[pos]) > |s|
    ensures res != Ok ==> rune == BROKEN_RUNE && len == 0 && res != EndOfOutput
  {
    hide Accepted, RuneOf, Low, SixMore, RuneLen, IsContinuation;
    rune, len := BROKEN_RUNE, 0;
    ghost var t := s[pos..];
    var n := RuneLen(s[pos]);
    LenBound(s[pos]);
    if pos + n > |s| {
      if n != 1 { ReadBad(t, strict, 0); }
      return EndOfInput, rune, len;
    }
    if n == 0 {
      ReadBad(t, strict, 0);
      return BrokenSymbol, rune, len;
    }
    var r: Rune := s[pos];
    if n == 1 {
      ReadAscii(t, strict);
    } else {
      r := Low(s[pos], LeadMask(n));
      if !IsContinuation(s[pos + 1]) {
        ReadBad(t, strict, 1);
        return BrokenSymbol, rune, len;
      }
      r := SixMore(r, s[pos + 1]);
      if n > 2 {
        if !IsContinuation(s[pos + 2]) {
          ReadBad(t, strict, 2);
          return BrokenSymbol, rune, len;
        }
        r := SixMore(r, s[pos + 2]);
        if n > 3 {
          if !IsContinuation(s[pos + 3]) {
            ReadBad(t, strict, 3);
            return BrokenSymbol, rune, len;
          }
          r := SixMore(r, s[pos + 3]);
        }
      }
      assert r == Assemble(t, n);
      AssembleIsRune(t, n);
      ReadOk(t, strict, n);
      if !ValidRune(strict, n, r) { return BrokenSymbol, rune, len; }
    }
    return Ok, r, n;
  }

  /** `ReadUTF8CharAndAdvance`: the cursor moves only over an accepted character. */
  method ReadAndAdvance(s: seq<Byte>, pos: nat, before: Rune, strict: bool) returns (res: RecodeResult, rune: Rune, next: nat)
    requires pos < |s|
    ensures res == Ok <==> Accepted(strict, s[pos..]) > 0
    ensures res == Ok ==> next == pos + Accepted(strict, s[pos..]) && rune == RuneOf(s[pos..], next - pos)
    ensures res == EndOfInput <==> pos + RuneLen(s[pos]) > |s|
    ensures res != Ok ==> next == pos && res != EndOfOutput
    ensures res == EndOfInput ==> rune == before
    ensures res == BrokenSymbol ==> rune == BROKEN_RUNE
  {
    hide Accepted, RuneOf, Low, SixMore, RuneLen, IsContinuation;
    rune, next := before, pos;
    ghost var t := s[pos..];
    var n := RuneLen(s[pos]);
    LenBound(s[pos]);
    if n == 0 {
      ReadBad(t, strict, 0);
      return BrokenSymbol, BROKEN_RUNE, pos;
    }
    if n == 1 {
      ReadAscii(t, strict);
      return Ok, s[pos], pos + 1;
    }
    if pos + n > |s| {
      ReadBad(t, strict, 0);
      return EndOfInput, before, pos;
    }
    if !IsContinuation(s[pos + 1]) || (n > 2 && !IsContinuation(s[pos + 2])) || (n > 3 && !IsContinuation(s[pos + 3])) {
      ReadBad(t, strict, if !IsContinuation(s[pos + 1]) then 1 else if !IsContinuation(s[pos + 2]) then 2 else 3);
      return BrokenSymbol, BROKEN_RUNE, pos;
    }
    rune := Low(s[pos], LeadMask(n));
    rune := SixMore(rune, s[pos + 1]);
    if n > 2 { rune := SixMore(rune, s[pos + 2]); }
    if n > 3 { rune := SixMore(rune, s[pos + 3]); }
    assert rune == Assemble(t, n);
    AssembleIsRune(t, n);
    ReadOk(t, strict, n);
    if !ValidRune(strict, n, rune) { return BrokenSymbol, BROKEN_RUNE, pos; }
    return Ok, rune, pos + n;
  }
}
