/** Scans of whole byte strings: encoding detection and strict validation. */
module Utf8Scan {
  import opened Utf8
  import opened Utf8Text

  datatype Detection = NotUtf8 | Utf8 | Ascii

  ghost predicate AllAscii(s: seq<Byte>) {
    forall i | 0 <= i < |s| :: s[i] < 0x80
  }

  /** Text in front of `pos` does not change whether the whole is text. */
  ghost predicate Passed(strict: bool, s: seq<Byte>, pos: nat) {
    pos <= |s| && (IsText(strict, s) <==> IsText(strict, s[pos..]))
  }

  lemma PassOne(strict: bool, s: seq<Byte>, pos: nat, len: nat)
    requires Passed(strict, s, pos) && pos < |s| && len == Accepted(strict, s[pos..])
    ensures len > 0 ==> Passed(strict, s, pos + len)
    ensures len == 0 ==> !IsText(strict, s)
  {
    hide Accepted;
    if len > 0 { assert s[pos..][len..] == s[pos + len..]; }
  }

  lemma AsciiIsShort(t: seq<Byte>)
    requires Accepted(false, t) > 0
    ensures Accepted(false, t) == 1 <==> t[0] < 0x80
  {
  }

  /** `UTF8Detect`: everything but text with surrogates is told apart as the grammar tells it. */
  method Detect(s: seq<Byte>) returns (res: Detection)
    ensures res == NotUtf8 <==> !IsText(false, s)
    ensures res == Ascii <==> AllAscii(s)
  {
    hide Accepted, RuneOf, RuneLen;
    res := Ascii;
    var pos := 0;
    assert s[0..] == s;
    while pos < |s|
      invariant Passed(false, s, pos)
      invariant res != NotUtf8
      invariant res == Ascii ==> AllAscii(s[..pos])
      invariant res == Utf8 ==> !AllAscii(s)
    {
      var rr, rune, len := SafeRead(s, pos, false);
      PassOne(false, s, pos, Accepted(false, s[pos..]));
      if rr != Ok {
        AsciiIsText(s);
        return NotUtf8;
      }
      AsciiIsShort(s[pos..]);
      if len > 1 { res := Utf8; }
      assert len == 1 ==> s[..pos + 1] == s[..pos] + [s[pos]];
      pos := pos + len;
    }
    assert s[..pos] == s && s[pos..] == [];
  }

  lemma {:induction false} AsciiIsText(s: seq<Byte>)
    ensures AllAscii(s) ==> IsText(false, s)
    decreases |s|
  {
    if AllAscii(s) && s != [] { AsciiIsText(s[1..]); }
  }

  // ---------------------------------------------------------------- strict validation

  /** The code point after `i` continuation bytes. */
  function Gather(t: seq<Byte>, mask: int, i: nat): Rune
    requires mask > 0 && i < |t|
  {
    if i == 0 then Low(t[0], mask) else SixMore(Gather(t, mask, i - 1), t[i])
  }

  lemma GatherIsRune(t: seq<Byte>, n: nat)
    requires 2 <= n <= 4 && n <= |t|
    ensures Gather(t, LeadMask(n), n - 1) == RuneOf(t, n)
  {
    hide SixMore, Low, RuneOf;
    AssembleIsRune(t, n);
    var m := LeadMask(n);
    assert Gather(t, m, 1) == SixMore(Gather(t, m, 0), t[1]);
    assert n > 2 ==> Gather(t, m, 2) == SixMore(Gather(t, m, 1), t[2]);
    assert n > 3 ==> Gather(t, m, 3) == SixMore(Gather(t, m, 2), t[3]);
  }

  /** How many continuation bytes the validator expects after `c`; none for a byte that cannot
      start a character of more than one byte. */
  function Expected(c: Byte): nat {
    if 0xC2 <= c <= 0xDF then 1 else if 0xE0 <= c <= 0xEF then 2 else if 0xF0 <= c <= 0xF4 then 3 else 0
  }

  predicate OutOfRange(n: nat, cp: Rune) {
    (n == 2 && (cp < 0x800 || 0xD800 <= cp <= 0xDFFF)) || (n == 3 && (cp < 0x10000 || cp > 0x10FFFF))
  }

  /** The validator's decision about one character is the grammar's. */
  lemma ValidatorAgrees(t: seq<Byte>)
    requires t != [] && t[0] >= 0x80
    ensures var n := Expected(t[0]);
            CharLen(t) == if && n > 0 && |t| > n
                             && (forall i | 1 <= i <= n :: IsContinuation(t[i]))
                             && !OutOfRange(n, RuneOf(t, n + 1)) then n + 1 else 0
  {
    var n := Expected(t[0]);
    if n > 0 && |t| > n {
      if forall i | 1 <= i <= n :: IsContinuation(t[i]) {
        hide Low, RuneOf, CharLen;
        ReadOk(t, true, n + 1);
        if n == 1 { TwoInRange(t); }
        if n == 3 { FourFits(t); }
      } else {
        var i :| 1 <= i <= n && !IsContinuation(t[i]);
        ReadBad(t, true, i);
      }
    }
  }

  lemma TwoInRange(t: seq<Byte>)
    requires |t| >= 2 && 0xC2 <= t[0] <= 0xDF && IsContinuation(t[1])
    ensures RuneOf(t, 2) >= 0x80
  {
    Two(t[0], t[1]);
  }

  lemma FourFits(t: seq<Byte>)
    requires |t| >= 4 && 0xF0 <= t[0] <= 0xF4 && forall i | 1 <= i <= 3 :: IsContinuation(t[i])
    ensures RuneOf(t, 4) < 0x200000
  {
    assert IsContinuation(t[1]) && IsContinuation(t[2]) && IsContinuation(t[3]);
    Four(t[0], t[1], t[2], t[3]);
  }

  /** `IsValidUtf8`: accepts exactly strict text. */
  method IsValidUtf8(s: seq<Byte>) returns (ok: bool)
    ensures ok <==> IsText(true, s)
  {
    hide Accepted, CharLen, RuneOf, Low, SixMore;
    var p := 0;
    assert s[0..] == s;
    while p < |s|
      invariant Passed(true, s, p)
    {
      ghost var start, t := p, s[p..];
      PassOne(true, s, start, Accepted(true, t));
      StrictAccepted(t);
      var c := s[p];
      p := p + 1;
      if c < 0x80 {
        ReadAscii(t, true);
        continue;
      }
      ValidatorAgrees(t);
      var n := Expected(c);
      if n == 0 { return false; }
      var cp: Rune := Low(c, LeadMask(n + 1));
      if |s| - p < n { return false; }
      var i := 0;
      while i < n
        invariant 0 <= i <= n && p == start + 1 + i
        invariant forall j | 1 <= j <= i :: IsContinuation(t[j])
        invariant cp == Gather(t, LeadMask(n + 1), i)
      {
        assert s[p] == t[i + 1];
        if !IsContinuation(s[p]) { return false; }
        cp := SixMore(cp, s[p]);
        i, p := i + 1, p + 1;
      }
      GatherIsRune(t, n + 1);
      if OutOfRange(n, cp) { return false; }
    }
    assert s[p..] == [];
    return true;
  }

  /** The detector differs from the validator only by letting surrogates through. */
  lemma DetectorAndValidator(s: seq<Byte>)
    ensures IsText(true, s) <==> IsText(false, s) && forall i | 0 <= i < |Runes(s)| :: !IsSurrogate(Runes(s)[i])
  {
    if IsText(true, s) { StrictIsLax(s); }
    if IsText(false, s) { TextIsEncoded(s); }
  }
}
