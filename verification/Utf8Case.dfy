/** Case conversion of UTF-8 text into a buffer that grows as needed.  The case tables are an
arbitrary mapping of runes. */
module Utf8Case {
  import opened Utf8
  import opened Utf8Text

  datatype Conversion = Unchanged | Changed(text: seq<Byte>) | Failed(pos: nat)

  function Map(f: Rune -> Rune, rs: seq<Rune>): (out: seq<Rune>)
    ensures |out| == |rs|
    ensures forall i | 0 <= i < |rs| :: out[i] == f(rs[i])
  {
    if rs == [] then [] else [f(rs[0])] + Map(f, rs[1..])
  }

  /** How far `s` can be decoded. */
  function Decodable(s: seq<Byte>): (n: nat)
    ensures n <= |s|
  {
    if Accepted(false, s) == 0 then 0 else Accepted(false, s) + Decodable(s[Accepted(false, s)..])
  }

  lemma {:induction false} DecodableText(s: seq<Byte>)
    ensures IsText(false, s) <==> Decodable(s) == |s|
    decreases |s|
  {
    if Accepted(false, s) > 0 { DecodableText(s[Accepted(false, s)..]); }
  }

  /** `done` are the runes in front of `pos`. */
  ghost predicate Decoded(s: seq<Byte>, pos: nat, done: seq<Rune>) {
    && pos <= |s|
    && Decodable(s) == pos + Decodable(s[pos..])
    && EncodeAll(done) == s[..pos]
    && (IsText(false, s) <==> IsText(false, s[pos..]))
    && (IsText(false, s[pos..]) ==> Runes(s) == done + Runes(s[pos..]))
  }

  lemma DecodeStart(s: seq<Byte>)
    ensures Decoded(s, 0, [])
  {
    assert s[0..] == s;
  }

  lemma FirstRune(t: seq<Byte>)
    requires Accepted(false, t) > 0
    ensures var n := Accepted(false, t);
            && t != [] && Decodable(t) == n + Decodable(t[n..])
            && (IsText(false, t) <==> IsText(false, t[n..]))
            && (IsText(false, t) ==> Runes(t) == [RuneOf(t, n)] + Runes(t[n..]))
  {
    hide CharLen, EncodedSurrogate, RuneOf;
  }

  lemma DecodeOne(s: seq<Byte>, pos: nat, done: seq<Rune>, c: Rune, len: nat)
    requires Decoded(s, pos, done) && pos < |s| && len == Accepted(false, s[pos..]) > 0 && c == RuneOf(s[pos..], len)
    ensures pos + len <= |s| && Decoded(s, pos + len, done + [c])
  {
    hide Accepted, RuneOf, Encode, EncodeAll, Decodable, IsText, Runes;
    var t := s[pos..];
    EncodeDecode(t);
    EncodeOneMore(done, c);
    FirstRune(t);
    assert t[len..] == s[pos + len..];
    assert s[..pos + len] == s[..pos] + t[..len];
    if IsText(false, t) {
      assert done + ([c] + Runes(t[len..])) == done + [c] + Runes(t[len..]);
    }
  }

  lemma EncodeOneMore(rs: seq<Rune>, c: Rune)
    ensures EncodeAll(rs + [c]) == EncodeAll(rs) + Encode(c)
  {
    EncodeAllConcat(rs, [c]);
    assert EncodeAll([c]) == Encode(c) + EncodeAll([]);
  }

  lemma DecodeEnd(s: seq<Byte>, done: seq<Rune>)
    requires Decoded(s, |s|, done)
    ensures IsText(false, s) && Runes(s) == done
  {
    assert s[|s|..] == [];
  }

  lemma DecodeFailed(s: seq<Byte>, pos: nat, done: seq<Rune>)
    requires Decoded(s, pos, done) && pos < |s| && Accepted(false, s[pos..]) == 0
    ensures !IsText(false, s) && Decodable(s) == pos
  {
  }

  /** `SafeWriteUTF8Char`: writes at `at` if the `tail` bytes from there on are enough. */
  method SafeWrite(rune: Rune, buf: seq<Byte>, at: nat, tail: nat) returns (res: RecodeResult, len: nat, out: seq<Byte>)
    requires at + tail == |buf|
    ensures res == if tail >= |Encode(rune)| then Ok else EndOfOutput
    ensures res == Ok ==> len == |Encode(rune)| && out == buf[..at] + Encode(rune) + buf[at + len..]
    ensures res != Ok ==> len == 0 && out == buf
  {
    len, out := 0, buf;
    if rune < 0x80 {
      if tail <= 0 { return EndOfOutput, len, out; }
      out := out[at := rune];
      len := 1;
    } else if rune < 0x800 {
      if tail <= 1 { return EndOfOutput, len, out; }
      out := out[at := 0xC0 + rune / 0x40][at + 1 := 0x80 + rune % 0x40];
      len := 2;
    } else if rune < 0x10000 {
      if tail <= 2 { return EndOfOutput, len, out; }
      out := out[at := 0xE0 + rune / 0x1000][at + 1 := 0x80 + (rune / 0x40) % 0x40][at + 2 := 0x80 + rune % 0x40];
      len := 3;
    } else {
      if tail <= 3 { return EndOfOutput, len, out; }
      out := out[at := 0xF0 + (rune / 0x40000) % 8][at + 1 := 0x80 + (rune / 0x1000) % 0x40];
      out := out[at + 2 := 0x80 + (rune / 0x40) % 0x40][at + 3 := 0x80 + rune % 0x40];
      len := 4;
    }
    res := Ok;
  }

  /** The search for the first rune that changes. */
  method FirstChange(s: seq<Byte>, f: Rune -> Rune)
    returns (failed: bool, pos: nat, cNew: Rune, cLen: nat, ghost done: seq<Rune>)
    ensures pos <= |s| && Decoded(s, pos, done) && Map(f, done) == done
    ensures failed ==> pos < |s| && Accepted(false, s[pos..]) == 0
    ensures !failed && pos < |s| ==>
              && cLen == Accepted(false, s[pos..]) > 0
              && cNew == f(RuneOf(s[pos..], cLen)) && cNew != RuneOf(s[pos..], cLen)
  {
    hide Accepted, RuneOf, Decoded, RuneLen;
    failed, pos, cNew, cLen, done := false, 0, 0, 0, [];
    DecodeStart(s);
    while pos < |s|
      invariant pos <= |s| && Decoded(s, pos, done) && Map(f, done) == done
    {
      var res, c, len := SafeRead(s, pos, false);
      cLen := len;
      if res != Ok {
        failed := true;
        return;
      }
      cNew := f(c);
      if cNew != c { return; }
      DecodeOne(s, pos, done, c, cLen);
      assert Map(f, done + [c]) == done + [c];
      done := done + [c];
      pos := pos + cLen;
    }
  }

  /** Where a conversion stands that has begun to write: everything in front of `p` is written, and
      `cNew` is to be written next. */
  ghost predicate Writing(s: seq<Byte>, f: Rune -> Rune, p: nat, done: seq<Rune>, cNew: Rune, cLen: nat) {
    && p < |s| && Decoded(s, p, done)
    && cLen == Accepted(false, s[p..]) > 0 && cNew == f(RuneOf(s[p..], cLen))
  }

  /** Some rune up to and including the one at `p` changes. */
  ghost predicate Changes(s: seq<Byte>, f: Rune -> Rune, p: nat, done: seq<Rune>, cNew: Rune, cLen: nat)
    requires Writing(s, f, p, done, cNew, cLen)
  {
    Map(f, done) != done || cNew != RuneOf(s[p..], cLen)
  }

  /** The loop that writes.  What is written and what is free always make up the buffer. */
  method Rewrite(s: seq<Byte>, f: Rune -> Rune, p0: nat, cNew0: Rune, cLen0: nat, ghost done0: seq<Rune>)
    returns (out: Conversion)
    requires Writing(s, f, p0, done0, cNew0, cLen0) && Changes(s, f, p0, done0, cNew0, cLen0)
    requires Map(f, done0) == done0
    ensures out.Failed? <==> !IsText(false, s)
    ensures out.Failed? ==> out.pos == Decodable(s)
    ensures !out.Failed? ==> out == Changed(EncodeAll(Map(f, Runes(s)))) && Map(f, Runes(s)) != Runes(s)
  {
    hide Accepted, RuneOf, Decoded, RuneLen, Encode, EncodeAll;
    var p, cNew, cLen, written := p0, cNew0, cLen0, p0;
    ghost var done := done0;
    StillSame(s, p, done);
    var newString := s[..p] + seq(|s| - p, i => 0);
    var destSpace := |s| - written;
    while true
      invariant Writing(s, f, p, done, cNew, cLen) && Changes(s, f, p, done, cNew, cLen)
      invariant 0 <= written && 0 <= destSpace && written + destSpace == |newString| && |newString| > 0
      invariant newString[..written] == EncodeAll(Map(f, done))
      decreases |s| - p, if destSpace < 4 then 4 - destSpace else 0
    {
      var res, cNewLen, buf := SafeWrite(cNew, newString, written, destSpace);
      if res == EndOfOutput {
        destSpace := destSpace + |newString|;
        newString := newString + seq(|newString|, i => 0);
      } else {
        ghost var c := RuneOf(s[p..], cLen);
        WroteOne(f, done, c);
        MapChanges(f, done, c);
        newString := buf;
        destSpace := destSpace - cNewLen;
        written := written + cNewLen;
        DecodeOne(s, p, done, c, cLen);
        done := done + [c];
        p := p + cLen;
        if p == |s| {
          DecodeEnd(s, done);
          return Changed(newString[..|newString| - destSpace]);
        }
        var rr, next, len := SafeRead(s, p, false);
        cLen := len;
        if rr != Ok {
          DecodeFailed(s, p, done);
          return Failed(p);
        }
        cNew := f(next);
      }
    }
  }

  /** `ConvertCaseUTF8Impl` */
  method Convert(s: seq<Byte>, f: Rune -> Rune) returns (out: Conversion)
    ensures out.Failed? <==> !IsText(false, s)
    ensures out.Failed? ==> out.pos == Decodable(s)
    ensures out.Unchanged? <==> IsText(false, s) && Map(f, Runes(s)) == Runes(s)
    ensures out.Changed? ==> out.text == EncodeAll(Map(f, Runes(s)))
  {
    hide Accepted, RuneOf, Decoded, RuneLen, Encode;
    var failed, p, cNew, cLen; ghost var done;
    failed, p, cNew, cLen, done := FirstChange(s, f);
    if failed {
      DecodeFailed(s, p, done);
      return Failed(p);
    }
    if p == |s| {
      DecodeEnd(s, done);
      return Unchanged;
    }
    out := Rewrite(s, f, p, cNew, cLen, done);
  }

  lemma StillSame(s: seq<Byte>, p: nat, done: seq<Rune>)
    requires Decoded(s, p, done)
    ensures EncodeAll(done) == s[..p]
  {
  }

  lemma WroteOne(f: Rune -> Rune, done: seq<Rune>, c: Rune)
    ensures EncodeAll(Map(f, done)) + Encode(f(c)) == EncodeAll(Map(f, done + [c]))
  {
    assert Map(f, done + [c]) == Map(f, done) + [f(c)];
    EncodeOneMore(Map(f, done), f(c));
  }

  lemma MapChanges(f: Rune -> Rune, done: seq<Rune>, c: Rune)
    ensures Map(f, done + [c]) == done + [c] <==> Map(f, done) == done && f(c) == c
  {
    assert Map(f, done + [c]) == Map(f, done) + [f(c)];
    assert (Map(f, done) + [f(c)])[..|done|] == Map(f, done) && (done + [c])[..|done|] == done;
    assert (Map(f, done) + [f(c)])[|done|] == f(c) && (done + [c])[|done|] == c;
  }
}
