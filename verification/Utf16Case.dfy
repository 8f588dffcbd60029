/** Symbol by symbol rewriting of UTF-16 text, in place and into another buffer.

In place, a rewritten symbol goes on top of the old one.  That is sound for a mapping that respects
the planes, and then the text decodes to the mapped symbols, stray surrogates included.
*/
module Utf16Case {
  import opened Utf8
  import opened Utf8Text
  import opened Utf8Case
  import opened Utf16

  /** `f` keeps scalars in the basic plane or outside it, and never yields surrogates. */
  ghost predicate RespectsPlanes(f: Rune -> Rune) {
    forall r: Rune | IsScalar(r) :: IsScalar(f(r)) && (f(r) < 0x10000 <==> r < 0x10000)
  }

  /** What happens to the symbol at the start of `u`. */
  function Rewrite(f: Rune -> Rune, u: seq<Unit>): (w: seq<Unit>)
    requires u != []
  {
    var symbol := ReadSymbol(u);
    if f(symbol) != symbol then Units(f(symbol)) else u[..SymbolSize(u)]
  }

  /** In-place rewriting, on values. */
  function Rewritten(f: Rune -> Rune, u: seq<Unit>): seq<Unit> {
    if u == [] then [] else Rewrite(f, u) + Rewritten(f, u[SymbolSize(u)..])
  }

  /** The lengths of the symbols, one after another. */
  function Sizes(u: seq<Unit>): seq<nat> {
    if u == [] then [] else [SymbolSize(u)] + Sizes(u[SymbolSize(u)..])
  }

  /** A rewritten symbol takes the place of the old one exactly, and reads as its image. */
  lemma RewriteOne(f: Rune -> Rune, u: seq<Unit>)
    requires RespectsPlanes(f) && u != []
    ensures var w := Rewrite(f, u);
            && |w| == SymbolSize(u)
            && (IsTrail(w[0]) ==> IsTrail(u[0]))
            && (IsLead(w[0]) ==> IsLead(u[0]))
            && (StartsWithPair(w) <==> StartsWithPair(u))
            && ReadSymbol(w) == f(ReadSymbol(u))
  {
    hide FromPair;
    ReadIsScalar(u);
    var symbol := ReadSymbol(u);
    assert IsScalar(f(symbol));
    WriteRead(f(symbol), []);
    assert Units(f(symbol)) + [] == Units(f(symbol));
  }

  /** A symbol reads the same with something behind it, unless a stray lead meets a trail. */
  lemma ReadWithMore(w: seq<Unit>, rest: seq<Unit>)
    requires w != [] && |w| == SymbolSize(w)
    requires IsLead(w[|w| - 1]) && rest != [] ==> !IsTrail(rest[0])
    ensures SymbolSize(w + rest) == |w| && ReadSymbol(w + rest) == ReadSymbol(w)
  {
    hide FromPair;
  }

  lemma RewrittenStart(f: Rune -> Rune, u: seq<Unit>)
    requires RespectsPlanes(f) && u != [] && !IsTrail(u[0])
    ensures Rewritten(f, u) != [] && !IsTrail(Rewritten(f, u)[0])
  {
    RewriteOne(f, u);
  }

  /** In-place rewriting keeps the length and every symbol boundary, and the result decodes to the
      mapped symbols. */
  lemma {:induction false} RewrittenIsMap(f: Rune -> Rune, u: seq<Unit>)
    requires RespectsPlanes(f)
    ensures |Rewritten(f, u)| == |u| && Sizes(Rewritten(f, u)) == Sizes(u)
    ensures Symbols(Rewritten(f, u)) == Map(f, Symbols(u))
    decreases |u|
  {
    hide ReadSymbol, Rewrite, RespectsPlanes;
    if u != [] {
      var n := SymbolSize(u);
      var w, rest := Rewrite(f, u), Rewritten(f, u[n..]);
      RewriteOne(f, u);
      RewrittenIsMap(f, u[n..]);
      if u[n..] != [] && n == 1 && IsLead(u[0]) { RewrittenStart(f, u[n..]); }
      ReadWithMore(w, rest);
      assert (w + rest)[n..] == rest;
      var rs := Symbols(u);
      assert rs[0] == ReadSymbol(u) && rs[1..] == Symbols(u[n..]);
    }
  }

  /** Some symbol of `u` changes. */
  predicate AnyChange(f: Rune -> Rune, u: seq<Unit>) {
    u != [] && (f(ReadSymbol(u)) != ReadSymbol(u) || AnyChange(f, u[SymbolSize(u)..]))
  }

  lemma {:induction false} AnyChangeMeans(f: Rune -> Rune, u: seq<Unit>)
    ensures AnyChange(f, u) <==> Map(f, Symbols(u)) != Symbols(u)
    decreases |u|
  {
    hide ReadSymbol;
    if u != [] {
      var rs, tail := Symbols(u), Symbols(u[SymbolSize(u)..]);
      AnyChangeMeans(f, u[SymbolSize(u)..]);
      assert rs[0] == ReadSymbol(u) && rs[1..] == tail;
      assert Map(f, rs)[0] == f(rs[0]) && Map(f, rs)[1..] == Map(f, tail);
    }
  }

  // ---------------------------------------------------------------- in place

  /** `r` has replaced the first `|r|` units of `u`, and a symbol starts behind them. */
  ghost predicate Progress(f: Rune -> Rune, u: seq<Unit>, r: seq<Unit>) {
    |r| <= |u| && Rewritten(f, u) == r + Rewritten(f, u[|r|..])
  }

  lemma ProgressOne(f: Rune -> Rune, u: seq<Unit>, r: seq<Unit>)
    requires RespectsPlanes(f) && Progress(f, u, r) && |r| < |u|
    ensures var t := u[|r|..]; |Rewrite(f, t)| == SymbolSize(t) && Progress(f, u, r + Rewrite(f, t))
  {
    hide Rewrite, RespectsPlanes, ReadSymbol, StartsWithPair;
    var t := u[|r|..];
    RewriteOne(f, t);
    var w := Rewrite(f, t);
    assert t[|w|..] == u[|r + w|..];
    assert r + (w + Rewritten(f, t[|w|..])) == r + w + Rewritten(f, t[|w|..]);
  }

  lemma ProgressStart(f: Rune -> Rune, u: seq<Unit>)
    ensures Progress(f, u, [])
  {
    assert u[0..] == u;
  }

  lemma ProgressEnd(f: Rune -> Rune, u: seq<Unit>, r: seq<Unit>)
    requires Progress(f, u, r) && |r| == |u|
    ensures Rewritten(f, u) == r
  {
  }

  lemma SkipOne(f: Rune -> Rune, u: seq<Unit>, k: nat)
    requires RespectsPlanes(f) && k < |u| && Progress(f, u, u[..k])
    requires f(ReadSymbol(u[k..])) == ReadSymbol(u[k..])
    ensures var n := SymbolSize(u[k..]);
            && k + n <= |u| && Progress(f, u, u[..k + n])
            && (AnyChange(f, u[k..]) <==> AnyChange(f, u[k + n..]))
  {
    hide ReadSymbol, Units, Progress, RespectsPlanes;
    var t := u[k..];
    var n := SymbolSize(t);
    ProgressOne(f, u, u[..k]);
    assert u[..k] + t[..n] == u[..k + n] && t[n..] == u[k + n..];
  }

  lemma ChangesHere(f: Rune -> Rune, t: seq<Unit>)
    requires t != [] && f(ReadSymbol(t)) != ReadSymbol(t)
    ensures AnyChange(f, t)
  {
  }

  /** `ModifySequence<true>` up to the first symbol that changes */
  method FindChange(a: array<Unit>, p0: nat, pe: nat, f: Rune -> Rune) returns (found: bool, p: nat)
    requires RespectsPlanes(f) && p0 <= pe <= a.Length
    ensures p0 <= p <= pe && Progress(f, a[p0..pe], a[p0..p])
    ensures found <==> AnyChange(f, a[p0..pe])
    ensures !found ==> p == pe
    ensures found ==> p < pe && f(ReadSymbol(a[p..pe])) != ReadSymbol(a[p..pe])
  {
    hide ReadSymbol, RespectsPlanes, Progress, AnyChange, StartsWithPair;
    p := p0;
    ghost var u := a[p0..pe];
    assert u[0..] == u && u[..0] == [];
    ProgressStart(f, u);
    while p != pe
      invariant p0 <= p <= pe && Progress(f, u, u[..p - p0])
      invariant AnyChange(f, u) <==> AnyChange(f, u[p - p0..])
      decreases pe - p
    {
      var t := a[p..pe];
      assert u[p - p0..] == t;
      var symbol := ReadSymbol(t);
      if f(symbol) != symbol {
        ChangesHere(f, t);
        assert u[..p - p0] == a[p0..p];
        assert t == a[p..pe];
        return true, p;
      }
      SkipOne(f, u, p - p0);
      p := p + SymbolSize(t);
    }
    assert u[..pe - p0] == a[p0..pe];
    NoChange(f, u[pe - p0..]);
    return false, p;
  }

  lemma NoChange(f: Rune -> Rune, t: seq<Unit>)
    requires t == []
    ensures !AnyChange(f, t)
  {
  }

  lemma RewriteCases(f: Rune -> Rune, t: seq<Unit>)
    requires t != []
    ensures Rewrite(f, t) == if f(ReadSymbol(t)) != ReadSymbol(t) then Units(f(ReadSymbol(t))) else t[..SymbolSize(t)]
  {
  }

  /** `ModifySequence<false>`: all the rest is rewritten where it stands. */
  method ModifyRest(a: array<Unit>, p0: nat, pe: nat, f: Rune -> Rune)
    requires RespectsPlanes(f) && p0 <= pe <= a.Length
    modifies a
    ensures a[..p0] == old(a[..p0]) && a[pe..] == old(a[pe..])
    ensures a[p0..pe] == Rewritten(f, old(a[p0..pe]))
  {
    hide ReadSymbol, RespectsPlanes, Units, Progress, Rewrite, Rewritten, StartsWithPair;
    var p := p0;
    ghost var u := a[p0..pe];
    ProgressStart(f, u);
    assert a[p0..p] == [] && u[0..] == u;
    while p != pe
      invariant p0 <= p <= pe
      invariant Progress(f, u, a[p0..p]) && a[p..pe] == u[p - p0..]
      invariant a[..p0] == old(a[..p0]) && a[pe..] == old(a[pe..])
      decreases pe - p
    {
      var t := a[p..pe];
      var symbol := ReadSymbol(t);
      ghost var w, was := Rewrite(f, t), a[..];
      ProgressOne(f, u, a[p0..p]);
      RewriteCases(f, t);
      assert was[..p] == a[..p] && was[p0..p] == a[p0..p] && was[p..pe] == t;
      var q;
      if f(symbol) != symbol {
        q := WriteSymbol(f(symbol), a, p);
        Pieces(was, a[..], p, q, w);
      } else {
        q := p + SymbolSize(t);
        assert a[..q] == was[..p] + t[..q - p];
      }
      Overwritten(was, a[..], p0, p, q, pe, w);
      assert t[q - p..] == u[q - p0..];
      p := q;
    }
    ProgressEnd(f, u, a[p0..pe]);
  }

  lemma Pieces(was: seq<Unit>, now: seq<Unit>, p: nat, q: nat, w: seq<Unit>)
    requires p <= q <= |was| == |now| && now[..q] == was[..p] + w && now[q..] == was[q..]
    ensures now == was[..p] + w + was[q..]
  {
    assert now == now[..q] + now[q..];
  }

  /** Writing `w` at `p` leaves everything in front of it and behind it alone. */
  lemma Overwritten(was: seq<Unit>, now: seq<Unit>, p0: nat, p: nat, q: nat, pe: nat, w: seq<Unit>)
    requires p0 <= p <= q <= pe <= |was| == |now|
    requires now[..q] == was[..p] + w && now[q..] == was[q..]
    ensures now[..p0] == was[..p0] && now[p0..q] == was[p0..p] + w
    ensures now[q..pe] == was[p..pe][q - p..] && now[pe..] == was[pe..]
  {
    assert now[..p0] == now[..q][..p0] && now[p0..q] == now[..q][p0..];
    assert now[q..pe] == now[q..][..pe - q] && now[pe..] == now[q..][pe - q..];
  }

  /** `ModifyStringSymbolwise`: the range is clamped to the text; nothing outside it changes. */
  method ModifySymbolwise(text: array<Unit>, pos: nat, count: nat, f: Rune -> Rune) returns (changed: bool)
    requires RespectsPlanes(f)
    modifies text
    ensures var from := if pos < text.Length then pos else text.Length;
            var to := if count < text.Length - from then from + count else text.Length;
            && (changed <==> Map(f, Symbols(old(text[from..to]))) != Symbols(old(text[from..to])))
            && text[..from] == old(text[..from]) && text[to..] == old(text[to..])
            && text[from..to] == Rewritten(f, old(text[from..to]))
  {
    hide RespectsPlanes, Symbols, Rewritten, Map, AnyChange;
    var from := if pos < text.Length then pos else text.Length;
    var to := if count < text.Length - from then from + count else text.Length;
    ghost var u := text[from..to];
    AnyChangeMeans(f, u);
    var p;
    changed, p := FindChange(text, from, to, f);
    ghost var kept := text[from..p];
    assert text[from..to] == kept + text[p..to] && u[|kept|..] == text[p..to];
    if changed {
      ghost var head, was := text[..p], text[p..to];
      assert text[..from] == head[..from] && kept == head[from..];
      ModifyRest(text, p, to, f);
      assert text[..from] == head[..from] && text[from..p] == head[from..];
      assert text[from..to] == text[from..p] + text[p..to];
    } else {
      ProgressEnd(f, u, kept);
    }
  }

  // ---------------------------------------------------------------- into another buffer

  /** What is written for the symbols of `u`. */
  function Copied(f: Rune -> Rune, u: seq<Unit>): seq<Unit> {
    UnitsAll(Map(f, Symbols(u)))
  }

  lemma CopiedOne(f: Rune -> Rune, u: seq<Unit>)
    requires u != []
    ensures Copied(f, u) == Units(f(ReadSymbol(u))) + Copied(f, u[SymbolSize(u)..])
  {
    hide ReadSymbol, Units;
    var rs := Symbols(u);
    assert rs[0] == ReadSymbol(u) && rs[1..] == Symbols(u[SymbolSize(u)..]);
    assert Map(f, rs)[0] == f(rs[0]) && Map(f, rs)[1..] == Map(f, rs[1..]);
  }

  /** `ModifySequence` with an output pointer, both phases: the first one copies as long as nothing
      changes. */
  method ModifyInto(u: seq<Unit>, f: Rune -> Rune, out: array<Unit>) returns (changed: bool, written: nat)
    requires out.Length >= |Copied(f, u)|
    modifies out
    ensures written <= out.Length && out[..written] == Copied(f, u)
    ensures changed <==> Map(f, Symbols(u)) != Symbols(u)
  {
    hide ReadSymbol, Units, Copied;
    var p := 0;
    changed, written := false, 0;
    assert u[0..] == u && out[..0] == [];
    AnyChangeMeans(f, u);
    while p != |u|
      invariant 0 <= p <= |u| && written <= out.Length
      invariant Copied(f, u) == out[..written] + Copied(f, u[p..])
      invariant AnyChange(f, u) <==> changed || AnyChange(f, u[p..])
      decreases |u| - p, !changed
    {
      var t := u[p..];
      var symbol, n := ReadSymbol(t), SymbolSize(t);
      if !changed && f(symbol) != symbol {
        changed := true;
      } else {
        CopiedOne(f, t);
        assert t[n..] == u[p + n..];
        ghost var before := out[..written];
        assert before + (Units(f(symbol)) + Copied(f, t[n..])) == before + Units(f(symbol)) + Copied(f, t[n..]);
        written := WriteSymbol(f(symbol), out, written);
        p := p + n;
      }
    }
    assert u[p..] == [];
    CopiedNone(f);
  }

  /** The same with one buffer for both, which the callers may pass: each symbol is written over
      itself, and what is read is never what was written. */
  method ModifyOnto(a: array<Unit>, f: Rune -> Rune) returns (changed: bool)
    requires RespectsPlanes(f)
    modifies a
    ensures a[..] == Copied(f, old(a[..]))
    ensures changed <==> Map(f, Symbols(old(a[..]))) != Symbols(old(a[..]))
  {
    hide RespectsPlanes, ReadSymbol, Units, Copied, Rewrite, Map, AnyChange, StartsWithPair;
    var p, out := 0, 0;
    changed := false;
    ghost var u := a[..];
    assert u[0..] == u && a[..0] == [] && [] + Copied(f, u) == Copied(f, u);
    AnyChangeMeans(f, u);
    while p != a.Length
      invariant 0 <= p == out <= a.Length && a[p..] == u[p..]
      invariant Copied(f, u) == a[..p] + Copied(f, u[p..])
      invariant AnyChange(f, u) <==> changed || AnyChange(f, u[p..])
      decreases a.Length - p, !changed
    {
      var t := a[p..];
      var symbol, n := ReadSymbol(t), SymbolSize(t);
      AnyChangeHere(f, t);
      if !changed && f(symbol) != symbol {
        changed := true;
      } else {
        CopiedOne(f, t);
        SameSize(f, t);
        assert t[n..] == u[p + n..] && u[p + n..] == u[p..][n..];
        ghost var before := a[..p];
        assert before + (Units(f(symbol)) + Copied(f, t[n..])) == before + Units(f(symbol)) + Copied(f, t[n..]);
        p := p + n;
        out := WriteSymbol(f(symbol), a, out);
      }
    }
    assert u[p..] == [] && a[..p] == a[..];
    CopiedNone(f);
    NoChange(f, u[p..]);
  }

  lemma AnyChangeHere(f: Rune -> Rune, t: seq<Unit>)
    requires t != []
    ensures AnyChange(f, t) <==> f(ReadSymbol(t)) != ReadSymbol(t) || AnyChange(f, t[SymbolSize(t)..])
  {
  }

  lemma CopiedNone(f: Rune -> Rune)
    ensures Copied(f, []) == []
  {
  }

  /** The two agree exactly on well-formed text, and otherwise only if stray surrogates are
      rewritten too. */
  lemma {:induction false} InPlaceIsCopy(f: Rune -> Rune, u: seq<Unit>)
    requires RespectsPlanes(f)
    ensures Rewritten(f, u) == Copied(f, u) <==> WellFormed(u) || f(BROKEN_RUNE) != BROKEN_RUNE
    decreases |u|
  {
    hide RespectsPlanes;
    if u != [] {
      var n := SymbolSize(u);
      RewriteOne(f, u);
      CopiedOne(f, u);
      ReadIsScalar(u);
      InPlaceIsCopy(f, u[n..]);
      var w, v := Rewrite(f, u), Units(f(ReadSymbol(u)));
      SameSize(f, u);
      hide Rewrite, Units, ReadSymbol, Copied;
      assert Rewritten(f, u) == w + Rewritten(f, u[n..]);
      Cancel(w, v, Rewritten(f, u[n..]), Copied(f, u[n..]));
    }
  }

  lemma SameSize(f: Rune -> Rune, u: seq<Unit>)
    requires RespectsPlanes(f) && u != []
    ensures |Units(f(ReadSymbol(u)))| == SymbolSize(u) == |Rewrite(f, u)|
    ensures Rewrite(f, u) == Units(f(ReadSymbol(u))) <==>
            StartsWithPair(u) || !IsSurrogate(u[0]) || f(BROKEN_RUNE) != BROKEN_RUNE
  {
    hide FromPair;
    ReadIsScalar(u);
    assert IsScalar(f(ReadSymbol(u)));
  }

  lemma Cancel(a: seq<Unit>, b: seq<Unit>, x: seq<Unit>, y: seq<Unit>)
    requires |a| == |b|
    ensures a + x == b + y <==> a == b && x == y
  {
    if a + x == b + y {
      assert a == (a + x)[..|a|] && b == (b + y)[..|b|];
      assert x == (a + x)[|a|..] && y == (b + y)[|b|..];
    }
  }
}
