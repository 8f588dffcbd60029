/** Unix paths as lists of components: parsing, normal form, reconstruction and joining. */
module PathAlgebra {

  datatype Split = Split(absolute: bool, comps: seq<string>)

  // ---------------------------------------------------------------- parsing

  /** The text cut at every slash. */
  function Pieces(s: string): (ps: seq<string>)
    ensures ps != []
  {
    if s == "" then [""] else Attach(s[0], Pieces(s[1..]))
  }

  function Attach(c: char, ps: seq<string>): (r: seq<string>)
    requires ps != []
    ensures r != []
  {
    if c == '/' then [""] + ps else [[c] + ps[0]] + ps[1..]
  }

  /** `AppendComponent` */
  function Step(cs: seq<string>, comp: string): seq<string> {
    if comp == "" || comp == "." then cs
    else if comp == ".." && cs != [] && cs[|cs| - 1] != ".." then cs[..|cs| - 1]
    else cs + [comp]
  }

  function Fold(cs: seq<string>, more: seq<string>): seq<string>
    decreases |more|
  {
    if more == [] then cs else Fold(Step(cs, more[0]), more[1..])
  }

  predicate IsAbsolutePath(s: string) {
    s != "" && s[0] == '/'
  }

  function Parse(s: string): Split {
    if s == "." then Split(false, ["."]) else Split(IsAbsolutePath(s), Fold([], Pieces(s)))
  }

  // ---------------------------------------------------------------- text

  function Joined(cs: seq<string>): string {
    if cs == [] then "" else if |cs| == 1 then cs[0] else cs[0] + "/" + Joined(cs[1..])
  }

  /** `Reconstruct` */
  function Text(p: Split): string {
    (if p.absolute then "/" else "") + Joined(p.comps)
  }

  // ---------------------------------------------------------------- normal form

  predicate NoSlash(s: string) {
    '/' !in s
  }

  predicate IsName(s: string) {
    s != "" && s != "." && s != ".." && NoSlash(s)
  }

  predicate AllNames(cs: seq<string>) {
    cs == [] || (IsName(cs[0]) && AllNames(cs[1..]))
  }

  /** A run of `..`, then plain names. */
  predicate Normal(cs: seq<string>) {
    AllNames(cs) || (cs[0] == ".." && Normal(cs[1..]))
  }

  ghost predicate AllNoSlash(cs: seq<string>) {
    forall i | 0 <= i < |cs| :: NoSlash(cs[i])
  }

  lemma {:induction false} PiecesHaveNoSlash(s: string)
    ensures AllNoSlash(Pieces(s))
  {
    if s != "" {
      PiecesHaveNoSlash(s[1..]);
      var ps := Pieces(s[1..]);
      if s[0] != '/' { assert NoSlash([s[0]] + ps[0]); }
    }
  }

  lemma {:induction false} NamesSnoc(cs: seq<string>, c: string)
    requires AllNames(cs) && IsName(c)
    ensures AllNames(cs + [c])
  {
    if cs != [] {
      NamesSnoc(cs[1..], c);
      assert (cs + [c])[1..] == cs[1..] + [c];
    }
  }

  lemma {:induction false} NamesInit(cs: seq<string>)
    requires AllNames(cs) && cs != []
    ensures IsName(cs[|cs| - 1]) && AllNames(cs[..|cs| - 1])
  {
    if |cs| > 1 {
      NamesInit(cs[1..]);
      assert cs[..|cs| - 1][1..] == cs[1..][..|cs| - 2];
    }
  }

  lemma {:induction false} StepNormal(cs: seq<string>, c: string)
    requires Normal(cs) && NoSlash(c)
    ensures Normal(Step(cs, c))
  {
    if c == "" || c == "." {
    } else if AllNames(cs) {
      if c == ".." {
        if cs == [] {
          assert [".."][1..] == [];
          assert Step(cs, c) == [".."];
        } else {
          NamesInit(cs);
        }
      } else {
        NamesSnoc(cs, c);
      }
    } else {
      StepNormal(cs[1..], c);
      var t := Step(cs[1..], c);
      if |cs| == 1 {
        assert cs == [".."];
        assert Step(cs, c) == [".."] + t;
      } else {
        assert cs[1..][|cs| - 2] == cs[|cs| - 1];
        assert Step(cs, c) == [".."] + t;
      }
      assert ([".."] + t)[1..] == t;
    }
  }

  lemma {:induction false} FoldNormal(cs: seq<string>, more: seq<string>)
    requires Normal(cs) && AllNoSlash(more)
    ensures Normal(Fold(cs, more))
    decreases |more|
  {
    if more != [] {
      StepNormal(cs, more[0]);
      FoldNormal(Step(cs, more[0]), more[1..]);
    }
  }

  /** The components of a parsed path are a run of `..` followed by plain names; only the path `.`
      keeps its dot. */
  lemma ParseNormal(s: string)
    ensures Normal(Parse(s).comps) <==> s != "."
  {
    if s != "." {
      PiecesHaveNoSlash(s);
      FoldNormal([], Pieces(s));
    } else {
      assert !IsName(".");
    }
  }

  // ---------------------------------------------------------------- reconstruction

  lemma {:induction false} PiecesOfName(s: string)
    requires NoSlash(s)
    ensures Pieces(s) == [s]
  {
    if s != "" {
      assert NoSlash(s[1..]);
      PiecesOfName(s[1..]);
      assert [s[0]] + s[1..] == s;
    }
  }

  lemma AttachConcat(c: char, x: seq<string>, y: seq<string>)
    requires x != []
    ensures Attach(c, x + y) == Attach(c, x) + y
  {
    assert (x + y)[1..] == x[1..] + y;
  }

  /** Cutting commutes with putting a slash between. */
  lemma {:induction false} PiecesConcat(a: string, b: string)
    ensures Pieces(a + "/" + b) == Pieces(a) + Pieces(b)
  {
    var t := a + "/" + b;
    if a == "" {
      assert t[1..] == b;
    } else {
      hide Attach;
      assert t[1..] == a[1..] + "/" + b && t[0] == a[0];
      PiecesConcat(a[1..], b);
      AttachConcat(a[0], Pieces(a[1..]), Pieces(b));
    }
  }

  /** The first slash, or the end */
  method FindSlash(s: string) returns (k: nat)
    ensures k <= |s| && NoSlash(s[..k]) && (k < |s| ==> s[k] == '/')
  {
    k := 0;
    while k < |s| && s[k] != '/'
      invariant k <= |s| && NoSlash(s[..k])
    {
      assert s[..k + 1] == s[..k] + [s[k]];
      k := k + 1;
    }
  }

  lemma FirstPiece(s: string, k: nat)
    requires k < |s| && NoSlash(s[..k]) && s[k] == '/'
    ensures Pieces(s) == [s[..k]] + Pieces(s[k + 1..])
  {
    hide Pieces;
    PiecesConcat(s[..k], s[k + 1..]);
    PiecesOfName(s[..k]);
    assert s[..k] + "/" + s[k + 1..] == s;
  }

  lemma {:induction false} PiecesOfJoined(cs: seq<string>)
    requires AllNoSlash(cs)
    ensures Pieces(Joined(cs)) == if cs == [] then [""] else cs
  {
    if cs == [] {
    } else if |cs| == 1 {
      PiecesOfName(cs[0]);
    } else {
      assert AllNoSlash(cs[1..]);
      PiecesOfJoined(cs[1..]);
      PiecesConcat(cs[0], Joined(cs[1..]));
      PiecesOfName(cs[0]);
    }
  }

  lemma {:induction false} FoldConcat(cs: seq<string>, a: seq<string>, b: seq<string>)
    ensures Fold(cs, a + b) == Fold(Fold(cs, a), b)
    decreases |a|
  {
    if a == [] {
      assert a + b == b;
    } else {
      assert (a + b)[1..] == a[1..] + b;
      FoldConcat(Step(cs, a[0]), a[1..], b);
    }
  }

  lemma FoldOne(cs: seq<string>, c: string)
    ensures Fold(cs, [c]) == Step(cs, c)
  {
    assert [c][1..] == [];
    assert Fold(Step(cs, c), []) == Step(cs, c);
  }

  /** Names are simply appended. */
  lemma {:induction false} FoldNames(cs: seq<string>, names: seq<string>)
    requires AllNames(names)
    ensures Fold(cs, names) == cs + names
    decreases |names|
  {
    if names == [] {
      assert cs + names == cs;
    } else {
      FoldNames(cs + [names[0]], names[1..]);
      assert cs + [names[0]] + names[1..] == cs + names;
    }
  }

  predicate AllUp(cs: seq<string>) {
    cs == [] || (cs[0] == ".." && AllUp(cs[1..]))
  }

  lemma {:induction false} LastUp(cs: seq<string>)
    requires AllUp(cs) && cs != []
    ensures cs[|cs| - 1] == ".." && AllUp(cs + [".."])
  {
    if |cs| > 1 {
      LastUp(cs[1..]);
      assert (cs + [".."])[1..] == cs[1..] + [".."];
    } else {
      assert cs == [".."];
      assert (cs + [".."])[1..] == [".."] && [".."][1..] == [];
      assert AllUp([".."]);
    }
  }

  /** Nothing changes when normal components are appended to a run of `..`. */
  lemma {:induction false} FoldOntoUp(up: seq<string>, cs: seq<string>)
    requires AllUp(up) && Normal(cs)
    ensures Fold(up, cs) == up + cs
    decreases |cs|
  {
    if AllNames(cs) {
      FoldNames(up, cs);
    } else {
      if up != [] {
        LastUp(up);
      } else {
        assert [".."][1..] == [];
        assert AllUp([".."]) && up + [".."] == [".."];
      }
      FoldOntoUp(up + [".."], cs[1..]);
      assert up + [".."] + cs[1..] == up + cs;
    }
  }

  lemma {:induction false} NormalHasNoSlash(cs: seq<string>)
    requires Normal(cs)
    ensures AllNoSlash(cs)
    decreases |cs|
  {
    if cs != [] {
      NormalTail(cs);
      NormalHasNoSlash(cs[1..]);
      assert NoSlash(cs[0]);
      assert forall i | 1 <= i < |cs| :: cs[i] == cs[1..][i - 1];
    }
  }

  lemma NormalTail(cs: seq<string>)
    requires Normal(cs) && cs != []
    ensures Normal(cs[1..])
  {
  }

  lemma JoinedStart(cs: seq<string>)
    requires Normal(cs)
    ensures !IsAbsolutePath(Joined(cs)) && Joined(cs) != "."
  {
    if |cs| == 1 {
      assert cs[1..] == [];
    } else if cs != [] {
      assert NoSlash(cs[0]) && cs[0] != "";
      assert cs[0][0] != '/';
      assert |Joined(cs)| > |cs[0]|;
    }
  }

  /** Normal components are what their own text parses to. */
  lemma ReparseNormal(p: Split)
    requires Normal(p.comps)
    ensures Parse(Text(p)) == p
  {
    hide Pieces, Joined, Fold, Normal, AllNoSlash;
    var cs, t := p.comps, Text(p);
    NormalHasNoSlash(cs);
    PiecesOfJoined(cs);
    JoinedStart(cs);
    FoldOntoUp([], cs);
    assert [] + cs == cs;
    FoldOne([], "");
    if p.absolute {
      assert t == "" + "/" + Joined(cs);
      PiecesConcat("", Joined(cs));
      PiecesOfName("");
      FoldConcat([], [""], Pieces(Joined(cs)));
      assert |t| == 1 + |Joined(cs)| && t[0] == '/';
    } else {
      assert t == Joined(cs);
    }
  }

  /** Re-parsing the reconstructed text gives the same components and the same absolute flag. */
  lemma Reparse(s: string)
    ensures Parse(Text(Parse(s))) == Parse(s)
  {
    ParseNormal(s);
    if s != "." {
      ReparseNormal(Parse(s));
    } else {
      assert Text(Parse(s)) == ".";
    }
  }

  // ---------------------------------------------------------------- joining

  /** What `JoinPaths` does, for a relative second path. */
  function Join(p: Split, q: Split): Split {
    Split(p.absolute, Fold(p.comps, q.comps))
  }

  /** Appending and then stepping is stepping first and then appending. */
  lemma StepThrough(cs: seq<string>, ds: seq<string>, c: string)
    requires Normal(ds) && NoSlash(c)
    ensures Fold(cs, Step(ds, c)) == Step(Fold(cs, ds), c)
  {
    FoldConcat(cs, ds, [c]);
    FoldOne(Fold(cs, ds), c);
    if c == ".." && ds != [] && ds[|ds| - 1] != ".." {
      var k := |ds| - 1;
      LastIsName(ds);
      assert ds == ds[..k] + [ds[k]];
      FoldConcat(cs, ds[..k], [ds[k]]);
      FoldOne(Fold(cs, ds[..k]), ds[k]);
      var f := Fold(cs, ds[..k]);
      assert (f + [ds[k]])[..|f|] == f;
    }
  }

  lemma {:induction false} LastIsName(cs: seq<string>)
    requires Normal(cs) && cs != [] && cs[|cs| - 1] != ".."
    ensures IsName(cs[|cs| - 1])
    decreases |cs|
  {
    if AllNames(cs) {
      NamesInit(cs);
    } else {
      LastIsName(cs[1..]);
    }
  }

  /** Appending normalized components is appending the original ones. */
  lemma {:induction false} FoldThrough(cs: seq<string>, ds: seq<string>, more: seq<string>)
    requires Normal(ds) && AllNoSlash(more)
    ensures Fold(cs, Fold(ds, more)) == Fold(Fold(cs, ds), more)
    decreases |more|
  {
    if more != [] {
      StepThrough(cs, ds, more[0]);
      StepNormal(ds, more[0]);
      FoldThrough(cs, Step(ds, more[0]), more[1..]);
    }
  }

  /** Appending a parsed path is appending its pieces. */
  lemma AppendParsed(cs: seq<string>, b: string)
    ensures Fold(cs, Parse(b).comps) == Fold(cs, Pieces(b))
  {
    if b == "." {
      PiecesOfName(b);
    } else {
      PiecesHaveNoSlash(b);
      FoldThrough(cs, [], Pieces(b));
    }
  }

  /** Joining equals parsing the two texts with a slash between, except after an empty path or a
      lone dot. */
  lemma JoinIsConcat(a: string, b: string)
    requires !IsAbsolutePath(b)
    ensures Join(Parse(a), Parse(b)) == Parse(a + "/" + b) <==> a != "" && a != "."
  {
    var t := a + "/" + b;
    assert t[|a|] == '/' && t != ".";
    AppendParsed(Parse(a).comps, b);
    PiecesConcat(a, b);
    FoldConcat([], Pieces(a), Pieces(b));
    if a == "." {
      PiecesOfName(a);
      FoldOne([], a);
      FoldHeight(["."], Pieces(b));
      FoldHeight([], Pieces(b));
      assert Height(["."]) == Height([]) + 1;
    } else if a != "" {
      assert t[0] == a[0];
    }
  }

  // ---------------------------------------------------------------- a lone dot

  /** How far below its start a path leads: names count up, `..` counts down. */
  function Height(cs: seq<string>): int {
    if cs == [] then 0 else Height(cs[..|cs| - 1]) + if cs[|cs| - 1] == ".." then -1 else 1
  }

  function Weight(more: seq<string>): int {
    if more == [] then 0
    else (if more[0] == "" || more[0] == "." then 0 else if more[0] == ".." then -1 else 1) + Weight(more[1..])
  }

  lemma {:induction false} FoldHeight(cs: seq<string>, more: seq<string>)
    ensures Height(Fold(cs, more)) == Height(cs) + Weight(more)
    decreases |more|
  {
    if more != [] {
      FoldHeight(Step(cs, more[0]), more[1..]);
      assert (cs + [more[0]])[..|cs|] == cs;
    }
  }

  lemma DotUnder(cs: seq<string>)
    requires Normal(cs)
    ensures Fold(["."], cs) == if cs != [] && cs[0] == ".." then cs[1..] else ["."] + cs
    ensures Fold([], cs) == cs
  {
    FoldOntoUp([], cs);
    assert [] + cs == cs;
    if AllNames(cs) {
      FoldNames(["."], cs);
    } else {
      NormalTail(cs);
      FoldOntoUp([], cs[1..]);
      assert [] + cs[1..] == cs[1..];
      assert Step(["."], "..") == [];
    }
  }

  /** `JoinPaths` on texts, for a relative second path. */
  function JoinText(a: string, b: string): string {
    Text(Join(Parse(a), Parse(b)))
  }

  lemma ParseJoin(a: string, b: string)
    requires a != "."
    ensures Parse(JoinText(a, b)) == Join(Parse(a), Parse(b))
  {
    ParseNormal(a);
    PiecesHaveNoSlash(b);
    AppendParsed(Parse(a).comps, b);
    FoldNormal(Parse(a).comps, Pieces(b));
    ReparseNormal(Join(Parse(a), Parse(b)));
  }

  predicate StartsUp(cs: seq<string>) {
    cs != [] && cs[0] == ".."
  }

  /** What a path joined to a lone dot parses to: the dot is lost in front of a name, kept on its
      own, and undone by `..`. */
  lemma ParseJoinDot(b: string)
    requires !IsAbsolutePath(b)
    ensures var cs := Parse(b).comps;
            Parse(JoinText(".", b)) ==
            Split(false, if b == "." || cs == [] then ["."] else if StartsUp(cs) then cs[1..] else cs)
  {
    var cs := Parse(b).comps;
    if b == "." {
      FoldOne(["."], ".");
      assert JoinText(".", b) == ".";
    } else {
      ParseNormal(b);
      DotUnder(cs);
      if cs == [] {
        assert JoinText(".", b) == ".";
      } else if StartsUp(cs) {
        NormalTail(cs);
        ReparseNormal(Split(false, cs[1..]));
      } else {
        Dotted(cs);
      }
    }
  }

  lemma Dotted(cs: seq<string>)
    requires Normal(cs) && cs != []
    ensures Parse(Text(Split(false, ["."] + cs))) == Split(false, cs)
  {
    var t := Text(Split(false, ["."] + cs));
    assert (["."] + cs)[1..] == cs;
    assert t == "." + "/" + Joined(cs) && t[1] == '/';
    PiecesConcat(".", Joined(cs));
    PiecesOfName(".");
    NormalHasNoSlash(cs);
    PiecesOfJoined(cs);
    FoldConcat([], ["."], cs);
    FoldOne([], ".");
    FoldOntoUp([], cs);
    assert [] + cs == cs;
  }

  /** Components as they occur anywhere: without slashes, not empty. */
  ghost predicate Proper(cs: seq<string>) {
    forall i | 0 <= i < |cs| :: NoSlash(cs[i]) && cs[i] != ""
  }

  lemma {:induction false} FoldProper(cs: seq<string>, more: seq<string>)
    requires Proper(cs) && AllNoSlash(more)
    ensures Proper(Fold(cs, more))
    decreases |more|
  {
    if more != [] { FoldProper(Step(cs, more[0]), more[1..]); }
  }

  lemma ParseProper(s: string)
    ensures Proper(Parse(s).comps)
  {
    if s != "." {
      PiecesHaveNoSlash(s);
      FoldProper([], Pieces(s));
    }
  }

  /** Different components have different texts. */
  lemma TextInjective(p: Split, q: Split)
    requires p.absolute == q.absolute && Proper(p.comps) && Proper(q.comps) && Text(p) == Text(q)
    ensures p == q
  {
    var skip := if p.absolute then 1 else 0;
    assert Joined(p.comps) == Text(p)[skip..] && Joined(q.comps) == Text(q)[skip..];
    PiecesOfJoined(p.comps);
    PiecesOfJoined(q.comps);
  }

  lemma AppendedProper(cs: seq<string>, c: string)
    requires Proper(cs)
    ensures Proper(Fold(cs, Parse(c).comps))
  {
    ParseProper(c);
    FoldProper(cs, Parse(c).comps);
  }

  /** Texts of different height are different. */
  lemma HigherDiffers(absolute: bool, x: seq<string>, y: seq<string>)
    requires Proper(x) && Proper(y) && Height(x) != Height(y)
    ensures Text(Split(absolute, x)) != Text(Split(absolute, y))
  {
    if Text(Split(absolute, x)) == Text(Split(absolute, y)) {
      TextInjective(Split(absolute, x), Split(absolute, y));
      assert false;
    }
  }

  /** When joining three paths does not depend on the order. */
  predicate Associates(a: string, b: string, c: string) {
    if b == "." then !StartsUp(Parse(c).comps)
    else a == "." ==> Parse(b).comps == [] || StartsUp(Parse(b).comps)
  }

  ghost predicate Associative(a: string, b: string, c: string) {
    JoinText(JoinText(a, b), c) == JoinText(a, JoinText(b, c))
  }

  /** Joining is associative, always if neither of the first two paths is a lone dot, and otherwise
      exactly if the dot meets no name from the left and no `..` from the right. */
  lemma JoinAssociative(a: string, b: string, c: string)
    requires !IsAbsolutePath(b) && !IsAbsolutePath(c)
    ensures Associative(a, b, c) <==> Associates(a, b, c)
  {
    if b == "." {
      AroundDot(a, c);
    } else {
      var p, ds := Parse(a), Parse(b).comps;
      ParseJoin(b, c);
      ParseNormal(b);
      PiecesHaveNoSlash(c);
      AppendParsed(ds, c);
      AppendParsed(Fold(p.comps, ds), c);
      FoldThrough(p.comps, ds, Pieces(c));
      assert JoinText(a, JoinText(b, c)) == Text(Split(p.absolute, Fold(Fold(p.comps, ds), Parse(c).comps)));
      if a == "." {
        AfterDot(b, c);
      } else {
        ParseJoin(a, b);
      }
    }
  }

  lemma AfterDot(b: string, c: string)
    requires b != "." && !IsAbsolutePath(b) && !IsAbsolutePath(c)
    ensures JoinText(JoinText(".", b), c) == Text(Split(false, Fold(Fold(["."], Parse(b).comps), Parse(c).comps))) <==>
            Parse(b).comps == [] || StartsUp(Parse(b).comps)
  {
    var ds, es := Parse(b).comps, Parse(c).comps;
    ParseNormal(b);
    DotUnder(ds);
    ParseJoinDot(b);
    if ds != [] && !StartsUp(ds) {
      ParseProper(b);
      AppendedProper(ds, c);
      AppendedProper(["."] + ds, c);
      FoldHeight(ds, es);
      FoldHeight(["."] + ds, es);
      FoldHeight(["."], ds);
      FoldHeight([], ds);
      assert Height(["."]) == Height([]) + 1;
      HigherDiffers(false, Fold(ds, es), Fold(["."] + ds, es));
    }
  }

  lemma AroundDot(a: string, c: string)
    requires !IsAbsolutePath(c)
    ensures Associative(a, ".", c) <==> !StartsUp(Parse(c).comps)
  {
    var p, es := Parse(a), Parse(c).comps;
    FoldOne(p.comps, ".");
    Reparse(a);
    ParseJoinDot(c);
    assert JoinText(JoinText(a, "."), c) == Text(Split(p.absolute, Fold(p.comps, es)));
    if c == "." {
    } else if es == [] {
    } else if StartsUp(es) {
      ParseProper(a);
      ParseProper(c);
      FoldProper(p.comps, es);
      FoldProper(p.comps, es[1..]);
      FoldHeight(p.comps, es);
      FoldHeight(p.comps, es[1..]);
      HigherDiffers(p.absolute, Fold(p.comps, es), Fold(p.comps, es[1..]));
    }
  }
}
