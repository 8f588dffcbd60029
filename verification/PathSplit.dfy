/** `TPathSplitUnix`: a vector of components that parsing appends to. */
module PathSplit {
  import opened PathAlgebra

  datatype JoinResult = Joint(path: string) | CannotJoin

  class Store {
    var components: seq<string>
    var isAbsolute: bool

    ghost function View(): Split
      reads this
    {
      Split(isAbsolute, components)
    }

    /** The default constructor */
    constructor ()
      ensures View() == Split(false, [])
    {
      components := [];
      isAbsolute := false;
    }

    method AppendComponent(comp: string)
      modifies this`components
      ensures components == Step(old(components), comp)
    {
      if comp == "" || comp == "." {
      } else if comp == ".." && components != [] && components[|components| - 1] != ".." {
        components := components[..|components| - 1];
      } else {
        components := components + [comp];
      }
    }

    /** `DoParsePart` */
    method ParsePart(part0: string)
      modifies this`components
      ensures components == Fold(old(components), Pieces(part0))
    {
      var next := part0;
      var slash := FindSlash(next);
      while slash < |next|
        invariant 0 <= slash <= |next| && NoSlash(next[..slash]) && (slash < |next| ==> next[slash] == '/')
        invariant Fold(old(components), Pieces(part0)) == Fold(components, Pieces(next))
        decreases |next|
      {
        var part := next[..slash];
        FirstPiece(next, slash);
        FoldConcat(components, [part], Pieces(next[slash + 1..]));
        FoldOne(components, part);
        AppendComponent(part);
        next := next[slash + 1..];
        slash := FindSlash(next);
      }
      assert next[..slash] == next;
      PiecesOfName(next);
      FoldOne(components, next);
      AppendComponent(next);
    }

    /** `DoParseFirstPart` */
    method ParseFirstPart(part: string)
      modifies this
      ensures part == "." ==> View() == Split(old(isAbsolute), old(components) + ["."])
      ensures part != "." ==> View() == Split(old(isAbsolute) || IsAbsolutePath(part), Fold(old(components), Pieces(part)))
    {
      if part == "." {
        components := components + ["."];
        return;
      }
      if IsAbsolutePath(part) { isAbsolute := true; }
      ParsePart(part);
    }

    method AppendMany(cs: seq<string>)
      modifies this`components
      ensures components == Fold(old(components), cs)
    {
      var i := 0;
      assert cs[0..] == cs;
      while i < |cs|
        invariant 0 <= i <= |cs| && Fold(old(components), cs) == Fold(components, cs[i..])
      {
        assert cs[i..][1..] == cs[i + 1..];
        AppendComponent(cs[i]);
        i := i + 1;
      }
    }

    /** `DoReconstruct` */
    method Reconstruct() returns (r: string)
      ensures r == Text(View())
    {
      hide Joined, Tail;
      r := "";
      if isAbsolute { r := r + "/"; }
      TailStart(components);
      var i := 0;
      while i < |components|
        invariant 0 <= i <= |components|
        invariant Text(View()) == r + Tail(components, i)
        decreases |components| - i
      {
        TailStep(r, components, i);
        if i != 0 { r := r + "/"; }
        r := r + components[i];
        i := i + 1;
      }
      TailEnd(components);
    }
  }

  /** What is still to be written from component `i` on. */
  ghost function Tail(cs: seq<string>, i: nat): string
    requires i <= |cs|
  {
    if i == |cs| then "" else if i == 0 then Joined(cs) else "/" + Joined(cs[i..])
  }

  lemma TailStart(cs: seq<string>)
    ensures Tail(cs, 0) == Joined(cs)
  {
  }

  lemma TailEnd(cs: seq<string>)
    ensures Tail(cs, |cs|) == ""
  {
  }

  lemma JoinedFrom(cs: seq<string>, i: nat)
    requires i < |cs|
    ensures Joined(cs[i..]) == cs[i] + Tail(cs, i + 1)
  {
    var t := cs[i..];
    if |t| > 1 {
      assert t[1..] == cs[i + 1..];
      assert cs[i] + ("/" + Joined(cs[i + 1..])) == cs[i] + "/" + Joined(cs[i + 1..]);
    } else {
      assert cs[i] + "" == cs[i];
    }
  }

  lemma TailStep(r: string, cs: seq<string>, i: nat)
    requires i < |cs|
    ensures r + Tail(cs, i) == (if i == 0 then r else r + "/") + cs[i] + Tail(cs, i + 1)
  {
    hide Joined, Tail;
    var lead := if i == 0 then "" else "/";
    JoinedFrom(cs, i);
    TailIs(cs, i);
    assert r + (lead + (cs[i] + Tail(cs, i + 1))) == r + lead + cs[i] + Tail(cs, i + 1);
    assert i == 0 ==> r + lead == r;
  }

  lemma TailIs(cs: seq<string>, i: nat)
    requires i < |cs|
    ensures Tail(cs, i) == (if i == 0 then "" else "/") + Joined(cs[i..])
  {
    assert cs[0..] == cs;
    assert "" + Joined(cs) == Joined(cs);
  }

  /** `TPathSplit(path)` */
  method ParsePath(path: string) returns (p: Store)
    ensures fresh(p) && p.View() == Parse(path)
  {
    p := new Store();
    p.ParseFirstPart(path);
    assert [] + ["."] == ["."];
  }

  /** `JoinPaths`: an absolute second path is refused. */
  method JoinPaths(p1: Store, p2: Store) returns (r: JoinResult)
    ensures r == if p2.isAbsolute then CannotJoin else Joint(Text(Join(p1.View(), p2.View())))
  {
    if p2.isAbsolute { return CannotJoin; }
    var p := new Store();
    p.components, p.isAbsolute := p1.components, p1.isAbsolute;
    p.AppendMany(p2.components);
    var text := p.Reconstruct();
    return Joint(text);
  }

  /** Joining a non-empty path other than a lone dot with a relative one is parsing both texts with a
      slash between. */
  method JoinTexts(a: string, b: string) returns (r: JoinResult)
    ensures IsAbsolutePath(b) ==> r == CannotJoin
    ensures !IsAbsolutePath(b) ==> r == Joint(JoinText(a, b))
    ensures !IsAbsolutePath(b) && a != "" && a != "." ==> r == Joint(Text(Parse(a + "/" + b)))
  {
    var p1 := ParsePath(a);
    var p2 := ParsePath(b);
    if !IsAbsolutePath(b) { JoinIsConcat(a, b); }
    r := JoinPaths(p1, p2);
  }
}
