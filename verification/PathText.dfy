/** The text that a path is reconstructed to is the shortest one that parses to it. */
module PathText {
  import opened PathAlgebra

  /** The letters of the pieces, and one for what separates or ends each. */
  function Size(cs: seq<string>): nat {
    if cs == [] then 0 else |cs[0]| + 1 + Size(cs[1..])
  }

  lemma {:induction false} SizeConcat(a: seq<string>, b: seq<string>)
    ensures Size(a + b) == Size(a) + Size(b)
  {
    if a == [] {
      assert a + b == b;
    } else {
      assert (a + b)[1..] == a[1..] + b;
      SizeConcat(a[1..], b);
    }
  }

  lemma {:induction false} JoinedSize(cs: seq<string>)
    ensures |Joined(cs)| == if cs == [] then 0 else Size(cs) - 1
  {
    if |cs| > 1 { JoinedSize(cs[1..]); }
  }

  lemma AttachSize(c: char, ps: seq<string>)
    requires ps != []
    ensures Joined(Attach(c, ps)) == [c] + Joined(ps) && Size(Attach(c, ps)) == 1 + Size(ps)
  {
    var tail := ps[1..];
    if c == '/' {
      assert ([""] + ps)[1..] == ps;
    } else {
      assert ([[c] + ps[0]] + tail)[1..] == tail;
      assert [c] + ps[0] + "/" + Joined(tail) == [c] + (ps[0] + "/" + Joined(tail));
    }
  }

  lemma {:induction false} JoinedPieces(s: string)
    ensures Joined(Pieces(s)) == s && Size(Pieces(s)) == |s| + 1
  {
    if s != "" {
      hide Attach;
      JoinedPieces(s[1..]);
      AttachSize(s[0], Pieces(s[1..]));
    }
  }

  /** A component is appended, or something is dropped. */
  lemma StepSize(cs: seq<string>, c: string)
    ensures Step(cs, c) == cs + [c] || Size(Step(cs, c)) < Size(cs) + |c| + 1
  {
    if cs != [] {
      var k := |cs| - 1;
      assert cs == cs[..k] + [cs[k]];
      SizeConcat(cs[..k], [cs[k]]);
    }
  }

  lemma {:induction false} FoldSize(cs: seq<string>, more: seq<string>)
    ensures Fold(cs, more) == cs + more || Size(Fold(cs, more)) < Size(cs) + Size(more)
    decreases |more|
  {
    if more == [] {
      assert cs + more == cs;
    } else {
      var cs' := Step(cs, more[0]);
      StepSize(cs, more[0]);
      FoldSize(cs', more[1..]);
      SizeConcat(cs', more[1..]);
      SizeConcat(cs, [more[0]]);
      assert cs + [more[0]] + more[1..] == cs + more;
    }
  }

  /** The first piece of an absolute path is empty, and dropped. */
  lemma AbsolutePieces(t: string)
    requires IsAbsolutePath(t)
    ensures Fold([], Pieces(t)) == Fold([], Pieces(t[1..]))
  {
    FoldConcat([], [""], Pieces(t[1..]));
    FoldOne([], "");
  }

  lemma ShortestJoined(cs: seq<string>, t: string)
    requires cs == Fold([], Pieces(t))
    ensures t == Joined(cs) || |Joined(cs)| < |t|
  {
    FoldSize([], Pieces(t));
    JoinedPieces(t);
    JoinedSize(cs);
    assert [] + Pieces(t) == Pieces(t);
  }

  /** Whatever parses to a normal path is its own text, or longer: no slash is doubled, none ends the
      text but that of the root, and nothing is written that parsing drops. */
  lemma ShortestText(p: Split, t: string)
    requires Normal(p.comps) && Parse(t) == p
    ensures Parse(Text(p)) == p
    ensures t == Text(p) || |Text(p)| < |t|
  {
    hide Pieces, Joined, Fold;
    ReparseNormal(p);
    ParseNormal(t);
    if p.absolute {
      AbsolutePieces(t);
      ShortestJoined(p.comps, t[1..]);
      assert t == "/" + t[1..];
    } else {
      ShortestJoined(p.comps, t);
    }
  }
}
