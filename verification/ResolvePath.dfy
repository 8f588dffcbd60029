/** `resolvepath` and `correctpath`: components of a path are squeezed together in an array.

The reference is a stack: dots and empty components are dropped, `..` pops, and a path that ends in
one of them ends in a slash.
*/
module ResolvePath {
  import opened PathAlgebra

  predicate IsDot(c: string) {
    c == "." || c == ""
  }

  /** One component, on a stack that starts at the root. */
  function Visit(stack: seq<string>, c: string): seq<string> {
    if IsDot(c) then stack
    else if c == ".." then (if stack == [] then [] else stack[..|stack| - 1])
    else stack + [c]
  }

  function VisitAll(stack: seq<string>, cs: seq<string>): seq<string>
    decreases |cs|
  {
    if cs == [] then stack else VisitAll(Visit(stack, cs[0]), cs[1..])
  }

  /** A path that ends in a component that is not a name denotes a directory. */
  predicate IsDirectory(cs: seq<string>) {
    cs != [] && (IsDot(cs[|cs| - 1]) || cs[|cs| - 1] == "..")
  }

  /** The components below the root; an empty one at the end makes the trailing slash. */
  function Resolved(stack: seq<string>, cs: seq<string>): seq<string> {
    VisitAll(stack, cs) + if IsDirectory(cs) then [""] else []
  }

  lemma ResolvedNext(stack: seq<string>, cs: seq<string>)
    requires |cs| > 1
    ensures Resolved(stack, cs) == Resolved(Visit(stack, cs[0]), cs[1..])
  {
  }

  lemma ResolvedLast(stack: seq<string>, c: string)
    ensures Resolved(stack, [c]) == Visit(stack, c) + if IsDot(c) || c == ".." then [""] else []
  {
    assert VisitAll(Visit(stack, c), [c][1..]) == Visit(stack, c);
  }

  // ---------------------------------------------------------------- the loop

  /** `memmove(pp + to, pp + from, ...)` on the first `i` entries */
  method MoveDown(pp: array<string>, to: nat, from: nat, i: nat)
    requires to <= from <= i <= pp.Length
    modifies pp
    ensures pp[..to] == old(pp[..to]) && pp[to..to + (i - from)] == old(pp[from..i])
  {
    var k := 0;
    while k < i - from
      invariant 0 <= k <= i - from
      invariant pp[..to] == old(pp[..to]) && pp[to..to + k] == old(pp[from..from + k])
      invariant pp[from + k..i] == old(pp[from + k..i])
    {
      ghost var was := pp[..];
      pp[to + k] := pp[from + k];
      MovedOne(was, pp[..], old(pp[..]), to, from, k, i);
      k := k + 1;
    }
  }

  lemma MovedOne(was: seq<string>, now: seq<string>, first: seq<string>, to: nat, from: nat, k: nat, i: nat)
    requires to <= from && from + k < i <= |was| == |now| == |first|
    requires now == was[to + k := was[from + k]]
    requires was[..to] == first[..to] && was[to..to + k] == first[from..from + k] && was[from + k..i] == first[from + k..i]
    ensures now[..to] == first[..to] && now[to..to + k + 1] == first[from..from + k + 1]
    ensures now[from + k + 1..i] == first[from + k + 1..i]
  {
    assert was[from + k] == was[from + k..i][0] == first[from + k];
    assert now[..to] == was[..to];
    assert now[to..to + k + 1] == was[to..to + k] + [was[from + k]];
    assert first[from..from + k + 1] == first[from..from + k] + [first[from + k]];
    assert now[from + k + 1..i] == was[from + k..i][1..];
    assert first[from + k + 1..i] == first[from + k..i][1..];
  }

  /** What is decided and what is still to come give the same result as everything. */
  ghost predicate Squeezed(cs: seq<string>, done: seq<string>, rest: seq<string>) {
    Resolved([], cs) == Resolved(done, rest)
  }

  lemma Dropped(cs: seq<string>, done: seq<string>, rest: seq<string>)
    requires Squeezed(cs, done, rest) && |rest| > 1 && Visit(done, rest[0]) == done
    ensures Squeezed(cs, done, rest[1..])
  {
    hide Resolved;
    ResolvedNext(done, rest);
  }

  lemma Popped(cs: seq<string>, done: seq<string>, rest: seq<string>)
    requires Squeezed(cs, done, rest) && |rest| > 1 && rest[0] == ".." && done != []
    ensures Squeezed(cs, done[..|done| - 1], rest[1..])
  {
    hide Resolved;
    ResolvedNext(done, rest);
  }

  lemma Kept(cs: seq<string>, done: seq<string>, rest: seq<string>)
    requires Squeezed(cs, done, rest) && rest != [] && !IsDot(rest[0]) && rest[0] != ".."
    ensures Squeezed(cs, done + [rest[0]], rest[1..])
  {
    if |rest| > 1 {
      hide Resolved;
      ResolvedNext(done, rest);
    } else {
      assert rest == [rest[0]];
      ResolvedLast(done, rest[0]);
    }
  }

  lemma Finished(cs: seq<string>, done: seq<string>, rest: seq<string>)
    requires Squeezed(cs, done, rest) && |rest| <= 1
    ensures rest == [] ==> Resolved([], cs) == done
    ensures rest != [] && (IsDot(rest[0]) || rest[0] == "..") ==> Resolved([], cs) == Visit(done, rest[0]) + [""]
  {
    if rest != [] {
      assert rest == [rest[0]];
      ResolvedLast(done, rest[0]);
    }
  }

  /** The loop over the components behind the root. */
  method Squeeze(pp: array<string>, i0: nat) returns (i: nat)
    requires 1 < i0 <= pp.Length
    modifies pp
    ensures 0 < i <= i0 && pp[0] == old(pp[0]) && pp[1..i] == Resolved([], old(pp[1..i0]))
  {
    hide Resolved, Visit, Squeezed;
    i := i0;
    ghost var cs := pp[1..i0];
    var j := 1;
    SqueezeStart(cs);
    assert pp[1..1] == [];
    while j < i
      invariant 1 <= j <= i <= i0 && pp[0] == old(pp[0])
      invariant Squeezed(cs, pp[1..j], pp[j..i])
      decreases i - j
    {
      ghost var done, rest := pp[1..j], pp[j..i];
      VisitCases(done, rest[0]);
      assert rest[1..] == pp[j + 1..i];
      if IsDot(pp[j]) {
        if j == i - 1 {
          Finished(cs, done, rest);
          pp[j] := "";
          assert pp[1..i] == done + [""];
          return;
        } else {
          Dropped(cs, done, rest);
          MoveDown(pp, j, j + 1, i);
          i := i - 1;
        }
      } else if pp[j] == ".." {
        if j == i - 1 {
          Finished(cs, done, rest);
          if j == 1 {
            pp[j] := "";
          } else {
            i := i - 1;
            pp[j - 1] := "";
          }
          assert pp[1..i] == Visit(done, "..") + [""];
          return;
        } else {
          if j == 1 {
            Dropped(cs, done, rest);
            MoveDown(pp, j, j + 1, i);
            i := i - 1;
          } else {
            Popped(cs, done, rest);
            ghost var front := pp[..j - 1];
            MoveDown(pp, j - 1, j + 1, i);
            assert pp[1..j - 1] == front[1..] == done[..j - 2];
            i, j := i - 2, j - 1;
          }
        }
      } else {
        Kept(cs, done, rest);
        assert pp[1..j + 1] == done + [rest[0]];
        j := j + 1;
      }
    }
    Finished(cs, pp[1..j], pp[j..i]);
  }

  lemma SqueezeStart(cs: seq<string>)
    ensures Squeezed(cs, [], cs)
  {
  }

  lemma VisitCases(stack: seq<string>, c: string)
    ensures IsDot(c) ==> Visit(stack, c) == stack
    ensures c == ".." ==> Visit(stack, c) == if stack == [] then [] else stack[..|stack| - 1]
  {
  }

  // ---------------------------------------------------------------- resolvepath

  /** Backslashes become slashes. */
  function Slashed(s: string): (t: string)
    ensures |t| == |s| && forall i | 0 <= i < |s| :: t[i] == if s[i] == '\\' then '/' else s[i]
  {
    seq(|s|, i requires 0 <= i < |s| => if s[i] == '\\' then '/' else s[i])
  }

  /** The directory that a relative path starts from: everything up to the last slash. */
  function Base(home: string): (b: string)
    requires IsAbsolutePath(home)
    ensures IsAbsolutePath(b)
    ensures b <= home && b[|b| - 1] == '/' && forall j | |b| <= j < |home| :: home[j] != '/'
    decreases |home|
  {
    if home[|home| - 1] == '/' then home else Base(home[..|home| - 1])
  }

  function Rooted(s: string, home: string): (p: string)
    requires s != "" && IsAbsolutePath(home)
    ensures IsAbsolutePath(p)
  {
    if s[0] != '/' then Base(home) + s else s
  }

  lemma {:induction false} PiecesFit(s: string)
    ensures |Pieces(s)| <= |s| + 1
  {
    if s != "" { PiecesFit(s[1..]); }
  }

  lemma AbsolutePieces(p: string)
    requires IsAbsolutePath(p)
    ensures |Pieces(p)| >= 2 && Pieces(p)[0] == "" && Pieces(p)[1..] == Pieces(p[1..])
  {
  }

  /** The text of an absolute path, resolved. */
  function ResolvedText(p: string): string
    requires IsAbsolutePath(p)
  {
    "/" + Joined(Resolved([], Pieces(p)[1..]))
  }

  /** `resolvepath`, for a path that does not start with a tilde; an empty one is refused. */
  method Resolve(folder: string, home: string) returns (ok: bool, out: string)
    requires IsAbsolutePath(home) && (folder != "" ==> folder[0] != '~')
    ensures ok <==> folder != ""
    ensures !ok ==> out == folder
    ensures ok ==> out == ResolvedText(Rooted(Slashed(folder), home))
  {
    hide Resolved, Pieces, Joined, Base;
    if folder == "" { return false, folder; }
    var s := Slashed(folder);
    var path := Rooted(s, home);
    PiecesFit(path);
    AbsolutePieces(path);
    var pp := new string[|path| + 1];
    var i := Cut(path, pp);
    ghost var ps := Pieces(path);
    assert pp[1..i] == ps[1..] && pp[0] == ps[0];
    i := Squeeze(pp, i);
    ghost var r := Resolved([], ps[1..]);
    assert pp[..i] == [""] + r;
    out := Paste(pp, i);
    NotEmpty(ps[1..]);
    JoinedRoot(r);
    return true, out;
  }

  /** The loop that cuts the path at its slashes */
  method Cut(path: string, pp: array<string>) returns (i: nat)
    requires |Pieces(path)| <= pp.Length
    modifies pp
    ensures i == |Pieces(path)| && pp[..i] == Pieces(path)
  {
    hide Pieces;
    i := 0;
    var s, more := path, true;
    while more
      invariant i <= pp.Length
      invariant more ==> Pieces(path) == pp[..i] + Pieces(s)
      invariant !more ==> Pieces(path) == pp[..i]
      decreases more, |s|
    {
      var k := FindSlash(s);
      ghost var was := pp[..i];
      if k == |s| {
        assert s[..k] == s;
        PiecesOfName(s);
        pp[i] := s;
        more := false;
      } else {
        var rest := s[k + 1..];
        FirstPiece(s, k);
        assert was + ([s[..k]] + Pieces(rest)) == was + [s[..k]] + Pieces(rest);
        pp[i] := s[..k];
        s := rest;
      }
      i := i + 1;
      assert pp[..i] == was + [pp[i - 1]];
    }
  }

  /** The loop that puts the components together: a slash after each, the last one removed */
  method Paste(pp: array<string>, i: nat) returns (out: string)
    requires 0 < i <= pp.Length
    ensures out == Joined(pp[..i])
  {
    var s := "";
    var k := 0;
    while k < i
      invariant 0 <= k <= i && s == Slashes(pp[..k])
    {
      assert pp[..k + 1][..k] == pp[..k];
      s := s + pp[k] + "/";
      k := k + 1;
    }
    SlashesJoined(pp[..i]);
    out := s[..|s| - 1];
  }

  function Slashes(cs: seq<string>): string {
    if cs == [] then "" else Slashes(cs[..|cs| - 1]) + cs[|cs| - 1] + "/"
  }

  lemma {:induction false} SlashesFront(cs: seq<string>)
    requires cs != []
    ensures Slashes(cs) == cs[0] + "/" + Slashes(cs[1..])
    decreases |cs|
  {
    var k := |cs| - 1;
    if k > 0 {
      SlashesFront(cs[..k]);
      assert cs[..k][1..] == cs[1..][..k - 1];
      assert cs[0] + "/" + Slashes(cs[1..][..k - 1]) + cs[k] + "/" == cs[0] + "/" + (Slashes(cs[1..][..k - 1]) + cs[k] + "/");
    } else {
      assert cs[..0] == [] && cs[1..] == [];
      assert Slashes(cs) == "" + cs[0] + "/" == cs[0] + "/" + "";
    }
  }

  lemma {:induction false} SlashesJoined(cs: seq<string>)
    requires cs != []
    ensures Slashes(cs) == Joined(cs) + "/"
    decreases |cs|
  {
    SlashesFront(cs);
    if |cs| > 1 {
      SlashesJoined(cs[1..]);
      assert cs[0] + "/" + (Joined(cs[1..]) + "/") == cs[0] + "/" + Joined(cs[1..]) + "/";
    } else {
      assert cs[1..] == [];
      assert cs[0] + "/" + "" == cs[0] + "/";
    }
  }

  lemma JoinedRoot(r: seq<string>)
    requires r != []
    ensures Joined([""] + r) == "/" + Joined(r)
  {
    assert ([""] + r)[1..] == r;
  }

  // ---------------------------------------------------------------- idempotence

  lemma {:induction false} VisitNames(stack: seq<string>, cs: seq<string>)
    requires AllNames(stack) && AllNoSlash(cs)
    ensures AllNames(VisitAll(stack, cs))
    decreases |cs|
  {
    if cs != [] {
      if !IsDot(cs[0]) {
        if cs[0] == ".." {
          if stack != [] { NamesInit(stack); }
        } else {
          NamesSnoc(stack, cs[0]);
        }
      }
      VisitNames(Visit(stack, cs[0]), cs[1..]);
    }
  }

  lemma {:induction false} VisitConcat(stack: seq<string>, a: seq<string>, b: seq<string>)
    ensures VisitAll(stack, a + b) == VisitAll(VisitAll(stack, a), b)
    decreases |a|
  {
    if a == [] {
      assert a + b == b;
    } else {
      assert (a + b)[1..] == a[1..] + b;
      VisitConcat(Visit(stack, a[0]), a[1..], b);
    }
  }

  lemma {:induction false} VisitOwnNames(stack: seq<string>, names: seq<string>)
    requires AllNames(names)
    ensures VisitAll(stack, names) == stack + names
    decreases |names|
  {
    if names == [] {
      assert stack + names == stack;
    } else {
      VisitOwnNames(stack + [names[0]], names[1..]);
      assert stack + [names[0]] + names[1..] == stack + names;
    }
  }

  lemma NotEmpty(cs: seq<string>)
    requires cs != []
    ensures Resolved([], cs) != []
  {
    var k := |cs| - 1;
    assert cs == cs[..k] + [cs[k]];
    VisitConcat([], cs[..k], [cs[k]]);
    ResolvedLast(VisitAll([], cs[..k]), cs[k]);
  }

  /** What is resolved stays as it is. */
  lemma ResolvedTwice(cs: seq<string>)
    requires cs != [] && AllNoSlash(cs)
    ensures var r := Resolved([], cs); AllNoSlash(r) && Resolved([], r) == r
  {
    var names := VisitAll([], cs);
    VisitNames([], cs);
    VisitOwnNames([], names);
    assert [] + names == names;
    NamesNormal(names);
    NormalHasNoSlash(names);
    if IsDirectory(cs) {
      VisitConcat([], names, [""]);
      ResolvedLast(names, "");
      assert VisitAll(names, [""]) == names by { assert [""][1..] == []; }
    } else {
      NotEmpty(cs);
      assert names + [] == names;
      NamesInit(names);
    }
  }

  lemma NamesNormal(cs: seq<string>)
    requires AllNames(cs)
    ensures Normal(cs)
  {
  }

  predicate NoBackslash(s: string) {
    '\\' !in s
  }

  ghost predicate NoBackslashes(cs: seq<string>) {
    forall i | 0 <= i < |cs| :: NoBackslash(cs[i])
  }

  lemma {:induction false} PiecesNoBackslash(s: string)
    requires NoBackslash(s)
    ensures NoBackslashes(Pieces(s))
  {
    if s != "" {
      assert NoBackslash(s[1..]);
      PiecesNoBackslash(s[1..]);
    }
  }

  lemma {:induction false} JoinedNoBackslash(cs: seq<string>)
    requires NoBackslashes(cs)
    ensures NoBackslash(Joined(cs))
  {
    if |cs| > 1 { JoinedNoBackslash(cs[1..]); }
  }

  lemma {:induction false} VisitNoBackslash(stack: seq<string>, cs: seq<string>)
    requires NoBackslashes(stack) && NoBackslashes(cs)
    ensures NoBackslashes(VisitAll(stack, cs))
    decreases |cs|
  {
    if cs != [] { VisitNoBackslash(Visit(stack, cs[0]), cs[1..]); }
  }

  /** `correctpath`, for a path that is not empty and does not start with a tilde. */
  function Correct(s: string): string
    requires s != ""
  {
    ResolvedText(Rooted(Slashed(s), "/"))
  }

  /** Resolving an absolute path twice is resolving it once. */
  lemma ResolveTwice(p: string)
    requires IsAbsolutePath(p) && NoBackslash(p)
    ensures var q := ResolvedText(p); IsAbsolutePath(q) && NoBackslash(q) && ResolvedText(q) == q
  {
    hide Pieces, Joined, Resolved;
    var cs := Pieces(p)[1..];
    AbsolutePieces(p);
    PiecesHaveNoSlash(p);
    assert AllNoSlash(cs) by { PiecesHaveNoSlash(p[1..]); }
    assert NoBackslashes(cs) by { PiecesNoBackslash(p[1..]); }
    var r, q := Resolved([], cs), ResolvedText(p);
    ResolvedTwice(cs);
    NotEmpty(cs);
    ResolvedNoBackslash(cs);
    JoinedNoBackslash(r);
    AbsolutePieces(q);
    assert q[1..] == Joined(r);
    PiecesOfJoined(r);
  }

  lemma ResolvedNoBackslash(cs: seq<string>)
    requires NoBackslashes(cs)
    ensures NoBackslashes(Resolved([], cs))
  {
    VisitNoBackslash([], cs);
  }

  /** `correctpath` is idempotent. */
  lemma CorrectIdempotent(s: string)
    requires s != ""
    ensures Correct(s) != "" && Correct(Correct(s)) == Correct(s)
  {
    hide ResolvedText;
    var t := Slashed(s);
    assert NoBackslash(t);
    assert Base("/") == "/";
    var p := Rooted(t, "/");
    assert NoBackslash(p);
    ResolveTwice(p);
    var q := ResolvedText(p);
    assert Slashed(q) == q;
  }

  // ---------------------------------------------------------------- resolving is parsing

  /** From the root the stack holds the names that parsing leaves, and the `..` that lead above the
      root are gone. */
  lemma {:induction false} VisitIsFold(up: seq<string>, names: seq<string>, cs: seq<string>) returns (up': seq<string>)
    requires AllUp(up) && AllNames(names) && AllNoSlash(cs)
    ensures AllUp(up') && Fold(up + names, cs) == up' + VisitAll(names, cs)
    decreases |cs|
  {
    if cs == [] {
      return up;
    }
    var c := cs[0];
    var up1: seq<string> := if c == ".." && names == [] then up + [".."] else up;
    StepIsVisit(up, names, c);
    hide Step, Visit, AllUp, AllNames;
    up' := VisitIsFold(up1, Visit(names, c), cs[1..]);
  }

  lemma StepIsVisit(up: seq<string>, names: seq<string>, c: string)
    requires AllUp(up) && AllNames(names) && NoSlash(c)
    ensures var up1 := if c == ".." && names == [] then up + [".."] else up;
            AllUp(up1) && AllNames(Visit(names, c)) && Step(up + names, c) == up1 + Visit(names, c)
  {
    if c != ".." {
      if !IsDot(c) {
        NamesSnoc(names, c);
        assert up + names + [c] == up + (names + [c]);
      }
    } else if names != [] {
      var k := |names| - 1;
      NamesInit(names);
      assert (up + names)[|up| + k] == names[k];
      assert (up + names)[..|up| + k] == up + names[..k];
    } else {
      assert up + names == up && up + [".."] + [] == up + [".."];
      MoreUp(up);
    }
  }

  lemma MoreUp(up: seq<string>)
    requires AllUp(up)
    ensures AllUp(up + [".."]) && Step(up, "..") == up + [".."]
  {
    if up == [] {
      assert up + [".."] == [".."] && [".."][1..] == [];
    } else {
      LastUp(up);
    }
  }

  /** Resolving the absolute path `dir/last` gives the text of the names it parses to, without the `..`
      that lead above the root, and with a slash at the end if the last component is no name. */
  lemma ResolvedIsParsed(dir: string, last: string) returns (up: seq<string>, names: seq<string>)
    requires NoSlash(last) && IsAbsolutePath(dir + "/" + last)
    ensures AllUp(up) && AllNames(names) && Parse(dir + "/" + last) == Split(true, up + names)
    ensures ResolvedText(dir + "/" + last) ==
            Text(Split(true, names)) + if names != [] && (last == "" || last == "." || last == "..") then "/" else ""
  {
    hide Pieces, Joined, Fold, VisitAll;
    var p := dir + "/" + last;
    var cs := Pieces(p)[1..];
    AbsolutePieces(p);
    PiecesHaveNoSlash(p[1..]);
    var none: seq<string> := [];
    assert none + none == none;
    up := VisitIsFold(none, none, cs);
    names := VisitAll([], cs);
    VisitNames([], cs);
    assert p[|dir|] == '/' && p != ".";
    DropRoot(p);
    PiecesConcat(dir, last);
    PiecesOfName(last);
    assert cs[|cs| - 1] == Pieces(p)[|Pieces(p)| - 1] == last;
    NotEmpty(cs);
    TrailingSlash(names);
    assert names + [] == names;
    assert "/" + (Joined(names) + "/") == "/" + Joined(names) + "/";
  }

  lemma DropRoot(p: string)
    requires IsAbsolutePath(p)
    ensures Fold([], Pieces(p)) == Fold([], Pieces(p)[1..])
  {
    AbsolutePieces(p);
  }

  lemma {:induction false} TrailingSlash(names: seq<string>)
    ensures Joined(names + [""]) == Joined(names) + if names == [] then "" else "/"
  {
    if |names| == 1 {
      assert (names + [""])[1..] == [""];
    } else if |names| > 1 {
      TrailingSlash(names[1..]);
      assert (names + [""])[1..] == names[1..] + [""];
    } else {
      assert names + [""] == [""];
    }
  }
}
