/** What the walk delivers, told by the events alone and by what the file system answers: which names
appear below a directory, under which paths, and what each is said to be. */
module FtsShape {
  import opened FtsTour
  import opened FtsLimit

  /** What the file system says of the file of an event. */
  function StatOf(fs: FileSystem, o: Options, e: Event): Stat {
    if o.logical || (o.comFollow && e.level == 0) then fs.stat(e.path) else fs.lstat(e.path)
  }

  /** The event is not the second one of a directory. */
  predicate First(e: Event) {
    e.info != DP && e.info != DNR
  }

  /** The names and paths met on one level, in order. */
  function Met(events: seq<Event>, level: int): seq<(string, string)> {
    if events == [] then []
    else (if First(events[0]) && events[0].level == level then [(events[0].name, events[0].path)] else []) + Met(events[1..], level)
  }

  function Under(path: string, name: string): string {
    if path != "" && path[|path| - 1] == '/' then path + name else path + "/" + name
  }

  /** The entries of a directory that a reader of the walk expects, with their paths. */
  function Listed(seeDot: bool, path: string, names: seq<string>): seq<(string, string)> {
    if names == [] then []
    else if !seeDot && (names[0] == "." || names[0] == "..") then Listed(seeDot, path, names[1..])
    else [(names[0], Under(path, names[0]))] + Listed(seeDot, path, names[1..])
  }

  /** `j` is the second event of the directory first met at `i`. */
  predicate Closes(events: seq<Event>, i: nat, j: nat) {
    && i < j < |events|
    && events[j].level == events[i].level && events[j].name == events[i].name && !First(events[j])
    && (forall m | i < m < j :: events[m].level > events[i].level)
  }

  /** The level limit, and with `xdev` the device `dev` of the root, keep the walk out. */
  predicate KeptOut(fs: FileSystem, o: Options, dev: nat, e: Event) {
    || (o.maxLevel.Some? && e.level >= o.maxLevel.value)
    || (o.xdev && StatOf(fs, o, e).Directory? && StatOf(fs, o, e).id.dev != dev)
  }

  /** The walk inside directory `e` meets `met` and closes with `info`. */
  predicate Inside(fs: FileSystem, o: Options, dev: nat, e: Event, info: Info, met: seq<(string, string)>) {
    if KeptOut(fs, o, dev, e) then info == DP && met == []
    else match fs.list(e.path)
    case Unreadable(_) => info == DNR && met == []
    case Names(names) => info == DP && met == Listed(o.seeDot, e.path, names)
  }

  ghost predicate Shows(fs: FileSystem, o: Options, dev: nat, events: seq<Event>, i: nat)
    requires i < |events|
  {
    events[i].info == D ==>
      exists j: nat :: Closes(events, i, j) && Inside(fs, o, dev, events[i], events[j].info, Met(events[i + 1..j], events[i].level + 1))
  }

  // ---------------------------------------------------------------- one level

  lemma {:induction false} MetConcat(a: seq<Event>, b: seq<Event>, level: int)
    ensures Met(a + b, level) == Met(a, level) + Met(b, level)
  {
    if a == [] {
      assert a + b == b;
    } else {
      assert (a + b)[1..] == a[1..] + b && (a + b)[0] == a[0];
      MetConcat(a[1..], b, level);
    }
  }

  lemma {:induction false} NoneMet(events: seq<Event>, level: int)
    requires forall e | e in events :: e.level > level || !First(e)
    ensures Met(events, level) == []
  {
    if events != [] {
      assert events[0] in events;
      NoneMet(events[1..], level);
    }
  }

  lemma {:induction false} KeptIsListed(seeDot: bool, path: string, names: seq<string>)
    ensures Listed(true, path, Kept(seeDot, names)) == Listed(seeDot, path, names)
  {
    if names != [] {
      KeptIsListed(seeDot, path, names[1..]);
      var kept := Kept(seeDot, names[1..]);
      assert ([names[0]] + kept)[1..] == kept;
    }
  }

  lemma ChildIsUnder(path: string, name: string)
    ensures ChildPath(path, name) == Under(path, name)
  {
    if path != "" && path[|path| - 1] == '/' {
      assert path == path[..|path| - 1] + "/";
    } else {
      assert path[..|path|] == path;
    }
  }

  /** A directory stops the walk if the path of an entry does not fit 16 bits. */
  lemma TooLongIs(path: string, names: seq<string>)
    ensures TooLong(path, names) <==> exists i | 0 <= i < |names| :: |Under(path, names[i])| >= 65535
  {
    forall i | 0 <= i < |names| ensures ChildPath(path, names[i]) == Under(path, names[i]) {
      ChildIsUnder(path, names[i]);
    }
  }

  /** Inside a directory everything but the last event lies deeper, and the last closes it. */
  lemma InsideGoesDown(fs: FileSystem, o: Options, dev: nat, item: Item, anc: set<Id>)
    requires fs.Finite() && Enterable(fs, item, anc) && item.info == D
    ensures var inside := TourInside(fs, o, dev, item, anc);
            && inside != []
            && !First(inside[|inside| - 1])
            && inside[|inside| - 1].level == item.level && inside[|inside| - 1].name == item.name
            && (forall m | 0 <= m < |inside| - 1 :: inside[m].level > item.level)
  {
    if !Closed(o, dev, item) && fs.list(item.path).Names? {
      var names := Kept(o.seeDot, fs.list(item.path).names);
      if names != [] {
        FewerLeft(fs.ids, anc, item.id);
        TourAllGoesDown(fs, o, dev, item, anc + {item.id}, names);
        var all := TourAll(fs, o, dev, item, anc + {item.id}, names);
        assert forall m | 0 <= m < |all| :: all[m] in all;
      }
    }
  }

  lemma TourMet(fs: FileSystem, o: Options, dev: nat, item: Item, anc: set<Id>)
    requires fs.Finite() && Enterable(fs, item, anc) && item.info != DP && item.info != DNR
    ensures Met(Tour(fs, o, dev, item, anc), item.level) == [(item.name, item.path)]
  {
    if item.info == D {
      var inside := TourInside(fs, o, dev, item, anc);
      InsideGoesDown(fs, o, dev, item, anc);
      NoneMet(inside, item.level);
      assert ([Seen(item, item.info, item.path)] + inside)[1..] == inside;
    }
  }

  lemma {:induction false} TourAllMet(fs: FileSystem, o: Options, dev: nat, parent: Item, anc: set<Id>, names: seq<string>)
    requires fs.Finite()
    ensures Met(TourAll(fs, o, dev, parent, anc, names), parent.level + 1) == Listed(true, parent.path, names)
  {
    if names != [] {
      var kid := Kid(fs, o, parent, anc, names[0]);
      TourMet(fs, o, dev, kid, anc);
      ChildIsUnder(parent.path, names[0]);
      TourAllMet(fs, o, dev, parent, anc, names[1..]);
      MetConcat(Tour(fs, o, dev, kid, anc), TourAll(fs, o, dev, parent, anc, names[1..]), parent.level + 1);
    }
  }

  // ---------------------------------------------------------------- what every directory shows

  lemma ShowsWithin(fs: FileSystem, o: Options, dev: nat, a: seq<Event>, s: seq<Event>, b: seq<Event>, i: nat)
    requires i < |s| && Shows(fs, o, dev, s, i)
    ensures Shows(fs, o, dev, a + s + b, |a| + i)
  {
    hide Inside;
    var all := a + s + b;
    if s[i].info == D {
      var j: nat :| Closes(s, i, j) && Inside(fs, o, dev, s[i], s[j].info, Met(s[i + 1..j], s[i].level + 1));
      assert all[|a| + i + 1..|a| + j] == s[i + 1..j];
      assert forall m | 0 <= m < |s| :: all[|a| + m] == s[m];
      assert forall m | |a| <= m < |a| + |s| :: all[m] == s[m - |a|];
      assert Closes(all, |a| + i, |a| + j);
    }
  }

  /** The item is as the file system has it, and a root stands on its own device. */
  predicate Faithful(fs: FileSystem, o: Options, dev: nat, item: Item) {
    && !item.skip && item.level >= 0
    && (item.info == D ==> StatOf(fs, o, Seen(item, D, item.path)) == Directory(item.id))
    && (item.level == 0 ==> item.id.dev == dev)
  }

  lemma KidIsFaithful(fs: FileSystem, o: Options, dev: nat, parent: Item, anc: set<Id>, name: string)
    requires parent.level >= 0
    ensures Faithful(fs, o, dev, Kid(fs, o, parent, anc, name))
  {
  }

  /** What the walk inside a directory meets before it closes the directory. */
  lemma InsideIsInside(fs: FileSystem, o: Options, dev: nat, item: Item, anc: set<Id>)
    requires fs.Finite() && Enterable(fs, item, anc) && Faithful(fs, o, dev, item) && item.info == D
    ensures var inside := TourInside(fs, o, dev, item, anc);
            && inside != []
            && Inside(fs, o, dev, Seen(item, D, item.path), inside[|inside| - 1].info,
                      Met(inside[..|inside| - 1], item.level + 1))
  {
    hide Classify, StatOf, AppendAt;
    var inside := TourInside(fs, o, dev, item, anc);
    if !Closed(o, dev, item) && fs.list(item.path).Names? {
      var names := fs.list(item.path).names;
      var kept := Kept(o.seeDot, names);
      hide Kept, Listed;
      KeptIsListed(o.seeDot, item.path, names);
      if kept != [] {
        TourAllMet(fs, o, dev, item, anc + {item.id}, kept);
        assert inside[..|inside| - 1] == TourAll(fs, o, dev, item, anc + {item.id}, kept);
      } else {
        assert Listed(true, item.path, kept) == [] by { NothingListed(item.path); }
        assert inside[..|inside| - 1] == [];
      }
    } else {
      assert inside[..|inside| - 1] == [];
    }
  }

  lemma NothingListed(path: string)
    ensures Listed(true, path, []) == []
  {
  }

  lemma TourShowsItem(fs: FileSystem, o: Options, dev: nat, item: Item, anc: set<Id>)
    requires fs.Finite() && Enterable(fs, item, anc) && Faithful(fs, o, dev, item)
    ensures Shows(fs, o, dev, Tour(fs, o, dev, item, anc), 0)
  {
    hide Classify, Inside, Faithful, TourInside, Met;
    if item.info == D {
      var inside, all := TourInside(fs, o, dev, item, anc), Tour(fs, o, dev, item, anc);
      InsideGoesDown(fs, o, dev, item, anc);
      InsideIsInside(fs, o, dev, item, anc);
      var j := |inside|;
      assert all[j] == inside[j - 1] && all[1..j] == inside[..j - 1];
      assert Closes(all, 0, j);
    }
  }

  /** Any first event but that of the item itself lies inside. */
  lemma TourSplits(fs: FileSystem, o: Options, dev: nat, item: Item, anc: set<Id>, i: nat)
    requires fs.Finite() && Enterable(fs, item, anc)
    requires 0 < i < |Tour(fs, o, dev, item, anc)| && First(Tour(fs, o, dev, item, anc)[i])
    ensures item.info == D && fs.list(item.path).Names?
    ensures var tour, kept := Tour(fs, o, dev, item, anc), Kept(o.seeDot, fs.list(item.path).names);
            var all := TourAll(fs, o, dev, item, anc + {item.id}, kept);
            && tour == [tour[0]] + all + [tour[|tour| - 1]] && i - 1 < |all|
            && tour[0] == Seen(item, D, item.path)
  {
    hide Classify;
    var tour, inside := Tour(fs, o, dev, item, anc), TourInside(fs, o, dev, item, anc);
    assert tour[i] == inside[i - 1];
    var kept := Kept(o.seeDot, fs.list(item.path).names);
    var all := TourAll(fs, o, dev, item, anc + {item.id}, kept);
    assert inside == all + [Seen(item, DP, item.path)];
  }

  lemma {:induction false} TourShows(fs: FileSystem, o: Options, dev: nat, item: Item, anc: set<Id>, i: nat)
    requires fs.Finite() && Enterable(fs, item, anc) && Faithful(fs, o, dev, item)
    requires i < |Tour(fs, o, dev, item, anc)|
    ensures Shows(fs, o, dev, Tour(fs, o, dev, item, anc), i)
    decreases |fs.ids - anc|, 1, 0
  {
    hide Closes, Inside, Classify, StatOf, TourInside, TourAll;
    var tour := Tour(fs, o, dev, item, anc);
    if i == 0 {
      TourShowsItem(fs, o, dev, item, anc);
    } else if tour[i].info == D {
      TourSplits(fs, o, dev, item, anc, i);
      var kept, anc' := Kept(o.seeDot, fs.list(item.path).names), anc + {item.id};
      FewerLeft(fs.ids, anc, item.id);
      TourAllShows(fs, o, dev, item, anc', kept, i - 1);
      ShowsWithin(fs, o, dev, [tour[0]], TourAll(fs, o, dev, item, anc', kept), [tour[|tour| - 1]], i - 1);
    }
  }

  lemma {:induction false} TourAllShows(
      fs: FileSystem, o: Options, dev: nat, parent: Item, anc: set<Id>, names: seq<string>, i: nat)
    requires fs.Finite() && parent.level >= 0 && i < |TourAll(fs, o, dev, parent, anc, names)|
    ensures Shows(fs, o, dev, TourAll(fs, o, dev, parent, anc, names), i)
    decreases |fs.ids - anc|, 2, |names|
  {
    hide Shows, Classify, Faithful;
    var kid := Kid(fs, o, parent, anc, names[0]);
    var first, rest := Tour(fs, o, dev, kid, anc), TourAll(fs, o, dev, parent, anc, names[1..]);
    if i < |first| {
      KidIsFaithful(fs, o, dev, parent, anc, names[0]);
      TourShows(fs, o, dev, kid, anc, i);
      ShowsWithin(fs, o, dev, [], first, rest, i);
      assert [] + first + rest == first + rest;
    } else {
      TourAllShows(fs, o, dev, parent, anc, names[1..], i - |first|);
      ShowsWithin(fs, o, dev, first, rest, [], i - |first|);
      assert first + rest + [] == first + rest;
    }
  }

  /** `r` is the root that event `i` belongs to. */
  predicate RootOf(events: seq<Event>, r: nat, i: nat) {
    r <= i < |events| && events[r].level == 0 && First(events[r]) && forall m | r < m <= i :: events[m].level > 0
  }

  lemma RootIsFaithful(fs: FileSystem, o: Options, arg: string)
    ensures var root := Load(Root(fs, o, arg));
            && Faithful(fs, o, root.id.dev, root) && root.level == 0
            && (root.info == D ==> StatOf(fs, o, Seen(root, D, root.path)) == Directory(root.id))
  {
  }

  /** Event `i`, if a directory, shows what it should in a walk that its root keeps to one device. */
  ghost predicate ShowsAtRoot(fs: FileSystem, o: Options, events: seq<Event>, i: nat)
    requires i < |events|
  {
    exists r: nat ::
      && RootOf(events, r, i) && StatOf(fs, o, events[r]).Directory?
      && Shows(fs, o, StatOf(fs, o, events[r]).id.dev, events, i)
  }

  lemma FirstRootShows(fs: FileSystem, o: Options, arg: string, i: nat)
    requires fs.Finite()
    requires var root := Load(Root(fs, o, arg));
             i < |Tour(fs, o, root.id.dev, root, {})| && Tour(fs, o, root.id.dev, root, {})[i].info == D
    ensures var root := Load(Root(fs, o, arg));
            ShowsAtRoot(fs, o, Tour(fs, o, root.id.dev, root, {}), i)
  {
    hide Shows, Classify, StatOf, Faithful, TourInside;
    var root := Load(Root(fs, o, arg));
    RootIsFaithful(fs, o, arg);
    InsideGoesDown(fs, o, root.id.dev, root, {});
    TourShows(fs, o, root.id.dev, root, {}, i);
    assert RootOf(Tour(fs, o, root.id.dev, root, {}), 0, i);
  }

  lemma RootWithin(fs: FileSystem, o: Options, a: seq<Event>, s: seq<Event>, b: seq<Event>, i: nat)
    requires i < |s| && ShowsAtRoot(fs, o, s, i)
    ensures ShowsAtRoot(fs, o, a + s + b, |a| + i)
  {
    hide Shows, StatOf;
    var all := a + s + b;
    var r: nat :| RootOf(s, r, i) && StatOf(fs, o, s[r]).Directory? && Shows(fs, o, StatOf(fs, o, s[r]).id.dev, s, i);
    ShowsWithin(fs, o, StatOf(fs, o, s[r]).id.dev, a, s, b, i);
    assert all[|a| + r] == s[r];
    assert RootOf(all, |a| + r, |a| + i);
  }

  /** Every directory met is closed again, at the same level.  In between, one level down, the walk meets
      exactly the names the directory lists, in that order and as often, without "." and ".." unless
      they are asked for, each under the path of the directory.  It meets nothing there, and does not
      look, where the level limit or the device of the root keep it out; and nothing if the directory
      cannot be read, which is what it then closes with. */
  lemma {:induction false} WalkShows(fs: FileSystem, o: Options, args: seq<string>, i: nat)
    requires fs.Finite() && i < |TourRoots(fs, o, args)| && TourRoots(fs, o, args)[i].info == D
    ensures ShowsAtRoot(fs, o, TourRoots(fs, o, args), i)
    decreases |args|
  {
    hide ShowsAtRoot, TourInside, Classify, BaseName;
    var root := Load(Root(fs, o, args[0]));
    var first, rest := Tour(fs, o, root.id.dev, root, {}), TourRoots(fs, o, args[1..]);
    if i < |first| {
      FirstRootShows(fs, o, args[0], i);
      RootWithin(fs, o, [], first, rest, i);
      assert [] + first + rest == first + rest;
    } else {
      WalkShows(fs, o, args[1..], i - |first|);
      RootWithin(fs, o, first, rest, [], i - |first|);
      assert first + rest + [] == first + rest;
    }
  }

  function RootNames(args: seq<string>): seq<(string, string)> {
    if args == [] then [] else [(BaseName(args[0]), args[0])] + RootNames(args[1..])
  }

  /** On level 0 the walk meets the roots, in order. */
  lemma {:induction false} WalkMeetsRoots(fs: FileSystem, o: Options, args: seq<string>)
    requires fs.Finite()
    ensures Met(TourRoots(fs, o, args), 0) == RootNames(args)
  {
    if args != [] {
      var root := Load(Root(fs, o, args[0]));
      TourMet(fs, o, root.id.dev, root, {});
      WalkMeetsRoots(fs, o, args[1..]);
      MetConcat(Tour(fs, o, root.id.dev, root, {}), TourRoots(fs, o, args[1..]), 0);
    }
  }

  /** The name of a root is what stands behind its last slash; "/" keeps its name. */
  lemma BaseNameIs(dir: string, name: string)
    requires '/' !in name
    ensures BaseName(name) == name
    ensures BaseName(dir + "/" + name) == if dir == "" && name == "" then "/" else name
  {
    var text := dir + "/" + name;
    assert text[|dir|] == '/';
    assert forall j | |dir| < j < |text| :: text[j] == name[j - |dir| - 1];
    assert LastSlash(text) == |dir|;
    assert text[|dir| + 1..] == name;
    assert text == "/" <==> |text| == 1;
  }

  // ---------------------------------------------------------------- what every event says of its file

  /** Event `m` is a directory around event `i`. */
  predicate Around(events: seq<Event>, m: nat, i: nat) {
    m < i < |events| && events[m].info == D && forall x | m < x <= i :: events[x].level > events[m].level
  }

  /** The file of event `i` is one of the directories `anc`, or one around it in the walk. */
  ghost predicate Loops(fs: FileSystem, o: Options, anc: set<Id>, events: seq<Event>, i: nat)
    requires i < |events|
  {
    var s := StatOf(fs, o, events[i]);
    s.Directory? && (s.id in anc || exists m: nat :: Around(events, m, i) && StatOf(fs, o, events[m]) == s)
  }

  function InfoOf(fs: FileSystem, o: Options, e: Event, loops: bool): Info {
    match StatOf(fs, o, e)
    case Regular => F
    case Link => SL
    case Special => Default
    case Fails(_) =>
      if (o.logical || (o.comFollow && e.level == 0)) && !fs.lstat(e.path).Fails? then SLNone else NS
    case Directory(_) => if e.level > 0 && (e.name == "." || e.name == "..") then Dot else if loops then DC else D
  }

  ghost predicate Told(fs: FileSystem, o: Options, anc: set<Id>, events: seq<Event>, i: nat)
    requires i < |events|
  {
    First(events[i]) ==> events[i].info == InfoOf(fs, o, events[i], Loops(fs, o, anc, events, i))
  }

  lemma AroundWithin(a: seq<Event>, s: seq<Event>, b: seq<Event>, m: nat, i: nat)
    requires i < |s|
    ensures Around(a + s + b, |a| + m, |a| + i) <==> Around(s, m, i)
  {
    var all := a + s + b;
    assert forall x | 0 <= x < |s| :: all[|a| + x] == s[x];
    if Around(all, |a| + m, |a| + i) {
      forall x | m < x <= i ensures s[x].level > s[m].level {
        assert all[|a| + x].level > all[|a| + m].level;
      }
    }
  }

  /** What comes before, on no higher level, and what comes later are not around `i`. */
  lemma LoopsWithin(fs: FileSystem, o: Options, anc: set<Id>, a: seq<Event>, s: seq<Event>, b: seq<Event>, i: nat)
    requires i < |s| && forall m | 0 <= m < |a| :: a[m].level >= s[0].level
    ensures Loops(fs, o, anc, a + s + b, |a| + i) <==> Loops(fs, o, anc, s, i)
  {
    hide StatOf;
    var all, at := a + s + b, |a| + i;
    assert all[|a|] == s[0] && forall m | 0 <= m < |a| :: all[m] == a[m];
    forall m: nat | Around(all, m, at) ensures m >= |a| && Around(s, m - |a|, i) {
      AroundWithin(a, s, b, m - |a|, i);
    }
    forall m: nat | Around(s, m, i) ensures Around(all, |a| + m, at) && all[|a| + m] == s[m] {
      AroundWithin(a, s, b, m, i);
    }
  }

  lemma ToldWithin(fs: FileSystem, o: Options, anc: set<Id>, a: seq<Event>, s: seq<Event>, b: seq<Event>, i: nat)
    requires i < |s| && Told(fs, o, anc, s, i) && forall m | 0 <= m < |a| :: a[m].level >= s[0].level
    ensures Told(fs, o, anc, a + s + b, |a| + i)
  {
    hide Loops, InfoOf;
    LoopsWithin(fs, o, anc, a, s, b, i);
    assert (a + s + b)[|a| + i] == s[i];
  }

  /** No event of `a` lies above the first of `s`. */
  predicate NoHigher(a: seq<Event>, s: seq<Event>) {
    s != [] && forall m | 0 <= m < |a| :: a[m].level >= s[0].level
  }

  lemma ToldFirst(fs: FileSystem, o: Options, anc: set<Id>, s: seq<Event>, b: seq<Event>, i: nat)
    requires i < |s| && Told(fs, o, anc, s, i)
    ensures Told(fs, o, anc, s + b, i)
  {
    ToldWithin(fs, o, anc, [], s, b, i);
    assert [] + s + b == s + b;
  }

  lemma ToldThen(fs: FileSystem, o: Options, anc: set<Id>, a: seq<Event>, s: seq<Event>, i: nat)
    requires |a| <= i < |a| + |s| && NoHigher(a, s) && Told(fs, o, anc, s, i - |a|)
    ensures Told(fs, o, anc, a + s, i)
  {
    ToldWithin(fs, o, anc, a, s, [], i - |a|);
    assert a + s + [] == a + s;
  }

  /** A directory is around everything inside. */
  lemma LoopsInside(fs: FileSystem, o: Options, anc: set<Id>, id: Id, e: Event, s: seq<Event>, b: seq<Event>, i: nat)
    requires i < |s| && e.info == D && StatOf(fs, o, e) == Directory(id)
    requires forall m | 0 <= m < |s| :: s[m].level > e.level
    ensures Loops(fs, o, anc, [e] + s + b, 1 + i) <==> Loops(fs, o, anc + {id}, s, i)
  {
    hide StatOf;
    var all, at := [e] + s + b, 1 + i;
    assert all[0] == e && forall m | 0 <= m < |s| :: all[1 + m] == s[m];
    assert Around(all, 0, at) by {
      assert forall x | 0 < x <= at :: all[x] == s[x - 1];
    }
    forall m: nat | Around(all, m, at) ensures m == 0 || Around(s, m - 1, i) {
      if m > 0 { AroundWithin([e], s, b, m - 1, i); }
    }
    forall m: nat | Around(s, m, i) ensures Around(all, 1 + m, at) {
      AroundWithin([e], s, b, m, i);
    }
  }

  /** The item is what the file system says, below the directories `anc`. */
  predicate Honest(fs: FileSystem, o: Options, anc: set<Id>, item: Item) {
    var e := Seen(item, item.info, item.path);
    var s := StatOf(fs, o, e);
    && item.level >= 0
    && item.info == InfoOf(fs, o, e, s.Directory? && s.id in anc)
    && (item.info == D ==> s == Directory(item.id))
  }

  lemma KidIsHonest(fs: FileSystem, o: Options, parent: Item, anc: set<Id>, name: string)
    requires parent.level >= 0
    ensures Honest(fs, o, anc, Kid(fs, o, parent, anc, name))
  {
  }

  lemma {:induction false} TourTold(fs: FileSystem, o: Options, dev: nat, item: Item, anc: set<Id>, i: nat)
    requires fs.Finite() && Enterable(fs, item, anc) && Honest(fs, o, anc, item)
    requires i < |Tour(fs, o, dev, item, anc)|
    ensures Told(fs, o, anc, Tour(fs, o, dev, item, anc), i)
    decreases |fs.ids - anc|, 1, 0
  {
    hide Classify, InfoOf, StatOf, Loops, TourInside, TourAll;
    var tour := Tour(fs, o, dev, item, anc);
    if i == 0 {
      NoLoopAtStart(fs, o, anc, tour);
    } else if First(tour[i]) {
      TourSplits(fs, o, dev, item, anc, i);
      var kept, anc' := Kept(o.seeDot, fs.list(item.path).names), anc + {item.id};
      var all, e, last := TourAll(fs, o, dev, item, anc', kept), tour[0], tour[|tour| - 1];
      FewerLeft(fs.ids, anc, item.id);
      TourAllGoesDown(fs, o, dev, item, anc', kept);
      TourAllTold(fs, o, dev, item, anc', kept, i - 1);
      assert forall m | 0 <= m < |all| :: all[m] in all;
      LoopsInside(fs, o, anc, item.id, e, all, [last], i - 1);
    }
  }

  lemma NoLoopAtStart(fs: FileSystem, o: Options, anc: set<Id>, events: seq<Event>)
    requires events != []
    ensures var s := StatOf(fs, o, events[0]); Loops(fs, o, anc, events, 0) <==> s.Directory? && s.id in anc
  {
  }

  lemma {:induction false} TourAllTold(
      fs: FileSystem, o: Options, dev: nat, parent: Item, anc: set<Id>, names: seq<string>, i: nat)
    requires fs.Finite() && parent.level >= 0 && i < |TourAll(fs, o, dev, parent, anc, names)|
    ensures Told(fs, o, anc, TourAll(fs, o, dev, parent, anc, names), i)
    decreases |fs.ids - anc|, 2, |names|
  {
    hide Told, Classify, Honest, NoHigher;
    var kid := Kid(fs, o, parent, anc, names[0]);
    var first, rest := Tour(fs, o, dev, kid, anc), TourAll(fs, o, dev, parent, anc, names[1..]);
    if i < |first| {
      KidIsHonest(fs, o, parent, anc, names[0]);
      TourTold(fs, o, dev, kid, anc, i);
      ToldFirst(fs, o, anc, first, rest, i);
    } else {
      TourAllTold(fs, o, dev, parent, anc, names[1..], i - |first|);
      SiblingsNoHigher(fs, o, dev, parent, anc, names);
      ToldThen(fs, o, anc, first, rest, i);
    }
  }

  lemma SiblingsNoHigher(fs: FileSystem, o: Options, dev: nat, parent: Item, anc: set<Id>, names: seq<string>)
    requires fs.Finite() && |names| > 1
    ensures NoHigher(Tour(fs, o, dev, Kid(fs, o, parent, anc, names[0]), anc), TourAll(fs, o, dev, parent, anc, names[1..]))
  {
    hide Classify, TourInside;
    var kid := Kid(fs, o, parent, anc, names[0]);
    var first := Tour(fs, o, dev, kid, anc);
    TourGoesDown(fs, o, dev, kid, anc);
    assert forall m | 0 <= m < |first| :: first[m] in first;
  }

  lemma RootIsHonest(fs: FileSystem, o: Options, arg: string)
    ensures Honest(fs, o, {}, Load(Root(fs, o, arg)))
  {
  }

  /** Every event says what the file system says of its file: a directory is reported as a cycle
      exactly if the walk is inside that same directory already. */
  lemma {:induction false} WalkTells(fs: FileSystem, o: Options, args: seq<string>, i: nat)
    requires fs.Finite() && i < |TourRoots(fs, o, args)|
    ensures Told(fs, o, {}, TourRoots(fs, o, args), i)
    decreases |args|
  {
    hide Told, TourInside, Classify, BaseName, NoHigher;
    var root := Load(Root(fs, o, args[0]));
    var first, rest := Tour(fs, o, root.id.dev, root, {}), TourRoots(fs, o, args[1..]);
    if i < |first| {
      RootIsHonest(fs, o, args[0]);
      TourTold(fs, o, root.id.dev, root, {}, i);
      ToldFirst(fs, o, {}, first, rest, i);
    } else {
      WalkTells(fs, o, args[1..], i - |first|);
      RootsNoHigher(fs, o, args);
      ToldThen(fs, o, {}, first, rest, i);
    }
  }

  lemma RootsNoHigher(fs: FileSystem, o: Options, args: seq<string>)
    requires fs.Finite() && |args| > 1
    ensures var root := Load(Root(fs, o, args[0]));
            NoHigher(Tour(fs, o, root.id.dev, root, {}), TourRoots(fs, o, args[1..]))
  {
    hide Classify, TourInside;
    var root := Load(Root(fs, o, args[0]));
    var first := Tour(fs, o, root.id.dev, root, {});
    TourGoesDown(fs, o, root.id.dev, root, {});
    assert forall m | 0 <= m < |first| :: first[m] in first;
    RootComesFirst(fs, o, args[1..]);
  }

  lemma RootComesFirst(fs: FileSystem, o: Options, args: seq<string>)
    requires fs.Finite() && args != []
    ensures TourRoots(fs, o, args) != [] && TourRoots(fs, o, args)[0].level == 0
  {
  }

  // ---------------------------------------------------------------- "." and ".."

  predicate Plain(e: Event) {
    e.name != "." && e.name != ".."
  }

  lemma {:induction false} KeptArePlain(names: seq<string>)
    ensures forall n | n in Kept(false, names) :: n != "." && n != ".."
  {
    if names != [] { KeptArePlain(names[1..]); }
  }

  lemma {:induction false} TourIsPlain(fs: FileSystem, o: Options, dev: nat, item: Item, anc: set<Id>)
    requires fs.Finite() && Enterable(fs, item, anc) && !o.seeDot
    ensures forall e | e in Tour(fs, o, dev, item, anc) :: Plain(e) || (e.name == item.name && e.level == item.level)
    decreases |fs.ids - anc|, 1, 0
  {
    hide Classify, Closed;
    if item.info == D && !Closed(o, dev, item) && fs.list(item.path).Names? {
      FewerLeft(fs.ids, anc, item.id);
      KeptArePlain(fs.list(item.path).names);
      TourAllIsPlain(fs, o, dev, item, anc + {item.id}, Kept(false, fs.list(item.path).names));
    }
  }

  lemma {:induction false} TourAllIsPlain(
      fs: FileSystem, o: Options, dev: nat, parent: Item, anc: set<Id>, names: seq<string>)
    requires fs.Finite() && !o.seeDot && forall n | n in names :: n != "." && n != ".."
    ensures forall e | e in TourAll(fs, o, dev, parent, anc, names) :: Plain(e)
    decreases |fs.ids - anc|, 2, |names|
  {
    if names != [] {
      hide Classify;
      TourIsPlain(fs, o, dev, Kid(fs, o, parent, anc, names[0]), anc);
      assert names[0] in names && forall n | n in names[1..] :: n in names;
      TourAllIsPlain(fs, o, dev, parent, anc, names[1..]);
    }
  }

  /** Unless asked for, "." and ".." appear only as roots. */
  lemma {:induction false} WalkHasNoDots(fs: FileSystem, o: Options, args: seq<string>)
    requires fs.Finite() && !o.seeDot
    ensures forall e | e in TourRoots(fs, o, args) && e.level > 0 :: e.name != "." && e.name != ".."
  {
    if args != [] {
      hide Classify;
      var root := Load(Root(fs, o, args[0]));
      TourIsPlain(fs, o, root.id.dev, root, {});
      WalkHasNoDots(fs, o, args[1..]);
    }
  }
}
