/** The roots a walk starts from. */
module FtsRoots {
  import opened FtsTour
  import opened FtsStep
  import opened FtsMemory

  function RootItems(fs: FileSystem, o: Options, args: seq<string>): (items: seq<Item>)
    ensures |items| == |args|
    ensures forall i | 0 <= i < |args| :: items[i] == Root(fs, o, args[i])
  {
    if args == [] then [] else [Root(fs, o, args[0])] + RootItems(fs, o, args[1..])
  }

  /** The list of items a stream starts with: one that stands before the roots, the roots, and the
      parent of the roots. */
  function StartItems(fs: FileSystem, o: Options, first: Item, args: seq<string>, end: Item): seq<Item> {
    [first] + (RootItems(fs, o, args) + [end])
  }

  lemma {:induction false} StartWellFormed(fs: FileSystem, o: Options, first: Item, args: seq<string>, end: Item)
    requires fs.Finite() && first.level == 0 && end.level == -1 && Enterable(fs, first, {})
    ensures WellFormed(fs, StartItems(fs, o, first, args, end))
    ensures Above(StartItems(fs, o, first, args, end)) == {}
    decreases |args|
  {
    var items := StartItems(fs, o, first, args, end);
    if args != [] {
      StartWellFormed(fs, o, Root(fs, o, args[0]), args[1..], end);
      assert items[1..] == StartItems(fs, o, Root(fs, o, args[0]), args[1..], end);
    }
  }

  /** What follows the first item is the walks of the roots, in order. */
  lemma {:induction false} StartDelivers(fs: FileSystem, o: Options, dev: nat, first: Item, args: seq<string>, end: Item)
    requires fs.Finite() && first.level == 0 && end.level == -1 && Enterable(fs, first, {}) && RootsFit(fs, o, args)
    ensures WellFormed(fs, StartItems(fs, o, first, args, end))
    ensures Rest(fs, o, dev, StartItems(fs, o, first, args, end)) == TourRoots(fs, o, args)
    decreases |args|
  {
    var items := StartItems(fs, o, first, args, end);
    StartWellFormed(fs, o, first, args, end);
    if args != [] {
      var root := Root(fs, o, args[0]);
      var tail := StartItems(fs, o, root, args[1..], end);
      assert items[1..] == tail;
      StartWellFormed(fs, o, root, args[1..], end);
      StartDelivers(fs, o, dev, root, args[1..], end);
      VisitIsTour(fs, o, root.id.dev, Load(root), {}, Rest(fs, o, dev, tail));
    }
  }

  const FIRST_ITEM := Item("", "", 0, Init, NO_ID, false)

  const END_ITEM := Item("", "", -1, Default, NO_ID, false)

  /** The whole walk, from the items a stream starts with. */
  lemma StartIsTour(fs: FileSystem, o: Options, dev: nat, args: seq<string>, max: Option<nat>)
    requires fs.Finite() && RootsFit(fs, o.(maxLevel := max), args)
    ensures var items := StartItems(fs, o, FIRST_ITEM, args, END_ITEM);
            && WellFormed(fs, items)
            && Remaining(fs, o.(maxLevel := max), dev, items) == TourRoots(fs, o.(maxLevel := max), args)
  {
    RootsIgnoreLimit(fs, o, max, args);
    StartDelivers(fs, o.(maxLevel := max), dev, FIRST_ITEM, args, END_ITEM);
  }

  // ---------------------------------------------------------------- the roots in memory

  const END_NODE := Node(None, None, -1, "", 0, Default, false, NO_ID, 0)

  function FirstNode(head: Option<NodeId>): Node {
    Node(None, head, 0, "", 0, Init, false, NO_ID, 0)
  }

  /** `roots` are nodes for the arguments `done`, below `top`. */
  ghost predicate Rooting(
      fs: FileSystem, o: Options, mem: Memory, paths: map<NodeId, string>, roots: seq<NodeId>, top: NodeId, done: seq<string>)
  {
    && top in mem && top in paths && mem[top] == END_NODE && paths[top] == ""
    && mem.Keys == Nodes(roots) + {top}
    && KidList(mem, paths, roots, [top])
    && KidItems(mem, paths, roots) == RootItems(fs, o, done)
  }

  function RootNode(top: NodeId, arg: string, info: Info, id: Id, errno: nat): Node {
    Node(Some(top), None, 0, arg, 0, if info == Dot then D else info, false, id, errno)
  }

  lemma NeverInit(fs: FileSystem, o: Options, arg: string)
    ensures Classify(fs, o, arg, arg, {}, o.comFollow).0 != Init
  {
  }

  lemma RootIsKid(mem: Memory, paths: map<NodeId, string>, top: NodeId, x: NodeId)
    requires Good(mem, paths, [top]) && x in mem && x in paths && x != top
    requires mem[x].parent == Some(top) && mem[x].level == 0 && mem[x].info != Init && paths[x] != ""
    requires mem[x].name == paths[x] && (mem[x].info == D ==> mem[x].errno == 0)
    ensures KidOk(mem, paths, [top], x)
  {
  }

  lemma MoreRoots(
      fs: FileSystem, o: Options, mem: Memory, paths: map<NodeId, string>, roots: seq<NodeId>, top: NodeId, done: seq<string>,
      x: NodeId, arg: string, info: Info, id: Id, errno: nat)
    requires Rooting(fs, o, mem, paths, roots, top, done) && x !in mem && arg != ""
    requires (info, id) == Classify(fs, o, arg, arg, {}, o.comFollow) && (info == D || info == Dot ==> errno == 0)
    ensures var n := RootNode(top, arg, info, id, errno);
            var mem' := LinkBehind(mem[x := n], Last(roots), x);
            mem'.Keys == mem[x := n].Keys && Rooting(fs, o, mem', paths[x := arg], roots + [x], top, done + [arg])
  {
    hide KidOk, Good, Classify, PathOk, KidList, KidItems, RootItems, LinkBehind, Nodes;
    var n := RootNode(top, arg, info, id, errno);
    TopIsGood(mem, paths, top);
    FrameAlloc(mem, paths, [top], x, n, arg);
    NeverInit(fs, o, arg);
    RootIsKid(mem[x := n], paths[x := arg], top, x);
    ListAppend(mem, paths, roots, [top], x, n, arg);
    NodesOfRoots(mem, roots, top, x, n);
    assert ItemOf(n, arg) == Root(fs, o, arg);
    RootItemsMore(fs, o, done, arg);
    assert top in [top];
  }

  lemma RootItemsMore(fs: FileSystem, o: Options, done: seq<string>, arg: string)
    ensures RootItems(fs, o, done + [arg]) == RootItems(fs, o, done) + [Root(fs, o, arg)]
  {
    hide Root;
    assert RootItems(fs, o, done + [arg]) == RootItems(fs, o, done) + [Root(fs, o, arg)];
  }

  lemma NodesOfRoots(mem: Memory, roots: seq<NodeId>, top: NodeId, x: NodeId, n: Node)
    requires mem.Keys == Nodes(roots) + {top}
    ensures LinkBehind(mem[x := n], Last(roots), x).Keys == mem[x := n].Keys == Nodes(roots + [x]) + {top}
  {
    assert Nodes(roots + [x]) == Nodes(roots) + {x};
  }

  /** The finished list, with a node in front that stands for "before the first root". */
  lemma RootsReady(
      fs: FileSystem, o: Options, mem: Memory, paths: map<NodeId, string>, roots: seq<NodeId>, top: NodeId, args: seq<string>, x: NodeId)
    requires Rooting(fs, o, mem, paths, roots, top, args) && x !in mem && roots != []
    ensures var n, chain := FirstNode(Some(roots[0])), [x] + (roots + [top]);
            && Good(mem[x := n], paths[x := ""], chain)
            && mem[x := n].Keys == Nodes(chain)
            && ListOf(mem[x := n], paths[x := ""], chain) == StartItems(fs, o, FIRST_ITEM, args, END_ITEM)
  {
    var n, rest := FirstNode(Some(roots[0])), roots + [top];
    hide Good, KidList, ItemsOf, KidItems, RootItems, Nodes;
    RootList(fs, o, mem, paths, roots, top, args);
    InFront(mem, paths, rest, x);
    AllNodes(mem, roots, top, x, n);
  }

  lemma AllNodes(mem: Memory, roots: seq<NodeId>, top: NodeId, x: NodeId, n: Node)
    requires mem.Keys == Nodes(roots) + {top}
    ensures mem[x := n].Keys == Nodes([x] + (roots + [top]))
  {
  }

  lemma RootList(
      fs: FileSystem, o: Options, mem: Memory, paths: map<NodeId, string>, roots: seq<NodeId>, top: NodeId, args: seq<string>)
    requires Rooting(fs, o, mem, paths, roots, top, args) && roots != []
    ensures Good(mem, paths, roots + [top])
    ensures roots[0] in mem && roots[0] in paths && mem[roots[0]].level == 0 && mem[roots[0]].info != Init
    ensures mem[roots[0]].name == paths[roots[0]]
    ensures ListOf(mem, paths, roots + [top]) == RootItems(fs, o, args) + [END_ITEM]
  {
    assert KidOk(mem, paths, [top], roots[0]);
    ListGood(mem, paths, roots, [top]);
    hide KidList, KidOk;
    ListItems(mem, paths, roots, [top]);
  }

  lemma InFront(mem: Memory, paths: map<NodeId, string>, rest: seq<NodeId>, x: NodeId)
    requires Good(mem, paths, rest) && x !in mem && rest[0] in paths
    requires mem[rest[0]].level == 0 && mem[rest[0]].info != Init && mem[rest[0]].name == paths[rest[0]]
    ensures var n := FirstNode(Some(rest[0]));
            && Good(mem[x := n], paths[x := ""], [x] + rest)
            && ListOf(mem[x := n], paths[x := ""], [x] + rest) == [ItemOf(n, "")] + ListOf(mem, paths, rest)
  {
    var n := FirstNode(Some(rest[0]));
    ChainLives(mem, paths, rest);
    FrameAlloc(mem, paths, rest, x, n, "");
    assert ([x] + rest)[1..] == rest;
    assert NodeOk(mem[x := n], paths[x := ""], [x] + rest);
  }

  lemma NoRoots(fs: FileSystem, o: Options, mem: Memory, paths: map<NodeId, string>, top: NodeId)
    requires mem == map[top := END_NODE] && top in paths && paths[top] == ""
    ensures Rooting(fs, o, mem, paths, [], top, [])
  {
  }

  lemma TopIsGood(mem: Memory, paths: map<NodeId, string>, top: NodeId)
    requires top in mem && top in paths && mem[top] == END_NODE
    ensures Good(mem, paths, [top]) && Around(mem, paths, [top]) == {}
  {
  }

  lemma RootsFreed(mem: Memory, paths: map<NodeId, string>, roots: seq<NodeId>, top: NodeId)
    requires mem.Keys == Nodes(roots) + {top} && KidList(mem, paths, roots, [top])
    ensures top in mem - Nodes(roots) && (mem - Nodes(roots)) - {top} == map[]
  {
    forall i | 0 <= i < |roots|
      ensures roots[i] != top
    {
      assert KidOk(mem, paths, [top], roots[i]);
    }
  }

  lemma RootsCounted(
      fs: FileSystem, o: Options, mem: Memory, paths: map<NodeId, string>, roots: seq<NodeId>, top: NodeId, args: seq<string>)
    requires Rooting(fs, o, mem, paths, roots, top, args)
    ensures |roots| == |args|
  {
    assert |KidItems(mem, paths, roots)| == |RootItems(fs, o, args)|;
  }

  lemma {:induction false} RootsIgnoreLimit(fs: FileSystem, o: Options, max: Option<nat>, args: seq<string>)
    ensures RootItems(fs, o.(maxLevel := max), args) == RootItems(fs, o, args)
  {
    if args != [] { RootsIgnoreLimit(fs, o, max, args[1..]); }
  }

  lemma NothingAllocated()
    ensures Accounted({}, 0, [])
  {
  }

  // ---------------------------------------------------------------- skipping and closing

  lemma NodeSkipped(mem: Memory, paths: map<NodeId, string>, chain: seq<NodeId>, n: NodeId)
    requires |chain| >= 2 && NodeOk(mem, paths, chain) && n in mem
    ensures NodeOk(mem[n := mem[n].(skip := true)], paths, chain)
  {
  }

  /** Telling any node to be skipped changes nothing else. */
  lemma {:induction false} SkipAny(fs: FileSystem, mem: Memory, paths: map<NodeId, string>, chain: seq<NodeId>, n: NodeId)
    requires Good(mem, paths, chain) && n in mem
    ensures var mem' := mem[n := mem[n].(skip := true)];
            && Good(mem', paths, chain)
            && Above(ListOf(mem', paths, chain)) == Above(ListOf(mem, paths, chain))
            && (|chain| >= 2 && WellFormed(fs, ListOf(mem, paths, chain)) ==> WellFormed(fs, ListOf(mem', paths, chain)))
    decreases |chain|
  {
    hide LinkOk, PathOk, Levels;
    if |chain| >= 2 {
      var mem' := mem[n := mem[n].(skip := true)];
      NodeSkipped(mem, paths, chain, n);
      SkipAny(fs, mem, paths, chain[1..], n);
      assert ListOf(mem', paths, chain)[1..] == ListOf(mem', paths, chain[1..]);
      assert ListOf(mem, paths, chain)[1..] == ListOf(mem, paths, chain[1..]);
    }
  }

  /** The link, or the parent where there is none, is the next node of the chain. */
  lemma NextNode(mem: Memory, paths: map<NodeId, string>, chain: seq<NodeId>)
    requires Good(mem, paths, chain) && mem.Keys == Nodes(chain)
    ensures chain[0] in mem && (mem[chain[0]].level < 0 ==> chain == [chain[0]])
    ensures mem[chain[0]].level >= 0 ==>
              && |chain| >= 2 && chain[1] in mem && chain[1] != chain[0]
              && (if mem[chain[0]].link.Some? then mem[chain[0]].link else mem[chain[0]].parent) == Some(chain[1])
              && Good(mem - {chain[0]}, paths, chain[1..]) && (mem - {chain[0]}).Keys == Nodes(chain[1..])
  {
    if |chain| >= 2 {
      assert NodeOk(mem, paths, chain);
      DropHead(mem, paths, chain);
    }
  }

  lemma StepIgnoresLimit(fs: FileSystem, o: Options, dev: nat, items: seq<Item>, max: Option<nat>)
    requires Levels(items)
    ensures Step(fs, o.(maxLevel := max), dev, items) == Step(fs, o, dev, items)
  {
    var p := items[0].(skip := false);
    if fs.list(p.path).Names? {
      var anc, names := {p.id} + Above([p] + items[1..]), Kept(o.seeDot, fs.list(p.path).names);
      KidsIgnoreLimit(fs, o, p, anc, names, max);
    }
  }

  lemma KidsIgnoreLimit(fs: FileSystem, o: Options, p: Item, anc: set<Id>, names: seq<string>, max: Option<nat>)
    ensures Kids(fs, o.(maxLevel := max), p, anc, names) == Kids(fs, o, p, anc, names)
  {
    forall i | 0 <= i < |names|
      ensures Kid(fs, o.(maxLevel := max), p, anc, names[i]) == Kid(fs, o, p, anc, names[i])
    {
    }
    hide Kid;
    assert Kids(fs, o.(maxLevel := max), p, anc, names) == Kids(fs, o, p, anc, names);
  }

  /** An item at the limit has nothing left inside, whether told to be skipped or not. */
  lemma AtTheLimit(fs: FileSystem, o: Options, dev: nat, items: seq<Item>)
    requires fs.Finite() && WellFormed(fs, items) && o.maxLevel.Some? && items[0].level + 1 > o.maxLevel.value
    ensures WellFormed(fs, [items[0].(skip := true)] + items[1..])
    ensures Remaining(fs, o, dev, [items[0].(skip := true)] + items[1..]) == Remaining(fs, o, dev, items)
  {
    var items' := [items[0].(skip := true)] + items[1..];
    assert items'[1..] == items[1..];
    assert Above(items') == Above(items);
  }
}
