/** The walk as the library runs it: nodes allocated and freed one by one, the path of the current
node in a buffer, instructions from the program to skip. */
module FtsStream {
  import opened FtsTour
  import opened FtsStep
  import opened FtsMemory
  import opened FtsRoots

  /** What a program may do with an open stream before it closes it. */
  datatype Call = ReadNext | SkipNode(n: NodeId)

  class Stream {
    const fs: FileSystem
    const o: Options
    var mem: Memory
    var next: NodeId
    var cur: Option<NodeId>
    var path: string
    var dev: nat
    var stopped: bool
    ghost var freed: seq<NodeId>
    ghost var chain: seq<NodeId>
    ghost var paths: map<NodeId, string>

    ghost predicate Env()
      reads this
    {
      fs.Finite() && ProperNames(fs) && o.maxLevel == None && Accounted(mem.Keys, next, freed)
    }

    /** The live nodes are exactly those on the link-then-parent chain from the current one, and the
        buffer holds the path of the current one. */
    ghost predicate Sound()
      reads this
    {
      && Env()
      && if cur.None? then mem == map[] && chain == [] else
           && Good(mem, paths, chain) && |chain| >= 2 && mem.Keys == Nodes(chain)
           && chain[0] == cur.value && cur.value in mem && cur.value in paths
           && (stopped || BufferOk(mem[cur.value], paths[cur.value], path))
    }

    ghost predicate Valid()
      reads this
    {
      Sound() && (See().At? ==> WellFormed(fs, See().items))
    }

    ghost function See(): View
      reads this
    {
      if cur == None then Gone else if stopped then Halted else At(ListOf(mem, paths, chain), path, dev)
    }

    method Free(n: NodeId)
      requires n in mem && Accounted(mem.Keys, next, freed)
      modifies `mem, `freed
      ensures Accounted(mem.Keys, next, freed)
      ensures mem == old(mem) - {n} && freed == old(freed) + [n]
    {
      mem := mem - {n};
      freed := freed + [n];
    }

    method Alloc(node: Node, ghost full: string) returns (n: NodeId)
      requires Accounted(mem.Keys, next, freed)
      modifies `mem, `next, `paths
      ensures Accounted(mem.Keys, next, freed)
      ensures n !in old(mem) && n == old(next) && next == n + 1
      ensures mem == old(mem)[n := node] && paths == old(paths)[n := full]
    {
      n := next;
      mem := mem[n := node];
      next := next + 1;
      paths := paths[n := full];
    }

    /** `fts_lfree` */
    method FreeList(head: Option<NodeId>, ghost kids: seq<NodeId>, ghost below: seq<NodeId>)
      requires Accounted(mem.Keys, next, freed) && KidList(mem, paths, kids, below)
      requires head == if kids == [] then None else Some(kids[0])
      modifies `mem, `freed
      ensures Accounted(mem.Keys, next, freed) && mem == old(mem) - Nodes(kids)
    {
      hide Accounted, PathOk, Good;
      var p := head;
      ghost var i := 0;
      while p.Some?
        invariant 0 <= i <= |kids| && p == if i < |kids| then Some(kids[i]) else None
        invariant Accounted(mem.Keys, next, freed)
        invariant mem == old(mem) - Nodes(kids[..i])
        decreases |kids| - i
      {
        assert KidOk(old(mem), paths, below, kids[i]);
        assert kids[i] !in kids[..i];
        var n := p.value;
        p := mem[n].link;
        Free(n);
        assert Nodes(kids[..i + 1]) == Nodes(kids[..i]) + {kids[i]};
        i := i + 1;
      }
      assert kids[..i] == kids;
    }

    /** `fts_stat`: the ancestors are compared one by one. */
    method StatNode(text: string, name: string, parent: NodeId, follow: bool, ghost up: seq<NodeId>)
      returns (info: Info, id: Id, errno: nat)
      requires Good(mem, paths, up) && up[0] == parent && (mem[parent].level >= 0 ==> mem[parent].info != Init)
      ensures (info, id) == Classify(fs, o, text, name, Around(mem, paths, up), follow)
      ensures info == D || info == Dot ==> errno == 0
    {
      id, errno := NO_ID, 0;
      assert parent in mem;
      hide Good, ItemsOf;
      var stat := if o.logical || follow then fs.stat(text) else fs.lstat(text);
      match stat {
        case Fails(code) =>
          if (o.logical || follow) && !fs.lstat(text).Fails? {
            info := SLNone;
          } else {
            info, errno := NS, code;
          }
        case Directory(found) =>
          id := found;
          if IsDot(name) {
            info := Dot;
            return;
          }
          info := D;
          var t := parent;
          ghost var rest := up;
          while mem[t].level >= 0
            invariant rest != [] && rest[0] == t && t in mem
            invariant Good(mem, paths, rest) && (mem[t].level >= 0 ==> mem[t].info != Init)
            invariant id in Around(mem, paths, up) <==> id in Around(mem, paths, rest)
            decreases |rest|
          {
            ghost var rest' := ParentChain(mem, paths, rest);
            if mem[t].id == id {
              info := DC;
              return;
            }
            rest := rest';
            t := mem[t].parent.value;
          }
        case Link => info := SL;
        case Regular => info := F;
        case Special => info := Default;
      }
    }

    // ------------------------------------------------------------ reading a directory

    /** A node for one entry of the current directory, not linked yet. */
    method NewEntry(name: string, base: string) returns (x: NodeId)
      requires Accounted(mem.Keys, next, freed) && Good(mem, paths, chain) && cur == Some(chain[0])
      requires chain[0] in mem && chain[0] in paths && mem[chain[0]].info == D && mem[chain[0]].level >= 0
      requires base == paths[chain[0]][..AppendAt(paths[chain[0]])] + "/"
      modifies `mem, `next, `paths, `path
      ensures Accounted(mem.Keys, next, freed) && x !in old(mem) && x in mem && mem == old(mem)[x := mem[x]]
      ensures var kid := old(KidOf(fs, o, mem, paths, chain, name));
              paths == old(paths)[x := kid.path] && path == kid.path && EntryOf(mem[x], chain[0], kid)
    {
      FreshAddress(mem.Keys, next, freed);
      hide Accounted, Good, ItemsOf, Above;
      path := base + name;
      var info, id, errno := StatNode(path, name, cur.value, false, chain);
      ghost var kid := KidOf(fs, o, mem, paths, chain, name);
      x := Alloc(Node(cur, None, mem[cur.value].level + 1, name, |base| + |name|, info, false, id, errno), kid.path);
    }

    /** One entry of the directory: a node for it, behind the last one. */
    method AddEntry(name: string, base: string, tail: Option<NodeId>, ghost kids: seq<NodeId>) returns (x: NodeId)
      requires Building(mem, paths, kids, chain) && Accounted(mem.Keys, next, freed) && cur == Some(chain[0])
      requires tail == Last(kids) && name != "" && name[|name| - 1] != '/'
      requires base == paths[chain[0]][..AppendAt(paths[chain[0]])] + "/"
      modifies `mem, `next, `paths, `path
      ensures Building(mem, paths, kids + [x], chain) && Accounted(mem.Keys, next, freed)
      ensures KidItems(mem, paths, kids + [x])
           == old(KidItems(mem, paths, kids)) + [old(KidOf(fs, o, mem, paths, chain, name))]
      ensures ItemsOf(mem, paths, chain) == old(ItemsOf(mem, paths, chain))
    {
      hide Accounted, Good, KidList, ItemsOf, KidOk, Above, PathOk, Classify, Nodes, KidItems, LinkBehind;
      BuildingGood(mem, paths, kids, chain);
      x := NewEntry(name, base);
      EntryAdded(old(mem), old(paths), kids, chain, x, mem[x], paths[x]);
      mem := LinkBehind(mem, tail, x);
    }

    /** A node that is allocated and freed at once. */
    method Discard(name: string)
      requires Accounted(mem.Keys, next, freed)
      modifies `mem, `next, `paths, `freed
      ensures Accounted(mem.Keys, next, freed) && mem == old(mem) && paths == old(paths)
    {
      FreshAddress(mem.Keys, next, freed);
      var x := Alloc(Node(cur, None, 0, name, 0, NS, false, NO_ID, 0), "");
      Free(x);
      paths := old(paths);
    }

    /** A path too long for its node: the node and the list built so far are freed, and the walk
        stops. */
    method GiveUp(name: string, head: Option<NodeId>, ghost kids: seq<NodeId>)
      requires Accounted(mem.Keys, next, freed) && Building(mem, paths, kids, chain) && cur == Some(chain[0])
      requires head == if kids == [] then None else Some(kids[0])
      modifies `mem, `next, `paths, `freed, `stopped
      ensures Accounted(mem.Keys, next, freed) && stopped && Good(mem, paths, chain) && mem.Keys == Nodes(chain)
    {
      hide Accounted, Good, KidList, ItemsOf, KidItems, Nodes, PathOk;
      Discard(name);
      BuildingList(mem, paths, kids, chain);
      FreeList(head, kids, chain);
      ListFreed(old(mem), paths, kids, chain);
      Closing(mem, paths, chain, Err, 0);
      mem := mem[cur.value := mem[cur.value].(info := Err, errno := 0)];
      stopped := true;
    }

    /** The current directory, about to be read. */
    ghost predicate AtDirectory()
      reads this
    {
      && Env() && !stopped && cur.Some? && Building(mem, paths, [], chain) && cur.value == chain[0]
      && path == paths[chain[0]]
    }

    /** The loop of `fts_build`. */
    method BuildList(names: seq<string>, base: string, ghost items: seq<Item>) returns (head: Option<NodeId>, ghost kids: seq<NodeId>)
      requires Env() && !stopped && Building(mem, paths, [], chain) && cur == Some(chain[0])
      requires items != [] && items[0] == ItemOf(mem[chain[0]], paths[chain[0]])
      requires Good(mem, paths, chain) && ListOf(mem, paths, chain) == items
      requires base == items[0].path[..AppendAt(items[0].path)] + "/" && fs.list(items[0].path) == Names(names)
      modifies `mem, `next, `paths, `path, `stopped, `freed
      ensures Env() && Good(mem, paths, chain)
      ensures stopped ==> head == None && mem.Keys == Nodes(chain) && TooLong(items[0].path, Kept(o.seeDot, names))
      ensures !stopped ==> head == (if kids == [] then None else Some(kids[0])) && Building(mem, paths, kids, chain)
      ensures !stopped ==> ListOf(mem, paths, chain) == items && |kids| == |Kept(o.seeDot, names)|
      ensures !stopped ==> Listed(fs, o, items, mem, paths, kids, Kept(o.seeDot, names)) && !TooLong(items[0].path, Kept(o.seeDot, names))
    {
      hide Accounted, ProperNames, Good, KidList, ItemsOf, KidItems, Nodes, Listed, TooLong, Kept;
      head, kids := None, [];
      var tail := None;
      var i := 0;
      ghost var done := [];
      StartList(fs, o, items, names, mem, paths, chain);
      while i < |names|
        invariant 0 <= i <= |names|
        invariant Env() && !stopped && Underway(fs, o, items, names, i, done, mem, paths, kids, chain)
        invariant head == (if kids == [] then None else Some(kids[0])) && tail == Last(kids)
      {
        var name := names[i];
        if !o.seeDot && IsDot(name) {
          PassDot(fs, o, items, names, i, done, mem, paths, kids, chain);
        } else if |base| + |name| >= PATH_LIMIT {
          FoundTooLong(fs, o, items, names, i, done, mem, paths, kids, chain);
          GiveUp(name, head, kids);
          head, kids := None, [];
          return;
        } else {
          NameIsProper(fs, items[0].path, name);
          ghost var mem0, paths0 := mem, paths;
          var x := AddEntry(name, base, tail, kids);
          BuildingGood(mem, paths, kids + [x], chain);
          TakeName(fs, o, items, names, i, done, mem0, paths0, mem, paths, kids, chain, x);
          kids := kids + [x];
          head, tail := if head == None then Some(x) else head, Some(x);
          done := done + [name];
        }
        i := i + 1;
      }
      ListDone(fs, o, items, names, done, mem, paths, kids, chain);
    }

    /** `fts_build`: the list of the entries, or none if the directory cannot be read, has none or
        has one whose path is too long. */
    method Build() returns (head: Option<NodeId>, ghost kids: seq<NodeId>)
      requires AtDirectory()
      modifies `mem, `next, `paths, `path, `stopped, `freed
      ensures Env() && Good(mem, paths, chain)
      ensures BuildOutcome(fs, o, old(ListOf(mem, paths, chain)), mem, paths, head, kids, chain, path, stopped)
    {
      hide Accounted, ProperNames, Good, KidList, ItemsOf, KidItems, Above, Nodes, Kid, Listed, Kept, TooLong;
      DirectoryItem(mem, paths, chain);
      ghost var items := ListOf(mem, paths, chain);
      var dir := cur.value;
      var listing := fs.list(path);
      if listing.Unreadable? {
        Closing(mem, paths, chain, DNR, listing.errno);
        mem := mem[dir := mem[dir].(info := DNR, errno := listing.errno)];
        head, kids := None, [];
        return;
      }
      var at := if path[mem[dir].pathlen - 1] == '/' then mem[dir].pathlen - 1 else mem[dir].pathlen;
      var base := path[..at] + "/";
      assert base[..at] == items[0].path[..AppendAt(items[0].path)];
      head, kids := BuildList(listing.names, base, items);
      if head == None {
        if !stopped {
          Closing(mem, paths, chain, DP, mem[dir].errno);
          path := base[..at];
          mem := mem[dir := mem[dir].(info := DP)];
        }
      } else {
        path := base;
      }
    }

    // ------------------------------------------------------------ leaving the current node

    /** The first node of the chain, `p`, is about to become the current one. */
    ghost predicate Arriving(p: NodeId)
      reads this
    {
      && Env() && !stopped && Good(mem, paths, chain) && |chain| >= 2 && mem.Keys == Nodes(chain)
      && chain[0] == p && p in mem && p in paths
    }

    /** The buffer starts with the path of the parent of `p`. */
    ghost predicate UnderParent(p: NodeId)
      requires p in mem
      reads this
    {
      mem[p].level >= 1 ==> mem[p].parent.Some? && mem[p].parent.value in paths && paths[mem[p].parent.value] <= path
    }

    /** `fts_load` */
    method LoadRoot(p: NodeId) returns (e: Option<Event>)
      requires Arriving(p) && mem[p].level == 0 && mem[p].info != Init && mem[p].name == paths[p]
      modifies `mem, `cur, `path, `dev
      ensures Sound() && !stopped
      ensures Reports(Emit(paths[p], old(mem)[p].id.dev, [Load(old(ItemsOf(mem, paths, chain))[0])] + old(ItemsOf(mem, paths, chain))[1..]), See(), e)
    {
      hide Accounted, ProperNames, Nodes, Good, ItemsOf, BaseName;
      var n := mem[p];
      path := n.name;
      n := n.(pathlen := |n.name|, name := BaseName(n.name));
      LoadedRoot(mem, paths, chain, n);
      mem := mem[p := n];
      dev := n.id.dev;
      cur := Some(p);
      e := Some(Event(n.info, path, n.name, n.level));
    }

    /** `name:` in `yfts_read` */
    method NameCurrent(p: NodeId) returns (e: Option<Event>)
      requires Arriving(p) && mem[p].level >= 1 && mem[p].parent.Some? && mem[p].parent.value in mem
      requires UnderParent(p)
      modifies `cur, `path
      ensures Sound() && !stopped
      ensures Reports(Emit(paths[p], dev, ItemsOf(mem, paths, chain)), See(), e)
    {
      hide Accounted, ProperNames, Nodes, Good, ItemsOf;
      NamedPath(mem, paths, chain, path);
      hide BufferOk;
      var n := mem[p];
      var len := mem[n.parent.value].pathlen;
      var at := if path[len - 1] == '/' then len - 1 else len;
      path := path[..at] + "/" + n.name;
      cur := Some(p);
      e := Some(Event(n.info, path, n.name, n.level));
    }

    /** A directory whose entries are done is delivered again. */
    method DeliverParent(p: NodeId) returns (e: Option<Event>)
      requires Env() && !stopped && chain != [] && chain[0] == p && |chain| >= 2 && p in mem && p in paths
      requires mem[p].errno == 0 && mem[p].pathlen == |paths[p]| > 0 && paths[p] <= path
      requires Good(mem[p := mem[p].(info := DP)], paths, chain) && mem[p := mem[p].(info := DP)].Keys == Nodes(chain)
      modifies `mem, `path, `cur
      ensures Sound() && !stopped
      ensures See() == At(old(ItemsOf(mem[p := mem[p].(info := DP)], paths, chain)), paths[p], dev)
      ensures e == Some(Delivered(paths[p], old(ItemsOf(mem[p := mem[p].(info := DP)], paths, chain))[0]))
    {
      hide Accounted, ProperNames, Nodes, Good, ItemsOf;
      SameKeys(mem, p, mem[p].(info := DP));
      path := path[..mem[p].pathlen];
      mem := mem[p := mem[p].(info := if mem[p].errno != 0 then Err else DP)];
      cur := Some(p);
      e := Some(Event(mem[p].info, path, mem[p].name, mem[p].level));
    }

    /** The way up from the last sibling to its parent. */
    method MoveUp(tmp: NodeId) returns (e: Option<Event>)
      requires Arriving(tmp) && mem[tmp].link == None
      requires UnderParent(tmp)
      modifies this
      ensures Sound() && !stopped
      ensures Reports(Advance(fs, old(dev), old(ItemsOf(mem, paths, chain))), See(), e)
    {
      hide Accounted, ProperNames, Nodes, Good, ItemsOf, Advance;
      UpFacts(mem, paths, chain);
      AdvanceUp(fs, dev, ItemsOf(mem, paths, chain));
      if |chain| > 2 { ParentClosed(mem, paths, chain); }
      var p := mem[tmp].parent.value;
      Free(tmp);
      chain := chain[1..];
      if mem[p].level == -1 {
        LastNode(mem, p);
        Free(p);
        chain := [];
        cur, e := None, None;
      } else {
        e := DeliverParent(p);
      }
    }

    /** `next:` in `yfts_read`: past the nodes to be skipped. */
    method MoveOn() returns (e: Option<Event>)
      requires cur.Some? && Arriving(cur.value)
      requires UnderParent(cur.value)
      modifies this
      ensures Sound() && !stopped
      ensures Reports(Advance(fs, old(dev), old(ItemsOf(mem, paths, chain))), See(), e)
    {
      hide Accounted, ProperNames, Nodes, Good, ItemsOf;
      var p := cur.value;
      while true
        invariant Arriving(p) && dev == old(dev) && path == old(path)
        invariant Advance(fs, dev, ItemsOf(mem, paths, chain)) == Advance(fs, dev, old(ItemsOf(mem, paths, chain)))
        invariant UnderParent(p)
        decreases |chain|
      {
        if mem[p].link == None {
          e := MoveUp(p);
          return;
        }
        SideFacts(mem, paths, chain);
        var tmp := p;
        p := mem[p].link.value;
        Free(tmp);
        chain := chain[1..];
        if mem[p].level == 0 {
          e := LoadRoot(p);
          return;
        }
        if !mem[p].skip {
          e := NameCurrent(p);
          return;
        }
      }
    }

    // ------------------------------------------------------------ the calls of the library

    method EnterDirectory() returns (e: Option<Event>)
      requires AtDirectory()
      modifies this
      ensures Sound()
      ensures Levels(old(ListOf(mem, paths, chain)))
      ensures Reports(Look(fs, o, old(dev), old(ListOf(mem, paths, chain))), See(), e)
    {
      hide Accounted, ProperNames, Good, KidList, ItemsOf, KidItems, Above, Nodes, Kid, Listed, Kept, LinkBehind, TooLong;
      hide Look, NotEntered, Entered;
      ghost var items, dev0 := ListOf(mem, paths, chain), dev;
      DirectoryItem(mem, paths, chain);
      HeadItem(mem, paths, chain);
      var head; ghost var kids;
      head, kids := Build();
      if head == None {
        var p := cur.value;
        HeadItem(mem, paths, chain);
        if stopped {
          TooLongLooks(fs, o, dev0, items);
          e := None;
        } else {
          NotEnteredLooks(fs, o, dev0, items, ListOf(mem, paths, chain), path);
          e := Some(Event(mem[p].info, path, mem[p].name, mem[p].level));
        }
      } else {
        EnteredChain(fs, o, items, mem, paths, kids, chain);
        LooksInside(fs, o, dev0, items);
        chain := kids + chain;
        e := NameCurrent(head.value);
      }
    }

    /** `yfts_read` */
    method Read() returns (e: Option<Event>)
      requires Valid()
      modifies this
      ensures Valid()
      ensures !old(See().At?) ==> e == None && See() == old(See())
      ensures old(See().At?) ==> Reports(Step(fs, o, old(dev), old(See().items)), See(), e)
    {
      hide Accounted, ProperNames, Good, KidList, ItemsOf, Nodes, Look, Advance, Above, PathOk;
      if cur.None? || stopped {
        e := None;
        return;
      }
      StepDelivers(fs, o, dev, See().items);
      hide WellFormed, Delivers;
      var p := cur.value;
      var skip := mem[p].skip;
      SkipSet(mem, paths, chain, false, path);
      mem := mem[p := mem[p].(skip := false)];
      if mem[p].info != D {
        e := MoveOn();
      } else if skip || (o.xdev && mem[p].id.dev != dev) {
        SetInfo(mem, paths, chain, DP);
        mem := mem[p := mem[p].(info := DP)];
        e := Some(Event(DP, path, mem[p].name, mem[p].level));
      } else {
        e := EnterDirectory();
      }
    }

    constructor (fs: FileSystem, o: Options)
      ensures this.fs == fs && this.o == o && mem == map[] && next == 0 && freed == [] && cur == None && !stopped
    {
      this.fs, this.o := fs, o;
      mem, next, cur, path, dev, stopped := map[], 0, None, "", 0, false;
      freed, chain, paths := [], [], map[];
    }

    /** The loop of `yfts_open` over the roots. */
    method OpenRoots(args: seq<string>, top: NodeId) returns (head: Option<NodeId>, ok: bool, ghost roots: seq<NodeId>)
      requires Env() && Rooting(fs, o, mem, paths, [], top, [])
      modifies `mem, `next, `paths, `freed
      ensures Env()
      ensures ok <==> "" !in args
      ensures ok ==> Rooting(fs, o, mem, paths, roots, top, args) && head == if roots == [] then None else Some(roots[0])
      ensures !ok ==> mem == map[]
    {
      hide Accounted, ProperNames, KidList, KidItems, Nodes, RootItems, Classify, LinkBehind;
      head, ok, roots := None, true, [];
      var tail := None;
      var i := 0;
      assert args[..0] == [];
      while i < |args|
        invariant 0 <= i <= |args| && "" !in args[..i]
        invariant Env() && Rooting(fs, o, mem, paths, roots, top, args[..i])
        invariant head == (if roots == [] then None else Some(roots[0])) && tail == Last(roots)
      {
        if args[i] == "" {
          RootsFreed(mem, paths, roots, top);
          FreeList(head, roots, [top]);
          Free(top);
          ok := false;
          return;
        }
        TopIsGood(mem, paths, top);
        FreshAddress(mem.Keys, next, freed);
        var info, id, errno := StatNode(args[i], args[i], top, o.comFollow, [top]);
        MoreRoots(fs, o, mem, paths, roots, top, args[..i], next, args[i], info, id, errno);
        assert args[..i + 1] == args[..i] + [args[i]];
        var x := Alloc(RootNode(top, args[i], info, id, errno), args[i]);
        mem := LinkBehind(mem, tail, x);
        roots := roots + [x];
        head, tail := if head == None then Some(x) else head, Some(x);
        i := i + 1;
      }
      assert args[..i] == args;
    }

    /** The end of `yfts_open`: a node in front of the roots becomes the current one. */
    method Begin(args: seq<string>, top: NodeId, head: Option<NodeId>, ghost roots: seq<NodeId>)
      requires Env() && Rooting(fs, o, mem, paths, roots, top, args) && args != [] && !stopped
      requires head == if roots == [] then None else Some(roots[0])
      modifies this
      ensures Valid() && See() == At(StartItems(fs, o, FIRST_ITEM, args, END_ITEM), path, dev)
    {
      hide Accounted, ProperNames, Good, KidList, ItemsOf, KidItems, RootItems, Nodes;
      RootsCounted(fs, o, mem, paths, roots, top, args);
      FreshAddress(mem.Keys, next, freed);
      RootsReady(fs, o, mem, paths, roots, top, args, next);
      StartWellFormed(fs, o, FIRST_ITEM, args, END_ITEM);
      hide Rooting, WellFormed;
      var x := Alloc(FirstNode(head), "");
      chain := [x] + (roots + [top]);
      cur := Some(x);
    }

    /** `yfts_open`: fails on no roots and on an empty one. */
    method Open(args: seq<string>) returns (ok: bool)
      requires fs.Finite() && ProperNames(fs) && o.maxLevel == None
      requires mem == map[] && next == 0 && freed == [] && cur == None && !stopped
      modifies this
      ensures ok <==> args != [] && "" !in args
      ensures !ok ==> Env() && mem == map[] && cur == None
      ensures ok ==> Valid() && See() == At(StartItems(fs, o, FIRST_ITEM, args, END_ITEM), path, dev)
    {
      hide Accounted, ProperNames, Good, KidList, ItemsOf, KidItems, RootItems, Nodes, WellFormed, Rooting, StartItems;
      NothingAllocated();
      assert mem.Keys == {};
      if args == [] {
        ok := false;
        return;
      }
      var top := Alloc(END_NODE, "");
      NoRoots(fs, o, mem, paths, top);
      var head; ghost var roots;
      head, ok, roots := OpenRoots(args, top);
      if ok {
        Begin(args, top, head, roots);
      }
    }

    /** What the stream has still to deliver, with the given limit. */
    ghost function Left(limited: Options): seq<Event>
      reads this
    {
      if Valid() && See().At? then Remaining(fs, limited, dev, See().items) else []
    }

    /** Valid, and a current node at the limit has been told to be skipped. */
    ghost predicate Ready(max: Option<nat>)
      reads this
    {
      Valid() && (See().At? ==> LimitObeyed(o.(maxLevel := max), See().items[0]))
    }

    /** `yfts_set` with FTS_SKIP, on any node still there. */
    method Skip(n: NodeId)
      requires Valid() && n in mem
      modifies `mem
      ensures Valid() && mem == old(mem)[n := old(mem)[n].(skip := true)]
    {
      hide Accounted, ProperNames, Good, ItemsOf, Nodes, WellFormed;
      SkipAny(fs, mem, paths, chain, n);
      SameKeys(mem, n, mem[n].(skip := true));
      mem := mem[n := mem[n].(skip := true)];
    }

    /** Frees a chain from its first node on. */
    method FreeChain(first: NodeId)
      requires Accounted(mem.Keys, next, freed) && Good(mem, paths, chain) && chain[0] == first && mem.Keys == Nodes(chain)
      modifies `mem, `freed, `chain
      ensures Accounted(mem.Keys, next, freed) && mem == map[] && chain == []
    {
      hide Accounted, Good, Nodes;
      var p := first;
      NextNode(mem, paths, chain);
      while mem[p].level >= 0
        invariant Accounted(mem.Keys, next, freed) && Good(mem, paths, chain) && chain != [] && chain[0] == p && p in mem
        invariant mem.Keys == Nodes(chain) && (mem[p].level < 0 ==> chain == [p])
        decreases |chain|
      {
        NextNode(mem, paths, chain);
        var freep := p;
        p := if mem[p].link.Some? then mem[p].link.value else mem[p].parent.value;
        Free(freep);
        chain := chain[1..];
        NextNode(mem, paths, chain);
      }
      LastNode(mem, p);
      Free(p);
      chain := [];
    }

    /** `yfts_close`: every node ever allocated has been freed, each once. */
    method Close()
      requires Sound()
      modifies this
      ensures Accounted(mem.Keys, next, freed) && mem == map[] && cur == None
      ensures forall n: NodeId | n < next :: n in freed
    {
      hide Good, Nodes;
      if cur.Some? {
        FreeChain(cur.value);
        cur := None;
      }
    }

    /** Opening, any reads and skips of nodes still there, and closing: every node ever allocated has
        been freed exactly once. */
    method Session(args: seq<string>, calls: seq<Call>) returns (ok: bool)
      requires fs.Finite() && ProperNames(fs) && o.maxLevel == None
      requires mem == map[] && next == 0 && freed == [] && cur == None && !stopped
      modifies this
      ensures ok <==> args != [] && "" !in args
      ensures mem == map[] && Accounted(mem.Keys, next, freed)
      ensures forall n: NodeId | n < next :: n in freed
    {
      hide Good, ProperNames, Nodes, ItemsOf;
      ok := Open(args);
      if ok {
        hide Accounted, WellFormed;
        var i := 0;
        while i < |calls|
          invariant 0 <= i <= |calls| && Valid()
        {
          match calls[i] {
            case ReadNext =>
              var e := Read();
            case SkipNode(n) =>
              if n in mem { Skip(n); }
          }
          i := i + 1;
        }
        Close();
      }
    }

    /** `TDirIterator::Next`: a read, after which a node at the limit is told to be skipped. */
    method Next(max: Option<nat>) returns (e: Option<Event>)
      requires Ready(max)
      modifies this
      ensures Ready(max)
      ensures old(Left(o.(maxLevel := max))) == if e.Some? then [e.value] + Left(o.(maxLevel := max)) else []
      ensures e == None ==> Left(o.(maxLevel := max)) == []
    {
      hide Accounted, ProperNames, Good, ItemsOf, Nodes, Step, Above;
      ghost var limited := o.(maxLevel := max);
      if cur.Some? && !stopped {
        StepIgnoresLimit(fs, o, dev, See().items, max);
        StepDelivers(fs, limited, dev, See().items);
      }
      hide WellFormed, Remaining;
      e := Read();
      if e.Some? && max.Some? && e.value.level + 1 > max.value {
        AtTheLimit(fs, limited, dev, See().items);
        var p := cur.value;
        SkipSet(mem, paths, chain, true, path);
        mem := mem[p := mem[p].(skip := true)];
      }
    }

    /** The whole walk of what is left. */
    method Walk(max: Option<nat>) returns (events: seq<Event>)
      requires Ready(max)
      modifies this
      ensures Ready(max) && events == old(Left(o.(maxLevel := max)))
    {
      hide Ready, Left;
      ghost var limited := o.(maxLevel := max);
      events := [];
      var more := true;
      while more
        invariant Ready(max) && events + Left(limited) == old(Left(o.(maxLevel := max)))
        invariant !more ==> Left(limited) == []
        decreases more, |Left(limited)|
      {
        var e := Next(max);
        if e == None {
          more := false;
        } else {
          ghost var rest := Left(limited);
          assert events + ([e.value] + rest) == events + [e.value] + rest;
          events := events + [e.value];
        }
      }
    }

    /** Opening, reading to the end and closing: the events are the recursive walk of the roots. */
    method WalkRoots(args: seq<string>, max: Option<nat>) returns (ok: bool, events: seq<Event>)
      requires fs.Finite() && ProperNames(fs) && o.maxLevel == None
      requires mem == map[] && next == 0 && freed == [] && cur == None && !stopped
      modifies this
      ensures ok <==> args != [] && "" !in args
      ensures ok && RootsFit(fs, o.(maxLevel := max), args) ==> events == TourRoots(fs, o.(maxLevel := max), args)
      ensures ok ==> mem == map[] && Accounted(mem.Keys, next, freed)
    {
      hide Accounted, ProperNames, Good, ItemsOf, Nodes;
      events := [];
      ok := Open(args);
      if ok {
        if RootsFit(fs, o.(maxLevel := max), args) {
          StartIsTour(fs, o, dev, args, max);
        }
        hide WellFormed, Remaining, TourRoots;
        events := Walk(max);
        Close();
      }
    }
  }
}
