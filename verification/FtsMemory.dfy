/** The nodes of a walk in memory: linked to siblings and parents, one path buffer for all of them.

Memory is a map from addresses to nodes.  Freeing a node takes it out of the map, and every access
is to an address in the map, so nothing is touched after it was freed.
*/
module FtsMemory {
  import opened FtsTour
  import opened FtsStep

  type NodeId = nat

  datatype Node = Node(
    parent: Option<NodeId>, link: Option<NodeId>, level: int, name: string, pathlen: nat,
    info: Info, skip: bool, id: Id, errno: nat)

  type Memory = map<NodeId, Node>

  // ---------------------------------------------------------------- the shape of the memory

  function ItemOf(n: Node, path: string): Item {
    Item(path, n.name, n.level, n.info, n.id, n.skip)
  }

  /** The first node of a chain: following its link, or its parent where it has none, leads to the
      second; its path is its parent's path and its name; and it knows how long its path is. */
  ghost predicate NodeOk(mem: Memory, paths: map<NodeId, string>, chain: seq<NodeId>)
    requires |chain| >= 2
  {
    var x, y := chain[0], chain[1];
    && x in mem && x in paths && y in mem && y in paths && x !in chain[1..]
    && LinkOk(mem[x], mem[y], y, paths[y])
    && mem[x].level >= 0
    && (mem[x].info == D ==> mem[x].errno == 0)
    && (mem[x].level == 0 && mem[x].info != Init ==> paths[x] != "")
    && (mem[x].level >= 1 ==> PathOk(mem, paths, mem[x], paths[x], chain[1..]))
  }

  predicate LinkOk(n: Node, m: Node, y: NodeId, path: string) {
    match n.link
    case Some(l) =>
      && l == y && m.level == n.level && m.info != Init
      && (n.info != Init ==> m.parent == n.parent)
      && (m.level == 0 ==> m.name == path)
    case None => n.parent == Some(y) && m.level == n.level - 1 && n.info != Init
  }

  ghost predicate PathOk(mem: Memory, paths: map<NodeId, string>, n: Node, path: string, tail: seq<NodeId>) {
    && n.info != Init
    && n.parent.Some? && n.parent.value in tail && n.parent.value in mem && n.parent.value in paths
    && path == ChildPath(paths[n.parent.value], n.name)
    && path[|path| - 1] != '/'
    && n.pathlen == |path|
    && mem[n.parent.value].info == D
    && mem[n.parent.value].pathlen == |paths[n.parent.value]| > 0
  }

  ghost predicate Good(mem: Memory, paths: map<NodeId, string>, chain: seq<NodeId>) {
    && chain != []
    && if |chain| == 1 then chain[0] in mem && chain[0] in paths && mem[chain[0]].level == -1
       else NodeOk(mem, paths, chain) && Good(mem, paths, chain[1..])
  }

  ghost function ItemsOf(mem: Memory, paths: map<NodeId, string>, chain: seq<NodeId>): (items: seq<Item>)
    requires Good(mem, paths, chain)
    ensures |items| == |chain| && items[0] == ItemOf(mem[chain[0]], paths[chain[0]])
    ensures |chain| >= 2 ==> Levels(items)
  {
    [ItemOf(mem[chain[0]], paths[chain[0]])] + (if |chain| == 1 then [] else ItemsOf(mem, paths, chain[1..]))
  }

  /** The items of a chain depend only on the nodes of the chain. */
  lemma {:induction false} GoodFrame(mem: Memory, paths: map<NodeId, string>, mem': Memory, paths': map<NodeId, string>, chain: seq<NodeId>)
    requires Good(mem, paths, chain)
    requires forall x | x in chain && x in mem && x in paths :: x in mem' && mem'[x] == mem[x] && x in paths' && paths'[x] == paths[x]
    ensures Good(mem', paths', chain) && ItemsOf(mem', paths', chain) == ItemsOf(mem, paths, chain)
  {
    if |chain| > 1 {
      GoodFrame(mem, paths, mem', paths', chain[1..]);
    }
  }

  lemma {:induction false} ChainLives(mem: Memory, paths: map<NodeId, string>, chain: seq<NodeId>)
    requires Good(mem, paths, chain)
    ensures forall x | x in chain :: x in mem && x in paths
  {
    if |chain| > 1 { ChainLives(mem, paths, chain[1..]); }
  }

  ghost function Nodes(chain: seq<NodeId>): set<NodeId> {
    set n | n in chain
  }

  lemma {:induction false} ItemsAt(mem: Memory, paths: map<NodeId, string>, chain: seq<NodeId>)
    requires Good(mem, paths, chain)
    ensures forall i | 0 <= i < |chain| ::
              chain[i] in mem && chain[i] in paths && ItemsOf(mem, paths, chain)[i] == ItemOf(mem[chain[i]], paths[chain[i]])
  {
    if |chain| > 1 {
      hide NodeOk;
      ItemsAt(mem, paths, chain[1..]);
      forall i | 1 <= i < |chain|
        ensures chain[i] in mem && chain[i] in paths && ItemsOf(mem, paths, chain)[i] == ItemOf(mem[chain[i]], paths[chain[i]])
      {
        assert chain[i] == chain[1..][i - 1];
      }
    }
  }

  /** Leaving the first node of a chain. */
  lemma DropHead(mem: Memory, paths: map<NodeId, string>, chain: seq<NodeId>)
    requires Good(mem, paths, chain) && |chain| >= 2 && mem.Keys == Nodes(chain)
    ensures Good(mem - {chain[0]}, paths, chain[1..]) && (mem - {chain[0]}).Keys == Nodes(chain[1..])
    ensures ItemsOf(mem - {chain[0]}, paths, chain[1..]) == ItemsOf(mem, paths, chain)[1..]
  {
    assert NodeOk(mem, paths, chain);
    assert Nodes(chain) == {chain[0]} + Nodes(chain[1..]);
    hide NodeOk;
    GoodFrame(mem, paths, mem - {chain[0]}, paths, chain[1..]);
  }

  /** Rewriting the first node of a chain, but not where it hangs. */
  lemma RewriteHead(mem: Memory, paths: map<NodeId, string>, chain: seq<NodeId>, n: Node)
    requires Good(mem, paths, chain) && |chain| >= 2
    requires NodeOk(mem[chain[0] := n], paths, chain) && n.level == mem[chain[0]].level
    ensures Good(mem[chain[0] := n], paths, chain)
    ensures ItemsOf(mem[chain[0] := n], paths, chain)
         == [ItemOf(n, paths[chain[0]])] + ItemsOf(mem, paths, chain)[1..]
  {
    GoodFrame(mem, paths, mem[chain[0] := n], paths, chain[1..]);
  }

  /** Leaving the last of the siblings: the next node is its parent. */
  lemma UpFacts(mem: Memory, paths: map<NodeId, string>, chain: seq<NodeId>)
    requires Good(mem, paths, chain) && |chain| >= 2 && mem.Keys == Nodes(chain) && mem[chain[0]].link == None
    ensures chain[0] != chain[1] && chain[1] in mem && chain[1] in paths && mem[chain[0]].parent == Some(chain[1])
    ensures Good(mem - {chain[0]}, paths, chain[1..]) && (mem - {chain[0]}).Keys == Nodes(chain[1..])
    ensures |chain| == 2 <==> mem[chain[1]].level == -1
    ensures ItemsOf(mem, paths, chain)[1] == ItemOf(mem[chain[1]], paths[chain[1]])
    ensures |chain| > 2 ==> mem[chain[0]].level >= 1 && mem[chain[1]].level == mem[chain[0]].level - 1
    ensures |chain| == 2 ==> chain[1..] == [chain[1]]
  {
    hide Nodes;
    assert NodeOk(mem, paths, chain);
    DropHead(mem, paths, chain);
  }

  /** The parent, left for good. */
  lemma ParentClosed(mem: Memory, paths: map<NodeId, string>, chain: seq<NodeId>)
    requires Good(mem, paths, chain) && |chain| > 2 && mem.Keys == Nodes(chain) && mem[chain[0]].link == None
    ensures var p := mem[chain[1]].(info := DP);
            var mem' := (mem - {chain[0]})[chain[1] := p];
            && p.errno == 0 && p.pathlen == |paths[chain[1]]| > 0
            && Good(mem', paths, chain[1..]) && mem'.Keys == Nodes(chain[1..])
            && var items := ItemsOf(mem, paths, chain);
               ItemsOf(mem', paths, chain[1..]) == [items[1].(info := DP)] + items[2..]
  {
    UpFacts(mem, paths, chain);
    hide Nodes;
    var mem1, p, items := mem - {chain[0]}, mem[chain[1]].(info := DP), ItemsOf(mem, paths, chain);
    assert NodeOk(mem, paths, chain) && NodeOk(mem1, paths, chain[1..]);
    assert items[1..][1..] == items[2..];
    DropHead(mem, paths, chain);
    RewriteHead(mem1, paths, chain[1..], p);
    SameKeys(mem1, chain[1], p);
  }

  /** Leaving a node for its next sibling. */
  lemma SideFacts(mem: Memory, paths: map<NodeId, string>, chain: seq<NodeId>)
    requires Good(mem, paths, chain) && |chain| >= 2 && mem.Keys == Nodes(chain) && mem[chain[0]].link.Some?
    ensures |chain| > 2 && mem[chain[0]].link == Some(chain[1]) && chain[1] in mem && chain[1] in paths && chain[0] != chain[1]
    ensures var n, m, mem' := mem[chain[0]], mem[chain[1]], mem - {chain[0]};
            && m.level == n.level >= 0 && m.info != Init && (m.level == 0 ==> m.name == paths[chain[1]])
            && (n.level >= 1 ==> m.parent == n.parent)
            && Good(mem', paths, chain[1..]) && mem'.Keys == Nodes(chain[1..])
            && ItemsOf(mem', paths, chain[1..]) == ItemsOf(mem, paths, chain)[1..]
            && ItemsOf(mem, paths, chain)[1] == ItemOf(m, paths[chain[1]])
    ensures mem[chain[1]].level >= 1 ==>
              mem[chain[1]].parent.Some? && mem[chain[1]].parent.value in paths && mem[chain[1]].parent.value in mem - {chain[0]}
  {
    hide Nodes;
    assert NodeOk(mem, paths, chain);
    DropHead(mem, paths, chain);
    assert NodeOk(mem - {chain[0]}, paths, chain[1..]);
  }

  /** The parent pointer of the first node of a chain leads further down the chain, past its
      siblings. */
  lemma {:induction false} ParentJump(mem: Memory, paths: map<NodeId, string>, chain: seq<NodeId>) returns (up: seq<NodeId>)
    requires Good(mem, paths, chain) && |chain| >= 2 && mem[chain[0]].info != Init
    ensures 1 <= |up| < |chain| && Good(mem, paths, up) && mem[chain[0]].parent == Some(up[0])
    ensures forall x | x in up :: x in chain[1..]
    ensures mem[up[0]].level == mem[chain[0]].level - 1
    ensures Above(ItemsOf(mem, paths, chain))
         == if mem[up[0]].level < 0 then {} else {mem[up[0]].id} + Above(ItemsOf(mem, paths, up))
    decreases |chain|
  {
    var items := ItemsOf(mem, paths, chain);
    assert items[1..] == ItemsOf(mem, paths, chain[1..]);
    if mem[chain[0]].link.Some? {
      assert |chain| >= 3;
      up := ParentJump(mem, paths, chain[1..]);
    } else {
      up := chain[1..];
    }
  }

  /** Names as a directory lists them. */
  ghost predicate ProperNames(fs: FileSystem) {
    forall path: string | fs.list(path).Names? ::
      forall name | name in fs.list(path).names :: name != "" && name[|name| - 1] != '/'
  }

  lemma ParentPathIsPrefix(path: string, name: string)
    requires path != ""
    ensures path <= ChildPath(path, name)
  {
  }

  // ---------------------------------------------------------------- a list of siblings

  /** A node of a list below the first node of `chain`, but for its link. */
  ghost predicate KidOk(mem: Memory, paths: map<NodeId, string>, chain: seq<NodeId>, k: NodeId)
    requires Good(mem, paths, chain)
  {
    && k in mem && k in paths && k !in chain
    && mem[k].parent == Some(chain[0]) && mem[k].level == mem[chain[0]].level + 1
    && mem[k].info != Init && (mem[k].info == D ==> mem[k].errno == 0)
    && (mem[k].level == 0 ==> paths[k] != "" && mem[k].name == paths[k])
    && (mem[k].level >= 1 ==> PathOk(mem, paths, mem[k], paths[k], chain))
  }

  function LinkAt(kids: seq<NodeId>, i: nat): Option<NodeId> {
    if i + 1 < |kids| then Some(kids[i + 1]) else None
  }

  ghost predicate KidList(mem: Memory, paths: map<NodeId, string>, kids: seq<NodeId>, chain: seq<NodeId>) {
    && Good(mem, paths, chain)
    && (forall i | 0 <= i < |kids| :: KidOk(mem, paths, chain, kids[i]) && mem[kids[i]].link == LinkAt(kids, i))
    && (forall i, j | 0 <= i < j < |kids| :: kids[i] != kids[j])
  }

  ghost function ItemAt(mem: Memory, paths: map<NodeId, string>, x: NodeId): Item {
    if x in mem && x in paths then ItemOf(mem[x], paths[x]) else Item("", "", 0, Init, NO_ID, false)
  }

  ghost function KidItems(mem: Memory, paths: map<NodeId, string>, kids: seq<NodeId>): (items: seq<Item>)
    ensures |items| == |kids|
    ensures forall i | 0 <= i < |kids| :: items[i] == ItemAt(mem, paths, kids[i])
  {
    seq(|kids|, i requires 0 <= i < |kids| => ItemAt(mem, paths, kids[i]))
  }

  lemma ListTail(mem: Memory, paths: map<NodeId, string>, kids: seq<NodeId>, chain: seq<NodeId>)
    requires KidList(mem, paths, kids, chain) && kids != []
    ensures KidList(mem, paths, kids[1..], chain)
  {
    hide PathOk, Good, KidOk;
    assert forall i | 0 <= i < |kids[1..]| :: LinkAt(kids[1..], i) == LinkAt(kids, i + 1);
  }

  /** A list of siblings in front of a chain is a chain. */
  lemma {:induction false} ListGood(mem: Memory, paths: map<NodeId, string>, kids: seq<NodeId>, chain: seq<NodeId>)
    requires KidList(mem, paths, kids, chain)
    ensures Good(mem, paths, kids + chain)
    decreases |kids|
  {
    if kids == [] {
      assert kids + chain == chain;
    } else {
      ListTail(mem, paths, kids, chain);
      ListGood(mem, paths, kids[1..], chain);
      FirstKid(mem, paths, kids, chain);
    }
  }

  lemma FirstKid(mem: Memory, paths: map<NodeId, string>, kids: seq<NodeId>, chain: seq<NodeId>)
    requires KidList(mem, paths, kids, chain) && kids != [] && Good(mem, paths, kids[1..] + chain)
    ensures Good(mem, paths, kids + chain)
  {
    assert (kids + chain)[1..] == kids[1..] + chain;
    assert KidOk(mem, paths, chain, kids[0]);
    if |kids| > 1 {
      assert KidOk(mem, paths, chain, kids[1]);
    }
    assert NodeOk(mem, paths, kids + chain);
  }

  lemma ListItems(mem: Memory, paths: map<NodeId, string>, kids: seq<NodeId>, chain: seq<NodeId>)
    requires Good(mem, paths, chain) && Good(mem, paths, kids + chain)
    ensures ItemsOf(mem, paths, kids + chain) == KidItems(mem, paths, kids) + ItemsOf(mem, paths, chain)
  {
    hide Good, ItemsOf;
    ItemsAt(mem, paths, kids + chain);
    ItemsAt(mem, paths, chain);
    var all, list, rest := ItemsOf(mem, paths, kids + chain), KidItems(mem, paths, kids), ItemsOf(mem, paths, chain);
    forall i | 0 <= i < |all|
      ensures all[i] == (list + rest)[i]
    {
      if i >= |kids| { assert (kids + chain)[i] == chain[i - |kids|]; }
    }
  }

  /** Links `x` behind `tail`. */
  function LinkBehind(mem: Memory, tail: Option<NodeId>, x: NodeId): Memory {
    if tail.Some? && tail.value in mem then mem[tail.value := mem[tail.value].(link := Some(x))] else mem
  }

  function Last(kids: seq<NodeId>): Option<NodeId> {
    if kids == [] then None else Some(kids[|kids| - 1])
  }

  lemma KidKept(mem: Memory, paths: map<NodeId, string>, mem': Memory, paths': map<NodeId, string>, chain: seq<NodeId>, k: NodeId)
    requires Good(mem, paths, chain) && Good(mem', paths', chain) && KidOk(mem, paths, chain, k)
    requires chain[0] in paths && k in mem' && k in paths' && paths'[k] == paths[k]
    requires mem'[chain[0]] == mem[chain[0]] && paths'[chain[0]] == paths[chain[0]]
    requires mem'[k].(link := None) == mem[k].(link := None)
    ensures KidOk(mem', paths', chain, k)
  {
  }

  lemma ListAppend(mem: Memory, paths: map<NodeId, string>, kids: seq<NodeId>, chain: seq<NodeId>, x: NodeId, n: Node, full: string)
    requires KidList(mem, paths, kids, chain) && x !in mem && n.link == None
    requires Good(mem[x := n], paths[x := full], chain) && KidOk(mem[x := n], paths[x := full], chain, x)
    ensures var mem', paths' := LinkBehind(mem[x := n], Last(kids), x), paths[x := full];
            && KidList(mem', paths', kids + [x], chain)
            && KidItems(mem', paths', kids + [x]) == KidItems(mem, paths, kids) + [ItemOf(n, full)]
            && (forall y | y in chain && y in mem :: y in mem' && mem'[y] == mem[y])
  {
    hide PathOk;
    var mem', paths', kids' := LinkBehind(mem[x := n], Last(kids), x), paths[x := full], kids + [x];
    ChainLives(mem, paths, chain);
    assert kids != [] ==> KidOk(mem, paths, chain, kids[|kids| - 1]);
    GoodFrame(mem, paths, mem', paths', chain);
    hide Good;
    forall i | 0 <= i < |kids'|
      ensures KidOk(mem', paths', chain, kids'[i]) && mem'[kids'[i]].link == LinkAt(kids', i)
      ensures ItemAt(mem', paths', kids'[i]) == (KidItems(mem, paths, kids) + [ItemOf(n, full)])[i]
    {
      AppendedAt(mem, paths, kids, chain, x, n, full, i);
    }
  }

  lemma FirstLives(mem: Memory, paths: map<NodeId, string>, chain: seq<NodeId>)
    requires Good(mem, paths, chain)
    ensures chain[0] in mem && chain[0] in paths
  {
  }

  lemma AppendedAt(
      mem: Memory, paths: map<NodeId, string>, kids: seq<NodeId>, chain: seq<NodeId>, x: NodeId, n: Node, full: string, i: nat)
    requires KidList(mem, paths, kids, chain) && x !in mem && n.link == None && i <= |kids|
    requires Good(mem[x := n], paths[x := full], chain) && KidOk(mem[x := n], paths[x := full], chain, x)
    requires Good(LinkBehind(mem[x := n], Last(kids), x), paths[x := full], chain)
    ensures var mem', paths', kids' := LinkBehind(mem[x := n], Last(kids), x), paths[x := full], kids + [x];
            && KidOk(mem', paths', chain, kids'[i]) && mem'[kids'[i]].link == LinkAt(kids', i)
            && ItemAt(mem', paths', kids'[i]) == (KidItems(mem, paths, kids) + [ItemOf(n, full)])[i]
  {
    hide PathOk, Good;
    FirstLives(mem, paths, chain);
    ChainLives(mem, paths, chain);
    var mem', paths' := LinkBehind(mem[x := n], Last(kids), x), paths[x := full];
    assert kids != [] ==> KidOk(mem, paths, chain, kids[|kids| - 1]);
    if i < |kids| {
      assert KidOk(mem, paths, chain, kids[i]);
      KidKept(mem, paths, mem', paths', chain, kids[i]);
    } else {
      KidKept(mem[x := n], paths', mem', paths', chain, x);
    }
  }

  /** Every address handed out is either live or was freed, once. */
  ghost predicate Accounted(live: set<NodeId>, next: NodeId, freed: seq<NodeId>) {
    && (forall i, j | 0 <= i < j < |freed| :: freed[i] != freed[j])
    && (forall n | n in freed :: n < next && n !in live)
    && (forall n | n in live :: n < next)
    && (forall n | 0 <= n < next :: n in live || n in freed)
  }

  /** What is seen of a stream: finished, stopped by an error, or at an item. */
  datatype View = Gone | Halted | At(items: seq<Item>, path: string, dev: nat)

  /** `out` is what happened: the stream now looks like `view` and delivered `e`. */
  ghost predicate Reports(out: Outcome, view: View, e: Option<Event>) {
    match out
    case End => view == Gone && e == None
    case Stop => view == Halted && e == None
    case Emit(shown, dev, items) => items != [] && view == At(items, shown, dev) && e == Some(Delivered(shown, items[0]))
  }

  /** The buffer holds the path of the node, `full`. */
  predicate BufferOk(n: Node, full: string, path: string) {
    n.info != Init ==>
      && n.pathlen == |full| > 0
      && (path == full || (n.level == 0 && n.info == DP && path == full[..AppendAt(full)]))
  }

  /** What the buffer holds once a node below the roots is named behind its parent's path. */
  lemma NamedPath(mem: Memory, paths: map<NodeId, string>, chain: seq<NodeId>, path: string)
    requires Good(mem, paths, chain) && |chain| >= 2 && mem[chain[0]].level >= 1
    requires mem[chain[0]].parent.Some? && mem[chain[0]].parent.value in mem && mem[chain[0]].parent.value in paths
    requires paths[mem[chain[0]].parent.value] <= path
    ensures var n, full := mem[chain[0]], paths[chain[0]];
            var len := mem[n.parent.value].pathlen;
            && 0 < len <= |path|
            && path[..if path[len - 1] == '/' then len - 1 else len] + "/" + n.name == full
            && BufferOk(n, full, full)
  {
    assert NodeOk(mem, paths, chain);
    var n := mem[chain[0]];
    var up := paths[n.parent.value];
    assert path[..|up|] == up;
    assert path[..AppendAt(up)] == up[..AppendAt(up)];
  }

  /** A root as it is loaded: its path is the whole text it was given as. */
  lemma LoadedRoot(mem: Memory, paths: map<NodeId, string>, chain: seq<NodeId>, n: Node)
    requires Good(mem, paths, chain) && |chain| >= 2 && mem[chain[0]].level == 0 && mem[chain[0]].info != Init
    requires mem[chain[0]].name == paths[chain[0]]
    requires n == mem[chain[0]].(pathlen := |mem[chain[0]].name|, name := BaseName(mem[chain[0]].name))
    ensures var mem' := mem[chain[0] := n];
            && Good(mem', paths, chain) && mem'.Keys == mem.Keys && BufferOk(n, paths[chain[0]], paths[chain[0]])
            && ItemsOf(mem', paths, chain) == [Load(ItemsOf(mem, paths, chain)[0])] + ItemsOf(mem, paths, chain)[1..]
  {
    hide PathOk, LastSlash;
    assert NodeOk(mem, paths, chain);
    RewriteHead(mem, paths, chain, n);
    assert mem[chain[0] := n].Keys == mem.Keys;
  }

  /** The first item of a chain. */
  lemma HeadItem(mem: Memory, paths: map<NodeId, string>, chain: seq<NodeId>)
    requires Good(mem, paths, chain) && |chain| >= 2
    ensures var items := ListOf(mem, paths, chain);
            && chain[0] in mem && chain[0] in paths && mem[chain[0]].level >= 0
            && Levels(items) && items[0] == ItemOf(mem[chain[0]], paths[chain[0]])
            && (mem[chain[0]].level >= 1 ==> AppendAt(paths[chain[0]]) == |paths[chain[0]]|)
  {
    hide PathOk, LinkOk, ChildPath;
    assert NodeOk(mem, paths, chain);
    if mem[chain[0]].level >= 1 { NoFinalSlash(mem, paths, mem[chain[0]], paths[chain[0]], chain[1..]); }
  }

  lemma NoFinalSlash(mem: Memory, paths: map<NodeId, string>, n: Node, path: string, tail: seq<NodeId>)
    requires PathOk(mem, paths, n, path, tail)
    ensures AppendAt(path) == |path|
  {
  }

  lemma SkipSet(mem: Memory, paths: map<NodeId, string>, chain: seq<NodeId>, skip: bool, path: string)
    requires Good(mem, paths, chain) && |chain| >= 2 && mem.Keys == Nodes(chain)
    ensures var items, mem' := ListOf(mem, paths, chain), mem[chain[0] := mem[chain[0]].(skip := skip)];
            && Good(mem', paths, chain) && mem'.Keys == mem.Keys && Levels(items) && items[0] == ItemOf(mem[chain[0]], paths[chain[0]])
            && ListOf(mem', paths, chain) == [items[0].(skip := skip)] + items[1..]
            && (mem[chain[0]].level >= 1 ==> mem[chain[0]].info != Init)
            && (mem[chain[0]].level >= 1 && path == paths[chain[0]] ==>
                  && mem[chain[0]].parent.Some? && mem[chain[0]].parent.value in paths
                  && paths[mem[chain[0]].parent.value] <= path)
            && (mem[chain[0]].info == D && BufferOk(mem[chain[0]], paths[chain[0]], path) ==> Building(mem', paths, [], chain))
  {
    assert NodeOk(mem, paths, chain);
    if mem[chain[0]].level >= 1 {
      ParentPathIsPrefix(paths[mem[chain[0]].parent.value], mem[chain[0]].name);
    }
    var n := mem[chain[0]].(skip := skip);
    assert mem[chain[0] := n].Keys == mem.Keys == Nodes([]) + Nodes(chain);
    hide Nodes;
    RewriteHead(mem, paths, chain, n);
  }

  lemma SetInfo(mem: Memory, paths: map<NodeId, string>, chain: seq<NodeId>, info: Info)
    requires Good(mem, paths, chain) && |chain| >= 2 && mem[chain[0]].info == D && info != Init
    ensures var items, mem' := ListOf(mem, paths, chain), mem[chain[0] := mem[chain[0]].(info := info)];
            && Good(mem', paths, chain) && mem'.Keys == mem.Keys && Levels(items) && items[0] == ItemOf(mem[chain[0]], paths[chain[0]])
            && ListOf(mem', paths, chain) == [items[0].(info := info)] + items[1..]
  {
    assert NodeOk(mem, paths, chain);
    var n := mem[chain[0]].(info := info);
    assert mem[chain[0] := n].Keys == mem.Keys;
    RewriteHead(mem, paths, chain, n);
  }

  /** The directory `items[0]` with the list of its entries in front. */
  lemma EnteredChain(
      fs: FileSystem, o: Options, items: seq<Item>, mem: Memory, paths: map<NodeId, string>, kids: seq<NodeId>, chain: seq<NodeId>)
    requires Entered(fs, o, items, mem, paths, kids, chain)
    ensures Good(mem, paths, kids + chain) && mem.Keys == Nodes(kids + chain)
    ensures Levels(items) && Look(fs, o, 0, items).Emit? && ListOf(mem, paths, kids + chain) == Look(fs, o, 0, items).items
    ensures kids[0] in mem && kids[0] in paths && mem[kids[0]].level >= 1 && mem[kids[0]].parent == Some(chain[0])
    ensures paths[kids[0]] == Look(fs, o, 0, items).shown
    ensures chain[0] in mem && chain[0] in paths && paths[chain[0]] == items[0].path
  {
    hide Good, ItemsOf, KidList, Nodes, KidItems, Kid, TooLong, Kept;
    BuildingList(mem, paths, kids, chain);
    BuildingGood(mem, paths, kids, chain);
    HeadItem(mem, paths, chain);
    HeadKid(mem, paths, kids, chain);
    ListGood(mem, paths, kids, chain);
    ListItems(mem, paths, kids, chain);
  }

  lemma HeadKid(mem: Memory, paths: map<NodeId, string>, kids: seq<NodeId>, chain: seq<NodeId>)
    requires Building(mem, paths, kids, chain) && kids != []
    ensures kids[0] in mem && kids[0] in paths && mem[kids[0]].level >= 1 && mem[kids[0]].parent == Some(chain[0])
    ensures KidItems(mem, paths, kids)[0].path == paths[kids[0]]
    ensures Nodes(kids + chain) == Nodes(kids) + Nodes(chain)
  {
    assert KidOk(mem, paths, chain, kids[0]);
  }

  /** The directories a child of the first node of `up` lies in. */
  ghost function Around(mem: Memory, paths: map<NodeId, string>, up: seq<NodeId>): set<Id>
    requires Good(mem, paths, up)
  {
    if mem[up[0]].level < 0 then {} else {mem[up[0]].id} + Above(ItemsOf(mem, paths, up))
  }

  lemma ParentChain(mem: Memory, paths: map<NodeId, string>, up: seq<NodeId>) returns (up': seq<NodeId>)
    requires Good(mem, paths, up) && mem[up[0]].level >= 0 && mem[up[0]].info != Init
    ensures 1 <= |up'| < |up| && up'[0] in mem && Good(mem, paths, up') && mem[up[0]].parent == Some(up'[0])
    ensures mem[up'[0]].level >= 0 ==> mem[up'[0]].info != Init
    ensures Around(mem, paths, up) == {mem[up[0]].id} + Around(mem, paths, up')
  {
    assert |up| >= 2;
    assert NodeOk(mem, paths, up);
    up' := ParentJump(mem, paths, up);
  }

  lemma FreshAddress(live: set<NodeId>, next: NodeId, freed: seq<NodeId>)
    requires Accounted(live, next, freed)
    ensures next !in live
  {
  }

  /** The list `kids` is being built below the first node of the chain, a directory. */
  ghost predicate Building(mem: Memory, paths: map<NodeId, string>, kids: seq<NodeId>, chain: seq<NodeId>) {
    && KidList(mem, paths, kids, chain)
    && |chain| >= 2 && mem.Keys == Nodes(kids) + Nodes(chain)
    && chain[0] in mem && chain[0] in paths
    && mem[chain[0]].info == D && mem[chain[0]].level >= 0 && mem[chain[0]].pathlen == |paths[chain[0]]| > 0
  }

  lemma BuildingGood(mem: Memory, paths: map<NodeId, string>, kids: seq<NodeId>, chain: seq<NodeId>)
    requires Building(mem, paths, kids, chain)
    ensures Good(mem, paths, chain)
  {
  }

  /** The entry `name` of the first node of the chain. */
  ghost function KidOf(fs: FileSystem, o: Options, mem: Memory, paths: map<NodeId, string>, chain: seq<NodeId>, name: string): Item
    requires Good(mem, paths, chain)
  {
    Kid(fs, o, ItemOf(mem[chain[0]], paths[chain[0]]), Around(mem, paths, chain), name)
  }

  /** A node for the entry `kid`, below `parent`. */
  ghost predicate EntryOf(n: Node, parent: NodeId, kid: Item) {
    && ItemOf(n, kid.path) == kid
    && n.parent == Some(parent) && n.link == None && n.info != Init && n.pathlen == |kid.path|
    && (n.info == D ==> n.errno == 0)
  }

  lemma FrameAlloc(mem: Memory, paths: map<NodeId, string>, chain: seq<NodeId>, x: NodeId, n: Node, full: string)
    requires Good(mem, paths, chain) && x !in mem
    ensures Good(mem[x := n], paths[x := full], chain)
    ensures ItemsOf(mem[x := n], paths[x := full], chain) == ItemsOf(mem, paths, chain)
    ensures Around(mem[x := n], paths[x := full], chain) == Around(mem, paths, chain)
  {
    ChainLives(mem, paths, chain);
    GoodFrame(mem, paths, mem[x := n], paths[x := full], chain);
  }

  lemma EntryAdded(mem: Memory, paths: map<NodeId, string>, kids: seq<NodeId>, chain: seq<NodeId>, x: NodeId, n: Node, full: string)
    requires Building(mem, paths, kids, chain) && x !in mem
    requires n.parent == Some(chain[0]) && n.level == mem[chain[0]].level + 1 && n.info != Init && n.link == None
    requires (n.info == D ==> n.errno == 0) && n.name != "" && n.name[|n.name| - 1] != '/'
    requires full == ChildPath(paths[chain[0]], n.name) && n.pathlen == |full|
    ensures var mem', paths' := LinkBehind(mem[x := n], Last(kids), x), paths[x := full];
            && Building(mem', paths', kids + [x], chain) && mem'.Keys == mem[x := n].Keys
            && KidItems(mem', paths', kids + [x]) == KidItems(mem, paths, kids) + [ItemOf(n, full)]
            && ItemsOf(mem', paths', chain) == ItemsOf(mem, paths, chain)
  {
    hide Nodes;
    EntryListed(mem, paths, kids, chain, x, n, full);
    hide Good, KidList, ItemsOf, KidItems, PathOk;
    NodesGrow(mem, kids, chain, x, n);
  }

  lemma NodesGrow(mem: Memory, kids: seq<NodeId>, chain: seq<NodeId>, x: NodeId, n: Node)
    requires mem.Keys == Nodes(kids) + Nodes(chain)
    ensures LinkBehind(mem[x := n], Last(kids), x).Keys == mem[x := n].Keys == Nodes(kids + [x]) + Nodes(chain)
  {
    assert Nodes(kids + [x]) == Nodes(kids) + {x};
  }

  lemma EntryListed(mem: Memory, paths: map<NodeId, string>, kids: seq<NodeId>, chain: seq<NodeId>, x: NodeId, n: Node, full: string)
    requires Building(mem, paths, kids, chain) && x !in mem
    requires n.parent == Some(chain[0]) && n.level == mem[chain[0]].level + 1 && n.info != Init && n.link == None
    requires (n.info == D ==> n.errno == 0) && n.name != "" && n.name[|n.name| - 1] != '/'
    requires full == ChildPath(paths[chain[0]], n.name) && n.pathlen == |full|
    ensures var mem', paths' := LinkBehind(mem[x := n], Last(kids), x), paths[x := full];
            && KidList(mem', paths', kids + [x], chain)
            && KidItems(mem', paths', kids + [x]) == KidItems(mem, paths, kids) + [ItemOf(n, full)]
            && ItemsOf(mem', paths', chain) == ItemsOf(mem, paths, chain)
            && mem'[chain[0]] == mem[chain[0]] && paths'[chain[0]] == paths[chain[0]]
  {
    hide Nodes, Good, ItemsOf, PathOk, KidOk, KidList, LinkBehind, KidItems, ItemOf, ChildPath;
    BuildingGood(mem, paths, kids, chain);
    ChainLives(mem, paths, chain);
    FrameAlloc(mem, paths, chain, x, n, full);
    EntryIsKid(mem[x := n], paths[x := full], chain, x);
    ListAppend(mem, paths, kids, chain, x, n, full);
    GoodFrame(mem, paths, LinkBehind(mem[x := n], Last(kids), x), paths[x := full], chain);
  }

  lemma EntryIsKid(mem: Memory, paths: map<NodeId, string>, chain: seq<NodeId>, x: NodeId)
    requires Good(mem, paths, chain) && chain[0] in mem && chain[0] in paths && x in mem && x in paths && x !in chain
    requires mem[chain[0]].info == D && mem[chain[0]].level >= 0 && mem[chain[0]].pathlen == |paths[chain[0]]| > 0
    requires mem[x].parent == Some(chain[0]) && mem[x].level == mem[chain[0]].level + 1 && mem[x].info != Init
    requires (mem[x].info == D ==> mem[x].errno == 0) && mem[x].name != "" && mem[x].name[|mem[x].name| - 1] != '/'
    requires paths[x] == ChildPath(paths[chain[0]], mem[x].name) && mem[x].pathlen == |paths[x]|
    ensures KidOk(mem, paths, chain, x)
  {
    assert chain[0] in chain;
    hide Good;
    var full, name := paths[x], mem[x].name;
    assert full[|full| - 1] == name[|name| - 1];
  }

  /** `ItemsOf`, for use where it is known that the chain is good. */
  ghost function ListOf(mem: Memory, paths: map<NodeId, string>, chain: seq<NodeId>): seq<Item> {
    if Good(mem, paths, chain) then ItemsOf(mem, paths, chain) else []
  }

  /** The directory `items[0]` was looked into and is closed again: `shown` is left in the buffer. */
  ghost predicate NotEntered(fs: FileSystem, o: Options, items: seq<Item>, items': seq<Item>, shown: string) {
    && items != []
    && if fs.list(items[0].path).Unreadable? then items' == [items[0].(info := DNR)] + items[1..] && shown == items[0].path
       else && Kept(o.seeDot, fs.list(items[0].path).names) == []
            && items' == [items[0].(info := DP)] + items[1..] && shown == items[0].path[..AppendAt(items[0].path)]
  }

  /** `kids` are nodes for the entries `done` of the directory `items[0]`. */
  ghost predicate Listed(
      fs: FileSystem, o: Options, items: seq<Item>, mem: Memory, paths: map<NodeId, string>, kids: seq<NodeId>, done: seq<string>)
  {
    && items != []
    && KidItems(mem, paths, kids) == Kids(fs, o, items[0], {items[0].id} + Above(items), done)
  }

  /** The directory `items[0]` was read and `kids` are its entries. */
  ghost predicate Entered(
      fs: FileSystem, o: Options, items: seq<Item>, mem: Memory, paths: map<NodeId, string>, kids: seq<NodeId>, chain: seq<NodeId>)
  {
    && Building(mem, paths, kids, chain) && kids != [] && items != [] && ListOf(mem, paths, chain) == items
    && fs.list(items[0].path).Names?
    && var names := Kept(o.seeDot, fs.list(items[0].path).names);
       names != [] && !TooLong(items[0].path, names) && Listed(fs, o, items, mem, paths, kids, names)
  }

  lemma NotEnteredLooks(fs: FileSystem, o: Options, dev: nat, items: seq<Item>, items': seq<Item>, shown: string)
    requires Levels(items) && NotEntered(fs, o, items, items', shown)
    ensures Look(fs, o, dev, items) == Emit(shown, dev, items')
    ensures items' != [] && items'[0].path == items[0].path
    ensures shown == items[0].path || (items'[0].info == DP && shown == items[0].path[..AppendAt(items[0].path)])
  {
  }

  lemma TooLongLooks(fs: FileSystem, o: Options, dev: nat, items: seq<Item>)
    requires Levels(items) && fs.list(items[0].path).Names?
    requires TooLong(items[0].path, Kept(o.seeDot, fs.list(items[0].path).names))
    ensures Look(fs, o, dev, items) == Stop
  {
  }

  lemma BuildingList(mem: Memory, paths: map<NodeId, string>, kids: seq<NodeId>, chain: seq<NodeId>)
    requires Building(mem, paths, kids, chain)
    ensures KidList(mem, paths, kids, chain)
  {
  }

  lemma DirectoryItem(mem: Memory, paths: map<NodeId, string>, chain: seq<NodeId>)
    requires Building(mem, paths, [], chain)
    ensures Good(mem, paths, chain)
    ensures ListOf(mem, paths, chain) != [] && ListOf(mem, paths, chain)[0] == ItemOf(mem[chain[0]], paths[chain[0]])
    ensures mem.Keys == Nodes(chain)
  {
    assert Nodes([]) == {};
  }

  /** The first node of the chain, a directory, is closed. */
  lemma Closing(mem: Memory, paths: map<NodeId, string>, chain: seq<NodeId>, info: Info, errno: nat)
    requires Building(mem, paths, [], chain) && info != D && info != Init
    ensures var items, mem' := ListOf(mem, paths, chain), mem[chain[0] := mem[chain[0]].(info := info, errno := errno)];
            && Good(mem', paths, chain) && mem'.Keys == mem.Keys == Nodes(chain)
            && items != []
            && ListOf(mem', paths, chain) == [items[0].(info := info)] + items[1..]
  {
    DirectoryItem(mem, paths, chain);
    BuildingGood(mem, paths, [], chain);
    hide Nodes, KidList, Good, ItemsOf, PathOk;
    var n := mem[chain[0]].(info := info, errno := errno);
    ClosedNode(mem, paths, chain, n);
    SameKeys(mem, chain[0], n);
    RewriteHead(mem, paths, chain, n);
  }

  lemma ClosedNode(mem: Memory, paths: map<NodeId, string>, chain: seq<NodeId>, n: Node)
    requires Good(mem, paths, chain) && |chain| >= 2 && mem[chain[0]].info == D
    requires n.info != D && n.info != Init && n == mem[chain[0]].(info := n.info, errno := n.errno)
    ensures NodeOk(mem[chain[0] := n], paths, chain)
  {
    assert NodeOk(mem, paths, chain);
  }

  lemma MoreKids(
      fs: FileSystem, o: Options, items: seq<Item>, mem: Memory, paths: map<NodeId, string>, mem': Memory, paths': map<NodeId, string>,
      kids: seq<NodeId>, chain: seq<NodeId>, done: seq<string>, x: NodeId, name: string)
    requires Listed(fs, o, items, mem, paths, kids, done)
    requires Good(mem, paths, chain) && mem[chain[0]].level >= 0 && ListOf(mem, paths, chain) == items
    requires KidItems(mem', paths', kids + [x]) == KidItems(mem, paths, kids) + [KidOf(fs, o, mem, paths, chain, name)]
    ensures Listed(fs, o, items, mem', paths', kids + [x], done + [name])
  {
    hide Kid, Above;
    assert items[0] == ItemOf(mem[chain[0]], paths[chain[0]]);
    hide Good, ItemsOf;
    var anc := {items[0].id} + Above(items);
    assert Kids(fs, o, items[0], anc, done + [name]) == Kids(fs, o, items[0], anc, done) + [Kid(fs, o, items[0], anc, name)];
  }

  lemma ListFreed(mem: Memory, paths: map<NodeId, string>, kids: seq<NodeId>, chain: seq<NodeId>)
    requires Building(mem, paths, kids, chain)
    ensures Building(mem - Nodes(kids), paths, [], chain)
  {
    ChainLives(mem, paths, chain);
    forall k | k in kids
      ensures k !in chain
    {
      var i :| 0 <= i < |kids| && kids[i] == k;
      assert KidOk(mem, paths, chain, kids[i]);
    }
    assert (mem - Nodes(kids)).Keys == Nodes([]) + Nodes(chain);
    GoodFrame(mem, paths, mem - Nodes(kids), paths, chain);
  }

  lemma NameIsProper(fs: FileSystem, path: string, name: string)
    requires ProperNames(fs) && fs.list(path).Names? && name in fs.list(path).names
    ensures name != "" && name[|name| - 1] != '/'
  {
  }

  predicate Measured(mem: Memory, paths: map<NodeId, string>, chain: seq<NodeId>) {
    chain != [] && chain[0] in mem && chain[0] in paths && mem[chain[0]].pathlen == |paths[chain[0]]| > 0
  }

  /** What reading the directory `items[0]` comes to. */
  ghost predicate BuildOutcome(
      fs: FileSystem, o: Options, items: seq<Item>, mem: Memory, paths: map<NodeId, string>,
      head: Option<NodeId>, kids: seq<NodeId>, chain: seq<NodeId>, path: string, stopped: bool)
  {
    && items != []
    && if stopped then
         && head == None && mem.Keys == Nodes(chain) && fs.list(items[0].path).Names?
         && TooLong(items[0].path, Kept(o.seeDot, fs.list(items[0].path).names))
       else if head == None then
         mem.Keys == Nodes(chain) && Measured(mem, paths, chain) && NotEntered(fs, o, items, ListOf(mem, paths, chain), path)
       else
         kids != [] && head == Some(kids[0]) && Entered(fs, o, items, mem, paths, kids, chain) && items[0].path <= path
  }

  lemma BuildingItem(mem: Memory, paths: map<NodeId, string>, kids: seq<NodeId>, chain: seq<NodeId>)
    requires Building(mem, paths, kids, chain)
    ensures Good(mem, paths, chain)
    ensures ListOf(mem, paths, chain) != [] && ListOf(mem, paths, chain)[0] == ItemOf(mem[chain[0]], paths[chain[0]])
  {
  }

  /** The first `i` names of the directory `items[0]` are dealt with; `done` of them have a node. */
  ghost predicate Underway(
      fs: FileSystem, o: Options, items: seq<Item>, names: seq<string>, i: nat, done: seq<string>,
      mem: Memory, paths: map<NodeId, string>, kids: seq<NodeId>, chain: seq<NodeId>)
    requires i <= |names|
  {
    && Good(mem, paths, chain) && Building(mem, paths, kids, chain) && ListOf(mem, paths, chain) == items
    && items != [] && items[0] == ItemOf(mem[chain[0]], paths[chain[0]])
    && Listed(fs, o, items, mem, paths, kids, done) && |kids| == |done|
    && Kept(o.seeDot, names) == done + Kept(o.seeDot, names[i..])
    && !TooLong(items[0].path, done)
  }

  lemma StartList(
      fs: FileSystem, o: Options, items: seq<Item>, names: seq<string>, mem: Memory, paths: map<NodeId, string>, chain: seq<NodeId>)
    requires Building(mem, paths, [], chain) && Good(mem, paths, chain) && ListOf(mem, paths, chain) == items && items != []
    requires items[0] == ItemOf(mem[chain[0]], paths[chain[0]])
    ensures Underway(fs, o, items, names, 0, [], mem, paths, [], chain)
  {
    hide Good, ItemsOf;
    assert names[0..] == names;
  }

  lemma PassDot(
      fs: FileSystem, o: Options, items: seq<Item>, names: seq<string>, i: nat, done: seq<string>,
      mem: Memory, paths: map<NodeId, string>, kids: seq<NodeId>, chain: seq<NodeId>)
    requires i < |names| && Underway(fs, o, items, names, i, done, mem, paths, kids, chain) && !o.seeDot && IsDot(names[i])
    ensures Underway(fs, o, items, names, i + 1, done, mem, paths, kids, chain)
  {
    hide Good, ItemsOf, KidList, Listed;
    assert names[i..][1..] == names[i + 1..];
  }

  lemma FoundTooLong(
      fs: FileSystem, o: Options, items: seq<Item>, names: seq<string>, i: nat, done: seq<string>,
      mem: Memory, paths: map<NodeId, string>, kids: seq<NodeId>, chain: seq<NodeId>)
    requires i < |names| && Underway(fs, o, items, names, i, done, mem, paths, kids, chain) && (o.seeDot || !IsDot(names[i]))
    requires |ChildPath(items[0].path, names[i])| >= PATH_LIMIT
    ensures TooLong(items[0].path, Kept(o.seeDot, names))
  {
    hide Good, ItemsOf, KidList, Listed;
    assert names[i..][1..] == names[i + 1..];
    assert Kept(o.seeDot, names)[|done|] == names[i];
  }

  lemma TakeName(
      fs: FileSystem, o: Options, items: seq<Item>, names: seq<string>, i: nat, done: seq<string>,
      mem: Memory, paths: map<NodeId, string>, mem': Memory, paths': map<NodeId, string>,
      kids: seq<NodeId>, chain: seq<NodeId>, x: NodeId)
    requires i < |names| && Underway(fs, o, items, names, i, done, mem, paths, kids, chain) && (o.seeDot || !IsDot(names[i]))
    requires |ChildPath(items[0].path, names[i])| < PATH_LIMIT
    requires Building(mem', paths', kids + [x], chain) && Good(mem', paths', chain)
    requires ItemsOf(mem', paths', chain) == ItemsOf(mem, paths, chain)
    requires KidItems(mem', paths', kids + [x]) == KidItems(mem, paths, kids) + [KidOf(fs, o, mem, paths, chain, names[i])]
    ensures Underway(fs, o, items, names, i + 1, done + [names[i]], mem', paths', kids + [x], chain)
  {
    hide Good, ItemsOf, KidList, Listed, KidItems, KidOf, Nodes;
    MoreKids(fs, o, items, mem, paths, mem', paths', kids, chain, done, x, names[i]);
    BuildingItem(mem', paths', kids + [x], chain);
    assert names[i..][1..] == names[i + 1..];
  }

  lemma ListDone(
      fs: FileSystem, o: Options, items: seq<Item>, names: seq<string>, done: seq<string>,
      mem: Memory, paths: map<NodeId, string>, kids: seq<NodeId>, chain: seq<NodeId>)
    requires Underway(fs, o, items, names, |names|, done, mem, paths, kids, chain)
    ensures done == Kept(o.seeDot, names)
  {
    hide Good, ItemsOf, KidList, Listed;
    assert names[|names|..] == [];
  }

  lemma LastNode(mem: Memory, p: NodeId)
    requires mem.Keys == Nodes([p])
    ensures mem - {p} == map[] && p in mem
  {
    assert p in Nodes([p]);
  }

  lemma SameKeys(mem: Memory, n: NodeId, node: Node)
    requires n in mem
    ensures mem[n := node].Keys == mem.Keys
  {
  }
}
