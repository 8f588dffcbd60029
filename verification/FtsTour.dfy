/** The order in which a file hierarchy is walked.

`Tour` is the walk one would write recursively.  `Step` is one `yfts_read` on a list of items: the
current one, the siblings still to come, the directory they are in, its siblings still to come, and
so on up to the parent of the roots.  `Remaining` is what such a list still has to deliver, and
`StepDelivers` shows that a step delivers exactly its first event.

The file system answers by path text and does not change during the walk.  It may be cyclic; it has
finitely many directories, told apart by device and inode.
*/
module FtsTour {

  datatype Option<+T> = None | Some(value: T)

  datatype Id = Id(dev: nat, ino: nat)

  datatype Stat = Fails(errno: nat) | Directory(id: Id) | Link | Regular | Special

  datatype Listing = Unreadable(errno: nat) | Names(names: seq<string>)

  datatype FileSystem = FileSystem(
    lstat: string -> Stat, stat: string -> Stat, list: string -> Listing, ids: set<Id>)
  {
    ghost predicate Finite() {
      forall path: string ::
        && (lstat(path).Directory? ==> lstat(path).id in ids)
        && (stat(path).Directory? ==> stat(path).id in ids)
    }
  }

  datatype Info = D | DC | Default | DNR | Dot | DP | Err | F | Init | NS | SL | SLNone

  /** The options of `yfts_open` (FTS_NOCHDIR is always on) and the level limit of the iterator. */
  datatype Options = Options(logical: bool, comFollow: bool, seeDot: bool, xdev: bool, maxLevel: Option<nat>)

  datatype Event = Event(info: Info, path: string, name: string, level: int)

  datatype Item = Item(path: string, name: string, level: int, info: Info, id: Id, skip: bool)

  const NO_ID := Id(0, 0)

  /** Longest path a node can record, plus one. */
  const PATH_LIMIT := 65535

  // ---------------------------------------------------------------- names and paths

  /** Where a child's name is appended: over a final slash, otherwise at the end. */
  function AppendAt(path: string): (n: nat)
    ensures n <= |path|
  {
    if path != "" && path[|path| - 1] == '/' then |path| - 1 else |path|
  }

  function ChildPath(path: string, name: string): string {
    path[..AppendAt(path)] + "/" + name
  }

  predicate IsDot(name: string) {
    name == "." || name == ".."
  }

  function LastSlash(name: string): (i: int)
    ensures -1 <= i < |name|
    ensures i >= 0 ==> name[i] == '/'
    ensures forall j | i < j < |name| :: name[j] != '/'
  {
    if name == "" then -1
    else if name[|name| - 1] == '/' then |name| - 1
    else LastSlash(name[..|name| - 1])
  }

  /** The name `fts_load` leaves on a root: what follows the last slash, but "/" stays. */
  function BaseName(name: string): string {
    if LastSlash(name) >= 0 && name != "/" then name[LastSlash(name) + 1..] else name
  }

  // ---------------------------------------------------------------- one file

  /** What `fts_stat` finds at `path`, below the directories `anc`. */
  function Classify(fs: FileSystem, o: Options, path: string, name: string, anc: set<Id>, follow: bool): (r: (Info, Id))
    ensures r.0 == D ==> r.1 !in anc && (fs.Finite() ==> r.1 in fs.ids)
    ensures r.0 == Dot && fs.Finite() ==> r.1 in fs.ids
  {
    var s := if o.logical || follow then fs.stat(path) else fs.lstat(path);
    match s
    case Fails(_) => (if (o.logical || follow) && !fs.lstat(path).Fails? then SLNone else NS, NO_ID)
    case Directory(id) => (if IsDot(name) then Dot else if id in anc then DC else D, id)
    case Link => (SL, NO_ID)
    case Regular => (F, NO_ID)
    case Special => (Default, NO_ID)
  }

  /** A directory to be entered is one of the known ones and not among those being walked. */
  predicate Enterable(fs: FileSystem, item: Item, anc: set<Id>) {
    item.info == D ==> item.id in fs.ids && item.id !in anc
  }

  function Kid(fs: FileSystem, o: Options, parent: Item, anc: set<Id>, name: string): (kid: Item)
    ensures fs.Finite() ==> Enterable(fs, kid, anc)
  {
    var path := ChildPath(parent.path, name);
    var (info, id) := Classify(fs, o, path, name, anc, false);
    Item(path, name, parent.level + 1, info, id, false)
  }

  /** A root as `yfts_open` sets it up: "." and ".." given as roots are real directories. */
  function Root(fs: FileSystem, o: Options, arg: string): (root: Item)
    ensures fs.Finite() ==> Enterable(fs, root, {})
  {
    var (info, id) := Classify(fs, o, arg, arg, {}, o.comFollow);
    Item(arg, arg, 0, if info == Dot then D else info, id, false)
  }

  function Load(root: Item): Item {
    root.(name := BaseName(root.name))
  }

  /** The entries of a directory that are walked. */
  function Kept(seeDot: bool, names: seq<string>): seq<string> {
    if names == [] then []
    else if !seeDot && IsDot(names[0]) then Kept(seeDot, names[1..])
    else [names[0]] + Kept(seeDot, names[1..])
  }

  predicate TooLong(path: string, names: seq<string>) {
    exists i | 0 <= i < |names| :: |ChildPath(path, names[i])| >= PATH_LIMIT
  }

  function Kids(fs: FileSystem, o: Options, parent: Item, anc: set<Id>, names: seq<string>): (kids: seq<Item>)
    ensures |kids| == |names|
    ensures forall i | 0 <= i < |names| :: kids[i] == Kid(fs, o, parent, anc, names[i])
  {
    if names == [] then [] else [Kid(fs, o, parent, anc, names[0])] + Kids(fs, o, parent, anc, names[1..])
  }

  // ---------------------------------------------------------------- the walk, recursively

  function Seen(item: Item, info: Info, path: string): Event {
    Event(info, path, item.name, item.level)
  }

  /** A directory that is not entered: skipped, on another device, or at the level limit. */
  predicate Closed(o: Options, dev: nat, item: Item) {
    item.skip || (o.xdev && item.id.dev != dev) || (o.maxLevel.Some? && item.level + 1 > o.maxLevel.value)
  }

  /** The walk of one item: a directory is delivered before and after the walks of its entries,
      anything else once. */
  function Tour(fs: FileSystem, o: Options, dev: nat, item: Item, anc: set<Id>): seq<Event>
    requires fs.Finite() && Enterable(fs, item, anc)
    decreases |fs.ids - anc|, 1, 0
  {
    [Seen(item, item.info, item.path)] + (if item.info == D then TourInside(fs, o, dev, item, anc) else [])
  }

  function TourInside(fs: FileSystem, o: Options, dev: nat, item: Item, anc: set<Id>): seq<Event>
    requires fs.Finite() && item.info == D && Enterable(fs, item, anc)
    decreases |fs.ids - anc|, 0, 0
  {
    if Closed(o, dev, item) then [Seen(item, DP, item.path)]
    else match fs.list(item.path)
    case Unreadable(_) => [Seen(item, DNR, item.path)]
    case Names(names) =>
      if Kept(o.seeDot, names) == [] then [Seen(item, DP, item.path[..AppendAt(item.path)])]
      else
        FewerLeft(fs.ids, anc, item.id);
        TourAll(fs, o, dev, item, anc + {item.id}, Kept(o.seeDot, names)) + [Seen(item, DP, item.path)]
  }

  function TourAll(fs: FileSystem, o: Options, dev: nat, parent: Item, anc: set<Id>, names: seq<string>): seq<Event>
    requires fs.Finite()
    decreases |fs.ids - anc|, 2, |names|
  {
    if names == [] then []
    else
      Tour(fs, o, dev, Kid(fs, o, parent, anc, names[0]), anc) + TourAll(fs, o, dev, parent, anc, names[1..])
  }

  lemma FewerLeft(ids: set<Id>, anc: set<Id>, id: Id)
    requires id in ids && id !in anc
    ensures |ids - (anc + {id})| < |ids - anc|
  {
    assert ids - (anc + {id}) == (ids - anc) - {id};
  }

  /** The walks of the roots, in order; each starts on its own device. */
  function TourRoots(fs: FileSystem, o: Options, args: seq<string>): seq<Event>
    requires fs.Finite()
  {
    if args == [] then []
    else
      var root := Root(fs, o, args[0]);
      Tour(fs, o, root.id.dev, Load(root), {}) + TourRoots(fs, o, args[1..])
  }

  /** No path met on the walk is too long to record. */
  predicate Fits(fs: FileSystem, o: Options, dev: nat, item: Item, anc: set<Id>)
    requires fs.Finite() && Enterable(fs, item, anc)
    decreases |fs.ids - anc|, 1, 0
  {
    item.info == D && !Closed(o, dev, item) && fs.list(item.path).Names? ==>
      var names := Kept(o.seeDot, fs.list(item.path).names);
      FewerLeft(fs.ids, anc, item.id);
      !TooLong(item.path, names) && FitAll(fs, o, dev, item, anc + {item.id}, names)
  }

  predicate FitAll(fs: FileSystem, o: Options, dev: nat, parent: Item, anc: set<Id>, names: seq<string>)
    requires fs.Finite()
    decreases |fs.ids - anc|, 2, |names|
  {
    names != [] ==>
      && Fits(fs, o, dev, Kid(fs, o, parent, anc, names[0]), anc)
      && FitAll(fs, o, dev, parent, anc, names[1..])
  }

  predicate RootsFit(fs: FileSystem, o: Options, args: seq<string>)
    requires fs.Finite()
  {
    args == [] ||
      var root := Root(fs, o, args[0]);
      Fits(fs, o, root.id.dev, Load(root), {}) && RootsFit(fs, o, args[1..])
  }

  // ---------------------------------------------------------------- the walk, followed by more

  /** The walk of an item and then `k`, unless a path too long for its node stops everything. */
  function Visit(fs: FileSystem, o: Options, dev: nat, item: Item, anc: set<Id>, k: seq<Event>): seq<Event>
    requires fs.Finite() && Enterable(fs, item, anc)
    decreases |fs.ids - anc|, 1, 0
  {
    [Seen(item, item.info, item.path)] + After(fs, o, dev, item, anc, k)
  }

  /** What follows when the item itself has been delivered. */
  function After(fs: FileSystem, o: Options, dev: nat, item: Item, anc: set<Id>, k: seq<Event>): seq<Event>
    requires fs.Finite() && Enterable(fs, item, anc)
    decreases |fs.ids - anc|, 0, 0
  {
    if item.info != D then k
    else if Closed(o, dev, item) then [Seen(item, DP, item.path)] + k
    else match fs.list(item.path)
    case Unreadable(_) => [Seen(item, DNR, item.path)] + k
    case Names(names) =>
      if TooLong(item.path, Kept(o.seeDot, names)) then []
      else if Kept(o.seeDot, names) == [] then [Seen(item, DP, item.path[..AppendAt(item.path)])] + k
      else
        FewerLeft(fs.ids, anc, item.id);
        VisitAll(fs, o, dev, item, anc + {item.id}, Kept(o.seeDot, names), [Seen(item, DP, item.path)] + k)
  }

  function VisitAll(fs: FileSystem, o: Options, dev: nat, parent: Item, anc: set<Id>, names: seq<string>, k: seq<Event>)
    : seq<Event>
    requires fs.Finite()
    decreases |fs.ids - anc|, 2, |names|
  {
    if names == [] then k
    else
      Visit(fs, o, dev, Kid(fs, o, parent, anc, names[0]), anc, VisitAll(fs, o, dev, parent, anc, names[1..], k))
  }

  lemma {:induction false} VisitIsTour(fs: FileSystem, o: Options, dev: nat, item: Item, anc: set<Id>, k: seq<Event>)
    requires fs.Finite() && Enterable(fs, item, anc) && Fits(fs, o, dev, item, anc)
    ensures Visit(fs, o, dev, item, anc, k) == Tour(fs, o, dev, item, anc) + k
    decreases |fs.ids - anc|, 1, 0
  {
    if item.info == D && !Closed(o, dev, item) && fs.list(item.path).Names? {
      var names := Kept(o.seeDot, fs.list(item.path).names);
      if names != [] {
        FewerLeft(fs.ids, anc, item.id);
        VisitAllIsTourAll(fs, o, dev, item, anc + {item.id}, names, [Seen(item, DP, item.path)] + k);
      }
    }
  }

  lemma {:induction false} VisitAllIsTourAll(
      fs: FileSystem, o: Options, dev: nat, parent: Item, anc: set<Id>, names: seq<string>, k: seq<Event>)
    requires fs.Finite() && FitAll(fs, o, dev, parent, anc, names)
    ensures VisitAll(fs, o, dev, parent, anc, names, k) == TourAll(fs, o, dev, parent, anc, names) + k
    decreases |fs.ids - anc|, 2, |names|
  {
    if names != [] {
      var rest := VisitAll(fs, o, dev, parent, anc, names[1..], k);
      VisitIsTour(fs, o, dev, Kid(fs, o, parent, anc, names[0]), anc, rest);
      VisitAllIsTourAll(fs, o, dev, parent, anc, names[1..], k);
    }
  }
}
