/** One `yfts_read`, on the list of items still to be dealt with. */
module FtsStep {
  import opened FtsTour

  /** The directories that `items[0]` lies in. */
  function Above(items: seq<Item>): set<Id> {
    if |items| <= 1 || items[1].level < 0 then {}
    else if items[1].level == items[0].level then Above(items[1..])
    else {items[1].id} + Above(items[1..])
  }

  /** The next item is a sibling or the parent, up to the parent of the roots. */
  predicate Levels(items: seq<Item>) {
    && |items| >= 2
    && items[0].level >= 0
    && (if |items| == 2 then items[1].level == -1 && items[0].level == 0
        else items[0].level - 1 <= items[1].level <= items[0].level && Levels(items[1..]))
  }

  /** Every directory in the list can be entered where it stands. */
  predicate WellFormed(fs: FileSystem, items: seq<Item>) {
    && Levels(items)
    && Enterable(fs, items[0], Above(items))
    && (|items| > 2 ==> WellFormed(fs, items[1..]))
  }

  // ---------------------------------------------------------------- what is still to come

  /** What is delivered once the current item is dealt with. */
  function Rest(fs: FileSystem, o: Options, dev: nat, items: seq<Item>): seq<Event>
    requires fs.Finite() && WellFormed(fs, items)
    decreases |items|
  {
    if items[1].level < 0 then []
    else
      var rest := Rest(fs, o, dev, items[1..]);
      if items[1].level < items[0].level then [Seen(items[1], DP, items[1].path)] + rest
      else if items[1].level == 0 then Visit(fs, o, items[1].id.dev, Load(items[1]), Above(items[1..]), rest)
      else if items[1].skip then rest
      else Visit(fs, o, dev, items[1], Above(items[1..]), rest)
  }

  /** What is delivered after the current item was. */
  function Remaining(fs: FileSystem, o: Options, dev: nat, items: seq<Item>): seq<Event>
    requires fs.Finite() && WellFormed(fs, items)
  {
    After(fs, o, dev, items[0], Above(items), Rest(fs, o, dev, items))
  }

  // ---------------------------------------------------------------- one read

  datatype Outcome = End | Stop | Emit(shown: string, dev: nat, items: seq<Item>)

  /** Leaves the current item for the next sibling that is not skipped, or for the parent. */
  function Advance(fs: FileSystem, dev: nat, items: seq<Item>): Outcome
    requires Levels(items)
    decreases |items|
  {
    if items[1].level < 0 then End
    else if items[1].level < items[0].level then
      Emit(items[1].path, dev, [items[1].(info := DP)] + items[2..])
    else if items[1].level == 0 then Emit(items[1].path, items[1].id.dev, [Load(items[1])] + items[2..])
    else if items[1].skip then Advance(fs, dev, items[1..])
    else Emit(items[1].path, dev, items[1..])
  }

  /** Opens the directory `items[0]`. */
  function Look(fs: FileSystem, o: Options, dev: nat, items: seq<Item>): Outcome
    requires Levels(items)
  {
    var p := items[0];
    match fs.list(p.path)
    case Unreadable(_) => Emit(p.path, dev, [p.(info := DNR)] + items[1..])
    case Names(names) =>
      var kept := Kept(o.seeDot, names);
      if TooLong(p.path, kept) then Stop
      else if kept == [] then Emit(p.path[..AppendAt(p.path)], dev, [p.(info := DP)] + items[1..])
      else
        var kids := Kids(fs, o, p, {p.id} + Above(items), kept);
        Emit(kids[0].path, dev, kids + items)
  }

  lemma LooksInside(fs: FileSystem, o: Options, dev: nat, items: seq<Item>)
    requires Levels(items) && Look(fs, o, 0, items).Emit?
    ensures Look(fs, o, dev, items) == Look(fs, o, 0, items).(dev := dev)
  {
  }

  /** Leaving the last of some siblings. */
  lemma AdvanceUp(fs: FileSystem, dev: nat, items: seq<Item>)
    requires Levels(items) && items[1].level < items[0].level
    ensures Advance(fs, dev, items) ==
            if items[1].level < 0 then End else Emit(items[1].path, dev, [items[1].(info := DP)] + items[2..])
  {
  }

  function Step(fs: FileSystem, o: Options, dev: nat, items: seq<Item>): Outcome
    requires Levels(items)
  {
    var p := items[0].(skip := false);
    var items' := [p] + items[1..];
    if p.info != D then Advance(fs, dev, items')
    else if items[0].skip || (o.xdev && p.id.dev != dev) then Emit(p.path, dev, [p.(info := DP)] + items[1..])
    else Look(fs, o, dev, items')
  }

  function Delivered(shown: string, item: Item): Event {
    Event(item.info, shown, item.name, item.level)
  }

  /** `out` delivers the first of the `expected` events and leaves the others, or there are none. */
  ghost predicate Delivers(fs: FileSystem, o: Options, expected: seq<Event>, out: Outcome)
    requires fs.Finite()
  {
    if out.Emit? then
      && WellFormed(fs, out.items)
      && expected == [Delivered(out.shown, out.items[0])] + Remaining(fs, o, out.dev, out.items)
    else expected == []
  }

  // ---------------------------------------------------------------- a read delivers the next event

  lemma {:induction false} AdvanceDelivers(fs: FileSystem, o: Options, dev: nat, items: seq<Item>)
    requires fs.Finite() && WellFormed(fs, items)
    ensures Advance(fs, dev, items) != Stop
    ensures Delivers(fs, o, Rest(fs, o, dev, items), Advance(fs, dev, items))
    decreases |items|
  {
    if items[1].level >= 0 {
      var tail := items[1..];
      assert tail[1..] == items[2..];
      if items[1].level < items[0].level {
        RestIgnoresHead(fs, o, dev, tail, items[1].(info := DP));
      } else if items[1].level == 0 {
        RestIgnoresHead(fs, o, dev, tail, Load(items[1]));
        RootsIgnoreDevice(fs, o, dev, items[1].id.dev, tail);
      } else if items[1].skip {
        AdvanceDelivers(fs, o, dev, tail);
      }
    }
  }

  lemma RestIgnoresHead(fs: FileSystem, o: Options, dev: nat, items: seq<Item>, item: Item)
    requires fs.Finite() && WellFormed(fs, items) && WellFormed(fs, [item] + items[1..]) && item.level == items[0].level
    ensures Rest(fs, o, dev, [item] + items[1..]) == Rest(fs, o, dev, items)
  {
    assert ([item] + items[1..])[1..] == items[1..];
  }

  /** The device matters only below a root; what follows a root does not depend on it. */
  lemma {:induction false} RootsIgnoreDevice(fs: FileSystem, o: Options, dev: nat, dev': nat, items: seq<Item>)
    requires fs.Finite() && WellFormed(fs, items) && items[0].level == 0
    ensures Rest(fs, o, dev, items) == Rest(fs, o, dev', items)
    decreases |items|
  {
    if items[1].level >= 0 {
      RootsIgnoreDevice(fs, o, dev, dev', items[1..]);
    }
  }

  /** The list after a directory was opened: its entries, the directory, and what followed it. */
  lemma {:induction false} KidsDeliver(
      fs: FileSystem, o: Options, dev: nat, p: Item, names: seq<string>, tail: seq<Item>)
    requires fs.Finite() && WellFormed(fs, [p] + tail) && p.info == D && names != []
    ensures var anc, items := {p.id} + Above([p] + tail), Kids(fs, o, p, {p.id} + Above([p] + tail), names) + [p] + tail;
            && WellFormed(fs, items)
            && Above(items) == anc
            && VisitAll(fs, o, dev, p, anc, names, [Seen(p, DP, p.path)] + Rest(fs, o, dev, [p] + tail))
               == Visit(fs, o, dev, items[0], anc, Rest(fs, o, dev, items))
    decreases |names|
  {
    hide Enterable, Classify;
    var anc := {p.id} + Above([p] + tail);
    var kids := Kids(fs, o, p, anc, names);
    var items := kids + [p] + tail;
    var more := if |names| == 1 then [p] + tail else kids[1..] + [p] + tail;
    assert items == [kids[0]] + more && items[1..] == more;
    if |names| > 1 {
      KidsDeliver(fs, o, dev, p, names[1..], tail);
      assert kids[1..] == Kids(fs, o, p, anc, names[1..]);
    }
    assert Above(items) == anc;
    assert Levels(items);
  }

  lemma DirectoryDelivers(fs: FileSystem, o: Options, dev: nat, items: seq<Item>, names: seq<string>)
    requires fs.Finite() && WellFormed(fs, items) && items[0].info == D && !Closed(o, dev, items[0])
    requires fs.list(items[0].path) == Names(names) && Kept(o.seeDot, names) != [] && !TooLong(items[0].path, Kept(o.seeDot, names))
    ensures var kids := Kids(fs, o, items[0], {items[0].id} + Above(items), Kept(o.seeDot, names));
            var items' := kids + items;
            && WellFormed(fs, items')
            && Remaining(fs, o, dev, items) == [Delivered(kids[0].path, kids[0])] + Remaining(fs, o, dev, items')
  {
    hide Above, Classify, Enterable, Rest, Kid;
    var p, kept := items[0], Kept(o.seeDot, names);
    var kids := Kids(fs, o, p, {p.id} + Above(items), kept);
    assert [p] + items[1..] == items;
    assert kids + [p] + items[1..] == kids + items;
    KidsDeliver(fs, o, dev, p, kept, items[1..]);
    assert Above(items) + {p.id} == {p.id} + Above(items);
  }

  /** A directory at the level limit has been told to be skipped. */
  predicate LimitObeyed(o: Options, item: Item) {
    o.maxLevel.Some? && item.info == D && item.level + 1 > o.maxLevel.value ==> item.skip
  }

  /** The current item, closed: only what follows it remains. */
  lemma ClosedItem(fs: FileSystem, o: Options, dev: nat, items: seq<Item>, p: Item)
    requires fs.Finite() && WellFormed(fs, items) && p.level == items[0].level && p.info != D
    ensures WellFormed(fs, [p] + items[1..])
    ensures Remaining(fs, o, dev, [p] + items[1..]) == Rest(fs, o, dev, items)
  {
    RestIgnoresHead(fs, o, dev, items, p);
  }

  /** A read delivers the first of the remaining events, and the rest remain. */
  lemma StepDelivers(fs: FileSystem, o: Options, dev: nat, items: seq<Item>)
    requires fs.Finite() && WellFormed(fs, items) && LimitObeyed(o, items[0])
    ensures Delivers(fs, o, Remaining(fs, o, dev, items), Step(fs, o, dev, items))
  {
    hide Above, Enterable, Classify, Advance, Rest;
    var p := items[0].(skip := false);
    if p.info != D {
      ClosedItem(fs, o, dev, items, p);
      RestIgnoresHead(fs, o, dev, items, p);
      AdvanceDelivers(fs, o, dev, [p] + items[1..]);
    } else if Closed(o, dev, items[0]) {
      ClosedItem(fs, o, dev, items, p.(info := DP));
    } else {
      assert p == items[0] && [p] + items[1..] == items;
      match fs.list(p.path)
      case Unreadable(_) =>
        ClosedItem(fs, o, dev, items, p.(info := DNR));
      case Names(names) =>
        if !TooLong(p.path, Kept(o.seeDot, names)) {
          if Kept(o.seeDot, names) == [] {
            ClosedItem(fs, o, dev, items, p.(info := DP));
          } else {
            DirectoryDelivers(fs, o, dev, items, names);
          }
        }
    }
  }
}
