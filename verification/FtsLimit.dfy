/** The level limit of `TDirIterator` selects exactly the nodes of level at most the limit. */
module FtsLimit {
  import opened FtsTour

  /** An event, with the two ways a directory can be left made one.  Leaving shows the name and the
      level only; every other event shows its path too. */
  datatype Mark = Met(info: Info, path: string, name: string, level: int) | Left(name: string, level: int)

  function MarkOf(e: Event): Mark {
    if e.info == DP || e.info == DNR then Left(e.name, e.level) else Met(e.info, e.path, e.name, e.level)
  }

  /** The marks of the events of level at most `max`. */
  function UpTo(max: nat, events: seq<Event>): seq<Mark> {
    if events == [] then []
    else (if events[0].level <= max then [MarkOf(events[0])] else []) + UpTo(max, events[1..])
  }

  function Marks(events: seq<Event>): seq<Mark> {
    if events == [] then [] else [MarkOf(events[0])] + Marks(events[1..])
  }

  lemma {:induction false} UpToConcat(max: nat, a: seq<Event>, b: seq<Event>)
    ensures UpTo(max, a + b) == UpTo(max, a) + UpTo(max, b)
  {
    if a == [] {
      assert a + b == b;
    } else {
      assert (a + b)[1..] == a[1..] + b && (a + b)[0] == a[0];
      UpToConcat(max, a[1..], b);
      var head := if a[0].level <= max then [MarkOf(a[0])] else [];
      assert head + (UpTo(max, a[1..]) + UpTo(max, b)) == head + UpTo(max, a[1..]) + UpTo(max, b);
    }
  }

  lemma {:induction false} MarksConcat(a: seq<Event>, b: seq<Event>)
    ensures Marks(a + b) == Marks(a) + Marks(b)
  {
    if a == [] {
      assert a + b == b;
    } else {
      assert (a + b)[1..] == a[1..] + b && (a + b)[0] == a[0];
      MarksConcat(a[1..], b);
      assert [MarkOf(a[0])] + (Marks(a[1..]) + Marks(b)) == [MarkOf(a[0])] + Marks(a[1..]) + Marks(b);
    }
  }

  lemma {:induction false} NothingUpTo(max: nat, events: seq<Event>)
    requires forall e | e in events :: e.level > max
    ensures UpTo(max, events) == []
  {
    if events != [] { NothingUpTo(max, events[1..]); }
  }

  lemma {:induction false} TourGoesDown(fs: FileSystem, o: Options, dev: nat, item: Item, anc: set<Id>)
    requires fs.Finite() && Enterable(fs, item, anc)
    ensures forall e | e in Tour(fs, o, dev, item, anc) :: e.level >= item.level
    decreases |fs.ids - anc|, 1, 0
  {
    if item.info == D && !Closed(o, dev, item) && fs.list(item.path).Names? {
      FewerLeft(fs.ids, anc, item.id);
      TourAllGoesDown(fs, o, dev, item, anc + {item.id}, Kept(o.seeDot, fs.list(item.path).names));
    }
  }

  lemma {:induction false} TourAllGoesDown(
      fs: FileSystem, o: Options, dev: nat, parent: Item, anc: set<Id>, names: seq<string>)
    requires fs.Finite()
    ensures forall e | e in TourAll(fs, o, dev, parent, anc, names) :: e.level > parent.level
    decreases |fs.ids - anc|, 2, |names|
  {
    if names != [] {
      TourGoesDown(fs, o, dev, Kid(fs, o, parent, anc, names[0]), anc);
      TourAllGoesDown(fs, o, dev, parent, anc, names[1..]);
    }
  }

  lemma {:induction false} TourUpTo(fs: FileSystem, o: Options, dev: nat, max: nat, item: Item, anc: set<Id>)
    requires fs.Finite() && Enterable(fs, item, anc) && o.maxLevel == None && item.level <= max
    ensures Marks(Tour(fs, o.(maxLevel := Some(max)), dev, item, anc)) == UpTo(max, Tour(fs, o, dev, item, anc))
    decreases |fs.ids - anc|, 1, 0
  {
    hide Closed, Classify;
    if item.info == D {
      var limited, head := o.(maxLevel := Some(max)), [Seen(item, D, item.path)];
      var inside, less := TourInside(fs, o, dev, item, anc), TourInside(fs, limited, dev, item, anc);
      InsideUpTo(fs, o, dev, max, item, anc);
      hide TourInside;
      UpToConcat(max, head, inside);
      MarksConcat(head, less);
    }
  }

  lemma {:induction false} InsideUpTo(fs: FileSystem, o: Options, dev: nat, max: nat, item: Item, anc: set<Id>)
    requires fs.Finite() && Enterable(fs, item, anc) && o.maxLevel == None && item.level <= max && item.info == D
    ensures Marks(TourInside(fs, o.(maxLevel := Some(max)), dev, item, anc)) == UpTo(max, TourInside(fs, o, dev, item, anc))
    decreases |fs.ids - anc|, 0, 0
  {
    var limited := o.(maxLevel := Some(max));
    if !Closed(o, dev, item) && fs.list(item.path).Names? && Kept(o.seeDot, fs.list(item.path).names) != [] {
      var names := Kept(o.seeDot, fs.list(item.path).names);
      var anc', last := anc + {item.id}, [Seen(item, DP, item.path)];
      var all := TourAll(fs, o, dev, item, anc', names);
      FewerLeft(fs.ids, anc, item.id);
      UpToConcat(max, all, last);
      if item.level + 1 > max {
        TourAllGoesDown(fs, o, dev, item, anc', names);
        NothingUpTo(max, all);
      } else {
        TourAllUpTo(fs, o, dev, max, item, anc', names);
        MarksConcat(TourAll(fs, limited, dev, item, anc', names), last);
      }
    }
  }

  lemma {:induction false} TourAllUpTo(
      fs: FileSystem, o: Options, dev: nat, max: nat, parent: Item, anc: set<Id>, names: seq<string>)
    requires fs.Finite() && o.maxLevel == None && parent.level + 1 <= max
    ensures Marks(TourAll(fs, o.(maxLevel := Some(max)), dev, parent, anc, names))
         == UpTo(max, TourAll(fs, o, dev, parent, anc, names))
    decreases |fs.ids - anc|, 2, |names|
  {
    if names != [] {
      var limited := o.(maxLevel := Some(max));
      var kid := Kid(fs, o, parent, anc, names[0]);
      assert kid == Kid(fs, limited, parent, anc, names[0]);
      TourUpTo(fs, o, dev, max, kid, anc);
      TourAllUpTo(fs, o, dev, max, parent, anc, names[1..]);
      UpToConcat(max, Tour(fs, o, dev, kid, anc), TourAll(fs, o, dev, parent, anc, names[1..]));
      MarksConcat(Tour(fs, limited, dev, kid, anc), TourAll(fs, limited, dev, parent, anc, names[1..]));
    }
  }

  /** The limited walk delivers the nodes of level at most `max` that the full walk delivers, in the
      same order, as often and with the same paths.  (Only how a directory at the limit is left may
      differ: it is not opened, so it cannot turn out unreadable or lose a final slash.) */
  lemma {:induction false} LimitSelectsLevels(fs: FileSystem, o: Options, max: nat, args: seq<string>)
    requires fs.Finite() && o.maxLevel == None
    ensures Marks(TourRoots(fs, o.(maxLevel := Some(max)), args)) == UpTo(max, TourRoots(fs, o, args))
  {
    if args != [] {
      var limited := o.(maxLevel := Some(max));
      var root := Root(fs, o, args[0]);
      assert root == Root(fs, limited, args[0]);
      TourUpTo(fs, o, root.id.dev, max, Load(root), {});
      LimitSelectsLevels(fs, o, max, args[1..]);
      UpToConcat(max, Tour(fs, o, root.id.dev, Load(root), {}), TourRoots(fs, o, args[1..]));
      MarksConcat(Tour(fs, limited, root.id.dev, Load(root), {}), TourRoots(fs, limited, args[1..]));
    }
  }

  /** The two events of a directory show the same path, except for an empty directory whose path
      ends in a slash: there the slash is gone in the second. */
  lemma ClosingPath(fs: FileSystem, o: Options, dev: nat, item: Item, anc: set<Id>)
    requires fs.Finite() && Enterable(fs, item, anc) && item.info == D
    ensures var inside := TourInside(fs, o, dev, item, anc);
            && inside != []
            && (inside[|inside| - 1].path == item.path <==>
                !(&& item.path != "" && item.path[|item.path| - 1] == '/'
                  && !Closed(o, dev, item)
                  && fs.list(item.path).Names? && Kept(o.seeDot, fs.list(item.path).names) == []))
  {
    var inside := TourInside(fs, o, dev, item, anc);
    if !Closed(o, dev, item) && fs.list(item.path).Names? && Kept(o.seeDot, fs.list(item.path).names) == [] {
      assert |inside[0].path| == AppendAt(item.path);
      assert item.path[..|item.path|] == item.path;
    }
  }
}
