/** What an instruction to skip a node does to the walk that is still to come. */
module FtsSkip {
  import opened FtsTour
  import opened FtsStep

  /** A skipped directory, once it is the current one, is left at once: its second event comes next, and
      nothing inside it. */
  lemma SkippedCurrent(fs: FileSystem, o: Options, dev: nat, items: seq<Item>)
    requires fs.Finite() && WellFormed(fs, items) && items[0].info == D && items[0].skip
    ensures Remaining(fs, o, dev, items) ==
            [Event(DP, items[0].path, items[0].name, items[0].level)] + Rest(fs, o, dev, items)
    ensures Step(fs, o, dev, items) == Emit(items[0].path, dev, [items[0].(info := DP, skip := false)] + items[1..])
  {
  }

  /** Item `k` is one of the siblings still to come, below the roots. */
  predicate Waiting(items: seq<Item>, k: nat) {
    0 < k < |items| && items[k].level > 0 && items[k].level == items[k - 1].level
  }

  function Without(items: seq<Item>, k: nat): seq<Item>
    requires k < |items|
  {
    items[..k] + items[k + 1..]
  }

  lemma WithoutTail(items: seq<Item>, k: nat)
    requires 0 < k < |items|
    ensures Without(items, k)[0] == items[0]
    ensures Without(items, k)[1..] == if k == 1 then items[2..] else Without(items[1..], k - 1)
  {
  }

  /** The list without a waiting sibling is a list as it should be, and above the first item is what was
      above it. */
  lemma {:induction false} StillWellFormed(fs: FileSystem, items: seq<Item>, k: nat)
    requires WellFormed(fs, items) && Waiting(items, k)
    ensures WellFormed(fs, Without(items, k)) && Above(Without(items, k)) == Above(items)
    decreases k
  {
    hide Enterable;
    WithoutTail(items, k);
    if k > 1 {
      assert items[1..][k - 1] == items[k] && items[1..][k - 2] == items[k - 1];
      StillWellFormed(fs, items[1..], k - 1);
    } else {
      assert items[1..][1..] == items[2..];
    }
  }

  /** A sibling that is told to be skipped before the walk gets to it is passed over as if it were not
      there: not even its first event is delivered. */
  lemma {:induction false} SkippedSibling(fs: FileSystem, o: Options, dev: nat, items: seq<Item>, k: nat)
    requires fs.Finite() && WellFormed(fs, items) && Waiting(items, k) && items[k].skip
    ensures WellFormed(fs, Without(items, k))
    ensures Rest(fs, o, dev, items) == Rest(fs, o, dev, Without(items, k))
    decreases k
  {
    hide Enterable, Visit, After;
    StillWellFormed(fs, items, k);
    WithoutTail(items, k);
    var tail := items[1..];
    if k > 1 {
      assert tail[k - 1] == items[k] && tail[k - 2] == items[k - 1];
      StillWellFormed(fs, tail, k - 1);
      SkippedSibling(fs, o, dev, tail, k - 1);
    } else {
      assert tail[1..] == items[2..];
      RestBehind(fs, o, dev, items);
    }
  }

  /** What follows an item does not depend on it, only on its level. */
  lemma RestBehind(fs: FileSystem, o: Options, dev: nat, items: seq<Item>)
    requires fs.Finite() && WellFormed(fs, items) && Waiting(items, 1)
    requires WellFormed(fs, Without(items, 1))
    ensures Rest(fs, o, dev, Without(items, 1)) == Rest(fs, o, dev, items[1..])
  {
    var rest := Without(items, 1);
    assert rest == [items[0]] + items[1..][1..];
    RestIgnoresHead(fs, o, dev, items[1..], items[0]);
  }

  /** The same, of everything that remains. */
  lemma SkippedIsAbsent(fs: FileSystem, o: Options, dev: nat, items: seq<Item>, k: nat)
    requires fs.Finite() && WellFormed(fs, items) && Waiting(items, k) && items[k].skip
    ensures WellFormed(fs, Without(items, k))
    ensures Remaining(fs, o, dev, items) == Remaining(fs, o, dev, Without(items, k))
  {
    hide After, Above, WellFormed, Rest;
    StillWellFormed(fs, items, k);
    SkippedSibling(fs, o, dev, items, k);
    WithoutTail(items, k);
  }
}
