/** What is reclaimed.  TPtr pointers may form any cycles; only a cycle of TObj pointers keeps
objects alive once no variable of the program points to them. */
module SafePtrReclaim {
  import opened SafePtrWords
  import opened SafePtr
  import opened SafePtrRuns

  // ---------------------------------------------------------------- validity along a step

  /** An object once invalid stays invalid, and one that becomes invalid is being destroyed. */
  ghost predicate ValidityAges(h: Heap, h': Heap) {
    forall x | x in h.objs && x in h'.objs ::
      && (Invalid(h.objs[x].objData) ==> Invalid(h'.objs[x].objData))
      && (Invalid(h'.objs[x].objData) ==> Invalid(h.objs[x].objData) || Framed(h', x))
  }

  lemma ReleaseObjAges(h: Heap, k: Kind, o: ObjId)
    requires k != Ref && o in h.objs && ObjInv(h, Some((k, o)), o)
    ensures ValidityAges(h, ReleaseObj(h, k, o))
    ensures h.stack <= ReleaseObj(h, k, o).stack
  {
    hide ObjOk, CountField, OwnField, MultiField, Busy, MarkInvalidating, Refs, Wrap, NoneLeft, Invalid;
    ObjWords(k, Count(h, None, Own, o), Count(h, None, Multi, o), Count(h, None, Ref, o), h.objs[o],
             Destroying(o) in h.stack, Deleting(o) in h.stack, PastOf(h, o));
    MarkedIsInvalid(Wrap(h.objs[o].objData - (if k == Own then 1 else OWN_LIMIT)));
  }

  lemma ReleaseAges(h: Heap, k: Kind, t: Option<ObjId>)
    requires t.Some? ==> t.value in h.objs && ObjInv(h, Some((k, t.value)), t.value)
    ensures ValidityAges(h, Release(h, k, t))
    ensures h.stack <= Release(h, k, t).stack
  {
    hide ObjInv, ReleaseObj, Invalid;
    if t.Some? && k != Ref {
      ReleaseObjAges(h, k, t.value);
    }
  }

  lemma MarkedIsInvalid(d: Word)
    ensures Invalid(MarkInvalidating(d))
  {
  }

  lemma AddAges(h: Heap, pend: Option<(Kind, ObjId)>, k: Kind, t: Option<ObjId>)
    requires t.Some? ==> t.value in h.objs && ObjInv(h, pend, t.value) && Deleting(t.value) !in h.stack
    requires t.Some? ==> Count(h, pend, k, t.value) + 1 < Limit(k)
    ensures ValidityAges(h, AddRefTo(h, k, t))
  {
    hide ObjOk, Refs, Wrap, Invalid, ValidityAges;
    SameAges(h);
    if t.Some? {
      var o := t.value;
      AddWords(k, Count(h, pend, Own, o), Count(h, pend, Multi, o), Count(h, pend, Ref, o), h.objs[o],
               Destroying(o) in h.stack, PastOf(h, o));
      CounterAges(h, AddRefTo(h, k, t), o);
    }
  }

  lemma SameAges(h: Heap)
    ensures ValidityAges(h, h)
  {
  }

  lemma CounterAges(h: Heap, h': Heap, o: ObjId)
    requires o in h.objs && h'.objs.Keys == h.objs.Keys
    requires forall x | x in h.objs && x != o :: h'.objs[x] == h.objs[x]
    requires Invalid(h'.objs[o].objData) == Invalid(h.objs[o].objData)
    ensures ValidityAges(h, h')
  {
    hide Invalid;
  }

  lemma FinishAges(h: Heap)
    requires Inv(h) && h.stack != []
    ensures h.stack[|h.stack| - 1].obj in h.objs && ValidityAges(h, FinishFrame(h))
  {
    hide Invalid, ObjInv;
    var f := h.stack[|h.stack| - 1];
    if f.Destroying? { DestroyedAges(h, f.obj); }
  }

  lemma DestroyedAges(h: Heap, o: ObjId)
    requires Inv(h) && h.stack != [] && h.stack[|h.stack| - 1] == Destroying(o)
    ensures o in h.objs && ValidityAges(h, FinishFrame(h))
  {
    hide InvPending, ObjInv, Wrap, CountField, ClearBusy, Invalid, ValidityAges;
    DestroyedObject(h, o);
    CounterAges(h, FinishFrame(h), o);
  }

  lemma DestroyedObject(h: Heap, o: ObjId)
    requires Inv(h) && h.stack != [] && h.stack[|h.stack| - 1] == Destroying(o)
    ensures o in h.objs && Invalid(h.objs[o].objData) && Invalid(ClearBusy(h.objs[o].objData))
  {
    hide ObjOk, Refs, Wrap, CountField, ClearBusy, Invalid;
    PopFrame(h);
    assert ObjInv(h, None, o);
    FinishWords(Count(h, None, Own, o), Count(h, None, Multi, o), Count(h, None, Ref, o), h.objs[o], PastOf(h, o));
    BusyIsInvalid(h, o);
  }

  lemma BusyIsInvalid(h: Heap, o: ObjId)
    requires o in h.objs && ObjInv(h, None, o) && Destroying(o) in h.stack
    ensures Invalid(h.objs[o].objData)
  {
  }

  // ---------------------------------------------------------------- invalid objects stay empty

  /** An invalid object holds no pointer to anything, except while it is being emptied. */
  ghost predicate NotRefilled(h: Heap) {
    forall p | p in h.ptrs && h.ptrs[p].home.Member? && h.ptrs[p].target.Some? ::
      var x := h.ptrs[p].home.of;
      x in h.objs && (Invalid(h.objs[x].objData) ==> Framed(h, x))
  }

  /** A pointer to something may be put into `home`: not into an object that is invalid, except while
      it is being emptied. */
  ghost predicate MayFill(h: Heap, home: Home) {
    home.Member? && home.of in h.objs ==> (Invalid(h.objs[home.of].objData) ==> Framed(h, home.of))
  }

  /** The program neither refills invalid objects nor points at objects under deletion. */
  ghost predicate Disciplined(h: Heap, a: Action) {
    && !RevivesDying(h, a)
    && match a
       case Make(_, _, home, t) => t.Some? ==> MayFill(h, home)
       case Assign(p, t) => p in h.ptrs && t.Some? ==> MayFill(h, h.ptrs[p].home)
       case _ => true
  }

  lemma ReleaseKeepsEmpty(h: Heap, k: Kind, t: Option<ObjId>)
    requires InvPending(h, if t.Some? then Some((k, t.value)) else None) && NotRefilled(h)
    ensures NotRefilled(Release(h, k, t))
  {
    hide Release, ObjInv, Invalid;
    ReleaseAges(h, k, t);
    ReleaseKeepsObjects(h, k, t);
    ReleaseWork(h, k, t);
  }

  lemma RemoveKeepsEmpty(h: Heap, p: PtrId)
    requires Inv(h) && NotRefilled(h) && p in h.ptrs
    ensures NotRefilled(Release(RemovePtr(h, p), h.ptrs[p].kind, h.ptrs[p].target))
  {
    RemoveMakesPending(h, p);
    hide InvPending, Release, Invalid;
    ReleaseKeepsEmpty(RemovePtr(h, p), h.ptrs[p].kind, h.ptrs[p].target);
  }

  lemma FinishKeepsEmpty(h: Heap)
    requires Inv(h) && NotRefilled(h) && Enabled(h, Finish)
    ensures NotRefilled(FinishFrame(h))
  {
    hide Invalid, ObjInv;
    var f, h' := h.stack[|h.stack| - 1], FinishFrame(h);
    FinishAges(h);
    TopFrame(h.stack[..|h.stack| - 1], f);
    assert h.stack == h.stack[..|h.stack| - 1] + [f];
    forall p | p in h'.ptrs && h'.ptrs[p].home.Member? && h'.ptrs[p].target.Some?
      ensures var x := h'.ptrs[p].home.of; x in h'.objs && (Invalid(h'.objs[x].objData) ==> Framed(h', x))
    {
      assert p !in Members(h.ptrs, f.obj);
    }
  }

  lemma AddKeepsEmpty(h: Heap, pend: Option<(Kind, ObjId)>, p: PtrId, q: Ptr)
    requires NotRefilled(h) && p !in h.ptrs && Reachable(h, q.home)
    requires q.target.Some? ==>
               q.target.value in h.objs && ObjInv(h, pend, q.target.value) && Deleting(q.target.value) !in h.stack
    requires q.target.Some? ==> Count(h, pend, q.kind, q.target.value) + 1 < Limit(q.kind)
    requires q.target.Some? ==> MayFill(h, q.home)
    ensures NotRefilled(AddRefTo(h.(ptrs := h.ptrs[p := q]), q.kind, q.target))
  {
    hide ObjInv, Invalid, Wrap, Count;
    AddAges(h, pend, q.kind, q.target);
    var h1, h' := AddRefTo(h, q.kind, q.target), AddRefTo(h.(ptrs := h.ptrs[p := q]), q.kind, q.target);
    assert h'.objs == h1.objs && h'.stack == h.stack == h1.stack && h'.ptrs == h.ptrs[p := q];
    hide AddRefTo;
  }

  lemma AssignKeepsEmpty(h: Heap, p: PtrId, t: Option<ObjId>)
    requires Inv(h) && NotRefilled(h) && Enabled(h, Assign(p, t)) && Disciplined(h, Assign(p, t))
    ensures NotRefilled(Release(AddRefTo(Retarget(h, p, t), h.ptrs[p].kind, t), h.ptrs[p].kind, h.ptrs[p].target))
  {
    hide Release, Invalid, AddRefTo, Refs, ObjInv, Count;
    var q, h0 := h.ptrs[p], RemovePtr(h, p);
    AssignSplits(h, p, t);
    AddKeepsEmpty(h0, Pending(q), p, q.(target := t));
    AddKeeps(h0, Pending(q), p, q.(target := t));
    ReleaseKeepsEmpty(AddRefTo(Retarget(h, p, t), q.kind, t), q.kind, q.target);
  }

  /** A program that never fills an invalid object never finds one that is not empty. */
  lemma StepKeepsEmpty(h: Heap, a: Action)
    requires Inv(h) && NotRefilled(h) && Enabled(h, a) && Disciplined(h, a)
    ensures Safe(h) && NotRefilled(Next(h, a))
  {
    hide Release, Invalid, AddRefTo, FinishFrame, Refs, Members;
    match a
    case New(o) =>
    case Make(p, k, home, t) => AddKeepsEmpty(h, None, p, Ptr(k, t, home));
    case Assign(p, t) => AssignKeepsEmpty(h, p, t);
    case Drop(p) => RemoveKeepsEmpty(h, p);
    case ReleaseMember(p) => RemoveKeepsEmpty(h, p);
    case Finish => FinishKeepsEmpty(h);
  }

  /** A run whose first `n` steps are disciplined. */
  ghost predicate DisciplinedRun(run: seq<Heap>, actions: seq<Action>, n: nat) {
    IsRun(run, actions) && n <= |actions| && forall i | 0 <= i < n :: Disciplined(run[i], actions[i])
  }

  /** Every state of a disciplined run satisfies the invariant, and its invalid objects are empty. */
  lemma {:induction false} RunKeepsEmpty(run: seq<Heap>, actions: seq<Action>, n: nat)
    requires DisciplinedRun(run, actions, n)
    ensures Inv(run[n]) && NotRefilled(run[n])
  {
    EmptyIsFine();
    hide Inv, Next, Safe;
    if n > 0 {
      RunKeepsEmpty(run, actions, n - 1);
      var h, a := run[n - 1], actions[n - 1];
      assert StepTo(h, a, run[n - 1 + 1]);
      StepKeeps(h, a);
      StepKeepsEmpty(h, a);
    }
  }

  // ---------------------------------------------------------------- only TObj cycles leak

  ghost predicate OwnEdge(h: Heap, a: ObjId, b: ObjId) {
    exists p | p in h.ptrs :: h.ptrs[p].kind == Own && h.ptrs[p].home == Member(a) && h.ptrs[p].target == Some(b)
  }

  ghost predicate OwnPath(h: Heap, path: seq<ObjId>) {
    forall i | 0 <= i < |path| - 1 :: OwnEdge(h, path[i], path[i + 1])
  }

  /** No object owns itself, directly or through others. */
  ghost predicate Acyclic(h: Heap) {
    forall path | OwnPath(h, path) && |path| > 1 :: path[0] != path[|path| - 1]
  }

  ghost predicate Unreferenced(h: Heap) {
    forall p | p in h.ptrs && h.ptrs[p].target.Some? :: h.ptrs[p].home.Member?
  }

  ghost predicate AllOnceOwned(h: Heap) {
    forall o | o in h.objs :: PastOf(h, o).own
  }

  ghost predicate Settled(h: Heap) {
    Inv(h) && NotRefilled(h) && h.stack == [] && Unreferenced(h) && AllOnceOwned(h)
  }

  ghost predicate ValidIn(h: Heap, o: ObjId) {
    o in h.objs && !Invalid(h.objs[o].objData)
  }

  lemma ValidHasOwner(h: Heap, o: ObjId) returns (x: ObjId)
    requires Settled(h) && ValidIn(h, o)
    ensures ValidIn(h, x) && OwnEdge(h, x, o)
  {
    assert ObjInv(h, None, o);
    hide ObjOk, Invalid;
    var p :| p in Refs(h.ptrs, Own, o);
    x := h.ptrs[p].home.of;
  }

  lemma {:induction false} DistinctFits(path: seq<ObjId>, s: set<ObjId>)
    requires forall i | 0 <= i < |path| :: path[i] in s
    requires forall i, j | 0 <= i < j < |path| :: path[i] != path[j]
    ensures |path| <= |s|
  {
    if path != [] {
      var rest, last := path[..|path| - 1], path[|path| - 1];
      forall i | 0 <= i < |rest|
        ensures rest[i] in s - {last}
      {
        assert rest[i] == path[i];
      }
      DistinctFits(rest, s - {last});
    }
  }

  /** Owners of owners of a valid object: a chain of distinct objects can always be prolonged, so
      without a cycle it would outgrow the heap. */
  lemma {:induction false} OwnersFormCycle(h: Heap, path: seq<ObjId>)
    requires Settled(h) && path != [] && OwnPath(h, path)
    requires forall i | 0 <= i < |path| :: ValidIn(h, path[i])
    requires forall i, j | 0 <= i < j < |path| :: path[i] != path[j]
    requires |path| <= |h.objs|
    ensures !Acyclic(h)
    decreases |h.objs| - |path|
  {
    hide Settled, Invalid, OwnEdge;
    var x := ValidHasOwner(h, path[0]);
    var longer := [x] + path;
    if x in path {
      var i :| 0 <= i < |path| && path[i] == x;
      var cycle := longer[..i + 2];
      assert OwnPath(h, cycle) && cycle[0] == cycle[|cycle| - 1];
    } else {
      forall i | 0 <= i < |longer|
        ensures longer[i] in h.objs.Keys
      {
        assert i > 0 ==> longer[i] == path[i - 1];
      }
      DistinctFits(longer, h.objs.Keys);
      OwnersFormCycle(h, longer);
    }
  }

  /** If no object is valid, no pointer points anywhere, so nothing is left. */
  lemma AllInvalidMeansGone(h: Heap)
    requires Settled(h) && forall o | o in h.objs :: !ValidIn(h, o)
    ensures h.objs == map[]
  {
    hide Invalid, ObjOk;
    assert forall p | p in h.ptrs :: h.ptrs[p].target == None;
    if o :| o in h.objs {
      NothingPointsTo(h, o);
      assert false;
    }
  }

  lemma NothingPointsTo(h: Heap, o: ObjId)
    requires o in h.objs && PastOf(h, o).own && h.stack == []
    requires forall p | p in h.ptrs :: h.ptrs[p].target == None
    ensures !ObjInv(h, None, o)
  {
    assert Refs(h.ptrs, Own, o) == Refs(h.ptrs, Multi, o) == Refs(h.ptrs, Ref, o) == {};
  }

  lemma EmptyIsAcyclic(h: Heap)
    requires PtrsOk(h) && h.objs == map[]
    ensures Acyclic(h)
  {
    assert forall a, b :: !OwnEdge(h, a, b);
    forall path: seq<ObjId> | |path| > 1
      ensures !OwnPath(h, path)
    {
      assert !OwnEdge(h, path[0], path[0 + 1]);
    }
  }

  /** When the program has let go of everything and no destruction is under way, every object is
      gone if and only if no TObj cycle is left, whatever cycles the TPtr pointers form. */
  lemma ReclaimedUnlessCyclic(h: Heap)
    requires Settled(h)
    ensures h.objs == map[] <==> Acyclic(h)
  {
    hide Invalid, ObjInv, Acyclic;
    if h.objs == map[] {
      EmptyIsAcyclic(h);
    } else if v :| v in h.objs && ValidIn(h, v) {
      DistinctFits([v], h.objs.Keys);
      OwnersFormCycle(h, [v]);
    } else {
      AllInvalidMeansGone(h);
      assert false;
    }
  }

  /** At the end of a disciplined run after which the program holds nothing and no destruction is under
      way, every object is gone if and only if no TObj cycle is left. */
  lemma RunReclaims(run: seq<Heap>, actions: seq<Action>)
    requires DisciplinedRun(run, actions, |actions|)
    requires run[|actions|].stack == [] && Unreferenced(run[|actions|]) && AllOnceOwned(run[|actions|])
    ensures run[|actions|].objs == map[] <==> Acyclic(run[|actions|])
  {
    RunKeepsEmpty(run, actions, |actions|);
    ReclaimedUnlessCyclic(run[|actions|]);
  }
}
