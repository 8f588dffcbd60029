/** The counted-pointer heap as the library runs it: counters updated in place, destructions driven
to their end, and the program letting go of everything. */
module SafePtrStore {
  import opened SafePtrWords
  import opened SafePtr
  import opened SafePtrRuns
  import opened SafePtrReclaim

  /** `h'` is `h` with some members of objects and some objects gone. */
  ghost predicate Fewer(h: Heap, h': Heap) {
    && (forall p | p in h'.ptrs :: p in h.ptrs && h.ptrs[p] == h'.ptrs[p])
    && (forall p | p in h.ptrs && h.ptrs[p].home.Outside? :: p in h'.ptrs)
    && h'.objs.Keys <= h.objs.Keys
    && h'.past == h.past
  }

  lemma FewerIsTransitive(a: Heap, b: Heap, c: Heap)
    requires Fewer(a, b) && Fewer(b, c)
    ensures Fewer(a, c)
  {
  }

  lemma ReleaseHistory(h: Heap, k: Kind, t: Option<ObjId>)
    requires t.Some? ==> t.value in h.objs
    ensures Release(h, k, t).past == h.past && Release(h, k, t).ptrs == h.ptrs
  {
  }

  lemma CascadeStepIsFewer(h: Heap, a: Action)
    requires Safe(h) && Enabled(h, a) && IsCascade(a)
    ensures Fewer(h, Next(h, a))
  {
    match a
    case ReleaseMember(p) =>
      hide Release;
      ReleaseHistory(RemovePtr(h, p), h.ptrs[p].kind, h.ptrs[p].target);
      ReleaseKeepsObjects(RemovePtr(h, p), h.ptrs[p].kind, h.ptrs[p].target);
    case Finish =>
  }

  lemma FewerStaysAcyclic(h: Heap, h': Heap)
    requires Fewer(h, h') && Acyclic(h)
    ensures Acyclic(h')
  {
    forall a, b | OwnEdge(h', a, b)
      ensures OwnEdge(h, a, b)
    {
    }
    forall path | OwnPath(h', path) && |path| > 1
      ensures path[0] != path[|path| - 1]
    {
      assert OwnPath(h, path);
    }
  }

  /** Dropping one pointer of the program, before the destructions it starts. */
  lemma DropShrinks(h: Heap, p: PtrId)
    requires Safe(h) && p in h.ptrs && h.ptrs[p].home.Outside?
    ensures Enabled(h, Drop(p))
    ensures var h' := Next(h, Drop(p));
            && h'.ptrs == h.ptrs - {p} && h'.objs.Keys == h.objs.Keys && h'.past == h.past
            && (Acyclic(h) ==> Acyclic(h'))
  {
    hide Release;
    var h' := Next(h, Drop(p));
    ReleaseHistory(RemovePtr(h, p), h.ptrs[p].kind, h.ptrs[p].target);
    ReleaseKeepsObjects(RemovePtr(h, p), h.ptrs[p].kind, h.ptrs[p].target);
    if Acyclic(h) {
      assert forall a, b :: OwnEdge(h', a, b) ==> OwnEdge(h, a, b);
      assert forall path :: OwnPath(h', path) ==> OwnPath(h, path);
    }
  }

  class Store {
    var objs: map<ObjId, Counters>
    var ptrs: map<PtrId, Ptr>
    var stack: seq<Frame>
    ghost var deleted: seq<ObjId>
    ghost var past: map<ObjId, Past>

    ghost function State(): Heap
      reads this
    {
      Heap(objs, ptrs, stack, deleted, past)
    }

    constructor ()
      ensures State() == EMPTY && Inv(State()) && NotRefilled(State())
    {
      objs, ptrs, stack, deleted, past := map[], map[], [], [], map[];
    }

    method NewObject(o: ObjId)
      requires Inv(State()) && Enabled(State(), New(o))
      modifies this
      ensures old(Safe(State())) && State() == old(Next(State(), New(o)))
      ensures Inv(State())
    {
      hide InvPending, Wrap, CountField, Refs;
      StepKeeps(State(), New(o));
      objs := objs[o := Counters(0, 0)];
    }

    /** The constructor of a pointer. */
    method MakePointer(p: PtrId, k: Kind, home: Home, t: Option<ObjId>)
      requires Inv(State()) && Enabled(State(), Make(p, k, home, t))
      modifies this
      ensures old(Safe(State())) && State() == old(Next(State(), Make(p, k, home, t)))
      ensures Inv(State()) <==> !old(RevivesDying(State(), Make(p, k, home, t)))
    {
      hide InvPending, Wrap, CountField, Refs;
      StepKeeps(State(), Make(p, k, home, t));
      ptrs := ptrs[p := Ptr(k, t, home)];
      if t.Some? { CountUp(k, t.value); }
    }

    method CountUp(k: Kind, o: ObjId)
      requires o in objs
      modifies this
      ensures State() == AddRef(old(State()), k, o)
    {
      var c := objs[o];
      past := past[o := Remember(PastOf(State(), o), k)];
      match k {
        case Own =>
          objs := objs[o := c.(objData := Wrap(c.objData + 1))];
        case Multi =>
          objs := objs[o := c.(objData := Wrap(c.objData + OWN_LIMIT))];
        case Ref =>
          objs := objs[o := c.(refData := Wrap(c.refData + 1))];
      }
    }

    method ReleaseGuardOrRef(o: ObjId)
      requires o in objs
      modifies this
      ensures State() == ReleaseRef(old(State()), o)
    {
      var c := objs[o].(refData := Wrap(objs[o].refData - 1));
      objs := objs[o := c];
      if c.refData == 0 && CountField(c.objData) == 0 {
        stack := stack + [Deleting(o)];
      }
    }

    method ReleaseOwner(k: Kind, o: ObjId)
      requires o in objs
      modifies this
      ensures State() == ReleaseObj(old(State()), k, o)
    {
      var c := objs[o].(objData := Wrap(objs[o].objData - (if k == Own then 1 else OWN_LIMIT)));
      objs := objs[o := c];
      if NoneLeft(k, c.objData) {
        if CountField(c.objData) == 0 && c.refData == 0 {
          stack := stack + [Deleting(o)];
        } else if !Busy(c.objData) {
          objs := objs[o := Counters(MarkInvalidating(c.objData), Wrap(c.refData + 1))];
          stack := stack + [Destroying(o)];
        }
      }
    }

    method ReleaseTarget(k: Kind, t: Option<ObjId>)
      requires t.Some? ==> t.value in objs
      modifies this
      ensures State() == Release(old(State()), k, t)
    {
      if t.Some? {
        if k == Ref { ReleaseGuardOrRef(t.value); } else { ReleaseOwner(k, t.value); }
      }
    }

    /** `SetObject`: the new target is counted before the old one is released. */
    method SetObject(p: PtrId, t: Option<ObjId>)
      requires Inv(State()) && Enabled(State(), Assign(p, t))
      modifies this
      ensures old(Safe(State())) && State() == old(Next(State(), Assign(p, t)))
      ensures Inv(State()) <==> !old(RevivesDying(State(), Assign(p, t)))
    {
      hide InvPending, Wrap, CountField, Refs;
      StepKeeps(State(), Assign(p, t));
      var q := ptrs[p];
      ptrs := ptrs[p := q.(target := t)];
      if t.Some? { CountUp(q.kind, t.value); }
      ReleaseTarget(q.kind, q.target);
    }

    /** The destructor of a pointer. */
    method DestroyPointer(p: PtrId)
      requires Inv(State()) && p in ptrs
      modifies this
      ensures State() == old(Release(RemovePtr(State(), p), ptrs[p].kind, ptrs[p].target))
      ensures Inv(State())
    {
      DropKeeps(State(), p);
      var q := ptrs[p];
      ptrs := ptrs - {p};
      ReleaseTarget(q.kind, q.target);
    }

    method FinishTop()
      requires Inv(State()) && Enabled(State(), Finish)
      modifies this
      ensures old(Safe(State())) && State() == old(Next(State(), Finish))
      ensures Inv(State())
    {
      hide InvPending, Wrap, CountField, Refs;
      StepKeeps(State(), Finish);
      var f := stack[|stack| - 1];
      stack := stack[..|stack| - 1];
      match f {
        case Destroying(o) =>
          objs := objs[o := objs[o].(objData := ClearBusy(objs[o].objData))];
          ReleaseGuardOrRef(o);
        case Deleting(o) =>
          objs := objs - {o};
          deleted := deleted + [o];
      }
    }

    /** Runs the destructions under way to their end, taking the members of each object in any
        order. */
    method Settle()
      requires Inv(State()) && NotRefilled(State())
      modifies this
      ensures Inv(State()) && NotRefilled(State()) && stack == []
      ensures Fewer(old(State()), State())
    {
      while stack != []
        invariant Inv(State()) && NotRefilled(State())
        invariant Fewer(old(State()), State())
        decreases Work(State())
      {
        hide InvPending, NotRefilled, Fewer, Next;
        ghost var h := State();
        var o := stack[|stack| - 1].obj;
        if p :| p in ptrs && ptrs[p].home == Member(o) {
          ghost var a := ReleaseMember(p);
          TakeStep(h, a);
          NextReleases(h, p);
          DestroyPointer(p);
          FewerIsTransitive(old(State()), h, State());
        } else {
          assert Members(ptrs, o) == {};
          TakeStep(h, Finish);
          FinishTop();
          FewerIsTransitive(old(State()), h, State());
        }
      }
    }

    /** The program drops every pointer it holds.  If every object has had a TObj and the TObj
        pointers form no cycle, nothing is left. */
    method DropAll()
      requires Inv(State()) && NotRefilled(State()) && stack == []
      modifies this
      ensures Inv(State()) && stack == [] && forall p | p in ptrs :: ptrs[p].home.Member?
      ensures old(AllOnceOwned(State()) && Acyclic(State())) ==> objs == map[]
    {
      hide InvPending, NotRefilled, Acyclic, Next, Release, RemovePtr;
      while exists p :: p in ptrs && ptrs[p].home.Outside?
        invariant Inv(State()) && NotRefilled(State()) && stack == []
        invariant objs.Keys <= old(objs.Keys) && past == old(past)
        invariant old(Acyclic(State())) ==> Acyclic(State())
        decreases |ptrs|
      {
        var p :| p in ptrs && ptrs[p].home.Outside?;
        ghost var h := State();
        InvMeansSafe(h);
        DropShrinks(h, p);
        NextDrops(h, p);
        RemoveKeepsEmpty(h, p);
        DestroyPointer(p);
        ghost var h' := State();
        assert |ptrs| < |h.ptrs| by { assert ptrs.Keys == h.ptrs.Keys - {p}; }
        Settle();
        FewerHasFewerPtrs(h', State());
        if Acyclic(h') { FewerStaysAcyclic(h', State()); }
      }
      if old(AllOnceOwned(State()) && Acyclic(State())) {
        ReclaimedUnlessCyclic(State());
      }
    }
  }

  lemma FewerHasFewerPtrs(h: Heap, h': Heap)
    requires Fewer(h, h')
    ensures |h'.ptrs| <= |h.ptrs|
  {
    assert h'.ptrs.Keys <= h.ptrs.Keys;
    SubsetIsSmaller(h'.ptrs.Keys, h.ptrs.Keys);
  }

  lemma SubsetIsSmaller(a: set<PtrId>, b: set<PtrId>)
    requires a <= b
    ensures |a| <= |b|
  {
    assert b == a + (b - a);
  }

  lemma NextReleases(h: Heap, p: PtrId)
    requires Safe(h) && Enabled(h, ReleaseMember(p))
    ensures Next(h, ReleaseMember(p)) == Release(RemovePtr(h, p), h.ptrs[p].kind, h.ptrs[p].target)
  {
  }

  lemma NextDrops(h: Heap, p: PtrId)
    requires Safe(h) && Enabled(h, Drop(p))
    ensures Next(h, Drop(p)) == Release(RemovePtr(h, p), h.ptrs[p].kind, h.ptrs[p].target)
  {
  }

  lemma TakeStep(h: Heap, a: Action)
    requires Inv(h) && NotRefilled(h) && Enabled(h, a) && IsCascade(a)
    ensures Safe(h) && Inv(Next(h, a)) && NotRefilled(Next(h, a)) && Fewer(h, Next(h, a)) && Work(Next(h, a)) < Work(h)
  {
    StepKeeps(h, a);
    StepKeepsEmpty(h, a);
    CascadeStepIsFewer(h, a);
    CascadeStepShrinks(h, a);
  }
}
