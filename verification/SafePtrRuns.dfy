/** What holds over whole runs of the counted-pointer machine: the counters in every reachable
state, the deletions, the end of every destruction, and what is reclaimed. */
module SafePtrRuns {
  import opened SafePtrWords
  import opened SafePtr
  import opened SafePtrSteps

  // ---------------------------------------------------------------- every reachable state

  /** `a` is something the program or the destruction under way may do, and leads to `h'`.  That the
      state is safe to act on is not part of what a step is. */
  ghost predicate StepTo(h: Heap, a: Action, h': Heap) {
    Enabled(h, a) && (Safe(h) ==> h' == Next(h, a))
  }

  ghost predicate Steps(run: seq<Heap>, actions: seq<Action>) {
    && |run| == |actions| + 1
    && forall i | 0 <= i < |actions| :: StepTo(run[i], actions[i], run[i + 1])
  }

  ghost predicate IsRun(run: seq<Heap>, actions: seq<Action>) {
    Steps(run, actions) && run[0] == EMPTY
  }

  /** None of the first `n` steps points at an object under deletion. */
  ghost predicate SparesDying(run: seq<Heap>, actions: seq<Action>, n: nat)
    requires n <= |actions| < |run|
  {
    forall i | 0 <= i < n :: !RevivesDying(run[i], actions[i])
  }

  lemma {:induction false} StepsKeepInv(run: seq<Heap>, actions: seq<Action>, n: nat)
    requires Steps(run, actions) && Inv(run[0]) && n < |run| && SparesDying(run, actions, n)
    ensures Inv(run[n])
  {
    hide Inv, Next, Safe;
    if n > 0 {
      StepsKeepInv(run, actions, n - 1);
      assert StepTo(run[n - 1], actions[n - 1], run[n - 1 + 1]);
      StepKeeps(run[n - 1], actions[n - 1]);
    }
  }

  /** The states of a run satisfy the invariant exactly as long as no step points at an object under
      deletion. */
  lemma RunKeepsInv(run: seq<Heap>, actions: seq<Action>, n: nat)
    requires IsRun(run, actions) && n < |run|
    ensures (forall m | 0 <= m <= n :: Inv(run[m])) <==> SparesDying(run, actions, n)
  {
    EmptyIsFine();
    hide Inv, Next, Safe;
    if SparesDying(run, actions, n) {
      forall m | 0 <= m <= n ensures Inv(run[m]) { StepsKeepInv(run, actions, m); }
    }
    if forall m | 0 <= m <= n :: Inv(run[m]) {
      forall i | 0 <= i < n ensures !RevivesDying(run[i], actions[i]) {
        assert Inv(run[i]) && Inv(run[i + 1]);
        StepKeeps(run[i], actions[i]);
      }
    }
  }

  lemma EmptyIsFine()
    ensures Inv(EMPTY)
  {
  }

  lemma SparingKeepsInv(run: seq<Heap>, actions: seq<Action>, n: nat)
    requires IsRun(run, actions) && n < |run| && SparesDying(run, actions, n)
    ensures Inv(run[n])
  {
    RunKeepsInv(run, actions, n);
  }

  const BORN := Heap(map[0 := Counters(0, 0)], map[], [], [], map[])
  const OWNED := Heap(map[0 := Counters(1, 0)], map[0 := Ptr(Own, Some(0), Outside)], [], [], map[0 := Past(true, false, false)])
  const DYING := Heap(map[0 := Counters(0, 0)], map[], [Deleting(0)], [], map[0 := Past(true, false, false)])

  lemma Birth()
    ensures StepTo(EMPTY, New(0), BORN)
  {
  }

  lemma Owning()
    ensures StepTo(BORN, Make(0, Own, Outside, Some(0)), OWNED)
  {
    assert Refs(BORN.ptrs, Own, 0) == {};
  }

  lemma LettingGo()
    ensures StepTo(OWNED, Drop(0), DYING)
  {
    assert RemovePtr(OWNED, 0).ptrs == map[];
  }

  lemma OnlyDying()
    ensures Inv(DYING)
  {
    hide Inv, Enabled, Next, Safe;
    EmptyIsFine();
    Birth();
    Owning();
    LettingGo();
    StepKeeps(EMPTY, New(0));
    StepKeeps(BORN, Make(0, Own, Outside, Some(0)));
    StepKeeps(OWNED, Drop(0));
  }

  lemma LastSteps() returns (revived: Heap, gone: Heap)
    ensures StepTo(DYING, Make(1, Ref, Outside, Some(0)), revived)
    ensures StepTo(revived, Drop(1), DyingTwice(DYING, 0))
    ensures StepTo(DyingTwice(DYING, 0), Finish, gone)
    ensures 0 !in gone.objs && gone.deleted == [0] && gone.stack == [Deleting(0)]
  {
    OnlyDying();
    hide Inv;
    SelfPointerDeletesTwice(DYING, 0, 1);
    revived := Next(DYING, Make(1, Ref, Outside, Some(0)));
    var twice := DyingTwice(DYING, 0);
    assert Members(twice.ptrs, 0) == {};
    gone := FinishFrame(twice);
  }

  /** What a run comes to that does: the destructor of an object makes a TPtr to the object and lets it
      go.  The object is deleted, and a second deletion of it is under way. */
  lemma DestructorRun() returns (run: seq<Heap>, actions: seq<Action>)
    ensures IsRun(run, actions) && !SparesDying(run, actions, |actions|)
    ensures var last := run[|actions|];
            0 !in last.objs && last.deleted == [0] && last.stack == [Deleting(0)] && !Safe(last)
  {
    hide StepTo, Inv;
    Birth();
    Owning();
    LettingGo();
    var revived, gone := LastSteps();
    run := [EMPTY, BORN, OWNED, DYING, revived, DyingTwice(DYING, 0), gone];
    actions := [New(0), Make(0, Own, Outside, Some(0)), Drop(0), Make(1, Ref, Outside, Some(0)), Drop(1), Finish];
    assert RevivesDying(run[3], actions[3]);
    assert gone.stack[0].obj == 0;
  }

  /** In every state of every run, even in the middle of a destruction, the packed words of every
      object are exactly the numbers of pointers to it, and the guard is there exactly while its
      contents are being destroyed. */
  lemma CountersAreExact(run: seq<Heap>, actions: seq<Action>, n: nat, o: ObjId)
    requires IsRun(run, actions) && n < |run| && SparesDying(run, actions, n) && o in run[n].objs
    ensures var h, d := run[n], run[n].objs[o].objData;
            && OwnField(d) == |Refs(h.ptrs, Own, o)|
            && MultiField(d) == |Refs(h.ptrs, Multi, o)|
            && h.objs[o].refData == |Refs(h.ptrs, Ref, o)| + Bit(Destroying(o) in h.stack)
            && (Busy(d) <==> Destroying(o) in h.stack)
  {
    SparingKeepsInv(run, actions, n);
    var h := run[n];
    assert ObjInv(h, None, o);
    Unpack(|Refs(h.ptrs, Own, o)|, |Refs(h.ptrs, Multi, o)|, Destroying(o) in h.stack, Invalid(h.objs[o].objData));
  }

  // ---------------------------------------------------------------- objects once pointed to

  predicate Knows(past: Past, k: Kind) {
    match k case Own => past.own case Multi => past.multi case Ref => past.ref
  }

  lemma ReleaseKeepsPast(h: Heap, k: Kind, t: Option<ObjId>)
    requires t.Some? ==> t.value in h.objs
    ensures Release(h, k, t).past == h.past
  {
  }

  /** No step forgets, and every step notes what starts to point to what. */
  lemma StepRemembers(h: Heap, a: Action, k: Kind, o: ObjId)
    requires Safe(h) && Enabled(h, a) && (Refs(h.ptrs, k, o) != {} ==> Knows(PastOf(h, o), k))
    ensures Knows(PastOf(h, o), k) || Refs(Next(h, a).ptrs, k, o) != {} ==> Knows(PastOf(Next(h, a), o), k)
  {
    hide Release;
    PointersAfter(h, a);
    match a
    case Assign(p, t) =>
      var q := h.ptrs[p];
      ReleaseKeepsPast(AddRefTo(Retarget(h, p, t), q.kind, t), q.kind, q.target);
      NewRefs(h.ptrs, p, q.(target := t), k, o);
    case Make(p, j, home, t) => NewRefs(h.ptrs, p, Ptr(j, t, home), k, o);
    case Drop(p) =>
      ReleaseKeepsPast(RemovePtr(h, p), h.ptrs[p].kind, h.ptrs[p].target);
      RefsWithout(h.ptrs, p, k, o);
    case ReleaseMember(p) =>
      ReleaseKeepsPast(RemovePtr(h, p), h.ptrs[p].kind, h.ptrs[p].target);
      RefsWithout(h.ptrs, p, k, o);
    case _ =>
  }

  lemma NewRefs(ptrs: map<PtrId, Ptr>, p: PtrId, q: Ptr, k: Kind, o: ObjId)
    ensures Refs(ptrs[p := q], k, o) != {} ==> Refs(ptrs, k, o) != {} || (q.kind == k && q.target == Some(o))
  {
    assert forall r | r in Refs(ptrs[p := q], k, o) :: r == p || r in Refs(ptrs, k, o);
  }

  lemma StepToRemembers(h: Heap, a: Action, h': Heap, k: Kind, o: ObjId)
    requires StepTo(h, a, h') && Inv(h) && (Refs(h.ptrs, k, o) != {} ==> Knows(PastOf(h, o), k))
    ensures Knows(PastOf(h, o), k) || Refs(h'.ptrs, k, o) != {} ==> Knows(PastOf(h', o), k)
  {
    hide Inv, Next, Refs, Knows;
    InvMeansSafe(h);
    StepRemembers(h, a, k, o);
  }

  lemma {:induction false} RunRemembers(run: seq<Heap>, actions: seq<Action>, m: nat, n: nat, k: Kind, o: ObjId)
    requires IsRun(run, actions) && m <= n < |run| && SparesDying(run, actions, n)
    ensures Refs(run[m].ptrs, k, o) != {} || Refs(run[n].ptrs, k, o) != {} ==> Knows(PastOf(run[n], o), k)
    decreases n
  {
    hide Refs, Inv, StepTo, Knows, PastOf, RevivesDying;
    if n == 0 {
      assert Refs(EMPTY.ptrs, k, o) == {} by { NoRefs(k, o); }
    } else {
      var h, a, h' := run[n - 1], actions[n - 1], run[n - 1 + 1];
      RunRemembers(run, actions, if m == n then n - 1 else m, n - 1, k, o);
      assert StepTo(h, a, h');
      SparingKeepsInv(run, actions, n - 1);
      StepToRemembers(h, a, h', k, o);
    }
  }

  lemma NoRefs(k: Kind, o: ObjId)
    ensures Refs(EMPTY.ptrs, k, o) == {}
  {
  }

  /** An object that a TObj (or a TMObj) has pointed to in some earlier state is invalid or on its way
      out, unless a TObj (or a TMObj) points to it now. */
  lemma ValidMeansOwned(run: seq<Heap>, actions: seq<Action>, m: nat, n: nat, k: Kind, o: ObjId)
    requires IsRun(run, actions) && m <= n < |run| && SparesDying(run, actions, n) && o in run[n].objs
    requires k != Ref && Refs(run[m].ptrs, k, o) != {} && Refs(run[n].ptrs, k, o) == {}
    ensures Invalid(run[n].objs[o].objData) || Deleting(o) in run[n].stack
  {
    SparingKeepsInv(run, actions, n);
    RunRemembers(run, actions, m, n, k, o);
    assert ObjInv(run[n], None, o);
  }

  /** An object that any pointer has pointed to in some earlier state is never forgotten: it has been
      deleted, or something points to it now, or its destruction is under way. */
  lemma NothingForgotten(run: seq<Heap>, actions: seq<Action>, m: nat, n: nat, k: Kind, o: ObjId)
    requires IsRun(run, actions) && m <= n < |run| && SparesDying(run, actions, n)
    requires Refs(run[m].ptrs, k, o) != {}
    ensures o in run[n].deleted || !Unpointed(run[n].ptrs, o) || Framed(run[n], o)
  {
    SparingKeepsInv(run, actions, n);
    RunRemembers(run, actions, m, n, k, o);
    assert o in run[n].objs ==> ObjInv(run[n], None, o);
    assert Refs(run[n].ptrs, Own, o) == {} && Refs(run[n].ptrs, Multi, o) == {} && Refs(run[n].ptrs, Ref, o) == {}
      ==> o in run[n].deleted || Framed(run[n], o);
  }

  /** No pointer dangles, no destruction works on a deleted object, no object is deleted twice, and
      when an object is deleted nothing points to it and its contents are not being destroyed. */
  lemma DeletionIsSafe(run: seq<Heap>, actions: seq<Action>, n: nat)
    requires IsRun(run, actions) && n < |run| && SparesDying(run, actions, n)
    ensures Safe(run[n])
    ensures forall i, j | 0 <= i < j < |run[n].deleted| :: run[n].deleted[i] != run[n].deleted[j]
    ensures forall o | o in run[n].deleted :: o !in run[n].objs
    ensures n + 1 < |run| ==>
              forall o | o in run[n].objs && o !in run[n + 1].objs ::
                && run[n + 1].deleted == run[n].deleted + [o]
                && Destroying(o) !in run[n].stack
                && (forall p | p in run[n].ptrs :: run[n].ptrs[p].target != Some(o) && run[n].ptrs[p].home != Member(o))
  {
    SparingKeepsInv(run, actions, n);
    if n + 1 < |run| {
      var h, h' := run[n], run[n + 1];
      forall o | o in h.objs && o !in h'.objs
        ensures h'.deleted == h.deleted + [o] && Destroying(o) !in h.stack
        ensures forall p | p in h.ptrs :: h.ptrs[p].target != Some(o) && h.ptrs[p].home != Member(o)
      {
        OnlyFinishDeletes(h, actions[n], o);
        DeletingMeansUnreferenced(h, o);
        forall p | p in h.ptrs
          ensures h.ptrs[p].home != Member(o)
        {
          assert p !in Members(h.ptrs, o);
        }
      }
    }
  }

  lemma ReleaseKeepsObjects(h: Heap, k: Kind, t: Option<ObjId>)
    requires t.Some? ==> t.value in h.objs
    ensures Release(h, k, t).objs.Keys == h.objs.Keys
  {
  }

  lemma OnlyFinishDeletes(h: Heap, a: Action, o: ObjId)
    requires Safe(h) && Enabled(h, a) && o in h.objs && o !in Next(h, a).objs
    ensures a == Finish && h.stack[|h.stack| - 1] == Deleting(o)
    ensures Next(h, a).deleted == h.deleted + [o]
  {
    hide Release;
    match a
    case New(_) =>
    case Make(_, _, _, _) =>
    case Assign(p, t) =>
      ReleaseKeepsObjects(AddRefTo(Retarget(h, p, t), h.ptrs[p].kind, t), h.ptrs[p].kind, h.ptrs[p].target);
    case Drop(p) => ReleaseKeepsObjects(RemovePtr(h, p), h.ptrs[p].kind, h.ptrs[p].target);
    case ReleaseMember(p) => ReleaseKeepsObjects(RemovePtr(h, p), h.ptrs[p].kind, h.ptrs[p].target);
    case Finish =>
  }

  // ---------------------------------------------------------------- every destruction ends

  function FrameWork(stack: seq<Frame>): nat {
    if stack == [] then 0
    else FrameWork(stack[..|stack| - 1]) + (if stack[|stack| - 1].Destroying? then 2 else 1)
  }

  /** An upper bound on the steps a destruction still takes. */
  ghost function Work(h: Heap): nat {
    3 * |h.ptrs| + FrameWork(h.stack)
  }

  lemma PushWork(s: seq<Frame>, f: Frame)
    ensures FrameWork(s + [f]) == FrameWork(s) + (if f.Destroying? then 2 else 1)
  {
    assert (s + [f])[..|s|] == s;
  }

  lemma ReleaseStack(h: Heap, k: Kind, o: ObjId)
    requires o in h.objs
    ensures var h' := Release(h, k, Some(o));
            && h'.ptrs == h.ptrs
            && (h'.stack == h.stack || h'.stack == h.stack + [Destroying(o)] || h'.stack == h.stack + [Deleting(o)])
  {
  }

  lemma ReleaseWork(h: Heap, k: Kind, t: Option<ObjId>)
    requires t.Some? ==> t.value in h.objs
    ensures Release(h, k, t).ptrs == h.ptrs
    ensures FrameWork(Release(h, k, t).stack) <= FrameWork(h.stack) + 2
  {
    if t.Some? {
      ReleaseStack(h, k, t.value);
      hide Release;
      PushWork(h.stack, Destroying(t.value));
      PushWork(h.stack, Deleting(t.value));
    }
  }

  /** Every step of a destruction leaves less to do ... */
  lemma CascadeStepShrinks(h: Heap, a: Action)
    requires Safe(h) && Enabled(h, a) && IsCascade(a)
    ensures Work(Next(h, a)) < Work(h)
  {
    match a
    case ReleaseMember(p) =>
      hide Release;
      assert (h.ptrs - {p}).Keys == h.ptrs.Keys - {p};
      ReleaseWork(RemovePtr(h, p), h.ptrs[p].kind, h.ptrs[p].target);
    case Finish =>
      var f, rest := h.stack[|h.stack| - 1], h.stack[..|h.stack| - 1];
      assert h.stack == rest + [f];
      PushWork(rest, f);
      PushWork(rest, Deleting(f.obj));
  }

  /** ... and as long as one is under way there is a step to take. */
  lemma CascadeNeverStuck(h: Heap)
    requires Safe(h) && h.stack != []
    ensures exists a :: IsCascade(a) && Enabled(h, a)
  {
    var o := h.stack[|h.stack| - 1].obj;
    if Members(h.ptrs, o) == {} {
      assert Enabled(h, Finish);
    } else {
      var p :| p in Members(h.ptrs, o);
      assert Enabled(h, ReleaseMember(p));
    }
  }

  /** However the members of the objects are ordered, a destruction ends within `Work` steps. */
  lemma {:induction false} CascadesTerminate(run: seq<Heap>, actions: seq<Action>)
    requires Steps(run, actions) && Inv(run[0])
    requires forall i | 0 <= i < |actions| :: IsCascade(actions[i])
    ensures |actions| + Work(run[|actions|]) <= Work(run[0])
    decreases |actions|
  {
    hide Inv, Work, Next;
    if actions != [] {
      var n := |actions| - 1;
      CascadesTerminate(run[..n + 1], actions[..n]);
      StepsKeepInv(run, actions, n);
      InvMeansSafe(run[n]);
      assert StepTo(run[n], actions[n], run[n + 1]);
      CascadeStepShrinks(run[n], actions[n]);
    }
  }

  lemma InvMeansSafe(h: Heap)
    requires Inv(h)
    ensures Safe(h)
  {
  }
}
