/** What one step of the counted-pointer machine does, told by the pointers there are and not by the
packed words. */
module SafePtrSteps {
  import opened SafePtrWords
  import opened SafePtr

  /** No step moves a pointer but the one it is about. */
  lemma PointersAfter(h: Heap, a: Action)
    requires Safe(h) && Enabled(h, a)
    ensures Next(h, a).ptrs ==
            match a
            case Make(p, k, home, t) => h.ptrs[p := Ptr(k, t, home)]
            case Assign(p, t) => h.ptrs[p := h.ptrs[p].(target := t)]
            case Drop(p) => h.ptrs - {p}
            case ReleaseMember(p) => h.ptrs - {p}
            case _ => h.ptrs
  {
    hide Release;
    match a
    case Assign(p, t) =>
      var q := h.ptrs[p];
      ReleaseOnlyPushes(AddRefTo(Retarget(h, p, t), q.kind, t), q.kind, q.target);
    case Drop(p) => ReleaseOnlyPushes(RemovePtr(h, p), h.ptrs[p].kind, h.ptrs[p].target);
    case ReleaseMember(p) => ReleaseOnlyPushes(RemovePtr(h, p), h.ptrs[p].kind, h.ptrs[p].target);
    case _ =>
  }

  ghost predicate Unpointed(ptrs: map<PtrId, Ptr>, o: ObjId) {
    forall k :: Refs(ptrs, k, o) == {}
  }

  /** What becomes of an object that loses a pointer: nothing, the contents go, or all of it goes. */
  datatype Fate = Stays | LosesContents | Goes

  function StartOf(fate: Fate, o: ObjId): seq<Frame> {
    match fate case Stays => [] case LosesContents => [Destroying(o)] case Goes => [Deleting(o)]
  }

  /** The object goes when nothing points to it any more.  Its contents go when the last TObj, or the
      last TMObj, leaves while something else still points to it.  While the contents are being
      destroyed neither starts. */
  ghost function FateOf(ptrs: map<PtrId, Ptr>, k: Kind, o: ObjId, busy: bool): Fate {
    if busy then Stays
    else if Unpointed(ptrs, o) then Goes
    else if k != Ref && Refs(ptrs, k, o) == {} then LosesContents
    else Stays
  }

  /** The same, by the numbers of pointers left. */
  function FateBy(k: Kind, own: nat, multi: nat, refs: nat, busy: bool): Fate {
    if busy then Stays
    else if own == 0 && multi == 0 && refs == 0 then Goes
    else if (k == Own && own == 0) || (k == Multi && multi == 0) then LosesContents
    else Stays
  }

  lemma FateByCounting(ptrs: map<PtrId, Ptr>, k: Kind, o: ObjId, busy: bool)
    ensures FateOf(ptrs, k, o, busy) == FateBy(k, |Refs(ptrs, Own, o)|, |Refs(ptrs, Multi, o)|, |Refs(ptrs, Ref, o)|, busy)
  {
    hide Refs;
    if Refs(ptrs, Own, o) == {} && Refs(ptrs, Multi, o) == {} && Refs(ptrs, Ref, o) == {} {
      forall j ensures Refs(ptrs, j, o) == {} { match j case Own => case Multi => case Ref => }
    }
  }

  lemma OwnerFate(k: Kind, own: nat, multi: nat, refs: nat, c: Counters, busy: bool, dying: bool, past: Past)
    requires k != Ref
    requires ObjOk(own + Bit(k == Own), multi + Bit(k == Multi), refs, c, busy, dying, past)
    ensures var d := Wrap(c.objData - (if k == Own then 1 else OWN_LIMIT));
            && Invalid(d) == Invalid(c.objData)
            && Invalid(MarkInvalidating(d))
            && FateBy(k, own, multi, refs, busy) ==
               (if !NoneLeft(k, d) then Stays
                else if CountField(d) == 0 && c.refData == 0 then Goes
                else if Busy(d) then Stays
                else LosesContents)
  {
    hide Invalid, OwnField, MultiField, CountField, Busy, MarkInvalidating, ClearBusy;
    var inv := Invalid(c.objData);
    Unpack(own, multi, busy, inv);
    Unpack(own, multi, true, true);
    assert Wrap(c.objData - (if k == Own then 1 else OWN_LIMIT)) == Pack(own, multi, busy, inv);
  }

  lemma RefFate(own: nat, multi: nat, refs: nat, c: Counters, busy: bool, dying: bool, past: Past)
    requires ObjOk(own, multi, refs + 1, c, busy, dying, past)
    ensures FateBy(Ref, own, multi, refs, busy) ==
            if Wrap(c.refData - 1) == 0 && CountField(c.objData) == 0 then Goes else Stays
  {
    hide Invalid, OwnField, MultiField, CountField, Busy, MarkInvalidating, ClearBusy;
    Unpack(own, multi, busy, Invalid(c.objData));
  }

  /** The release of a pointer that is already gone. */
  lemma ReleaseDoes(h: Heap, k: Kind, o: ObjId)
    requires o in h.objs && ObjInv(h, Some((k, o)), o)
    ensures var h', fate := Release(h, k, Some(o)), FateOf(h.ptrs, k, o, Destroying(o) in h.stack);
            && h'.stack == h.stack + StartOf(fate, o)
            && o in h'.objs
            && (Invalid(h'.objs[o].objData) <==> Invalid(h.objs[o].objData) || fate == LosesContents)
  {
    hide ObjOk, FateOf, FateBy, Refs, CountField, OwnField, MultiField, Busy, Invalid, MarkInvalidating, Wrap, NoneLeft;
    var busy, dying, past := Destroying(o) in h.stack, Deleting(o) in h.stack, PastOf(h, o);
    var own, multi, refs := |Refs(h.ptrs, Own, o)|, |Refs(h.ptrs, Multi, o)|, |Refs(h.ptrs, Ref, o)|;
    FateByCounting(h.ptrs, k, o, busy);
    if k == Ref {
      RefFate(own, multi, refs, h.objs[o], busy, dying, past);
    } else {
      OwnerFate(k, own, multi, refs, h.objs[o], busy, dying, past);
    }
  }

  predicate Lets(a: Action, p: PtrId) {
    a == Drop(p) || a == ReleaseMember(p) || (a.Assign? && a.p == p)
  }

  /** An assignment up to the release of the old target. */
  lemma AssignPending(h: Heap, p: PtrId, t: Option<ObjId>, o: ObjId)
    requires Inv(h) && p in h.ptrs && h.ptrs[p].target == Some(o) && MayPoint(h, h.ptrs[p].kind, t) && !Dying(h, t)
    ensures var k := h.ptrs[p].kind;
            var h1 := AddRefTo(Retarget(h, p, t), k, t);
            && o in h.objs && ObjInv(h1, Some((k, o)), o)
            && Invalid(h1.objs[o].objData) == Invalid(h.objs[o].objData)
            && h1.stack == h.stack
  {
    hide ObjOk, Refs, Count, Wrap, Invalid, Limit;
    var q, h0 := h.ptrs[p], RemovePtr(h, p);
    AssignSplits(h, p, t);
    AddedObject(h0, Pending(q), p, q.(target := t), o);
    if t == Some(o) {
      AddWords(q.kind, Count(h0, Pending(q), Own, o), Count(h0, Pending(q), Multi, o), Count(h0, Pending(q), Ref, o),
               h.objs[o], Destroying(o) in h.stack, PastOf(h, o));
    }
  }

  /** Letting go of an object starts what the pointers that are left call for, and nothing else: its
      deletion, or the destruction of its contents, which marks it as invalid. */
  lemma LettingGoStarts(h: Heap, a: Action, p: PtrId, o: ObjId)
    requires Inv(h) && Enabled(h, a) && Lets(a, p) && h.ptrs[p].target == Some(o) && !RevivesDying(h, a)
    ensures Safe(h)
    ensures var h' := Next(h, a);
            var fate := FateOf(h'.ptrs, h.ptrs[p].kind, o, Destroying(o) in h.stack);
            && h'.stack == h.stack + StartOf(fate, o)
            && o in h.objs && o in h'.objs
            && (Invalid(h'.objs[o].objData) <==> Invalid(h.objs[o].objData) || fate == LosesContents)
  {
    hide ObjInv, FateOf, Release, Invalid, Count;
    var k := h.ptrs[p].kind;
    PointersAfter(h, a);
    if a.Assign? {
      AssignPending(h, p, a.target, o);
      ReleaseDoes(AddRefTo(Retarget(h, p, a.target), k, a.target), k, o);
    } else {
      RemoveMakesPending(h, p);
      ReleaseDoes(RemovePtr(h, p), k, o);
    }
  }

  /** Once the contents are destroyed the object stays, invalid, unless nothing points to it any more. */
  lemma ContentsDestroyed(h: Heap, o: ObjId)
    requires Inv(h) && Enabled(h, Finish) && h.stack[|h.stack| - 1] == Destroying(o)
    ensures Safe(h)
    ensures var h', rest := Next(h, Finish), h.stack[..|h.stack| - 1];
            && h'.stack == rest + (if Unpointed(h.ptrs, o) then [Deleting(o)] else [])
            && o in h'.objs && Invalid(h'.objs[o].objData)
  {
    hide ObjOk, Refs, Wrap, CountField, ClearBusy, Invalid, Unpointed;
    assert Destroying(o) in h.stack && ObjInv(h, None, o);
    PopFrame(h);
    var own, multi, refs := |Refs(h.ptrs, Own, o)|, |Refs(h.ptrs, Multi, o)|, |Refs(h.ptrs, Ref, o)|;
    FinishWords(own, multi, refs, h.objs[o], PastOf(h, o));
    GuardLast(own, multi, refs, h.objs[o], PastOf(h, o));
    FateByCounting(h.ptrs, Ref, o, false);
  }

  lemma GuardLast(own: nat, multi: nat, refs: nat, c: Counters, past: Past)
    requires ObjOk(own, multi, refs, c, true, false, past)
    ensures Wrap(c.refData - 1) == refs
  {
  }
}
