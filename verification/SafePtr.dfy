/** Reference counting with ownership: three kinds of pointers to objects that share two packed
words per object.

The heap is a small-step machine.  A step is one thing a program may do between two instructions
of the library: create an object, create, assign or destroy a pointer, or take the next step of a
destruction that is under way.  Destructions nest: releasing a pointer while the contents of an
object are being destroyed may start the destruction of another object, so the machine keeps the
stack of the ones not finished yet.
*/
module SafePtr {
  import opened SafePtrWords

  type ObjId = nat
  type PtrId = nat

  datatype Option<+T> = None | Some(value: T)

  /** TObj, TMObj, TPtr. */
  datatype Kind = Own | Multi | Ref

  /** Where a pointer lives: in a variable of the program, or among the contents of an object. */
  datatype Home = Outside | Member(of: ObjId)

  datatype Ptr = Ptr(kind: Kind, target: Option<ObjId>, home: Home)

  datatype Counters = Counters(objData: Word, refData: Word)

  /** A destruction under way: the contents (the object stays), or the whole object. */
  datatype Frame = Destroying(obj: ObjId) | Deleting(obj: ObjId)

  /** Which kinds of pointers have ever pointed to an object. */
  datatype Past = Past(own: bool, multi: bool, ref: bool)

  const NEVER := Past(false, false, false)

  /** `deleted` and `past` are history: the deletions in order, and which kinds of pointers have pointed
      to which objects. */
  datatype Heap = Heap(
    objs: map<ObjId, Counters>,
    ptrs: map<PtrId, Ptr>,
    stack: seq<Frame>,
    deleted: seq<ObjId>,
    past: map<ObjId, Past>)

  const EMPTY := Heap(map[], map[], [], [], map[])

  // ---------------------------------------------------------------- the counters

  function SetCounters(h: Heap, o: ObjId, c: Counters): Heap {
    h.(objs := h.objs[o := c])
  }

  function Push(h: Heap, f: Frame): Heap {
    h.(stack := h.stack + [f])
  }

  function PastOf(h: Heap, o: ObjId): Past {
    if o in h.past then h.past[o] else NEVER
  }

  function Remember(past: Past, k: Kind): Past {
    match k case Own => past.(own := true) case Multi => past.(multi := true) case Ref => past.(ref := true)
  }

  function AddRef(h: Heap, k: Kind, o: ObjId): Heap
    requires o in h.objs
  {
    var c := h.objs[o];
    var c' := match k
              case Own => c.(objData := Wrap(c.objData + 1))
              case Multi => c.(objData := Wrap(c.objData + OWN_LIMIT))
              case Ref => c.(refData := Wrap(c.refData + 1));
    SetCounters(h, o, c').(past := h.past[o := Remember(PastOf(h, o), k)])
  }

  /** `(ObjData & nMask) == 0` for the mask of the kind being released. */
  predicate NoneLeft(k: Kind, d: Word) {
    if k == Own then OwnField(d) == 0 else MultiField(d) == 0
  }

  function ReleaseRefComplete(h: Heap, o: ObjId): Heap
    requires o in h.objs
  {
    if CountField(h.objs[o].objData) == 0 then Push(h, Deleting(o)) else h
  }

  function ReleaseRef(h: Heap, o: ObjId): Heap
    requires o in h.objs
  {
    var c := h.objs[o];
    var c' := c.(refData := Wrap(c.refData - 1));
    var h' := SetCounters(h, o, c');
    if c'.refData == 0 then ReleaseRefComplete(h', o) else h'
  }

  /** The start of `ReleaseObjComplete`, up to the destruction it calls. */
  function ReleaseObjComplete(h: Heap, k: Kind, o: ObjId): Heap
    requires o in h.objs
  {
    var c := h.objs[o];
    if CountField(c.objData) == 0 && c.refData == 0 then
      Push(h, Deleting(o))
    else if NoneLeft(k, c.objData) then
      if Busy(c.objData) then h
      else Push(SetCounters(h, o, Counters(MarkInvalidating(c.objData), Wrap(c.refData + 1))), Destroying(o))
    else h
  }

  function ReleaseObj(h: Heap, k: Kind, o: ObjId): Heap
    requires o in h.objs
  {
    var c := h.objs[o];
    var c' := c.(objData := Wrap(c.objData - (if k == Own then 1 else OWN_LIMIT)));
    var h' := SetCounters(h, o, c');
    if NoneLeft(k, c'.objData) then ReleaseObjComplete(h', k, o) else h'
  }

  function Release(h: Heap, k: Kind, t: Option<ObjId>): Heap
    requires t.Some? ==> t.value in h.objs
  {
    match t
    case None => h
    case Some(o) => if k == Ref then ReleaseRef(h, o) else ReleaseObj(h, k, o)
  }

  // ---------------------------------------------------------------- the machine

  datatype Action =
    | New(o: ObjId)
    | Make(p: PtrId, kind: Kind, home: Home, target: Option<ObjId>)
    | Assign(p: PtrId, target: Option<ObjId>)
    | Drop(p: PtrId)
    | ReleaseMember(p: PtrId)
    | Finish

  /** The steps of a destruction under way, as opposed to the program's own. */
  predicate IsCascade(a: Action) {
    a.ReleaseMember? || a.Finish?
  }

  predicate Framed(h: Heap, o: ObjId) {
    Destroying(o) in h.stack || Deleting(o) in h.stack
  }

  /** A pointer the program may touch: its own, or one among the contents of an object that is still
      there, even one being destroyed. */
  predicate Reachable(h: Heap, home: Home) {
    home.Member? ==> home.of in h.objs
  }

  ghost function Refs(ptrs: map<PtrId, Ptr>, k: Kind, o: ObjId): set<PtrId> {
    set p | p in ptrs && ptrs[p].kind == k && ptrs[p].target == Some(o)
  }

  ghost function Members(ptrs: map<PtrId, Ptr>, o: ObjId): set<PtrId> {
    set p | p in ptrs && ptrs[p].home == Member(o)
  }

  ghost function Limit(k: Kind): nat {
    match k case Own => OWN_LIMIT case Multi => MULTI_LIMIT case Ref => WORD - 1
  }

  /** There is room for one more pointer of kind `k` to `o`: the counts stay below 2^20, 2^10 and
      (leaving room for the guard) 2^32 - 1. */
  ghost predicate Room(h: Heap, k: Kind, o: ObjId) {
    |Refs(h.ptrs, k, o)| + 1 < Limit(k)
  }

  ghost predicate MayPoint(h: Heap, k: Kind, t: Option<ObjId>) {
    t.Some? ==> t.value in h.objs && Room(h, k, t.value)
  }

  predicate Dying(h: Heap, t: Option<ObjId>) {
    t.Some? && Deleting(t.value) in h.stack
  }

  /** The action points a counted pointer at an object whose deletion is under way, as a destructor
      does that makes a counted pointer to its own object. */
  predicate RevivesDying(h: Heap, a: Action) {
    match a
    case Make(_, _, _, t) => Dying(h, t)
    case Assign(_, t) => Dying(h, t)
    case _ => false
  }

  ghost predicate Enabled(h: Heap, a: Action) {
    match a
    case New(o) => o !in h.objs && o !in h.deleted
    case Make(p, k, home, t) => p !in h.ptrs && Reachable(h, home) && MayPoint(h, k, t)
    case Assign(p, t) => p in h.ptrs && Reachable(h, h.ptrs[p].home) && MayPoint(h, h.ptrs[p].kind, t)
    case Drop(p) => p in h.ptrs && Reachable(h, h.ptrs[p].home)
    case ReleaseMember(p) =>
      p in h.ptrs && h.stack != [] && h.ptrs[p].home == Member(h.stack[|h.stack| - 1].obj)
    case Finish => h.stack != [] && Members(h.ptrs, h.stack[|h.stack| - 1].obj) == {}
  }

  /** Every target is a live object, and so is the object of every frame. */
  ghost predicate Safe(h: Heap) {
    && (forall p | p in h.ptrs && h.ptrs[p].target.Some? :: h.ptrs[p].target.value in h.objs)
    && (forall i | 0 <= i < |h.stack| :: h.stack[i].obj in h.objs)
  }

  function RemovePtr(h: Heap, p: PtrId): Heap {
    h.(ptrs := h.ptrs - {p})
  }

  function Retarget(h: Heap, p: PtrId, t: Option<ObjId>): Heap
    requires p in h.ptrs
  {
    h.(ptrs := h.ptrs[p := h.ptrs[p].(target := t)])
  }

  function AddRefTo(h: Heap, k: Kind, t: Option<ObjId>): Heap
    requires t.Some? ==> t.value in h.objs
  {
    if t.Some? then AddRef(h, k, t.value) else h
  }

  /** The end of a destruction.  After the contents: the busy bit goes and the guard is released.
      After a deletion: the object is gone. */
  function FinishFrame(h: Heap): Heap
    requires h.stack != [] && h.stack[|h.stack| - 1].obj in h.objs
  {
    var f := h.stack[|h.stack| - 1];
    var h' := h.(stack := h.stack[..|h.stack| - 1]);
    match f
    case Destroying(o) => ReleaseRef(SetCounters(h', o, h.objs[o].(objData := ClearBusy(h.objs[o].objData))), o)
    case Deleting(o) => h'.(objs := h'.objs - {o}, deleted := h'.deleted + [o])
  }

  ghost function Next(h: Heap, a: Action): Heap
    requires Safe(h) && Enabled(h, a)
  {
    match a
    case New(o) => SetCounters(h, o, Counters(0, 0))
    case Make(p, k, home, t) => AddRefTo(h.(ptrs := h.ptrs[p := Ptr(k, t, home)]), k, t)
    case Assign(p, t) =>
      var q := h.ptrs[p];
      Release(AddRefTo(Retarget(h, p, t), q.kind, t), q.kind, q.target)
    case Drop(p) => Release(RemovePtr(h, p), h.ptrs[p].kind, h.ptrs[p].target)
    case ReleaseMember(p) => Release(RemovePtr(h, p), h.ptrs[p].kind, h.ptrs[p].target)
    case Finish => FinishFrame(h)
  }

  // ---------------------------------------------------------------- the invariant

  /** How many pointers of kind `k` to `o` the counters should show.  `pend` is a pointer that is
      already gone but not released yet. */
  ghost function Count(h: Heap, pend: Option<(Kind, ObjId)>, k: Kind, o: ObjId): nat {
    |Refs(h.ptrs, k, o)| + Bit(pend == Some((k, o)))
  }

  /** An object with `own`, `multi` and `refs` pointers to it, whose contents are (`destroying`) or
      which itself is (`deleting`) being destroyed, and which some pointers have (`past`) pointed to: the
      packed words say exactly that, a deletion is under way exactly when nothing points any more to an
      object that something has pointed to, and an object that some TObj (TMObj) has pointed to is valid
      only while a TObj (TMObj) does. */
  ghost predicate ObjOk(own: nat, multi: nat, refs: nat, c: Counters, destroying: bool, deleting: bool, past: Past) {
    && own < OWN_LIMIT && multi < MULTI_LIMIT && refs < WORD - 1
    && c.objData == Pack(own, multi, destroying, Invalid(c.objData))
    && c.refData == refs + Bit(destroying)
    && (destroying ==> Invalid(c.objData))
    && (deleting ==> own == multi == c.refData == 0)
    && (past != NEVER && !deleting ==> own + multi + c.refData > 0)
    && (!deleting && !Invalid(c.objData) ==> (past.own ==> own > 0) && (past.multi ==> multi > 0))
  }

  ghost predicate ObjInv(h: Heap, pend: Option<(Kind, ObjId)>, o: ObjId)
    requires o in h.objs
  {
    ObjOk(Count(h, pend, Own, o), Count(h, pend, Multi, o), Count(h, pend, Ref, o), h.objs[o],
          Destroying(o) in h.stack, Deleting(o) in h.stack, PastOf(h, o))
  }

  ghost predicate FramesOk(h: Heap) {
    && (forall i | 0 <= i < |h.stack| :: h.stack[i].obj in h.objs)
    && (forall i, j | 0 <= i < j < |h.stack| :: h.stack[i].obj != h.stack[j].obj)
  }

  ghost predicate HistoryOk(h: Heap) {
    && (forall i, j | 0 <= i < j < |h.deleted| :: h.deleted[i] != h.deleted[j])
    && (forall o | o in h.deleted :: o !in h.objs)
    && (forall o | o in h.past :: o in h.objs || o in h.deleted)
  }

  ghost predicate PtrsOk(h: Heap) {
    forall p | p in h.ptrs ::
      && (h.ptrs[p].target.Some? ==> h.ptrs[p].target.value in h.objs)
      && (h.ptrs[p].home.Member? ==> h.ptrs[p].home.of in h.objs)
  }

  ghost predicate InvPending(h: Heap, pend: Option<(Kind, ObjId)>) {
    && PtrsOk(h)
    && FramesOk(h)
    && HistoryOk(h)
    && (forall o | o in h.objs :: ObjInv(h, pend, o))
    && (pend.Some? ==> pend.value.1 in h.objs)
  }

  ghost predicate Inv(h: Heap) {
    InvPending(h, None)
  }

  // ---------------------------------------------------------------- every step keeps the invariant

  lemma RefsWithout(ptrs: map<PtrId, Ptr>, p: PtrId, k: Kind, o: ObjId)
    requires p in ptrs
    ensures |Refs(ptrs, k, o)|
         == |Refs(ptrs - {p}, k, o)| + Bit(ptrs[p].kind == k && ptrs[p].target == Some(o))
  {
    if p in Refs(ptrs, k, o) {
      assert Refs(ptrs - {p}, k, o) == Refs(ptrs, k, o) - {p};
    } else {
      assert Refs(ptrs - {p}, k, o) == Refs(ptrs, k, o);
    }
  }

  lemma RefsWith(ptrs: map<PtrId, Ptr>, p: PtrId, q: Ptr, k: Kind, o: ObjId)
    ensures |Refs(ptrs[p := q], k, o)|
         == |Refs(ptrs - {p}, k, o)| + Bit(q.kind == k && q.target == Some(o))
  {
    RefsWithout(ptrs[p := q], p, k, o);
    assert ptrs[p := q] - {p} == ptrs - {p};
  }

  /** Taking a pointer away leaves its release pending. */
  lemma RemoveMakesPending(h: Heap, p: PtrId)
    requires Inv(h) && p in h.ptrs
    ensures var q := h.ptrs[p];
            InvPending(RemovePtr(h, p), if q.target.Some? then Some((q.kind, q.target.value)) else None)
  {
    hide ObjOk, Refs;
    var q := h.ptrs[p];
    var pend := if q.target.Some? then Some((q.kind, q.target.value)) else None;
    var h' := RemovePtr(h, p);
    forall o | o in h'.objs
      ensures ObjInv(h', pend, o)
    {
      assert ObjInv(h, None, o);
      RefsWithout(h.ptrs, p, Own, o);
      RefsWithout(h.ptrs, p, Multi, o);
      RefsWithout(h.ptrs, p, Ref, o);
    }
  }

  /** `h'` differs from `h` only in the counters of `o` and in at most one new frame, on `o`. */
  ghost predicate Touched(h: Heap, h': Heap, o: ObjId) {
    && h'.ptrs == h.ptrs && h'.deleted == h.deleted && h'.past == h.past
    && h'.objs.Keys == h.objs.Keys
    && (forall x | x in h.objs && x != o :: h'.objs[x] == h.objs[x])
    && (|| h'.stack == h.stack
        || (h'.stack == h.stack + [Destroying(o)] && !Framed(h, o))
        || (h'.stack == h.stack + [Deleting(o)] && !Framed(h, o)))
  }

  /** The invariant, leaving out what it says about `o`. */
  ghost predicate InvExcept(h: Heap, o: ObjId) {
    && PtrsOk(h)
    && FramesOk(h)
    && HistoryOk(h)
    && o in h.objs
    && (forall x | x in h.objs && x != o :: ObjInv(h, None, x))
  }

  lemma PendingIsExcept(h: Heap, k: Kind, o: ObjId)
    requires InvPending(h, Some((k, o)))
    ensures InvExcept(h, o)
  {
    hide ObjOk, Refs;
    forall x | x in h.objs && x != o
      ensures ObjInv(h, None, x)
    {
      assert ObjInv(h, Some((k, o)), x);
    }
  }

  lemma TouchedKeeps(h: Heap, h': Heap, o: ObjId)
    requires InvExcept(h, o) && Touched(h, h', o) && ObjInv(h', None, o)
    ensures Inv(h')
  {
    hide ObjOk, Refs;
    forall x | x in h'.objs && x != o
      ensures ObjInv(h', None, x)
    {
      assert ObjInv(h, None, x);
    }
    assert FramesOk(h') by {
      forall i | 0 <= i < |h.stack| && !Framed(h, o)
        ensures h.stack[i].obj != o
      {
        assert h.stack[i] in h.stack;
      }
    }
  }

  /** One TPtr less, on the words alone. */
  lemma RefWords(own: nat, multi: nat, refs: nat, c: Counters, destroying: bool, deleting: bool, past: Past)
    requires ObjOk(own, multi, refs + 1, c, destroying, deleting, past)
    ensures var c' := c.(refData := Wrap(c.refData - 1));
            if c'.refData == 0 && CountField(c'.objData) == 0
            then !destroying && !deleting && ObjOk(own, multi, refs, c', false, true, past)
            else ObjOk(own, multi, refs, c', destroying, deleting, past)
  {
    hide Invalid, OwnField, MultiField, CountField, Busy, MarkInvalidating, ClearBusy;
    Unpack(own, multi, destroying, Invalid(c.objData));
  }

  /** One TObj or TMObj less, on the words alone. */
  lemma ObjWords(k: Kind, own: nat, multi: nat, refs: nat, c: Counters, destroying: bool, deleting: bool, past: Past)
    requires k != Ref
    requires ObjOk(own + Bit(k == Own), multi + Bit(k == Multi), refs, c, destroying, deleting, past)
    ensures var c' := c.(objData := Wrap(c.objData - (if k == Own then 1 else OWN_LIMIT)));
            var marked := Counters(MarkInvalidating(c'.objData), Wrap(c'.refData + 1));
            if CountField(c'.objData) == 0 && c'.refData == 0
            then NoneLeft(k, c'.objData) && !destroying && !deleting && ObjOk(own, multi, refs, c', false, true, past)
            else if NoneLeft(k, c'.objData) && !Busy(c'.objData)
            then !destroying && !deleting && ObjOk(own, multi, refs, marked, true, false, past)
            else ObjOk(own, multi, refs, c', destroying, deleting, past)
    ensures Invalid(Wrap(c.objData - (if k == Own then 1 else OWN_LIMIT))) == Invalid(c.objData)
  {
    hide Invalid, OwnField, MultiField, CountField, Busy, MarkInvalidating, ClearBusy;
    var inv := Invalid(c.objData);
    Unpack(own, multi, destroying, inv);
    Unpack(own, multi, true, true);
    assert Wrap(c.objData - (if k == Own then 1 else OWN_LIMIT)) == Pack(own, multi, destroying, inv);
  }

  lemma ReleaseRefTouches(h: Heap, o: ObjId)
    requires o in h.objs && ObjInv(h, Some((Ref, o)), o)
    ensures Touched(h, ReleaseRef(h, o), o) && ObjInv(ReleaseRef(h, o), None, o)
  {
    hide ObjOk, CountField, Refs, Wrap;
    RefWords(Count(h, None, Own, o), Count(h, None, Multi, o), Count(h, None, Ref, o), h.objs[o],
             Destroying(o) in h.stack, Deleting(o) in h.stack, PastOf(h, o));
  }

  lemma ReleaseObjTouches(h: Heap, k: Kind, o: ObjId)
    requires k != Ref && o in h.objs && ObjInv(h, Some((k, o)), o)
    ensures Touched(h, ReleaseObj(h, k, o), o) && ObjInv(ReleaseObj(h, k, o), None, o)
  {
    hide ObjOk, CountField, OwnField, MultiField, Busy, MarkInvalidating, Refs, Wrap, NoneLeft;
    ObjWords(k, Count(h, None, Own, o), Count(h, None, Multi, o), Count(h, None, Ref, o), h.objs[o],
             Destroying(o) in h.stack, Deleting(o) in h.stack, PastOf(h, o));
  }

  lemma ReleaseTouches(h: Heap, k: Kind, o: ObjId)
    requires o in h.objs && ObjInv(h, Some((k, o)), o)
    ensures Touched(h, Release(h, k, Some(o)), o) && ObjInv(Release(h, k, Some(o)), None, o)
  {
    hide ObjInv, Touched, ReleaseRef, ReleaseObj;
    if k == Ref { ReleaseRefTouches(h, o); } else { ReleaseObjTouches(h, k, o); }
  }

  lemma ReleaseKeeps(h: Heap, k: Kind, t: Option<ObjId>)
    requires InvPending(h, if t.Some? then Some((k, t.value)) else None)
    ensures Inv(Release(h, k, t))
  {
    if t.Some? {
      hide ObjOk, Refs, Touched, Release;
      assert ObjInv(h, Some((k, t.value)), t.value);
      ReleaseTouches(h, k, t.value);
      PendingIsExcept(h, k, t.value);
      TouchedKeeps(h, Release(h, k, t), t.value);
    }
  }

  /** One pointer more, on the words alone. */
  lemma AddWords(k: Kind, own: nat, multi: nat, refs: nat, c: Counters, destroying: bool, past: Past)
    requires ObjOk(own, multi, refs, c, destroying, false, past)
    requires (match k case Own => own case Multi => multi case Ref => refs) + 1 < Limit(k)
    ensures match k
            case Own => ObjOk(own + 1, multi, refs, c.(objData := Wrap(c.objData + 1)), destroying, false, past.(own := true))
            case Multi => ObjOk(own, multi + 1, refs, c.(objData := Wrap(c.objData + OWN_LIMIT)), destroying, false, past.(multi := true))
            case Ref => ObjOk(own, multi, refs + 1, c.(refData := Wrap(c.refData + 1)), destroying, false, past.(ref := true))
    ensures k == Own ==> Invalid(Wrap(c.objData + 1)) == Invalid(c.objData)
    ensures k == Multi ==> Invalid(Wrap(c.objData + OWN_LIMIT)) == Invalid(c.objData)
  {
    hide Invalid, OwnField, MultiField, CountField, Busy, MarkInvalidating, ClearBusy, Pack;
    var inv := Invalid(c.objData);
    PackMore(own, multi, destroying, inv);
    match k
    case Own => Unpack(own + 1, multi, destroying, inv);
    case Multi => Unpack(own, multi + 1, destroying, inv);
    case Ref =>
  }

  lemma AddedObject(h: Heap, pend: Option<(Kind, ObjId)>, p: PtrId, q: Ptr, o: ObjId)
    requires p !in h.ptrs && o in h.objs && ObjInv(h, pend, o)
    requires q.target.Some? ==> q.target.value in h.objs && Deleting(q.target.value) !in h.stack
    requires q.target.Some? ==> Count(h, pend, q.kind, q.target.value) + 1 < Limit(q.kind)
    ensures ObjInv(AddRefTo(h.(ptrs := h.ptrs[p := q]), q.kind, q.target), pend, o)
  {
    hide ObjOk, Refs, Wrap;
    assert h.ptrs - {p} == h.ptrs;
    RefsWith(h.ptrs, p, q, Own, o);
    RefsWith(h.ptrs, p, q, Multi, o);
    RefsWith(h.ptrs, p, q, Ref, o);
    if q.target == Some(o) {
      AddWords(q.kind, Count(h, pend, Own, o), Count(h, pend, Multi, o), Count(h, pend, Ref, o), h.objs[o],
               Destroying(o) in h.stack, PastOf(h, o));
    }
  }

  /** Giving pointer `p` the contents `q` and counting it keeps the invariant. */
  lemma AddKeeps(h: Heap, pend: Option<(Kind, ObjId)>, p: PtrId, q: Ptr)
    requires InvPending(h, pend) && p !in h.ptrs
    requires Reachable(h, q.home)
    requires q.target.Some? ==> q.target.value in h.objs && Deleting(q.target.value) !in h.stack
    requires q.target.Some? ==> Count(h, pend, q.kind, q.target.value) + 1 < Limit(q.kind)
    ensures InvPending(AddRefTo(h.(ptrs := h.ptrs[p := q]), q.kind, q.target), pend)
  {
    hide ObjInv, Count, Wrap;
    var h' := AddRefTo(h.(ptrs := h.ptrs[p := q]), q.kind, q.target);
    forall o | o in h'.objs
      ensures ObjInv(h', pend, o)
    {
      AddedObject(h, pend, p, q, o);
    }
  }

  lemma MakeKeeps(h: Heap, p: PtrId, q: Ptr)
    requires Inv(h) && p !in h.ptrs && Reachable(h, q.home) && MayPoint(h, q.kind, q.target) && !Dying(h, q.target)
    ensures Inv(AddRefTo(h.(ptrs := h.ptrs[p := q]), q.kind, q.target))
  {
    AddKeeps(h, None, p, q);
  }

  ghost function Pending(q: Ptr): Option<(Kind, ObjId)> {
    if q.target.Some? then Some((q.kind, q.target.value)) else None
  }

  /** An assignment is a removal, whose release stays pending, followed by an addition. */
  lemma AssignSplits(h: Heap, p: PtrId, t: Option<ObjId>)
    requires Inv(h) && p in h.ptrs && MayPoint(h, h.ptrs[p].kind, t)
    ensures var h0, q' := RemovePtr(h, p), h.ptrs[p].(target := t);
            && InvPending(h0, Pending(h.ptrs[p]))
            && (t.Some? ==> Count(h0, Pending(h.ptrs[p]), q'.kind, t.value) + 1 < Limit(q'.kind))
            && h0.(ptrs := h0.ptrs[p := q']) == Retarget(h, p, t)
  {
    hide InvPending, Refs, ObjInv;
    RemoveMakesPending(h, p);
    if t.Some? {
      RefsWithout(h.ptrs, p, h.ptrs[p].kind, t.value);
    }
    var h0, q' := RemovePtr(h, p), h.ptrs[p].(target := t);
    assert h0.ptrs[p := q'] == h.ptrs[p := q'];
  }

  lemma AssignKeeps(h: Heap, p: PtrId, t: Option<ObjId>)
    requires Inv(h) && p in h.ptrs && Reachable(h, h.ptrs[p].home) && MayPoint(h, h.ptrs[p].kind, t) && !Dying(h, t)
    ensures Inv(Release(AddRefTo(Retarget(h, p, t), h.ptrs[p].kind, t), h.ptrs[p].kind, h.ptrs[p].target))
  {
    hide ObjOk, Refs, Release, InvPending, AddRefTo, Count;
    var q := h.ptrs[p];
    AssignSplits(h, p, t);
    AddKeeps(RemovePtr(h, p), Pending(q), p, q.(target := t));
    ReleaseKeeps(AddRefTo(Retarget(h, p, t), q.kind, t), q.kind, q.target);
  }

  lemma DropKeeps(h: Heap, p: PtrId)
    requires Inv(h) && p in h.ptrs
    ensures Inv(Release(RemovePtr(h, p), h.ptrs[p].kind, h.ptrs[p].target))
  {
    RemoveMakesPending(h, p);
    ReleaseKeeps(RemovePtr(h, p), h.ptrs[p].kind, h.ptrs[p].target);
  }

  /** The end of a destruction, on the words alone. */
  lemma FinishWords(own: nat, multi: nat, refs: nat, c: Counters, past: Past)
    requires ObjOk(own, multi, refs, c, true, false, past)
    ensures var c' := Counters(ClearBusy(c.objData), Wrap(c.refData - 1));
            && (CountField(c'.objData) == 0 <==> own == multi == 0)
            && ObjOk(own, multi, refs, c', false, c'.refData == 0 && CountField(c'.objData) == 0, past)
            && Invalid(c'.objData)
  {
    hide Invalid, OwnField, MultiField, CountField, Busy, MarkInvalidating, ClearBusy;
    Unpack(own, multi, true, true);
    Unpack(own, multi, false, true);
  }

  /** The frames of one object, seen from the stack without its top. */
  lemma TopFrame(s: seq<Frame>, f: Frame)
    requires forall i | 0 <= i < |s| :: s[i].obj != f.obj
    ensures forall x | x != f.obj ::
              && (Destroying(x) in s + [f] <==> Destroying(x) in s)
              && (Deleting(x) in s + [f] <==> Deleting(x) in s)
    ensures Destroying(f.obj) !in s && Deleting(f.obj) !in s
    ensures f in s + [f]
    ensures Deleting(f.obj) in s + [f] <==> f.Deleting?
  {
  }

  lemma PopObject(h: Heap, s: seq<Frame>, f: Frame, x: ObjId)
    requires x in h.objs && ObjInv(h, None, x) && h.stack == s + [f] && x != f.obj
    ensures ObjInv(h.(stack := s), None, x)
  {
    hide ObjOk, Refs;
  }

  lemma PopFrame(h: Heap)
    requires Inv(h) && h.stack != []
    ensures var f, h' := h.stack[|h.stack| - 1], h.(stack := h.stack[..|h.stack| - 1]);
            && InvExcept(h', f.obj)
            && !Framed(h', f.obj)
            && f in h.stack && (Deleting(f.obj) in h.stack <==> f.Deleting?)
  {
    hide ObjInv;
    var f, s := h.stack[|h.stack| - 1], h.stack[..|h.stack| - 1];
    assert h.stack == s + [f];
    TopFrame(s, f);
    forall x | x in h.objs && x != f.obj
      ensures ObjInv(h.(stack := s), None, x)
    {
      PopObject(h, s, f, x);
    }
  }

  lemma FinishDestroyingKeeps(h: Heap)
    requires Inv(h) && h.stack != [] && h.stack[|h.stack| - 1].Destroying?
    ensures Inv(FinishFrame(h))
  {
    hide ObjOk, Refs, Wrap, CountField, ClearBusy, InvExcept;
    var o, h0 := h.stack[|h.stack| - 1].obj, h.(stack := h.stack[..|h.stack| - 1]);
    var h' := FinishFrame(h);
    PopFrame(h);
    assert ObjInv(h, None, o);
    hide InvPending;
    FinishWords(Count(h, None, Own, o), Count(h, None, Multi, o), Count(h, None, Ref, o), h.objs[o], PastOf(h, o));
    assert ObjInv(h', None, o);
    TouchedKeeps(h0, h', o);
  }

  /** Nothing points to an object that is being deleted. */
  lemma DeletingMeansUnreferenced(h: Heap, o: ObjId)
    requires Inv(h) && Deleting(o) in h.stack
    ensures o in h.objs && Destroying(o) !in h.stack
    ensures forall p | p in h.ptrs :: h.ptrs[p].target != Some(o)
  {
    assert ObjInv(h, None, o);
    forall p | p in h.ptrs
      ensures h.ptrs[p].target != Some(o)
    {
      assert p !in Refs(h.ptrs, h.ptrs[p].kind, o);
    }
  }

  lemma FinishDeletingKeeps(h: Heap)
    requires Inv(h) && h.stack != [] && h.stack[|h.stack| - 1].Deleting?
    requires Members(h.ptrs, h.stack[|h.stack| - 1].obj) == {}
    ensures Inv(FinishFrame(h))
  {
    hide ObjOk, Refs, Members;
    var o, h0 := h.stack[|h.stack| - 1].obj, h.(stack := h.stack[..|h.stack| - 1]);
    var h' := FinishFrame(h);
    PopFrame(h);
    DeletingMeansUnreferenced(h, o);
    forall x | x in h'.objs
      ensures ObjInv(h', None, x)
    {
      assert ObjInv(h0, None, x);
    }
    assert FramesOk(h') by { ForgetFrames(h0, o); }
    assert PtrsOk(h') by { ForgetPtrs(h, o); }
  }

  lemma ForgetFrames(h: Heap, o: ObjId)
    requires FramesOk(h) && !Framed(h, o)
    ensures FramesOk(h.(objs := h.objs - {o}))
  {
    forall i | 0 <= i < |h.stack| ensures h.stack[i].obj != o {
      assert h.stack[i] in h.stack;
    }
  }

  lemma ForgetPtrs(h: Heap, o: ObjId)
    requires PtrsOk(h) && Members(h.ptrs, o) == {} && forall p | p in h.ptrs :: h.ptrs[p].target != Some(o)
    ensures PtrsOk(h.(objs := h.objs - {o}))
  {
    forall p | p in h.ptrs ensures h.ptrs[p].home != Member(o) {
      assert p !in Members(h.ptrs, o);
    }
  }

  lemma FreshObject(h: Heap, o: ObjId)
    requires Inv(h) && o !in h.objs && o !in h.deleted
    ensures ObjInv(SetCounters(h, o, Counters(0, 0)), None, o)
  {
    hide ObjOk, Refs, ObjInv;
    UnknownIsUnused(h, o);
    ZeroIsFine();
    ZeroObject(SetCounters(h, o, Counters(0, 0)), o);
  }

  lemma UnknownIsUnused(h: Heap, o: ObjId)
    requires PtrsOk(h) && FramesOk(h) && HistoryOk(h) && o !in h.objs && o !in h.deleted
    ensures forall k :: Refs(h.ptrs, k, o) == {}
    ensures !Framed(h, o) && PastOf(h, o) == NEVER
  {
  }

  lemma ZeroIsFine()
    ensures ObjOk(0, 0, 0, Counters(0, 0), false, false, NEVER)
  {
  }

  lemma ZeroObject(h: Heap, o: ObjId)
    requires o in h.objs && h.objs[o] == Counters(0, 0) && !Framed(h, o) && PastOf(h, o) == NEVER
    requires forall k :: Refs(h.ptrs, k, o) == {}
    requires ObjOk(0, 0, 0, Counters(0, 0), false, false, NEVER)
    ensures ObjInv(h, None, o)
  {
    hide ObjOk, Refs;
    assert Refs(h.ptrs, Own, o) == {} && Refs(h.ptrs, Multi, o) == {} && Refs(h.ptrs, Ref, o) == {};
  }

  lemma NewKeeps(h: Heap, o: ObjId)
    requires Inv(h) && o !in h.objs && o !in h.deleted
    ensures Inv(SetCounters(h, o, Counters(0, 0)))
  {
    hide ObjOk, Refs;
    var h' := SetCounters(h, o, Counters(0, 0));
    forall x | x in h'.objs
      ensures ObjInv(h', None, x)
    {
      if x == o {
        FreshObject(h, o);
      } else {
        assert ObjInv(h, None, x);
      }
    }
  }

  /** Pointing at an object under deletion breaks the invariant, whatever is released besides. */
  lemma PointingAtDying(h: Heap, p: PtrId, o: ObjId)
    requires o in h.objs && p in h.ptrs && h.ptrs[p].target == Some(o) && Deleting(o) in h.stack
    ensures !ObjInv(h, None, o)
  {
    assert p in Refs(h.ptrs, h.ptrs[p].kind, o);
  }

  /** A release takes nothing off the stack and moves no pointer. */
  lemma ReleaseOnlyPushes(h: Heap, k: Kind, t: Option<ObjId>)
    requires t.Some? ==> t.value in h.objs
    ensures var h' := Release(h, k, t);
            h'.ptrs == h.ptrs && h'.objs.Keys == h.objs.Keys && h.stack <= h'.stack
  {
  }

  lemma RevivingBreaks(h: Heap, a: Action)
    requires Inv(h) && Enabled(h, a) && RevivesDying(h, a)
    ensures !Inv(Next(h, a))
  {
    hide Release, ObjInv;
    match a
    case Make(p, k, home, t) => PointingAtDying(Next(h, a), p, t.value);
    case Assign(p, t) =>
      var q := h.ptrs[p];
      var h1 := AddRefTo(Retarget(h, p, t), q.kind, t);
      ReleaseOnlyPushes(h1, q.kind, q.target);
      assert Deleting(t.value) in h1.stack;
      PointingAtDying(Next(h, a), p, t.value);
  }

  lemma OtherStepKeeps(h: Heap, a: Action)
    requires Inv(h) && Enabled(h, a) && !RevivesDying(h, a)
    ensures Inv(Next(h, a))
  {
    hide ObjOk, Refs, FinishFrame;
    match a
    case New(o) => NewKeeps(h, o);
    case Make(p, k, home, t) => MakeKeeps(h, p, Ptr(k, t, home));
    case Assign(p, t) => AssignKeeps(h, p, t);
    case Drop(p) => DropKeeps(h, p);
    case ReleaseMember(p) => DropKeeps(h, p);
    case Finish =>
      if h.stack[|h.stack| - 1].Destroying? { FinishDestroyingKeeps(h); } else { FinishDeletingKeeps(h); }
  }

  /** A step keeps the invariant exactly if it does not point at an object under deletion. */
  lemma StepKeeps(h: Heap, a: Action)
    requires Inv(h) && Enabled(h, a)
    ensures Safe(h)
    ensures Inv(Next(h, a)) <==> !RevivesDying(h, a)
  {
    hide ObjInv, Next;
    if RevivesDying(h, a) { RevivingBreaks(h, a); } else { OtherStepKeeps(h, a); }
  }

  // ---------------------------------------------------------------- an object deleted twice

  /** Nothing counts an object under deletion any more. */
  lemma DyingWords(h: Heap, o: ObjId)
    requires Inv(h) && Deleting(o) in h.stack
    ensures o in h.objs && h.objs[o].refData == 0 && CountField(h.objs[o].objData) == 0
    ensures forall k :: Refs(h.ptrs, k, o) == {}
  {
    assert ObjInv(h, None, o);
    DeletingMeansUnreferenced(h, o);
    Unpack(0, 0, false, Invalid(h.objs[o].objData));
  }

  /** A second deletion of `o` under way, which some TPtr has pointed to by now. */
  function DyingTwice(h: Heap, o: ObjId): Heap {
    Push(h, Deleting(o)).(past := h.past[o := PastOf(h, o).(ref := true)])
  }

  /** One TPtr more and one less, on the counters alone. */
  lemma CountedOnce(h: Heap, o: ObjId)
    requires o in h.objs && h.objs[o].refData == 0 && CountField(h.objs[o].objData) == 0
    ensures ReleaseRef(AddRef(h, Ref, o), o) == DyingTwice(h, o)
  {
    hide CountField;
    assert h.objs[o := h.objs[o]] == h.objs;
  }

  lemma TwiceIsBroken(h: Heap, o: ObjId)
    requires Deleting(o) in h.stack
    ensures !Inv(DyingTwice(h, o))
  {
    var i :| 0 <= i < |h.stack| && h.stack[i] == Deleting(o);
    var s := h.stack + [Deleting(o)];
    assert s[i].obj == s[|h.stack|].obj;
  }

  /** A destructor that makes a TPtr to its own object and lets it go starts a second deletion. */
  lemma SelfPointerDeletesTwice(h: Heap, o: ObjId, p: PtrId)
    requires Inv(h) && Deleting(o) in h.stack && p !in h.ptrs
    ensures var make := Make(p, Ref, Outside, Some(o));
            && Safe(h) && Enabled(h, make) && !Inv(Next(h, make))
            && Safe(Next(h, make)) && Enabled(Next(h, make), Drop(p))
            && Next(Next(h, make), Drop(p)) == DyingTwice(h, o)
            && !Inv(DyingTwice(h, o))
  {
    hide ObjInv, CountField, Wrap;
    DyingWords(h, o);
    var make := Make(p, Ref, Outside, Some(o));
    StepKeeps(h, make);
    var h1 := Next(h, make);
    assert RemovePtr(h1, p) == AddRef(h, Ref, o) by { assert h1.ptrs - {p} == h.ptrs; }
    CountedOnce(h, o);
    TwiceIsBroken(h, o);
  }
}
