/** The serializers at work on streams. */
module SaveLoadStream {
  import opened SaveLoad

  class OutStream {
    var data: seq<Byte>

    constructor ()
      ensures data == []
    {
      data := [];
    }

    method Write(b: seq<Byte>)
      modifies this
      ensures data == old(data) + b
    {
      data := data + b;
    }
  }

  class InStream {
    /** What has not been read */
    var data: seq<Byte>

    constructor (b: seq<Byte>)
      ensures data == b
    {
      data := b;
    }

    /** As much of `n` bytes as there is */
    method Read(n: nat) returns (b: seq<Byte>)
      modifies this
      ensures |b| == (if n <= |old(data)| then n else |old(data)|) && old(data) == b + data
    {
      var k := if n <= |data| then n else |data|;
      b := data[..k];
      data := data[k..];
    }
  }

  datatype Outcome<T> = Ok(value: T) | Err(error: Error)

  /** A stream operation did what loading from the bytes does. */
  ghost predicate Did<T>(r: Outcome<T>, l: Loaded<T>, rest: seq<Byte>) {
    if l.Done? then r == Ok(l.value) && rest == l.rest else r == Err(l.error)
  }

  // ---------------------------------------------------------------- saving

  method SaveNumber(out: OutStream, n: nat, k: nat)
    modifies out
    ensures out.data == old(out.data) + LittleEndian(n, k)
  {
    out.Write(LittleEndian(n, k));
  }

  /** `SaveSize` */
  method SaveSizeTo(out: OutStream, n: nat)
    modifies out
    ensures out.data == old(out.data) + SaveSize(n)
  {
    hide LittleEndian;
    if n < MARKER {
      SaveNumber(out, n, 4);
    } else {
      SaveNumber(out, MARKER, 4);
      SaveNumber(out, n, 8);
    }
  }

  /** `Save` */
  method SaveTo(out: OutStream, v: Value, t: Type)
    requires HasType(v, t)
    modifies out
    ensures out.data == old(out.data) + Save(v, t)
    decreases t, 1, 0
  {
    hide SaveSize, SaveAll, SaveFields, AllHaveType, FieldsHaveType, Distinct;
    match t
    case Pod(_) => out.Write(v.bytes);
    case Vector(elem) => SaveContainer(out, v.items, elem);
    case PairOf(x, y) =>
      SaveTo(out, v.first, x);
      SaveTo(out, v.second, y);
    case Tuple(_) => SaveReversed(out, v.items, t);
    case SetOf(elem) => SaveContainer(out, v.items, elem);
    case MapOf(elem) => SaveContainer(out, v.items, elem);
    case Optional(elem) =>
      out.Write([if v.Some? then 1 else 0]);
      if v.Some? { SaveTo(out, v.value, elem); }
    case Variant(alts) =>
      out.Write([v.index]);
      SaveTo(out, v.value, alts[v.index]);
  }

  /** The size, then the elements */
  method SaveContainer(out: OutStream, vs: seq<Value>, t: Type)
    requires AllHaveType(vs, t)
    modifies out
    ensures out.data == old(out.data) + (SaveSize(|vs|) + SaveAll(vs, t))
    decreases t, 3, 0
  {
    hide SaveSize, SaveAll, AllHaveType;
    SaveSizeTo(out, |vs|);
    SaveRange(out, vs, t);
  }

  /** `SaveIterRange` */
  method SaveRange(out: OutStream, vs: seq<Value>, t: Type)
    requires AllHaveType(vs, t)
    modifies out
    ensures out.data == old(out.data) + SaveAll(vs, t)
    decreases t, 2, 0
  {
    hide HasType, Save;
    var i := 0;
    assert vs[0..] == vs;
    while i < |vs|
      invariant 0 <= i <= |vs| && AllHaveType(vs[i..], t)
      invariant old(out.data) + SaveAll(vs, t) == out.data + SaveAll(vs[i..], t)
    {
      ghost var rest := vs[i..];
      assert rest[0] == vs[i] && rest[1..] == vs[i + 1..];
      ghost var was := out.data;
      SaveTo(out, vs[i], t);
      assert was + (Save(vs[i], t) + SaveAll(vs[i + 1..], t)) == out.data + SaveAll(vs[i + 1..], t);
      i := i + 1;
    }
  }

  /** Fields are packed in reverse order. */
  method SaveReversed(out: OutStream, vs: seq<Value>, t: Type)
    requires t.Tuple? && |vs| == |t.fields| && FieldsHaveType(vs, t, |t.fields|)
    modifies out
    ensures out.data == old(out.data) + SaveFields(vs, t, |t.fields|)
    decreases t, 0, 0
  {
    hide HasType, Save;
    var k := |t.fields|;
    while k > 0
      invariant 0 <= k <= |t.fields| && FieldsHaveType(vs, t, k)
      invariant old(out.data) + SaveFields(vs, t, |t.fields|) == out.data + SaveFields(vs, t, k)
    {
      k := k - 1;
      ghost var was := out.data;
      SaveTo(out, vs[k], t.fields[k]);
      assert was + (Save(vs[k], t.fields[k]) + SaveFields(vs, t, k)) == out.data + SaveFields(vs, t, k);
    }
  }

  // ---------------------------------------------------------------- loading

  /** `LoadPodType` */
  method LoadPodFrom(inp: InStream, n: nat) returns (r: Outcome<seq<Byte>>)
    modifies inp
    ensures Did(r, LoadPod(n, old(inp.data)), inp.data)
  {
    ghost var was := inp.data;
    var b := inp.Read(n);
    if |b| != n { return Err(EndOfInput); }
    assert was[..n] == b && was[n..] == inp.data;
    return Ok(b);
  }

  /** `LoadSize` */
  method LoadSizeFrom(inp: InStream) returns (r: Outcome<nat>)
    modifies inp
    ensures Did(r, LoadSize(old(inp.data)), inp.data)
  {
    hide FromLittleEndian;
    var short := LoadPodFrom(inp, 4);
    if short.Err? { return Err(short.error); }
    var n := FromLittleEndian(short.value);
    if n != MARKER { return Ok(n); }
    var long := LoadPodFrom(inp, 8);
    if long.Err? { return Err(long.error); }
    return Ok(FromLittleEndian(long.value));
  }

  /** `Load` */
  method LoadFrom(inp: InStream, t: Type) returns (r: Outcome<Value>)
    modifies inp
    ensures Did(r, Load(t, old(inp.data)), inp.data)
    decreases t, 1, 0
  {
    hide LoadPod, LoadItems, LoadFields;
    match t
    case Pod(size) =>
      var b := LoadPodFrom(inp, size);
      r := if b.Err? then Err(b.error) else Ok(Bytes(b.value));
    case Vector(elem) => r := LoadVector(inp, elem);
    case PairOf(x, y) =>
      r := LoadFrom(inp, x);
      if r.Ok? {
        var second := LoadFrom(inp, y);
        r := if second.Err? then second else Ok(Two(r.value, second.value));
      }
    case Tuple(_) => r := LoadReversed(inp, t);
    case SetOf(elem) => r := LoadInserting(inp, t, elem);
    case MapOf(elem) => r := LoadInserting(inp, t, elem);
    case Optional(elem) =>
      r := LoadOptional(inp, elem);
    case Variant(_) =>
      r := LoadVariant(inp, t);
  }

  method LoadOptional(inp: InStream, elem: Type) returns (r: Outcome<Value>)
    modifies inp
    ensures Did(r, Load(Optional(elem), old(inp.data)), inp.data)
    decreases elem, 3, 0
  {
    var flag := LoadPodFrom(inp, 1);
    if flag.Err? { return Err(flag.error); }
    if flag.value[0] == 0 { return Ok(None); }
    r := LoadFrom(inp, elem);
    if r.Ok? { r := Ok(Some(r.value)); }
  }

  method LoadVariant(inp: InStream, t: Type) returns (r: Outcome<Value>)
    requires t.Variant?
    modifies inp
    ensures Did(r, Load(t, old(inp.data)), inp.data)
    decreases t, 0, 0
  {
    var tag := LoadPodFrom(inp, 1);
    if tag.Err? { return Err(tag.error); }
    if tag.value[0] >= |t.alternatives| { return Err(UnexpectedTag(tag.value[0])); }
    r := LoadFrom(inp, t.alternatives[tag.value[0]]);
    if r.Ok? { r := Ok(Alternative(tag.value[0], r.value)); }
  }

  /** Elements are in front of those that are still to be loaded. */
  ghost function Behind(vs: seq<Value>, l: Loaded<seq<Value>>): Loaded<seq<Value>> {
    if l.Fail? then l else Done(vs + l.value, l.rest)
  }

  lemma LoadOneMore(t: Type, n: nat, b: seq<Byte>, vs: seq<Value>)
    requires n > 0
    ensures Load(t, b).Fail? ==> Behind(vs, LoadAll(t, n, b)) == Fail(Load(t, b).error)
    ensures Load(t, b).Done? ==>
              Behind(vs, LoadAll(t, n, b)) == Behind(vs + [Load(t, b).value], LoadAll(t, n - 1, Load(t, b).rest))
  {
    hide Load;
    if Load(t, b).Done? && LoadAll(t, n - 1, Load(t, b).rest).Done? {
      var v, more := Load(t, b).value, LoadAll(t, n - 1, Load(t, b).rest).value;
      assert vs + ([v] + more) == vs + [v] + more;
    }
  }

  /** `TVectorSerializer::Load` */
  method LoadVector(inp: InStream, elem: Type) returns (r: Outcome<Value>)
    modifies inp
    ensures Did(r, LoadItems(elem, old(inp.data)), inp.data)
    decreases elem, 3, 0
  {
    hide Load, LoadAll, LoadSize;
    var size := LoadSizeFrom(inp);
    if size.Err? { return Err(size.error); }
    ghost var start := inp.data;
    var items := [];
    var i := 0;
    NoneBehind(LoadAll(elem, size.value, start));
    while i < size.value
      invariant 0 <= i <= size.value
      invariant LoadAll(elem, size.value, start) == Behind(items, LoadAll(elem, size.value - i, inp.data))
    {
      LoadOneMore(elem, size.value - i, inp.data, items);
      var v := LoadFrom(inp, elem);
      if v.Err? { return Err(v.error); }
      items := items + [v.value];
      i := i + 1;
    }
    NoMore(elem, inp.data, items);
    return Ok(List(items));
  }

  lemma NoneBehind(l: Loaded<seq<Value>>)
    ensures Behind([], l) == l
  {
    if l.Done? { assert [] + l.value == l.value; }
  }

  lemma NoMore(t: Type, b: seq<Byte>, vs: seq<Value>)
    ensures Behind(vs, LoadAll(t, 0, b)) == Done(vs, b)
  {
    assert vs + [] == vs;
  }

  /** `TSetSerializerBase::Load`: elements are inserted as they are read. */
  method LoadInserting(inp: InStream, t: Type, elem: Type) returns (r: Outcome<Value>)
    modifies inp
    ensures Did(r, Inserted(t, LoadItems(elem, old(inp.data))), inp.data)
    decreases elem, 3, 0
  {
    hide Load, LoadAll, LoadSize, Insert, InsertAll;
    var size := LoadSizeFrom(inp);
    if size.Err? { return Err(size.error); }
    ghost var start := inp.data;
    var items := [];
    ghost var read := [];
    var i := 0;
    NoneBehind(LoadAll(elem, size.value, start));
    InsertNone(t);
    while i < size.value
      invariant 0 <= i <= size.value
      invariant LoadAll(elem, size.value, start) == Behind(read, LoadAll(elem, size.value - i, inp.data))
      invariant items == InsertAll(t, read)
    {
      LoadOneMore(elem, size.value - i, inp.data, read);
      var v := LoadFrom(inp, elem);
      if v.Err? { return Err(v.error); }
      InsertOne(t, read, v.value);
      items := Insert(t, items, v.value);
      read := read + [v.value];
      i := i + 1;
    }
    NoMore(elem, inp.data, read);
    return Ok(List(items));
  }

  lemma InsertNone(t: Type)
    ensures InsertAll(t, []) == []
  {
  }

  lemma InsertOne(t: Type, vs: seq<Value>, v: Value)
    ensures InsertAll(t, vs + [v]) == Insert(t, InsertAll(t, vs), v)
  {
    assert (vs + [v])[..|vs|] == vs;
  }

  /** Fields that are still to be loaded come in front. */
  ghost function Ahead(l: Loaded<seq<Value>>, vs: seq<Value>): Loaded<seq<Value>> {
    if l.Fail? then l else Done(l.value + vs, l.rest)
  }

  lemma LoadFieldBefore(t: Type, k: nat, b: seq<Byte>, vs: seq<Value>)
    requires t.Tuple? && 0 < k <= |t.fields|
    ensures var l := Load(t.fields[k - 1], b);
            && (l.Fail? ==> Ahead(LoadFields(t, k, b), vs) == Fail(l.error))
            && (l.Done? ==> Ahead(LoadFields(t, k, b), vs) == Ahead(LoadFields(t, k - 1, l.rest), [l.value] + vs))
  {
    hide Load;
    var l := Load(t.fields[k - 1], b);
    if l.Done? && LoadFields(t, k - 1, l.rest).Done? {
      var more := LoadFields(t, k - 1, l.rest).value;
      assert more + [l.value] + vs == more + ([l.value] + vs);
    }
  }

  /** `TTupleSerializer::Load` */
  method LoadReversed(inp: InStream, t: Type) returns (r: Outcome<Value>)
    requires t.Tuple?
    modifies inp
    ensures Did(r, Load(t, old(inp.data)), inp.data)
    decreases t, 0, 0
  {
    ghost var start := inp.data;
    var items := [];
    var k := |t.fields|;
    NoneAhead(LoadFields(t, k, start));
    while k > 0
      invariant 0 <= k <= |t.fields|
      invariant LoadFields(t, |t.fields|, start) == Ahead(LoadFields(t, k, inp.data), items)
    {
      LoadFieldBefore(t, k, inp.data, items);
      var v := LoadFrom(inp, t.fields[k - 1]);
      if v.Err? { return Err(v.error); }
      items := [v.value] + items;
      k := k - 1;
    }
    assert [] + items == items;
    return Ok(List(items));
  }

  lemma NoneAhead(l: Loaded<seq<Value>>)
    ensures Ahead(l, []) == l
  {
    if l.Done? { assert l.value + [] == l.value; }
  }

  /** Saved, then loaded from a stream that goes on, a value comes back. */
  method Copy(v: Value, t: Type, more: seq<Byte>) returns (r: Outcome<Value>, rest: seq<Byte>)
    requires HasType(v, t)
    ensures r == Ok(v) && rest == more
  {
    hide Save, Load;
    var out := new OutStream();
    SaveTo(out, v, t);
    assert out.data == Save(v, t);
    var inp := new InStream(out.data + more);
    RoundTrip(v, t, more);
    r := LoadFrom(inp, t);
    rest := inp.data;
  }
}
