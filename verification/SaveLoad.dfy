/** Binary serialization: what `Save` writes and what `Load` makes of any bytes, for every type
built from fixed-size types, vectors, pairs, tuples, sets, maps, optionals and variants.

A set or a map is the sequence of its elements in the order in which it iterates, without
repetitions; a loaded one lists its elements in the order of their insertion.
*/
module SaveLoad {
  import Utf8

  type Byte = Utf8.Byte

  datatype Type =
    | Pod(size: nat)
    | Vector(elem: Type)
    | PairOf(first: Type, second: Type)
    | Tuple(fields: seq<Type>)
    | SetOf(elem: Type)
    | MapOf(elem: Type)
    | Optional(elem: Type)
    | Variant(alternatives: seq<Type>)

  datatype Value =
    | Bytes(bytes: seq<Byte>)
    | List(items: seq<Value>)
    | Two(first: Value, second: Value)
    | None
    | Some(value: Value)
    | Alternative(index: nat, value: Value)

  datatype Error = EndOfInput | UnexpectedTag(tag: nat)

  datatype Loaded<T> = Done(value: T, rest: seq<Byte>) | Fail(error: Error)

  const SIZE_LIMIT: nat := 0x1_0000_0000_0000_0000
  const MARKER: nat := 0xffff_ffff

  // ---------------------------------------------------------------- typing

  /** Elements are told apart by themselves in a set, by their key in a map. */
  function Key(t: Type, v: Value): Value {
    if t.MapOf? && v.Two? then v.first else v
  }

  predicate HasKey(t: Type, vs: seq<Value>, k: Value) {
    exists i | 0 <= i < |vs| :: Key(t, vs[i]) == k
  }

  predicate Distinct(t: Type, vs: seq<Value>) {
    forall i, j | 0 <= i < j < |vs| :: Key(t, vs[i]) != Key(t, vs[j])
  }

  predicate HasType(v: Value, t: Type)
    decreases t, 1, 0
  {
    match t
    case Pod(size) => v.Bytes? && |v.bytes| == size
    case Vector(elem) => v.List? && |v.items| < SIZE_LIMIT && AllHaveType(v.items, elem)
    case PairOf(a, b) => v.Two? && HasType(v.first, a) && HasType(v.second, b)
    case Tuple(fields) => v.List? && |v.items| == |fields| && FieldsHaveType(v.items, t, |fields|)
    case SetOf(elem) => v.List? && |v.items| < SIZE_LIMIT && AllHaveType(v.items, elem) && Distinct(t, v.items)
    case MapOf(elem) =>
      elem.PairOf? && v.List? && |v.items| < SIZE_LIMIT && AllHaveType(v.items, elem) && Distinct(t, v.items)
    case Optional(elem) => v.None? || (v.Some? && HasType(v.value, elem))
    case Variant(alts) => v.Alternative? && v.index < |alts| < 256 && HasType(v.value, alts[v.index])
  }

  predicate AllHaveType(vs: seq<Value>, t: Type)
    decreases t, 2, |vs|
  {
    vs == [] || (HasType(vs[0], t) && AllHaveType(vs[1..], t))
  }

  predicate FieldsHaveType(vs: seq<Value>, t: Type, k: nat)
    requires t.Tuple? && k <= |t.fields| && |vs| == |t.fields|
    decreases t, 0, k
  {
    k == 0 || (HasType(vs[k - 1], t.fields[k - 1]) && FieldsHaveType(vs, t, k - 1))
  }

  // ---------------------------------------------------------------- saving

  /** An unsigned number in `k` bytes, lowest first */
  function LittleEndian(n: nat, k: nat): (b: seq<Byte>)
    ensures |b| == k
  {
    if k == 0 then [] else [n % 256] + LittleEndian(n / 256, k - 1)
  }

  /** `SaveSize`: a marker announces a size that does not fit 32 bits. */
  function SaveSize(n: nat): seq<Byte> {
    if n < MARKER then LittleEndian(n, 4) else LittleEndian(MARKER, 4) + LittleEndian(n, 8)
  }

  function Save(v: Value, t: Type): seq<Byte>
    requires HasType(v, t)
    decreases t, 1, 0
  {
    match t
    case Pod(_) => v.bytes
    case Vector(elem) => SaveSize(|v.items|) + SaveAll(v.items, elem)
    case PairOf(a, b) => Save(v.first, a) + Save(v.second, b)
    case Tuple(fields) => SaveFields(v.items, t, |fields|)
    case SetOf(elem) => SaveSize(|v.items|) + SaveAll(v.items, elem)
    case MapOf(elem) => SaveSize(|v.items|) + SaveAll(v.items, elem)
    case Optional(elem) => if v.None? then [0] else [1] + Save(v.value, elem)
    case Variant(alts) => [v.index] + Save(v.value, alts[v.index])
  }

  function SaveAll(vs: seq<Value>, t: Type): seq<Byte>
    requires AllHaveType(vs, t)
    decreases t, 2, |vs|
  {
    if vs == [] then [] else Save(vs[0], t) + SaveAll(vs[1..], t)
  }

  /** The first `k` fields, last to first: tuples are packed in reverse order. */
  function SaveFields(vs: seq<Value>, t: Type, k: nat): seq<Byte>
    requires t.Tuple? && k <= |t.fields| && |vs| == |t.fields| && FieldsHaveType(vs, t, k)
    decreases t, 0, k
  {
    if k == 0 then [] else Save(vs[k - 1], t.fields[k - 1]) + SaveFields(vs, t, k - 1)
  }

  // ---------------------------------------------------------------- loading

  function LoadPod(n: nat, b: seq<Byte>): Loaded<seq<Byte>> {
    if |b| < n then Fail(EndOfInput) else Done(b[..n], b[n..])
  }

  function FromLittleEndian(b: seq<Byte>): nat {
    if b == [] then 0 else b[0] + 256 * FromLittleEndian(b[1..])
  }

  /** `LoadSize` */
  function LoadSize(b: seq<Byte>): Loaded<nat> {
    match LoadPod(4, b)
    case Fail(e) => Fail(e)
    case Done(short, rest) =>
      if FromLittleEndian(short) != MARKER then Done(FromLittleEndian(short), rest)
      else match LoadPod(8, rest)
        case Fail(e) => Fail(e)
        case Done(long, rest2) => Done(FromLittleEndian(long), rest2)
  }

  /** Insertion into a set or a map: an element whose key is there is dropped. */
  function Insert(t: Type, vs: seq<Value>, v: Value): seq<Value> {
    if HasKey(t, vs, Key(t, v)) then vs else vs + [v]
  }

  function InsertAll(t: Type, vs: seq<Value>): seq<Value> {
    if vs == [] then [] else Insert(t, InsertAll(t, vs[..|vs| - 1]), vs[|vs| - 1])
  }

  function Load(t: Type, b: seq<Byte>): Loaded<Value>
    decreases t, 1, 0
  {
    match t
    case Pod(size) => (match LoadPod(size, b) case Fail(e) => Fail(e) case Done(x, rest) => Done(Bytes(x), rest))
    case Vector(elem) => LoadItems(elem, b)
    case PairOf(x, y) =>
      (match Load(x, b)
       case Fail(e) => Fail(e)
       case Done(v, rest) => (match Load(y, rest) case Fail(e) => Fail(e) case Done(w, rest2) => Done(Two(v, w), rest2)))
    case Tuple(fields) =>
      (match LoadFields(t, |fields|, b) case Fail(e) => Fail(e) case Done(vs, rest) => Done(List(vs), rest))
    case SetOf(elem) => Inserted(t, LoadItems(elem, b))
    case MapOf(elem) => Inserted(t, LoadItems(elem, b))
    case Optional(elem) =>
      (match LoadPod(1, b)
       case Fail(e) => Fail(e)
       case Done(flag, rest) =>
         if flag[0] == 0 then Done(None, rest)
         else (match Load(elem, rest) case Fail(e) => Fail(e) case Done(v, rest2) => Done(Some(v), rest2)))
    case Variant(alts) =>
      (match LoadPod(1, b)
       case Fail(e) => Fail(e)
       case Done(tag, rest) =>
         if tag[0] >= |alts| then Fail(UnexpectedTag(tag[0]))
         else (match Load(alts[tag[0]], rest)
               case Fail(e) => Fail(e)
               case Done(v, rest2) => Done(Alternative(tag[0], v), rest2)))
  }

  /** A size and as many elements */
  function LoadItems(elem: Type, b: seq<Byte>): (r: Loaded<Value>)
    ensures r.Done? ==> r.value.List?
    decreases elem, 3, 0
  {
    match LoadSize(b)
    case Fail(e) => Fail(e)
    case Done(n, rest) =>
      match LoadAll(elem, n, rest)
      case Fail(e) => Fail(e)
      case Done(vs, rest2) => Done(List(vs), rest2)
  }

  function Inserted(t: Type, r: Loaded<Value>): Loaded<Value>
    requires r.Done? ==> r.value.List?
  {
    if r.Fail? then r else Done(List(InsertAll(t, r.value.items)), r.rest)
  }

  function LoadAll(t: Type, n: nat, b: seq<Byte>): (r: Loaded<seq<Value>>)
    ensures r.Done? ==> |r.value| == n
    decreases t, 2, n
  {
    if n == 0 then Done([], b)
    else match Load(t, b)
      case Fail(e) => Fail(e)
      case Done(v, rest) =>
        match LoadAll(t, n - 1, rest)
        case Fail(e) => Fail(e)
        case Done(vs, rest2) => Done([v] + vs, rest2)
  }

  function LoadFields(t: Type, k: nat, b: seq<Byte>): (r: Loaded<seq<Value>>)
    requires t.Tuple? && k <= |t.fields|
    ensures r.Done? ==> |r.value| == k
    decreases t, 0, k
  {
    if k == 0 then Done([], b)
    else match Load(t.fields[k - 1], b)
      case Fail(e) => Fail(e)
      case Done(v, rest) =>
        match LoadFields(t, k - 1, rest)
        case Fail(e) => Fail(e)
        case Done(vs, rest2) => Done(vs + [v], rest2)
  }

  // ---------------------------------------------------------------- sizes

  function Power(k: nat): nat {
    if k == 0 then 1 else 256 * Power(k - 1)
  }

  lemma {:induction false} LittleEndianBack(n: nat, k: nat)
    requires n < Power(k)
    ensures FromLittleEndian(LittleEndian(n, k)) == n
  {
    if k > 0 {
      LittleEndianBack(n / 256, k - 1);
      var b := LittleEndian(n, k);
      assert b[0] == n % 256 && b[1..] == LittleEndian(n / 256, k - 1);
    }
  }

  lemma Powers()
    ensures Power(4) == 0x1_0000_0000 && Power(8) == SIZE_LIMIT
  {
    assert Power(2) == 0x1_0000;
    assert Power(4) == 0x1_0000_0000;
    assert Power(6) == 0x1_0000_0000_0000;
  }

  lemma SizeRoundTrip(n: nat, rest: seq<Byte>)
    requires n < SIZE_LIMIT
    ensures LoadSize(SaveSize(n) + rest) == Done(n, rest)
  {
    hide Power, LittleEndian, FromLittleEndian;
    Powers();
    var b := SaveSize(n) + rest;
    if n < MARKER {
      LittleEndianBack(n, 4);
      assert b[..4] == LittleEndian(n, 4) && b[4..] == rest;
    } else {
      LittleEndianBack(MARKER, 4);
      LittleEndianBack(n, 8);
      assert b[..4] == LittleEndian(MARKER, 4) && b[4..] == LittleEndian(n, 8) + rest;
      assert b[4..][..8] == LittleEndian(n, 8) && b[4..][8..] == rest;
    }
  }

  lemma SizePrefix(n: nat, p: seq<Byte>)
    requires n < SIZE_LIMIT && p < SaveSize(n)
    ensures LoadSize(p) == Fail(EndOfInput)
  {
    hide Power, LittleEndian, FromLittleEndian;
    Powers();
    if n >= MARKER && |p| >= 4 {
      LittleEndianBack(MARKER, 4);
      assert p[..4] == SaveSize(n)[..4] == LittleEndian(MARKER, 4);
    }
  }

  // ---------------------------------------------------------------- round trip

  /** `p` behind `a` is a strict prefix of `b` behind `a`. */
  lemma SkipSame(a: seq<Byte>, b: seq<Byte>, p: seq<Byte>)
    requires p < a + b
    ensures p < a || (a <= p && p == a + p[|a|..] && p[|a|..] < b)
  {
    if |p| < |a| {
      assert p == (a + b)[..|p|] == a[..|p|];
    } else {
      assert p[..|a|] == (a + b)[..|a|] == a;
      assert p[|a|..] == (a + b)[|a|..|p|] == b[..|p| - |a|];
    }
  }

  lemma {:induction false} InsertAllDistinct(t: Type, vs: seq<Value>)
    requires Distinct(t, vs)
    ensures InsertAll(t, vs) == vs
    decreases |vs|
  {
    if vs != [] {
      var k := |vs| - 1;
      InsertAllDistinct(t, vs[..k]);
      assert vs == vs[..k] + [vs[k]];
    }
  }

  /** Loading what was saved, followed by any bytes, gives it back and leaves those bytes. */
  lemma {:induction false} RoundTrip(v: Value, t: Type, rest: seq<Byte>)
    requires HasType(v, t)
    ensures Load(t, Save(v, t) + rest) == Done(v, rest)
    decreases t, 1, 0
  {
    match t
    case Pod(size) => assert (v.bytes + rest)[..size] == v.bytes && (v.bytes + rest)[size..] == rest;
    case Vector(elem) => RoundTripItems(v.items, elem, rest);
    case PairOf(x, y) =>
      assert Save(v.first, x) + Save(v.second, y) + rest == Save(v.first, x) + (Save(v.second, y) + rest);
      RoundTrip(v.first, x, Save(v.second, y) + rest);
      RoundTrip(v.second, y, rest);
    case Tuple(fields) =>
      RoundTripFields(v.items, t, |fields|, rest);
      assert v.items[..|fields|] == v.items;
    case SetOf(elem) =>
      RoundTripItems(v.items, elem, rest);
      InsertAllDistinct(t, v.items);
    case MapOf(elem) =>
      RoundTripItems(v.items, elem, rest);
      InsertAllDistinct(t, v.items);
    case Optional(elem) =>
      if v.Some? {
        Tagged(1, Save(v.value, elem), rest);
        RoundTrip(v.value, elem, rest);
      } else {
        Tagged(0, [], rest);
        assert [0] + [] == [0];
      }
    case Variant(alts) =>
      Tagged(v.index, Save(v.value, alts[v.index]), rest);
      RoundTrip(v.value, alts[v.index], rest);
  }

  lemma Tagged(tag: Byte, s: seq<Byte>, rest: seq<Byte>)
    ensures LoadPod(1, [tag] + s + rest) == Done([tag], s + rest)
  {
    var b := [tag] + s + rest;
    assert b[..1] == [tag] && b[1..] == s + rest;
  }

  lemma {:induction false} RoundTripItems(vs: seq<Value>, t: Type, rest: seq<Byte>)
    requires AllHaveType(vs, t) && |vs| < SIZE_LIMIT
    ensures LoadItems(t, SaveSize(|vs|) + SaveAll(vs, t) + rest) == Done(List(vs), rest)
    decreases t, 3, 0
  {
    var n, body := SaveSize(|vs|), SaveAll(vs, t);
    assert n + body + rest == n + (body + rest);
    SizeRoundTrip(|vs|, body + rest);
    RoundTripAll(vs, t, rest);
  }

  lemma {:induction false} RoundTripAll(vs: seq<Value>, t: Type, rest: seq<Byte>)
    requires AllHaveType(vs, t)
    ensures LoadAll(t, |vs|, SaveAll(vs, t) + rest) == Done(vs, rest)
    decreases t, 2, |vs|
  {
    if vs == [] {
      assert SaveAll(vs, t) + rest == rest;
    } else {
      var one, more := Save(vs[0], t), SaveAll(vs[1..], t);
      assert one + more + rest == one + (more + rest);
      RoundTrip(vs[0], t, more + rest);
      RoundTripAll(vs[1..], t, rest);
      assert [vs[0]] + vs[1..] == vs;
    }
  }

  lemma {:induction false} RoundTripFields(vs: seq<Value>, t: Type, k: nat, rest: seq<Byte>)
    requires t.Tuple? && k <= |t.fields| && |vs| == |t.fields| && FieldsHaveType(vs, t, k)
    ensures LoadFields(t, k, SaveFields(vs, t, k) + rest) == Done(vs[..k], rest)
    decreases t, 0, k
  {
    if k == 0 {
      assert SaveFields(vs, t, k) + rest == rest;
    } else {
      var one, more := Save(vs[k - 1], t.fields[k - 1]), SaveFields(vs, t, k - 1);
      assert one + more + rest == one + (more + rest);
      RoundTrip(vs[k - 1], t.fields[k - 1], more + rest);
      RoundTripFields(vs, t, k - 1, rest);
      assert vs[..k - 1] + [vs[k - 1]] == vs[..k];
    }
  }

  // ---------------------------------------------------------------- arrays of fixed-size elements

  /** `n` elements of `size` bytes each */
  function Chunks(b: seq<Byte>, size: nat, n: nat): seq<Value>
    requires |b| == size * n
  {
    if n == 0 then [] else [Bytes(b[..size])] + Chunks(b[size..], size, n - 1)
  }

  /** `LoadPodArray` */
  function LoadPods(size: nat, n: nat, b: seq<Byte>): Loaded<seq<Value>> {
    var len := size * n;
    if |b| < len then Fail(EndOfInput) else Done(Chunks(b[..len], size, n), b[len..])
  }

  lemma PodsNext(size: nat, n: nat, b: seq<Byte>)
    requires n > 0
    ensures LoadPods(size, n, b) ==
            if |b| < size || LoadPods(size, n - 1, b[size..]).Fail? then Fail(EndOfInput)
            else var l := LoadPods(size, n - 1, b[size..]); Done([Bytes(b[..size])] + l.value, l.rest)
  {
    var len, k := size * n, size * (n - 1);
    assert len == size + k;
    if |b| >= len {
      assert b[size..][..k] == b[..len][size..] && b[size..][k..] == b[len..];
      assert b[..len][..size] == b[..size];
    }
  }

  /** Reading all elements of a fixed size at once is reading them one by one, down to the error when
      there are too few bytes. */
  lemma {:induction false} BulkIsElementwise(size: nat, n: nat, b: seq<Byte>)
    ensures LoadAll(Pod(size), n, b) == LoadPods(size, n, b)
  {
    if n > 0 {
      PodsNext(size, n, b);
      OnePod(size, b);
      hide LoadPods, Load;
      if |b| >= size { BulkIsElementwise(size, n - 1, b[size..]); }
    } else {
      assert size * n == 0 && b[0..] == b;
    }
  }

  lemma OnePod(size: nat, b: seq<Byte>)
    ensures Load(Pod(size), b) == if |b| < size then Fail(EndOfInput) else Done(Bytes(b[..size]), b[size..])
  {
  }

  // ---------------------------------------------------------------- cut short

  /** Loading a strict prefix of what was saved fails with end of input. */
  lemma {:induction false} PrefixFails(v: Value, t: Type, p: seq<Byte>)
    requires HasType(v, t) && p < Save(v, t)
    ensures Load(t, p) == Fail(EndOfInput)
    decreases t, 1, 0
  {
    match t
    case Pod(_) =>
    case Vector(elem) => PrefixFailsItems(v.items, elem, p);
    case PairOf(x, y) =>
      SkipSame(Save(v.first, x), Save(v.second, y), p);
      if p < Save(v.first, x) {
        PrefixFails(v.first, x, p);
      } else {
        var q := p[|Save(v.first, x)|..];
        RoundTrip(v.first, x, q);
        PrefixFails(v.second, y, q);
      }
    case Tuple(fields) => PrefixFailsFields(v.items, t, |fields|, p);
    case SetOf(elem) => PrefixFailsItems(v.items, elem, p);
    case MapOf(elem) => PrefixFailsItems(v.items, elem, p);
    case Optional(elem) =>
      if v.Some? && p != [] {
        TaggedPrefix(1, Save(v.value, elem), p);
        PrefixFails(v.value, elem, p[1..]);
      }
    case Variant(alts) =>
      if p != [] {
        TaggedPrefix(v.index, Save(v.value, alts[v.index]), p);
        PrefixFails(v.value, alts[v.index], p[1..]);
      }
  }

  lemma TaggedPrefix(tag: Byte, s: seq<Byte>, p: seq<Byte>)
    requires p != [] && p < [tag] + s
    ensures LoadPod(1, p) == Done([tag], p[1..]) && p[1..] < s
  {
    SkipSame([tag], s, p);
  }

  lemma {:induction false} PrefixFailsItems(vs: seq<Value>, t: Type, p: seq<Byte>)
    requires AllHaveType(vs, t) && |vs| < SIZE_LIMIT && p < SaveSize(|vs|) + SaveAll(vs, t)
    ensures LoadItems(t, p) == Fail(EndOfInput)
    decreases t, 3, 0
  {
    var n, body := SaveSize(|vs|), SaveAll(vs, t);
    SkipSame(n, body, p);
    if p < n {
      SizePrefix(|vs|, p);
    } else {
      var q := p[|n|..];
      SizeRoundTrip(|vs|, q);
      PrefixFailsAll(vs, t, q);
    }
  }

  lemma {:induction false} PrefixFailsAll(vs: seq<Value>, t: Type, p: seq<Byte>)
    requires AllHaveType(vs, t) && p < SaveAll(vs, t)
    ensures LoadAll(t, |vs|, p) == Fail(EndOfInput)
    decreases t, 2, |vs|
  {
    if vs != [] {
      var one, more := Save(vs[0], t), SaveAll(vs[1..], t);
      SkipSame(one, more, p);
      if p < one {
        PrefixFails(vs[0], t, p);
      } else {
        var q := p[|one|..];
        RoundTrip(vs[0], t, q);
        PrefixFailsAll(vs[1..], t, q);
      }
    }
  }

  lemma {:induction false} PrefixFailsFields(vs: seq<Value>, t: Type, k: nat, p: seq<Byte>)
    requires t.Tuple? && k <= |t.fields| && |vs| == |t.fields| && FieldsHaveType(vs, t, k)
    requires p < SaveFields(vs, t, k)
    ensures LoadFields(t, k, p) == Fail(EndOfInput)
    decreases t, 0, k
  {
    if k > 0 {
      var one, more := Save(vs[k - 1], t.fields[k - 1]), SaveFields(vs, t, k - 1);
      SkipSame(one, more, p);
      if p < one {
        PrefixFails(vs[k - 1], t.fields[k - 1], p);
      } else {
        var q := p[|one|..];
        RoundTrip(vs[k - 1], t.fields[k - 1], q);
        PrefixFailsFields(vs, t, k - 1, q);
      }
    }
  }

  /** Saving is one to one, and no value's bytes begin another's. */
  lemma SelfDelimiting(v: Value, w: Value, t: Type, more: seq<Byte>)
    requires HasType(v, t) && HasType(w, t) && Save(v, t) + more == Save(w, t)
    ensures v == w && more == []
  {
    RoundTrip(v, t, more);
    RoundTrip(w, t, []);
    assert Save(w, t) + [] == Save(w, t);
  }
}
