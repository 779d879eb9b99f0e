/** From CBOR to the tree: arrays whose elements share one scalar or map type become typed arrays,
    all others lists of nodes, and errors inside arrays are forgotten. */
module CborTree {
  import opened Wrappers
  import opened Base64
  import opened RepTree

  /** A CBOR item, with tags already skipped. */
  datatype Cbor =
    | CNull
    | CInt(i: int)
    | CFloat(f: real)
    | CDouble(d: real)
    | CBool(b: bool)
    | CBytes(bytes: seq<byte>)
    | CText(text: CString)
    | CMap(pairs: seq<Pair>)
    | CArray(items: seq<Cbor>)

  datatype Key = TextKey(name: CString) | IntKey(i: int)

  datatype Pair = Pair(key: Key, value: Cbor)

  /** A string in an array of strings has a slot of this many bytes, a length or a zero included. */
  const SLOT := 32

  predicate Fits(s: seq<byte>) {
    |s| < SLOT
  }

  // ---------------------------------------------------------------------------
  // Array types
  // ---------------------------------------------------------------------------

  datatype Kind = Unset | Ints | Floats | Doubles | Bools | ByteStrings | Texts | Objects | Arrays | Mixed

  function KindOf(v: Cbor): Kind {
    match v
    case CNull => Unset
    case CInt(_) => Ints
    case CFloat(_) => Floats
    case CDouble(_) => Doubles
    case CBool(_) => Bools
    case CBytes(_) => ByteStrings
    case CText(_) => Texts
    case CMap(_) => Objects
    case CArray(_) => Arrays
  }

  /** The kind after one more element; a null does not change it. */
  function Join(k: Kind, v: Cbor): Kind {
    if v.CNull? then k else if k == Unset || k == KindOf(v) then KindOf(v) else Mixed
  }

  function ArrayKind(items: seq<Cbor>, n: nat): Kind
    requires n <= |items|
  {
    if n == 0 then Unset else Join(ArrayKind(items, n - 1), items[n - 1])
  }

  predicate Typed(k: Kind) {
    k != Unset && k != Arrays && k != Mixed
  }

  /** The first pass over an array. */
  method ScanKind(items: seq<Cbor>) returns (kind: Kind)
    ensures kind == ArrayKind(items, |items|)
  {
    kind := Unset;
    for n := 0 to |items|
      invariant kind == ArrayKind(items, n)
    {
      kind := Join(kind, items[n]);
    }
  }

  ghost predicate AllOf(items: seq<Cbor>, n: nat, k: Kind)
    requires n <= |items|
  {
    forall i :: 0 <= i < n ==> KindOf(items[i]) == k
  }

  /** An array is scanned to a typed kind exactly when its elements, nulls apart, share it. */
  lemma {:induction false} KindIsShared(items: seq<Cbor>, n: nat, k: Kind)
    requires n <= |items| && k != Unset && k != Mixed
    ensures ArrayKind(items, n) == k <==>
      (exists i :: 0 <= i < n && !items[i].CNull?) && forall i :: 0 <= i < n && !items[i].CNull? ==>
        KindOf(items[i]) == k
    ensures ArrayKind(items, n) == Unset <==> forall i :: 0 <= i < n ==> items[i].CNull?
  {
    if n > 0 {
      KindIsShared(items, n - 1, k);
      if !items[n - 1].CNull? {
        KindIsShared(items, n - 1, KindOf(items[n - 1]));
      }
    }
  }

  // ---------------------------------------------------------------------------
  // The tree
  // ---------------------------------------------------------------------------

  /** A parsed value: `err` is the error flag on return, `torn` says that some part of the value was
      given up on, and holds whatever memory held before. */
  datatype Parsed = Parsed(value: Value, err: bool, torn: bool)

  /** A list of nodes that grows at its end. */
  datatype Nodes = Nodes(list: seq<Node>, err: bool, torn: bool)

  datatype Objs = Objs(list: seq<Obj>, err: bool, torn: bool)

  function MakeNode(key: Key, value: Value): Node {
    match key
    case TextKey(name) => Node(name, -1, value)
    case IntKey(i) => Node([], i, value)
  }

  function Element(value: Value): Node {
    Node([], -1, value)
  }

  predicate HasNull(items: seq<Cbor>) {
    exists i :: 0 <= i < |items| && items[i].CNull?
  }

  predicate AllFit(items: seq<Cbor>) {
    forall i :: 0 <= i < |items| ==>
      (items[i].CBytes? ==> |items[i].bytes| < 32) && (items[i].CText? ==> |items[i].text| < 32)
  }

  /** A null among the elements up to number i: the pass over them has ended. */
  predicate NullUpTo(items: seq<Cbor>, i: nat)
    requires i < |items|
  {
    exists j :: 0 <= j <= i && items[j].CNull?
  }

  /** The values of the elements; `rest` stands for what was not read. */
  function Picked<T>(items: seq<Cbor>, pick: Cbor -> T, rest: T): seq<T> {
    seq(|items|, i requires 0 <= i < |items| => if NullUpTo(items, i) then rest else pick(items[i]))
  }

  function PickInt(v: Cbor): int {
    if v.CInt? then v.i else 0
  }

  function PickFloat(v: Cbor): real {
    if v.CFloat? then v.f else 0.0
  }

  function PickDouble(v: Cbor): real {
    if v.CDouble? then v.d else 0.0
  }

  function PickBool(v: Cbor): bool {
    v.CBool? && v.b
  }

  /** What a slot holds after a string too long for it has been copied, as far as it goes: the copy
      reports an error that is forgotten, and the slot keeps what memory held. */
  type Copy = seq<byte> -> seq<byte>

  /** The length of a byte string is stored clamped; the bytes behind it are copied when all fit. */
  function ByteSlot(c: Copy, s: seq<byte>): (r: seq<byte>)
    ensures |r| < SLOT && (Fits(s) ==> r == s)
  {
    if Fits(s) then s else seq(SLOT - 1, i requires 0 <= i => At(c(s), i))
  }

  /** A text ends at its first zero. */
  function UpToZero(s: seq<byte>): (r: CString)
    ensures |r| <= |s|
  {
    if s == [] || s[0] == 0 then [] else [s[0]] + UpToZero(s[1..])
  }

  function TextSlot(c: Copy, s: CString): (r: CString)
    ensures |r| < SLOT && (Fits(s) ==> r == s)
  {
    if Fits(s) then s else UpToZero(seq(SLOT - 1, i requires 0 <= i => At(c(s), i)))
  }

  function PickBytes(c: Copy): Cbor -> seq<byte> {
    (v: Cbor) => if v.CBytes? then ByteSlot(c, v.bytes) else []
  }

  function PickText(c: Copy): Cbor -> CString {
    (v: Cbor) => if v.CText? then TextSlot(c, v.text) else []
  }

  function Width(v: Cbor): nat {
    match v
    case CMap(pairs) => |pairs| + 1
    case CArray(items) => |items| + 1
    case _ => 0
  }

  /** An element of an array or the value of a member. */
  function Parse(c: Copy, v: Cbor): Parsed
    decreases v, Width(v)
  {
    match v
    case CNull => Parsed(Nil, false, false)
    case CInt(i) => Parsed(Int(i), false, false)
    case CFloat(f) => Parsed(Float(f), false, false)
    case CDouble(d) => Parsed(Double(d), false, false)
    case CBool(b) => Parsed(Bool(b), false, false)
    case CBytes(bytes) => Parsed(ByteString(bytes), false, false)
    case CText(text) => Parsed(Text(text), false, false)
    case CMap(pairs) =>
      var m := ParsePairs(c, v, |pairs|);
      if m.err then Parsed(Nil, true, true) else Parsed(Object(m.list), false, m.torn)
    case CArray(items) =>
      if items == [] then Parsed(Nil, false, false)
      else
        var kind := ArrayKind(items, |items|);
        if kind == Objects then
          var o := ParseObjs(c, v, |items|);
          Parsed(ObjectList(o.list), o.err, o.torn)
        else if Typed(kind) then ParseTyped(c, items, kind)
        else
          var nodes := ParseItems(c, v, |items|);
          Parsed(MixedArray(nodes.list), false, nodes.torn)
  }

  function ObjectList(objs: seq<Obj>): Value {
    if objs == [] then ObjectArray(Obj([]), []) else ObjectArray(objs[0], objs[1..])
  }

  /** The members of a map: the first error ends it. */
  function ParsePairs(c: Copy, v: Cbor, n: nat): Nodes
    requires v.CMap? && n <= |v.pairs|
    decreases v, n
  {
    if n == 0 then Nodes([], false, false)
    else
      var m := ParsePairs(c, v, n - 1);
      if m.err then m
      else
        var e := Parse(c, v.pairs[n - 1].value);
        if e.err then Nodes(m.list, true, true)
        else Nodes(m.list + [MakeNode(v.pairs[n - 1].key, e.value)], false, m.torn || e.torn)
  }

  /** The elements of an array without a common type: an error in one is forgotten. */
  function ParseItems(c: Copy, v: Cbor, n: nat): Nodes
    requires v.CArray? && n <= |v.items|
    decreases v, n
  {
    if n == 0 then Nodes([], false, false)
    else
      var nodes, e := ParseItems(c, v, n - 1), Parse(c, v.items[n - 1]);
      Nodes(nodes.list + [Element(e.value)], false, nodes.torn || e.err || e.torn)
  }

  /** The elements of an array of maps: a null ends it with an error, an error in a map is
      forgotten. */
  function ParseObjs(c: Copy, v: Cbor, n: nat): Objs
    requires v.CArray? && n <= |v.items|
    decreases v, n
  {
    if n == 0 then Objs([], false, false)
    else
      var o := ParseObjs(c, v, n - 1);
      if o.err then o
      else if !v.items[n - 1].CMap? then Objs(o.list, true, true)
      else
        var m := ParsePairs(c, v.items[n - 1], |v.items[n - 1].pairs|);
        Objs(o.list + [Obj(m.list)], false, o.torn || m.err || m.torn)
  }

  /** Typed arrays of scalars: a null ends them with an error, and a string that does not fit its
      slot is lost without one (and without `torn`: what the slot holds instead is in the value). */
  function ParseTyped(c: Copy, items: seq<Cbor>, kind: Kind): Parsed
    requires Typed(kind) && kind != Objects
  {
    var bad := HasNull(items);
    match kind
    case Ints => Parsed(IntArray(Picked(items, PickInt, 0)), bad, bad)
    case Floats => Parsed(FloatArray(Picked(items, PickFloat, 0.0)), bad, bad)
    case Doubles => Parsed(DoubleArray(Picked(items, PickDouble, 0.0)), bad, bad)
    case Bools => Parsed(BoolArray(Picked(items, PickBool, false)), bad, bad)
    case ByteStrings => Parsed(ByteStringArray(Picked(items, PickBytes(c), [])), bad, bad)
    case Texts => Parsed(TextArray(Picked<CString>(items, PickText(c), [])), bad, bad)
  }

  // ---------------------------------------------------------------------------
  // Reading the tree back
  // ---------------------------------------------------------------------------

  function KeyOf(n: Node): Key {
    if |n.name| > 0 || n.iname == -1 then TextKey(n.name) else IntKey(n.iname)
  }

  function PairOf(n: Node): Pair
    decreases n, 0
  {
    Pair(KeyOf(n), ReadBack(n.value))
  }

  function ReadObj(o: Obj): Cbor
    decreases o, 0
  {
    CMap(seq(|o.members|, i requires 0 <= i < |o.members| => PairOf(o.members[i])))
  }

  function ReadBack(value: Value): Cbor
    decreases value, 1
  {
    match value
    case Nil => CNull
    case Int(i) => CInt(i)
    case Float(f) => CFloat(f)
    case Double(d) => CDouble(d)
    case Bool(b) => CBool(b)
    case ByteString(bytes) => CBytes(bytes)
    case Text(text) => CText(text)
    case Object(members) => CMap(seq(|members|, i requires 0 <= i < |members| => PairOf(members[i])))
    case IntArray(a) => CArray(seq(|a|, i requires 0 <= i < |a| => CInt(a[i])))
    case FloatArray(a) => CArray(seq(|a|, i requires 0 <= i < |a| => CFloat(a[i])))
    case DoubleArray(a) => CArray(seq(|a|, i requires 0 <= i < |a| => CDouble(a[i])))
    case BoolArray(a) => CArray(seq(|a|, i requires 0 <= i < |a| => CBool(a[i])))
    case ByteStringArray(a) => CArray(seq(|a|, i requires 0 <= i < |a| => CBytes(a[i])))
    case TextArray(a) => CArray(seq(|a|, i requires 0 <= i < |a| => CText(a[i])))
    case ObjectArray(first, rest) =>
      CArray([ReadObj(first)] + seq(|rest|, i requires 0 <= i < |rest| => ReadObj(rest[i])))
    case MixedArray(items) => CArray(seq(|items|, i requires 0 <= i < |items| => ReadBack(items[i].value)))
  }

  /** Parsed without loss, given what too long a string leaves in its slot. */
  predicate Kept(c: Copy, v: Cbor) {
    !Parse(c, v).err && !Parse(c, v).torn && ReadBack(Parse(c, v).value) == v
  }

  /** What can be kept: no empty array, no null among elements that share a type, no string too long
      for its slot, and no member with the key -1, which stands for a text key. */
  predicate Keepable(v: Cbor) {
    match v
    case CMap(pairs) => forall i :: 0 <= i < |pairs| ==> pairs[i].key != IntKey(-1) && Keepable(pairs[i].value)
    case CArray(items) =>
      var kind := ArrayKind(items, |items|);
      && items != []
      && (Typed(kind) ==> !HasNull(items))
      && (kind == ByteStrings || kind == Texts ==> AllFit(items))
      && forall i :: 0 <= i < |items| ==> Keepable(items[i])
    case _ => true
  }

  lemma {:induction false} PairsKept(c: Copy, v: Cbor, n: nat)
    requires v.CMap? && n <= |v.pairs|
    ensures var m := ParsePairs(c, v, n);
      && (!m.err && !m.torn <==>
          forall i :: 0 <= i < n ==> !Parse(c, v.pairs[i].value).err && !Parse(c, v.pairs[i].value).torn)
      && (!m.err ==> |m.list| == n && forall i :: 0 <= i < n ==>
          m.list[i] == MakeNode(v.pairs[i].key, Parse(c, v.pairs[i].value).value))
  {
    hide Parse;
    if n > 0 {
      PairsKept(c, v, n - 1);
    }
  }

  lemma MapKept(c: Copy, v: Cbor)
    requires v.CMap?
    ensures Kept(c, v) <==> forall i :: 0 <= i < |v.pairs| ==> v.pairs[i].key != IntKey(-1) && Kept(c, v.pairs[i].value)
  {
    var m := ParsePairs(c, v, |v.pairs|);
    PairsKept(c, v, |v.pairs|);
    if !m.err && !m.torn {
      var back := ReadBack(Object(m.list)).pairs;
      forall i | 0 <= i < |v.pairs|
        ensures back[i] == v.pairs[i] <==>
          v.pairs[i].key != IntKey(-1) && ReadBack(Parse(c, v.pairs[i].value).value) == v.pairs[i].value
      {
        assert back[i] == PairOf(m.list[i]);
      }
    }
  }

  lemma {:induction false} ItemsKept(c: Copy, v: Cbor, n: nat)
    requires v.CArray? && n <= |v.items|
    ensures var m := ParseItems(c, v, n);
      && (!m.torn <==> forall i :: 0 <= i < n ==> !Parse(c, v.items[i]).err && !Parse(c, v.items[i]).torn)
      && |m.list| == n && forall i :: 0 <= i < n ==> m.list[i] == Element(Parse(c, v.items[i]).value)
  {
    hide Parse;
    if n > 0 {
      ItemsKept(c, v, n - 1);
    }
  }

  lemma MapIsParsed(c: Copy, v: Cbor)
    requires v.CMap?
    ensures var m := ParsePairs(c, v, |v.pairs|);
      Parse(c, v) == if m.err then Parsed(Nil, true, true) else Parsed(Object(m.list), false, m.torn)
  {
  }

  lemma {:induction false} ObjsKept(c: Copy, v: Cbor, n: nat)
    requires v.CArray? && n <= |v.items|
    ensures var o := ParseObjs(c, v, n);
      && (!o.err && !o.torn <==>
          forall i :: 0 <= i < n ==> v.items[i].CMap? && !Parse(c, v.items[i]).err && !Parse(c, v.items[i]).torn)
      && (!o.err && !o.torn ==> |o.list| == n && forall i :: 0 <= i < n ==>
          Object(o.list[i].members) == Parse(c, v.items[i]).value)
  {
    hide Parse;
    hide ParsePairs;
    if n > 0 {
      ObjsKept(c, v, n - 1);
      if v.items[n - 1].CMap? {
        MapIsParsed(c, v.items[n - 1]);
      }
    }
  }

  lemma NoNulls(items: seq<Cbor>, k: Kind)
    requires AllOf(items, |items|, k) && k != Unset
    ensures forall i :: 0 <= i < |items| ==> !NullUpTo(items, i) && KindOf(items[i]) == k
  {
  }

  /** A typed array of scalars reads back as the elements it was made of. */
  lemma IntsBack(items: seq<Cbor>)
    requires AllOf(items, |items|, Ints)
    ensures ReadBack(IntArray(Picked(items, PickInt, 0))) == CArray(items)
  {
    NoNulls(items, Ints);
    assert ReadBack(IntArray(Picked(items, PickInt, 0))).items == items;
  }

  lemma FloatsBack(items: seq<Cbor>)
    requires AllOf(items, |items|, Floats)
    ensures ReadBack(FloatArray(Picked(items, PickFloat, 0.0))) == CArray(items)
  {
    NoNulls(items, Floats);
    assert ReadBack(FloatArray(Picked(items, PickFloat, 0.0))).items == items;
  }

  lemma DoublesBack(items: seq<Cbor>)
    requires AllOf(items, |items|, Doubles)
    ensures ReadBack(DoubleArray(Picked(items, PickDouble, 0.0))) == CArray(items)
  {
    NoNulls(items, Doubles);
    assert ReadBack(DoubleArray(Picked(items, PickDouble, 0.0))).items == items;
  }

  lemma BoolsBack(items: seq<Cbor>)
    requires AllOf(items, |items|, Bools)
    ensures ReadBack(BoolArray(Picked(items, PickBool, false))) == CArray(items)
  {
    NoNulls(items, Bools);
    assert ReadBack(BoolArray(Picked(items, PickBool, false))).items == items;
  }

  lemma ByteStringsBack(c: Copy, items: seq<Cbor>)
    requires AllOf(items, |items|, ByteStrings)
    ensures ReadBack(ByteStringArray(Picked(items, PickBytes(c), []))) == CArray(items) <==> AllFit(items)
  {
    NoNulls(items, ByteStrings);
    var back := ReadBack(ByteStringArray(Picked(items, PickBytes(c), []))).items;
    assert forall i :: 0 <= i < |items| ==> back[i] == CBytes(ByteSlot(c, items[i].bytes));
    if AllFit(items) {
      assert back == items;
    }
  }

  lemma TextsBack(c: Copy, items: seq<Cbor>)
    requires AllOf(items, |items|, Texts)
    ensures ReadBack(TextArray(Picked<CString>(items, PickText(c), []))) == CArray(items) <==> AllFit(items)
  {
    NoNulls(items, Texts);
    var back := ReadBack(TextArray(Picked<CString>(items, PickText(c), []))).items;
    assert forall i :: 0 <= i < |items| ==> back[i] == CText(TextSlot(c, items[i].text));
    if AllFit(items) {
      assert back == items;
    }
  }

  lemma TypedBack(c: Copy, items: seq<Cbor>, kind: Kind)
    requires Typed(kind) && kind != Objects && AllOf(items, |items|, kind)
    ensures ReadBack(ParseTyped(c, items, kind).value) == CArray(items) <==>
      (kind == ByteStrings || kind == Texts ==> AllFit(items))
  {
    match kind
    case Ints => IntsBack(items);
    case Floats => FloatsBack(items);
    case Doubles => DoublesBack(items);
    case Bools => BoolsBack(items);
    case ByteStrings => ByteStringsBack(c, items);
    case Texts => TextsBack(c, items);
  }

  lemma TypedKept(c: Copy, items: seq<Cbor>, kind: Kind)
    requires Typed(kind) && kind != Objects && items != [] && kind == ArrayKind(items, |items|)
    ensures Kept(c, CArray(items)) <==> !HasNull(items) && (kind == ByteStrings || kind == Texts ==> AllFit(items))
  {
    KindIsShared(items, |items|, kind);
    if !HasNull(items) {
      TypedBack(c, items, kind);
    }
  }

  lemma ObjectsBack(c: Copy, v: Cbor, objs: seq<Obj>)
    requires v.CArray? && v.items != [] && |objs| == |v.items|
    requires forall i :: 0 <= i < |objs| ==> Object(objs[i].members) == Parse(c, v.items[i]).value
    ensures ReadBack(ObjectList(objs)) == v <==>
      forall i :: 0 <= i < |v.items| ==> ReadBack(Parse(c, v.items[i]).value) == v.items[i]
  {
    var back := ReadBack(ObjectList(objs)).items;
    assert |back| == |v.items|;
    forall i | 0 <= i < |v.items| ensures back[i] == ReadBack(Parse(c, v.items[i]).value) {
      assert back[i] == ReadObj(objs[i]) == ReadBack(Object(objs[i].members));
    }
  }

  lemma ObjectsKept(c: Copy, v: Cbor)
    requires v.CArray? && v.items != [] && ArrayKind(v.items, |v.items|) == Objects
    ensures Kept(c, v) <==> !HasNull(v.items) && forall i :: 0 <= i < |v.items| ==> Kept(c, v.items[i])
  {
    var o := ParseObjs(c, v, |v.items|);
    ObjsKept(c, v, |v.items|);
    AllMaps(v.items);
    if !o.err && !o.torn {
      ObjectsBack(c, v, o.list);
    }
  }

  lemma AllMaps(items: seq<Cbor>)
    requires items != [] && ArrayKind(items, |items|) == Objects
    ensures !HasNull(items) <==> forall i :: 0 <= i < |items| ==> items[i].CMap?
  {
    KindIsShared(items, |items|, Objects);
  }

  lemma MixedKept(c: Copy, v: Cbor)
    requires v.CArray? && v.items != [] && !Typed(ArrayKind(v.items, |v.items|))
    ensures Kept(c, v) <==> forall i :: 0 <= i < |v.items| ==> Kept(c, v.items[i])
  {
    var nodes := ParseItems(c, v, |v.items|);
    ItemsKept(c, v, |v.items|);
    assert Parse(c, v) == Parsed(MixedArray(nodes.list), false, nodes.torn);
    hide Parse;
    hide ParseItems;
    MixedBack(v.items, nodes.list);
    hide ReadBack;
    forall i | 0 <= i < |v.items|
      ensures Kept(c, v.items[i]) <==>
        !Parse(c, v.items[i]).err && !Parse(c, v.items[i]).torn && ReadBack(nodes.list[i].value) == v.items[i]
    {
    }
  }

  lemma MixedBack(items: seq<Cbor>, list: seq<Node>)
    requires |list| == |items|
    ensures ReadBack(MixedArray(list)) == CArray(items) <==>
      forall i :: 0 <= i < |items| ==> ReadBack(list[i].value) == items[i]
  {
    var back := ReadBack(MixedArray(list)).items;
    assert forall i :: 0 <= i < |items| ==> back[i] == ReadBack(list[i].value);
  }

  /** Building the tree and reading it back gives the same value, without an error, exactly for what
      can be kept: whatever too long a string leaves in its slot. An empty array is read back as a
      null. */
  lemma {:induction false} KeptIffKeepable(c: Copy, v: Cbor)
    ensures Kept(c, v) <==> Keepable(v)
    ensures v == CArray([]) ==> !Parse(c, v).err && ReadBack(Parse(c, v).value) == CNull
  {
    match v
    case CMap(pairs) =>
      MapKept(c, v);
      forall i | 0 <= i < |pairs| ensures Kept(c, pairs[i].value) <==> Keepable(pairs[i].value) {
        KeptIffKeepable(c, pairs[i].value);
      }
    case CArray(items) =>
      if items != [] {
        ArrayKept(c, v);
        forall i | 0 <= i < |items| ensures Kept(c, items[i]) <==> Keepable(items[i]) {
          KeptIffKeepable(c, items[i]);
        }
        ScalarsKeepable(items);
      }
    case _ =>
  }

  lemma ArrayKept(c: Copy, v: Cbor)
    requires v.CArray? && v.items != []
    ensures var kind := ArrayKind(v.items, |v.items|);
      Kept(c, v) <==>
        && (Typed(kind) ==> !HasNull(v.items))
        && (kind == ByteStrings || kind == Texts ==> AllFit(v.items))
        && (kind == Objects || !Typed(kind) ==> forall i :: 0 <= i < |v.items| ==> Kept(c, v.items[i]))
  {
    var kind := ArrayKind(v.items, |v.items|);
    if kind == Objects {
      ObjectsKept(c, v);
    } else if Typed(kind) {
      TypedKept(c, v.items, kind);
    } else {
      MixedKept(c, v);
    }
  }

  lemma ScalarsKeepable(items: seq<Cbor>)
    ensures var kind := ArrayKind(items, |items|);
      Typed(kind) && kind != Objects && !HasNull(items) ==> forall i :: 0 <= i < |items| ==> Keepable(items[i])
  {
    var kind := ArrayKind(items, |items|);
    if Typed(kind) {
      KindIsShared(items, |items|, kind);
    }
  }

  /** The array that is built is typed exactly when the elements share one scalar or map type. */
  lemma TypedIffShared(c: Copy, items: seq<Cbor>, k: Kind)
    requires items != [] && Typed(k) && !HasNull(items)
    ensures ArrayKind(items, |items|) == k <==> forall i :: 0 <= i < |items| ==> KindOf(items[i]) == k
    ensures !Typed(ArrayKind(items, |items|)) <==> Parse(c, CArray(items)).value.MixedArray?
  {
    KindIsShared(items, |items|, k);
  }

  /** An array of mixed types or of arrays never reports an error, whatever went wrong in it. */
  lemma MixedArraysHideErrors(c: Copy, v: Cbor)
    requires v.CArray? && v.items != [] && !Typed(ArrayKind(v.items, |v.items|))
    ensures !Parse(c, v).err
    ensures Parse(c, v).torn <==>
      exists i :: 0 <= i < |v.items| && (Parse(c, v.items[i]).err || Parse(c, v.items[i]).torn)
  {
    ItemsKept(c, v, |v.items|);
  }

  /** For one: a null among numbers is an error, and inside another array it is none. */
  lemma NullAmongNumbers(c: Copy, i: int)
    ensures Parse(c, CArray([CInt(i), CNull])).err
    ensures !Parse(c, CArray([CArray([CInt(i), CNull])])).err && Parse(c, CArray([CArray([CInt(i), CNull])])).torn
  {
    var inner := [CInt(i), CNull];
    assert ArrayKind(inner, 1) == Ints;
    assert inner[1].CNull?;
    var outer := [CArray(inner)];
    assert ArrayKind(outer, 1) == Arrays;
    MixedArraysHideErrors(c, CArray(outer));
    assert Parse(c, outer[0]).err;
  }

  // ---------------------------------------------------------------------------
  // The builder
  // ---------------------------------------------------------------------------

  /** oc_parse_single_entity */
  method ParseEntity(c: Copy, v: Cbor) returns (p: Parsed)
    ensures p == Parse(c, v)
    decreases v, Width(v) + 1
  {
    match v
    case CMap(_) =>
      var m := ParseObject(c, v);
      p := if m.err then Parsed(Nil, true, true) else Parsed(Object(m.list), false, m.torn);
    case CArray(_) =>
      p := ParseArray(c, v);
    case _ =>
      p := Parse(c, v);
  }

  /** oc_parse_rep_value_object: each member is linked behind the last one. */
  method ParseObject(c: Copy, v: Cbor) returns (m: Nodes)
    requires v.CMap?
    ensures m == ParsePairs(c, v, |v.pairs|)
    decreases v, 0
  {
    m := Nodes([], false, false);
    for n := 0 to |v.pairs|
      invariant m == ParsePairs(c, v, n) && !m.err
    {
      var e := ParseEntity(c, v.pairs[n].value);
      if e.err {
        m := Nodes(m.list, true, true);
        PairsStop(c, v, n + 1, |v.pairs|);
        return;
      }
      m := Nodes(m.list + [MakeNode(v.pairs[n].key, e.value)], false, m.torn || e.torn);
    }
  }

  lemma {:induction false} PairsStop(c: Copy, v: Cbor, n: nat, k: nat)
    requires v.CMap? && n <= k <= |v.pairs| && ParsePairs(c, v, n).err
    ensures ParsePairs(c, v, k) == ParsePairs(c, v, n)
  {
    if n < k {
      PairsStop(c, v, n, k - 1);
    }
  }

  lemma {:induction false} ObjsStop(c: Copy, v: Cbor, n: nat, k: nat)
    requires v.CArray? && n <= k <= |v.items| && ParseObjs(c, v, n).err
    ensures ParseObjs(c, v, k) == ParseObjs(c, v, n)
  {
    if n < k {
      ObjsStop(c, v, n, k - 1);
    }
  }

  /** oc_parse_rep_value_array: one pass for the type, one for the elements. */
  method ParseArray(c: Copy, v: Cbor) returns (p: Parsed)
    requires v.CArray?
    ensures p == Parse(c, v)
    decreases v, Width(v)
  {
    if v.items == [] {
      return Parsed(Nil, false, false);
    }
    var kind := ScanKind(v.items);
    if kind == Objects {
      var o := ParseObjectArray(c, v);
      p := Parsed(ObjectList(o.list), o.err, o.torn);
    } else if Typed(kind) {
      p := ParseTypedArray(c, v.items, kind);
    } else {
      var nodes := ParseMixedArray(c, v);
      p := Parsed(MixedArray(nodes.list), false, nodes.torn);
    }
  }

  /** The slots of a typed array, filled up to the first null. */
  method FillSlots<T>(items: seq<Cbor>, pick: Cbor -> T, rest: T) returns (slots: seq<T>, bad: bool)
    ensures slots == Picked(items, pick, rest) && bad == HasNull(items)
  {
    slots := seq(|items|, _ => rest);
    for k := 0 to |items|
      invariant |slots| == |items| && forall j :: 0 <= j < k ==> !items[j].CNull?
      invariant forall j :: 0 <= j < k ==> slots[j] == pick(items[j])
      invariant forall j :: k <= j < |items| ==> slots[j] == rest
    {
      if items[k].CNull? {
        return slots, true;
      }
      slots := slots[k := pick(items[k])];
    }
    return slots, false;
  }

  method ParseTypedArray(c: Copy, items: seq<Cbor>, kind: Kind) returns (p: Parsed)
    requires Typed(kind) && kind != Objects
    ensures p == ParseTyped(c, items, kind)
  {
    match kind
    case Ints =>
      var slots, bad := FillSlots(items, PickInt, 0);
      p := Parsed(IntArray(slots), bad, bad);
    case Floats =>
      var slots, bad := FillSlots(items, PickFloat, 0.0);
      p := Parsed(FloatArray(slots), bad, bad);
    case Doubles =>
      var slots, bad := FillSlots(items, PickDouble, 0.0);
      p := Parsed(DoubleArray(slots), bad, bad);
    case Bools =>
      var slots, bad := FillSlots(items, PickBool, false);
      p := Parsed(BoolArray(slots), bad, bad);
    case ByteStrings =>
      var slots, bad := FillSlots(items, PickBytes(c), []);
      p := Parsed(ByteStringArray(slots), bad, bad);
    case Texts =>
      var slots, bad := FillSlots<CString>(items, PickText(c), []);
      p := Parsed(TextArray(slots), bad, bad);
  }

  method ParseObjectArray(c: Copy, v: Cbor) returns (o: Objs)
    requires v.CArray?
    ensures o == ParseObjs(c, v, |v.items|)
    decreases v, 0
  {
    o := Objs([], false, false);
    for n := 0 to |v.items|
      invariant o == ParseObjs(c, v, n) && !o.err
    {
      if !v.items[n].CMap? {
        o := Objs(o.list, true, true);
        ObjsStop(c, v, n + 1, |v.items|);
        return;
      }
      var m := ParseObject(c, v.items[n]);
      o := Objs(o.list + [Obj(m.list)], false, o.torn || m.err || m.torn);
    }
  }

  method ParseMixedArray(c: Copy, v: Cbor) returns (nodes: Nodes)
    requires v.CArray?
    ensures nodes == ParseItems(c, v, |v.items|)
    decreases v, 0
  {
    nodes := Nodes([], false, false);
    for n := 0 to |v.items|
      invariant nodes == ParseItems(c, v, n)
    {
      var e := ParseEntity(c, v.items[n]);
      nodes := Nodes(nodes.list + [Element(e.value)], false, nodes.torn || e.err || e.torn);
    }
  }
}
