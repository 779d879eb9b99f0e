/** The tree a CBOR payload is parsed into, and its JSON writer. The writer never looks at how
    much room is left: it keeps a moving position, the room from there, and a running total. */
module RepTree {
  import opened Wrappers
  import opened Base64

  /** A C string: no zero byte inside. */
  type CString = s: seq<byte> | 0 !in s

  /** One list node. A member of a map has a name or a non-negative iname; an element of an
      array has neither (empty name, iname -1). */
  datatype Node = Node(name: CString, iname: int, value: Value)

  /** An element of an array of objects: only its member list matters. */
  datatype Obj = Obj(members: seq<Node>)

  datatype Value =
    | Nil
    | Int(i: int)
    | Float(f: real)
    | Double(d: real)
    | Bool(b: bool)
    | ByteString(bytes: seq<byte>)
    | Text(text: CString)
    | Object(members: seq<Node>)
    | IntArray(ints: seq<int>)
    | FloatArray(floats: seq<real>)
    | DoubleArray(doubles: seq<real>)
    | BoolArray(bools: seq<bool>)
    | ByteStringArray(byteStrings: seq<seq<byte>>)
    | TextArray(texts: seq<CString>)
    | ObjectArray(first: Obj, rest: seq<Obj>)
    | MixedArray(items: seq<Node>)
}

module JsonWriter {
  import opened Wrappers
  import opened Base64
  import opened RepTree

  // ---------------------------------------------------------------------------
  // The full rendering
  // ---------------------------------------------------------------------------

  function Ascii(s: string): (t: seq<byte>)
    ensures |t| == |s|
  {
    seq(|s|, i requires 0 <= i < |s| => (s[i] as int % 256) as byte)
  }

  function IntText(n: int): seq<byte> {
    Ascii(if n < 0 then "-" + Decimal(-n) else Decimal(n))
  }

  function Tabs(depth: nat): seq<byte> {
    if depth == 0 then [] else Tabs(depth - 1) + Ascii("  ")
  }

  function Quoted(t: seq<byte>): seq<byte> {
    Ascii("\"") + t + Ascii("\"")
  }

  function Choose(pretty: bool, a: string, b: string): seq<byte> {
    if pretty then Ascii(a) else Ascii(b)
  }

  /** The text before a node's value: `"name":`, `"iname":`, or nothing for an array element. */
  function KeyText(acc: seq<byte>, n: Node, pretty: bool): seq<byte> {
    if |n.name| > 0 then acc + (Quoted(n.name) + Choose(pretty, " : ", ":"))
    else if n.iname >= 0 then acc + (Quoted(IntText(n.iname)) + Choose(pretty, " : ", ":"))
    else acc
  }

  function BoolText(b: bool): seq<byte> {
    if b then Ascii("true") else Ascii("false")
  }

  /** Text added only when pretty. */
  function Pretty(acc: seq<byte>, pretty: bool, t: seq<byte>): seq<byte> {
    if pretty then acc + t else acc
  }

  // Each function below gives `acc` followed by its own text, so that rendering goes left to
  // right; a nested list is rendered on its own (from the empty text) and then appended.

  /** The first k elements of an array of numbers or booleans, separators included. */
  function Flat(acc: seq<byte>, texts: seq<seq<byte>>, k: nat, pretty: bool): seq<byte>
    requires k <= |texts|
  {
    if k == 0 then acc
    else
      var t := Flat(acc, texts, k - 1, pretty) + texts[k - 1];
      if k < |texts| then t + Choose(pretty, ", ", ",") else t
  }

  /** The first k elements of an array of strings, one line each when pretty. */
  function Lines(acc: seq<byte>, texts: seq<seq<byte>>, k: nat, depth: nat, pretty: bool): seq<byte>
    requires k <= |texts|
  {
    if k == 0 then acc
    else
      var t := Pretty(Lines(acc, texts, k - 1, depth, pretty), pretty, Tabs(depth + 2)) + Quoted(texts[k - 1]);
      if k < |texts| then t + Choose(pretty, ",\n", ",") else Pretty(t, pretty, Ascii("\n"))
  }

  function Map<A, B>(f: A -> B, s: seq<A>): (r: seq<B>)
    ensures |r| == |s|
    ensures forall i :: 0 <= i < |s| ==> r[i] == f(s[i])
  {
    seq(|s|, i requires 0 <= i < |s| => f(s[i]))
  }

  predicate IsScalar(v: Value) {
    v.Nil? || v.Int? || v.Float? || v.Double? || v.Bool? || v.ByteString? || v.Text?
  }

  function ScalarText(v: Value, fmt: real -> seq<byte>): seq<byte>
    requires IsScalar(v)
  {
    match v
    case Nil => Ascii("null")
    case Int(i) => IntText(i)
    case Float(x) => fmt(x)
    case Double(x) => fmt(x)
    case Bool(b) => BoolText(b)
    case ByteString(s) => Quoted(Encoded(s))
    case Text(s) => Quoted(s)
  }

  predicate IsFlat(v: Value) {
    v.IntArray? || v.FloatArray? || v.DoubleArray? || v.BoolArray?
  }

  /** The elements of an array of numbers or booleans as texts; `fmt` is "%f". */
  function Elements(v: Value, fmt: real -> seq<byte>): seq<seq<byte>>
    requires IsFlat(v)
  {
    match v
    case IntArray(xs) => Map(IntText, xs)
    case FloatArray(xs) => Map(fmt, xs)
    case DoubleArray(xs) => Map(fmt, xs)
    case BoolArray(xs) => Map(BoolText, xs)
  }

  function ValueText(acc: seq<byte>, v: Value, depth: nat, pretty: bool, fmt: real -> seq<byte>): seq<byte>
    decreases v, 0
  {
    if IsScalar(v) then acc + ScalarText(v, fmt)
    else if IsFlat(v) then NumbersText(acc, Elements(v, fmt), pretty)
    else
      match v
      case Object(members) =>
        ObjectText(acc, Nodes([], members, |members|, depth + 1, pretty, fmt), depth, pretty)
      case ByteStringArray(xs) => StringsText(acc, Map(Encoded, xs), depth, pretty)
      case TextArray(xs) => StringsText(acc, xs, depth, pretty)
      case ObjectArray(first, rest) =>
        var t := FirstObject(acc, Nodes([], first.members, |first.members|, depth + 2, pretty, fmt), depth, pretty);
        ObjectsEnd(Objects(t, rest, |rest|, depth, pretty, fmt), depth, pretty)
      case MixedArray(items) =>
        MixedText(acc, Nodes([], items, |items|, depth + 2, pretty, fmt), items != [], depth, pretty)
  }

  function NumbersText(acc: seq<byte>, texts: seq<seq<byte>>, pretty: bool): seq<byte> {
    Flat(acc + Ascii("["), texts, |texts|, pretty) + Ascii("]")
  }

  function ObjectsEnd(acc: seq<byte>, depth: nat, pretty: bool): seq<byte> {
    Pretty(acc, pretty, Tabs(depth + 2)) + Ascii("}]")
  }

  function ObjectText(acc: seq<byte>, members: seq<byte>, depth: nat, pretty: bool): seq<byte> {
    Pretty(acc + Choose(pretty, "{\n", "{") + members, pretty, Tabs(depth + 1)) + Ascii("}")
  }

  function FirstObject(acc: seq<byte>, members: seq<byte>, depth: nat, pretty: bool): seq<byte> {
    Opening(Pretty(acc + Ascii("["), pretty, Ascii("\n")), depth, pretty) + members
  }

  function MixedText(acc: seq<byte>, items: seq<byte>, some: bool, depth: nat, pretty: bool): seq<byte> {
    Pretty(Pretty(acc + Ascii("["), pretty && some, Ascii("\n")) + items, pretty, Tabs(depth + 2)) + Ascii("]")
  }

  function StringsText(acc: seq<byte>, texts: seq<seq<byte>>, depth: nat, pretty: bool): seq<byte> {
    var t := Lines(acc + Choose(pretty, "[\n", "["), texts, |texts|, depth, pretty);
    Pretty(t, pretty, Tabs(depth + 1)) + Ascii("]")
  }

  function NodeText(acc: seq<byte>, n: Node, more: bool, depth: nat, pretty: bool, fmt: real -> seq<byte>): seq<byte>
    decreases n
  {
    var t := KeyText(Pretty(acc, pretty, Tabs(depth + 1)), n, pretty);
    var u := ValueText(t, n.value, depth, pretty, fmt);
    Pretty(if more then u + Ascii(",") else u, pretty, Ascii("\n"))
  }

  function Opening(acc: seq<byte>, depth: nat, pretty: bool): seq<byte> {
    Pretty(acc, pretty, Tabs(depth + 2)) + Choose(pretty, "{\n", "{")
  }

  /** The second to (k+1)-th objects of an array of objects, each with the closing of the one before. */
  function Objects(acc: seq<byte>, objects: seq<Obj>, k: nat, depth: nat, pretty: bool,
          fmt: real -> seq<byte>): seq<byte>
    requires k <= |objects|
    decreases objects, k
  {
    if k == 0 then acc
    else
      var t := Pretty(Objects(acc, objects, k - 1, depth, pretty, fmt), pretty, Tabs(depth + 2)) +
        Choose(pretty, "},\n", "},");
      Opening(t, depth, pretty)
      + Nodes([], objects[k - 1].members, |objects[k - 1].members|, depth + 2, pretty, fmt)
  }

  /** The first k nodes of a list. */
  function Nodes(acc: seq<byte>, nodes: seq<Node>, k: nat, depth: nat, pretty: bool, fmt: real -> seq<byte>): seq<byte>
    requires k <= |nodes|
    decreases nodes, k
  {
    if k == 0 then acc
    else NodeText(Nodes(acc, nodes, k - 1, depth, pretty, fmt), nodes[k - 1], k < |nodes|, depth, pretty, fmt)
  }

  function Rendering(nodes: seq<Node>, pretty: bool, fmt: real -> seq<byte>): seq<byte> {
    var list := nodes != [] && nodes[0].value.Object? && nodes[0].name == [];
    (if list then Choose(pretty, "[\n", "[") else Choose(pretty, "{\n", "{"))
    + Nodes([], nodes, |nodes|, 0, pretty, fmt)
    + (if list then Choose(pretty, "]\n", "]") else Choose(pretty, "}\n", "}"))
  }

  // ---------------------------------------------------------------------------
  // The buffer: what a writer leaves in it
  // ---------------------------------------------------------------------------

  /** The first k bytes of t are at b[off..], and t is cut short only for lack of room. */
  ghost predicate Holds(b: seq<byte>, off: nat, size: nat, t: seq<byte>, k: nat) {
    && k <= |t| && k < size && off + size <= |b|
    && (|t| < size ==> k == |t|)
    && b[off..off + k] == t[..k]
  }

  /** Between contents b0 and b1, a writer given b[off..off + size] produced text t: it stored a
      zero-terminated prefix of t, the whole of t if that fits, and touched nothing outside its
      room. (Producing nothing keeps a zero that was already there.) */
  ghost predicate Wrote(b0: seq<byte>, b1: seq<byte>, off: nat, size: nat, t: seq<byte>) {
    && |b1| == |b0| && off + size <= |b0|
    && b1[..off] == b0[..off]
    && b1[off + size..] == b0[off + size..]
    && (size > 0 ==> exists k ::
          && Holds(b1, off, size, t, k)
          && (t != [] || b0[off] == 0 ==> b1[off + k] == 0))
  }

  /** buf, buf_size and total_char_printed. */
  datatype Cursor = Cursor(off: nat, size: nat, total: nat) {
    /** OC_JSON_UPDATE_BUFFER_AND_TOTAL after a call that reported n characters. */
    function Update(n: nat): Cursor {
      if n < size then Cursor(off + n, size - n, total + n) else Cursor(off + size, 0, total + n)
    }
  }

  /** What has been produced so far: the text, from the buffer b0 and the room (off, size). */
  datatype Trace = Trace(b0: seq<byte>, off: nat, size: nat, text: seq<byte>) {
    ghost predicate Reached(b1: seq<byte>, c: Cursor) {
      && Wrote(b0, b1, off, size, text)
      && c == Cursor(off, size, 0).Update(|text|)
    }

    function Add(t: seq<byte>): Trace {
      Trace(b0, off, size, text + t)
    }

    function To(t: seq<byte>): Trace {
      Trace(b0, off, size, t)
    }
  }

  lemma HoldsMore(b1: seq<byte>, b2: seq<byte>, off: nat, size: nat, t1: seq<byte>, t2: seq<byte>, k: nat)
    requires Holds(b1, off, size, t1, |t1|) && |b2| == |b1|
    requires b2[..off + |t1|] == b1[..off + |t1|]
    requires Holds(b2, off + |t1|, size - |t1|, t2, k)
    ensures Holds(b2, off, size, t1 + t2, |t1| + k)
  {
    assert b2[off..off + |t1|] == b2[..off + |t1|][off..] == b1[..off + |t1|][off..] == t1;
    assert b2[off..off + |t1| + k] == b2[off..off + |t1|] + b2[off + |t1|..off + |t1| + k];
  }

  lemma HoldsStill(b1: seq<byte>, b2: seq<byte>, off: nat, size: nat, t1: seq<byte>, t2: seq<byte>, k: nat)
    requires Holds(b1, off, size, t1, k) && |b2| == |b1| && size <= |t1|
    requires b2[..off + size] == b1[..off + size]
    ensures Holds(b2, off, size, t1 + t2, k) && b2[off + k] == b1[off + k]
  {
    assert b2[off..off + k] == b2[..off + size][off..off + k] == b1[..off + size][off..off + k] == b1[off..off + k];
    assert (t1 + t2)[..k] == t1[..k];
    assert b2[off + k] == b2[..off + size][off + k];
  }

  /** Where the text that a writer has left ends. */
  lemma TextEnds(b0: seq<byte>, b1: seq<byte>, off: nat, size: nat, t: seq<byte>) returns (k: nat)
    requires Wrote(b0, b1, off, size, t) && size > 0
    ensures Holds(b1, off, size, t, k) && k < size && |b1| == |b0| && off + size <= |b0|
    ensures (|t| < size ==> k == |t|) && (t != [] || b0[off] == 0 ==> b1[off + k] == 0)
  {
    k :| Holds(b1, off, size, t, k) && (t != [] || b0[off] == 0 ==> b1[off + k] == 0);
  }

  lemma ExtendWhole(b0: seq<byte>, b1: seq<byte>, b2: seq<byte>, off: nat, size: nat, t1: seq<byte>, t2: seq<byte>)
    requires Wrote(b0, b1, off, size, t1) && |t1| < size && Wrote(b1, b2, off + |t1|, size - |t1|, t2)
    ensures Wrote(b0, b2, off, size, t1 + t2)
  {
    var k1 := TextEnds(b0, b1, off, size, t1);
    var k2 := TextEnds(b1, b2, off + |t1|, size - |t1|, t2);
    assert b2[..off] == b2[..off + |t1|][..off] == b1[..off + |t1|][..off] == b1[..off];
    HoldsMore(b1, b2, off, size, t1, t2, k2);
    hide Holds;
    assert t1 + t2 == [] ==> t1 == [] && t2 == [];
    assert Holds(b2, off, size, t1 + t2, |t1| + k2);
  }

  lemma ExtendCut(b0: seq<byte>, b1: seq<byte>, b2: seq<byte>, off: nat, size: nat, t1: seq<byte>, t2: seq<byte>)
    requires Wrote(b0, b1, off, size, t1) && size <= |t1| && Wrote(b1, b2, off + size, 0, t2)
    ensures Wrote(b0, b2, off, size, t1 + t2)
  {
    assert b2[..off] == b2[..off + size][..off] == b1[..off + size][..off] == b1[..off];
    if size > 0 {
      var k1 := TextEnds(b0, b1, off, size, t1);
      HoldsStill(b1, b2, off, size, t1, t2, k1);
      hide Holds;
      assert Holds(b2, off, size, t1 + t2, k1);
    }
  }

  /** Writers compose: what two of them leave, one after the other, is what a single writer of
      the concatenation would leave. */
  lemma Extend(tr: Trace, c: Cursor, b1: seq<byte>, b2: seq<byte>, t2: seq<byte>)
    requires tr.Reached(b1, c)
    requires Wrote(b1, b2, c.off, c.size, t2)
    ensures tr.Add(t2).Reached(b2, c.Update(|t2|))
  {
    hide Wrote;
    if |tr.text| < tr.size {
      ExtendWhole(tr.b0, b1, b2, tr.off, tr.size, tr.text, t2);
    } else {
      ExtendCut(tr.b0, b1, b2, tr.off, tr.size, tr.text, t2);
    }
  }

  // ---------------------------------------------------------------------------
  // The writer
  // ---------------------------------------------------------------------------

  /** The C library's snprintf of a text already formatted. */
  method Snprintf(buf: array<byte>, off: nat, size: nat, t: seq<byte>) returns (n: nat)
    requires off + size <= buf.Length
    modifies buf
    ensures n == |t| && Wrote(old(buf[..]), buf[..], off, size, t)
  {
    if size > 0 {
      var k := if |t| < size then |t| else size - 1;
      forall i | 0 <= i < k {
        buf[off + i] := t[i];
      }
      buf[off + k] := 0;
      assert Holds(buf[..], off, size, t, k);
    }
    return |t|;
  }

  /** snprintf followed by OC_JSON_UPDATE_BUFFER_AND_TOTAL. */
  method Put(buf: array<byte>, c: Cursor, ghost tr: Trace, t: seq<byte>) returns (c': Cursor, ghost tr': Trace)
    requires tr.Reached(buf[..], c)
    modifies buf
    ensures tr' == tr.Add(t) && tr'.Reached(buf[..], c')
  {
    var n := Snprintf(buf, c.off, c.size, t);
    Extend(tr, c, old(buf[..]), buf[..], t);
    c', tr' := c.Update(n), tr.Add(t);
  }

  ghost function Start(b: seq<byte>, off: nat, size: nat): (tr: Trace)
    requires off + size <= |b|
    ensures tr.Reached(b, Cursor(off, size, 0))
  {
    assert size > 0 ==> Holds(b, off, size, [], 0);
    Trace(b, off, size, [])
  }

  method Tab(buf: array<byte>, off: nat, size: nat, depth: nat) returns (n: nat)
    requires off + size <= buf.Length
    modifies buf
    ensures n == |Tabs(depth)| && Wrote(old(buf[..]), buf[..], off, size, Tabs(depth))
  {
    var c := Cursor(off, size, 0);
    ghost var tr := Start(buf[..], off, size);
    for i := 0 to depth
      invariant tr == Trace(old(buf[..]), off, size, Tabs(i)) && tr.Reached(buf[..], c)
    {
      c, tr := Put(buf, c, tr, Ascii("  "));
    }
    return c.total;
  }

  /** oc_rep_to_json_tab followed by the macro. */
  method PutTabs(buf: array<byte>, c: Cursor, ghost tr: Trace, depth: nat) returns (c': Cursor, ghost tr': Trace)
    requires tr.Reached(buf[..], c)
    modifies buf
    ensures tr' == tr.Add(Tabs(depth)) && tr'.Reached(buf[..], c')
  {
    var n := Tab(buf, c.off, c.size, depth);
    Extend(tr, c, old(buf[..]), buf[..], Tabs(depth));
    c', tr' := c.Update(n), tr.Add(Tabs(depth));
  }

  /** The room the encoding of n bytes needs with a terminating zero. */
  method Base64Size(n: nat) returns (size: nat)
    ensures size == EncodedLength(n) + 1
  {
    size := (n / 3) * 4;
    if n % 3 != 0 {
      size := size + 4;
    }
    size := size + 1;
  }

  /** A byte string in base64: encoded straight into the buffer when all of it fits with a
      terminating zero, and otherwise cut right after the opening quote. */
  method Base64String(buf: array<byte>, off: nat, size: nat, bytes: seq<byte>) returns (n: nat)
    requires off + size <= buf.Length
    modifies buf
    ensures n == |Quoted(Encoded(bytes))|
    ensures Wrote(old(buf[..]), buf[..], off, size, Quoted(Encoded(bytes)))
  {
    hide Encoded;
    hide Holds;
    var b64Size := Base64Size(|bytes|);
    ghost var e := Encoded(bytes);
    ghost var b0 := buf[..];
    var quote := Ascii("\"");
    n := Snprintf(buf, off, size, quote);
    var c := Cursor(off, size, 0).Update(n);
    ghost var b1 := buf[..];
    if c.size > b64Size {
      var outputLen := Encode(bytes, buf, c.off, b64Size);
      assert buf[off + 1..off + 1 + |e|] == e;
      c := c.Update(outputLen);
      assert c == Cursor(off + 1 + |e|, size - 1 - |e|, 1 + |e|);
      ghost var b2 := buf[..];
      n := Snprintf(buf, c.off, c.size, quote);
      c := c.Update(n);
      QuotedFits(b0, b1, b2, buf[..], off, size, e);
    } else {
      c := Cursor(c.off + c.size, 0, c.total + (b64Size - 1));
      n := Snprintf(buf, c.off, c.size, quote);
      c := c.Update(n);
      NoRoom(b1, buf[..], c.off, quote);
      QuotedCut(b0, b1, off, size, e);
    }
    return c.total;
  }

  lemma NoRoom(b0: seq<byte>, b1: seq<byte>, off: nat, t: seq<byte>)
    requires Wrote(b0, b1, off, 0, t)
    ensures b1 == b0
  {
    assert b1 == b1[..off] + b1[off..] == b0[..off] + b0[off..] == b0;
  }

  lemma QuotedFits(b0: seq<byte>, b1: seq<byte>, b2: seq<byte>, b3: seq<byte>, off: nat, size: nat, e: seq<byte>)
    requires size > |e| + 2
    requires Wrote(b0, b1, off, size, Ascii("\""))
    requires |b2| == |b1| && b2[off + 1..off + 1 + |e|] == e
    requires forall k :: 0 <= k < off + 1 || off + 2 + |e| <= k < |b1| ==> b2[k] == b1[k]
    requires Wrote(b2, b3, off + 1 + |e|, size - 1 - |e|, Ascii("\""))
    ensures Wrote(b0, b3, off, size, Quoted(e))
  {
    var q, off', t := Ascii("\""), off + 1 + |e|, Quoted(e);
    OneCharWritten(b0, b1, off, size, q);
    OneCharWritten(b2, b3, off', size - 1 - |e|, q);
    hide Quoted;
    assert t == q + e + q;
    forall k | 0 <= k < |t| ensures b3[off + k] == t[k] {
      assert off + k < off' ==> b3[off + k] == b3[..off'][off + k] == b2[..off'][off + k] == b2[off + k];
      assert 0 < k <= |e| ==> b2[off + k] == b2[off + 1..off'][k - 1] == e[k - 1];
    }
    FullyWritten(b0, b3, off, size, t);
  }

  lemma OneCharWritten(b0: seq<byte>, b1: seq<byte>, off: nat, size: nat, q: seq<byte>)
    requires Wrote(b0, b1, off, size, q) && |q| == 1 && size > 1
    ensures b1[off] == q[0] && b1[off + 1] == 0
  {
    assert Holds(b1, off, size, q, 1);
    assert b1[off] == b1[off..off + 1][0] == q[..1][0];
  }

  lemma FullyWritten(b0: seq<byte>, b1: seq<byte>, off: nat, size: nat, t: seq<byte>)
    requires |b1| == |b0| && off + size <= |b0| && |t| < size
    requires forall k :: 0 <= k < |t| ==> b1[off + k] == t[k]
    requires b1[off + |t|] == 0
    requires forall k :: 0 <= k < off || off + size <= k < |b0| ==> b1[k] == b0[k]
    ensures Wrote(b0, b1, off, size, t)
  {
    assert b1[off..off + |t|] == t == t[..|t|];
    assert Holds(b1, off, size, t, |t|);
  }

  lemma QuotedCut(b0: seq<byte>, b1: seq<byte>, off: nat, size: nat, e: seq<byte>)
    requires size <= |e| + 2
    requires Wrote(b0, b1, off, size, Ascii("\""))
    ensures Wrote(b0, b1, off, size, Quoted(e))
  {
    if size > 0 {
      var k: nat :| Holds(b1, off, size, Ascii("\""), k) && b1[off + k] == 0;
      assert Holds(b1, off, size, Quoted(e), k);
    }
  }

  /** oc_rep_to_json_base64_encoded_byte_string followed by the macro. */
  method PutBase64(buf: array<byte>, c: Cursor, ghost tr: Trace, bytes: seq<byte>)
    returns (c': Cursor, ghost tr': Trace)
    requires tr.Reached(buf[..], c)
    modifies buf
    ensures tr' == tr.Add(Quoted(Encoded(bytes))) && tr'.Reached(buf[..], c')
  {
    var n := Base64String(buf, c.off, c.size, bytes);
    Extend(tr, c, old(buf[..]), buf[..], Quoted(Encoded(bytes)));
    c', tr' := c.Update(n), tr.Add(Quoted(Encoded(bytes)));
  }

  /** oc_rep_to_json_format on a nested list, followed by the macro. */
  method PutNodes(nodes: seq<Node>, buf: array<byte>, c: Cursor, ghost tr: Trace, depth: nat, pretty: bool,
          fmt: real -> seq<byte>)
    returns (c': Cursor, ghost tr': Trace)
    requires tr.Reached(buf[..], c)
    modifies buf
    ensures tr' == tr.Add(Nodes([], nodes, |nodes|, depth, pretty, fmt)) && tr'.Reached(buf[..], c')
    decreases nodes, 1
  {
    var n := Format(nodes, buf, c.off, c.size, depth, pretty, fmt);
    ghost var t := Nodes([], nodes, |nodes|, depth, pretty, fmt);
    Extend(tr, c, old(buf[..]), buf[..], t);
    c', tr' := c.Update(n), tr.Add(t);
  }

  /** Text written only when pretty. */
  method PutPretty(buf: array<byte>, c: Cursor, ghost tr: Trace, pretty: bool, t: seq<byte>)
    returns (c': Cursor, ghost tr': Trace)
    requires tr.Reached(buf[..], c)
    modifies buf
    ensures tr' == tr.To(Pretty(tr.text, pretty, t)) && tr'.Reached(buf[..], c')
  {
    c', tr' := c, tr;
    if pretty {
      c', tr' := Put(buf, c, tr, t);
    }
  }

  method PutPrettyTabs(buf: array<byte>, c: Cursor, ghost tr: Trace, pretty: bool, depth: nat)
    returns (c': Cursor, ghost tr': Trace)
    requires tr.Reached(buf[..], c)
    modifies buf
    ensures tr' == tr.To(Pretty(tr.text, pretty, Tabs(depth))) && tr'.Reached(buf[..], c')
  {
    c', tr' := c, tr;
    if pretty {
      c', tr' := PutTabs(buf, c, tr, depth);
    }
  }

  /** The loops over arrays of integers, floats, doubles and booleans. */
  method PutFlat(texts: seq<seq<byte>>, buf: array<byte>, c0: Cursor, ghost tr0: Trace, pretty: bool)
    returns (c: Cursor, ghost tr: Trace)
    requires tr0.Reached(buf[..], c0)
    modifies buf
    ensures tr == tr0.To(Flat(tr0.text, texts, |texts|, pretty)) && tr.Reached(buf[..], c)
  {
    c, tr := c0, tr0;
    for i := 0 to |texts|
      invariant tr == tr0.To(Flat(tr0.text, texts, i, pretty)) && tr.Reached(buf[..], c)
    {
      c, tr := Put(buf, c, tr, texts[i]);
      if i < |texts| - 1 {
        c, tr := Put(buf, c, tr, Choose(pretty, ", ", ","));
      }
    }
  }

  /** The loops over arrays of byte strings (`raw` holds the bytes) and of strings. */
  method PutLines(texts: seq<seq<byte>>, raw: seq<seq<byte>>, buf: array<byte>, c0: Cursor, ghost tr0: Trace,
          depth: nat, pretty: bool)
    returns (c: Cursor, ghost tr: Trace)
    requires tr0.Reached(buf[..], c0)
    requires raw == [] || texts == Map(Encoded, raw)
    modifies buf
    ensures tr == tr0.To(Lines(tr0.text, texts, |texts|, depth, pretty)) && tr.Reached(buf[..], c)
  {
    c, tr := c0, tr0;
    for i := 0 to |texts|
      invariant tr == tr0.To(Lines(tr0.text, texts, i, depth, pretty)) && tr.Reached(buf[..], c)
    {
      c, tr := PutPrettyTabs(buf, c, tr, pretty, depth + 2);
      if raw != [] {
        c, tr := PutBase64(buf, c, tr, raw[i]);
      } else {
        c, tr := Put(buf, c, tr, Quoted(texts[i]));
      }
      if i < |texts| - 1 {
        c, tr := Put(buf, c, tr, Choose(pretty, ",\n", ","));
      } else {
        c, tr := PutPretty(buf, c, tr, pretty, Ascii("\n"));
      }
    }
  }

  method PutOpening(buf: array<byte>, c0: Cursor, ghost tr0: Trace, depth: nat, pretty: bool)
    returns (c: Cursor, ghost tr: Trace)
    requires tr0.Reached(buf[..], c0)
    modifies buf
    ensures tr == tr0.To(Opening(tr0.text, depth, pretty)) && tr.Reached(buf[..], c)
  {
    c, tr := PutPrettyTabs(buf, c0, tr0, pretty, depth + 2);
    c, tr := Put(buf, c, tr, Choose(pretty, "{\n", "{"));
  }

  /** The loop over an array of objects, from its second element on. */
  method PutObjects(objects: seq<Obj>, buf: array<byte>, c0: Cursor, ghost tr0: Trace, depth: nat, pretty: bool,
          fmt: real -> seq<byte>)
    returns (c: Cursor, ghost tr: Trace)
    requires tr0.Reached(buf[..], c0)
    modifies buf
    ensures tr == tr0.To(Objects(tr0.text, objects, |objects|, depth, pretty, fmt)) && tr.Reached(buf[..], c)
    decreases objects, 0
  {
    c, tr := c0, tr0;
    for i := 0 to |objects|
      invariant tr == tr0.To(Objects(tr0.text, objects, i, depth, pretty, fmt)) && tr.Reached(buf[..], c)
    {
      c, tr := PutPrettyTabs(buf, c, tr, pretty, depth + 2);
      c, tr := Put(buf, c, tr, Choose(pretty, "},\n", "},"));
      c, tr := PutOpening(buf, c, tr, depth, pretty);
      c, tr := PutNodes(objects[i].members, buf, c, tr, depth + 2, pretty, fmt);
    }
  }

  method PutObject(members: seq<Node>, buf: array<byte>, c0: Cursor, ghost tr0: Trace, depth: nat, pretty: bool,
          fmt: real -> seq<byte>)
    returns (c: Cursor, ghost tr: Trace)
    requires tr0.Reached(buf[..], c0)
    modifies buf
    ensures tr == tr0.To(ObjectText(tr0.text, Nodes([], members, |members|, depth + 1, pretty, fmt), depth, pretty))
      && tr.Reached(buf[..], c)
    decreases members, 2
  {
    c, tr := Put(buf, c0, tr0, Choose(pretty, "{\n", "{"));
    c, tr := PutNodes(members, buf, c, tr, depth + 1, pretty, fmt);
    c, tr := PutPrettyTabs(buf, c, tr, pretty, depth + 1);
    c, tr := Put(buf, c, tr, Ascii("}"));
  }

  method PutStrings(texts: seq<seq<byte>>, raw: seq<seq<byte>>, buf: array<byte>, c0: Cursor, ghost tr0: Trace,
          depth: nat, pretty: bool)
    returns (c: Cursor, ghost tr: Trace)
    requires tr0.Reached(buf[..], c0)
    requires raw == [] || texts == Map(Encoded, raw)
    modifies buf
    ensures tr == tr0.To(StringsText(tr0.text, texts, depth, pretty)) && tr.Reached(buf[..], c)
  {
    c, tr := Put(buf, c0, tr0, Choose(pretty, "[\n", "["));
    c, tr := PutLines(texts, raw, buf, c, tr, depth, pretty);
    c, tr := PutPrettyTabs(buf, c, tr, pretty, depth + 1);
    c, tr := Put(buf, c, tr, Ascii("]"));
  }

  method PutFirstObject(members: seq<Node>, buf: array<byte>, c0: Cursor, ghost tr0: Trace, depth: nat, pretty: bool,
          fmt: real -> seq<byte>)
    returns (c: Cursor, ghost tr: Trace)
    requires tr0.Reached(buf[..], c0)
    modifies buf
    ensures tr == tr0.To(FirstObject(tr0.text, Nodes([], members, |members|, depth + 2, pretty, fmt), depth, pretty))
      && tr.Reached(buf[..], c)
    decreases members, 2
  {
    c, tr := Put(buf, c0, tr0, Ascii("["));
    c, tr := PutPretty(buf, c, tr, pretty, Ascii("\n"));
    c, tr := PutOpening(buf, c, tr, depth, pretty);
    c, tr := PutNodes(members, buf, c, tr, depth + 2, pretty, fmt);
  }

  method PutOtherObjects(objects: seq<Obj>, buf: array<byte>, c0: Cursor, ghost tr0: Trace, depth: nat, pretty: bool,
          fmt: real -> seq<byte>)
    returns (c: Cursor, ghost tr: Trace)
    requires tr0.Reached(buf[..], c0)
    modifies buf
    ensures tr == tr0.To(ObjectsEnd(Objects(tr0.text, objects, |objects|, depth, pretty, fmt), depth, pretty))
      && tr.Reached(buf[..], c)
    decreases objects, 1
  {
    c, tr := PutObjects(objects, buf, c0, tr0, depth, pretty, fmt);
    c, tr := PutPrettyTabs(buf, c, tr, pretty, depth + 2);
    c, tr := Put(buf, c, tr, Ascii("}]"));
  }

  method PutMixedArray(items: seq<Node>, buf: array<byte>, c0: Cursor, ghost tr0: Trace, depth: nat, pretty: bool,
          fmt: real -> seq<byte>)
    returns (c: Cursor, ghost tr: Trace)
    requires tr0.Reached(buf[..], c0)
    modifies buf
    ensures tr ==
      tr0.To(MixedText(tr0.text, Nodes([], items, |items|, depth + 2, pretty, fmt), items != [], depth, pretty))
    ensures tr.Reached(buf[..], c)
    decreases items, 2
  {
    c, tr := Put(buf, c0, tr0, Ascii("["));
    c, tr := PutPretty(buf, c, tr, pretty && items != [], Ascii("\n"));
    c, tr := PutNodes(items, buf, c, tr, depth + 2, pretty, fmt);
    c, tr := PutPrettyTabs(buf, c, tr, pretty, depth + 2);
    c, tr := Put(buf, c, tr, Ascii("]"));
  }

  method PutNumbers(texts: seq<seq<byte>>, buf: array<byte>, c0: Cursor, ghost tr0: Trace, pretty: bool)
    returns (c: Cursor, ghost tr: Trace)
    requires tr0.Reached(buf[..], c0)
    modifies buf
    ensures tr == tr0.To(NumbersText(tr0.text, texts, pretty)) && tr.Reached(buf[..], c)
  {
    c, tr := Put(buf, c0, tr0, Ascii("["));
    c, tr := PutFlat(texts, buf, c, tr, pretty);
    c, tr := Put(buf, c, tr, Ascii("]"));
  }

  /** The switch on the type of one node's value: the cases printed by one call. */
  method PutScalar(v: Value, buf: array<byte>, c0: Cursor, ghost tr0: Trace, fmt: real -> seq<byte>)
    returns (c: Cursor, ghost tr: Trace)
    requires tr0.Reached(buf[..], c0) && IsScalar(v)
    modifies buf
    ensures tr == tr0.To(tr0.text + ScalarText(v, fmt)) && tr.Reached(buf[..], c)
  {
    match v
    case Nil =>
      c, tr := Put(buf, c0, tr0, Ascii("null"));
    case Int(i) =>
      c, tr := Put(buf, c0, tr0, IntText(i));
    case Float(x) =>
      c, tr := Put(buf, c0, tr0, fmt(x));
    case Double(x) =>
      c, tr := Put(buf, c0, tr0, fmt(x));
    case Bool(b) =>
      c, tr := Put(buf, c0, tr0, BoolText(b));
    case ByteString(s) =>
      c, tr := PutBase64(buf, c0, tr0, s);
    case Text(s) =>
      c, tr := Put(buf, c0, tr0, Quoted(s));
  }

  /** The switch on the type of one node's value. */
  method PutValue(v: Value, buf: array<byte>, c0: Cursor, ghost tr0: Trace, depth: nat, pretty: bool,
          fmt: real -> seq<byte>)
    returns (c: Cursor, ghost tr: Trace)
    requires tr0.Reached(buf[..], c0)
    modifies buf
    ensures tr == tr0.To(ValueText(tr0.text, v, depth, pretty, fmt)) && tr.Reached(buf[..], c)
    decreases v, 1
  {
    if IsScalar(v) {
      c, tr := PutScalar(v, buf, c0, tr0, fmt);
    } else if IsFlat(v) {
      c, tr := PutNumbers(Elements(v, fmt), buf, c0, tr0, pretty);
    } else {
      match v
      case Object(members) =>
        c, tr := PutObject(members, buf, c0, tr0, depth, pretty, fmt);
      case ByteStringArray(xs) =>
        c, tr := PutStrings(Map(Encoded, xs), xs, buf, c0, tr0, depth, pretty);
      case TextArray(xs) =>
        c, tr := PutStrings(xs, [], buf, c0, tr0, depth, pretty);
      case ObjectArray(first, rest) =>
        c, tr := PutFirstObject(first.members, buf, c0, tr0, depth, pretty, fmt);
        c, tr := PutOtherObjects(rest, buf, c, tr, depth, pretty, fmt);
      case MixedArray(items) =>
        c, tr := PutMixedArray(items, buf, c0, tr0, depth, pretty, fmt);
    }
  }

  /** One turn of the loop over a list of nodes. */
  method PutNode(n: Node, more: bool, buf: array<byte>, c0: Cursor, ghost tr0: Trace, depth: nat, pretty: bool,
          fmt: real -> seq<byte>)
    returns (c: Cursor, ghost tr: Trace)
    requires tr0.Reached(buf[..], c0)
    modifies buf
    ensures tr == tr0.To(NodeText(tr0.text, n, more, depth, pretty, fmt)) && tr.Reached(buf[..], c)
    decreases n
  {
    c, tr := PutPrettyTabs(buf, c0, tr0, pretty, depth + 1);
    if |n.name| > 0 {
      c, tr := Put(buf, c, tr, Quoted(n.name) + Choose(pretty, " : ", ":"));
    } else if n.iname >= 0 {
      c, tr := Put(buf, c, tr, Quoted(IntText(n.iname)) + Choose(pretty, " : ", ":"));
    }
    c, tr := PutValue(n.value, buf, c, tr, depth, pretty, fmt);
    if more {
      c, tr := Put(buf, c, tr, Ascii(","));
    }
    c, tr := PutPretty(buf, c, tr, pretty, Ascii("\n"));
  }

  /** oc_rep_to_json_format: one list of nodes at one depth. */
  method Format(nodes: seq<Node>, buf: array<byte>, off: nat, size: nat, depth: nat, pretty: bool,
          fmt: real -> seq<byte>)
    returns (n: nat)
    requires off + size <= buf.Length
    modifies buf
    ensures n == |Nodes([], nodes, |nodes|, depth, pretty, fmt)|
    ensures Wrote(old(buf[..]), buf[..], off, size, Nodes([], nodes, |nodes|, depth, pretty, fmt))
    decreases nodes, 0
  {
    hide Wrote;
    hide NodeText;
    var c := Cursor(off, size, 0);
    ghost var start := Start(buf[..], off, size);
    ghost var tr := start;
    for i := 0 to |nodes|
      invariant tr == start.To(Nodes([], nodes, i, depth, pretty, fmt)) && tr.Reached(buf[..], c)
    {
      c, tr := PutNode(nodes[i], i + 1 < |nodes|, buf, c, tr, depth, pretty, fmt);
    }
    return c.total;
  }

  /** oc_rep_to_json: the returned length is that of the full rendering, whatever the room; what
      is left in the buffer is a zero-terminated prefix of it, and all of it when it fits. */
  method ToJson(nodes: seq<Node>, buf: array<byte>, size: nat, pretty: bool, fmt: real -> seq<byte>) returns (n: nat)
    requires size <= buf.Length
    modifies buf
    ensures n == |Rendering(nodes, pretty, fmt)|
    ensures Wrote(old(buf[..]), buf[..], 0, size, Rendering(nodes, pretty, fmt))
    ensures size > n ==> buf[..n] == Rendering(nodes, pretty, fmt) && buf[n] == 0
  {
    var list := nodes != [] && nodes[0].value.Object? && nodes[0].name == [];
    var c := Cursor(0, size, 0);
    ghost var tr := Start(buf[..], 0, size);
    var open := if list then Choose(pretty, "[\n", "[") else Choose(pretty, "{\n", "{");
    c, tr := Put(buf, c, tr, open);
    assert tr.text == open;
    c, tr := PutNodes(nodes, buf, c, tr, 0, pretty, fmt);
    c, tr := Put(buf, c, tr, if list then Choose(pretty, "]\n", "]") else Choose(pretty, "}\n", "}"));
    Whole(old(buf[..]), buf[..], size, tr.text);
    return c.total;
  }

  lemma Whole(b0: seq<byte>, b1: seq<byte>, size: nat, t: seq<byte>)
    requires Wrote(b0, b1, 0, size, t) && t != []
    ensures size > |t| ==> b1[..|t|] == t && b1[|t|] == 0
  {
    if size > |t| {
      var k: nat :| Holds(b1, 0, size, t, k) && b1[0 + k] == 0;
      assert b1[..|t|] == b1[0..0 + k] == t[..k] == t;
    }
  }
}
