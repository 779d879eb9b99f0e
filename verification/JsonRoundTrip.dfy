/** What the JSON writer prints, pretty or compact, reads back as the tree it was given. */
module JsonRoundTrip {
  import opened Wrappers
  import opened Base64
  import opened RepTree
  import W = JsonWriter
  import L = JsonLayout
  import opened JsonReader

  // ---------------------------------------------------------------------------
  // The JSON value of a tree
  // ---------------------------------------------------------------------------

  /** The name, or else the number, of a member. */
  function KeyOf(n: Node): Option<seq<byte>> {
    if n.name != [] then Some(n.name) else if n.iname >= 0 then Some(Digits(n.iname)) else None
  }

  function Element(j: Json): Member {
    Member(None, j)
  }

  /** The JSON value of a tree value; `round` is what is left of a floating-point number. */
  function JsonOf(v: Value, round: real -> real): Json
    decreases v, 1
  {
    match v
    case Nil => Null
    case Int(i) => Number(i as real)
    case Float(x) => Number(round(x))
    case Double(x) => Number(round(x))
    case Bool(b) => Truth(b)
    case ByteString(s) => String(Encoded(s))
    case Text(s) => String(s)
    case Object(members) => Group(false, Members(members, round))
    case IntArray(xs) => Group(true, seq(|xs|, i requires 0 <= i < |xs| => Element(Number(xs[i] as real))))
    case FloatArray(xs) => Group(true, seq(|xs|, i requires 0 <= i < |xs| => Element(Number(round(xs[i])))))
    case DoubleArray(xs) => Group(true, seq(|xs|, i requires 0 <= i < |xs| => Element(Number(round(xs[i])))))
    case BoolArray(xs) => Group(true, seq(|xs|, i requires 0 <= i < |xs| => Element(Truth(xs[i]))))
    case ByteStringArray(xs) => Group(true, seq(|xs|, i requires 0 <= i < |xs| => Element(String(Encoded(xs[i])))))
    case TextArray(xs) => Group(true, seq(|xs|, i requires 0 <= i < |xs| => Element(String(xs[i]))))
    case ObjectArray(first, rest) => Group(true, [ObjectOf(first, round)] + ObjectsOf(rest, round))
    case MixedArray(items) => Group(true, Members(items, round))
  }

  function MemberOf(n: Node, round: real -> real): Member
    decreases n
  {
    Member(KeyOf(n), JsonOf(n.value, round))
  }

  function Members(nodes: seq<Node>, round: real -> real): (ms: seq<Member>)
    ensures |ms| == |nodes|
    decreases nodes, 0
  {
    seq(|nodes|, i requires 0 <= i < |nodes| => MemberOf(nodes[i], round))
  }

  function ObjectOf(o: Obj, round: real -> real): Member
    decreases o
  {
    Element(Group(false, Members(o.members, round)))
  }

  function ObjectsOf(objects: seq<Obj>, round: real -> real): (ms: seq<Member>)
    ensures |ms| == |objects|
    decreases objects, 0
  {
    seq(|objects|, i requires 0 <= i < |objects| => ObjectOf(objects[i], round))
  }

  /** A tree that begins with a nameless object is printed as a list. */
  function TreeJson(nodes: seq<Node>, round: real -> real): Json {
    Group(nodes != [] && nodes[0].value.Object? && nodes[0].name == [], Members(nodes, round))
  }

  /** The format prints numbers, and `round` are their values. */
  ghost predicate Formats(fmt: real -> seq<byte>, round: real -> real) {
    forall x :: IsNumber(fmt(x), round(x))
  }

  predicate IsNumber(t: seq<byte>, x: real) {
    NumberOf(t) == Some(x) && forall i :: 0 <= i < |t| ==> InWords(t[i])
  }

  // ---------------------------------------------------------------------------
  // The writer's punctuation and words
  // ---------------------------------------------------------------------------

  lemma ByteOf(n: int, b: byte)
    requires n == b as int
    ensures (n % 256) as byte == b
  {
    assert n % 256 == n;
  }

  lemma Spelled(s: string, t: seq<byte>)
    requires |s| == |t| && forall i :: 0 <= i < |s| ==> s[i] as int == t[i] as int
    ensures W.Ascii(s) == t
  {
    forall i | 0 <= i < |s| ensures W.Ascii(s)[i] == t[i] {
      ByteOf(s[i] as int, t[i]);
    }
  }

  lemma Words()
    ensures W.BoolText(true) == [116, 114, 117, 101] && W.BoolText(false) == [102, 97, 108, 115, 101]
    ensures W.Ascii("null") == [110, 117, 108, 108]
  {
    hide W.Ascii;
    Spelled("true", [116, 114, 117, 101]);
    Spelled("false", [102, 97, 108, 115, 101]);
    Spelled("null", [110, 117, 108, 108]);
  }

  lemma Brackets()
    ensures W.Ascii("[") == [91] && W.Ascii("]") == [93] && W.Ascii("{") == [123] && W.Ascii("}") == [125]
  {
    hide W.Ascii;
    Spelled("[", [91]);
    Spelled("]", [93]);
    Spelled("{", [123]);
    Spelled("}", [125]);
  }

  lemma Points()
    ensures W.Ascii("\"") == [34] && W.Ascii(",") == [44] && W.Ascii(":") == [58] && W.Ascii(" : ") == [32, 58, 32]
    ensures W.Ascii("},") == [125, 44] && W.Ascii("}]") == [125, 93]
  {
    hide W.Ascii;
    Spelled("\"", [34]);
    Spelled(",", [44]);
    Spelled(":", [58]);
    Spelled(" : ", [32, 58, 32]);
    Spelled("},", [125, 44]);
    Spelled("}]", [125, 93]);
  }

  lemma Blanks()
    ensures W.Ascii("\n") == [10] && W.Ascii(" ") == [32] && W.Ascii("  ") == [32, 32]
  {
    hide W.Ascii;
    Spelled("\n", [10]);
    Spelled(" ", [32]);
    Spelled("  ", [32, 32]);
  }

  lemma {:induction false} TabsAreBlank(depth: nat)
    ensures forall i :: 0 <= i < |W.Tabs(depth)| ==> Blank(W.Tabs(depth)[i])
  {
    if depth > 0 {
      TabsAreBlank(depth - 1);
      Blanks();
    }
  }

  lemma QuotedIs(t: seq<byte>, u: seq<byte>)
    ensures t + W.Quoted(u) == t + [34] + u + [34]
  {
    Points();
    hide W.Ascii;
  }

  /** A separator with a line feed or a blank behind it when pretty. */
  lemma ChoiceIs(pretty: bool, t: seq<byte>, a: string, b: string)
    requires a == b + "\n" || a == b + " "
    ensures exists u: seq<byte> ::
      && t + W.Choose(pretty, a, b) == (t + W.Ascii(b)) + u
      && forall i :: 0 <= i < |u| ==> Blank(u[i])
  {
    var c := if a == b + "\n" then "\n" else " ";
    Blanks();
    L.AsciiAppend(b, c);
    hide W.Ascii;
    var u := if pretty then W.Ascii(c) else [];
    assert a == b + c;
    assert t + W.Choose(pretty, a, b) == (t + W.Ascii(b)) + u;
  }

  lemma {:induction false} DecimalIsDigits(n: nat)
    ensures W.Ascii(Decimal(n)) == Digits(n)
  {
    if n >= 10 {
      DecimalIsDigits(n / 10);
      L.AsciiAppend(Decimal(n / 10), ['0' + (n % 10) as char]);
    }
    DigitIs(n % 10);
    hide W.Ascii;
    hide DigitByte;
  }

  lemma DigitIs(d: nat)
    requires d < 10
    ensures W.Ascii(['0' + d as char]) == [DigitByte(d)]
  {
  }

  lemma IntTextIsSigned(n: int)
    ensures W.IntText(n) == Signed(n)
  {
    Spelled("-", [45]);
    hide W.Ascii;
    if n < 0 {
      DecimalIsDigits(-n);
      L.AsciiAppend("-", Decimal(-n));
    } else {
      DecimalIsDigits(n);
    }
  }

  // ---------------------------------------------------------------------------
  // Pieces of text
  // ---------------------------------------------------------------------------

  /** After this text the reader is between two things, with s open. */
  ghost predicate Reads(strict: bool, st: State, t: seq<byte>, s: Stack) {
    Settle(Scan(strict, st, t)) == Between(s)
  }

  predicate Ready(s: Stack) {
    s.Frame? && s.last.None?
  }

  lemma ReadyIsBetween(strict: bool, st: State, t: seq<byte>, s: Stack)
    requires Reads(strict, st, t, s) && Ready(s)
    ensures Scan(strict, st, t) == Between(s)
  {
    hide Scan;
    hide WordOf;
  }

  lemma AddByte(strict: bool, st: State, t: seq<byte>, c: byte)
    ensures Scan(strict, st, t + [c]) == Step(strict, Scan(strict, st, t), c)
  {
    hide Step;
    assert (t + [c])[..|t + [c]| - 1] == t;
  }

  lemma AddMark(strict: bool, st: State, t: seq<byte>, s: Stack, c: byte)
    requires Reads(strict, st, t, s) && !InWords(c)
    ensures Scan(strict, st, t + [c]) == Mark(s, c)
  {
    hide Scan;
    hide Mark;
    hide WordOf;
    AddByte(strict, st, t, c);
  }

  /** Punctuation that leaves the reader between things. */
  lemma AddPunctuation(strict: bool, st: State, t: seq<byte>, s: Stack, c: byte, s': Stack)
    requires Reads(strict, st, t, s) && !InWords(c) && Mark(s, c) == Between(s')
    ensures Reads(strict, st, t + [c], s')
  {
    hide Mark;
    AddMark(strict, st, t, s, c);
  }

  lemma {:induction false} AddBlanks(strict: bool, st: State, t: seq<byte>, s: Stack, u: seq<byte>)
    requires Reads(strict, st, t, s) && forall i :: 0 <= i < |u| ==> Blank(u[i])
    ensures Reads(strict, st, t + u, s)
  {
    hide Reads;
    if u == [] {
      assert t + u == t;
    } else {
      var v, c := u[..|u| - 1], u[|u| - 1];
      AddBlanks(strict, st, t, s, v);
      assert Blank(c);
      AddPunctuation(strict, st, t + v, s, c, s);
      assert t + u == t + v + [c];
    }
  }

  lemma {:induction false} InsideString(strict: bool, s: Stack, t: seq<byte>)
    requires PlainText(strict, t)
    ensures Scan(strict, InString(s, []), t) == InString(s, t)
  {
    hide InWords;
    hide Settle;
    hide Mark;
    hide Give;
    if t != [] {
      InsideString(strict, s, t[..|t| - 1]);
      assert t == t[..|t| - 1] + [t[|t| - 1]];
    }
  }

  lemma {:induction false} InsideWord(strict: bool, s: Stack, t: seq<byte>)
    requires t != [] && forall i :: 0 <= i < |t| ==> InWords(t[i])
    ensures Scan(strict, Between(s), t) == InWord(s, t)
  {
    hide Mark;
    var u := t[..|t| - 1];
    assert t == u + [t[|t| - 1]];
    if u != [] {
      InsideWord(strict, s, u);
    }
  }

  lemma AddQuoted(strict: bool, st: State, t: seq<byte>, s: Stack, u: seq<byte>)
    requires Reads(strict, st, t, s) && Ready(s) && PlainText(strict, u)
    ensures Reads(strict, st, t + W.Quoted(u), s.(last := Some(String(u))))
  {
    hide Scan;
    AddMark(strict, st, t, s, 34);
    ScanAppend(strict, st, t + [34], u);
    InsideString(strict, s, u);
    AddByte(strict, st, t + [34] + u, 34);
    QuotedIs(t, u);
  }

  lemma AddWord(strict: bool, st: State, t: seq<byte>, s: Stack, u: seq<byte>, j: Json)
    requires Reads(strict, st, t, s) && Ready(s)
    requires u != [] && WordOf(u) == Some(j) && forall i :: 0 <= i < |u| ==> InWords(u[i])
    ensures Reads(strict, st, t + u, s.(last := Some(j)))
  {
    hide Scan;
    hide WordOf;
    ReadyIsBetween(strict, st, t, s);
    ScanAppend(strict, st, t, u);
    InsideWord(strict, s, u);
  }

  // ---------------------------------------------------------------------------
  // Members
  // ---------------------------------------------------------------------------

  /** An object or array with k of its members printed: the last of all has no comma behind it. */
  function Held(below: Stack, list: bool, ms: seq<Member>, k: nat): Stack
    requires k <= |ms|
  {
    if 0 < k == |ms| then WithValue(below, list, ms, k - 1) else Frame(below, list, ms[..k], None, None)
  }

  /** The same when the value of member k has been printed, and what comes behind it has not. */
  function WithValue(below: Stack, list: bool, ms: seq<Member>, k: nat): Stack
    requires k < |ms|
  {
    Frame(below, list, ms[..k], ms[k].key, Some(ms[k].value))
  }

  lemma AddOpen(strict: bool, st: State, t: seq<byte>, s: Stack, list: bool, ms: seq<Member>)
    requires Reads(strict, st, t, s) && Ready(s)
    ensures Reads(strict, st, t + W.Ascii(if list then "[" else "{"), Held(s, list, ms, 0))
  {
    hide Reads;
    Brackets();
    hide W.Ascii;
    AddPunctuation(strict, st, t, s, if list then 91 else 123, Held(s, list, ms, 0));
  }

  lemma CloseHeld(below: Stack, list: bool, ms: seq<Member>)
    requires Ready(below)
    ensures Close(Held(below, list, ms, |ms|), list) == Between(below.(last := Some(Group(list, ms))))
  {
    if ms != [] {
      assert ms == ms[..|ms| - 1] + [ms[|ms| - 1]];
    }
  }

  lemma AddClose(strict: bool, st: State, t: seq<byte>, below: Stack, list: bool, ms: seq<Member>)
    requires Reads(strict, st, t, Held(below, list, ms, |ms|)) && Ready(below)
    ensures Reads(strict, st, t + W.Ascii(if list then "]" else "}"), below.(last := Some(Group(list, ms))))
  {
    hide Reads;
    Brackets();
    hide W.Ascii;
    CloseHeld(below, list, ms);
    hide Close;
    var s := Held(below, list, ms, |ms|);
    assert Mark(s, if list then 93 else 125) == Close(s, list);
    AddPunctuation(strict, st, t, s, if list then 93 else 125, below.(last := Some(Group(list, ms))));
  }

  lemma AddComma(strict: bool, st: State, t: seq<byte>, below: Stack, list: bool, ms: seq<Member>, k: nat)
    requires k < |ms| && Reads(strict, st, t, WithValue(below, list, ms, k))
    ensures Reads(strict, st, if k + 1 < |ms| then t + W.Ascii(",") else t, Held(below, list, ms, k + 1))
  {
    hide Reads;
    Points();
    hide W.Ascii;
    if k + 1 < |ms| {
      assert ms[..k + 1] == ms[..k] + [ms[k]];
      AddPunctuation(strict, st, t, WithValue(below, list, ms, k), 44, Held(below, list, ms, k + 1));
    }
  }

  lemma AddPretty(strict: bool, st: State, t: seq<byte>, s: Stack, pretty: bool, u: seq<byte>)
    requires Reads(strict, st, t, s) && forall i :: 0 <= i < |u| ==> Blank(u[i])
    ensures Reads(strict, st, W.Pretty(t, pretty, u), s)
  {
    hide Reads;
    AddBlanks(strict, st, t, s, u);
  }

  lemma AddTabs(strict: bool, st: State, t: seq<byte>, s: Stack, pretty: bool, depth: nat)
    requires Reads(strict, st, t, s)
    ensures Reads(strict, st, W.Pretty(t, pretty, W.Tabs(depth)), s)
  {
    hide Reads;
    TabsAreBlank(depth);
    AddPretty(strict, st, t, s, pretty, W.Tabs(depth));
  }

  lemma AddLine(strict: bool, st: State, t: seq<byte>, s: Stack, pretty: bool)
    requires Reads(strict, st, t, s)
    ensures Reads(strict, st, W.Pretty(t, pretty, W.Ascii("\n")), s)
  {
    hide Reads;
    Blanks();
    hide W.Ascii;
    AddPretty(strict, st, t, s, pretty, W.Ascii("\n"));
  }

  /** White space behind a mark when pretty. */
  lemma AddChoice(strict: bool, st: State, t: seq<byte>, s: Stack, pretty: bool, a: string, b: string)
    requires (a == b + "\n" || a == b + " ") && Reads(strict, st, t + W.Ascii(b), s)
    ensures Reads(strict, st, t + W.Choose(pretty, a, b), s)
  {
    hide Reads;
    ChoiceIs(pretty, t, a, b);
    var u: seq<byte> :|
      && t + W.Choose(pretty, a, b) == (t + W.Ascii(b)) + u
      && forall i :: 0 <= i < |u| ==> Blank(u[i]);
    AddBlanks(strict, st, t + W.Ascii(b), s, u);
  }

  // ---------------------------------------------------------------------------
  // Arrays of scalars
  // ---------------------------------------------------------------------------

  predicate IsWord(t: seq<byte>, m: Member) {
    && t != [] && m.key.None? && WordOf(t) == Some(m.value)
    && forall i :: 0 <= i < |t| ==> InWords(t[i])
  }

  lemma {:induction false} FlatReads(strict: bool, st: State, t: seq<byte>, s: Stack, texts: seq<seq<byte>>,
                                     ms: seq<Member>, k: nat, pretty: bool)
    requires k <= |ms| == |texts| && Reads(strict, st, t, Held(s, true, ms, 0))
    requires forall i :: 0 <= i < |ms| ==> IsWord(texts[i], ms[i])
    ensures Reads(strict, st, W.Flat(t, texts, k, pretty), Held(s, true, ms, k))
  {
    hide Reads;
    if k > 0 {
      FlatReads(strict, st, t, s, texts, ms, k - 1, pretty);
      var u := W.Flat(t, texts, k - 1, pretty);
      assert IsWord(texts[k - 1], ms[k - 1]);
      AddWord(strict, st, u, Held(s, true, ms, k - 1), texts[k - 1], ms[k - 1].value);
      AddComma(strict, st, u + texts[k - 1], s, true, ms, k - 1);
      if k < |ms| {
        assert ", " == "," + " ";
        AddChoice(strict, st, u + texts[k - 1], Held(s, true, ms, k), pretty, ", ", ",");
      }
    }
  }

  lemma NumbersRead(strict: bool, st: State, t: seq<byte>, s: Stack, texts: seq<seq<byte>>, ms: seq<Member>,
                    pretty: bool)
    requires |ms| == |texts| && Reads(strict, st, t, s) && Ready(s)
    requires forall i :: 0 <= i < |ms| ==> IsWord(texts[i], ms[i])
    ensures Reads(strict, st, W.NumbersText(t, texts, pretty), s.(last := Some(Group(true, ms))))
  {
    hide Reads;
    hide IsWord;
    AddOpen(strict, st, t, s, true, ms);
    FlatReads(strict, st, t + W.Ascii("["), s, texts, ms, |ms|, pretty);
    AddClose(strict, st, W.Flat(t + W.Ascii("["), texts, |ms|, pretty), s, true, ms);
  }

  predicate IsString(strict: bool, t: seq<byte>, m: Member) {
    PlainText(strict, t) && m == Element(String(t))
  }

  lemma {:induction false} LinesRead(strict: bool, st: State, t: seq<byte>, s: Stack, texts: seq<seq<byte>>,
                                     ms: seq<Member>, k: nat, depth: nat, pretty: bool)
    requires k <= |ms| == |texts| && Reads(strict, st, t, Held(s, true, ms, 0))
    requires forall i :: 0 <= i < |ms| ==> IsString(strict, texts[i], ms[i])
    ensures Reads(strict, st, W.Lines(t, texts, k, depth, pretty), Held(s, true, ms, k))
  {
    hide Reads;
    hide W.Quoted;
    hide W.Tabs;
    hide W.Choose;
    hide PlainText;
    if k > 0 {
      LinesRead(strict, st, t, s, texts, ms, k - 1, depth, pretty);
      var u := W.Lines(t, texts, k - 1, depth, pretty);
      AddTabs(strict, st, u, Held(s, true, ms, k - 1), pretty, depth + 2);
      u := W.Pretty(u, pretty, W.Tabs(depth + 2));
      assert IsString(strict, texts[k - 1], ms[k - 1]);
      AddQuoted(strict, st, u, Held(s, true, ms, k - 1), texts[k - 1]);
      u := u + W.Quoted(texts[k - 1]);
      AddComma(strict, st, u, s, true, ms, k - 1);
      if k < |ms| {
        assert ",\n" == "," + "\n";
        AddChoice(strict, st, u, Held(s, true, ms, k), pretty, ",\n", ",");
      } else {
        AddLine(strict, st, u, Held(s, true, ms, k), pretty);
      }
    }
  }

  lemma StringsRead(strict: bool, st: State, t: seq<byte>, s: Stack, texts: seq<seq<byte>>, ms: seq<Member>,
                    depth: nat, pretty: bool)
    requires |ms| == |texts| && Reads(strict, st, t, s) && Ready(s)
    requires forall i :: 0 <= i < |ms| ==> IsString(strict, texts[i], ms[i])
    ensures Reads(strict, st, W.StringsText(t, texts, depth, pretty), s.(last := Some(Group(true, ms))))
  {
    hide Reads;
    hide IsString;
    AddOpen(strict, st, t, s, true, ms);
    assert "[\n" == "[" + "\n";
    AddChoice(strict, st, t, Held(s, true, ms, 0), pretty, "[\n", "[");
    var u := t + W.Choose(pretty, "[\n", "[");
    LinesRead(strict, st, u, s, texts, ms, |ms|, depth, pretty);
    u := W.Lines(u, texts, |ms|, depth, pretty);
    AddTabs(strict, st, u, Held(s, true, ms, |ms|), pretty, depth + 1);
    AddClose(strict, st, W.Pretty(u, pretty, W.Tabs(depth + 1)), s, true, ms);
  }

  // ---------------------------------------------------------------------------
  // Plain trees
  // ---------------------------------------------------------------------------

  ghost predicate PlainNode(strict: bool, n: Node)
    decreases n
  {
    PlainText(strict, n.name) && PlainValue(strict, n.value)
  }

  ghost predicate PlainNodes(strict: bool, nodes: seq<Node>)
    decreases nodes, 0
  {
    forall i :: 0 <= i < |nodes| ==> PlainNode(strict, nodes[i])
  }

  ghost predicate PlainObject(strict: bool, o: Obj)
    decreases o
  {
    PlainNodes(strict, o.members)
  }

  ghost predicate PlainObjects(strict: bool, objects: seq<Obj>)
    decreases objects, 0
  {
    forall i :: 0 <= i < |objects| ==> PlainObject(strict, objects[i])
  }

  /** Every name and every text in the value may stand in a string as it is. */
  ghost predicate PlainValue(strict: bool, v: Value)
    decreases v, 1
  {
    match v
    case Text(s) => PlainText(strict, s)
    case TextArray(xs) => forall i :: 0 <= i < |xs| ==> PlainText(strict, xs[i])
    case Object(members) => PlainNodes(strict, members)
    case ObjectArray(first, rest) => PlainObject(strict, first) && PlainObjects(strict, rest)
    case MixedArray(items) => PlainNodes(strict, items)
    case _ => true
  }

  lemma DigitsArePlain(strict: bool, n: nat)
    ensures PlainText(strict, Digits(n))
  {
    assert Whole(Digits(n));
    assert forall c :: Digit(c) ==> Plain(strict, c);
  }

  lemma EncodedIsPlain(strict: bool, s: seq<byte>)
    ensures PlainText(strict, Encoded(s))
  {
    forall k | 0 <= k < |Encoded(s)| ensures Plain(strict, Encoded(s)[k]) {
      assert Encoded(s)[k] == CharAt(s, k);
      CharIsPlain(strict, s, k);
    }
  }

  lemma CharIsPlain(strict: bool, s: seq<byte>, k: nat)
    ensures Plain(strict, CharAt(s, k))
  {
  }

  // ---------------------------------------------------------------------------
  // Values
  // ---------------------------------------------------------------------------

  lemma NumberIsWord(t: seq<byte>, x: real)
    requires IsNumber(t, x)
    ensures IsWord(t, Element(Number(x)))
  {
    if t[0] > 57 {
      LetterIsNoNumber(t);
    }
    NoLetter(t);
  }

  lemma LetterIsNoNumber(t: seq<byte>)
    requires t != [] && t[0] > 57
    ensures NumberOf(t).None?
  {
    var p := PointAt(t, 0);
    assert p > 0;
    assert !Digit(t[..p][0]);
  }

  lemma IntIsNumber(n: int)
    ensures IsNumber(W.IntText(n), n as real)
  {
    hide NumberOf;
    IntTextIsSigned(n);
    SignedIsRead(n);
    hide W.IntText;
    var d := Digits(if n < 0 then -n else n);
    assert Whole(d);
    forall i | 0 <= i < |Signed(n)| ensures InWords(Signed(n)[i]) {
      if n < 0 && i > 0 {
        assert Signed(n)[i] == d[i - 1];
      }
      DigitInWords(Signed(n)[i]);
    }
  }

  lemma DigitInWords(c: byte)
    ensures Digit(c) || c == 45 ==> InWords(c)
  {
  }

  lemma FormatIsWord(fmt: real -> seq<byte>, round: real -> real, x: real)
    requires Formats(fmt, round)
    ensures IsWord(fmt(x), Element(Number(round(x))))
  {
    hide IsNumber;
    NumberIsWord(fmt(x), round(x));
  }

  lemma BoolIsWord(b: bool)
    ensures IsWord(W.BoolText(b), Element(Truth(b)))
  {
    Words();
    hide W.BoolText;
  }

  lemma ElementIsWord(v: Value, fmt: real -> seq<byte>, round: real -> real, k: nat)
    requires W.IsFlat(v) && Formats(fmt, round) && k < |W.Elements(v, fmt)|
    ensures k < |JsonOf(v, round).members|
    ensures IsWord(W.Elements(v, fmt)[k], JsonOf(v, round).members[k])
  {
    hide IsNumber;
    hide IsWord;
    match v
    case IntArray(xs) =>
      IntIsNumber(xs[k]);
      NumberIsWord(W.IntText(xs[k]), xs[k] as real);
    case FloatArray(xs) =>
      FormatIsWord(fmt, round, xs[k]);
    case DoubleArray(xs) =>
      FormatIsWord(fmt, round, xs[k]);
    case BoolArray(xs) =>
      BoolIsWord(xs[k]);
  }

  lemma ScalarReads(strict: bool, st: State, t: seq<byte>, s: Stack, v: Value, fmt: real -> seq<byte>,
                    round: real -> real)
    requires W.IsScalar(v) && PlainValue(strict, v) && Formats(fmt, round) && Reads(strict, st, t, s) && Ready(s)
    ensures Reads(strict, st, t + W.ScalarText(v, fmt), s.(last := Some(JsonOf(v, round))))
  {
    hide Reads;
    hide W.Quoted;
    hide IsNumber;
    match v
    case Nil =>
      NullIsWord();
      AddWord(strict, st, t, s, W.Ascii("null"), Null);
    case Int(i) =>
      IntIsNumber(i);
      NumberIsWord(W.IntText(i), i as real);
      AddWord(strict, st, t, s, W.IntText(i), Number(i as real));
    case Float(x) =>
      FormatIsWord(fmt, round, x);
      AddWord(strict, st, t, s, fmt(x), Number(round(x)));
    case Double(x) =>
      FormatIsWord(fmt, round, x);
      AddWord(strict, st, t, s, fmt(x), Number(round(x)));
    case Bool(b) =>
      BoolIsWord(b);
      AddWord(strict, st, t, s, W.BoolText(b), Truth(b));
    case ByteString(x) =>
      EncodedIsPlain(strict, x);
      AddQuoted(strict, st, t, s, Encoded(x));
    case Text(x) =>
      AddQuoted(strict, st, t, s, x);
  }

  lemma NullIsWord()
    ensures IsWord(W.Ascii("null"), Element(Null))
  {
    Words();
    hide W.Ascii;
  }

  /** A text read on its own, from where another one has led. */
  lemma Nested(strict: bool, st: State, t: seq<byte>, s: Stack, u: seq<byte>, s': Stack)
    requires Reads(strict, st, t, s) && Ready(s) && Reads(strict, Between(s), u, s')
    ensures Reads(strict, st, t + u, s')
  {
    hide Scan;
    hide Settle;
    ReadyIsBetween(strict, st, t, s);
    ScanAppend(strict, st, t, u);
  }

  ghost predicate ListReads(strict: bool, below: Stack, list: bool, ms: seq<Member>, k: nat, t: seq<byte>)
    requires k <= |ms|
  {
    Reads(strict, Between(Frame(below, list, [], None, None)), t, Held(below, list, ms, k))
  }

  lemma AddList(strict: bool, st: State, t: seq<byte>, s: Stack, list: bool, ms: seq<Member>, u: seq<byte>)
    requires Reads(strict, st, t, Held(s, list, ms, 0)) && ListReads(strict, s, list, ms, |ms|, u)
    ensures Reads(strict, st, t + u, Held(s, list, ms, |ms|))
  {
    hide Reads;
    Nested(strict, st, t, Held(s, list, ms, 0), u, Held(s, list, ms, |ms|));
  }

  lemma AddBrace(strict: bool, st: State, t: seq<byte>, s: Stack, pretty: bool, ms: seq<Member>)
    requires Reads(strict, st, t, s) && Ready(s)
    ensures Reads(strict, st, t + W.Choose(pretty, "{\n", "{"), Held(s, false, ms, 0))
  {
    hide Reads;
    AddOpen(strict, st, t, s, false, ms);
    assert "{\n" == "{" + "\n";
    AddChoice(strict, st, t, Held(s, false, ms, 0), pretty, "{\n", "{");
  }

  lemma ObjectReads(strict: bool, st: State, t: seq<byte>, s: Stack, ms: seq<Member>, u: seq<byte>, depth: nat,
                    pretty: bool)
    requires Reads(strict, st, t, s) && Ready(s) && ListReads(strict, s, false, ms, |ms|, u)
    ensures Reads(strict, st, W.ObjectText(t, u, depth, pretty), s.(last := Some(Group(false, ms))))
  {
    hide Reads;
    hide ListReads;
    AddBrace(strict, st, t, s, pretty, ms);
    var x := t + W.Choose(pretty, "{\n", "{");
    AddList(strict, st, x, s, false, ms, u);
    AddTabs(strict, st, x + u, Held(s, false, ms, |ms|), pretty, depth + 1);
    AddClose(strict, st, W.Pretty(x + u, pretty, W.Tabs(depth + 1)), s, false, ms);
  }

  lemma MixedReads(strict: bool, st: State, t: seq<byte>, s: Stack, ms: seq<Member>, u: seq<byte>, depth: nat,
                   pretty: bool)
    requires Reads(strict, st, t, s) && Ready(s) && ListReads(strict, s, true, ms, |ms|, u)
    ensures Reads(strict, st, W.MixedText(t, u, ms != [], depth, pretty), s.(last := Some(Group(true, ms))))
  {
    hide Reads;
    hide ListReads;
    AddOpen(strict, st, t, s, true, ms);
    AddLine(strict, st, t + W.Ascii("["), Held(s, true, ms, 0), pretty && ms != []);
    var x := W.Pretty(t + W.Ascii("["), pretty && ms != [], W.Ascii("\n"));
    AddList(strict, st, x, s, true, ms, u);
    AddTabs(strict, st, x + u, Held(s, true, ms, |ms|), pretty, depth + 2);
    AddClose(strict, st, W.Pretty(x + u, pretty, W.Tabs(depth + 2)), s, true, ms);
  }

  // An array of objects is printed with one object open: object k of ms, behind k closed ones.

  predicate AreObjects(ms: seq<Member>) {
    forall i :: 0 <= i < |ms| ==> ms[i].key.None? && ms[i].value.Group? && !ms[i].value.list
  }

  function Nth(s: Stack, ms: seq<Member>, k: nat): Stack
    requires k < |ms| && AreObjects(ms)
  {
    Held(Held(s, true, ms, k), false, ms[k].value.members, |ms[k].value.members|)
  }

  lemma OpeningReads(strict: bool, st: State, t: seq<byte>, s: Stack, ms: seq<Member>, k: nat, u: seq<byte>,
                     depth: nat, pretty: bool)
    requires k < |ms| && AreObjects(ms) && Reads(strict, st, t, Held(s, true, ms, k))
    requires ListReads(strict, Held(s, true, ms, k), false, ms[k].value.members, |ms[k].value.members|, u)
    ensures Reads(strict, st, W.Opening(t, depth, pretty) + u, Nth(s, ms, k))
  {
    hide Reads;
    hide ListReads;
    var o := Held(s, true, ms, k);
    AddTabs(strict, st, t, o, pretty, depth + 2);
    AddBrace(strict, st, W.Pretty(t, pretty, W.Tabs(depth + 2)), o, pretty, ms[k].value.members);
    AddList(strict, st, W.Opening(t, depth, pretty), o, false, ms[k].value.members, u);
  }

  lemma FirstReads(strict: bool, st: State, t: seq<byte>, s: Stack, ms: seq<Member>, u: seq<byte>, depth: nat,
                   pretty: bool)
    requires ms != [] && AreObjects(ms) && Reads(strict, st, t, s) && Ready(s)
    requires ListReads(strict, Held(s, true, ms, 0), false, ms[0].value.members, |ms[0].value.members|, u)
    ensures Reads(strict, st, W.FirstObject(t, u, depth, pretty), Nth(s, ms, 0))
  {
    hide Reads;
    hide ListReads;
    AddOpen(strict, st, t, s, true, ms);
    AddLine(strict, st, t + W.Ascii("["), Held(s, true, ms, 0), pretty);
    OpeningReads(strict, st, W.Pretty(t + W.Ascii("["), pretty, W.Ascii("\n")), s, ms, 0, u, depth, pretty);
  }

  /** The end of object k: a brace, and a comma if there are more. */
  lemma AddBraceEnd(strict: bool, st: State, t: seq<byte>, s: Stack, ms: seq<Member>, k: nat)
    requires k < |ms| && AreObjects(ms) && Reads(strict, st, t, Nth(s, ms, k))
    ensures Reads(strict, st, if k + 1 < |ms| then t + W.Ascii("},") else t + W.Ascii("}"), Held(s, true, ms, k + 1))
  {
    hide Reads;
    Points();
    Brackets();
    hide W.Ascii;
    var o := Held(s, true, ms, k);
    AddClose(strict, st, t, o, false, ms[k].value.members);
    assert ms[k].value == Group(false, ms[k].value.members);
    assert o.(last := Some(ms[k].value)) == WithValue(s, true, ms, k);
    AddComma(strict, st, t + W.Ascii("}"), s, true, ms, k);
    assert t + W.Ascii("},") == (t + W.Ascii("}")) + W.Ascii(",");
  }

  lemma EndReads(strict: bool, st: State, t: seq<byte>, s: Stack, ms: seq<Member>, depth: nat, pretty: bool)
    requires ms != [] && AreObjects(ms) && Reads(strict, st, t, Nth(s, ms, |ms| - 1)) && Ready(s)
    ensures Reads(strict, st, W.ObjectsEnd(t, depth, pretty), s.(last := Some(Group(true, ms))))
  {
    hide Reads;
    Points();
    Brackets();
    hide W.Ascii;
    AddTabs(strict, st, t, Nth(s, ms, |ms| - 1), pretty, depth + 2);
    var u := W.Pretty(t, pretty, W.Tabs(depth + 2));
    AddBraceEnd(strict, st, u, s, ms, |ms| - 1);
    AddClose(strict, st, u + W.Ascii("}"), s, true, ms);
    assert u + W.Ascii("}]") == (u + W.Ascii("}")) + W.Ascii("]");
  }

  // ---------------------------------------------------------------------------
  // Trees
  // ---------------------------------------------------------------------------

  lemma AddColon(strict: bool, st: State, t: seq<byte>, s: Stack, x: seq<byte>, pretty: bool)
    requires Ready(s) && s.key.None? && Reads(strict, st, t, s.(last := Some(String(x))))
    ensures Reads(strict, st, t + W.Choose(pretty, " : ", ":"), s.(key := Some(x)))
  {
    hide Reads;
    Points();
    hide W.Ascii;
    var s', r := s.(last := Some(String(x))), s.(key := Some(x));
    if pretty {
      AddPunctuation(strict, st, t, s', 32, s');
      AddPunctuation(strict, st, t + [32], s', 58, r);
      AddPunctuation(strict, st, t + [32] + [58], r, 32, r);
      assert t + W.Ascii(" : ") == t + [32] + [58] + [32];
    } else {
      AddPunctuation(strict, st, t, s', 58, r);
    }
  }

  lemma NameReads(strict: bool, st: State, t: seq<byte>, s: Stack, x: seq<byte>, pretty: bool)
    requires Reads(strict, st, t, s) && Ready(s) && s.key.None? && PlainText(strict, x)
    ensures Reads(strict, st, t + (W.Quoted(x) + W.Choose(pretty, " : ", ":")), s.(key := Some(x)))
  {
    hide Reads;
    hide W.Quoted;
    hide W.Choose;
    AddQuoted(strict, st, t, s, x);
    AddColon(strict, st, t + W.Quoted(x), s, x, pretty);
    Assoc(t, W.Quoted(x), W.Choose(pretty, " : ", ":"));
  }

  lemma KeyReads(strict: bool, st: State, t: seq<byte>, s: Stack, n: Node, pretty: bool)
    requires Reads(strict, st, t, s) && Ready(s) && s.key.None? && PlainText(strict, n.name)
    ensures Reads(strict, st, W.KeyText(t, n, pretty), s.(key := KeyOf(n)))
  {
    hide Reads;
    hide W.Quoted;
    hide W.Choose;
    hide PlainText;
    if |n.name| > 0 {
      NameReads(strict, st, t, s, n.name, pretty);
    } else if n.iname >= 0 {
      DigitsArePlain(strict, n.iname);
      IntTextIsSigned(n.iname);
      NameReads(strict, st, t, s, Digits(n.iname), pretty);
    }
  }

  lemma {:induction false} NodeReads(strict: bool, below: Stack, list: bool, t: seq<byte>, nodes: seq<Node>, k: nat,
                                     depth: nat, pretty: bool, fmt: real -> seq<byte>, round: real -> real)
    requires k < |nodes| && PlainNode(strict, nodes[k]) && Formats(fmt, round)
    requires ListReads(strict, below, list, Members(nodes, round), k, t)
    ensures ListReads(strict, below, list, Members(nodes, round), k + 1,
      W.NodeText(t, nodes[k], k + 1 < |nodes|, depth, pretty, fmt))
    decreases nodes[k]
  {
    hide Reads;
    hide Formats;
    hide PlainText;
    hide W.KeyText;
    var n, ms := nodes[k], Members(nodes, round);
    var st, s := Between(Frame(below, list, [], None, None)), Held(below, list, ms, k);
    assert ms[k] == MemberOf(n, round);
    AddTabs(strict, st, t, s, pretty, depth + 1);
    var u := W.Pretty(t, pretty, W.Tabs(depth + 1));
    KeyReads(strict, st, u, s, n, pretty);
    u := W.KeyText(u, n, pretty);
    ValueReads(strict, st, u, s.(key := KeyOf(n)), n.value, depth, pretty, fmt, round);
    u := W.ValueText(u, n.value, depth, pretty, fmt);
    AddComma(strict, st, u, below, list, ms, k);
    AddLine(strict, st, if k + 1 < |nodes| then u + W.Ascii(",") else u, Held(below, list, ms, k + 1), pretty);
  }

  lemma {:induction false} NodesRead(strict: bool, below: Stack, list: bool, nodes: seq<Node>, k: nat, depth: nat,
                                     pretty: bool, fmt: real -> seq<byte>, round: real -> real)
    requires k <= |nodes| && PlainNodes(strict, nodes) && Formats(fmt, round)
    ensures ListReads(strict, below, list, Members(nodes, round), k, W.Nodes([], nodes, k, depth, pretty, fmt))
    decreases nodes, k
  {
    hide Formats;
    hide PlainNode;
    hide W.NodeText;
    if k > 0 {
      hide ListReads;
      NodesRead(strict, below, list, nodes, k - 1, depth, pretty, fmt, round);
      NodeReads(strict, below, list, W.Nodes([], nodes, k - 1, depth, pretty, fmt), nodes, k - 1, depth, pretty, fmt,
                round);
    }
  }

  /** The text of an object's members, where the object stands in an array of objects. */
  lemma {:induction false} MembersRead(strict: bool, s: Stack, ms: seq<Member>, k: nat, o: Obj, depth: nat,
                                       pretty: bool, fmt: real -> seq<byte>, round: real -> real)
    requires k < |ms| && ms[k] == ObjectOf(o, round) && PlainObject(strict, o) && Formats(fmt, round)
    ensures ms[k].value.Group? && ListReads(strict, Held(s, true, ms, k), false, ms[k].value.members,
        |ms[k].value.members|, W.Nodes([], o.members, |o.members|, depth + 2, pretty, fmt))
    decreases o
  {
    hide Formats;
    hide ListReads;
    NodesRead(strict, Held(s, true, ms, k), false, o.members, |o.members|, depth + 2, pretty, fmt, round);
  }

  lemma {:induction false} ObjectsRead(strict: bool, st: State, t: seq<byte>, s: Stack, ms: seq<Member>,
                                       objects: seq<Obj>, k: nat, depth: nat, pretty: bool, fmt: real -> seq<byte>,
                                       round: real -> real)
    requires k <= |objects| && ms != [] && ms[1..] == ObjectsOf(objects, round) && AreObjects(ms)
    requires PlainObjects(strict, objects) && Formats(fmt, round) && Reads(strict, st, t, Nth(s, ms, 0))
    ensures Reads(strict, st, W.Objects(t, objects, k, depth, pretty, fmt), Nth(s, ms, k))
    decreases objects, k
  {
    hide Reads;
    hide Formats;
    hide PlainObject;
    hide ListReads;
    hide W.Opening;
    hide W.Nodes;
    if k > 0 {
      ObjectsRead(strict, st, t, s, ms, objects, k - 1, depth, pretty, fmt, round);
      var o := objects[k - 1];
      assert ms[k] == ms[1..][k - 1] == ObjectOf(o, round);
      var u := W.Objects(t, objects, k - 1, depth, pretty, fmt);
      AddTabs(strict, st, u, Nth(s, ms, k - 1), pretty, depth + 2);
      u := W.Pretty(u, pretty, W.Tabs(depth + 2));
      AddBraceEnd(strict, st, u, s, ms, k - 1);
      assert "},\n" == "}," + "\n";
      AddChoice(strict, st, u, Held(s, true, ms, k), pretty, "},\n", "},");
      MembersRead(strict, s, ms, k, o, depth, pretty, fmt, round);
      OpeningReads(strict, st, u + W.Choose(pretty, "},\n", "},"), s, ms, k,
        W.Nodes([], o.members, |o.members|, depth + 2, pretty, fmt), depth, pretty);
    }
  }

  lemma ObjectsAreObjects(first: Obj, rest: seq<Obj>, round: real -> real)
    ensures AreObjects([ObjectOf(first, round)] + ObjectsOf(rest, round))
  {
  }

  lemma {:induction false} ObjectArrayReads(strict: bool, st: State, t: seq<byte>, s: Stack, first: Obj,
                                            rest: seq<Obj>, v: Value, depth: nat, pretty: bool,
                                            fmt: real -> seq<byte>, round: real -> real)
    requires v == ObjectArray(first, rest) && PlainValue(strict, v) && Formats(fmt, round)
    requires Reads(strict, st, t, s) && Ready(s)
    ensures Reads(strict, st, W.ValueText(t, v, depth, pretty, fmt), s.(last := Some(JsonOf(v, round))))
    decreases v, 0
  {
    hide Reads;
    hide Formats;
    hide PlainObject;
    hide PlainObjects;
    hide ListReads;
    hide W.FirstObject;
    hide W.Objects;
    hide W.ObjectsEnd;
    var ms := [ObjectOf(first, round)] + ObjectsOf(rest, round);
    ObjectsAreObjects(first, rest, round);
    hide AreObjects;
    MembersRead(strict, s, ms, 0, first, depth, pretty, fmt, round);
    var u := W.Nodes([], first.members, |first.members|, depth + 2, pretty, fmt);
    FirstReads(strict, st, t, s, ms, u, depth, pretty);
    u := W.FirstObject(t, u, depth, pretty);
    assert ms[1..] == ObjectsOf(rest, round);
    ObjectsRead(strict, st, u, s, ms, rest, |rest|, depth, pretty, fmt, round);
    EndReads(strict, st, W.Objects(u, rest, |rest|, depth, pretty, fmt), s, ms, depth, pretty);
  }

  /** The text of a value, after which the reader has that value. */
  lemma {:induction false} ValueReads(strict: bool, st: State, t: seq<byte>, s: Stack, v: Value, depth: nat,
                                      pretty: bool, fmt: real -> seq<byte>, round: real -> real)
    requires Reads(strict, st, t, s) && Ready(s) && PlainValue(strict, v) && Formats(fmt, round)
    ensures Reads(strict, st, W.ValueText(t, v, depth, pretty, fmt), s.(last := Some(JsonOf(v, round))))
    decreases v, 1
  {
    hide Reads;
    hide Formats;
    hide ListReads;
    if W.IsScalar(v) {
      ScalarReads(strict, st, t, s, v, fmt, round);
    } else if W.IsFlat(v) {
      FlatValueReads(strict, st, t, s, v, pretty, fmt, round);
    } else {
      match v
      case Object(members) =>
        NodesRead(strict, s, false, members, |members|, depth + 1, pretty, fmt, round);
        ObjectReads(strict, st, t, s, Members(members, round),
          W.Nodes([], members, |members|, depth + 1, pretty, fmt), depth, pretty);
      case ByteStringArray(xs) =>
        forall i | 0 <= i < |xs| ensures PlainText(strict, Encoded(xs[i])) {
          EncodedIsPlain(strict, xs[i]);
        }
        StringsRead(strict, st, t, s, W.Map(Encoded, xs), JsonOf(v, round).members, depth, pretty);
      case TextArray(xs) =>
        StringsRead(strict, st, t, s, xs, JsonOf(v, round).members, depth, pretty);
      case ObjectArray(first, rest) =>
        ObjectArrayReads(strict, st, t, s, first, rest, v, depth, pretty, fmt, round);
      case MixedArray(items) =>
        NodesRead(strict, s, true, items, |items|, depth + 2, pretty, fmt, round);
        MixedReads(strict, st, t, s, Members(items, round),
          W.Nodes([], items, |items|, depth + 2, pretty, fmt), depth, pretty);
    }
  }

  lemma ElementCount(v: Value, fmt: real -> seq<byte>, round: real -> real)
    requires W.IsFlat(v)
    ensures |JsonOf(v, round).members| == |W.Elements(v, fmt)|
  {
  }

  lemma FlatValueReads(strict: bool, st: State, t: seq<byte>, s: Stack, v: Value, pretty: bool,
                       fmt: real -> seq<byte>, round: real -> real)
    requires W.IsFlat(v) && Reads(strict, st, t, s) && Ready(s) && Formats(fmt, round)
    ensures Reads(strict, st, W.NumbersText(t, W.Elements(v, fmt), pretty), s.(last := Some(JsonOf(v, round))))
  {
    hide Reads;
    hide IsWord;
    var texts, j := W.Elements(v, fmt), JsonOf(v, round);
    forall i | 0 <= i < |texts| ensures i < |j.members| && IsWord(texts[i], j.members[i]) {
      ElementIsWord(v, fmt, round, i);
    }
    ElementCount(v, fmt, round);
    NumbersRead(strict, st, t, s, texts, j.members, pretty);
  }

  lemma EmptyReads(strict: bool)
    ensures Reads(strict, START, [], START.stack) && Ready(START.stack)
  {
  }

  lemma Finished(strict: bool, t: seq<byte>, j: Json)
    requires Reads(strict, START, t, START.stack.(last := Some(j)))
    ensures ReadJson(strict, t) == Some(j)
  {
  }

  lemma RenderingReads(strict: bool, nodes: seq<Node>, pretty: bool, fmt: real -> seq<byte>, round: real -> real)
    requires PlainNodes(strict, nodes) && Formats(fmt, round)
    ensures ReadJson(strict, W.Rendering(nodes, pretty, fmt)) == Some(TreeJson(nodes, round))
  {
    hide Reads;
    hide Formats;
    hide PlainNodes;
    hide ListReads;
    hide ReadJson;
    var list, ms := nodes != [] && nodes[0].value.Object? && nodes[0].name == [], Members(nodes, round);
    var s := START.stack;
    EmptyReads(strict);
    AddOpen(strict, START, [], s, list, ms);
    assert "[\n" == "[" + "\n" && "{\n" == "{" + "\n" && "]\n" == "]" + "\n" && "}\n" == "}" + "\n";
    AddChoice(strict, START, [], Held(s, list, ms, 0), pretty, if list then "[\n" else "{\n",
      if list then "[" else "{");
    NodesRead(strict, s, list, nodes, |nodes|, 0, pretty, fmt, round);
    var u := if list then W.Choose(pretty, "[\n", "[") else W.Choose(pretty, "{\n", "{");
    assert [] + u == u;
    var x := u + W.Nodes([], nodes, |nodes|, 0, pretty, fmt);
    AddList(strict, START, u, s, list, ms, W.Nodes([], nodes, |nodes|, 0, pretty, fmt));
    AddClose(strict, START, x, s, list, ms);
    AddChoice(strict, START, x, s.(last := Some(Group(list, ms))), pretty, if list then "]\n" else "}\n",
      if list then "]" else "}");
    Finished(strict, W.Rendering(nodes, pretty, fmt), TreeJson(nodes, round));
  }

  lemma {:induction false} PlainMembersOnly(strict: bool, nodes: seq<Node>, round: real -> real)
    requires forall i :: 0 <= i < |nodes| ==> PlainMember(strict, Members(nodes, round)[i])
    ensures PlainNodes(strict, nodes)
    decreases nodes, 0
  {
    forall i | 0 <= i < |nodes| ensures PlainNode(strict, nodes[i]) {
      assert PlainMember(strict, Members(nodes, round)[i]);
      assert Members(nodes, round)[i] == MemberOf(nodes[i], round);
      PlainNodeOnly(strict, nodes[i], round);
    }
  }

  lemma {:induction false} PlainNodeOnly(strict: bool, n: Node, round: real -> real)
    requires PlainMember(strict, MemberOf(n, round))
    ensures PlainNode(strict, n)
    decreases n
  {
    PlainValueOnly(strict, n.value, round);
  }

  lemma {:induction false} PlainObjectOnly(strict: bool, o: Obj, round: real -> real)
    requires PlainMember(strict, ObjectOf(o, round))
    ensures PlainObject(strict, o)
    decreases o
  {
    PlainMembersOnly(strict, o.members, round);
  }

  lemma ArrayMembers(first: Obj, rest: seq<Obj>, round: real -> real)
    ensures var ms := JsonOf(ObjectArray(first, rest), round).members;
      && |ms| == |rest| + 1 && ms[0] == ObjectOf(first, round)
      && forall i :: 0 <= i < |rest| ==> ms[i + 1] == ObjectOf(rest[i], round)
  {
    ArrayIs(first, rest, round);
    hide ObjectOf;
    hide JsonOf;
  }

  lemma ArrayIs(first: Obj, rest: seq<Obj>, round: real -> real)
    ensures JsonOf(ObjectArray(first, rest), round).members == [ObjectOf(first, round)] + ObjectsOf(rest, round)
  {
    hide ObjectOf;
    hide ObjectsOf;
  }

  lemma PlainElement(strict: bool, t: seq<byte>)
    requires PlainMember(strict, Element(String(t)))
    ensures PlainText(strict, t)
  {
    hide PlainText;
  }

  /** Only plain values have a plain JSON value. */
  lemma {:induction false} PlainValueOnly(strict: bool, v: Value, round: real -> real)
    requires PlainJson(strict, JsonOf(v, round))
    ensures PlainValue(strict, v)
    decreases v, 1
  {
    hide PlainText;
    match v
    case TextArray(xs) =>
      var ms := JsonOf(v, round).members;
      forall i | 0 <= i < |xs| ensures PlainText(strict, xs[i]) {
        assert ms[i] == Element(String(xs[i]));
        assert PlainMember(strict, ms[i]);
        PlainElement(strict, xs[i]);
      }
    case Object(members) =>
      PlainMembersOnly(strict, members, round);
    case ObjectArray(first, rest) =>
      var ms := JsonOf(v, round).members;
      ArrayMembers(first, rest, round);
      assert PlainMember(strict, ms[0]);
      PlainObjectOnly(strict, first, round);
      forall i | 0 <= i < |rest| ensures PlainObject(strict, rest[i]) {
        assert PlainMember(strict, ms[i + 1]);
        PlainObjectOnly(strict, rest[i], round);
      }
    case MixedArray(items) =>
      PlainMembersOnly(strict, items, round);
    case _ =>
  }

  /** In either layout, the printed text reads back as the tree exactly when no name and no text
      holds a character that ends or spoils a string. */
  lemma ReadsBack(strict: bool, nodes: seq<Node>, pretty: bool, fmt: real -> seq<byte>, round: real -> real)
    requires Formats(fmt, round)
    ensures ReadJson(strict, W.Rendering(nodes, pretty, fmt)) == Some(TreeJson(nodes, round)) <==>
      PlainNodes(strict, nodes)
  {
    var t := W.Rendering(nodes, pretty, fmt);
    if PlainNodes(strict, nodes) {
      RenderingReads(strict, nodes, pretty, fmt, round);
    } else if ReadJson(strict, t) == Some(TreeJson(nodes, round)) {
      ReadIsPlain(strict, t);
      PlainMembersOnly(strict, nodes, round);
      assert false;
    }
  }

  // ---------------------------------------------------------------------------
  // Which trees are printed as JSON
  // ---------------------------------------------------------------------------

  /** All members have a key, or none has. */
  ghost predicate Keyed(nodes: seq<Node>, list: bool)
    decreases nodes, 0
  {
    forall i :: 0 <= i < |nodes| ==> (KeyOf(nodes[i]).None? <==> list) && NestedKeyed(nodes[i])
  }

  ghost predicate NestedKeyed(n: Node)
    decreases n
  {
    KeyedValue(n.value)
  }

  ghost predicate KeyedObject(o: Obj)
    decreases o
  {
    Keyed(o.members, false)
  }

  /** The members of objects have keys, and the elements of arrays have none. */
  ghost predicate KeyedValue(v: Value)
    decreases v, 1
  {
    match v
    case Object(members) => Keyed(members, false)
    case ObjectArray(first, rest) => KeyedObject(first) && forall i :: 0 <= i < |rest| ==> KeyedObject(rest[i])
    case MixedArray(items) => Keyed(items, true)
    case _ => true
  }

  lemma {:induction false} ProperMembers(nodes: seq<Node>, list: bool, round: real -> real)
    ensures Proper(Group(list, Members(nodes, round))) <==> Keyed(nodes, list)
    decreases nodes, 0
  {
    var ms := Members(nodes, round);
    forall i | 0 <= i < |nodes| ensures ms[i].key == KeyOf(nodes[i]) &&
        (Proper(ms[i].value) <==> NestedKeyed(nodes[i])) {
      ProperNode(nodes[i], round);
    }
  }

  lemma {:induction false} ProperNode(n: Node, round: real -> real)
    ensures Proper(MemberOf(n, round).value) <==> NestedKeyed(n)
    decreases n
  {
    ProperValue(n.value, round);
  }

  lemma {:induction false} ProperObject(o: Obj, round: real -> real)
    ensures Proper(ObjectOf(o, round).value) <==> KeyedObject(o)
    decreases o
  {
    ProperMembers(o.members, false, round);
  }

  lemma ProperArray(first: Obj, rest: seq<Obj>, round: real -> real)
    ensures Proper(JsonOf(ObjectArray(first, rest), round)) <==>
      && Proper(ObjectOf(first, round).value)
      && forall i :: 0 <= i < |rest| ==> Proper(ObjectOf(rest[i], round).value)
  {
    var j := JsonOf(ObjectArray(first, rest), round);
    ArrayMembers(first, rest, round);
    if Proper(j) {
      forall i | 0 <= i < |rest| ensures Proper(ObjectOf(rest[i], round).value) {
        assert Proper(j.members[i + 1].value);
      }
    }
    if Proper(ObjectOf(first, round).value) && forall i :: 0 <= i < |rest| ==> Proper(ObjectOf(rest[i], round).value) {
      forall i | 0 <= i < |j.members| ensures j.members[i].key.None? && Proper(j.members[i].value) {
        assert i > 0 ==> j.members[i] == ObjectOf(rest[i - 1], round);
      }
    }
  }

  lemma {:induction false} ProperValue(v: Value, round: real -> real)
    ensures Proper(JsonOf(v, round)) <==> KeyedValue(v)
    decreases v, 1
  {
    match v
    case Object(members) =>
      ProperMembers(members, false, round);
    case ObjectArray(first, rest) =>
      ProperObject(first, round);
      forall i | 0 <= i < |rest| ensures Proper(ObjectOf(rest[i], round).value) <==> KeyedObject(rest[i]) {
        ProperObject(rest[i], round);
      }
      ProperArray(first, rest, round);
    case MixedArray(items) =>
      ProperMembers(items, true, round);
    case _ =>
  }

  /** The members of a map are printed as a JSON object unless the first is a map under an integer
      key; and the elements of an array as a JSON array only if the first is a map (without any they
      are printed as an empty object). */
  lemma ProperIff(nodes: seq<Node>, round: real -> real)
    ensures Keyed(nodes, false) ==>
      (Proper(TreeJson(nodes, round)) <==> nodes == [] || nodes[0].name != [] || !nodes[0].value.Object?)
    ensures Keyed(nodes, true) ==>
      (Proper(TreeJson(nodes, round)) <==> nodes == [] || nodes[0].value.Object?)
    ensures Proper(TreeJson(nodes, round)) ==> Keyed(nodes, false) || Keyed(nodes, true)
  {
    ProperMembers(nodes, false, round);
    ProperMembers(nodes, true, round);
  }

  /** A map that holds a map under the key 1 is printed as `["1":{}]`. */
  lemma MapUnderInteger(fmt: real -> seq<byte>, round: real -> real)
    ensures var nodes := [Node([], 1, Object([]))];
      && W.Rendering(nodes, false, fmt) == [91, 34, 49, 34, 58, 123, 125, 93]
      && !Proper(TreeJson(nodes, round))
  {
    var nodes := [Node([], 1, Object([]))];
    Brackets();
    Points();
    Spelled("1", [49]);
    hide W.Ascii;
    hide Proper;
    assert W.IntText(1) == [49];
    hide W.IntText;
    assert W.Nodes([], [], 0, 1, false, fmt) == [];
    assert W.Nodes([], nodes, 0, 0, false, fmt) == [];
    assert W.KeyText([], nodes[0], false) == [34, 49, 34, 58];
    assert W.ValueText([34, 49, 34, 58], nodes[0].value, 0, false, fmt) == [34, 49, 34, 58, 123, 125];
    assert W.Nodes([], nodes, 1, 0, false, fmt) == [34, 49, 34, 58, 123, 125];
    assert KeyOf(nodes[0]).Some?;
    ProperIff(nodes, round);
    ProperMembers(nodes, true, round);
  }
}
