/** The pretty rendering and the compact one differ in white space outside strings and in nothing
    else, exactly when no name and no text opens a string that it does not close. (The writer
    escapes no quotes.) */
module JsonLayout {
  import opened Wrappers
  import opened Base64
  import opened RepTree
  import opened JsonWriter

  const QUOTE: byte := 34

  predicate Blank(c: byte) {
    c == 32 || c == 10
  }

  /** What has been read: the text without white space outside strings, and whether a string is open. */
  datatype Reading = Reading(text: seq<byte>, open: bool)

  function Next(r: Reading, c: byte): Reading {
    if c == QUOTE then Reading(r.text + [c], !r.open)
    else if !r.open && Blank(c) then r
    else r.(text := r.text + [c])
  }

  function Read(r: Reading, t: seq<byte>): Reading {
    if t == [] then r else Next(Read(r, t[..|t| - 1]), t[|t| - 1])
  }

  const START := Reading([], false)

  lemma {:induction false} ReadAppend(r: Reading, a: seq<byte>, b: seq<byte>)
    ensures Read(r, a + b) == Read(Read(r, a), b)
  {
    if b == [] {
      assert a + b == a;
    } else {
      ReadAppend(r, a, b[..|b| - 1]);
      assert (a + b)[..|a + b| - 1] == a + b[..|b| - 1];
    }
  }

  /** Reading on depends on what was read only through the open string. */
  lemma {:induction false} ReadOn(r: Reading, t: seq<byte>)
    ensures Read(r, t) == Reading(r.text + Read(Reading([], r.open), t).text, Read(Reading([], r.open), t).open)
  {
    if t == [] {
      assert r.text + [] == r.text;
    } else {
      ReadOn(r, t[..|t| - 1]);
    }
  }

  /** Texts that read the same, with all strings closed. */
  ghost predicate Same(a: seq<byte>, b: seq<byte>) {
    Read(START, a) == Read(START, b) && !Read(START, a).open
  }

  /** What of a text is kept when a string is open before it, or not. */
  function Kept(open: bool, t: seq<byte>): nat {
    |Read(Reading([], open), t).text|
  }

  ghost predicate LooseFrom(open: bool, t: seq<byte>, u: seq<byte>) {
    && Read(Reading([], open), t).open == Read(Reading([], open), u).open
    && Kept(open, t) >= Kept(open, u)
  }

  /** The pretty text t keeps the compact text u in step: wherever they begin, the same string is
      open behind both, and as much is kept of t. They read the same if `even`, and otherwise t is
      read as the longer one. */
  ghost predicate Track(t: seq<byte>, u: seq<byte>, even: bool) {
    && LooseFrom(true, t, u) && LooseFrom(false, t, u)
    && if even then Same(t, u) else Kept(false, t) > Kept(false, u)
  }

  lemma KeptAppend(open: bool, a: seq<byte>, t: seq<byte>)
    ensures var after := Read(Reading([], open), a).open;
      && Kept(open, a + t) == Kept(open, a) + Kept(after, t)
      && Read(Reading([], open), a + t).open == Read(Reading([], after), t).open
  {
    ReadAppend(Reading([], open), a, t);
    ReadOn(Read(Reading([], open), a), t);
  }

  lemma AppendLoose(open: bool, a: seq<byte>, b: seq<byte>, t: seq<byte>, u: seq<byte>)
    requires LooseFrom(open, a, b) && LooseFrom(true, t, u) && LooseFrom(false, t, u)
    ensures LooseFrom(open, a + t, b + u)
  {
    KeptAppend(open, a, t);
    KeptAppend(open, b, u);
  }

  lemma AppendSame(a: seq<byte>, b: seq<byte>, t: seq<byte>, u: seq<byte>)
    requires Same(a, b) && Same(t, u)
    ensures Same(a + t, b + u)
  {
    ReadAppend(START, a, t);
    ReadAppend(START, b, u);
    ReadOn(Read(START, a), t);
    ReadOn(Read(START, b), u);
  }

  lemma Append(a: seq<byte>, b: seq<byte>, e: bool, t: seq<byte>, u: seq<byte>, f: bool)
    requires Track(a, b, e) && Track(t, u, f)
    ensures Track(a + t, b + u, e && f)
  {
    AppendLoose(true, a, b, t, u);
    AppendLoose(false, a, b, t, u);
    if e && f {
      AppendSame(a, b, t, u);
    } else {
      KeptAppend(false, a, t);
      KeptAppend(false, b, u);
    }
  }

  /** Tracked texts read the same exactly when they are even. */
  lemma TrackDecides(a: seq<byte>, b: seq<byte>, e: bool)
    requires Track(a, b, e)
    ensures Read(START, a) == Read(START, b) <==> e
    ensures e ==> !Read(START, a).open
  {
  }

  // ---------------------------------------------------------------------------
  // Pieces
  // ---------------------------------------------------------------------------

  lemma {:induction false} BlankRead(open: bool, t: seq<byte>)
    requires forall i :: 0 <= i < |t| ==> Blank(t[i])
    ensures Read(Reading([], open), t) == Reading(if open then t else [], open)
  {
    if t != [] {
      BlankRead(open, t[..|t| - 1]);
      assert t == t[..|t| - 1] + [t[|t| - 1]];
    }
  }

  lemma BlankTrack(t: seq<byte>)
    requires forall i :: 0 <= i < |t| ==> Blank(t[i])
    ensures Track(t, [], true)
  {
    BlankRead(true, t);
    BlankRead(false, t);
  }

  predicate QuoteFree(t: seq<byte>) {
    QUOTE !in t
  }

  function Quotes(t: seq<byte>): nat {
    if t == [] then 0 else Quotes(t[..|t| - 1]) + if t[|t| - 1] == QUOTE then 1 else 0
  }

  predicate EvenQuotes(t: seq<byte>) {
    Quotes(t) % 2 == 0
  }

  lemma {:induction false} OpenAfter(r: Reading, t: seq<byte>)
    ensures Read(r, t).open == (r.open == EvenQuotes(t))
  {
    if t != [] {
      OpenAfter(r, t[..|t| - 1]);
    }
  }

  lemma {:induction false} FreeIsEven(t: seq<byte>)
    requires QuoteFree(t)
    ensures Quotes(t) == 0
  {
    if t != [] {
      FreeIsEven(t[..|t| - 1]);
    }
  }

  lemma EvenTrack(t: seq<byte>)
    requires EvenQuotes(t)
    ensures Track(t, t, true)
  {
    OpenAfter(START, t);
  }

  lemma FreeTrack(t: seq<byte>)
    requires QuoteFree(t)
    ensures Track(t, t, true)
  {
    FreeIsEven(t);
    EvenTrack(t);
  }

  lemma {:induction false} QuotesAppend(a: seq<byte>, b: seq<byte>)
    ensures Quotes(a + b) == Quotes(a) + Quotes(b)
  {
    if b == [] {
      assert a + b == a;
    } else {
      QuotesAppend(a, b[..|b| - 1]);
      assert (a + b)[..|a + b| - 1] == a + b[..|b| - 1];
    }
  }

  lemma QuotedQuotes(t: seq<byte>)
    ensures EvenQuotes(Quoted(t)) == EvenQuotes(t)
  {
    var q := Ascii("\"");
    assert q == [QUOTE] && q[..0] == [];
    QuotesAppend(q + t, q);
    QuotesAppend(q, t);
  }

  /** A quoted text, and what separates it from what follows: with an odd number of quotes it leaves
      a string open, and the white space of the pretty separator is kept. */
  lemma QuotedThen(t: seq<byte>, x: seq<byte>, y: seq<byte>)
    requires Track(x, y, true) && Kept(true, x) > Kept(true, y)
    ensures Track(Quoted(t) + x, Quoted(t) + y, EvenQuotes(t))
  {
    var s := Quoted(t);
    QuotedQuotes(t);
    OpenAfter(START, s);
    if EvenQuotes(t) {
      EvenTrack(s);
      Append(s, s, true, x, y, true);
    } else {
      AppendLoose(true, s, s, x, y);
      AppendLoose(false, s, s, x, y);
      KeptAppend(false, s, x);
      KeptAppend(false, s, y);
    }
  }

  lemma QuotedTrack(t: seq<byte>)
    requires EvenQuotes(t)
    ensures Track(Quoted(t), Quoted(t), true)
  {
    QuotedQuotes(t);
    EvenTrack(Quoted(t));
  }

  predicate PlainString(s: string) {
    forall i :: 0 <= i < |s| ==> s[i] as int < 128 && s[i] != '"'
  }

  lemma AsciiFree(s: string)
    requires PlainString(s)
    ensures QuoteFree(Ascii(s))
  {
  }

  /** A separator, and the same one followed by a line feed or a blank. */
  predicate Separator(a: string, b: string) {
    |b| <= 2 && PlainString(b) && (a == b || a == b + " " || a == b + "\n")
  }

  lemma AsciiAppend(a: string, b: string)
    ensures Ascii(a + b) == Ascii(a) + Ascii(b)
  {
  }

  lemma BlankAscii(s: string)
    requires s == " " || s == "\n"
    ensures Ascii(s) != [] && forall i :: 0 <= i < |Ascii(s)| ==> Blank(Ascii(s)[i])
  {
    assert Ascii(" ") == [32] && Ascii("\n") == [10];
  }

  lemma ChooseTrack(a: string, b: string)
    requires Separator(a, b)
    ensures Track(Choose(true, a, b), Choose(false, a, b), true)
    ensures a != b ==> Kept(true, Choose(true, a, b)) > Kept(true, Choose(false, a, b))
  {
    hide Track;
    hide Kept;
    hide Ascii;
    AsciiFree(b);
    FreeTrack(Ascii(b));
    if a != b {
      var s := if a == b + " " then " " else "\n";
      assert a == b + s;
      AsciiAppend(b, s);
      BlankAscii(s);
      BlankTrack(Ascii(s));
      Append(Ascii(b), Ascii(b), true, Ascii(s), [], true);
      assert Ascii(b) + [] == Ascii(b);
      BlankAfter(Ascii(b), Ascii(s));
    }
  }

  /** Within a string the blank is kept. */
  lemma BlankAfter(t: seq<byte>, blank: seq<byte>)
    requires QuoteFree(t) && blank != [] && forall i :: 0 <= i < |blank| ==> Blank(blank[i])
    ensures Kept(true, t + blank) > Kept(true, t)
  {
    FreeIsEven(t);
    OpenAfter(Reading([], true), t);
    KeptAppend(true, t, blank);
    BlankRead(true, blank);
  }

  lemma {:induction false} TabsBlank(depth: nat)
    ensures forall i :: 0 <= i < |Tabs(depth)| ==> Blank(Tabs(depth)[i])
  {
    if depth > 0 {
      TabsBlank(depth - 1);
      assert Ascii("  ") == [32, 32];
    }
  }

  /** What is added only when pretty is white space. */
  lemma PrettyTrack(a: seq<byte>, b: seq<byte>, e: bool, t: seq<byte>)
    requires Track(a, b, e) && forall i :: 0 <= i < |t| ==> Blank(t[i])
    ensures Track(Pretty(a, true, t), Pretty(b, false, t), e)
  {
    hide Track;
    BlankTrack(t);
    Append(a, b, e, t, [], true);
    assert b + [] == b;
  }

  lemma PrettyTabs(a: seq<byte>, b: seq<byte>, e: bool, depth: nat)
    requires Track(a, b, e)
    ensures Track(Pretty(a, true, Tabs(depth)), Pretty(b, false, Tabs(depth)), e)
  {
    TabsBlank(depth);
    PrettyTrack(a, b, e, Tabs(depth));
  }

  lemma PrettyLine(a: seq<byte>, b: seq<byte>, e: bool)
    requires Track(a, b, e)
    ensures Track(Pretty(a, true, Ascii("\n")), Pretty(b, false, Ascii("\n")), e)
  {
    hide Track;
    BlankAscii("\n");
    hide Ascii;
    PrettyTrack(a, b, e, Ascii("\n"));
  }

  lemma AddChoice(a: seq<byte>, b: seq<byte>, e: bool, s: string, t: string)
    requires Track(a, b, e) && Separator(s, t)
    ensures Track(a + Choose(true, s, t), b + Choose(false, s, t), e)
  {
    ChooseTrack(s, t);
    Append(a, b, e, Choose(true, s, t), Choose(false, s, t), true);
  }

  lemma AddText(a: seq<byte>, b: seq<byte>, e: bool, t: seq<byte>)
    requires Track(a, b, e) && Track(t, t, true)
    ensures Track(a + t, b + t, e)
  {
    Append(a, b, e, t, t, true);
  }

  lemma AddFree(a: seq<byte>, b: seq<byte>, e: bool, s: string)
    requires Track(a, b, e) && PlainString(s)
    ensures Track(a + Ascii(s), b + Ascii(s), e)
  {
    AsciiFree(s);
    FreeTrack(Ascii(s));
    AddText(a, b, e, Ascii(s));
  }

  // ---------------------------------------------------------------------------
  // Values
  // ---------------------------------------------------------------------------

  lemma IntFree(i: int)
    ensures QuoteFree(IntText(i))
  {
    var s := if i < 0 then "-" + Decimal(-i) else Decimal(i);
    assert PlainString(s);
    AsciiFree(s);
  }

  lemma EncodedFree(s: seq<byte>)
    ensures QuoteFree(Encoded(s))
  {
    forall k | 0 <= k < |Encoded(s)| ensures Encoded(s)[k] != QUOTE {
      assert Encoded(s)[k] == CharAt(s, k);
      CharFree(s, k);
    }
  }

  lemma CharFree(s: seq<byte>, k: nat)
    ensures CharAt(s, k) != QUOTE
  {
  }

  /** Formatted numbers have no quotes. */
  ghost predicate PlainFormat(fmt: real -> seq<byte>) {
    forall x :: QuoteFree(fmt(x))
  }

  lemma FormatFree(fmt: real -> seq<byte>, x: real)
    requires PlainFormat(fmt)
    ensures QuoteFree(fmt(x))
  {
  }

  lemma BoolFree(b: bool)
    ensures QuoteFree(BoolText(b))
  {
    assert PlainString("true") && PlainString("false");
    AsciiFree("true");
    AsciiFree("false");
  }

  lemma ScalarTrack(v: Value, fmt: real -> seq<byte>)
    requires IsScalar(v) && !v.Text? && PlainFormat(fmt)
    ensures Track(ScalarText(v, fmt), ScalarText(v, fmt), true)
  {
    hide Track;
    match v
    case Nil =>
      AsciiFree("null");
      FreeTrack(Ascii("null"));
    case Int(i) =>
      IntFree(i);
      FreeTrack(IntText(i));
    case Float(x) =>
      FormatFree(fmt, x);
      FreeTrack(fmt(x));
    case Double(x) =>
      FormatFree(fmt, x);
      FreeTrack(fmt(x));
    case Bool(b) =>
      BoolFree(b);
      FreeTrack(BoolText(b));
    case ByteString(s) =>
      EncodedFree(s);
      FreeIsEven(Encoded(s));
      QuotedTrack(Encoded(s));
  }

  lemma ElementsFree(v: Value, fmt: real -> seq<byte>)
    requires IsFlat(v) && PlainFormat(fmt)
    ensures forall k :: 0 <= k < |Elements(v, fmt)| ==> QuoteFree(Elements(v, fmt)[k])
  {
    forall k | 0 <= k < |Elements(v, fmt)| ensures QuoteFree(Elements(v, fmt)[k]) {
      match v
      case IntArray(xs) => IntFree(xs[k]);
      case FloatArray(xs) => FormatFree(fmt, xs[k]);
      case DoubleArray(xs) => FormatFree(fmt, xs[k]);
      case BoolArray(xs) => BoolFree(xs[k]);
    }
  }

  lemma {:induction false} FlatTrack(a: seq<byte>, b: seq<byte>, e: bool, texts: seq<seq<byte>>, k: nat)
    requires Track(a, b, e) && k <= |texts| && forall i :: 0 <= i < |texts| ==> QuoteFree(texts[i])
    ensures Track(Flat(a, texts, k, true), Flat(b, texts, k, false), e)
  {
    hide Track;
    if k > 0 {
      FlatTrack(a, b, e, texts, k - 1);
      var x, y := Flat(a, texts, k - 1, true), Flat(b, texts, k - 1, false);
      FreeTrack(texts[k - 1]);
      AddText(x, y, e, texts[k - 1]);
      assert ", " == "," + " ";
      AddChoice(x + texts[k - 1], y + texts[k - 1], e, ", ", ",");
    }
  }

  predicate AllEven(texts: seq<seq<byte>>, k: nat)
    requires k <= |texts|
  {
    forall i :: 0 <= i < k ==> EvenQuotes(texts[i])
  }

  /** The line of one string of an array. */
  lemma LineTrack(a: seq<byte>, b: seq<byte>, e: bool, t: seq<byte>, more: bool)
    requires Track(a, b, e)
    ensures Track(if more then a + Quoted(t) + Choose(true, ",\n", ",") else Pretty(a + Quoted(t), true, Ascii("\n")),
      if more then b + Quoted(t) + Choose(false, ",\n", ",") else Pretty(b + Quoted(t), false, Ascii("\n")),
      e && EvenQuotes(t))
  {
    hide Track;
    var s, s1 := if more then ",\n" else "\n", if more then "," else "";
    assert s == s1 + "\n";
    ChooseTrack(s, s1);
    var x, y := Ascii(s), Ascii(s1);
    QuotedThen(t, x, y);
    Append(a, b, e, Quoted(t) + x, Quoted(t) + y, EvenQuotes(t));
    Assoc(a, Quoted(t), x);
    Assoc(b, Quoted(t), y);
    assert !more ==> b + Quoted(t) + y == b + Quoted(t);
  }

  lemma {:induction false} LinesTrack(a: seq<byte>, b: seq<byte>, e: bool, texts: seq<seq<byte>>, k: nat, depth: nat)
    requires Track(a, b, e) && k <= |texts|
    ensures Track(Lines(a, texts, k, depth, true), Lines(b, texts, k, depth, false), e && AllEven(texts, k))
  {
    hide Track;
    hide EvenQuotes;
    if k > 0 {
      LinesTrack(a, b, e, texts, k - 1, depth);
      var f := e && AllEven(texts, k - 1);
      var x, y := Lines(a, texts, k - 1, depth, true), Lines(b, texts, k - 1, depth, false);
      PrettyTabs(x, y, f, depth + 2);
      LineTrack(Pretty(x, true, Tabs(depth + 2)), Pretty(y, false, Tabs(depth + 2)), f, texts[k - 1], k < |texts|);
      assert (f && EvenQuotes(texts[k - 1])) == (e && AllEven(texts, k));
    }
  }

  predicate EvenNode(n: Node)
    decreases n, 0
  {
    EvenQuotes(n.name) && EvenValue(n.value)
  }

  predicate EvenNodes(nodes: seq<Node>, k: nat)
    requires k <= |nodes|
    decreases nodes, 0
  {
    forall i :: 0 <= i < k ==> EvenNode(nodes[i])
  }

  predicate EvenObjects(objects: seq<Obj>, k: nat)
    requires k <= |objects|
    decreases objects, 0
  {
    forall i :: 0 <= i < k ==> EvenNodes(objects[i].members, |objects[i].members|)
  }

  /** Every name and every text in the value has an even number of quotes. */
  predicate EvenValue(v: Value)
    decreases v, 1
  {
    match v
    case Text(s) => EvenQuotes(s)
    case TextArray(xs) => AllEven(xs, |xs|)
    case Object(members) => EvenNodes(members, |members|)
    case ObjectArray(first, rest) => EvenNodes(first.members, |first.members|) && EvenObjects(rest, |rest|)
    case MixedArray(items) => EvenNodes(items, |items|)
    case _ => true
  }

  lemma ColonTrack()
    ensures Track(Choose(true, " : ", ":"), Choose(false, " : ", ":"), true)
    ensures Kept(true, Choose(true, " : ", ":")) > Kept(true, Choose(false, " : ", ":"))
  {
    hide Track;
    var x, y := Ascii(" : "), Ascii(":");
    AsciiFree(":");
    FreeTrack(y);
    assert x == [32] + (y + [32]);
    BlankTrack([32]);
    Append(y, y, true, [32], [], true);
    Append([32], [], true, y + [32], y + [], true);
    assert [] + (y + []) == y;
    BlankAfter(y, [32]);
    KeptAppend(true, [32], y + [32]);
    BlankRead(true, [32]);
  }

  lemma KeyTrack(a: seq<byte>, b: seq<byte>, e: bool, n: Node)
    requires Track(a, b, e)
    ensures Track(KeyText(a, n, true), KeyText(b, n, false), e && EvenQuotes(n.name))
  {
    hide Track;
    hide Kept;
    hide Choose;
    hide IntText;
    hide Quoted;
    ColonTrack();
    var x, y := Choose(true, " : ", ":"), Choose(false, " : ", ":");
    if |n.name| > 0 {
      QuotedThen(n.name, x, y);
      Append(a, b, e, Quoted(n.name) + x, Quoted(n.name) + y, EvenQuotes(n.name));
    } else if n.iname >= 0 {
      IntFree(n.iname);
      FreeIsEven(IntText(n.iname));
      QuotedThen(IntText(n.iname), x, y);
      Append(a, b, e, Quoted(IntText(n.iname)) + x, Quoted(IntText(n.iname)) + y, true);
    }
  }

  lemma StringsTrack(a: seq<byte>, b: seq<byte>, e: bool, texts: seq<seq<byte>>, depth: nat)
    requires Track(a, b, e)
    ensures Track(StringsText(a, texts, depth, true), StringsText(b, texts, depth, false), e && AllEven(texts, |texts|))
  {
    hide Track;
    hide AllEven;
    assert "[\n" == "[" + "\n";
    AddChoice(a, b, e, "[\n", "[");
    var x, y := a + Choose(true, "[\n", "["), b + Choose(false, "[\n", "[");
    LinesTrack(x, y, e, texts, |texts|, depth);
    var u, v := Lines(x, texts, |texts|, depth, true), Lines(y, texts, |texts|, depth, false);
    var f := e && AllEven(texts, |texts|);
    PrettyTabs(u, v, f, depth + 1);
    AddFree(Pretty(u, true, Tabs(depth + 1)), Pretty(v, false, Tabs(depth + 1)), f, "]");
  }

  lemma NumbersTrack(a: seq<byte>, b: seq<byte>, e: bool, texts: seq<seq<byte>>)
    requires Track(a, b, e) && forall i :: 0 <= i < |texts| ==> QuoteFree(texts[i])
    ensures Track(NumbersText(a, texts, true), NumbersText(b, texts, false), e)
  {
    hide Track;
    AddFree(a, b, e, "[");
    FlatTrack(a + Ascii("["), b + Ascii("["), e, texts, |texts|);
    AddFree(Flat(a + Ascii("["), texts, |texts|, true), Flat(b + Ascii("["), texts, |texts|, false), e, "]");
  }

  lemma ObjectTrack(a: seq<byte>, b: seq<byte>, e: bool, t: seq<byte>, u: seq<byte>, f: bool, depth: nat)
    requires Track(a, b, e) && Track(t, u, f)
    ensures Track(ObjectText(a, t, depth, true), ObjectText(b, u, depth, false), e && f)
  {
    hide Track;
    assert "{\n" == "{" + "\n";
    AddChoice(a, b, e, "{\n", "{");
    var x, y := a + Choose(true, "{\n", "{"), b + Choose(false, "{\n", "{");
    Append(x, y, e, t, u, f);
    PrettyTabs(x + t, y + u, e && f, depth + 1);
    AddFree(Pretty(x + t, true, Tabs(depth + 1)), Pretty(y + u, false, Tabs(depth + 1)), e && f, "}");
  }

  lemma OpeningTrack(a: seq<byte>, b: seq<byte>, e: bool, depth: nat)
    requires Track(a, b, e)
    ensures Track(Opening(a, depth, true), Opening(b, depth, false), e)
  {
    hide Track;
    PrettyTabs(a, b, e, depth + 2);
    assert "{\n" == "{" + "\n";
    AddChoice(Pretty(a, true, Tabs(depth + 2)), Pretty(b, false, Tabs(depth + 2)), e, "{\n", "{");
  }

  lemma FirstTrack(a: seq<byte>, b: seq<byte>, e: bool, t: seq<byte>, u: seq<byte>, f: bool, depth: nat)
    requires Track(a, b, e) && Track(t, u, f)
    ensures Track(FirstObject(a, t, depth, true), FirstObject(b, u, depth, false), e && f)
  {
    hide Track;
    AddFree(a, b, e, "[");
    PrettyLine(a + Ascii("["), b + Ascii("["), e);
    var x, y := Pretty(a + Ascii("["), true, Ascii("\n")), Pretty(b + Ascii("["), false, Ascii("\n"));
    OpeningTrack(x, y, e, depth);
    Append(Opening(x, depth, true), Opening(y, depth, false), e, t, u, f);
  }

  lemma MixedTrack(a: seq<byte>, b: seq<byte>, e: bool, t: seq<byte>, u: seq<byte>, f: bool, some: bool, depth: nat)
    requires Track(a, b, e) && Track(t, u, f)
    ensures Track(MixedText(a, t, some, depth, true), MixedText(b, u, some, depth, false), e && f)
  {
    hide Track;
    AddFree(a, b, e, "[");
    PrettyLine(a + Ascii("["), b + Ascii("["), e);
    var x, y := Pretty(a + Ascii("["), some, Ascii("\n")), Pretty(b + Ascii("["), false, Ascii("\n"));
    Append(x, y, e, t, u, f);
    PrettyTabs(x + t, y + u, e && f, depth + 2);
    AddFree(Pretty(x + t, true, Tabs(depth + 2)), Pretty(y + u, false, Tabs(depth + 2)), e && f, "]");
  }

  /** Any value but a text, which is tracked together with what follows it. */
  lemma {:induction false} ValueTrack(a: seq<byte>, b: seq<byte>, e: bool, v: Value, depth: nat, fmt: real -> seq<byte>)
    requires Track(a, b, e) && !v.Text? && PlainFormat(fmt)
    ensures Track(ValueText(a, v, depth, true, fmt), ValueText(b, v, depth, false, fmt), e && EvenValue(v))
    decreases v, 1
  {
    hide Track;
    if IsScalar(v) {
      ScalarTrack(v, fmt);
      AddText(a, b, e, ScalarText(v, fmt));
    } else if IsFlat(v) {
      ElementsFree(v, fmt);
      NumbersTrack(a, b, e, Elements(v, fmt));
    } else {
      match v
      case Object(members) =>
        NodesTrack(members, |members|, depth + 1, fmt);
        var t := Nodes([], members, |members|, depth + 1, true, fmt);
        var u := Nodes([], members, |members|, depth + 1, false, fmt);
        ObjectTrack(a, b, e, t, u, EvenNodes(members, |members|), depth);
      case ByteStringArray(xs) =>
        forall i | 0 <= i < |xs| ensures EvenQuotes(Map(Encoded, xs)[i]) {
          EncodedFree(xs[i]);
          FreeIsEven(Encoded(xs[i]));
        }
        StringsTrack(a, b, e, Map(Encoded, xs), depth);
      case TextArray(xs) =>
        StringsTrack(a, b, e, xs, depth);
      case ObjectArray(first, rest) =>
        ObjectArrayTrack(a, b, e, v, first, rest, depth, fmt);
      case MixedArray(items) =>
        NodesTrack(items, |items|, depth + 2, fmt);
        var t := Nodes([], items, |items|, depth + 2, true, fmt);
        var u := Nodes([], items, |items|, depth + 2, false, fmt);
        MixedTrack(a, b, e, t, u, EvenNodes(items, |items|), items != [], depth);
    }
  }

  lemma {:induction false} ObjectArrayTrack(a: seq<byte>, b: seq<byte>, e: bool, v: Value, first: Obj, rest: seq<Obj>,
                                            depth: nat, fmt: real -> seq<byte>)
    requires v == ObjectArray(first, rest) && Track(a, b, e) && PlainFormat(fmt)
    ensures Track(ValueText(a, v, depth, true, fmt), ValueText(b, v, depth, false, fmt), e && EvenValue(v))
    decreases v, 0
  {
    hide Track;
    hide EvenNodes;
    hide EvenObjects;
    NodesTrack(first.members, |first.members|, depth + 2, fmt);
    var t := Nodes([], first.members, |first.members|, depth + 2, true, fmt);
    var u := Nodes([], first.members, |first.members|, depth + 2, false, fmt);
    var f, g := EvenNodes(first.members, |first.members|), EvenObjects(rest, |rest|);
    FirstTrack(a, b, e, t, u, f, depth);
    ObjectsTrack(FirstObject(a, t, depth, true), FirstObject(b, u, depth, false), e && f, rest, |rest|, depth, fmt);
    var x := Objects(FirstObject(a, t, depth, true), rest, |rest|, depth, true, fmt);
    var y := Objects(FirstObject(b, u, depth, false), rest, |rest|, depth, false, fmt);
    PrettyTabs(x, y, e && f && g, depth + 2);
    AddFree(Pretty(x, true, Tabs(depth + 2)), Pretty(y, false, Tabs(depth + 2)), e && f && g, "}]");
  }

  lemma {:induction false} ObjectsTrack(a: seq<byte>, b: seq<byte>, e: bool, objects: seq<Obj>, k: nat, depth: nat,
                                        fmt: real -> seq<byte>)
    requires Track(a, b, e) && k <= |objects| && PlainFormat(fmt)
    ensures Track(Objects(a, objects, k, depth, true, fmt), Objects(b, objects, k, depth, false, fmt),
      e && EvenObjects(objects, k))
    decreases objects, k
  {
    hide Track;
    hide EvenNodes;
    hide Nodes;
    hide PlainFormat;
    if k > 0 {
      ObjectsTrack(a, b, e, objects, k - 1, depth, fmt);
      var x, y := Objects(a, objects, k - 1, depth, true, fmt), Objects(b, objects, k - 1, depth, false, fmt);
      var f, members := e && EvenObjects(objects, k - 1), objects[k - 1].members;
      PrettyTabs(x, y, f, depth + 2);
      var u, v := Pretty(x, true, Tabs(depth + 2)), Pretty(y, false, Tabs(depth + 2));
      assert "},\n" == "}," + "\n";
      AddChoice(u, v, f, "},\n", "},");
      var p, q := u + Choose(true, "},\n", "},"), v + Choose(false, "},\n", "},");
      OpeningTrack(p, q, f, depth);
      NodesTrack(members, |members|, depth + 2, fmt);
      Append(Opening(p, depth, true), Opening(q, depth, false), f,
             Nodes([], members, |members|, depth + 2, true, fmt), Nodes([], members, |members|, depth + 2, false, fmt),
             EvenNodes(members, |members|));
      assert (f && EvenNodes(members, |members|)) == (e && EvenObjects(objects, k));
    }
  }

  lemma EmptyTrack()
    ensures Track([], [], true)
  {
  }

  lemma EvenNodesNext(nodes: seq<Node>, k: nat)
    requires k < |nodes|
    ensures EvenNodes(nodes, k + 1) == (EvenNodes(nodes, k) && EvenNode(nodes[k]))
  {
  }

  lemma {:induction false} NodesTrack(nodes: seq<Node>, k: nat, depth: nat, fmt: real -> seq<byte>)
    requires k <= |nodes| && PlainFormat(fmt)
    ensures Track(Nodes([], nodes, k, depth, true, fmt), Nodes([], nodes, k, depth, false, fmt), EvenNodes(nodes, k))
    decreases nodes, k
  {
    hide Track;
    hide EvenNode;
    hide NodeText;
    hide PlainFormat;
    if k > 0 {
      NodesTrack(nodes, k - 1, depth, fmt);
      NodeTrack(Nodes([], nodes, k - 1, depth, true, fmt), Nodes([], nodes, k - 1, depth, false, fmt),
                EvenNodes(nodes, k - 1), nodes[k - 1], k < |nodes|, depth, fmt);
      EvenNodesNext(nodes, k - 1);
    } else {
      EmptyTrack();
    }
  }

  lemma {:induction false} NodeTrack(a: seq<byte>, b: seq<byte>, e: bool, n: Node, more: bool, depth: nat,
                                     fmt: real -> seq<byte>)
    requires Track(a, b, e) && PlainFormat(fmt)
    ensures Track(NodeText(a, n, more, depth, true, fmt), NodeText(b, n, more, depth, false, fmt), e && EvenNode(n))
    decreases n
  {
    hide Track;
    hide EvenQuotes;
    PrettyTabs(a, b, e, depth + 1);
    var x, y := Pretty(a, true, Tabs(depth + 1)), Pretty(b, false, Tabs(depth + 1));
    KeyTrack(x, y, e, n);
    var k, l, f := KeyText(x, n, true), KeyText(y, n, false), e && EvenQuotes(n.name);
    if n.value.Text? {
      LineTrack(k, l, f, n.value.text, more);
      TextLine(k, n.value.text, more);
      TextLine(l, n.value.text, more);
    } else {
      ValueTrack(k, l, f, n.value, depth, fmt);
      var u, v := ValueText(k, n.value, depth, true, fmt), ValueText(l, n.value, depth, false, fmt);
      f := f && EvenValue(n.value);
      AddFree(u, v, f, ",");
      PrettyLine(if more then u + Ascii(",") else u, if more then v + Ascii(",") else v, f);
    }
  }

  /** The end of a member is that of a line of an array of strings. */
  lemma TextLine(acc: seq<byte>, t: seq<byte>, more: bool)
    ensures var u := acc + Quoted(t);
      Pretty(if more then u + Ascii(",") else u, true, Ascii("\n")) ==
        if more then u + Choose(true, ",\n", ",") else Pretty(u, true, Ascii("\n"))
  {
    assert Ascii(",\n") == Ascii(",") + Ascii("\n");
    Assoc(acc + Quoted(t), Ascii(","), Ascii("\n"));
  }

  /** The layouts differ in white space outside strings alone exactly when every name and every text
      has an even number of quotes. */
  lemma LayoutOnly(nodes: seq<Node>, fmt: real -> seq<byte>)
    requires PlainFormat(fmt)
    ensures Read(START, Rendering(nodes, true, fmt)) == Read(START, Rendering(nodes, false, fmt)) <==>
      EvenNodes(nodes, |nodes|)
    ensures EvenNodes(nodes, |nodes|) ==> !Read(START, Rendering(nodes, true, fmt)).open
  {
    hide Track;
    hide EvenNodes;
    hide Nodes;
    hide Read;
    NodesTrack(nodes, |nodes|, 0, fmt);
    RenderingTrack(nodes, fmt, EvenNodes(nodes, |nodes|));
    var e := EvenNodes(nodes, |nodes|);
    TrackDecides(Rendering(nodes, true, fmt), Rendering(nodes, false, fmt), e);
  }

  lemma RenderingTrack(nodes: seq<Node>, fmt: real -> seq<byte>, e: bool)
    requires Track(Nodes([], nodes, |nodes|, 0, true, fmt), Nodes([], nodes, |nodes|, 0, false, fmt), e)
    ensures Track(Rendering(nodes, true, fmt), Rendering(nodes, false, fmt), e)
  {
    hide Track;
    hide Nodes;
    hide Choose;
    var t, u := Nodes([], nodes, |nodes|, 0, true, fmt), Nodes([], nodes, |nodes|, 0, false, fmt);
    Enclosed(t, u, e, "[\n", "[", "]\n", "]");
    Enclosed(t, u, e, "{\n", "{", "}\n", "}");
  }

  lemma Enclosed(t: seq<byte>, u: seq<byte>, e: bool, s: string, s1: string, end: string, end1: string)
    requires Track(t, u, e) && |s1| == 1 && |end1| == 1 && s == s1 + "\n" && end == end1 + "\n"
    requires PlainString(s1) && PlainString(end1)
    ensures Track(Choose(true, s, s1) + t + Choose(true, end, end1),
      Choose(false, s, s1) + u + Choose(false, end, end1), e)
  {
    hide Track;
    ChooseTrack(s, s1);
    ChooseTrack(end, end1);
    Append(Choose(true, s, s1), Choose(false, s, s1), true, t, u, e);
    Append(Choose(true, s, s1) + t, Choose(false, s, s1) + u, e, Choose(true, end, end1), Choose(false, end, end1),
      true);
  }

  /** A member whose name is a single quote already makes the layouts differ. */
  lemma OneQuoteDiffers(fmt: real -> seq<byte>)
    requires PlainFormat(fmt)
    ensures var nodes := [Node([QUOTE], -1, Nil)];
      Read(START, Rendering(nodes, true, fmt)) != Read(START, Rendering(nodes, false, fmt))
  {
    var nodes := [Node([QUOTE], -1, Nil)];
    assert [QUOTE][..0] == [];
    assert Quotes([QUOTE]) == 1;
    assert !EvenQuotes(nodes[0].name);
    assert !EvenNode(nodes[0]);
    LayoutOnly(nodes, fmt);
  }
}
