/** A reader of JSON text (RFC 8259): one pass over the bytes, with the open objects and arrays on
    a stack. It shares nothing with the writer. */
module JsonReader {
  import opened Wrappers

  /** A member of an object has a key, and an element of an array has none: the reader takes both
      in either, and `Proper` tells which text is JSON. */
  datatype Json =
    | Null
    | Truth(b: bool)
    | Number(x: real)
    | String(t: seq<byte>)
    | Group(list: bool, members: seq<Member>)

  datatype Member = Member(key: Option<seq<byte>>, value: Json)

  ghost predicate Proper(j: Json) {
    j.Group? ==> forall i :: 0 <= i < |j.members| ==>
      (j.members[i].key.None? <==> j.list) && Proper(j.members[i].value)
  }

  // ---------------------------------------------------------------------------
  // Words: everything but strings and punctuation
  // ---------------------------------------------------------------------------

  predicate Digit(c: byte) {
    48 <= c <= 57
  }

  /** Digits without a leading zero. */
  predicate Whole(t: seq<byte>) {
    t != [] && (t[0] == 48 ==> |t| == 1) && forall i :: 0 <= i < |t| ==> Digit(t[i])
  }

  function ValueOf(t: seq<byte>): int {
    if t == [] then 0 else 10 * ValueOf(t[..|t| - 1]) + (t[|t| - 1] as int - 48)
  }

  function PowerOfTen(n: nat): real {
    if n == 0 then 1.0 else 10.0 * PowerOfTen(n - 1)
  }

  lemma {:induction false} PowerIsPositive(n: nat)
    ensures PowerOfTen(n) > 0.0
  {
    if n > 0 {
      PowerIsPositive(n - 1);
    }
  }

  /** Where the decimal point is, or the length of the text. */
  function PointAt(t: seq<byte>, k: nat): (p: nat)
    requires k <= |t|
    ensures k <= p <= |t|
    decreases |t| - k
  {
    if k == |t| || t[k] == 46 then k else PointAt(t, k + 1)
  }

  function UnsignedOf(t: seq<byte>): Option<real> {
    var p := PointAt(t, 0);
    if !Whole(t[..p]) then None
    else if p == |t| then Some(ValueOf(t) as real)
    else
      var f := t[p + 1..];
      PowerIsPositive(|f|);
      if f != [] && forall i :: 0 <= i < |f| ==> Digit(f[i]) then
        Some(ValueOf(t[..p]) as real + ValueOf(f) as real / PowerOfTen(|f|))
      else None
  }

  function NumberOf(t: seq<byte>): Option<real> {
    if t != [] && t[0] == 45 then
      match UnsignedOf(t[1..])
      case Some(x) => Some(-x)
      case None => None
    else UnsignedOf(t)
  }

  /** "true", "false", "null", or a number. */
  function WordOf(t: seq<byte>): Option<Json> {
    if t == [116, 114, 117, 101] then Some(Truth(true))
    else if t == [102, 97, 108, 115, 101] then Some(Truth(false))
    else if t == [110, 117, 108, 108] then Some(Null)
    else
      match NumberOf(t)
      case Some(x) => Some(Number(x))
      case None => None
  }

  predicate Blank(c: byte) {
    c == 9 || c == 10 || c == 13 || c == 32
  }

  predicate InWords(c: byte) {
    !Blank(c) && c !in [34, 44, 58, 91, 93, 123, 125]
  }

  // ---------------------------------------------------------------------------
  // The reader
  // ---------------------------------------------------------------------------

  /** An open object or array: its members, the key of the next one, and a value that has been read
      and is not yet separated from what follows. */
  datatype Stack =
    | Bottom
    | Frame(below: Stack, list: bool, members: seq<Member>, key: Option<seq<byte>>, last: Option<Json>)

  datatype State =
    | Between(stack: Stack)
    | InString(stack: Stack, t: seq<byte>)
    | InWord(stack: Stack, t: seq<byte>)
    | Bad

  const START := Between(Frame(Bottom, true, [], None, None))

  function Give(s: Stack, j: Json): State {
    if s.Frame? && s.last.None? then Between(s.(last := Some(j))) else Bad
  }

  /** A word ends where something else begins. */
  function Settle(st: State): State {
    if !st.InWord? then st
    else
      match WordOf(st.t)
      case Some(j) => Give(st.stack, j)
      case None => Bad
  }

  function Comma(s: Stack): State {
    if s.Frame? && s.last.Some? then
      Between(s.(members := s.members + [Member(s.key, s.last.value)], key := None, last := None))
    else Bad
  }

  function Colon(s: Stack): State {
    if s.Frame? && s.key.None? && s.last.Some? && s.last.value.String? then
      Between(s.(key := Some(s.last.value.t), last := None))
    else Bad
  }

  function Open(s: Stack, list: bool): State {
    if s.Frame? && s.last.None? then Between(Frame(s, list, [], None, None)) else Bad
  }

  function Close(s: Stack, list: bool): State {
    if !s.Frame? || s.list != list then Bad
    else if s.last.Some? then Give(s.below, Group(list, s.members + [Member(s.key, s.last.value)]))
    else if s.members == [] && s.key.None? then Give(s.below, Group(list, []))
    else Bad
  }

  function Mark(s: Stack, c: byte): State {
    if c == 34 then InString(s, [])
    else if c == 44 then Comma(s)
    else if c == 58 then Colon(s)
    else if c == 91 then Open(s, true)
    else if c == 93 then Close(s, true)
    else if c == 123 then Open(s, false)
    else if c == 125 then Close(s, false)
    else Between(s)
  }

  /** What may stand in a string as it is. A strict reader wants a control character or a reverse
      solidus to be escaped, as section 7 of RFC 8259 does; the other one takes every string up to
      the next quotation mark. Neither undoes an escape. */
  predicate Plain(strict: bool, c: byte) {
    c != 34 && (strict ==> c >= 32 && c != 92)
  }

  function Step(strict: bool, st: State, c: byte): State {
    match st
    case Bad => Bad
    case InString(s, t) =>
      if c == 34 then Give(s, String(t)) else if Plain(strict, c) then InString(s, t + [c]) else Bad
    case _ =>
      if InWords(c) then InWord(st.stack, if st.InWord? then st.t + [c] else [c])
      else
        match Settle(st)
        case Between(s) => Mark(s, c)
        case _ => Bad
  }

  function Scan(strict: bool, st: State, t: seq<byte>): State {
    if t == [] then st else Step(strict, Scan(strict, st, t[..|t| - 1]), t[|t| - 1])
  }

  function ReadJson(strict: bool, t: seq<byte>): Option<Json> {
    match Settle(Scan(strict, START, t))
    case Between(s) =>
      if s.Frame? && s.below.Bottom? && s.members == [] && s.key.None? then s.last else None
    case _ => None
  }

  lemma {:induction false} ScanAppend(strict: bool, st: State, a: seq<byte>, b: seq<byte>)
    ensures Scan(strict, st, a + b) == Scan(strict, Scan(strict, st, a), b)
  {
    hide Step;
    if b == [] {
      assert a + b == a;
    } else {
      ScanAppend(strict, st, a, b[..|b| - 1]);
      assert (a + b)[..|a + b| - 1] == a + b[..|b| - 1];
    }
  }

  // ---------------------------------------------------------------------------
  // No string that is read holds a character that is not plain
  // ---------------------------------------------------------------------------

  predicate PlainText(strict: bool, t: seq<byte>) {
    forall i :: 0 <= i < |t| ==> Plain(strict, t[i])
  }

  predicate PlainJson(strict: bool, j: Json) {
    match j
    case String(t) => PlainText(strict, t)
    case Group(_, ms) => forall i :: 0 <= i < |ms| ==> PlainMember(strict, ms[i])
    case _ => true
  }

  predicate PlainMember(strict: bool, m: Member) {
    (m.key.Some? ==> PlainText(strict, m.key.value)) && PlainJson(strict, m.value)
  }

  predicate PlainStack(strict: bool, s: Stack) {
    s.Frame? ==>
      && PlainStack(strict, s.below)
      && (forall i :: 0 <= i < |s.members| ==> PlainMember(strict, s.members[i]))
      && (s.key.Some? ==> PlainText(strict, s.key.value))
      && (s.last.Some? ==> PlainJson(strict, s.last.value))
  }

  predicate PlainState(strict: bool, st: State) {
    !st.Bad? ==> PlainStack(strict, st.stack) && (st.InString? ==> PlainText(strict, st.t))
  }

  lemma GiveKeepsPlain(strict: bool, s: Stack, j: Json)
    requires PlainStack(strict, s) && PlainJson(strict, j)
    ensures PlainState(strict, Give(s, j))
  {
    hide PlainJson;
  }

  lemma SettleKeepsPlain(strict: bool, st: State)
    requires PlainState(strict, st)
    ensures PlainState(strict, Settle(st))
  {
    if st.InWord? && WordOf(st.t).Some? {
      GiveKeepsPlain(strict, st.stack, WordOf(st.t).value);
    }
  }

  lemma CloseKeepsPlain(strict: bool, s: Stack, list: bool)
    requires PlainStack(strict, s)
    ensures PlainState(strict, Close(s, list))
  {
    hide PlainText;
    if s.Frame? {
      var ms := if s.last.Some? then s.members + [Member(s.key, s.last.value)] else [];
      assert PlainJson(strict, Group(list, ms));
      GiveKeepsPlain(strict, s.below, Group(list, ms));
    }
  }

  lemma MarkKeepsPlain(strict: bool, s: Stack, c: byte)
    requires PlainStack(strict, s)
    ensures PlainState(strict, Mark(s, c))
  {
    CloseKeepsPlain(strict, s, true);
    CloseKeepsPlain(strict, s, false);
    hide Close;
    hide PlainText;
    assert PlainState(strict, InString(s, [])) by { assert PlainText(strict, []); }
  }

  lemma StepKeepsPlain(strict: bool, st: State, c: byte)
    requires PlainState(strict, st)
    ensures PlainState(strict, Step(strict, st, c))
  {
    hide Plain;
    hide Mark;
    SettleKeepsPlain(strict, st);
    if Settle(st).Between? {
      MarkKeepsPlain(strict, Settle(st).stack, c);
    }
    if st.InString? {
      GiveKeepsPlain(strict, st.stack, String(st.t));
    }
  }

  lemma {:induction false} ScanIsPlain(strict: bool, t: seq<byte>)
    ensures PlainState(strict, Scan(strict, START, t))
  {
    if t != [] {
      ScanIsPlain(strict, t[..|t| - 1]);
      StepKeepsPlain(strict, Scan(strict, START, t[..|t| - 1]), t[|t| - 1]);
    }
  }

  lemma ReadIsPlain(strict: bool, t: seq<byte>)
    ensures ReadJson(strict, t).Some? ==> PlainJson(strict, ReadJson(strict, t).value)
  {
    ScanIsPlain(strict, t);
    SettleKeepsPlain(strict, Scan(strict, START, t));
  }

  // ---------------------------------------------------------------------------
  // Numbers
  // ---------------------------------------------------------------------------

  function DigitByte(d: nat): (c: byte)
    requires d < 10
    ensures Digit(c) && c as int == 48 + d && (c == 48 ==> d == 0)
  {
    (48 + d) as byte
  }

  /** The decimal digits of a number. */
  function Digits(n: nat): (t: seq<byte>)
    ensures Whole(t) && (t[0] == 48 ==> n == 0)
  {
    if n < 10 then [DigitByte(n)] else Digits(n / 10) + [DigitByte(n % 10)]
  }

  lemma {:induction false} DigitsMean(n: nat)
    ensures ValueOf(Digits(n)) == n
  {
    hide DigitByte;
    var t := Digits(n);
    if n < 10 {
      assert t[..|t| - 1] == [];
    } else {
      DigitsMean(n / 10);
      assert t[..|t| - 1] == Digits(n / 10);
    }
  }

  lemma {:induction false} NoPoint(t: seq<byte>, k: nat)
    requires Whole(t) && k <= |t|
    ensures PointAt(t, k) == |t|
    decreases |t| - k
  {
    if k < |t| {
      assert Digit(t[k]);
      NoPoint(t, k + 1);
    }
  }

  lemma UnsignedDigits(n: nat)
    ensures UnsignedOf(Digits(n)) == Some(n as real)
  {
    var t := Digits(n);
    DigitsMean(n);
    NoPoint(t, 0);
    assert t[..|t|] == t;
  }

  lemma NoLetter(t: seq<byte>)
    requires t != [] && t[0] <= 57
    ensures WordOf(t) == if NumberOf(t).Some? then Some(Number(NumberOf(t).value)) else None
  {
    hide NumberOf;
  }

  /** The text of an integer: its sign and digits. */
  function Signed(n: int): seq<byte> {
    if n < 0 then [45] + Digits(-n) else Digits(n)
  }

  lemma SignedIsRead(n: int)
    ensures NumberOf(Signed(n)) == Some(n as real)
  {
    hide UnsignedOf;
    if n < 0 {
      UnsignedDigits(-n);
      assert Signed(n)[1..] == Digits(-n);
    } else {
      UnsignedDigits(n);
      assert Digit(Signed(n)[0]);
    }
  }
}
