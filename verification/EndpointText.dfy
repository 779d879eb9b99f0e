/** IPv6 addresses as text (section 2.2 of RFC 4291): what a text means, and a parser that reads its
    groups into the address and expands the "::" in place. */
module EndpointText {
  import opened Wrappers
  import opened WordBits

  const ADDRESS_LEN := 16
  const GROUPS := 8
  const BUFFER_LEN := 54

  type octet = x: int | 0 <= x < 0x100
  type word = x: int | 0 <= x < 0x1_0000

  // ---------------------------------------------------------------------------
  // Address text as a sequence of items, and its value
  // ---------------------------------------------------------------------------

  datatype Item = Group(digits: string) | Colon | Gap

  function ItemText(x: Item): string {
    match x
    case Group(digits) => digits
    case Colon => ":"
    case Gap => "::"
  }

  function Text(items: seq<Item>): string {
    if items == [] then "" else Text(items[..|items| - 1]) + ItemText(items[|items| - 1])
  }

  predicate IsHex(c: char) {
    '0' <= c <= '9' || 'a' <= c <= 'f' || 'A' <= c <= 'F'
  }

  function DigitValue(c: char): (v: nat)
    requires IsHex(c)
    ensures v < 16
  {
    if '0' <= c <= '9' then (c - '0') as int
    else if 'a' <= c <= 'f' then (c - 'a') as int + 10
    else (c - 'A') as int + 10
  }

  predicate AllHex(s: string) {
    forall i :: 0 <= i < |s| ==> IsHex(s[i])
  }

  function HexValue(s: string): nat
    requires AllHex(s)
  {
    if s == "" then 0 else 16 * HexValue(s[..|s| - 1]) + DigitValue(s[|s| - 1])
  }

  predicate LegalItem(x: Item) {
    x.Group? ==> 1 <= |x.digits| <= 4 && AllHex(x.digits)
  }

  /** Group values in order, and how many of them precede the gap. */
  datatype Reading = Reading(values: seq<nat>, split: Option<nat>)
  function Read(items: seq<Item>): Reading
    requires forall i :: 0 <= i < |items| ==> LegalItem(items[i])
  {
    if items == [] then Reading([], None)
    else
      var r := Read(items[..|items| - 1]);
      assert LegalItem(items[|items| - 1]);
      match items[|items| - 1]
      case Group(digits) => r.(values := r.values + [HexValue(digits)])
      case Colon => r
      case Gap => r.(split := Some(|r.values|))
  }

  ghost predicate AllLegal(items: seq<Item>) {
    forall i :: 0 <= i < |items| ==> LegalItem(items[i])
  }

  predicate LegalPair(x: Item, y: Item, adjacent: bool) {
    !(x.Gap? && y.Gap?) && (adjacent ==> x.Group? != y.Group?)
  }

  /** Groups alternate with separators, there is one gap at most, and a gap stands for at least
      one group. A single separator may come first or last. */
  ghost predicate Legal(items: seq<Item>) {
    && AllLegal(items)
    && (forall i, j :: 0 <= i < j < |items| ==> LegalPair(items[i], items[j], j == i + 1))
    && |Read(items).values| <= GROUPS
    && (Read(items).split.Some? ==> |Read(items).values| < GROUPS)
  }

  function Zeros(n: nat): seq<nat> {
    seq(n, _ => 0)
  }

  /** The gap, or the end when there is none, is filled up with zero groups. */
  function Value(r: Reading): seq<nat>
    requires |r.values| <= GROUPS && (r.split.Some? ==> r.split.value <= |r.values|)
  {
    var k := if r.split.Some? then r.split.value else |r.values|;
    r.values[..k] + Zeros(GROUPS - |r.values|) + r.values[k..]
  }

  /** An address as eight 16-bit groups in network byte order. */
  function Words(bs: seq<octet>): (ws: seq<nat>)
    requires |bs| == ADDRESS_LEN
    ensures |ws| == GROUPS && forall j :: 0 <= j < GROUPS ==> ws[j] < 0x1_0000
  {
    seq(GROUPS, j requires 0 <= j < GROUPS => bs[2 * j] as int * 0x100 + bs[2 * j + 1])
  }

  lemma {:induction false} ReadPrefix(items: seq<Item>, k: nat)
    requires AllLegal(items) && k <= |items|
    ensures Read(items[..k]).values <= Read(items).values
    ensures Read(items[..k]).split.Some? ==> exists i :: 0 <= i < k && items[i].Gap?
    ensures Read(items[..k]).split.Some? ==> Read(items[..k]).split.value <= |Read(items[..k]).values|
    ensures (exists i :: 0 <= i < k && items[i].Gap?) ==> Read(items[..k]).split.Some?
    decreases |items| + k
  {
    if k < |items| {
      assert items[..|items| - 1][..k] == items[..k];
      ReadPrefix(items[..|items| - 1], k);
    } else if k > 0 {
      assert items[..k] == items;
      assert items[..k - 1] == items[..|items| - 1];
      ReadPrefix(items, k - 1);
    }
  }

  /** Item k takes up text[pos[k]..pos[k + 1]]. */
  ghost predicate Laid(text: string, items: seq<Item>, pos: seq<nat>) {
    && |pos| == |items| + 1
    && pos[0] == 0 && pos[|items|] == |text|
    && (forall k {:trigger items[k]} :: 0 <= k < |items| ==> LaidAt(text, items[k], pos[k], pos[k + 1]))
  }

  ghost predicate LaidAt(text: string, x: Item, from: nat, to: nat) {
    from <= to <= |text| && text[from..to] == ItemText(x)
  }

  lemma {:induction false} TextIsLaid(items: seq<Item>) returns (pos: seq<nat>)
    ensures Laid(Text(items), items, pos)
  {
    if items == [] {
      pos := [0];
    } else {
      var front := items[..|items| - 1];
      var before := TextIsLaid(front);
      pos := before + [|Text(items)|];
      forall k | 0 <= k < |items| ensures LaidAt(Text(items), items[k], pos[k], pos[k + 1]) {
        if k < |front| {
          assert LaidAt(Text(front), front[k], before[k], before[k + 1]);
          LaidOn(Text(front), ItemText(items[|front|]), items[k], pos[k], pos[k + 1]);
        }
      }
    }
  }

  lemma LaidOn(text: string, more: string, x: Item, from: nat, to: nat)
    requires LaidAt(text, x, from, to)
    ensures LaidAt(text + more, x, from, to)
  {
  }

  // ---------------------------------------------------------------------------
  // The parser
  // ---------------------------------------------------------------------------

  lemma OrIsByte(a: octet, b: octet)
    ensures Or(a, b) < 0x100
  {
    assert Pow2(8) == 0x100;
    OrIsBelow(a, b, 8);
  }

  lemma {:induction false} OrNothing(a: nat)
    ensures Or(a, 0) == a
  {
    if a > 0 {
      OrNothing(a / 2);
    }
  }

  lemma OrEven(a: nat, d: nat)
    ensures Or(2 * a, d) == 2 * Or(a, d / 2) + d % 2
  {
  }

  lemma OrNibble(hi: nat, d: nat)
    requires d < 16
    ensures Or(16 * hi, d) == 16 * hi + d
  {
    hide Or;
    OrNothing(hi);
    OrEven(hi, d / 8);
    OrEven(2 * hi, d / 4);
    OrEven(4 * hi, d / 2);
    OrEven(8 * hi, d);
    assert d / 8 / 2 == 0 && d / 4 / 2 == d / 8 && d / 2 / 2 == d / 4;
  }

  /** One nibble of hex_to_bin: a character that is no digit is or-ed in as it is. */
  function OrDigit(b: octet, c: char): (r: octet)
    ensures IsHex(c) && b % 16 == 0 ==> r == b + DigitValue(c)
  {
    if IsHex(c) then
      OrIsByte(b, DigitValue(c));
      assert b % 16 == 0 ==> Or(b, DigitValue(c)) == b + DigitValue(c) by { OrNibble(b / 16, DigitValue(c)); }
      Or(b, DigitValue(c))
    else
      OrIsByte(b, c as int % 0x100);
      Or(b, c as int % 0x100)
  }

  lemma ShortHex(s: string)
    requires AllHex(s) && 1 <= |s| <= 2
    ensures HexValue(s) == if |s| == 1 then DigitValue(s[0]) else 16 * DigitValue(s[0]) + DigitValue(s[1])
  {
    assert s[..|s| - 1] == if |s| == 1 then "" else [s[0]];
    assert [s[0]][..0] == "";
  }

  method HexToBin(hex: string) returns (b: octet)
    requires |hex| > 0
    ensures AllHex(hex) && |hex| <= 2 ==> b == HexValue(hex)
  {
    b := OrDigit(0, hex[0]);
    if |hex| > 1 {
      b := OrDigit(b * 16 % 0x100, hex[1]);
    }
    if AllHex(hex) && |hex| <= 2 {
      ShortHex(hex);
    }
  }

  /** The least position of c from `from` on, or the end of the text. */
  function IndexOf(s: string, c: char, from: nat): (i: nat)
    requires from <= |s|
    ensures from <= i <= |s| && (i < |s| ==> s[i] == c)
    decreases |s| - from
  {
    if from == |s| || s[from] == c then from else IndexOf(s, c, from + 1)
  }

  ghost predicate GroupRead(digits: string, at: nat, was: seq<octet>, now: seq<octet>)
    requires |was| == |now| == ADDRESS_LEN && at + 1 < ADDRESS_LEN
  {
    && (forall i :: 0 <= i < ADDRESS_LEN && i != at && i != at + 1 ==> now[i] == was[i])
    && (AllHex(digits) ==> now[at] as int * 0x100 + now[at + 1] == HexValue(digits))
  }

  /** The switch on the segment length: two octets from one to four characters. */
  method ReadGroup(digits: string, addr: array<octet>, at: nat)
    requires 1 <= |digits| <= 4 && addr.Length == ADDRESS_LEN && at + 1 < ADDRESS_LEN
    modifies addr
    ensures GroupRead(digits, at, old(addr[..]), addr[..])
  {
    var hi, lo: octet := 0, 0;
    if |digits| == 4 {
      hi := HexToBin(digits[..2]);
      lo := HexToBin(digits[2..]);
    } else if |digits| == 3 {
      hi := HexToBin(digits[..1]);
      lo := HexToBin(digits[1..]);
    } else {
      lo := HexToBin(digits);
    }
    addr[at], addr[at + 1] := hi, lo;
    if AllHex(digits) {
      if |digits| > 2 {
        HexSplit(digits);
      }
    }
  }

  lemma HexSplit(s: string)
    requires AllHex(s) && |s| > 2
    ensures HexValue(s) == HexValue(s[..|s| - 2]) * 0x100 + HexValue(s[|s| - 2..])
  {
    var n := |s|;
    assert s[..n - 1][..n - 2] == s[..n - 2];
    assert s[n - 2..][..1] == [s[n - 2]] && s[n - 2..][..1][..0] == "";
    assert HexValue([s[n - 2]]) == DigitValue(s[n - 2]);
  }

  /** The bytes after the split move to the end of the address, and zeros take their place. (With
      nothing to insert each byte is moved onto itself and then zeroed.) */
  method ShiftTail(addr: array<octet>, split: nat, filled: nat)
    requires addr.Length == ADDRESS_LEN && split <= filled <= ADDRESS_LEN
    requires forall i :: filled <= i < ADDRESS_LEN ==> addr[i] == 0
    modifies addr
    ensures Shifted(old(addr[..]), addr[..], split, filled)
  {
    var i, to := filled - 1, ADDRESS_LEN - 1;
    ghost var z, was := ADDRESS_LEN - filled, addr[..];
    while i >= split
      invariant split - 1 <= i < filled && to == i + z
      invariant forall j :: 0 <= j <= i ==> addr[j] == was[j]
      invariant forall j :: i < j <= i + z ==> addr[j] == 0
      invariant forall j :: i + z < j < ADDRESS_LEN ==> addr[j] == if z == 0 then 0 else was[j - z]
    {
      addr[to] := addr[i];
      assert z > 0 ==> i < to;
      addr[i] := 0;
      i, to := i - 1, to - 1;
    }
  }

  ghost predicate Shifted(was: seq<octet>, now: seq<octet>, split: nat, filled: nat)
    requires |was| == |now| == ADDRESS_LEN && split <= filled <= ADDRESS_LEN
  {
    var z := ADDRESS_LEN - filled;
    && (forall j :: 0 <= j < split ==> now[j] == was[j])
    && (forall j :: split <= j < split + z ==> now[j] == 0)
    && (forall j :: split + z <= j < ADDRESS_LEN ==> now[j] == if z == 0 then 0 else was[j - z])
  }

  /** The lengths of the non-empty segments between colons, from position `at` on. */
  function Lengths(text: string, at: nat): seq<nat>
    decreases |text| - at
  {
    if at >= |text| then []
    else
      var next := IndexOf(text, ':', at);
      if next == at then Lengths(text, at + 1) else [next - at] + Lengths(text, next)
  }

  /** One of the first eight of them has more than four characters. */
  ghost predicate HasLongSegment(text: string) {
    var ls := Lengths(text, 0);
    exists k :: 0 <= k < GROUPS && k < |ls| && ls[k] > 4
  }

  /** The first n segments have been read; the others are to come. */
  ghost predicate SegmentsRead(text: string, at: nat, n: nat) {
    var ls := Lengths(text, 0);
    && n <= |ls| && Lengths(text, at) == ls[n..]
    && forall k :: 0 <= k < n ==> ls[k] <= 4
  }

  lemma ReadSegment(text: string, at: nat, n: nat, to: nat, length: nat)
    requires SegmentsRead(text, at, n) && length <= 4 && Lengths(text, at) == [length] + Lengths(text, to)
    ensures SegmentsRead(text, to, n + 1)
  {
    var ls := Lengths(text, 0);
    assert ls[n] == ls[n..][0] == length;
    assert ls[n + 1..] == ls[n..][1..];
  }

  lemma LongSegment(text: string, at: nat, n: nat)
    requires SegmentsRead(text, at, n) && n < GROUPS && Lengths(text, at) != [] && Lengths(text, at)[0] > 4
    ensures HasLongSegment(text)
  {
    var ls := Lengths(text, 0);
    assert ls[n] == ls[n..][0];
  }

  lemma AllRead(text: string, at: nat, n: nat)
    requires SegmentsRead(text, at, n) && (n == GROUPS || at >= |text|)
    ensures !HasLongSegment(text)
  {
    var ls := Lengths(text, 0);
    if at >= |text| {
      assert |ls[n..]| == 0;
    }
  }

  lemma GapIsEmpty(text: string, at: nat)
    requires at + 1 < |text| && text[at] == ':' && text[at + 1] == ':'
    ensures Lengths(text, at) == Lengths(text, at + 2)
  {
    assert IndexOf(text, ':', at) == at && IndexOf(text, ':', at + 1) == at + 1;
    assert Lengths(text, at) == Lengths(text, at + 1);
  }

  /** Five digits in a row are enough. */
  lemma FiveDigitsHang()
    ensures HasLongSegment("12345")
  {
    FirstAt("12345", ':', 0, 5);
    assert Lengths("12345", 0)[0] == 5;
  }

  /** What text surrounds item k. */
  lemma AtItem(text: string, items: seq<Item>, pos: seq<nat>, k: nat)
    requires Legal(items) && Laid(text, items, pos) && k < |items|
    ensures var p, q := pos[k], pos[k + 1];
      && LaidAt(text, items[k], p, q) && p < q && LegalItem(items[k])
      && (items[k].Group? ==> text[p] != ':' && IndexOf(text, ':', p) == q)
      && (items[k].Colon? ==> q == p + 1 && text[p] == ':' && (q == |text| || text[q] != ':'))
      && (items[k].Gap? ==> q == p + 2 && text[p] == ':' && text[p + 1] == ':')
  {
    assert LegalItem(items[k]) && LaidAt(text, items[k], pos[k], pos[k + 1]);
    if k + 1 < |items| {
      assert LegalItem(items[k + 1]) && LegalPair(items[k], items[k + 1], true);
      assert LaidAt(text, items[k + 1], pos[k + 1], pos[k + 2]);
      ItemChars(text, items[k + 1], pos[k + 1], pos[k + 2]);
    }
    ItemChars(text, items[k], pos[k], pos[k + 1]);
  }

  lemma ItemChars(text: string, x: Item, p: nat, q: nat)
    requires LegalItem(x) && LaidAt(text, x, p, q)
    ensures p < q
    ensures match x
      case Group(_) => IsHex(text[p]) && (q == |text| || text[q] == ':' ==> IndexOf(text, ':', p) == q)
      case Colon => q == p + 1 && text[p] == ':'
      case Gap => q == p + 2 && text[p] == ':' && text[p + 1] == ':'
  {
    assert text[p] == text[p..q][0];
    match x
    case Group(digits) =>
      assert forall i :: p <= i < q ==> text[i] == digits[i - p];
      if q == |text| || text[q] == ':' {
        FirstAt(text, ':', p, q);
      }
    case Colon =>
    case Gap =>
      assert text[p + 1] == text[p..q][1];
  }

  lemma {:induction false} NotBefore(s: string, c: char, from: nat)
    requires from <= |s|
    ensures forall j :: from <= j < IndexOf(s, c, from) ==> s[j] != c
    decreases |s| - from
  {
    if from < |s| && s[from] != c {
      NotBefore(s, c, from + 1);
    }
  }

  lemma {:induction false} FirstAt(s: string, c: char, from: nat, i: nat)
    requires from <= i <= |s| && (i == |s| || s[i] == c)
    requires forall j :: from <= j < i ==> s[j] != c
    ensures IndexOf(s, c, from) == i
    decreases i - from
  {
    if from < i {
      FirstAt(s, c, from + 1, i);
    }
  }

  /** The parser has consumed the first k items. */
  ghost predicate Consumed(items: seq<Item>, pos: seq<nat>, k: nat, at: nat, filled: nat, split: int, addr: seq<octet>)
    requires Legal(items) && |addr| == ADDRESS_LEN && |pos| == |items| + 1
  {
    && k <= |items|
    && Filled(Read(items[..k]), filled, split, addr)
    && (at == pos[k] || (k == |items| && at == pos[k] + 1))
  }

  /** The address holds a reading's groups, and zeros after them. */
  ghost predicate Filled(r: Reading, filled: nat, split: int, addr: seq<octet>)
    requires |addr| == ADDRESS_LEN
  {
    && filled == 2 * |r.values| && |r.values| <= GROUPS
    && split == (if r.split.Some? then 2 * r.split.value else -1)
    && (r.split.Some? ==> r.split.value <= |r.values|)
    && (forall j :: 0 <= j < |r.values| ==> Words(addr)[j] == r.values[j])
    && (forall j :: filled <= j < ADDRESS_LEN ==> addr[j] == 0)
  }

  lemma ConsumeGap(text: string, items: seq<Item>, pos: seq<nat>, k: nat, at: nat, filled: nat, split: int,
          addr: seq<octet>)
    requires Legal(items) && |addr| == ADDRESS_LEN && Laid(text, items, pos)
    requires Consumed(items, pos, k, at, filled, split, addr) && k < |items| && items[k].Gap?
    ensures split == -1 && Consumed(items, pos, k + 1, at + 2, filled, filled, addr)
  {
    AtItem(text, items, pos, k);
    ReadPrefix(items, k);
    forall i | 0 <= i < k ensures !items[i].Gap? {
      assert LegalPair(items[i], items[k], k == i + 1);
    }
    assert items[..k + 1][..k] == items[..k];
  }

  lemma ConsumeColon(text: string, items: seq<Item>, pos: seq<nat>, k: nat, at: nat, filled: nat, split: int,
          addr: seq<octet>)
    requires Legal(items) && |addr| == ADDRESS_LEN && Laid(text, items, pos)
    requires Consumed(items, pos, k, at, filled, split, addr) && k < |items| && items[k].Colon?
    ensures Consumed(items, pos, k + 1, at + 1, filled, split, addr)
  {
    AtItem(text, items, pos, k);
    assert items[..k + 1][..k] == items[..k];
  }

  lemma ConsumeGroup(text: string, items: seq<Item>, pos: seq<nat>, k: nat, at: nat, filled: nat, split: int,
          addr: seq<octet>, next: seq<octet>)
    requires Legal(items) && |addr| == ADDRESS_LEN && Laid(text, items, pos)
    requires Consumed(items, pos, k, at, filled, split, addr) && k < |items| && items[k].Group?
    requires filled + 1 < ADDRESS_LEN && |next| == ADDRESS_LEN
    requires at == pos[k] && GroupRead(items[k].digits, filled, addr, next)
    ensures Consumed(items, pos, k + 1, pos[k + 1], filled + 2, split, next)
  {
    assert items[..k + 1][..k] == items[..k];
    FillGroup(Read(items[..k]), HexValue(items[k].digits), filled, split, addr, next);
  }

  lemma FillGroup(r: Reading, v: nat, filled: nat, split: int, addr: seq<octet>, next: seq<octet>)
    requires |addr| == |next| == ADDRESS_LEN && filled + 1 < ADDRESS_LEN && Filled(r, filled, split, addr)
    requires forall i :: 0 <= i < ADDRESS_LEN && i != filled && i != filled + 1 ==> next[i] == addr[i]
    requires next[filled] as int * 0x100 + next[filled + 1] == v
    ensures Filled(r.(values := r.values + [v]), filled + 2, split, next)
  {
    assert Words(next)[|r.values|] == v;
    assert forall j :: 0 <= j < |r.values| ==> Words(next)[j] == Words(addr)[j];
  }

  lemma ConsumedAll(text: string, items: seq<Item>, pos: seq<nat>, k: nat, at: nat, filled: nat, split: int,
          addr: seq<octet>)
    requires Legal(items) && |addr| == ADDRESS_LEN && Laid(text, items, pos)
      && Consumed(items, pos, k, at, filled, split, addr)
    requires filled >= ADDRESS_LEN - 1 || at >= |text|
    ensures Filled(Read(items), filled, split, addr) && (split != -1 ==> filled < ADDRESS_LEN)
  {
    if k == |items| {
      assert items[..k] == items;
      ReadPrefix(items, k);
    } else if at >= |text| {
      AtItem(text, items, pos, k);
      assert false;
    } else {
      ReadFull(items, k);
    }
  }

  /** Nothing after the eighth group changes what has been read. */
  lemma ReadFull(items: seq<Item>, k: nat)
    requires Legal(items) && k <= |items| && |Read(items[..k]).values| == GROUPS
    ensures Read(items[..k]) == Read(items) && Read(items).split.None?
  {
    var r, part := Read(items), Read(items[..k]);
    ReadPrefix(items, k);
    assert part.values == r.values;
    ReadPrefix(items, |items|);
    assert items[..|items|] == items;
  }

  lemma ShiftedValue(r: Reading, filled: nat, split: int, was: seq<octet>, now: seq<octet>)
    requires |was| == |now| == ADDRESS_LEN && Filled(r, filled, split, was)
    requires if split == -1 then now == was else filled < ADDRESS_LEN && Shifted(was, now, split, filled)
    ensures Words(now) == Value(r)
  {
    var n := |r.values|;
    var s := if split == -1 then n else r.split.value;
    forall j | 0 <= j < GROUPS ensures Words(now)[j] == Value(r)[j] {
      if s + GROUPS - n <= j && split != -1 {
        assert now[2 * j] == was[2 * (j - (GROUPS - n))];
        assert now[2 * j + 1] == was[2 * (j - (GROUPS - n)) + 1];
        assert Words(now)[j] == Words(was)[j - (GROUPS - n)];
      }
    }
  }

  /** oc_parse_ipv6_address. A segment of more than four characters leaves every variable of the
      loop as it is: the program then never returns, which is reported here. */
  method ParseAddress(text: string, addr: array<octet>, ghost items: seq<Item>) returns (hangs: bool)
    requires addr.Length == ADDRESS_LEN
    modifies addr
    ensures hangs <==> HasLongSegment(text)
    ensures Legal(items) && text == Text(items) ==> !hangs && Words(addr[..]) == Meaning(items)
  {
    var filled, split;
    ghost var pos := TextIsLaid(items);
    hangs, filled, split := ParseGroups(text, addr, items, pos);
    ghost var was := addr[..];
    if !hangs && split != -1 {
      ShiftTail(addr, split, filled);
    }
    if Legal(items) && text == Text(items) {
      ShiftedValue(Read(items), filled, split, was, addr[..]);
    }
  }

  /** The eight groups that a text stands for. */
  ghost function Meaning(items: seq<Item>): seq<nat>
    requires Legal(items)
  {
    assert items[..|items|] == items;
    ReadPrefix(items, |items|);
    Value(Read(items))
  }

  /** The loop over the segments. */
  method ParseGroups(text: string, addr: array<octet>, ghost items: seq<Item>, ghost pos: seq<nat>)
    returns (hangs: bool, filled: nat, split: int)
    requires addr.Length == ADDRESS_LEN
    modifies addr
    ensures hangs <==> HasLongSegment(text)
    ensures filled <= ADDRESS_LEN && -1 <= split <= filled
    ensures forall i :: filled <= i < ADDRESS_LEN ==> addr[i] == 0
    ensures Legal(items) && Laid(text, items, pos) ==>
      !hangs && Filled(Read(items), filled, split, addr[..]) && (split != -1 ==> filled < ADDRESS_LEN)
  {
    forall i | 0 <= i < ADDRESS_LEN {
      addr[i] := 0;
    }
    var at := 0;
    hangs, filled, split := false, 0, -1;
    ghost var legal, k, n := Legal(items) && Laid(text, items, pos), 0, 0;
    while filled < ADDRESS_LEN - 1 && at < |text|
      invariant filled <= ADDRESS_LEN && at <= |text| + 1 && -1 <= split <= filled
      invariant forall i :: filled <= i < ADDRESS_LEN ==> addr[i] == 0
      invariant filled == 2 * n && SegmentsRead(text, at, n)
      invariant legal ==> Consumed(items, pos, k, at, filled, split, addr[..])
      decreases |text| + 1 - at
    {
      if legal {
        AtItem(text, items, pos, k);
      }
      if split == -1 && at + 1 < |text| && text[at] == ':' && text[at + 1] == ':' {
        if legal {
          ConsumeGap(text, items, pos, k, at, filled, split, addr[..]);
          k := k + 1;
        }
        GapIsEmpty(text, at);
        split := filled;
        at := at + 2;
      }
      ghost var from, was := at, filled;
      at, filled, hangs, k := ParseSegment(text, at, filled, split, addr, items, pos, k);
      if hangs {
        LongSegment(text, from, n);
        return;
      }
      if filled > was {
        ReadSegment(text, from, n, at, Lengths(text, from)[0]);
        n := n + 1;
      }
    }
    AllRead(text, at, n);
    if legal {
      ConsumedAll(text, items, pos, k, at, filled, split, addr[..]);
    }
  }

  /** What follows a "::", if anything: a separator is skipped and a group is read. */
  method ParseSegment(text: string, from: nat, was: nat, split: int, addr: array<octet>, ghost items: seq<Item>,
          ghost pos: seq<nat>, ghost done: nat)
    returns (at: nat, filled: nat, hangs: bool, ghost k: nat)
    requires addr.Length == ADDRESS_LEN && was < ADDRESS_LEN - 1 && from <= |text|
    requires forall i :: was <= i < ADDRESS_LEN ==> addr[i] == 0
    requires Legal(items) && Laid(text, items, pos) ==>
      && Consumed(items, pos, done, from, was, split, addr[..])
      && (done < |items| && items[done].Gap? ==> split != -1)
    modifies addr
    ensures !hangs ==> from < at <= |text| + 1
    ensures hangs ==> Lengths(text, from) != [] && Lengths(text, from)[0] > 4
    ensures !hangs ==> filled == was + (if Lengths(text, from) == Lengths(text, at) then 0 else 2)
    ensures was <= filled <= ADDRESS_LEN
    ensures filled > was ==> Lengths(text, from) != [] && Lengths(text, from)[0] <= 4
    ensures filled > was ==> Lengths(text, from) == [Lengths(text, from)[0]] + Lengths(text, at)
    ensures forall i :: filled <= i < ADDRESS_LEN ==> addr[i] == 0
    ensures Legal(items) && Laid(text, items, pos) ==> !hangs && Consumed(items, pos, k, at, filled, split, addr[..])
  {
    at, filled, hangs, k := from, was, false, done;
    ghost var legal := Legal(items) && Laid(text, items, pos);
    if legal && k < |items| {
      AtItem(text, items, pos, k);
      if items[k].Gap? {
        ConsumeGap(text, items, pos, k, at, filled, split, addr[..]);
        assert false;
      }
    }
    var next := IndexOf(text, ':', at);
    if next - at > 4 {
      hangs := true;
    } else if next == at {
      if legal && k < |items| {
        ConsumeColon(text, items, pos, k, at, filled, split, addr[..]);
        k := k + 1;
      }
      at := at + 1;
    } else {
      ghost var before := addr[..];
      ReadGroup(text[at..next], addr, filled);
      if legal {
        ConsumeGroup(text, items, pos, k, at, filled, split, before, addr[..]);
        k := k + 1;
      }
      filled := filled + 2;
      at := next;
    }
  }
}
