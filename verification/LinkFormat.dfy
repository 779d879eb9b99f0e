/** CoRE link format (section 2 of RFC 6690): a response is printed link by link, and a client finds
    the lines, the URIs and the attributes again by scanning. */
module LinkFormat {
  import opened Wrappers

  /** A resource as it is printed; the values of rt are one text. */
  datatype Link = Link(uri: string, rt: Option<string>, iface: Option<string>, ct: Option<string>)

  datatype Attr = Attr(name: string, value: string)

  predicate Clean(s: string) {
    forall i :: 0 <= i < |s| ==> s[i] != ',' && s[i] != ';' && s[i] != '<' && s[i] != '>'
  }

  predicate CleanLink(l: Link) {
    && Clean(l.uri)
    && (l.rt.Some? ==> Clean(l.rt.value))
    && (l.iface.Some? ==> Clean(l.iface.value))
    && (l.ct.Some? ==> Clean(l.ct.value))
  }

  // ---------------------------------------------------------------------------
  // The text of a link
  // ---------------------------------------------------------------------------

  function AddHead(acc: string, uri: string): string {
    acc + "<" + uri + ">;"
  }

  function AddRt(acc: string, rt: Option<string>): string {
    if rt.Some? then acc + "rt=\"" + rt.value + "\";" else acc
  }

  function AddIface(acc: string, iface: Option<string>): string {
    if iface.Some? then acc + "if=" + iface.value + ";" else acc
  }

  function AddCt(acc: string, ct: Option<string>): string {
    if ct.Some? then acc + "ct=" + ct.value else acc
  }

  /** A link as it is framed behind what is in the buffer: attributes end with ';', except for the
      content type, which comes last. */
  function AddLink(acc: string, l: Link): string {
    AddCt(AddIface(AddRt(AddHead(acc, l.uri), l.rt), l.iface), l.ct)
  }

  function RtAttrs(rt: Option<string>): seq<Attr> {
    if rt.Some? then [Attr("rt", "\"" + rt.value + "\"")] else []
  }

  function IfaceAttrs(iface: Option<string>): seq<Attr> {
    if iface.Some? then [Attr("if", iface.value)] else []
  }

  function CtAttrs(ct: Option<string>): seq<Attr> {
    if ct.Some? then [Attr("ct", ct.value)] else []
  }

  function Attrs(l: Link): seq<Attr> {
    RtAttrs(l.rt) + IfaceAttrs(l.iface) + CtAttrs(l.ct)
  }

  function AttrText(a: Attr): string {
    ";" + a.name + "=" + a.value
  }

  function AttrsText(attrs: seq<Attr>): string {
    if attrs == [] then "" else AttrText(attrs[0]) + AttrsText(attrs[1..])
  }

  function Tail(l: Link): string {
    if l.ct.Some? then "" else ";"
  }

  /** The same text with every ';' in front of an attribute; without a content type one is left over
      at the end. */
  function LinkText(l: Link): string {
    "<" + l.uri + ">" + (AttrsText(Attrs(l)) + Tail(l))
  }

  lemma OneAttr(a: Attr)
    ensures AttrsText([a]) == AttrText(a)
  {
    assert AttrsText([a]) == AttrText(a) + AttrsText([]);
  }

  lemma RtIs(acc: string, rt: Option<string>)
    ensures AddRt(acc + ";", rt) == acc + AttrsText(RtAttrs(rt)) + ";"
  {
    if rt.Some? {
      OneAttr(RtAttrs(rt)[0]);
      assert AttrText(RtAttrs(rt)[0]) + ";" == ";" + "rt=\"" + rt.value + "\";";
    }
  }

  lemma IfaceIs(acc: string, iface: Option<string>)
    ensures AddIface(acc + ";", iface) == acc + AttrsText(IfaceAttrs(iface)) + ";"
  {
    if iface.Some? {
      OneAttr(IfaceAttrs(iface)[0]);
    }
  }

  lemma CtIs(acc: string, ct: Option<string>)
    ensures AddCt(acc + ";", ct) == acc + AttrsText(CtAttrs(ct)) + if ct.Some? then "" else ";"
  {
    if ct.Some? {
      OneAttr(CtAttrs(ct)[0]);
    }
  }

  lemma AddLinkIs(acc: string, l: Link)
    ensures AddLink(acc, l) == acc + LinkText(l)
  {
    var head := "<" + l.uri + ">";
    var a, b, c := AttrsText(RtAttrs(l.rt)), AttrsText(IfaceAttrs(l.iface)), AttrsText(CtAttrs(l.ct));
    assert AddHead(acc, l.uri) == acc + head + ";";
    RtIs(acc + head, l.rt);
    IfaceIs(acc + head + a, l.iface);
    CtIs(acc + head + a + b, l.ct);
    AttrsAppend(RtAttrs(l.rt) + IfaceAttrs(l.iface), CtAttrs(l.ct));
    AttrsAppend(RtAttrs(l.rt), IfaceAttrs(l.iface));
    Regroup(acc, head, a, b, c, Tail(l));
  }

  lemma Regroup(acc: string, head: string, a: string, b: string, c: string, tail: string)
    ensures acc + head + a + b + c + tail == acc + (head + (a + b + c + tail))
  {
  }

  lemma {:induction false} AttrsAppend(a: seq<Attr>, b: seq<Attr>)
    ensures AttrsText(a + b) == AttrsText(a) + AttrsText(b)
  {
    hide AttrText;
    if a == [] {
      assert a + b == b;
    } else {
      AttrsAppend(a[1..], b);
      assert (a + b)[1..] == a[1..] + b;
    }
  }

  function Texts(links: seq<Link>): seq<string> {
    seq(|links|, i requires 0 <= i < |links| => LinkText(links[i]))
  }

  /** Links are separated by a comma and a line feed. */
  function Payload(texts: seq<string>): string {
    if texts == [] then ""
    else if |texts| == 1 then texts[0]
    else Payload(texts[..|texts| - 1]) + ",\n" + texts[|texts| - 1]
  }

  /** The response buffer. */
  class Response {
    var text: string

    constructor ()
      ensures text == Payload([])
    {
      text := "";
    }

    method AddLine(s: string)
      modifies this
      ensures text == old(text) + s
    {
      text := text + s;
    }

    /** oc_add_resource_to_wk */
    method AddResource(l: Link, ghost before: seq<Link>)
      requires text == Payload(Texts(before))
      modifies this
      ensures text == Payload(Texts(before + [l]))
    {
      PayloadSnoc(before, l);
      if |text| > 0 {
        AddLine(",\n");
      }
      AddLinkIs(text, l);
      FrameLink(l);
    }

    method FrameLink(l: Link)
      modifies this
      ensures text == AddLink(old(text), l)
    {
      AddLine("<");
      AddLine(l.uri);
      AddLine(">;");
      if l.rt.Some? {
        AddLine("rt=\"");
        AddLine(l.rt.value);
        AddLine("\";");
      }
      if l.iface.Some? {
        AddLine("if=");
        AddLine(l.iface.value);
        AddLine(";");
      }
      if l.ct.Some? {
        AddLine("ct=");
        AddLine(l.ct.value);
      }
    }
  }

  lemma PayloadSnoc(links: seq<Link>, l: Link)
    ensures |Payload(Texts(links))| > 0 <==> links != []
    ensures Payload(Texts(links + [l])) == if links == [] then LinkText(l)
      else Payload(Texts(links)) + ",\n" + LinkText(l)
  {
    var before, after := Texts(links), Texts(links + [l]);
    assert after == before + [LinkText(l)] && after[..|before|] == before;
    PayloadLength(before);
  }

  lemma {:induction false} PayloadLength(texts: seq<string>)
    requires forall k :: 0 <= k < |texts| ==> |texts[k]| > 0
    ensures |Payload(texts)| > 0 <==> texts != []
  {
    if |texts| > 1 {
      PayloadLength(texts[..|texts| - 1]);
    }
  }

  // ---------------------------------------------------------------------------
  // Lines
  // ---------------------------------------------------------------------------

  function Commas(p: string, i: nat): nat
    requires i <= |p|
  {
    if i == 0 then 0 else Commas(p, i - 1) + if p[i - 1] == ',' then 1 else 0
  }

  lemma {:induction false} CommasGrow(p: string, i: nat, j: nat)
    requires i <= j <= |p|
    ensures Commas(p, i) <= Commas(p, j)
    ensures (forall k :: i <= k < j ==> p[k] != ',') ==> Commas(p, i) == Commas(p, j)
  {
    if i < j {
      CommasGrow(p, i, j - 1);
    }
  }

  lemma {:induction false} CommasPrefix(a: string, p: string, i: nat)
    requires a <= p && i <= |a|
    ensures Commas(a, i) == Commas(p, i)
  {
    if i > 0 {
      CommasPrefix(a, p, i - 1);
    }
  }

  /** Line k takes up p[s..e]. */
  ghost predicate LaidAt(p: string, t: string, s: nat, e: nat, last: bool) {
    && s + |t| == e <= |p| && p[s..e] == t
    && if last then e == |p| else e + 2 < |p| && p[e] == ',' && p[e + 1] == '\n'
  }

  function StartOf(ends: seq<nat>, k: nat): nat
    requires k <= |ends|
  {
    if k == 0 then 0 else ends[k - 1] + 2
  }

  ghost predicate Laid(p: string, texts: seq<string>, ends: seq<nat>) {
    && |ends| == |texts|
    && forall k {:trigger texts[k]} :: 0 <= k < |texts| ==>
      LaidAt(p, texts[k], StartOf(ends, k), ends[k], k + 1 == |texts|)
  }

  lemma {:induction false} PayloadIsLaid(texts: seq<string>) returns (ends: seq<nat>)
    requires forall k :: 0 <= k < |texts| ==> |texts[k]| > 0
    ensures Laid(Payload(texts), texts, ends)
  {
    var n := |texts|;
    if n <= 1 {
      ends := if n == 0 then [] else [|texts[0]|];
    } else {
      var front := texts[..n - 1];
      var before := PayloadIsLaid(front);
      ends := before + [|Payload(texts)|];
      forall k | 0 <= k < n ensures LaidAt(Payload(texts), texts[k], StartOf(ends, k), ends[k], k + 1 == n) {
        if k < n - 1 {
          assert LaidAt(Payload(front), front[k], StartOf(before, k), before[k], k + 1 == n - 1);
          LaidOn(Payload(front), texts[n - 1], texts[k], StartOf(before, k), before[k], k + 1 == n - 1);
        } else {
          assert LaidAt(Payload(front), front[n - 2], StartOf(before, n - 2), before[n - 2], true);
        }
      }
    }
  }

  lemma LaidOn(p: string, more: string, t: string, s: nat, e: nat, last: bool)
    requires LaidAt(p, t, s, e, last) && |more| > 0
    ensures LaidAt(p + ",\n" + more, t, s, e, false)
  {
    var q := p + ",\n" + more;
    assert q[s..e] == p[s..e];
  }

  lemma {:induction false} AttrsNoComma(attrs: seq<Attr>)
    requires forall i :: 0 <= i < |attrs| ==> Clean(attrs[i].name) && Clean(attrs[i].value)
    ensures ',' !in AttrsText(attrs)
  {
    if attrs != [] {
      AttrsNoComma(attrs[1..]);
    }
  }

  lemma CleanAttrs(l: Link)
    requires CleanLink(l)
    ensures forall i :: 0 <= i < |Attrs(l)| ==>
      Clean(Attrs(l)[i].name) && Clean(Attrs(l)[i].value) && |Attrs(l)[i].name| == 2
    ensures forall i, j :: 0 <= i < j < |Attrs(l)| ==> Attrs(l)[i].name != Attrs(l)[j].name
  {
    assert forall a :: a in RtAttrs(l.rt) ==> a.name == "rt" && Clean(a.value);
    assert forall a :: a in IfaceAttrs(l.iface) ==> a.name == "if" && Clean(a.value);
    assert forall a :: a in CtAttrs(l.ct) ==> a.name == "ct" && Clean(a.value);
  }

  lemma LinkNoComma(l: Link)
    requires CleanLink(l)
    ensures ',' !in LinkText(l)
  {
    CleanAttrs(l);
    AttrsNoComma(Attrs(l));
  }

  /** The text of a link: it begins with '<', and it has no comma. */
  ghost predicate LineLike(t: string) {
    |t| > 0 && t[0] == '<' && ',' !in t
  }

  ghost predicate AllLines(texts: seq<string>) {
    forall k :: 0 <= k < |texts| ==> LineLike(texts[k])
  }

  lemma LinksAreLines(links: seq<Link>)
    requires forall k :: 0 <= k < |links| ==> CleanLink(links[k])
    ensures AllLines(Texts(links))
  {
    forall k | 0 <= k < |links| ensures LineLike(Texts(links)[k]) {
      LinkNoComma(links[k]);
    }
  }

  /** There are k commas before line k, and none in it. */
  lemma {:induction false} CommasAt(p: string, texts: seq<string>, ends: seq<nat>, k: nat)
    requires Laid(p, texts, ends) && AllLines(texts) && k < |texts|
    ensures StartOf(ends, k) < ends[k] <= |p| && Commas(p, ends[k]) == k
    ensures k > 0 ==> ends[k - 1] + 2 < |p| && Commas(p, ends[k - 1]) == k - 1 && Commas(p, ends[k - 1] + 1) == k
  {
    var s, e := StartOf(ends, k), ends[k];
    assert LaidAt(p, texts[k], s, e, k + 1 == |texts|) && LineLike(texts[k]);
    if k > 0 {
      CommasAt(p, texts, ends, k - 1);
      assert LaidAt(p, texts[k - 1], StartOf(ends, k - 1), ends[k - 1], false);
      assert Commas(p, s - 1) == Commas(p, s - 2) + 1;
      assert Commas(p, s) == Commas(p, s - 1);
    }
    NoCommas(p, texts[k], s, e);
  }

  lemma NoCommas(p: string, t: string, s: nat, e: nat)
    requires s + |t| == e <= |p| && p[s..e] == t && ',' !in t
    ensures Commas(p, s) == Commas(p, e)
  {
    assert forall i :: s <= i < e ==> p[i] == t[i - s] && t[i - s] in t;
    CommasGrow(p, s, e);
  }

  /** oc_lf_number_of_entries */
  method NumberOfEntries(p: string, ghost texts: seq<string>) returns (n: nat)
    ensures p == Payload(texts) && AllLines(texts) && (|p| >= 5 || texts == []) ==> n == |texts|
  {
    if |p| < 5 {
      return 0;
    }
    n := 0;
    for i := 0 to |p|
      invariant n == Commas(p, i)
    {
      if p[i] == ',' {
        n := n + 1;
      }
    }
    if p == Payload(texts) && AllLines(texts) && texts != [] {
      CountCommas(texts);
    }
    if n > 0 {
      n := n + 1;
    }
    if n == 0 && p[0] == '<' {
      n := 1;
    }
  }

  lemma CountCommas(texts: seq<string>)
    requires AllLines(texts) && texts != []
    ensures var p := Payload(texts); Commas(p, |p|) == |texts| - 1 && |p| > 0 && p[0] == '<'
  {
    var ends := PayloadIsLaid(texts);
    var p, last := Payload(texts), |texts| - 1;
    CommasAt(p, texts, ends, last);
    assert LaidAt(p, texts[last], StartOf(ends, last), ends[last], true);
    assert LaidAt(p, texts[0], 0, ends[0], 1 == |texts|) && LineLike(texts[0]);
    assert p[0] == p[0..ends[0]][0];
  }

  /** The first position but the last with n commas before it, or the length of the text. */
  function FindCount(p: string, n: nat, i: nat): (j: nat)
    requires i <= |p|
    ensures j <= |p|
    decreases |p| - i
  {
    if i + 1 >= |p| then |p| else if Commas(p, i) == n then i else FindCount(p, n, i + 1)
  }

  lemma {:induction false} CountAt(p: string, n: nat, i: nat, j: nat)
    requires i <= j && j + 1 < |p| && Commas(p, j) == n && forall k :: i <= k < j ==> Commas(p, k) < n
    ensures FindCount(p, n, i) == j
    decreases j - i
  {
    if i < j {
      CountAt(p, n, i + 1, j);
    }
  }

  lemma {:induction false} CountNowhere(p: string, n: nat, i: nat)
    requires i <= |p| && forall k :: i <= k < |p| ==> Commas(p, k) < n
    ensures FindCount(p, n, i) == |p|
    decreases |p| - i
  {
    if i + 1 < |p| {
      CountNowhere(p, n, i + 1);
    }
  }

  function Line(p: string, entry: nat): string {
    var found := FindCount(p, entry, 0);
    Cut(p, if found == |p| then 0 else found, FindCount(p, entry + 1, 0))
  }

  /** Without the line feed in front and the comma behind. */
  function Cut(p: string, b: nat, e: nat): string
    requires b <= |p| && e <= |p|
  {
    var begin := if b < |p| && p[b] == '\n' then b + 1 else b;
    var end := if e > 0 && p[e - 1] == ',' then e - 1 else e;
    if begin <= end then p[begin..end] else ""
  }

  /** oc_lf_get_line: one pass that notes where the entry begins and where the next one does. */
  method GetLine(p: string, entry: nat) returns (line: string)
    ensures line == if |p| < 5 then "" else Line(p, entry)
  {
    if |p| < 5 {
      return "";
    }
    var begin, end := FindBounds(p, entry);
    return Cut(p, begin, end);
  }

  method FindBounds(p: string, entry: nat) returns (begin: nat, end: nat)
    requires |p| >= 5
    ensures begin < |p| && begin == if FindCount(p, entry, 0) == |p| then 0 else FindCount(p, entry, 0)
    ensures end == FindCount(p, entry + 1, 0)
  {
    begin, end := 0, 0;
    var nr, beginSet, endSet := 0, false, false;
    for i := 0 to |p| - 1
      invariant nr == Commas(p, i)
      invariant if beginSet then begin == FindCount(p, entry, 0) < |p| - 1
        else begin == 0 && FindCount(p, entry, 0) == FindCount(p, entry, i)
      invariant if endSet then end == FindCount(p, entry + 1, 0) < |p| - 1 && end > 0
        else end == 0 && FindCount(p, entry + 1, 0) == FindCount(p, entry + 1, i)
    {
      if entry == nr && !beginSet {
        begin := i;
        beginSet := true;
      }
      if entry + 1 == nr && !endSet {
        end := i;
        endSet := true;
      }
      if p[i] == ',' {
        nr := nr + 1;
      }
    }
    if end == 0 {
      end := |p|;
    }
  }

  /** Entry k of a payload is line k. */
  lemma LineIs(texts: seq<string>, k: nat)
    requires AllLines(texts) && k < |texts|
    ensures Line(Payload(texts), k) == texts[k]
  {
    var ends := PayloadIsLaid(texts);
    LineOfLaid(Payload(texts), texts, ends, k);
  }

  lemma LineOfLaid(p: string, texts: seq<string>, ends: seq<nat>, k: nat)
    requires Laid(p, texts, ends) && AllLines(texts) && k < |texts|
    ensures Line(p, k) == texts[k]
  {
    BeginFound(p, texts, ends, k);
    EndFound(p, texts, ends, k);
    assert LaidAt(p, texts[k], StartOf(ends, k), ends[k], k + 1 == |texts|);
  }

  /** An entry begins behind the comma before it, and the line feed there is skipped. */
  lemma BeginFound(p: string, texts: seq<string>, ends: seq<nat>, k: nat)
    requires Laid(p, texts, ends) && AllLines(texts) && k < |texts|
    ensures var found := FindCount(p, k, 0);
      var b := if found == |p| then 0 else found;
      b < |p| && StartOf(ends, k) == if p[b] == '\n' then b + 1 else b
  {
    CommasAt(p, texts, ends, k);
    assert LaidAt(p, texts[k], StartOf(ends, k), ends[k], k + 1 == |texts|) && LineLike(texts[k]);
    assert p[StartOf(ends, k)] == p[StartOf(ends, k)..ends[k]][0] == '<';
    if k > 0 {
      assert LaidAt(p, texts[k - 1], StartOf(ends, k - 1), ends[k - 1], false);
      CommasBelow(p, ends[k - 1], k);
      CountAt(p, k, 0, ends[k - 1] + 1);
    } else if |p| > 1 {
      CountAt(p, 0, 0, 0);
    }
  }

  /** It ends before the next comma, or at the end. */
  lemma EndFound(p: string, texts: seq<string>, ends: seq<nat>, k: nat)
    requires Laid(p, texts, ends) && AllLines(texts) && k < |texts|
    ensures var e := FindCount(p, k + 1, 0);
      ends[k] == if e > 0 && p[e - 1] == ',' then e - 1 else e
  {
    CommasAt(p, texts, ends, k);
    assert LaidAt(p, texts[k], StartOf(ends, k), ends[k], k + 1 == |texts|) && LineLike(texts[k]);
    CommasBelow(p, ends[k], k + 1);
    if k + 1 < |texts| {
      CommasAt(p, texts, ends, k + 1);
      CountAt(p, k + 1, 0, ends[k] + 1);
    } else {
      CountNowhere(p, k + 1, 0);
      assert p[|p| - 1] == p[StartOf(ends, k)..ends[k]][|texts[k]| - 1] == texts[k][|texts[k]| - 1];
      assert texts[k][|texts[k]| - 1] in texts[k];
    }
  }

  lemma CommasBelow(p: string, e: nat, n: nat)
    requires e <= |p| && Commas(p, e) < n
    ensures forall i :: 0 <= i <= e ==> Commas(p, i) < n
  {
    forall i | 0 <= i <= e ensures Commas(p, i) < n {
      CommasGrow(p, i, e);
    }
  }

  // ---------------------------------------------------------------------------
  // URIs and attributes
  // ---------------------------------------------------------------------------

  /** oc_lf_get_entry_uri, on the entry's line. */
  method GetUri(line: string, ghost l: Link) returns (uri: string)
    ensures line == LinkText(l) && CleanLink(l) ==> uri == l.uri
  {
    var begin, end := 0, 0;
    ghost var legal := line == LinkText(l) && CleanLink(l);
    for i := 0 to |line|
      invariant begin <= i && end == 0
      invariant legal ==> i <= |l.uri| + 1 && begin == if i == 0 then 0 else 1
    {
      if legal {
        HeadOf(l, i);
      }
      if line[i] == '<' {
        begin := i + 1;
      }
      if line[i] == '>' {
        end := i;
        break;
      }
    }
    if legal {
      HeadOf(l, 0);
    }
    return if begin <= end then line[begin..end] else "";
  }

  lemma HeadOf(l: Link, i: nat)
    requires CleanLink(l) && i <= |l.uri| + 1
    ensures var t := LinkText(l);
      && |t| >= |l.uri| + 2 && t[1..|l.uri| + 1] == l.uri
      && (t[i] == '<' <==> i == 0) && (t[i] == '>' <==> i == |l.uri| + 1)
  {
    var t := LinkText(l);
    assert t[0] == '<' && t[|l.uri| + 1] == '>';
    assert 0 < i <= |l.uri| ==> t[i] == l.uri[i - 1];
  }

  /** Where an attribute whose name begins with a text is found, or the length of the line. */
  function FindAttr(line: string, name: string, i: nat): (j: nat)
    requires i <= |line|
    ensures i <= j <= |line| && (j < |line| ==> j + |name| + 1 < |line|)
    decreases |line| - i
  {
    if i + |name| + 1 >= |line| then |line|
    else if line[i] == ';' && line[i + 1..i + 1 + |name|] == name then i
    else FindAttr(line, name, i + 1)
  }

  /** The next ';' that is not the last character, or the length of the line. */
  function FindEnd(line: string, i: nat): (j: nat)
    requires i <= |line|
    ensures i <= j <= |line|
    decreases |line| - i
  {
    if i + 1 >= |line| then |line| else if line[i] == ';' then i else FindEnd(line, i + 1)
  }

  /** oc_lf_get_entry_param, on the entry's line; the character behind the name is not looked at. */
  function Param(line: string, name: string): Option<string> {
    var at := FindAttr(line, name, 0);
    if at == |line| || name == "" then None
    else
      Some(ValueAt(line, at, |name|))
  }

  /** The value of the attribute found at a position: what stands behind the name and the next
      character, up to the next ';'. */
  function ValueAt(line: string, at: nat, n: nat): string
    requires at + n + 1 < |line| && n > 0
  {
    var begin, end := at + n + 2, FindEnd(line, at + 2);
    if begin <= end then line[begin..end] else ""
  }

  method GetParam(line: string, name: string) returns (r: Option<string>)
    requires |name| > 0
    ensures r == Param(line, name)
  {
    var i := 0;
    while i + |name| + 1 < |line|
      invariant i <= |line| && FindAttr(line, name, 0) == FindAttr(line, name, i)
    {
      if line[i] == ';' && line[i + 1..i + 1 + |name|] == name {
        var end := i + 2;
        while end + 1 < |line| && line[end] != ';'
          invariant i + 2 <= end <= |line| && FindEnd(line, i + 2) == FindEnd(line, end)
        {
          end := end + 1;
        }
        if end + 1 >= |line| {
          end := |line|;
        }
        var begin := i + |name| + 2;
        return Some(if begin <= end then line[begin..end] else "");
      }
      i := i + 1;
    }
    return None;
  }

  lemma {:induction false} SkipAttr(line: string, name: string, i: nat, j: nat)
    requires i <= j <= |line| && forall k :: i <= k < j ==> line[k] != ';'
    ensures FindAttr(line, name, i) == FindAttr(line, name, j)
    decreases j - i
  {
    if i < j {
      SkipAttr(line, name, i + 1, j);
    }
  }

  lemma {:induction false} SkipEnd(line: string, i: nat, j: nat)
    requires i <= j <= |line| && forall k :: i <= k < j ==> line[k] != ';'
    ensures FindEnd(line, i) == FindEnd(line, j)
    decreases j - i
  {
    if i < j {
      SkipEnd(line, i + 1, j);
    }
  }

  predicate CleanAttr(a: Attr) {
    |a.name| == 2 && Clean(a.name) && Clean(a.value)
  }

  /** An attribute that begins at i: the only ';' in it is its first character. */
  lemma AttrAt(line: string, i: nat, a: Attr, rest: string)
    requires i <= |line| && line[i..] == AttrText(a) + rest && CleanAttr(a)
    ensures var next := i + |AttrText(a)|;
      && i + 4 <= next <= |line| && next == |line| - |rest|
      && line[i] == ';' && line[i + 1..i + 3] == a.name && line[i + 4..next] == a.value
      && line[next..] == rest
      && forall k :: i < k < next ==> line[k] != ';'
  {
    var t, next := AttrText(a) + rest, i + |AttrText(a)|;
    assert forall k :: i <= k < |line| ==> line[k] == line[i..][k - i] == t[k - i];
    assert line[i + 1..i + 3] == a.name;
    assert line[i + 4..next] == a.value;
  }

  lemma SplitAttr(attrs: seq<Attr>, tail: string)
    requires attrs != []
    ensures AttrsText(attrs) + tail == AttrText(attrs[0]) + (AttrsText(attrs[1..]) + tail)
  {
  }

  lemma PassAttr(line: string, name: string, i: nat, next: nat)
    requires i + 4 <= next <= |line| && |name| == 2 && line[i + 1..i + 3] != name
    requires forall k :: i < k < next ==> line[k] != ';'
    ensures FindAttr(line, name, i) == FindAttr(line, name, next)
  {
    assert FindAttr(line, name, i) == FindAttr(line, name, i + 1);
    SkipAttr(line, name, i + 1, next);
  }

  /** The first attribute with the name is found, and its value ends at the next attribute. The last
      attribute's value takes in a ';' that is left over behind it. */
  lemma {:induction false} AttrFound(line: string, i: nat, attrs: seq<Attr>, tail: string, m: nat)
    requires i <= |line| && line[i..] == AttrsText(attrs) + tail && (tail == "" || tail == ";")
    requires m < |attrs| && forall k :: 0 <= k < |attrs| ==> CleanAttr(attrs[k])
    requires forall k :: 0 <= k < m ==> attrs[k].name != attrs[m].name
    ensures var at := FindAttr(line, attrs[m].name, i);
      && at + 4 <= |line|
      && ValueAt(line, at, 2) == if m + 1 == |attrs| then attrs[m].value + tail else attrs[m].value
    decreases |attrs|
  {
    hide AttrText;
    hide FindAttr;
    hide FindEnd;
    hide ValueAt;
    var a, rest, name := attrs[0], AttrsText(attrs[1..]) + tail, attrs[m].name;
    SplitAttr(attrs, tail);
    assert CleanAttr(a);
    AttrAt(line, i, a, rest);
    var next := i + |AttrText(a)|;
    if m == 0 {
      FirstFound(line, i, a, attrs[1..], tail, next);
    } else {
      PassAttr(line, name, i, next);
      AttrFound(line, next, attrs[1..], tail, m - 1);
    }
  }

  /** What follows an attribute is the next one, a single ';', or nothing. */
  lemma RestBegins(attrs: seq<Attr>, tail: string)
    requires tail == "" || tail == ";"
    ensures var rest := AttrsText(attrs) + tail;
      if attrs != [] then |rest| > 1 && rest[0] == ';' else rest == tail
  {
  }

  lemma FirstFound(line: string, i: nat, a: Attr, more: seq<Attr>, tail: string, next: nat)
    requires i + 4 <= next <= |line| && line[next..] == AttrsText(more) + tail && (tail == "" || tail == ";")
    requires line[i] == ';' && line[i + 1..i + 3] == a.name && |a.name| == 2 && line[i + 4..next] == a.value
    requires forall k :: i < k < next ==> line[k] != ';'
    ensures FindAttr(line, a.name, i) == i
    ensures ValueAt(line, i, 2) == if more == [] then a.value + tail else a.value
  {
    RestBegins(more, tail);
    ValueFound(line, i, a, AttrsText(more) + tail, next);
  }

  lemma ValueFound(line: string, i: nat, a: Attr, rest: string, next: nat)
    requires i + 4 <= next <= |line| && next == |line| - |rest| && line[next..] == rest
    requires line[i] == ';' && line[i + 1..i + 3] == a.name && |a.name| == 2 && line[i + 4..next] == a.value
    requires forall k :: i < k < next ==> line[k] != ';'
    ensures FindAttr(line, a.name, i) == i
    ensures |rest| > 1 && rest[0] == ';' ==> ValueAt(line, i, 2) == a.value
    ensures |rest| <= 1 ==> ValueAt(line, i, 2) == a.value + rest
  {
    SkipEnd(line, i + 2, next);
    if |rest| > 1 {
      assert line[next] == line[next..][0];
    } else {
      assert line[i + 4..] == a.value + rest;
    }
  }

  lemma {:induction false} AttrMissing(line: string, i: nat, attrs: seq<Attr>, tail: string, name: string)
    requires i <= |line| && line[i..] == AttrsText(attrs) + tail && (tail == "" || tail == ";") && |name| == 2
    requires forall k :: 0 <= k < |attrs| ==> CleanAttr(attrs[k]) && attrs[k].name != name
    ensures FindAttr(line, name, i) == |line|
    decreases |attrs|
  {
    if attrs != [] {
      var a, rest := attrs[0], AttrsText(attrs[1..]) + tail;
      SplitAttr(attrs, tail);
      assert CleanAttr(a);
      AttrAt(line, i, a, rest);
      var next := i + |AttrText(a)|;
      PassAttr(line, name, i, next);
      AttrMissing(line, next, attrs[1..], tail, name);
    }
  }

  lemma HeadSkipped(l: Link, name: string)
    requires CleanLink(l)
    ensures var t, n := LinkText(l), |l.uri| + 2;
      n <= |t| && t[n..] == AttrsText(Attrs(l)) + Tail(l) && FindAttr(t, name, 0) == FindAttr(t, name, n)
  {
    var t, n := LinkText(l), |l.uri| + 2;
    var head := "<" + l.uri + ">";
    assert t == head + (AttrsText(Attrs(l)) + Tail(l)) && |head| == n;
    assert forall k :: 0 <= k < n ==> t[k] == head[k] != ';';
    SkipAttr(t, name, 0, n);
  }

  /** Every attribute of a link is read back; but without a content type the ';' that is left over is
      read as part of the last value. */
  lemma ParamIs(l: Link, m: nat)
    requires CleanLink(l) && m < |Attrs(l)|
    ensures Param(LinkText(l), Attrs(l)[m].name) ==
      Some(if m + 1 == |Attrs(l)| then Attrs(l)[m].value + Tail(l) else Attrs(l)[m].value)
  {
    CleanAttrs(l);
    ParamFound(l, LinkText(l), Attrs(l), Tail(l), m);
  }

  lemma ParamFound(l: Link, t: string, attrs: seq<Attr>, tail: string, m: nat)
    requires CleanLink(l) && t == LinkText(l) && attrs == Attrs(l) && tail == Tail(l) && m < |attrs|
    requires forall k :: 0 <= k < |attrs| ==> CleanAttr(attrs[k])
    requires forall j, k :: 0 <= j < k < |attrs| ==> attrs[j].name != attrs[k].name
    ensures Param(t, attrs[m].name) == Some(if m + 1 == |attrs| then attrs[m].value + tail else attrs[m].value)
  {
    HeadSkipped(l, attrs[m].name);
    assert CleanAttr(attrs[m]);
    AttrFound(t, |l.uri| + 2, attrs, tail, m);
  }

  lemma NoParam(l: Link, name: string)
    requires CleanLink(l) && |name| == 2 && forall k :: 0 <= k < |Attrs(l)| ==> Attrs(l)[k].name != name
    ensures Param(LinkText(l), name) == None
  {
    CleanAttrs(l);
    HeadSkipped(l, name);
    AttrMissing(LinkText(l), |l.uri| + 2, Attrs(l), Tail(l), name);
  }

  /** What is read of an entry. */
  datatype Entry = Entry(uri: string, rt: Option<string>, iface: Option<string>, ct: Option<string>)

  function WithRest(value: string, rest: bool): string {
    if rest then value + ";" else value
  }

  /** What is read of a link's text: without a content type the ';' that is left over goes to the
      last value. */
  function EntryOf(l: Link): Entry {
    Entry(l.uri,
      if l.rt.None? then None
      else Some(WithRest("\"" + l.rt.value + "\"", l.iface.None? && l.ct.None?)),
      if l.iface.None? then None else Some(WithRest(l.iface.value, l.ct.None?)),
      l.ct)
  }

  lemma RtReadsBack(l: Link)
    requires CleanLink(l)
    ensures Param(LinkText(l), "rt") == EntryOf(l).rt
  {
    if l.rt.Some? {
      assert Attrs(l)[0] == RtAttrs(l.rt)[0];
      ParamIs(l, 0);
    } else {
      AttrNames(l);
      NoParam(l, "rt");
    }
  }

  lemma IfaceReadsBack(l: Link)
    requires CleanLink(l)
    ensures Param(LinkText(l), "if") == EntryOf(l).iface
  {
    var n := |RtAttrs(l.rt)|;
    if l.iface.Some? {
      assert Attrs(l)[n] == IfaceAttrs(l.iface)[0];
      ParamIs(l, n);
    } else {
      AttrNames(l);
      NoParam(l, "if");
    }
  }

  lemma CtReadsBack(l: Link)
    requires CleanLink(l)
    ensures Param(LinkText(l), "ct") == EntryOf(l).ct
  {
    var n := |Attrs(l)|;
    if l.ct.Some? {
      assert Attrs(l)[n - 1] == CtAttrs(l.ct)[0];
      assert l.ct.value + Tail(l) == l.ct.value;
      ParamIs(l, n - 1);
    } else {
      AttrNames(l);
      NoParam(l, "ct");
    }
  }

  /** The attributes of a link with its content type set are read back exactly, and those that it
      does not have are not found. */
  lemma AttributesReadBack(l: Link)
    requires CleanLink(l) && l.ct.Some?
    ensures Param(LinkText(l), "rt") == if l.rt.Some? then Some("\"" + l.rt.value + "\"") else None
    ensures Param(LinkText(l), "if") == l.iface
    ensures Param(LinkText(l), "ct") == l.ct
  {
    RtReadsBack(l);
    IfaceReadsBack(l);
    CtReadsBack(l);
  }

  lemma AttrNames(l: Link)
    ensures l.rt.None? ==> forall k :: 0 <= k < |Attrs(l)| ==> Attrs(l)[k].name != "rt"
    ensures l.iface.None? ==> forall k :: 0 <= k < |Attrs(l)| ==> Attrs(l)[k].name != "if"
    ensures l.ct.None? ==> forall k :: 0 <= k < |Attrs(l)| ==> Attrs(l)[k].name != "ct"
  {
  }

  /** Without one the interfaces are read back with a ';' behind them. */
  lemma InterfacesReadTooLong(l: Link)
    requires CleanLink(l) && l.ct.None? && l.iface.Some?
    ensures Param(LinkText(l), "if") == Some(l.iface.value + ";")
  {
    var n := |Attrs(l)|;
    assert Attrs(l)[n - 1] == Attr("if", l.iface.value);
    ParamIs(l, n - 1);
  }

  /** A list of links read from its text: as many entries, and the URI and the attributes of each. */
  method ReadPayload(p: string, ghost links: seq<Link>) returns (entries: seq<Entry>)
    requires p == Payload(Texts(links)) && (forall k :: 0 <= k < |links| ==> CleanLink(links[k]))
      && (|p| >= 5 || links == [])
    ensures |entries| == |links| && forall k :: 0 <= k < |links| ==> entries[k] == EntryOf(links[k])
  {
    hide LinkText;
    hide Line;
    hide Payload;
    hide EntryOf;
    LinksAreLines(links);
    var n := NumberOfEntries(p, Texts(links));
    entries := [];
    for k := 0 to n
      invariant |entries| == k && forall j :: 0 <= j < k ==> entries[j] == EntryOf(links[j])
    {
      LineIs(Texts(links), k);
      var line := GetLine(p, k);
      var entry := ReadEntry(line, links[k]);
      entries := entries + [entry];
    }
  }

  method ReadEntry(line: string, ghost l: Link) returns (entry: Entry)
    requires line == LinkText(l) && CleanLink(l)
    ensures entry == EntryOf(l)
  {
    hide LinkText;
    hide Param;
    hide CleanLink;
    RtReadsBack(l);
    IfaceReadsBack(l);
    CtReadsBack(l);
    var uri := GetUri(line, l);
    var rt := GetParam(line, "rt");
    var iface := GetParam(line, "if");
    var ct := GetParam(line, "ct");
    entry := Entry(uri, rt, iface, ct);
  }
}
