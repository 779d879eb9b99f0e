/** Endpoints as text: scheme, bracketed address and port. Host names, IPv4 addresses and TCP
    schemes are not part of this model. */
module EndpointString {
  import opened Wrappers
  import opened EndpointText
  import opened EndpointPrinter

  type port = p: int | 0 <= p < 0x1_0000

  /** The outcome of reading an endpoint: `Other` is a host name or an IPv4 address. */
  datatype Result = Failed | Other | Hangs | Parsed(port: port, secured: bool, uri: Option<string>)

  function Scheme(secured: bool): string {
    if secured then "coaps://" else "coap://"
  }

  const DEFAULT_PORT := 5683
  const DEFAULT_SECURE_PORT := 5684

  // ---------------------------------------------------------------------------
  // Decimal numbers
  // ---------------------------------------------------------------------------

  function DecimalValue(s: string): nat
    requires forall i :: 0 <= i < |s| ==> IsDigit(s[i])
  {
    if s == "" then 0
    else
      assert IsDigit(s[|s| - 1]);
      10 * DecimalValue(s[..|s| - 1]) + (s[|s| - 1] as int - '0' as int)
  }

  /** Where the digits that begin at i end. */
  function DigitsEnd(s: string, i: nat): (end: nat)
    requires i <= |s|
    ensures i <= end <= |s| && forall j :: i <= j < end ==> IsDigit(s[j])
    ensures end < |s| ==> !IsDigit(s[end])
    decreases |s| - i
  {
    if i == |s| || !IsDigit(s[i]) then i else DigitsEnd(s, i + 1)
  }

  /** The number that the text from i on begins with. */
  function Number(s: string, i: nat): nat
    requires i <= |s|
  {
    DecimalValue(s[i..DigitsEnd(s, i)])
  }

  lemma {:induction false} DecimalReads(n: nat)
    ensures DecimalValue(Decimal(n)) == n
  {
    var last := '0' + (n % 10) as char;
    assert last as int - '0' as int == n % 10;
    if n >= 10 {
      DecimalReads(n / 10);
      assert Decimal(n)[..|Decimal(n)| - 1] == Decimal(n / 10);
    } else {
      assert Decimal(n) == [last] && Decimal(n)[..0] == "";
    }
  }

  lemma {:induction false} DigitsEndAt(s: string, i: nat, end: nat)
    requires i <= end <= |s| && (end == |s| || !IsDigit(s[end]))
    requires forall j :: i <= j < end ==> IsDigit(s[j])
    ensures DigitsEnd(s, i) == end
    decreases end - i
  {
    if i < end {
      DigitsEndAt(s, i + 1, end);
    }
  }

  lemma NumberIs(s: string, i: nat, n: nat, end: nat)
    requires i <= end <= |s| && s[i..end] == Decimal(n) && (end == |s| || !IsDigit(s[end]))
    ensures Number(s, i) == n
  {
    hide Decimal;
    hide DecimalValue;
    hide DigitsEnd;
    DecimalReads(n);
    assert forall j :: i <= j < end ==> s[j] == Decimal(n)[j - i];
    DigitsEndAt(s, i, end);
  }

  // ---------------------------------------------------------------------------
  // The whole text
  // ---------------------------------------------------------------------------

  function PortText(port: Option<port>): string {
    if port.Some? then ":" + Decimal(port.value) else ""
  }

  function AuthorityText(items: seq<Item>, port: Option<port>): string {
    "[" + Text(items) + "]" + PortText(port)
  }

  function FullText(items: seq<Item>, port: Option<port>, secured: bool, path: string): string {
    (if secured then "coaps://" else "coap://") + (AuthorityText(items, port) + path)
  }

  predicate IsPath(path: string) {
    path == "" || path[0] == '/'
  }

  /** Without a port, any ':' behind the address but for the last character is taken for the one
      before a port. */
  predicate ColonFree(path: string) {
    forall i :: 0 <= i < |path| - 1 ==> path[i] != ':'
  }

  function DefaultPort(secured: bool): port {
    if secured then DEFAULT_SECURE_PORT else DEFAULT_PORT
  }

  lemma {:induction false} TextChars(items: seq<Item>)
    requires AllLegal(items)
    ensures forall i :: 0 <= i < |Text(items)| ==> IsHex(Text(items)[i]) || Text(items)[i] == ':'
  {
    if items != [] {
      TextChars(items[..|items| - 1]);
      assert LegalItem(items[|items| - 1]);
    }
  }

  /** The text of an address between brackets, then a port if there is one, then a path. */
  ghost predicate Shape(a: string, t: string, port: Option<port>, path: string) {
    var n, m := |t|, |t| + 2 + |PortText(port)|;
    && |a| == m + |path|
    && a[0] == '[' && a[1..n + 1] == t && a[n + 1] == ']'
    && a[n + 2..m] == PortText(port) && a[m..] == path
  }

  /** The address has no bracket and no slash, and the path begins with a slash. */
  ghost predicate Separable(t: string, path: string) {
    (forall i :: 0 <= i < |t| ==> IsHex(t[i]) || t[i] == ':') && IsPath(path)
  }

  /** There is a port, or nothing behind the address that is taken for one. */
  predicate Clear(port: Option<port>, path: string) {
    port.None? ==> ColonFree(path)
  }

  lemma AuthorityShape(t: string, port: Option<port>, path: string)
    ensures Shape("[" + t + "]" + PortText(port) + path, t, port, path)
  {
    var a := "[" + t + "]" + PortText(port) + path;
    assert a[1..|t| + 1] == t;
    assert a[|t| + 2..|t| + 2 + |PortText(port)|] == PortText(port);
  }

  lemma CloseAt(a: string, t: string, port: Option<port>, path: string)
    requires Shape(a, t, port, path) && Separable(t, path)
    ensures IndexOf(a, ']', 0) == |t| + 1
  {
    assert forall j :: 1 <= j < |t| + 1 ==> a[j] == a[1..|t| + 1][j - 1] == t[j - 1];
    FirstAt(a, ']', 0, |t| + 1);
  }

  lemma SlashAt(a: string, t: string, port: Option<port>, path: string)
    requires Shape(a, t, port, path) && Separable(t, path)
    ensures IndexOf(a, '/', 0) == |t| + 2 + |PortText(port)|
  {
    var n, m := |t|, |t| + 2 + |PortText(port)|;
    PortChars(port);
    assert forall j :: 1 <= j < n + 1 ==> a[j] == a[1..n + 1][j - 1] == t[j - 1];
    assert forall j :: n + 2 <= j < m ==> a[j] == a[n + 2..m][j - n - 2] == PortText(port)[j - n - 2];
    assert path != "" ==> a[m] == a[m..][0];
    FirstAt(a, '/', 0, m);
  }

  lemma PortAt(a: string, t: string, port: Option<port>, path: string)
    requires Shape(a, t, port, path) && Separable(t, path) && port.Some?
    ensures IndexOf(a[..|a| - 1], ':', |t| + 1) == |t| + 2 < |a| - 1
  {
    var n, m := |t|, |t| + 2 + |PortText(port)|;
    PortChars(port);
    assert a[n + 2] == a[n + 2..m][0];
    FirstAt(a[..|a| - 1], ':', n + 1, n + 2);
  }

  lemma NumberAt(a: string, t: string, port: Option<port>, path: string)
    requires Shape(a, t, port, path) && Separable(t, path) && port.Some?
    ensures |t| + 3 <= |a| && Number(a, |t| + 3) == port.value
  {
    var n, m := |t|, |t| + 2 + |PortText(port)|;
    PortChars(port);
    assert a[n + 3..m] == a[n + 2..m][1..];
    assert path != "" ==> a[m] == a[m..][0];
    NumberIs(a, n + 3, port.value, m);
  }

  /** Without a port, the search for its ':' finds none exactly when the path has none. */
  lemma NoPort(a: string, t: string, path: string)
    requires Shape(a, t, None, path) && Separable(t, path)
    ensures var p := IndexOf(a[..|a| - 1], ':', |t| + 1);
      if ColonFree(path) then p == |a| - 1 else |t| + 2 < p < |a| - 1
  {
    var m, s := |t| + 2, a[..|a| - 1];
    assert forall j :: m <= j < |a| ==> a[j] == a[m..][j - m];
    if ColonFree(path) {
      FirstAt(s, ':', |t| + 1, |a| - 1);
    } else {
      var i :| 0 <= i < |path| - 1 && path[i] == ':';
      assert s[m + i] == ':' && s[m] == '/' && s[m - 1] == ']';
      NotBefore(s, ':', |t| + 1);
    }
  }

  lemma PortFound(a: string, t: string, port: Option<port>, path: string)
    requires Shape(a, t, port, path) && Separable(t, path)
    ensures var p := IndexOf(a[..|a| - 1], ':', |t| + 1);
      if port.Some? then p == |t| + 2 < |a| - 1 && Number(a, p + 1) == port.value
      else if ColonFree(path) then p == |a| - 1
      else |t| + 2 < p < |a| - 1
  {
    if port.Some? {
      PortAt(a, t, port, path);
      NumberAt(a, t, port, path);
    } else {
      NoPort(a, t, path);
    }
  }

  lemma PortChars(port: Option<port>)
    ensures forall i :: 0 <= i < |PortText(port)| ==> IsDigit(PortText(port)[i]) || PortText(port)[i] == ':'
    ensures port.Some? ==>
      |PortText(port)| >= 2 && PortText(port)[0] == ':' && PortText(port)[1..] == Decimal(port.value)
  {
    if port.Some? {
      DecimalReads(port.value);
    }
  }

  predicate StartsWith(s: string, prefix: string) {
    |s| > |prefix| && s[..|prefix|] == prefix
  }

  /** oc_parse_endpoint_string. The search for the ':' of a port begins at the ']' and leaves out
      the last character. */
  method ParseEndpoint(s: string, addr: array<octet>, ghost items: seq<Item>, ghost port: Option<port>,
          ghost secured: bool, ghost path: string)
    returns (r: Result)
    requires addr.Length == ADDRESS_LEN
    modifies addr
    ensures s == FullText(items, port, secured, path) && Legal(items) && IsPath(path) && Clear(port, path) ==>
      && r == Expected(port, secured, path)
      && Words(addr[..]) == Meaning(items)
  {
    var secure;
    if StartsWith(s, "coaps://") {
      secure := true;
    } else if StartsWith(s, "coap://") {
      secure := false;
    } else {
      SchemesDiffer(items, port, secured, path);
      return Failed;
    }
    SchemesDiffer(items, port, secured, path);
    r := ParseAuthority(s[|Scheme(secure)|..], secure, addr, items, port, path);
  }

  lemma SchemesDiffer(items: seq<Item>, port: Option<port>, secured: bool, path: string)
    ensures var s := FullText(items, port, secured, path);
      && StartsWith(s, Scheme(secured)) && (!secured ==> !StartsWith(s, "coaps://"))
      && s[|Scheme(secured)|..] == AuthorityText(items, port) + path
  {
    var s := FullText(items, port, secured, path);
    if !secured {
      assert s[..8][4] == s[4] == ':';
      assert "coaps://"[4] == 's';
    }
  }

  method ParseAuthority(a: string, secure: bool, addr: array<octet>, ghost items: seq<Item>, ghost port: Option<port>,
          ghost path: string)
    returns (r: Result)
    requires addr.Length == ADDRESS_LEN && |a| > 0
    modifies addr
    ensures a == AuthorityText(items, port) + path && Legal(items) && IsPath(path) && Clear(port, path) ==>
      && r == Expected(port, secure, path)
      && Words(addr[..]) == Meaning(items)
  {
    if AllLegal(items) {
      TextChars(items);
    }
    AuthorityShape(Text(items), port, path);
    var p;
    r, p := SplitAuthority(a, secure, Text(items), port, path);
    if r.Parsed? {
      var hangs := ParseAddress(a[1..p], addr, items);
      if hangs {
        r := Hangs;
      }
    }
  }

  function PortOf(port: Option<port>, secure: bool): port {
    if port.Some? then port.value else if secure then 5684 else 5683
  }

  function Expected(port: Option<port>, secure: bool, path: string): Result {
    Parsed(PortOf(port, secure), secure, if path == "" then None else Some(path))
  }

  /** Everything but the address itself, which is a[1..end]: found where it is exactly when there is a
      port, or no ':' in the path. */
  method SplitAuthority(a: string, secure: bool, ghost t: string, ghost port: Option<port>, ghost path: string)
    returns (r: Result, end: nat)
    requires |a| > 0
    ensures r.Parsed? ==> 1 <= end < |a| && a[end] == ']'
    ensures Shape(a, t, port, path) && Separable(t, path) ==>
      if Clear(port, path) then r == Expected(port, secure, path) && end == |t| + 1 && a[1..end] == t
      else r.Parsed? ==> end > |t| + 1
  {
    if Shape(a, t, port, path) && Separable(t, path) {
      CloseAt(a, t, port, path);
      SlashAt(a, t, port, path);
    }
    var slash, close := IndexOf(a, '/', 0), IndexOf(a, ']', 0);
    end := 0;
    if a[0] != '[' {
      r := Other;
    } else if close == |a| {
      r := Failed;
    } else {
      var number, p := FindPort(a, secure, close, slash, t, port, path);
      if a[p - 1] != ']' {
        r := Other;
      } else {
        r := Parsed(number, secure, if slash < |a| then Some(a[slash..]) else None);
        end := p - 1;
      }
    }
  }

  /** The port, or the default of the scheme, and where the bracketed address ends. */
  method FindPort(a: string, secure: bool, close: nat, slash: nat, ghost t: string, ghost port: Option<port>,
          ghost path: string)
    returns (number: port, p: nat)
    requires 0 < close < |a| && 0 < slash <= |a|
    ensures 0 < p <= |a|
    ensures Shape(a, t, port, path) && Separable(t, path) && close == |t| + 1 && slash == |t| + 2 + |PortText(port)| ==>
      if Clear(port, path) then p == |t| + 2 && number == PortOf(port, secure)
      else p > |t| + 2
  {
    hide Separable;
    hide Shape;
    hide Number;
    if Shape(a, t, port, path) && Separable(t, path) {
      PortFound(a, t, port, path);
    }
    p := IndexOf(a[..|a| - 1], ':', close);
    if p < |a| - 1 {
      number := Number(a, p + 1) % 0x1_0000;
    } else {
      number := DefaultPort(secure);
      p := slash;
    }
  }

  /** oc_endpoint_to_string */
  method PrintEndpoint(addr: array<octet>, port: port, secured: bool) returns (s: string)
    requires addr.Length == ADDRESS_LEN
    ensures s == FullText(Printed(Words(addr[..])), Some(port), secured, "")
  {
    var ip, len := PrintAddress(addr);
    s := Scheme(secured) + (ip[..len] + "]:" + Decimal(port));
    assert ip[..len] + "]:" + Decimal(port) == AuthorityText(Printed(Words(addr[..])), Some(port)) + "";
  }

  /** Parsing what was printed always gives back the port and the scheme, and it gives back the
      address exactly when its zero groups form one run at most. */
  method PrintThenParse(addr: array<octet>, port: port, secured: bool, back: array<octet>) returns (r: Result)
    requires addr.Length == ADDRESS_LEN && back.Length == ADDRESS_LEN && back != addr
    modifies back
    ensures r == Parsed(port, secured, None)
    ensures back[..] == addr[..] <==> AtMostOneRun(Words(addr[..]))
  {
    var s := PrintEndpoint(addr, port, secured);
    RoundTrip(Words(addr[..]));
    r := ParseEndpoint(s, back, Printed(Words(addr[..])), Some(port), secured, "");
    WordsAreOctets(back[..], addr[..]);
  }

  lemma WordsAreOctets(a: seq<octet>, b: seq<octet>)
    requires |a| == |b| == ADDRESS_LEN
    ensures Words(a) == Words(b) <==> a == b
  {
    if Words(a) == Words(b) {
      forall j | 0 <= j < GROUPS ensures a[2 * j] == b[2 * j] && a[2 * j + 1] == b[2 * j + 1] {
        assert Words(a)[j] == Words(b)[j];
      }
      forall i | 0 <= i < ADDRESS_LEN ensures a[i] == b[i] {
        assert i == 2 * (i / 2) || i == 2 * (i / 2) + 1;
      }
    }
  }
}
