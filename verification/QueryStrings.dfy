/** Query strings: '&' separates segments, and the first '=' of a segment ends its key. A segment is
    found by counting from the start, or by advancing from one to the next. */
module QueryStrings {
  import opened Wrappers
  import opened EndpointText

  datatype Segment = Segment(key: string, value: Option<string>)

  // ---------------------------------------------------------------------------
  // Segments
  // ---------------------------------------------------------------------------

  function SegmentEnd(q: string, at: nat): (end: nat)
    requires at <= |q|
    ensures at <= end <= |q|
  {
    IndexOf(q, '&', at)
  }

  predicate HasValue(q: string, at: nat)
    requires at <= |q|
  {
    IndexOf(q, '=', at) < SegmentEnd(q, at)
  }

  /** The segment that begins at a position. */
  function SegmentAt(q: string, at: nat): Segment
    requires at <= |q|
  {
    var eq, end := IndexOf(q, '=', at), SegmentEnd(q, at);
    if eq < end then Segment(q[at..eq], Some(q[eq + 1..end])) else Segment(q[at..end], None)
  }

  function Segments(q: string, at: nat): seq<Segment>
    requires at <= |q|
    decreases |q| - at
  {
    [SegmentAt(q, at)] + if SegmentEnd(q, at) < |q| then Segments(q, SegmentEnd(q, at) + 1) else []
  }

  /** Where the segment number n, counted from 1, begins. */
  function NthStart(q: string, at: nat, n: nat): (start: Option<nat>)
    requires at <= |q| && n > 0
    ensures start.Some? ==> at <= start.value <= |q|
    decreases n
  {
    if n == 1 then Some(at)
    else if SegmentEnd(q, at) == |q| then None
    else NthStart(q, SegmentEnd(q, at) + 1, n - 1)
  }

  lemma {:induction false} NthSegment(q: string, at: nat, n: nat)
    requires at <= |q| && n > 0
    ensures NthStart(q, at, n).Some? <==> n <= |Segments(q, at)|
    ensures n <= |Segments(q, at)| ==> Segments(q, at)[n - 1] == SegmentAt(q, NthStart(q, at, n).value)
    decreases n
  {
    hide SegmentAt;
    hide SegmentEnd;
    SegmentsFrom(q, at);
    if n > 1 && SegmentEnd(q, at) < |q| {
      var next := SegmentEnd(q, at) + 1;
      NthSegment(q, next, n - 1);
      if n <= |Segments(q, at)| {
        assert Segments(q, at)[n - 1] == Segments(q, at)[1..][n - 2] == Segments(q, next)[n - 2];
      }
    }
  }

  lemma SegmentsFrom(q: string, at: nat)
    requires at <= |q|
    ensures |Segments(q, at)| > 0 && Segments(q, at)[0] == SegmentAt(q, at)
    ensures Segments(q, at)[1..] == if SegmentEnd(q, at) < |q| then Segments(q, SegmentEnd(q, at) + 1) else []
  {
  }

  function FoldChar(c: char): char {
    if 'A' <= c <= 'Z' then (c as int + 32) as char else c
  }

  function Fold(s: string): string {
    seq(|s|, i requires 0 <= i < |s| => FoldChar(s[i]))
  }

  predicate SameKey(a: string, b: string) {
    |a| == |b| && Fold(a) == Fold(b)
  }

  /** Keys are the same exactly when they differ in the case of ASCII letters only. */
  lemma SameKeyIs(a: string, b: string)
    ensures SameKey(a, b) <==> |a| == |b| && forall i :: 0 <= i < |a| ==>
        || a[i] == b[i]
        || ('a' <= a[i] <= 'z' && a[i] as int == b[i] as int + 32)
        || ('a' <= b[i] <= 'z' && b[i] as int == a[i] as int + 32)
  {
    if |a| == |b| {
      forall i | 0 <= i < |a| ensures FoldChar(a[i]) == FoldChar(b[i]) <==>
          || a[i] == b[i]
          || ('a' <= a[i] <= 'z' && a[i] as int == b[i] as int + 32)
          || ('a' <= b[i] <= 'z' && b[i] as int == a[i] as int + 32)
      {
        FoldedAlike(a[i], b[i]);
      }
      if SameKey(a, b) {
        forall i | 0 <= i < |a| ensures FoldChar(a[i]) == FoldChar(b[i]) {
          assert Fold(a)[i] == Fold(b)[i];
        }
      }
    }
  }

  lemma FoldedAlike(c: char, d: char)
    ensures FoldChar(c) == FoldChar(d) <==>
      || c == d
      || ('a' <= c <= 'z' && c as int == d as int + 32)
      || ('a' <= d <= 'z' && d as int == c as int + 32)
  {
    if FoldChar(c) == FoldChar(d) && c != d {
      assert FoldChar(c) as int == (if 'A' <= c <= 'Z' then c as int + 32 else c as int);
      assert FoldChar(d) as int == (if 'A' <= d <= 'Z' then d as int + 32 else d as int);
    }
  }

  // ---------------------------------------------------------------------------
  // Scanning
  // ---------------------------------------------------------------------------

  /** The outcome of a scan: the position that follows, -1 when there is no value or no segment. */
  datatype Scan = Scan(next: int, segment: Segment)

  const NOT_FOUND := Scan(-1, Segment("", None))

  method FindNth(q: string, n: nat) returns (start: Option<nat>)
    requires n > 0
    ensures start == NthStart(q, 0, n)
  {
    var at: nat, i: nat := 0, 0;
    while i < n - 1
      invariant i <= n - 1 && at <= |q| && NthStart(q, 0, n) == NthStart(q, at, n - i)
    {
      var amp := IndexOf(q, '&', at);
      if amp == |q| {
        return None;
      }
      i := i + 1;
      at := amp + 1;
    }
    return Some(at);
  }

  /** oc_ri_get_query_nth_key_value */
  method NthKeyValue(q: string, n: nat) returns (r: Scan)
    requires n > 0
    ensures r == KeyValue(q, n)
  {
    var at := FindNth(q, n);
    if at.None? {
      return NOT_FOUND;
    }
    var eq, amp := IndexOf(q, '=', at.value), IndexOf(q, '&', at.value);
    if eq < |q| && !(amp < |q| && amp < eq) {
      var end := IndexOf(q, '&', eq + 1);
      ValueEnd(q, at.value);
      return Scan(end + 1, Segment(q[at.value..eq], Some(q[eq + 1..end])));
    }
    if amp == |q| {
      return NOT_FOUND;
    }
    return Scan(-1, Segment(q[at.value..amp], None));
  }

  /** What a scan for a value reports of the segment at a position: of the last segment without a
      value it gives a key of no length. */
  function Reported(q: string, at: nat): Segment
    requires at <= |q|
  {
    if !HasValue(q, at) && SegmentEnd(q, at) == |q| then Segment("", None) else SegmentAt(q, at)
  }

  function KeyValue(q: string, n: nat): Scan
    requires n > 0
  {
    var at := NthStart(q, 0, n);
    if at.None? then NOT_FOUND
    else Scan(if HasValue(q, at.value) then SegmentEnd(q, at.value) + 1 else -1, Reported(q, at.value))
  }

  /** The value ends where its segment ends. */
  lemma ValueEnd(q: string, at: nat)
    requires at <= |q| && IndexOf(q, '=', at) < |q|
    ensures HasValue(q, at) ==> IndexOf(q, '&', IndexOf(q, '=', at) + 1) == SegmentEnd(q, at)
  {
    var eq, end := IndexOf(q, '=', at), SegmentEnd(q, at);
    if eq < end {
      NotBefore(q, '&', at);
      FirstAt(q, '&', eq + 1, end);
    }
  }

  /** oc_ri_query_nth_key_exists: without a '=' the position that follows is counted from the
      segment, not from the start. */
  method NthKeyExists(q: string, n: nat) returns (r: Scan)
    requires n > 0
    ensures r == KeyExists(q, n)
  {
    var at := FindNth(q, n);
    if at.None? {
      return NOT_FOUND;
    }
    var eq, amp := IndexOf(q, '=', at.value), IndexOf(q, '&', at.value);
    if eq < |q| && !(amp < |q| && amp < eq) {
      var end := IndexOf(q, '&', eq + 1);
      ValueEnd(q, at.value);
      return Scan(end + 1, SegmentAt(q, at.value));
    }
    return Scan(amp - at.value + 1, SegmentAt(q, at.value));
  }

  function KeyExists(q: string, n: nat): Scan
    requires n > 0
  {
    var at := NthStart(q, 0, n);
    if at.None? then NOT_FOUND
    else Scan(if HasValue(q, at.value) then SegmentEnd(q, at.value) + 1
      else SegmentEnd(q, at.value) - at.value + 1, SegmentAt(q, at.value))
  }

  // ---------------------------------------------------------------------------
  // From a position on
  // ---------------------------------------------------------------------------

  lemma SuffixIndex(q: string, c: char, at: nat)
    requires at <= |q|
    ensures IndexOf(q[at..], c, 0) + at == IndexOf(q, c, at)
  {
    var i := IndexOf(q, c, at);
    NotBefore(q, c, at);
    FirstAt(q[at..], c, 0, i - at);
  }

  lemma SuffixSegment(q: string, at: nat)
    requires at <= |q|
    ensures SegmentEnd(q[at..], 0) + at == SegmentEnd(q, at)
    ensures HasValue(q[at..], 0) == HasValue(q, at)
    ensures SegmentAt(q[at..], 0) == SegmentAt(q, at)
  {
    SuffixIndex(q, '&', at);
    SuffixIndex(q, '=', at);
    var eq, end := IndexOf(q, '=', at), SegmentEnd(q, at);
    assert q[at..][..end - at] == q[at..end];
    if eq < end {
      assert q[at..][..eq - at] == q[at..eq];
      assert q[at..][eq - at + 1..end - at] == q[eq + 1..end];
    }
  }

  /** The position after n steps of advancing by what a scan of the rest returns. */
  function Walk(q: string, n: nat): (at: Option<nat>)
    ensures at.Some? ==> at.value <= |q| + 1
  {
    if n == 0 then Some(0)
    else
      var at := Walk(q, n - 1);
      if at.None? || at.value > |q| then None
      else
        var r := KeyValue(q[at.value..], 1);
        if r.next == -1 then None else Some(at.value + r.next)
  }

  predicate AllHaveValues(q: string) {
    forall s :: s in Segments(q, 0) ==> s.value.Some?
  }

  lemma {:induction false} StartSnoc(q: string, at: nat, n: nat)
    requires at <= |q| && n > 0
    ensures NthStart(q, at, n + 1) ==
      match NthStart(q, at, n)
      case None => None
      case Some(s) => if SegmentEnd(q, s) == |q| then None else Some(SegmentEnd(q, s) + 1)
    decreases n
  {
    if n > 1 && SegmentEnd(q, at) < |q| {
      StartSnoc(q, SegmentEnd(q, at) + 1, n - 1);
    }
  }

  /** A scan of what is left finds the segment there. */
  lemma ScanHere(q: string, at: nat)
    requires at <= |q|
    ensures KeyValue(q[at..], 1) == Scan(if HasValue(q, at) then SegmentEnd(q, at) - at + 1 else -1, Reported(q, at))
    ensures KeyExists(q[at..], 1) == Scan(SegmentEnd(q, at) - at + 1, SegmentAt(q, at))
  {
    SuffixSegment(q, at);
  }

  lemma WalkOn(q: string, n: nat, at: nat)
    requires n > 0 && Walk(q, n - 1) == Some(at) && at <= |q| && HasValue(q, at)
    ensures Walk(q, n) == Some(SegmentEnd(q, at) + 1)
  {
    ScanHere(q, at);
  }

  lemma NthHasValue(q: string, n: nat) returns (at: nat)
    requires AllHaveValues(q) && 0 < n <= |Segments(q, 0)|
    ensures NthStart(q, 0, n) == Some(at) && at <= |q| && HasValue(q, at)
  {
    NthSegment(q, 0, n);
    at := NthStart(q, 0, n).value;
    assert Segments(q, 0)[n - 1] in Segments(q, 0);
  }

  /** Where all segments have a value, counting to the n-th and advancing n - 1 times lead to the same
      place. */
  lemma {:induction false} CountingIsWalking(q: string, n: nat)
    requires AllHaveValues(q) && 0 < n <= |Segments(q, 0)|
    ensures NthStart(q, 0, n).Some? && Walk(q, n - 1) == NthStart(q, 0, n)
  {
    var at := NthHasValue(q, n);
    if n > 1 {
      CountingIsWalking(q, n - 1);
      var before := NthHasValue(q, n - 1);
      StartAfter(q, n, before);
      WalkOn(q, n - 1, before);
    }
  }

  lemma StartAfter(q: string, n: nat, before: nat)
    requires n > 1 && before <= |q| && NthStart(q, 0, n - 1) == Some(before) && NthStart(q, 0, n).Some?
    ensures NthStart(q, 0, n) == Some(SegmentEnd(q, before) + 1)
  {
    StartSnoc(q, 0, n - 1);
  }

  /** And there, a scan of what is left finds the same key, value and next position as a count from
      the start. */
  lemma ScansAgree(q: string, n: nat)
    requires AllHaveValues(q) && 0 < n <= |Segments(q, 0)|
    ensures var at := Walk(q, n - 1);
      && at.Some? && at.value <= |q|
      && KeyValue(q[at.value..], 1).segment == KeyValue(q, n).segment == Segments(q, 0)[n - 1]
      && at.value + KeyValue(q[at.value..], 1).next == KeyValue(q, n).next
  {
    CountingIsWalking(q, n);
    NthSegment(q, 0, n);
    var at := NthHasValue(q, n);
    ScanHere(q, at);
  }

  // ---------------------------------------------------------------------------
  // Looking up a key
  // ---------------------------------------------------------------------------

  /** The value of the first segment with the key, as long as every segment before it has one. */
  function Lookup(segments: seq<Segment>, key: string): Option<string> {
    if segments == [] || segments[0].value.None? then None
    else if SameKey(segments[0].key, key) then segments[0].value
    else Lookup(segments[1..], key)
  }

  lemma {:induction false} LookupIsFirst(segments: seq<Segment>, key: string, i: nat)
    requires i < |segments| && SameKey(segments[i].key, key)
    requires forall j :: 0 <= j < i ==> !SameKey(segments[j].key, key)
    requires forall j :: 0 <= j <= i ==> segments[j].value.Some?
    ensures Lookup(segments, key) == segments[i].value
  {
    if i > 0 {
      LookupIsFirst(segments[1..], key, i - 1);
    }
  }

  lemma {:induction false} LookupFindsNothing(segments: seq<Segment>, key: string)
    requires forall j :: 0 <= j < |segments| ==> !SameKey(segments[j].key, key)
    ensures Lookup(segments, key) == None
  {
    if segments != [] {
      LookupFindsNothing(segments[1..], key);
    }
  }

  lemma EmptySegment(q: string)
    ensures Segments(q, |q|) == [Segment("", None)]
  {
    assert q[|q|..|q|] == "";
  }

  /** The scans of what is left of the query. */
  method FirstKeyValue(q: string, pos: nat) returns (r: Scan)
    requires pos <= |q|
    ensures r == Scan(if HasValue(q, pos) then SegmentEnd(q, pos) - pos + 1 else -1, Reported(q, pos))
  {
    ScanHere(q, pos);
    r := NthKeyValue(q[pos..], 1);
  }

  method FirstKeyExists(q: string, pos: nat) returns (r: Scan)
    requires pos <= |q|
    ensures r == Scan(SegmentEnd(q, pos) - pos + 1, SegmentAt(q, pos))
  {
    ScanHere(q, pos);
    r := NthKeyExists(q[pos..], 1);
  }

  /** oc_ri_get_query_value */
  method QueryValue(q: string, key: string) returns (r: Option<string>)
    ensures r == Lookup(Segments(q, 0), key)
  {
    hide Lookup;
    hide Segments;
    hide SegmentAt;
    LookupAtEnd(q, key);
    var pos: nat := 0;
    while pos < |q|
      invariant pos <= |q| + 1
      invariant Lookup(Segments(q, 0), key) == LookupFrom(q, pos, key)
      decreases |q| + 1 - pos
    {
      LookupStep(q, pos, key);
      var found := FirstKeyValue(q, pos);
      if found.next == -1 {
        return None;
      }
      if SameKey(found.segment.key, key) {
        return found.segment.value;
      }
      pos := pos + found.next;
    }
    return None;
  }

  /** The lookup in what is left; past the end there is nothing. */
  function LookupFrom(q: string, pos: nat, key: string): Option<string> {
    if pos <= |q| then Lookup(Segments(q, pos), key) else None
  }

  lemma LookupAtEnd(q: string, key: string)
    ensures LookupFrom(q, |q|, key) == None
  {
    EmptySegment(q);
  }

  lemma LookupStep(q: string, pos: nat, key: string)
    requires pos <= |q|
    ensures LookupFrom(q, pos, key) ==
      if !HasValue(q, pos) then None
      else if SameKey(SegmentAt(q, pos).key, key) then SegmentAt(q, pos).value
      else LookupFrom(q, SegmentEnd(q, pos) + 1, key)
  {
    var all, rest := Segments(q, pos), if SegmentEnd(q, pos) < |q| then Segments(q, SegmentEnd(q, pos) + 1) else [];
    SegmentsFrom(q, pos);
    assert Lookup(rest, key) == LookupFrom(q, SegmentEnd(q, pos) + 1, key);
    assert HasValue(q, pos) <==> all[0].value.Some?;
  }

  predicate HasKey(segments: seq<Segment>, key: string) {
    exists i :: 0 <= i < |segments| && SameKey(segments[i].key, key)
  }

  /** oc_ri_query_exists: for a key that is not empty, exactly when some segment has it, with a value
      or without. */
  method QueryExists(q: string, key: string) returns (found: bool)
    requires key != ""
    ensures found <==> HasKey(Segments(q, 0), key)
  {
    hide Segments;
    hide SegmentAt;
    hide HasKey;
    NoKeyAtEnd(q, key);
    var pos: nat := 0;
    while pos < |q|
      invariant pos <= |q| + 1
      invariant HasKey(Segments(q, 0), key) == HasKeyFrom(q, pos, key)
      decreases |q| + 1 - pos
    {
      var r := FirstKeyExists(q, pos);
      if r.next == -1 {
        return false;
      }
      HasKeyStep(q, pos, key);
      if SameKey(r.segment.key, key) {
        return true;
      }
      if r.next == 0 {
        return false;
      }
      pos := pos + r.next;
    }
    return false;
  }

  predicate HasKeyFrom(q: string, pos: nat, key: string) {
    pos <= |q| && HasKey(Segments(q, pos), key)
  }

  lemma NoKeyAtEnd(q: string, key: string)
    requires key != ""
    ensures !HasKeyFrom(q, |q|, key)
  {
    EmptySegment(q);
  }

  lemma HasKeyStep(q: string, pos: nat, key: string)
    requires pos <= |q|
    ensures HasKeyFrom(q, pos, key) <==>
      SameKey(SegmentAt(q, pos).key, key) || HasKeyFrom(q, SegmentEnd(q, pos) + 1, key)
  {
    var all := Segments(q, pos);
    var rest := if SegmentEnd(q, pos) < |q| then Segments(q, SegmentEnd(q, pos) + 1) else [];
    SegmentsFrom(q, pos);
    if HasKey(rest, key) {
      var i :| 0 <= i < |rest| && SameKey(rest[i].key, key);
      assert all[i + 1] == rest[i];
    }
    if i :| 0 < i < |all| && SameKey(all[i].key, key) {
      assert rest[i - 1] == all[i];
    }
  }

  // ---------------------------------------------------------------------------
  // Segments as text
  // ---------------------------------------------------------------------------

  predicate LegalSegment(s: Segment) {
    && (forall i :: 0 <= i < |s.key| ==> s.key[i] != '&' && s.key[i] != '=')
    && (s.value.Some? ==> forall i :: 0 <= i < |s.value.value| ==> s.value.value[i] != '&')
  }

  function SegmentText(s: Segment): string {
    s.key + if s.value.Some? then "=" + s.value.value else ""
  }

  function QueryText(segments: seq<Segment>): string
    requires segments != []
  {
    if |segments| == 1 then SegmentText(segments[0])
    else SegmentText(segments[0]) + "&" + QueryText(segments[1..])
  }

  /** A query read from its text. */
  lemma {:induction false} ReadQueryText(segments: seq<Segment>)
    requires segments != [] && forall i :: 0 <= i < |segments| ==> LegalSegment(segments[i])
    ensures Segments(QueryText(segments), 0) == segments
    decreases |segments|
  {
    hide SegmentAt;
    hide SegmentEnd;
    var q, first := QueryText(segments), segments[0];
    var n := |SegmentText(first)|;
    assert LegalSegment(first);
    FirstSegment(q, first);
    if |segments| > 1 {
      ReadQueryText(segments[1..]);
      assert q[n + 1..] == QueryText(segments[1..]);
      SuffixSegments(q, n + 1);
      JoinFirst(q, first, segments[1..]);
      assert segments == [first] + segments[1..];
    }
  }

  lemma JoinFirst(q: string, first: Segment, rest: seq<Segment>)
    requires SegmentAt(q, 0) == first && SegmentEnd(q, 0) < |q| && Segments(q, SegmentEnd(q, 0) + 1) == rest
    ensures Segments(q, 0) == [first] + rest
  {
    hide SegmentAt;
    hide SegmentEnd;
  }

  lemma FirstSegment(q: string, s: Segment)
    requires LegalSegment(s) && SegmentText(s) <= q && (|q| == |SegmentText(s)| || q[|SegmentText(s)|] == '&')
    ensures SegmentEnd(q, 0) == |SegmentText(s)| && SegmentAt(q, 0) == s
  {
    var t := SegmentText(s);
    assert forall i :: 0 <= i < |t| ==> q[i] == t[i];
    FirstAt(q, '&', 0, |t|);
    if s.value.Some? {
      FirstAt(q, '=', 0, |s.key|);
      assert q[..|s.key|] == s.key;
      assert q[|s.key| + 1..|t|] == s.value.value;
    } else {
      assert forall i :: 0 <= i < |t| ==> q[i] != '=';
      assert q[..|t|] == s.key;
    }
  }

  lemma {:induction false} SuffixSegments(q: string, at: nat)
    requires at <= |q|
    ensures Segments(q, at) == Segments(q[at..], 0)
  {
    forall j | at <= j <= |q|
      ensures SegmentAt(q[at..], j - at) == SegmentAt(q, j) && SegmentEnd(q[at..], j - at) + at == SegmentEnd(q, j)
    {
      SuffixSame(q, at, j);
    }
    SameSegments(q, q[at..], at, at);
  }

  lemma SuffixSame(q: string, at: nat, k: nat)
    requires at <= k <= |q|
    ensures SegmentAt(q[at..], k - at) == SegmentAt(q, k) && SegmentEnd(q[at..], k - at) + at == SegmentEnd(q, k)
  {
    var p := q[at..];
    assert p[k - at..] == q[k..];
    SuffixSegment(q, k);
    SuffixSegment(p, k - at);
  }

  lemma {:induction false} SameSegments(q: string, p: string, at: nat, k: nat)
    requires |p| + at == |q| && at <= k <= |q|
    requires forall j :: at <= j <= |q| ==>
      SegmentAt(p, j - at) == SegmentAt(q, j) && SegmentEnd(p, j - at) + at == SegmentEnd(q, j)
    ensures Segments(q, k) == Segments(p, k - at)
    decreases |q| - k
  {
    hide SegmentAt;
    hide SegmentEnd;
    assert SegmentAt(p, k - at) == SegmentAt(q, k) && SegmentEnd(p, k - at) + at == SegmentEnd(q, k);
    if SegmentEnd(q, k) < |q| {
      SameSegments(q, p, at, SegmentEnd(q, k) + 1);
    }
  }
}
