/** The IPv6 printer: zero groups are left out, and one ':' is doubled to mark the longest run of
    them (section 2.2 of RFC 4291). */
module EndpointPrinter {
  import opened Wrappers
  import opened EndpointText

  // ---------------------------------------------------------------------------
  // What is printed
  // ---------------------------------------------------------------------------

  function HexChar(d: nat): char
    requires d < 16
  {
    if d < 10 then (48 + d) as char else (87 + d) as char
  }

  lemma HexCharReads(d: nat)
    requires d < 16
    ensures IsHex(HexChar(d)) && DigitValue(HexChar(d)) == d
    ensures (HexChar(d) == '0' <==> d == 0) && !('A' <= HexChar(d) <= 'F')
  {
  }

  function Hex(v: nat): string {
    (if v >= 16 then Hex(v / 16) else "") + [HexChar(v % 16)]
  }

  type groups = ws: seq<nat> | |ws| == GROUPS && forall k :: 0 <= k < GROUPS ==> ws[k] < 0x1_0000
    ghost witness Zeros(GROUPS)

  /** The zero groups from start on, len of them. */
  datatype Run = Run(start: nat, len: nat)

  /** What stands before group k: a gap just behind the run, a colon elsewhere. */
  function Separator(run: Run, k: nat): Item {
    if run.len > 0 && k == run.start + run.len then Gap else Colon
  }

  /** The first k groups, without those that are zero. */
  function Front(ws: groups, run: Run, k: nat): seq<Item>
    requires k <= GROUPS
  {
    if k == 0 then []
    else if ws[k - 1] == 0 then Front(ws, run, k - 1)
    else Front(ws, run, k - 1) + (if k > 1 then [Separator(run, k - 1)] else []) + [Group(Hex(ws[k - 1]))]
  }

  function All(ws: groups, run: Run): seq<Item> {
    Front(ws, run, GROUPS) + if ws[GROUPS - 1] == 0 then [Separator(run, GROUPS)] else []
  }

  function RunLength(ws: groups, k: nat): (n: nat)
    requires k <= GROUPS
    ensures n <= k
  {
    if k == 0 || ws[k - 1] != 0 then 0 else RunLength(ws, k - 1) + 1
  }

  function Longest(ws: groups, k: nat): (run: Run)
    requires k <= GROUPS
    ensures run.start + run.len <= k
  {
    if k == 0 then Run(0, 0)
    else
      var n := RunLength(ws, k);
      if n > Longest(ws, k - 1).len then Run(k - n, n) else Longest(ws, k - 1)
  }

  /** The printed form of an address. */
  function Printed(ws: groups): seq<Item> {
    All(ws, Longest(ws, GROUPS))
  }

  predicate ZeroRun(ws: groups, run: Run) {
    run.start + run.len <= GROUPS && forall k :: run.start <= k < run.start + run.len ==> ws[k] == 0
  }

  /** The run chosen is the first of the longest. */
  lemma {:induction false} LongestIsFirstLongest(ws: groups, k: nat)
    requires k <= GROUPS
    ensures var best := Longest(ws, k);
      && ZeroRun(ws, best) && best.start + best.len <= k
      && forall r: Run :: ZeroRun(ws, r) && r.start + r.len <= k ==>
        r.len <= best.len && (r.len == best.len > 0 ==> best.start <= r.start)
  {
    if k > 0 {
      LongestIsFirstLongest(ws, k - 1);
      RunLengthIsRun(ws, k);
      forall r: Run | ZeroRun(ws, r) && r.start + r.len == k ensures r.len <= RunLength(ws, k) {
        RunLengthIsMost(ws, k, r);
      }
    }
  }

  lemma {:induction false} RunLengthIsRun(ws: groups, k: nat)
    requires k <= GROUPS
    ensures ZeroRun(ws, Run(k - RunLength(ws, k), RunLength(ws, k)))
  {
    if k > 0 && ws[k - 1] == 0 {
      RunLengthIsRun(ws, k - 1);
    }
  }

  lemma {:induction false} RunLengthIsMost(ws: groups, k: nat, r: Run)
    requires k <= GROUPS && ZeroRun(ws, r) && r.start + r.len == k
    ensures r.len <= RunLength(ws, k)
  {
    if r.len > 0 {
      RunLengthIsMost(ws, k - 1, Run(r.start, r.len - 1));
    }
  }

  lemma {:induction false} HexReads(v: nat)
    ensures AllHex(Hex(v)) && HexValue(Hex(v)) == v
  {
    HexCharReads(v % 16);
    if v >= 16 {
      HexReads(v / 16);
      HexSnoc(Hex(v / 16), HexChar(v % 16));
    } else {
      HexSnoc("", HexChar(v % 16));
    }
  }

  /** Hexadecimal is printed without leading zeros and in lower case. */
  lemma {:induction false} HexIsMinimal(v: nat, digits: nat)
    requires v < Pow16(digits) && digits > 0
    ensures 1 <= |Hex(v)| <= digits && (v > 0 ==> Hex(v)[0] != '0')
    ensures forall i :: 0 <= i < |Hex(v)| ==> !('A' <= Hex(v)[i] <= 'F')
  {
    HexCharReads(v % 16);
    if v >= 16 {
      HexIsMinimal(v / 16, digits - 1);
    }
  }

  lemma HexSnoc(s: string, c: char)
    requires AllHex(s) && IsHex(c)
    ensures AllHex(s + [c]) && HexValue(s + [c]) == 16 * HexValue(s) + DigitValue(c)
  {
    assert (s + [c])[..|s|] == s;
  }

  function Pow16(n: nat): nat {
    if n == 0 then 1 else 16 * Pow16(n - 1)
  }

  lemma HexGroup(v: nat)
    requires 0 < v < 0x1_0000
    ensures AllHex(Hex(v)) && HexValue(Hex(v)) == v && LegalItem(Group(Hex(v)))
  {
    assert Pow16(4) == 0x1_0000 by {
      assert Pow16(2) == 0x100;
    }
    HexReads(v);
    HexIsMinimal(v, 4);
  }

  lemma TextSnoc(items: seq<Item>, x: Item)
    ensures Text(items + [x]) == Text(items) + ItemText(x)
  {
    assert (items + [x])[..|items|] == items;
  }

  lemma ReadSnoc(items: seq<Item>, x: Item)
    requires AllLegal(items) && LegalItem(x)
    ensures AllLegal(items + [x])
    ensures var r := Read(items);
      Read(items + [x]) ==
        match x
        case Group(digits) => r.(values := r.values + [HexValue(digits)])
        case Colon => r
        case Gap => r.(split := Some(|r.values|))
  {
    assert (items + [x])[..|items|] == items;
  }

  // ---------------------------------------------------------------------------
  // What the printed form means
  // ---------------------------------------------------------------------------

  function NonZero(ws: seq<nat>, k: nat): (nz: seq<nat>)
    requires k <= |ws|
    ensures |nz| <= k
  {
    if k == 0 then [] else NonZero(ws, k - 1) + if ws[k - 1] != 0 then [ws[k - 1]] else []
  }

  lemma {:induction false} NonZeroFacts(ws: groups, k: nat, m: nat)
    requires k <= m <= GROUPS
    ensures NonZero(ws, k) <= NonZero(ws, m) && |NonZero(ws, m)| <= m
    ensures forall i :: 0 <= i < |NonZero(ws, m)| ==> NonZero(ws, m)[i] > 0
    ensures (exists i :: k <= i < m && ws[i] == 0) ==> |NonZero(ws, m)| - |NonZero(ws, k)| < m - k
    ensures |NonZero(ws, m)| - |NonZero(ws, k)| <= m - k
    decreases k + m
  {
    if k < m {
      NonZeroFacts(ws, k, m - 1);
    } else if m > 0 {
      NonZeroFacts(ws, m - 1, m - 1);
    }
  }

  ghost predicate Pairs(items: seq<Item>) {
    forall i, j :: 0 <= i < j < |items| ==> LegalPair(items[i], items[j], j == i + 1)
  }

  ghost predicate GapFree(items: seq<Item>) {
    forall i :: 0 <= i < |items| ==> !items[i].Gap?
  }

  lemma PairsSnoc(items: seq<Item>, x: Item)
    requires Pairs(items) && (x.Gap? ==> GapFree(items))
    requires items == [] || items[|items| - 1].Group? != x.Group?
    ensures Pairs(items + [x])
    ensures GapFree(items) && !x.Gap? ==> GapFree(items + [x])
  {
  }

  /** Items that end with a group, if there are any. */
  ghost predicate Good(items: seq<Item>) {
    AllLegal(items) && Pairs(items) && (items == [] || items[|items| - 1].Group?)
  }

  lemma GroupSnoc(items: seq<Item>, x: Item, g: Item)
    requires Good(items) && !x.Group? && (x.Gap? ==> GapFree(items)) && g.Group? && LegalItem(g)
    ensures var after, r := items + [x] + [g], Read(items);
      && Good(after)
      && (GapFree(items) && !x.Gap? ==> GapFree(after))
      && Read(after) == Reading(r.values + [HexValue(g.digits)], if x.Gap? then Some(|r.values|) else r.split)
  {
    PairsSnoc(items, x);
    ReadSnoc(items, x);
    PairsSnoc(items + [x], g);
    ReadSnoc(items + [x], g);
  }

  lemma FirstGroup(g: Item)
    requires g.Group? && LegalItem(g)
    ensures Good([g]) && GapFree([g])
    ensures Read([g]) == Reading([HexValue(g.digits)], None)
  {
    ReadSnoc([], g);
    assert [] + [g] == [g];
  }

  lemma FrontStep(ws: groups, run: Run, k: nat)
    requires 1 < k <= GROUPS && ws[k - 1] != 0
    ensures Front(ws, run, k) == Front(ws, run, k - 1) + [Separator(run, k - 1)] + [Group(Hex(ws[k - 1]))]
  {
  }

  /** A run that cannot be extended to the right. */
  predicate Ends(ws: groups, run: Run) {
    run.len > 0 ==> run.start + run.len == GROUPS || (run.start + run.len < GROUPS && ws[run.start + run.len] != 0)
  }

  /** Reading the first k groups back: their values, and a gap once the run has been passed. */
  ghost predicate FrontIs(ws: groups, run: Run, k: nat, f: seq<Item>)
    requires k <= GROUPS && run.start <= GROUPS
  {
    && Good(f)
    && (run.len == 0 || k <= run.start + run.len ==> GapFree(f))
    && Read(f).values == NonZero(ws, k)
    && Read(f).split == if run.len > 0 && k > run.start + run.len then Some(|NonZero(ws, run.start)|) else None
  }

  lemma FrontGrows(ws: groups, run: Run, k: nat, f: seq<Item>)
    requires 1 < k <= GROUPS && ZeroRun(ws, run) && ws[k - 1] != 0 && FrontIs(ws, run, k - 1, f)
    ensures FrontIs(ws, run, k, f + [Separator(run, k - 1)] + [Group(Hex(ws[k - 1]))])
  {
    hide Hex;
    hide HexValue;
    hide Read;
    HexGroup(ws[k - 1]);
    GroupSnoc(f, Separator(run, k - 1), Group(Hex(ws[k - 1])));
    if Separator(run, k - 1).Gap? {
      NonZeroRun(ws, run, k - 1);
    }
  }

  lemma {:induction false} FrontReads(ws: groups, run: Run, k: nat)
    requires k <= GROUPS && ZeroRun(ws, run) && Ends(ws, run)
    ensures FrontIs(ws, run, k, Front(ws, run, k))
  {
    if k > 1 {
      FrontReads(ws, run, k - 1);
      if ws[k - 1] != 0 {
        FrontStep(ws, run, k);
        FrontGrows(ws, run, k, Front(ws, run, k - 1));
      }
    } else if k == 1 {
      FirstReads(ws, run);
    }
  }

  lemma FirstReads(ws: groups, run: Run)
    requires ZeroRun(ws, run) && Ends(ws, run)
    ensures FrontIs(ws, run, 1, Front(ws, run, 1))
  {
    var none := Front(ws, run, 0);
    if ws[0] != 0 {
      HexGroup(ws[0]);
      FirstGroup(Group(Hex(ws[0])));
      assert Front(ws, run, 1) == [] + [] + [Group(Hex(ws[0]))] == [Group(Hex(ws[0]))];
      assert NonZero(ws, 1) == [] + [ws[0]];
    }
  }

  lemma {:induction false} NonZeroRun(ws: groups, run: Run, k: nat)
    requires ZeroRun(ws, run) && run.start <= k <= run.start + run.len
    ensures NonZero(ws, k) == NonZero(ws, run.start)
  {
    if run.start < k {
      NonZeroRun(ws, run, k - 1);
    }
  }

  /** The printed form is legal; it stands for the groups that are not zero, in their order, with
      all the zeros where the run is. */
  lemma AllReads(ws: groups, run: Run)
    requires ZeroRun(ws, run) && Ends(ws, run) && (run.len == 0 ==> NonZero(ws, GROUPS) == ws)
    ensures Legal(All(ws, run))
    ensures Meaning(All(ws, run)) ==
      Filled8(NonZero(ws, GROUPS), if run.len > 0 then |NonZero(ws, run.start)| else GROUPS)
  {
    AllIsGood(ws, run);
    AllSplit(ws, run);
    MeaningIs(All(ws, run));
  }

  lemma AllIsGood(ws: groups, run: Run)
    requires ZeroRun(ws, run) && Ends(ws, run)
    requires run.len == 0 ==> ws[GROUPS - 1] != 0
    ensures var items := All(ws, run);
      && AllLegal(items) && Pairs(items)
      && Read(items) == Reading(NonZero(ws, GROUPS), if run.len > 0 then Some(|NonZero(ws, run.start)|) else None)
  {
    var f, x := Front(ws, run, GROUPS), Separator(run, GROUPS);
    FrontReads(ws, run, GROUPS);
    if ws[GROUPS - 1] == 0 {
      PairsSnoc(f, x);
      ReadSnoc(f, x);
      if x.Gap? {
        NonZeroRun(ws, run, GROUPS);
      }
    } else {
      assert All(ws, run) == f;
    }
  }

  lemma MeaningIs(items: seq<Item>)
    requires AllLegal(items) && Pairs(items)
    requires var r := Read(items); |r.values| <= GROUPS && (r.split.Some? ==> r.split.value <= |r.values| < GROUPS)
    ensures Legal(items)
    ensures Meaning(items) ==
      Filled8(Read(items).values, if Read(items).split.Some? then Read(items).split.value else GROUPS)
  {
  }

  /** The values with zeros after the first s of them. */
  function Filled8(nz: seq<nat>, s: nat): seq<nat>
    requires |nz| <= GROUPS
  {
    var k := if s < |nz| then s else |nz|;
    nz[..k] + Zeros(GROUPS - |nz|) + nz[k..]
  }

  lemma AllSplit(ws: groups, run: Run)
    requires ZeroRun(ws, run) && Ends(ws, run) && (run.len == 0 ==> NonZero(ws, GROUPS) == ws)
    ensures run.len == 0 ==> ws[GROUPS - 1] != 0
    ensures run.len > 0 ==> |NonZero(ws, run.start)| <= |NonZero(ws, GROUPS)| < GROUPS
  {
    NonZeroFacts(ws, run.start, GROUPS);
    NonZeroFacts(ws, 0, run.start);
    if run.len > 0 {
      assert ws[run.start] == 0;
    } else {
      NonZeroFacts(ws, 0, GROUPS);
    }
  }

  predicate OneRun(ws: groups, run: Run) {
    run.start + run.len <= GROUPS && forall k :: 0 <= k < GROUPS ==>
      (ws[k] == 0 <==> run.start <= k < run.start + run.len)
  }

  ghost predicate AtMostOneRun(ws: groups) {
    exists run :: OneRun(ws, run)
  }

  lemma {:induction false} NonZeroOneRun(ws: groups, run: Run, k: nat)
    requires OneRun(ws, run) && k <= GROUPS
    ensures NonZero(ws, k) ==
      if k <= run.start then ws[..k] else if k <= run.start + run.len then ws[..run.start]
      else ws[..run.start] + ws[run.start + run.len..k]
  {
    if k > 0 {
      NonZeroOneRun(ws, run, k - 1);
    }
  }

  lemma LongestEnds(ws: groups)
    ensures var best := Longest(ws, GROUPS);
      ZeroRun(ws, best) && Ends(ws, best) && (best.len == 0 ==> NonZero(ws, GROUPS) == ws)
  {
    var best := Longest(ws, GROUPS);
    LongestIsFirstLongest(ws, GROUPS);
    if best.len == 0 {
      forall k | 0 <= k < GROUPS ensures ws[k] != 0 {
        assert ZeroRun(ws, Run(k, 1)) ==> 1 <= best.len;
      }
      NonZeroOneRun(ws, Run(GROUPS, 0), GROUPS);
      assert ws[..GROUPS] == ws;
    } else {
      assert !ZeroRun(ws, Run(best.start, best.len + 1));
    }
  }

  /** Reading the printed form gives the address back exactly when its zero groups form one run
      at most. */
  lemma RoundTrip(ws: groups)
    ensures Legal(Printed(ws))
    ensures Meaning(Printed(ws)) == ws <==> AtMostOneRun(ws)
  {
    var best := Longest(ws, GROUPS);
    LongestEnds(ws);
    AllReads(ws, best);
    AllSplit(ws, best);
    NonZeroFacts(ws, 0, GROUPS);
    var s := if best.len > 0 then |NonZero(ws, best.start)| else GROUPS;
    if Filled8(NonZero(ws, GROUPS), s) == ws {
      FilledHasOneRun(ws, NonZero(ws, GROUPS), s);
    }
    if AtMostOneRun(ws) {
      var run :| OneRun(ws, run);
      OneRunIsLongest(ws, run);
      OneRunFills(ws, best);
    }
  }

  lemma FilledHasOneRun(ws: groups, nz: seq<nat>, s: nat)
    requires |nz| <= GROUPS && Filled8(nz, s) == ws && forall i :: 0 <= i < |nz| ==> nz[i] > 0
    ensures AtMostOneRun(ws)
  {
    var k := if s < |nz| then s else |nz|;
    assert OneRun(ws, Run(k, GROUPS - |nz|));
  }

  lemma OneRunFills(ws: groups, run: Run)
    requires if run.len > 0 then OneRun(ws, run) else NonZero(ws, GROUPS) == ws
    ensures |NonZero(ws, GROUPS)| <= GROUPS
    ensures Filled8(NonZero(ws, GROUPS), if run.len > 0 then |NonZero(ws, run.start)| else GROUPS) == ws
  {
    if run.len > 0 {
      NonZeroOneRun(ws, run, GROUPS);
      NonZeroOneRun(ws, run, run.start);
    }
  }

  lemma OneRunIsLongest(ws: groups, run: Run)
    requires OneRun(ws, run)
    ensures Longest(ws, GROUPS).len == run.len
    ensures run.len > 0 ==> Longest(ws, GROUPS) == run
  {
    var best := Longest(ws, GROUPS);
    LongestIsFirstLongest(ws, GROUPS);
    assert ZeroRun(ws, run);
    if best.len > 0 {
      assert ws[best.start] == 0 && ws[best.start + best.len - 1] == 0;
    }
  }

  /** So any address with two zero groups apart is printed as the text of another address. */
  lemma TwoRunsLoseOne(ws: groups, a: nat, b: nat, c: nat)
    requires a < b < c < GROUPS && ws[a] == 0 && ws[b] != 0 && ws[c] == 0
    ensures Legal(Printed(ws)) && Meaning(Printed(ws)) != ws
  {
    RoundTrip(ws);
  }

  // ---------------------------------------------------------------------------
  // Printing into the buffer
  // ---------------------------------------------------------------------------

  const NONE := Run(0, 0)

  /** The text of the first k groups before a ':' is doubled. */
  function Plain(ws: groups, k: nat): string
    requires k <= GROUPS
  {
    Text(Front(ws, NONE, k))
  }

  /** Where group k is written to, after the opening bracket. */
  function At(ws: groups, k: nat): nat
    requires k <= GROUPS
  {
    |Plain(ws, k)| + 1
  }

  lemma PlainStep(ws: groups, k: nat)
    requires k < GROUPS
    ensures Plain(ws, k + 1) ==
      if ws[k] == 0 then Plain(ws, k) else (if k > 0 then Plain(ws, k) + ":" else "") + Hex(ws[k])
  {
    var f, g := Front(ws, NONE, k), Group(Hex(ws[k]));
    if ws[k] != 0 {
      if k > 0 {
        FrontStep(ws, NONE, k + 1);
        TextSnoc(f, Colon);
        TextSnoc(f + [Colon], g);
      } else {
        TextSnoc([], g);
        assert Front(ws, NONE, 1) == [] + [] + [g] == [] + [g];
      }
    }
  }

  lemma {:induction false} PlainLength(ws: groups, k: nat)
    requires k <= GROUPS
    ensures |Plain(ws, k)| <= 5 * k
  {
    if k > 0 {
      PlainLength(ws, k - 1);
      PlainStep(ws, k - 1);
      HexIsMinimal(ws[k - 1], 4);
    }
  }

  lemma {:induction false} PlainRun(ws: groups, run: Run, k: nat)
    requires ZeroRun(ws, run) && run.start <= k <= run.start + run.len
    ensures Plain(ws, k) == Plain(ws, run.start)
  {
    if run.start < k {
      PlainRun(ws, run, k - 1);
      PlainStep(ws, k - 1);
    }
  }

  lemma {:induction false} FrontBeforeGap(ws: groups, run: Run, k: nat)
    requires k <= GROUPS && k <= run.start + run.len
    ensures Front(ws, run, k) == Front(ws, NONE, k)
  {
    if k > 0 {
      FrontBeforeGap(ws, run, k - 1);
    }
  }

  /** s with the character at position i written twice. */
  function Doubled(s: string, i: nat): string
    requires i < |s|
  {
    s[..i + 1] + s[i..]
  }

  lemma DoubledOn(s: string, i: nat, more: string)
    requires i < |s|
    ensures Doubled(s + more, i) == Doubled(s, i) + more
  {
  }

  lemma FrontText(ws: groups, run: Run, k: nat)
    requires 1 < k <= GROUPS && ws[k - 1] != 0
    ensures Text(Front(ws, run, k)) == Text(Front(ws, run, k - 1)) + ItemText(Separator(run, k - 1)) + Hex(ws[k - 1])
  {
    var f, x, g := Front(ws, run, k - 1), Separator(run, k - 1), Group(Hex(ws[k - 1]));
    FrontStep(ws, run, k);
    TextSnoc(f, x);
    TextSnoc(f + [x], g);
  }

  lemma DoubledColon(s: string, more: string)
    ensures |s| < |s + ":" + more|
    ensures Doubled(s + ":" + more, |s|) == s + "::" + more
  {
  }

  /** Past the run, doubling the character written where the run began makes the gap. */
  lemma {:induction false} GapText(ws: groups, run: Run, k: nat)
    requires ZeroRun(ws, run) && Ends(ws, run) && run.len > 0 && run.start + run.len < k <= GROUPS
    ensures |Plain(ws, run.start)| < |Plain(ws, k)|
    ensures Text(Front(ws, run, k)) == Doubled(Plain(ws, k), |Plain(ws, run.start)|)
  {
    if k == run.start + run.len + 1 {
      GapBegins(ws, run);
    } else {
      GapText(ws, run, k - 1);
      GapGrows(ws, run, k, Plain(ws, k - 1), |Plain(ws, run.start)|);
    }
  }

  lemma GapGrows(ws: groups, run: Run, k: nat, before: string, at: nat)
    requires ZeroRun(ws, run) && run.len > 0 && run.start + run.len + 1 < k <= GROUPS
    requires before == Plain(ws, k - 1) && at < |before| && Text(Front(ws, run, k - 1)) == Doubled(before, at)
    ensures at < |Plain(ws, k)| && Text(Front(ws, run, k)) == Doubled(Plain(ws, k), at)
  {
    if ws[k - 1] != 0 {
      FrontText(ws, run, k);
      FrontText(ws, NONE, k);
      DoubledOn(before, at, ":");
      DoubledOn(before + ":", at, Hex(ws[k - 1]));
    }
  }

  lemma GapBegins(ws: groups, run: Run)
    requires ZeroRun(ws, run) && Ends(ws, run) && run.len > 0 && run.start + run.len < GROUPS
    ensures var k, at := run.start + run.len + 1, |Plain(ws, run.start)|;
      at < |Plain(ws, k)| && Text(Front(ws, run, k)) == Doubled(Plain(ws, k), at)
  {
    var k := run.start + run.len + 1;
    FrontText(ws, run, k);
    FrontText(ws, NONE, k);
    PlainRun(ws, run, k - 1);
    FrontBeforeGap(ws, run, k - 1);
    DoubledColon(Plain(ws, run.start), Hex(ws[k - 1]));
  }

  /** The buffer's text after the loop, with the ':' that stands for a trailing run. */
  function Written(ws: groups): string {
    if ws[GROUPS - 1] == 0 then Plain(ws, GROUPS) + ":" else Plain(ws, GROUPS)
  }

  lemma AllText(ws: groups, run: Run)
    ensures Text(All(ws, run)) ==
      Text(Front(ws, run, GROUPS)) + if ws[GROUPS - 1] == 0 then ItemText(Separator(run, GROUPS)) else ""
  {
    var f := Front(ws, run, GROUPS);
    if ws[GROUPS - 1] == 0 {
      TextSnoc(f, Separator(run, GROUPS));
    } else {
      assert All(ws, run) == f;
    }
  }

  lemma PrintedText(ws: groups, run: Run)
    requires ZeroRun(ws, run) && Ends(ws, run)
    ensures run.len > 0 ==> |Plain(ws, run.start)| < |Written(ws)|
    ensures Text(All(ws, run)) ==
      if run.len > 0 then Doubled(Written(ws), |Plain(ws, run.start)|) else Written(ws)
  {
    AllText(ws, run);
    if run.len == 0 {
      FrontNoRun(ws, run, GROUPS);
    } else if run.start + run.len < GROUPS {
      GapText(ws, run, GROUPS);
      DoubledOn(Plain(ws, GROUPS), |Plain(ws, run.start)|, ":");
    } else {
      TrailingGap(ws, run);
    }
  }

  lemma TrailingGap(ws: groups, run: Run)
    requires ZeroRun(ws, run) && run.len > 0 && run.start + run.len == GROUPS
    ensures Written(ws) == Plain(ws, run.start) + ":"
    ensures Text(Front(ws, run, GROUPS)) + "::" == Doubled(Written(ws), |Plain(ws, run.start)|)
  {
    PlainRun(ws, run, GROUPS);
    FrontBeforeGap(ws, run, GROUPS);
    DoubledColon(Plain(ws, run.start), "");
    assert Written(ws) + "" == Written(ws);
  }

  lemma {:induction false} FrontNoRun(ws: groups, run: Run, k: nat)
    requires k <= GROUPS && run.len == 0
    ensures Front(ws, run, k) == Front(ws, NONE, k)
  {
    if k > 0 {
      FrontNoRun(ws, run, k - 1);
    }
  }

  /** The variables of the scan for the longest run; positions and lengths count from the start of
      the buffer, lengths in octets. */
  datatype Scan = Scan(startZeros: nat, lastZeros: int, numZeros: nat, maxStart: nat, maxNum: nat)

  /** The state of the scan before group k: `done` is the longest run that has come to an end. */
  ghost predicate Scanned(ws: groups, k: nat, z: Scan, done: Run)
    requires k <= GROUPS
  {
    var n := RunLength(ws, k);
    && ZeroRun(ws, done)
    && z.maxNum == 2 * done.len && z.maxStart == (if done.len > 0 then At(ws, done.start) else 0)
    && if n > 0 then
      && z.lastZeros == 2 * k - 2 && z.numZeros == 2 * n && z.startZeros == At(ws, k - n)
      && Longest(ws, k) == if n > done.len then Run(k - n, n) else done
    else
      (z.lastZeros < 2 * k - 2 || z.lastZeros == ADDRESS_LEN) && z.numZeros <= z.maxNum && Longest(ws, k) == done
  }

  function OctetText(high: bool, leading: bool, b: octet): string {
    if high && b == 0 then ""
    else if (high || leading) && b <= 0xf then [HexChar(b)]
    else [HexChar(b / 16), HexChar(b % 16)]
  }

  lemma HexStep(q: nat, d: nat)
    requires d < 16 && q > 0
    ensures Hex(16 * q + d) == Hex(q) + [HexChar(d)]
  {
    assert (16 * q + d) / 16 == q && (16 * q + d) % 16 == d;
  }

  lemma HexDigit(d: nat)
    requires d < 16
    ensures Hex(d) == [HexChar(d)]
  {
    assert d % 16 == d;
  }

  /** An octet on its own, without a leading zero. */
  lemma HexOctet(b: octet)
    ensures Hex(b) == if b <= 0xf then [HexChar(b)] else [HexChar(b / 16), HexChar(b % 16)]
  {
    if b <= 0xf {
      HexDigit(b);
    } else {
      HexDigit(b / 16);
      HexStep(b / 16, b % 16);
    }
  }

  /** An octet behind another. */
  lemma HexPair(hi: octet, lo: octet)
    requires hi > 0
    ensures Hex(hi as int * 0x100 + lo) == Hex(hi) + [HexChar(lo / 16), HexChar(lo % 16)]
  {
    var q := hi as int * 16 + lo / 16;
    HexStep(q, lo % 16);
    HexStep(hi, lo / 16);
    assert 16 * q + lo % 16 == hi as int * 0x100 + lo;
  }

  lemma OctetsAreHex(hi: octet, lo: octet)
    requires hi != 0 || lo != 0
    ensures OctetText(true, true, hi) + OctetText(false, hi == 0, lo) == Hex(hi as int * 0x100 + lo)
  {
    if hi == 0 {
      HexOctet(lo);
    } else {
      HexOctet(hi);
      HexPair(hi, lo);
    }
  }

  /** One octet: the high one without a leading zero digit, the low one with two digits when any
      digit has been written before it. */
  method PutOctet(addr: array<octet>, i: nat, ip: array<char>, at: nat, ghost was: string, ghost octet: string)
    returns (end: nat)
    requires i < addr.Length && at + 2 < ip.Length && ip[..at] == was
    requires octet == OctetText(i % 2 == 0, i % 2 == 0 || addr[i - 1] == 0, addr[i])
    modifies ip
    ensures at <= end <= at + 2 && ip[..end] == was + octet
  {
    if i % 2 == 0 && addr[i] == 0 {
      return at;
    } else if (i % 2 == 0 || addr[i - 1] == 0) && addr[i] <= 0xf {
      ip[at] := HexChar(addr[i]);
      return at + 1;
    } else {
      ip[at] := HexChar(addr[i] / 16);
      ip[at + 1] := HexChar(addr[i] % 16);
      return at + 2;
    }
  }

  /** Both octets of group k. */
  method PutGroup(addr: array<octet>, k: nat, ip: array<char>, at: nat) returns (end: nat)
    requires addr.Length == ADDRESS_LEN && k < GROUPS && at + 4 < ip.Length
    requires Words(addr[..])[k] != 0
    modifies ip
    ensures end <= at + 4 && ip[..end] == old(ip[..at]) + Hex(Words(addr[..])[k])
  {
    OctetsAreHex(addr[2 * k], addr[2 * k + 1]);
    ghost var was := ip[..at];
    ghost var hi := OctetText(true, true, addr[2 * k]);
    ghost var lo := OctetText(false, addr[2 * k] == 0, addr[2 * k + 1]);
    end := PutOctet(addr, 2 * k, ip, at, was, hi);
    end := PutOctet(addr, 2 * k + 1, ip, end, was + hi, lo);
    Assoc(was, hi, lo);
  }

  /** The shift that doubles the character at `start`, unless there is no run. */
  method InsertGap(ip: array<char>, at: nat, start: nat)
    requires at < ip.Length && (start == 0 || start < at)
    modifies ip
    ensures start == 0 ==> ip[..at] == old(ip[..at])
    ensures start != 0 ==> ip[..at + 1] == Doubled(old(ip[..at]), start)
  {
    var i := at;
    while start != 0 && i > start
      invariant start != 0 ==> start <= i <= at
      invariant start == 0 ==> i == at
      invariant forall j :: 0 <= j <= i ==> ip[j] == old(ip[j])
      invariant forall j :: i < j <= at ==> ip[j] == old(ip[j - 1])
    {
      ip[i] := ip[i - 1];
      i := i - 1;
    }
  }

  /** The updates for a zero group at position at. */
  function AfterZero(z: Scan, k: nat, at: nat): Scan {
    var begun := if z.lastZeros != 2 * k - 2 then z.(startZeros := at, numZeros := 0) else z;
    begun.(lastZeros := 2 * k, numZeros := begun.numZeros + 2)
  }

  /** The updates for any other group, and those at the end. */
  function AfterRun(z: Scan): Scan {
    if z.numZeros > z.maxNum then z.(maxNum := z.numZeros, maxStart := z.startZeros) else z
  }

  lemma ScanZero(ws: groups, k: nat, z: Scan, done: Run)
    requires k < GROUPS && ws[k] == 0 && Scanned(ws, k, z, done)
    ensures Scanned(ws, k + 1, AfterZero(z, k, At(ws, k)), done) && Plain(ws, k + 1) == Plain(ws, k)
  {
    PlainStep(ws, k);
    RunLengthIsRun(ws, k);
  }

  lemma ScanNonZero(ws: groups, k: nat, z: Scan, done: Run)
    requires k < GROUPS && ws[k] != 0 && Scanned(ws, k, z, done)
    ensures Scanned(ws, k + 1, AfterRun(z), Longest(ws, k))
  {
    RunLengthIsRun(ws, k);
  }

  lemma PlainStart(ws: groups)
    ensures Plain(ws, 0) == ""
  {
  }

  lemma ScanStart(ws: groups)
    ensures Plain(ws, 0) == "" && Scanned(ws, 0, Scan(0, ADDRESS_LEN, 0, 0, 0), NONE)
  {
  }

  lemma ScanEnd(ws: groups, z: Scan, done: Run)
    requires Scanned(ws, GROUPS, z, done)
    ensures z.lastZeros == ADDRESS_LEN - 2 <==> ws[GROUPS - 1] == 0
    ensures AfterRun(z).maxStart == if Longest(ws, GROUPS).len > 0 then At(ws, Longest(ws, GROUPS).start) else 0
  {
  }

  method IsZero(addr: array<octet>, ghost ws: groups, k: nat) returns (zero: bool)
    requires addr.Length == ADDRESS_LEN && ws == Words(addr[..]) && k < GROUPS
    ensures zero <==> ws[k] == 0
  {
    return addr[2 * k] == 0 && addr[2 * k + 1] == 0;
  }

  /** The pass over the groups: it writes those that are not zero and keeps track of the longest
      run of zeros. */
  method ScanGroups(addr: array<octet>, ghost ws: groups, ip: array<char>)
    returns (at: nat, maxStart: nat, trailing: bool)
    requires addr.Length == ADDRESS_LEN && ip.Length == BUFFER_LEN && ws == Words(addr[..]) && ip[..1] == "["
    modifies ip
    ensures at == At(ws, GROUPS) <= 5 * GROUPS + 1 && ip[..at] == "[" + Plain(ws, GROUPS)
    ensures maxStart == if Longest(ws, GROUPS).len > 0 then At(ws, Longest(ws, GROUPS).start) else 0
    ensures trailing <==> ws[GROUPS - 1] == 0
  {
    hide Plain;
    hide Scanned;
    hide Longest;
    at := 1;
    var k: nat, z := 0, Scan(0, ADDRESS_LEN, 0, 0, 0);
    ghost var done := NONE;
    ScanStart(ws);
    while k < GROUPS
      invariant k <= GROUPS && at == At(ws, k) <= 5 * k + 1
      invariant ip[..at] == "[" + Plain(ws, k)
      invariant Scanned(ws, k, z, done)
    {
      var zero := IsZero(addr, ws, k);
      if zero {
        ScanZero(ws, k, z, done);
        z := AfterZero(z, k, at);
      } else {
        ScanNonZero(ws, k, z, done);
        done := Longest(ws, k);
        z := AfterRun(z);
        at := PutNonZero(addr, ws, k, ip, at);
      }
      k := k + 1;
    }
    ScanEnd(ws, z, done);
    maxStart := AfterRun(z).maxStart;
    trailing := z.lastZeros == ADDRESS_LEN - 2;
  }

  /** oc_ipv6_endpoint_to_string as far as the address: the pass over the groups, then the shift. */
  method PrintAddress(addr: array<octet>) returns (ip: array<char>, len: nat)
    requires addr.Length == ADDRESS_LEN
    ensures ip.Length == BUFFER_LEN && fresh(ip) && len <= 5 * GROUPS + 3
    ensures ip[..len] == "[" + Text(Printed(Words(addr[..])))
  {
    ghost var ws: groups := Words(addr[..]);
    ip := new char[BUFFER_LEN](_ => ' ');
    ip[0] := '[';
    var at, maxStart, trailing := ScanGroups(addr, ws, ip);
    if trailing {
      ip[at] := ':';
      at := at + 1;
    }
    assert ip[..at] == "[" + Written(ws);
    len := Compress(ws, ip, at, maxStart);
  }

  method Compress(ghost ws: groups, ip: array<char>, at: nat, maxStart: nat) returns (len: nat)
    requires at < ip.Length && ip[..at] == "[" + Written(ws)
    requires maxStart == if Longest(ws, GROUPS).len > 0 then At(ws, Longest(ws, GROUPS).start) else 0
    modifies ip
    ensures at <= len <= at + 1 && ip[..len] == "[" + Text(Printed(ws))
  {
    hide Longest;
    hide Written;
    hide Plain;
    hide Front;
    hide Text;
    LongestEnds(ws);
    PrintedText(ws, Longest(ws, GROUPS));
    InsertGap(ip, at, maxStart);
    if maxStart != 0 {
      DoubledBehind("[", Written(ws), maxStart - 1);
      len := at + 1;
    } else {
      len := at;
    }
  }

  lemma DoubledBehind(a: string, s: string, i: nat)
    requires i < |s|
    ensures Doubled(a + s, |a| + i) == a + Doubled(s, i)
  {
    assert (a + s)[..|a| + i + 1] == a + s[..i + 1];
    assert (a + s)[|a| + i..] == s[i..];
  }

  /** A group that is not zero, after a colon unless it is the first. */
  method PutNonZero(addr: array<octet>, ghost ws: groups, k: nat, ip: array<char>, at: nat) returns (end: nat)
    requires addr.Length == ADDRESS_LEN && ws == Words(addr[..]) && k < GROUPS && ws[k] != 0
    requires at == At(ws, k) && at + 5 < ip.Length && ip[..at] == "[" + Plain(ws, k)
    modifies ip
    ensures end == At(ws, k + 1) <= at + 5 && ip[..end] == "[" + Plain(ws, k + 1)
  {
    hide Plain;
    hide Hex;
    PlainStep(ws, k);
    PlainLength(ws, k + 1);
    PlainStart(ws);
    end := at;
    if k > 0 && k <= 7 {
      ip[end] := ':';
      end := end + 1;
      assert ip[..end] == "[" + (Plain(ws, k) + ":");
    }
    ghost var was := if k > 0 then Plain(ws, k) + ":" else "";
    end := PutGroup(addr, k, ip, end);
    Assoc("[", was, Hex(ws[k]));
  }
}
