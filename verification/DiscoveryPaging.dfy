/** /.well-known/core in pages: three list producers run one after the other over counters they
    share, so that together they answer with one page of one filtered list. */
module DiscoveryPaging {
  import opened Wrappers

  /** The build's page size, 20 unless it is configured. */
  type pageSize = n: nat | n > 0 witness 1

  const BASIC_RESOURCES := 5
  const ARRAY_SIZE := 50

  /** A resource type string: of a data point of functional block fb, of a router, or neither. */
  datatype ResourceType = DataPoint(fb: int) | Router | Other

  /** A resource, with the request's rt and if filters already evaluated as `selected`. */
  datatype Resource = Resource(
    id: nat, device: nat, discoverable: bool, selected: bool, types: seq<ResourceType>, instance: nat)

  /** One link of a response. */
  datatype Link = SerialNumber | Res(id: nat) | Block(fb: int, instance: nat)

  datatype Pair = Pair(fb: int, instance: nat)

  /** A unicast request: whether it has an rt or if filter, whether that filter admits functional
      blocks, and how many serial-number links come first (programming mode and the wild card
      on serial numbers each add one). */
  datatype Request = Request(filtered: bool, blocksSelected: bool, serials: nat)

  datatype Device = Device(index: nat, apps: seq<Resource>, basics: seq<Resource>)

  predicate WellFormed(d: Device, q: Request) {
    && |d.basics| == BASIC_RESOURCES
    && q.serials <= 2
    && |Blocks(d, |d.apps|)| <= ARRAY_SIZE
    && forall r :: r in d.apps ==> Router !in r.types
  }

  // ---------------------------------------------------------------------------
  // The whole filtered list
  // ---------------------------------------------------------------------------

  predicate Listed(r: Resource, device: nat) {
    r.device == device && r.discoverable
  }

  /** The links of the selected, discoverable resources among the first k. */
  function Selected(rs: seq<Resource>, k: nat): seq<Link>
    requires k <= |rs|
  {
    if k == 0 then []
    else
      Selected(rs, k - 1)
      + if rs[k - 1].selected && rs[k - 1].discoverable then [Res(rs[k - 1].id)] else []
  }

  /** The same, for the application resources of one device. */
  function SelectedApps(d: Device, k: nat): seq<Link>
    requires k <= |d.apps|
  {
    if k == 0 then []
    else
      SelectedApps(d, k - 1)
      + if Listed(d.apps[k - 1], d.index) && d.apps[k - 1].selected then [Res(d.apps[k - 1].id)] else []
  }

  /** Pairs added once each, in order of first appearance. */
  function AddTypes(ps: seq<Pair>, r: Resource, k: nat): (qs: seq<Pair>)
    requires k <= |r.types|
    ensures |ps| <= |qs| && qs[..|ps|] == ps
  {
    if k == 0 then ps
    else
      var qs := AddTypes(ps, r, k - 1);
      var t := r.types[k - 1];
      if t.DataPoint? && t.fb > 0 && Pair(t.fb, r.instance) !in qs then qs + [Pair(t.fb, r.instance)] else qs
  }

  /** The functional blocks (and instances) of the device's first k application resources. */
  function Blocks(d: Device, k: nat): seq<Pair>
    requires k <= |d.apps|
  {
    if k == 0 then []
    else if Listed(d.apps[k - 1], d.index) then AddTypes(Blocks(d, k - 1), d.apps[k - 1], |d.apps[k - 1].types|)
    else Blocks(d, k - 1)
  }

  function BlockLinks(ps: seq<Pair>): (ls: seq<Link>)
    ensures |ls| == |ps|
  {
    seq(|ps|, i requires 0 <= i < |ps| => Block(ps[i].fb, ps[i].instance))
  }

  function Serials(n: nat): seq<Link> {
    seq(n, _ => SerialNumber)
  }

  /** Everything the request asks for, in order: serial numbers, then application resources (only
      of a filtered request), then basic resources, then functional blocks. */
  function AllLinks(d: Device, q: Request): seq<Link> {
    Serials(q.serials)
    + (if q.filtered then SelectedApps(d, |d.apps|) else [])
    + Selected(d.basics, |d.basics|)
    + (if q.blocksSelected then BlockLinks(Blocks(d, |d.apps|)) else [])
  }

  function CountListed(d: Device, k: nat): nat
    requires k <= |d.apps|
  {
    if k == 0 then 0 else CountListed(d, k - 1) + if Listed(d.apps[k - 1], d.index) then 1 else 0
  }

  /** What the handler takes for the length of that list: counted before filtering, and without
      the serial numbers. */
  function Total(d: Device, q: Request): nat {
    (if q.filtered then CountListed(d, |d.apps|) else 0) + BASIC_RESOURCES + |Blocks(d, |d.apps|)|
  }

  function Slice(ls: seq<Link>, first: nat, last: nat): seq<Link>
    requires first <= last
  {
    ls[Min(first, |ls|)..Min(last, |ls|)]
  }

  // ---------------------------------------------------------------------------
  // The list producers
  // ---------------------------------------------------------------------------

  /** The functional blocks found so far, kept between requests. */
  class BlockTable {
    const pairs: array<Pair>
    var size: nat
    var count: nat

    ghost predicate Valid(d: Device)
      reads this, pairs
    {
      && pairs.Length == ARRAY_SIZE && size <= ARRAY_SIZE && count == size
      && (size > 0 ==> pairs[..size] == Blocks(d, |d.apps|))
    }

    constructor ()
      ensures pairs.Length == ARRAY_SIZE && size == 0 && count == 0
      ensures fresh(pairs)
    {
      pairs := new Pair[ARRAY_SIZE](_ => Pair(0, 0));
      size := 0;
      count := 0;
    }

    method IsInArray(p: Pair) returns (found: bool)
      requires size <= pairs.Length
      ensures found <==> p in pairs[..size]
    {
      for i := 0 to size
        invariant p !in pairs[..i]
      {
        if p == pairs[i] {
          return true;
        }
      }
      return false;
    }

    method StoreInArray(p: Pair)
      requires size < pairs.Length && p.fb != -1
      modifies this`size, pairs
      ensures size == old(size) + 1 && pairs[..size] == old(pairs[..size]) + [p]
    {
      pairs[size] := p;
      size := size + 1;
    }

    /** The pass over the types of one resource: unseen pairs are appended. */
    method AddResource(r: Resource) returns (added: nat)
      requires pairs.Length == ARRAY_SIZE && size <= ARRAY_SIZE && Router !in r.types
      requires |AddTypes(pairs[..size], r, |r.types|)| <= ARRAY_SIZE
      modifies this`size, pairs
      ensures size <= ARRAY_SIZE && size == old(size) + added
      ensures pairs[..size] == AddTypes(old(pairs[..size]), r, |r.types|)
    {
      added := 0;
      ghost var ps := pairs[..size];
      for i := 0 to |r.types|
        invariant size <= ARRAY_SIZE && size == old(size) + added
        invariant pairs[..size] == AddTypes(ps, r, i)
      {
        AddTypesGrows(ps, r, i + 1, |r.types|);
        var t := r.types[i];
        if t.DataPoint? {
          var found := IsInArray(Pair(t.fb, r.instance));
          if t.fb > 0 && !found {
            StoreInArray(Pair(t.fb, r.instance));
            added := added + 1;
          }
        }
      }
    }

    /** oc_count_functional_blocks: counted once, then remembered. */
    method CountFunctionalBlocks(d: Device) returns (n: nat)
      requires Valid(d) && |Blocks(d, |d.apps|)| <= ARRAY_SIZE
      requires forall r :: r in d.apps ==> Router !in r.types
      modifies this, pairs
      ensures Valid(d) && n == size == |Blocks(d, |d.apps|)| && pairs[..size] == Blocks(d, |d.apps|)
    {
      if count > 0 {
        return count;
      }
      var counter := 0;
      for k := 0 to |d.apps|
        invariant size <= ARRAY_SIZE && counter == size
        invariant pairs[..size] == Blocks(d, k)
      {
        BlocksGrow(d, k + 1, |d.apps|);
        if Listed(d.apps[k], d.index) {
          var added := AddResource(d.apps[k]);
          counter := counter + added;
        }
      }
      count := counter;
      return count;
    }
  }

  lemma {:induction false} AddTypesGrows(ps: seq<Pair>, r: Resource, i: nat, k: nat)
    requires i <= k <= |r.types|
    ensures |AddTypes(ps, r, i)| <= |AddTypes(ps, r, k)|
  {
    if i < k {
      AddTypesGrows(ps, r, i, k - 1);
    }
  }

  lemma {:induction false} BlocksGrow(d: Device, i: nat, k: nat)
    requires i <= k <= |d.apps|
    ensures |Blocks(d, i)| <= |Blocks(d, k)|
  {
    if i < k {
      BlocksGrow(d, i, k - 1);
    }
  }

  /** The counters the producers share, and the links framed so far. */
  class Page {
    const first: nat
    const last: nat
    var response: seq<Link>
    var matches: nat
    var skipped: nat

    constructor (first: nat, last: nat)
      requires first < last
      ensures this.first == first && this.last == last
      ensures Offered([])
    {
      this.first, this.last := first, last;
      response, matches, skipped := [], 0, 0;
    }

    /** The links `done` have been offered so far and the page is not full. */
    ghost predicate Offered(done: seq<Link>)
      reads this
    {
      && first < last
      && skipped == Min(first, |done|)
      && response == done[skipped..]
      && matches == |response|
    }

    /** The response is the part of the whole list from the first entry to `end`. */
    ghost predicate Answers(all: seq<Link>, end: nat)
      reads this
    {
      first < last <= end && response == Slice(all, first, end) && matches == |response|
    }

    /** Once `done` has filled the page, nothing after it matters. */
    lemma FullAnswers(done: seq<Link>, all: seq<Link>, end: nat)
      requires Offered(done) && done <= all && |done| <= end && last <= end
      requires |done| == end || done == all
      ensures Answers(all, end)
    {
      if |done| == end {
        assert done[skipped..] == all[first..end];
      }
    }

    /** Where a page ends that gets full: at its last entry, or, when it was full already, behind the
        one resource that is framed before the producer looks. */
    function FullAt(done: nat): nat {
      if done < last then last else done + 1
    }

    /** A resource that passed the filters: skipped, or framed. */
    method Offer(l: Link, ghost done: seq<Link>) returns (framed: bool)
      requires Offered(done)
      modifies this
      ensures Offered(done + [l])
      ensures framed <==> |done| >= first
      ensures framed ==> first + matches == |done| + 1
    {
      if skipped < first {
        skipped := skipped + 1;
        return false;
      }
      response := response + [l];
      matches := matches + 1;
      return true;
    }

    method AddSerials(n: nat)
      requires Offered([])
      modifies this
      ensures Offered(Serials(n))
    {
      for i := 0 to n
        invariant Offered(Serials(i))
      {
        var framed := Offer(SerialNumber, Serials(i));
        assert Serials(i) + [SerialNumber] == Serials(i + 1);
      }
    }

    /** oc_filter_resource */
    method FilterResource(r: Resource, ghost done: seq<Link>) returns (framed: bool)
      requires Offered(done)
      modifies this
      ensures Offered(if r.selected && r.discoverable then done + [Res(r.id)] else done)
      ensures framed ==> r.selected && r.discoverable && |done| >= first
      ensures r.selected && r.discoverable && |done| >= first ==> framed
      ensures framed ==> first + matches == |done| + 1
    {
      if !r.selected {
        return false;
      }
      if !r.discoverable {
        return false;
      }
      framed := Offer(Res(r.id), done);
    }

    /** oc_process_resources */
    method ProcessResources(d: Device, ghost done: seq<Link>, ghost all: seq<Link>) returns (finished: bool)
      requires first < last && Offered(done) && done + SelectedApps(d, |d.apps|) <= all
      modifies this
      ensures if finished then SelectedApps(d, |d.apps|) != [] && Answers(all, FullAt(|done|))
        else Offered(done + SelectedApps(d, |d.apps|)) && Room(done, SelectedApps(d, |d.apps|))
    {
      hide Offered;
      hide Answers;
      assert done + [] == done;
      for k := 0 to |d.apps|
        invariant Offered(done + SelectedApps(d, k)) && Room(done, SelectedApps(d, k))
      {
        var r := d.apps[k];
        if r.device != d.index || !r.discoverable {
          assert SelectedApps(d, k + 1) == SelectedApps(d, k);
          continue;
        }
        ghost var before := done + SelectedApps(d, k);
        ghost var after := done + SelectedApps(d, k + 1);
        assert after == if r.selected then before + [Res(r.id)] else before;
        var framed := FilterResource(r, before);
        if framed {
          if first + matches >= last {
            AppsPrefix(d, k + 1, |d.apps|);
            FullAnswers(after, all, FullAt(|done|));
            return true;
          }
        }
      }
      return false;
    }

    /** The page is not full, unless it was before any of these links. */
    predicate Room(done: seq<Link>, links: seq<Link>) {
      links != [] ==> |done + links| < last
    }

    /** oc_process_basic_resources */
    method ProcessBasicResources(d: Device, ghost done: seq<Link>, ghost all: seq<Link>) returns (finished: bool)
      requires first < last && Offered(done) && done + Selected(d.basics, |d.basics|) <= all
      modifies this
      ensures if finished then Selected(d.basics, |d.basics|) != [] && Answers(all, FullAt(|done|))
        else Offered(done + Selected(d.basics, |d.basics|)) && Room(done, Selected(d.basics, |d.basics|))
    {
      hide Offered;
      hide Answers;
      assert done + [] == done;
      for k := 0 to |d.basics|
        invariant Offered(done + Selected(d.basics, k)) && Room(done, Selected(d.basics, k))
      {
        var r := d.basics[k];
        ghost var before := done + Selected(d.basics, k);
        ghost var after := done + Selected(d.basics, k + 1);
        assert after == if r.selected && r.discoverable then before + [Res(r.id)] else before;
        var framed := FilterResource(r, before);
        if framed {
          if first + matches >= last {
            BasicsPrefix(d.basics, k + 1, |d.basics|);
            FullAnswers(after, all, FullAt(|done|));
            return true;
          }
        }
      }
      return false;
    }

    /** The framing loop of oc_add_function_blocks_to_response (the scan before it finds nothing
        new once the blocks have been counted): it looks before it frames. */
    method AddFunctionBlocks(table: BlockTable, ghost done: seq<Link>, ghost all: seq<Link>)
      requires Offered(done) && table.size <= table.pairs.Length
      requires done + BlockLinks(table.pairs[..table.size]) == all
      modifies this
      ensures Answers(all, if |done| < last then last else |done|)
    {
      ghost var links := BlockLinks(table.pairs[..table.size]);
      ghost var end := if |done| < last then last else |done|;
      assert done + links[..0] == done;
      for i := 0 to table.size
        invariant Offered(done + links[..i]) && |done| + i <= end
      {
        if skipped < first {
          skipped := skipped + 1;
        } else if first + matches >= last {
          FullAnswers(done + links[..i], all, end);
          return;
        } else {
          response := response + [Block(table.pairs[i].fb, table.pairs[i].instance)];
          matches := matches + 1;
        }
        assert done + links[..i + 1] == done + links[..i] + [links[i]];
      }
      assert links[..table.size] == links;
      FullAnswers(all, all, end);
    }
  }

  // ---------------------------------------------------------------------------
  // The handler
  // ---------------------------------------------------------------------------

  datatype Response = BadRequest | Links(links: seq<Link>, next: Option<nat>)

  function FirstEntry(size: pageSize, pn: Option<nat>): nat {
    if pn.Some? then pn.value * size else 0
  }

  function NextPage(pn: Option<nat>): nat {
    if pn.Some? then pn.value + 1 else 1
  }

  /** The links of selected resources. */
  function Resources(d: Device, q: Request): seq<Link> {
    (if q.filtered then SelectedApps(d, |d.apps|) else []) + Selected(d.basics, |d.basics|)
  }

  /** Where a page ends whose entries are those before `last`. Serial numbers are framed without
      asking whether there is room, and so is the first resource after them. */
  function PageEnd(d: Device, q: Request, last: nat): nat {
    if q.serials < last then last else q.serials + if Resources(d, q) == [] then 0 else 1
  }

  /** Page pn of the filtered list, with a link to the next page when the total says there is one. */
  function PageOf(d: Device, q: Request, size: pageSize, pn: Option<nat>): Response {
    var first, total := FirstEntry(size, pn), Total(d, q);
    if pn.Some? && first >= total then BadRequest
    else
      var last := Min(total, first + size);
      var links := Slice(AllLinks(d, q), first, PageEnd(d, q, last));
      Links(links, if links != [] && total > first + size then Some(NextPage(pn)) else None)
  }

  /** The paging part of oc_wkcore_discovery_handler, on a unicast request. */
  method HandleDiscovery(d: Device, q: Request, table: BlockTable, size: pageSize, pn: Option<nat>)
    returns (r: Response)
    requires WellFormed(d, q) && table.Valid(d)
    modifies table, table.pairs
    ensures table.Valid(d) && r == PageOf(d, q, size, pn)
  {
    hide AllLinks;
    hide PageEnd;
    hide Slice;
    hide Blocks;
    var total := CountResources(d, q);
    total := total + BASIC_RESOURCES;
    var blocks := table.CountFunctionalBlocks(d);
    total := total + blocks;
    var first, last := 0, total;
    if pn.Some? {
      first := first + pn.value * size;
      if first >= last {
        return BadRequest;
      }
    }
    r := Answer(d, q, table, size, pn, first, last);
  }

  /** One page, cut to the page size, and the link to the next one when there is more. */
  method Answer(d: Device, q: Request, table: BlockTable, size: pageSize, pn: Option<nat>, first: nat, total: nat)
    returns (r: Response)
    requires WellFormed(d, q) && first < total && first == FirstEntry(size, pn)
    requires table.size <= table.pairs.Length && table.pairs[..table.size] == Blocks(d, |d.apps|)
    ensures r.Links? && r.links == Slice(AllLinks(d, q), first, PageEnd(d, q, Min(total, first + size)))
    ensures r.next == if r.links != [] && total > first + size then Some(NextPage(pn)) else None
  {
    var last, moreNeeded := total, false;
    if last > first + size {
      last := first + size;
      moreNeeded := true;
    }
    var page := FillPage(d, q, table, first, last);
    if page.matches > 0 {
      if moreNeeded {
        return Links(page.response, Some(NextPage(pn)));
      }
      return Links(page.response, None);
    }
    return Links([], None);
  }

  /** The counting loop: of a filtered request only, and of every listed resource whatever the
      filter says about it. */
  method CountResources(d: Device, q: Request) returns (total: nat)
    ensures total == if q.filtered then CountListed(d, |d.apps|) else 0
  {
    total := 0;
    if q.filtered {
      for k := 0 to |d.apps|
        invariant total == CountListed(d, k)
      {
        if Listed(d.apps[k], d.index) {
          total := total + 1;
        }
      }
    }
  }

  /** The calls to the producers, each skipped once the page is full. */
  method FillPage(d: Device, q: Request, table: BlockTable, first: nat, last: nat) returns (page: Page)
    requires first < last
    requires table.size <= table.pairs.Length && table.pairs[..table.size] == Blocks(d, |d.apps|)
    ensures page.first == first && page.last == last && page.Answers(AllLinks(d, q), PageEnd(d, q, last))
  {
    page := new Page(first, last);
    var finished := false;
    ghost var all := AllLinks(d, q);
    page.AddSerials(q.serials);
    ghost var done := Serials(q.serials);
    ghost var apps := if q.filtered then SelectedApps(d, |d.apps|) else [];
    ghost var basics := Selected(d.basics, |d.basics|);
    if q.filtered {
      finished := page.ProcessResources(d, done, all);
    }
    if !finished {
      finished := page.ProcessBasicResources(d, done + apps, all);
    }
    if !finished {
      done := done + apps + basics;
      if q.blocksSelected {
        page.AddFunctionBlocks(table, done, all);
      } else {
        assert done == all;
        page.FullAnswers(done, all, PageEnd(d, q, last));
      }
    }
  }

  lemma {:induction false} AppsPrefix(d: Device, i: nat, k: nat)
    requires i <= k <= |d.apps|
    ensures SelectedApps(d, i) <= SelectedApps(d, k)
  {
    if i < k {
      AppsPrefix(d, i, k - 1);
    }
  }

  lemma {:induction false} BasicsPrefix(rs: seq<Resource>, i: nat, k: nat)
    requires i <= k <= |rs|
    ensures Selected(rs, i) <= Selected(rs, k)
  {
    if i < k {
      BasicsPrefix(rs, i, k - 1);
    }
  }

  // ---------------------------------------------------------------------------
  // Following the pages
  // ---------------------------------------------------------------------------

  lemma NextEntry(size: pageSize, pn: Option<nat>)
    ensures FirstEntry(size, Some(NextPage(pn))) == FirstEntry(size, pn) + size
  {
  }

  /** A client that repeats its request with each next page number it is given. */
  function Follow(d: Device, q: Request, size: pageSize, pn: Option<nat>): seq<Link>
    decreases Total(d, q) - FirstEntry(size, pn)
  {
    match PageOf(d, q, size, pn)
    case BadRequest => []
    case Links(links, next) =>
      NextEntry(size, pn);
      if next.None? then links else links + Follow(d, q, size, next)
  }

  /** From any page behind the serial numbers on, the pages together are the list from there, up to
      the handler's total. */
  lemma {:induction false} FollowFrom(d: Device, q: Request, size: pageSize, pn: Option<nat>)
    requires FirstEntry(size, pn) < Total(d, q) && q.serials < FirstEntry(size, pn) + size && q.serials < Total(d, q)
    ensures Follow(d, q, size, pn) == Slice(AllLinks(d, q), FirstEntry(size, pn), Total(d, q))
    decreases Total(d, q) - FirstEntry(size, pn)
  {
    hide AllLinks;
    hide Total;
    var all, first, total := AllLinks(d, q), FirstEntry(size, pn), Total(d, q);
    var page := PageOf(d, q, size, pn);
    NextEntry(size, pn);
    if page.next.Some? {
      FollowFrom(d, q, size, page.next);
      SlicesJoin(all, first, first + size, total);
    }
  }

  lemma SlicesJoin(ls: seq<Link>, a: nat, b: nat, c: nat)
    requires a <= b <= c
    ensures Slice(ls, a, b) + Slice(ls, b, c) == Slice(ls, a, c)
  {
  }

  /** The pages are the filtered list up to the handler's total, each entry once, exactly when the
      serial numbers do not fill a page, or just fill it and no resource follows. Then they are the
      whole list exactly when it is no longer than that total. */
  lemma PagesAreTheList(d: Device, q: Request, size: pageSize)
    requires WellFormed(d, q)
    ensures Follow(d, q, size, None) == Slice(AllLinks(d, q), 0, Total(d, q)) <==> SerialsFit(d, q, size)
    ensures SerialsFit(d, q, size) ==>
      (Follow(d, q, size, None) == AllLinks(d, q) <==> |AllLinks(d, q)| <= Total(d, q))
  {
    if q.serials < size {
      FollowFrom(d, q, size, None);
    } else {
      SmallPages(d, q, size);
      var all, total := AllLinks(d, q), Total(d, q);
      AllParts(d, q);
      TotalIsLarge(d, q);
      hide AllLinks;
      hide Total;
      hide Resources;
      hide Follow;
      SlicesJoin(all, 0, q.serials, total);
    }
  }

  predicate SerialsFit(d: Device, q: Request, size: pageSize) {
    q.serials < size || (q.serials == size && Resources(d, q) == [])
  }

  lemma AllParts(d: Device, q: Request)
    ensures var all := AllLinks(d, q);
      && |all| >= q.serials + |Resources(d, q)|
      && all[..q.serials] == Serials(q.serials)
      && all[q.serials..q.serials + |Resources(d, q)|] == Resources(d, q)
  {
    var blocks := if q.blocksSelected then BlockLinks(Blocks(d, |d.apps|)) else [];
    assert AllLinks(d, q) == Serials(q.serials) + Resources(d, q) + blocks;
  }

  /** When the serial numbers fill a page, the pages up to the last of them overrun: each also has
      the first resource, if there is one, and starts anew behind its own first entry. */
  lemma SmallPages(d: Device, q: Request, size: pageSize)
    requires WellFormed(d, q) && size <= q.serials
    ensures var all, total, over := AllLinks(d, q), Total(d, q), q.serials + if Resources(d, q) == [] then 0 else 1;
      Follow(d, q, size, None) ==
        if size == q.serials then Slice(all, 0, over) + Slice(all, q.serials, total)
        else Slice(all, 0, over) + (Slice(all, 1, over) + Slice(all, 2, total))
  {
    TotalIsLarge(d, q);
    AllParts(d, q);
    hide AllLinks;
    hide Total;
    hide Resources;
    hide Follow;
    FollowStep(d, q, size, None);
    FollowStep(d, q, size, Some(1));
    if size == q.serials {
      FollowFrom(d, q, size, Some(1));
    } else {
      assert size == 1 && q.serials == 2;
      FollowFrom(d, q, size, Some(2));
    }
  }

  lemma FollowStep(d: Device, q: Request, size: pageSize, pn: Option<nat>)
    requires FirstEntry(size, pn) < Total(d, q)
    ensures var first, total := FirstEntry(size, pn), Total(d, q);
      var links := Slice(AllLinks(d, q), first, PageEnd(d, q, Min(total, first + size)));
      Follow(d, q, size, pn) ==
        links + if links != [] && total > first + size then Follow(d, q, size, Some(NextPage(pn))) else []
  {
    hide AllLinks;
    hide Total;
    hide PageEnd;
    hide Slice;
  }

  lemma TotalIsLarge(d: Device, q: Request)
    ensures Total(d, q) >= BASIC_RESOURCES
  {
  }

  lemma {:induction false} SelectedBounds(d: Device, k: nat)
    requires k <= |d.apps|
    ensures |SelectedApps(d, k)| <= CountListed(d, k)
    ensures (forall r :: r in d.apps ==> r.selected) ==> |SelectedApps(d, k)| == CountListed(d, k)
  {
    if k > 0 {
      SelectedBounds(d, k - 1);
    }
  }

  lemma {:induction false} BasicsBounds(rs: seq<Resource>, k: nat)
    requires k <= |rs|
    ensures |Selected(rs, k)| <= k
    ensures (forall r :: r in rs ==> r.selected && r.discoverable) ==> |Selected(rs, k)| == k
  {
    if k > 0 {
      BasicsBounds(rs, k - 1);
    }
  }

  /** Without leading serial-number links nothing is lost, whatever the filters. */
  lemma NoSerialsLoseNothing(d: Device, q: Request, size: pageSize)
    requires WellFormed(d, q) && q.serials == 0
    ensures Follow(d, q, size, None) == AllLinks(d, q)
  {
    PagesAreTheList(d, q, size);
    SelectedBounds(d, |d.apps|);
    BasicsBounds(d.basics, |d.basics|);
  }

  predicate EverythingSelected(d: Device, q: Request) {
    && q.blocksSelected
    && (forall r :: r in d.apps ==> r.selected)
    && (forall r :: r in d.basics ==> r.selected && r.discoverable)
  }

  /** When every resource passes the filters, each leading serial-number link pushes one entry off
      the end of the last page. */
  lemma SerialsLoseTheEnd(d: Device, q: Request, size: pageSize)
    requires WellFormed(d, q) && EverythingSelected(d, q) && q.serials < size
    ensures Follow(d, q, size, None) == AllLinks(d, q)[..|AllLinks(d, q)| - q.serials]
  {
    PagesAreTheList(d, q, size);
    SelectedBounds(d, |d.apps|);
    BasicsBounds(d.basics, |d.basics|);
  }

  ghost predicate NoRepeats<T>(s: seq<T>) {
    forall i, j :: 0 <= i < j < |s| ==> s[i] != s[j]
  }

  lemma {:induction false} TypesOnce(ps: seq<Pair>, r: Resource, k: nat)
    requires k <= |r.types| && NoRepeats(ps)
    ensures NoRepeats(AddTypes(ps, r, k))
    ensures forall p :: p in AddTypes(ps, r, k) <==>
      p in ps || (p.instance == r.instance && p.fb > 0 && DataPoint(p.fb) in r.types[..k])
  {
    if k > 0 {
      TypesOnce(ps, r, k - 1);
      assert r.types[..k] == r.types[..k - 1] + [r.types[k - 1]];
    }
  }

  ghost predicate HasBlock(r: Resource, device: nat, p: Pair) {
    Listed(r, device) && p.instance == r.instance && p.fb > 0 && DataPoint(p.fb) in r.types
  }

  /** The functional blocks listed are those of the device's data points, each once. */
  lemma {:induction false} BlocksOnce(d: Device, k: nat)
    requires k <= |d.apps|
    ensures NoRepeats(Blocks(d, k))
    ensures forall p :: p in Blocks(d, k) <==> exists i :: 0 <= i < k && HasBlock(d.apps[i], d.index, p)
  {
    if k > 0 {
      BlocksOnce(d, k - 1);
      var r := d.apps[k - 1];
      assert r.types[..|r.types|] == r.types;
      if Listed(r, d.index) {
        TypesOnce(Blocks(d, k - 1), r, |r.types|);
      }
      forall p ensures p in Blocks(d, k) <==> p in Blocks(d, k - 1) || HasBlock(r, d.index, p) {
      }
    }
  }

  // ---------------------------------------------------------------------------
  // What the list holds
  // ---------------------------------------------------------------------------

  /** Some application resource of the device has a data point of block fb, as this instance. */
  ghost predicate DeviceHasBlock(d: Device, fb: int, instance: nat) {
    exists i :: 0 <= i < |d.apps| && HasBlock(d.apps[i], d.index, Pair(fb, instance))
  }

  /** Some application resource of the device with this id is selected. */
  ghost predicate AppSelected(d: Device, id: nat, k: nat)
    requires k <= |d.apps|
  {
    exists i :: 0 <= i < k && d.apps[i].id == id &&
                d.apps[i].device == d.index && d.apps[i].discoverable && d.apps[i].selected
  }

  ghost predicate BasicSelected(rs: seq<Resource>, id: nat, k: nat)
    requires k <= |rs|
  {
    exists i :: 0 <= i < k && rs[i].selected && rs[i].discoverable && rs[i].id == id
  }

  lemma BlockLinksAre(ps: seq<Pair>, fb: int, instance: nat)
    ensures Block(fb, instance) in BlockLinks(ps) <==> Pair(fb, instance) in ps
  {
    if Pair(fb, instance) in ps {
      var i :| 0 <= i < |ps| && ps[i] == Pair(fb, instance);
      assert BlockLinks(ps)[i] == Block(fb, instance);
    }
  }

  lemma BlockLinksOnce(ps: seq<Pair>)
    requires NoRepeats(ps)
    ensures NoRepeats(BlockLinks(ps))
  {
    forall i, j | 0 <= i < j < |ps| ensures BlockLinks(ps)[i] != BlockLinks(ps)[j] {
      assert ps[i] != ps[j];
    }
  }

  lemma {:induction false} AppsSelected(d: Device, k: nat, id: nat)
    requires k <= |d.apps|
    ensures Res(id) in SelectedApps(d, k) <==> AppSelected(d, id, k)
  {
    if k > 0 {
      AppsSelected(d, k - 1, id);
    }
  }

  lemma {:induction false} BasicsSelected(rs: seq<Resource>, k: nat, id: nat)
    requires k <= |rs|
    ensures Res(id) in Selected(rs, k) <==> BasicSelected(rs, id, k)
  {
    if k > 0 {
      BasicsSelected(rs, k - 1, id);
    }
  }

  /** The list has a link to a functional block exactly when blocks are asked for and the device has
      it, and a link to a resource exactly when the request selects it; its serial numbers are the
      links it begins with. */
  lemma ListIsRight(d: Device, q: Request)
    ensures forall fb, instance ::
      Block(fb, instance) in AllLinks(d, q) <==> q.blocksSelected && DeviceHasBlock(d, fb, instance)
    ensures forall id ::
      Res(id) in AllLinks(d, q) <==>
        (q.filtered && AppSelected(d, id, |d.apps|)) || BasicSelected(d.basics, id, |d.basics|)
    ensures q.serials <= |AllLinks(d, q)|
    ensures forall i :: 0 <= i < |AllLinks(d, q)| ==> (AllLinks(d, q)[i] == SerialNumber <==> i < q.serials)
  {
    AllIs(d, q);
    BlocksOnce(d, |d.apps|);
    ResourcesOnly(d, q);
    hide AllLinks;
    hide Blocks;
    hide Resources;
    var rs, blocks := Serials(q.serials) + Resources(d, q), BlockLinks(Blocks(d, |d.apps|));
    var mine := if q.blocksSelected then blocks else [];
    forall i | 0 <= i < |rs| ensures AllLinks(d, q)[i] == rs[i] && (rs[i] == SerialNumber <==> i < q.serials) {
      assert i >= q.serials ==> rs[i] == Resources(d, q)[i - q.serials] && rs[i] in Resources(d, q);
    }
    assert forall i :: |rs| <= i < |AllLinks(d, q)| ==> AllLinks(d, q)[i] == mine[i - |rs|] && mine[i - |rs|] in blocks;
    forall fb, instance
      ensures Block(fb, instance) in AllLinks(d, q) <==> q.blocksSelected && DeviceHasBlock(d, fb, instance)
    {
      BlockLinksAre(Blocks(d, |d.apps|), fb, instance);
      assert Block(fb, instance) !in rs;
    }
    forall id ensures Res(id) in AllLinks(d, q) <==> Res(id) in Resources(d, q) {
      assert Res(id) !in blocks;
    }
    forall id ensures Res(id) in Resources(d, q) <==>
      (q.filtered && AppSelected(d, id, |d.apps|)) || BasicSelected(d.basics, id, |d.basics|)
    {
      ResourcesAre(d, q, id);
    }
  }

  /** Ids tell the basic resources from one another and from application resources. */
  predicate Identified(d: Device) {
    && (forall i, j :: 0 <= i < j < |d.basics| ==> d.basics[i].id != d.basics[j].id)
    && (forall r, b :: r in d.apps && b in d.basics ==> r.id != b.id)
  }

  /** Ids tell all resources of the device apart. */
  predicate DistinctIds(d: Device) {
    Identified(d) && forall i, j :: 0 <= i < j < |d.apps| ==> d.apps[i].id != d.apps[j].id
  }

  lemma JoinOnce<T>(a: seq<T>, b: seq<T>)
    requires NoRepeats(a) && NoRepeats(b) && forall x :: x in a ==> x !in b
    ensures NoRepeats(a + b)
  {
    var s := a + b;
    forall i, j | 0 <= i < j < |s| ensures s[i] != s[j] {
      assert i < |a| <= j ==> a[i] in a && b[j - |a|] in b;
    }
  }

  lemma {:induction false} AppsOnce(d: Device, k: nat)
    requires k <= |d.apps| && DistinctIds(d)
    ensures NoRepeats(SelectedApps(d, k))
  {
    if k > 0 {
      AppsOnce(d, k - 1);
      AppsSelected(d, k - 1, d.apps[k - 1].id);
    }
  }

  lemma {:induction false} BasicsOnce(d: Device, k: nat)
    requires k <= |d.basics| && DistinctIds(d)
    ensures NoRepeats(Selected(d.basics, k))
  {
    if k > 0 {
      BasicsOnce(d, k - 1);
      BasicsSelected(d.basics, k - 1, d.basics[k - 1].id);
    }
  }

  lemma ResourcesOnce(d: Device, q: Request)
    requires DistinctIds(d)
    ensures NoRepeats(Resources(d, q))
  {
    var apps, basics := if q.filtered then SelectedApps(d, |d.apps|) else [], Selected(d.basics, |d.basics|);
    AppsOnce(d, |d.apps|);
    BasicsOnce(d, |d.basics|);
    ResourcesOnly(d, q);
    forall l | l in apps ensures l !in basics {
      assert l in Resources(d, q);
      AppsSelected(d, |d.apps|, l.id);
      BasicsSelected(d.basics, |d.basics|, l.id);
    }
    JoinOnce(apps, basics);
  }

  /** Behind the serial numbers no block is listed twice, and no link at all when ids tell resources
      apart. */
  lemma LinksOnce(d: Device, q: Request)
    ensures |AllLinks(d, q)| >= q.serials
    ensures forall i, j :: q.serials <= i < j < |AllLinks(d, q)| && AllLinks(d, q)[i].Block? ==>
      AllLinks(d, q)[i] != AllLinks(d, q)[j]
    ensures DistinctIds(d) ==> NoRepeats(AllLinks(d, q)[q.serials..])
  {
    AllIs(d, q);
    BlocksOnce(d, |d.apps|);
    BlockLinksOnce(Blocks(d, |d.apps|));
    ResourcesOnly(d, q);
    var blocks := if q.blocksSelected then BlockLinks(Blocks(d, |d.apps|)) else [];
    var rs := Serials(q.serials) + Resources(d, q);
    var all := AllLinks(d, q);
    forall i | 0 <= i < |rs| ensures !all[i].Block? {
      assert all[i] == rs[i] && rs[i] in rs;
    }
    forall i, j | |rs| <= i < j < |all| ensures all[i] != all[j] {
      assert blocks[i - |rs|] != blocks[j - |rs|];
    }
    if DistinctIds(d) {
      ResourcesOnce(d, q);
      JoinOnce(Resources(d, q), blocks);
      assert all[q.serials..] == Resources(d, q) + blocks;
    }
  }

  /** So a client that asks without serial numbers and follows the pages, of any size, finds each of
      the device's functional blocks, with its instance, exactly once when it asks for blocks, and
      exactly the resources that it selects. */
  lemma FollowFindsEachOnce(d: Device, q: Request, size: pageSize)
    requires WellFormed(d, q) && q.serials == 0
    ensures var found := Follow(d, q, size, None);
      && (forall fb, instance ::
            Block(fb, instance) in found <==> q.blocksSelected && DeviceHasBlock(d, fb, instance))
      && (forall id ::
            Res(id) in found <==>
              (q.filtered && AppSelected(d, id, |d.apps|)) || BasicSelected(d.basics, id, |d.basics|))
      && (forall i, j :: 0 <= i < j < |found| && found[i].Block? ==> found[i] != found[j])
      && (DistinctIds(d) ==> NoRepeats(found))
  {
    hide AllLinks;
    NoSerialsLoseNothing(d, q, size);
    ListIsRight(d, q);
    LinksOnce(d, q);
    hide Follow;
    assert AllLinks(d, q)[0..] == AllLinks(d, q);
  }

  lemma ResourcesOnly(d: Device, q: Request)
    ensures forall l :: l in Resources(d, q) ==> l.Res?
  {
    AppsAreResources(d, |d.apps|);
    BasicsAreResources(d.basics, |d.basics|);
  }

  lemma ResourcesAre(d: Device, q: Request, id: nat)
    ensures Res(id) in Resources(d, q) <==>
      (q.filtered && AppSelected(d, id, |d.apps|)) || BasicSelected(d.basics, id, |d.basics|)
  {
    AppsSelected(d, |d.apps|, id);
    BasicsSelected(d.basics, |d.basics|, id);
  }

  // ---------------------------------------------------------------------------
  // Following the link itself
  // ---------------------------------------------------------------------------

  /** What the resources look like to a request without a filter. */
  function Unfiltered(d: Device): Device {
    d.(apps := seq(|d.apps|, i requires 0 <= i < |d.apps| => d.apps[i].(selected := true)),
       basics := seq(|d.basics|, i requires 0 <= i < |d.basics| => d.basics[i].(selected := true)))
  }

  const PLAIN := Request(false, true, 0)

  /** The target of a next-page link is the bare path with a page number: the query that selected
      the first page is not in it. */
  function FollowLink(d: Device, q: Request, size: pageSize): seq<Link> {
    match PageOf(d, q, size, None)
    case BadRequest => []
    case Links(links, next) => if next.None? then links else links + Follow(Unfiltered(d), PLAIN, size, next)
  }

  lemma {:induction false} BlocksUnfiltered(d: Device, k: nat)
    requires k <= |d.apps|
    ensures Blocks(Unfiltered(d), k) == Blocks(d, k)
  {
    if k > 0 {
      BlocksUnfiltered(d, k - 1);
      var r := d.apps[k - 1];
      if Listed(r, d.index) {
        TypesUnfiltered(Blocks(d, k - 1), r, |r.types|);
      }
    }
  }

  lemma {:induction false} TypesUnfiltered(ps: seq<Pair>, r: Resource, k: nat)
    requires k <= |r.types|
    ensures AddTypes(ps, r.(selected := true), k) == AddTypes(ps, r, k)
  {
    if k > 0 {
      TypesUnfiltered(ps, r, k - 1);
    }
  }

  function BasicLinks(d: Device): seq<Link> {
    seq(|d.basics|, i requires 0 <= i < |d.basics| => Res(d.basics[i].id))
  }

  /** What a request without a filter finds behind its first page. */
  function LaterLinks(d: Device, size: pageSize): seq<Link> {
    var plain := BasicLinks(d) + BlockLinks(Blocks(d, |d.apps|));
    plain[Min(size, |plain|)..]
  }

  lemma {:induction false} AllBasics(d: Device, k: nat)
    requires k <= |d.basics| && forall r :: r in d.basics ==> r.discoverable
    ensures Selected(Unfiltered(d).basics, k) == BasicLinks(d)[..k]
  {
    if k > 0 {
      AllBasics(d, k - 1);
      assert BasicLinks(d)[..k] == BasicLinks(d)[..k - 1] + [BasicLinks(d)[k - 1]];
      assert d.basics[k - 1] in d.basics;
    }
  }

  lemma PlainRest(d: Device, size: pageSize)
    requires WellFormed(d, PLAIN) && forall r :: r in d.basics ==> r.discoverable
    ensures Follow(Unfiltered(d), PLAIN, size, Some(1)) == LaterLinks(d, size)
  {
    var u := Unfiltered(d);
    BlocksUnfiltered(d, |d.apps|);
    AllBasics(d, |d.basics|);
    var plain := BasicLinks(d) + BlockLinks(Blocks(d, |d.apps|));
    assert BasicLinks(d)[..|d.basics|] == BasicLinks(d);
    assert AllLinks(u, PLAIN) == plain;
    assert Total(u, PLAIN) == |plain|;
    NextEntry(size, None);
    if size < |plain| {
      FollowFrom(u, PLAIN, size, Some(1));
    }
  }

  /** Following the links as they are written keeps the filtered list, in terms of what a request
      selects: no match at all; one page; all matches on the first page and no block behind it; or
      a first page that shifts nothing, behind which everything is selected. */
  predicate LinkKeepsList(d: Device, q: Request, size: pageSize) {
    var s, r, n, total := q.serials, |Resources(d, q)|, |Blocks(d, |d.apps|)|, Total(d, q);
    var len := s + r + if q.blocksSelected then n else 0;
    if len == 0 then true
    else if total <= size then len <= total
    else if size >= BASIC_RESOURCES + n then len <= size
    else if size >= BASIC_RESOURCES then q.blocksSelected && s + r == BASIC_RESOURCES
    else
      && (q.blocksSelected || n == 0)
      && (forall i :: size <= i < |d.basics| ==> d.basics[i].selected)
      && (if s < size then s + r == BASIC_RESOURCES else r == BASIC_RESOURCES + 1 - size)
  }

  lemma AllLength(d: Device, q: Request)
    ensures |AllLinks(d, q)| == q.serials + |Resources(d, q)| + if q.blocksSelected then |Blocks(d, |d.apps|)| else 0
  {
  }

  lemma FirstPage(d: Device, q: Request, size: pageSize)
    requires WellFormed(d, q)
    ensures var all, total := AllLinks(d, q), Total(d, q);
      PageOf(d, q, size, None) ==
        if all == [] || total <= size then Links(Slice(all, 0, total), None)
        else Links(Slice(all, 0, PageEnd(d, q, size)), Some(1))
  {
    TotalIsLarge(d, q);
    hide AllLinks;
    hide Total;
    hide Resources;
    assert PageEnd(d, q, size) > 0;
  }

  /** The first page, and the plain list behind it. */
  lemma LinkIs(d: Device, q: Request, size: pageSize)
    requires WellFormed(d, q) && forall r :: r in d.basics ==> r.discoverable
    ensures var all, total := AllLinks(d, q), Total(d, q);
      FollowLink(d, q, size) ==
        if all == [] || total <= size then Slice(all, 0, total)
        else Slice(all, 0, PageEnd(d, q, size)) + LaterLinks(d, size)
  {
    hide PageOf;
    hide PageEnd;
    hide LaterLinks;
    hide Follow;
    hide AllLinks;
    hide Total;
    hide Slice;
    FirstPage(d, q, size);
    PlainRest(d, size);
  }

  lemma SplitEqual(all: seq<Link>, end: nat, rest: seq<Link>)
    ensures Slice(all, 0, end) + rest == all <==> rest == all[Min(end, |all|)..]
  {
    var k := Min(end, |all|);
    assert all == all[..k] + all[k..];
    if Slice(all, 0, end) + rest == all {
      assert (Slice(all, 0, end) + rest)[k..] == rest;
    }
  }

  lemma {:induction false} NotAnApp(d: Device, k: nat, b: Resource)
    requires k <= |d.apps| && Identified(d) && b in d.basics
    ensures Res(b.id) !in SelectedApps(d, k)
  {
    if k > 0 {
      NotAnApp(d, k - 1, b);
      assert d.apps[k - 1] in d.apps;
    }
  }

  /** A basic resource in the list has been selected. */
  lemma ListedIsSelected(d: Device, q: Request, i: nat)
    requires Identified(d) && i < |d.basics| && Res(d.basics[i].id) in Serials(q.serials) + Resources(d, q)
    ensures d.basics[i].selected
  {
    NotAnApp(d, |d.apps|, d.basics[i]);
    BasicsSelected(d.basics, |d.basics|, d.basics[i].id);
  }

  lemma {:induction false} SelectedTail(d: Device, k: nat, m: nat)
    requires k <= m <= |d.basics| && forall r :: r in d.basics ==> r.discoverable
    requires forall i :: k <= i < |d.basics| ==> d.basics[i].selected
    ensures Selected(d.basics, m) == Selected(d.basics, k) + BasicLinks(d)[k..m]
  {
    if k < m {
      SelectedTail(d, k, m - 1);
      assert d.basics[m - 1] in d.basics;
      assert BasicLinks(d)[k..m] == BasicLinks(d)[k..m - 1] + [BasicLinks(d)[m - 1]];
    } else {
      assert BasicLinks(d)[k..m] == [];
    }
  }

  lemma {:induction false} NoBlocksAmong(d: Device, q: Request)
    ensures forall l :: l in Serials(q.serials) + Resources(d, q) ==> !l.Block?
  {
    AppsAreResources(d, |d.apps|);
    BasicsAreResources(d.basics, |d.basics|);
  }

  lemma {:induction false} BasicsAreResources(rs: seq<Resource>, k: nat)
    requires k <= |rs|
    ensures forall l :: l in Selected(rs, k) ==> l.Res?
  {
    if k > 0 {
      BasicsAreResources(rs, k - 1);
    }
  }

  lemma {:induction false} AppsAreResources(d: Device, k: nat)
    requires k <= |d.apps|
    ensures forall l :: l in SelectedApps(d, k) ==> l.Res?
  {
    if k > 0 {
      AppsAreResources(d, k - 1);
    }
  }

  lemma NotShorter(xs: seq<Link>, ys: seq<Link>, bs: seq<Link>, cs: seq<Link>)
    requires (forall l :: l in ys ==> !l.Block?) && forall l :: l in bs ==> l.Block?
    ensures xs + bs == ys + cs ==> |xs| >= |ys|
  {
    assert |xs + bs| == |xs| + |bs| && |ys + cs| == |ys| + |cs|;
    if |xs| < |ys| && bs != [] {
      var k := |xs|;
      assert (ys + cs)[k] == ys[k] && ys[k] in ys;
      assert (xs + bs)[k] == bs[0] && bs[0] in bs;
    }
  }

  /** Lists of resources and blocks agree part by part. */
  lemma PartsAgree(xs: seq<Link>, ys: seq<Link>, bs: seq<Link>, cs: seq<Link>)
    requires forall l :: l in xs || l in ys ==> !l.Block?
    requires forall l :: l in bs || l in cs ==> l.Block?
    ensures xs + bs == ys + cs <==> xs == ys && bs == cs
  {
    NotShorter(xs, ys, bs, cs);
    NotShorter(ys, xs, cs, bs);
    if xs + bs == ys + cs {
      assert xs == (xs + bs)[..|xs|] && ys == (ys + cs)[..|ys|];
      assert bs == (xs + bs)[|xs|..] && cs == (ys + cs)[|ys|..];
    }
  }

  /** A first page that is filled by the serial numbers and basic resources before entry `size`:
      what follows it is the rest of the basic resources when those are selected, and the list has
      no other number of resources. */
  lemma BasicsFollow(d: Device, q: Request, size: pageSize, end: nat)
    requires WellFormed(d, q) && Identified(d) && forall r :: r in d.basics ==> r.discoverable
    requires size < BASIC_RESOURCES && end <= q.serials + |Resources(d, q)|
    ensures (Serials(q.serials) + Resources(d, q))[end..] == BasicLinks(d)[size..] <==>
      && (forall i :: size <= i < |d.basics| ==> d.basics[i].selected)
      && q.serials + |Resources(d, q)| == BASIC_RESOURCES - size + end
  {
    hide SelectedApps;
    var apps := if q.filtered then SelectedApps(d, |d.apps|) else [];
    var rs, rest := Serials(q.serials) + Resources(d, q), BasicLinks(d)[size..];
    assert rs == Serials(q.serials) + apps + Selected(d.basics, |d.basics|);
    hide Resources;
    hide Selected;
    if rs[end..] == rest {
      forall i | size <= i < |d.basics| ensures d.basics[i].selected {
        assert rest[i - size] == Res(d.basics[i].id);
        assert rs[end..][i - size] == rs[end + i - size];
        ListedIsSelected(d, q, i);
      }
      assert |rs[end..]| == |rest|;
    }
    if forall i :: size <= i < |d.basics| ==> d.basics[i].selected {
      SelectedTail(d, size, |d.basics|);
      if |rs| == BASIC_RESOURCES - size + end {
        assert rs == Serials(q.serials) + apps + Selected(d.basics, size) + rest;
      }
    }
  }

  /** The list in two parts: resources, serial numbers among them, and blocks. */
  lemma AllIs(d: Device, q: Request)
    ensures var rs, blocks := Serials(q.serials) + Resources(d, q), BlockLinks(Blocks(d, |d.apps|));
      && AllLinks(d, q) == rs + (if q.blocksSelected then blocks else [])
      && |rs| == q.serials + |Resources(d, q)| && |blocks| == |Blocks(d, |d.apps|)|
      && (forall l :: l in rs ==> !l.Block?) && (forall l :: l in blocks ==> l.Block?)
  {
    NoBlocksAmong(d, q);
  }

  /** A page as long as the basic resources, but not as the plain list. */
  lemma BlocksFollow(d: Device, q: Request, size: pageSize)
    requires WellFormed(d, q)
    requires BASIC_RESOURCES <= size < BASIC_RESOURCES + |Blocks(d, |d.apps|)|
    ensures var all := AllLinks(d, q);
      LaterLinks(d, size) == all[Min(size, |all|)..] <==>
        q.blocksSelected && q.serials + |Resources(d, q)| == BASIC_RESOURCES
  {
    hide AllLinks;
    hide Resources;
    hide Blocks;
    hide BlockLinks;
    hide LaterLinks;
    AllIs(d, q);
    LaterBlocks(d, size);
    BlocksMeet(Serials(q.serials) + Resources(d, q), BlockLinks(Blocks(d, |d.apps|)), q.blocksSelected, size);
  }

  lemma BlocksMeet(rs: seq<Link>, blocks: seq<Link>, shown: bool, size: nat)
    requires (forall l :: l in rs ==> !l.Block?) && forall l :: l in blocks ==> l.Block?
    requires BASIC_RESOURCES <= size < BASIC_RESOURCES + |blocks|
    ensures var all := rs + if shown then blocks else [];
      blocks[size - BASIC_RESOURCES..] == all[Min(size, |all|)..] <==> shown && |rs| == BASIC_RESOURCES
  {
    var mine, rest := if shown then blocks else [], blocks[size - BASIC_RESOURCES..];
    var all := rs + mine;
    if size < |rs| {
      assert all[size..] == rs[size..] + mine;
      assert [] + rest == rest;
      PartsAgree([], rs[size..], rest, mine);
    } else if size <= |all| {
      assert all[size..] == mine[size - |rs|..];
    }
  }

  lemma LaterBlocks(d: Device, size: pageSize)
    requires |d.basics| <= size <= |d.basics| + |Blocks(d, |d.apps|)|
    ensures LaterLinks(d, size) == BlockLinks(Blocks(d, |d.apps|))[size - |d.basics|..]
  {
  }

  lemma LaterParts(d: Device, size: pageSize)
    requires size <= |d.basics|
    ensures LaterLinks(d, size) == BasicLinks(d)[size..] + BlockLinks(Blocks(d, |d.apps|))
  {
  }

  /** A page shorter than the basic resources. */
  lemma BasicsAndBlocksFollow(d: Device, q: Request, size: pageSize)
    requires WellFormed(d, q) && Identified(d) && forall r :: r in d.basics ==> r.discoverable
    requires size < BASIC_RESOURCES
    ensures var all, end, len := AllLinks(d, q), PageEnd(d, q, size), q.serials + |Resources(d, q)|;
      LaterLinks(d, size) == all[Min(end, |all|)..] <==>
        && (q.blocksSelected || Blocks(d, |d.apps|) == [])
        && (forall i :: size <= i < |d.basics| ==> d.basics[i].selected)
        && len == BASIC_RESOURCES - size + end
  {
    hide AllLinks;
    hide Resources;
    hide Blocks;
    hide BlockLinks;
    hide LaterLinks;
    hide Identified;
    var rs, blocks := Serials(q.serials) + Resources(d, q), BlockLinks(Blocks(d, |d.apps|));
    var end, rest := PageEnd(d, q, size), BasicLinks(d)[size..];
    AllIs(d, q);
    LaterParts(d, size);
    PartsFollow(rs, blocks, q.blocksSelected, end, rest);
    if end <= |rs| {
      BasicsFollow(d, q, size, end);
    }
  }

  lemma BasicFirst(all: seq<Link>, rs: seq<Link>, mine: seq<Link>, end: nat, rest: seq<Link>, blocks: seq<Link>)
    requires all == rs + mine && |rs| <= end <= |all| && rest != []
    requires (forall l :: l in rest ==> !l.Block?) && forall l :: l in mine ==> l.Block?
    ensures rest + blocks != all[end..]
  {
    if end < |all| {
      assert all[end..][0] == mine[end - |rs|] && mine[end - |rs|] in mine;
      assert (rest + blocks)[0] == rest[0] && rest[0] in rest;
    }
  }

  lemma PartsFollow(rs: seq<Link>, blocks: seq<Link>, shown: bool, end: nat, rest: seq<Link>)
    requires forall l :: l in rs || l in rest ==> !l.Block?
    requires (forall l :: l in blocks ==> l.Block?) && rest != []
    ensures var all := rs + if shown then blocks else [];
      rest + blocks == all[Min(end, |all|)..] <==>
        end <= |rs| && rs[end..] == rest && (shown || blocks == [])
  {
    var mine := if shown then blocks else [];
    var all := rs + mine;
    if end <= |rs| {
      assert all[end..] == rs[end..] + mine;
      PartsAgree(rest, rs[end..], blocks, mine);
    } else {
      BasicFirst(all, rs, mine, Min(end, |all|), rest, blocks);
    }
  }

  /** Following the links as they are written keeps the filtered list in exactly these cases. */
  lemma LinkForgetsTheFilter(d: Device, q: Request, size: pageSize)
    requires WellFormed(d, q) && Identified(d) && forall r :: r in d.basics ==> r.discoverable
    ensures FollowLink(d, q, size) == AllLinks(d, q) <==> LinkKeepsList(d, q, size)
  {
    LinkIs(d, q, size);
    AllLength(d, q);
    TotalIsLarge(d, q);
    var all, n := AllLinks(d, q), |Blocks(d, |d.apps|)|;
    hide AllLinks;
    hide Total;
    hide Resources;
    hide FollowLink;
    hide LaterLinks;
    if all != [] && Total(d, q) > size {
      SplitEqual(all, PageEnd(d, q, size), LaterLinks(d, size));
      if size >= BASIC_RESOURCES + n {
        NothingLater(d, size);
      } else if size >= BASIC_RESOURCES {
        BlocksFollow(d, q, size);
      } else {
        BasicsAndBlocksFollow(d, q, size);
      }
    }
  }

  lemma NothingLater(d: Device, size: pageSize)
    requires |d.basics| + |Blocks(d, |d.apps|)| <= size
    ensures LaterLinks(d, size) == []
  {
  }

  /** So more matching application resources than fit one page are never all found that way. */
  lemma LinkLosesApps(d: Device, q: Request, size: pageSize)
    requires WellFormed(d, q) && Identified(d) && forall r :: r in d.basics ==> r.discoverable
    requires q.filtered && |SelectedApps(d, |d.apps|)| > size
    ensures FollowLink(d, q, size) != AllLinks(d, q)
  {
    LinkForgetsTheFilter(d, q, size);
    SelectedBounds(d, |d.apps|);
    hide FollowLink;
    hide AllLinks;
    hide SelectedApps;
    if size < BASIC_RESOURCES && forall i :: size <= i < |d.basics| ==> d.basics[i].selected {
      SelectedTail(d, size, |d.basics|);
    }
  }
}
