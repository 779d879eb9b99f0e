/** Which entry a payload object gives: each field from the last item with its key, and from there to
    the telegrams that the entry answers. */
module GroupTableEntries {
  import opened Wrappers
  import opened GroupTables
  import opened GroupTableRuns
  import opened GroupTableReload
  import SMode

  // ---------------------------------------------------------------------------
  // Conversions and flags
  // ---------------------------------------------------------------------------

  /** The low 32 bits, with and without a sign: values that fit are kept. */
  lemma ConversionsAre(v: int)
    ensures -0x8000_0000 <= ToInt32(v) < 0x8000_0000 && (ToInt32(v) - v) % 0x1_0000_0000 == 0
    ensures 0 <= ToUint32(v) < 0x1_0000_0000 && (ToUint32(v) - v) % 0x1_0000_0000 == 0
    ensures -0x8000_0000 <= v < 0x8000_0000 ==> ToInt32(v) == v
    ensures 0 <= v < 0x1_0000_0000 ==> ToUint32(v) == v
  {
    var w := v + 0x8000_0000;
    assert ToInt32(v) - v == -(w / 0x1_0000_0000) * 0x1_0000_0000;
    assert ToUint32(v) - v == -(v / 0x1_0000_0000) * 0x1_0000_0000;
    Multiple(-(w / 0x1_0000_0000));
    Multiple(-(v / 0x1_0000_0000));
  }

  lemma Multiple(q: int)
    ensures q * 0x1_0000_0000 % 0x1_0000_0000 == 0
  {
  }

  function CountOf(codes: seq<int>, code: int): nat {
    multiset(codes)[code]
  }

  /** A listed flag adds its weight each time. */
  lemma {:induction false} FlagsAreCounts(codes: seq<int>)
    ensures Flags(codes) == 8 * CountOf(codes, 1) + 16 * CountOf(codes, 2) + 64 * CountOf(codes, 3) +
      128 * CountOf(codes, 4) + 32 * CountOf(codes, 5)
  {
    if codes == [] {
      assert multiset(codes) == multiset{};
    } else {
      var rest, last := codes[..|codes| - 1], codes[|codes| - 1];
      FlagsAreCounts(rest);
      assert codes == rest + [last];
      forall code: int ensures CountOf(codes, code) == CountOf(rest, code) + Bit(last == code) {
        OneMore(rest, last, code);
      }
      hide CountOf;
    }
  }

  function Bit(c: bool): nat {
    if c then 1 else 0
  }

  lemma OneMore(codes: seq<int>, last: int, code: int)
    ensures CountOf(codes + [last], code) == CountOf(codes, code) + Bit(last == code)
  {
    assert multiset(codes + [last]) == multiset(codes) + multiset{last};
  }

  function Union(codes: seq<int>): nat {
    8 * Bit(1 in codes) + 16 * Bit(2 in codes) + 64 * Bit(3 in codes) + 128 * Bit(4 in codes) + 32 * Bit(5 in codes)
  }

  lemma InIffCounted(codes: seq<int>, code: int)
    ensures code in codes <==> CountOf(codes, code) > 0
  {
    assert code in codes <==> code in multiset(codes);
  }

  predicate ListedOnce(codes: seq<int>) {
    forall code :: 1 <= code <= 5 ==> CountOf(codes, code) <= 1
  }

  /** The flags are those that are listed exactly when none is listed twice. */
  lemma FlagsAreListed(codes: seq<int>)
    ensures Flags(codes) == Union(codes) <==> ListedOnce(codes)
  {
    FlagsAreCounts(codes);
    forall code | 1 <= code <= 5 ensures Bit(code in codes) <= CountOf(codes, code) &&
        (CountOf(codes, code) <= 1 <==> CountOf(codes, code) == Bit(code in codes)) {
      InIffCounted(codes, code);
    }
  }

  lemma UnionBits(codes: seq<int>)
    ensures Union(codes) / 8 % 2 == 1 <==> 1 in codes
    ensures Union(codes) / 16 % 2 == 1 <==> 2 in codes
    ensures Union(codes) / 32 % 2 == 1 <==> 5 in codes
    ensures Union(codes) / 64 % 2 == 1 <==> 3 in codes
    ensures Union(codes) / 128 % 2 == 1 <==> 4 in codes
  {
  }

  /** READ listed twice is WRITE. */
  lemma ReadTwiceIsWrite()
    ensures Flags([1, 1]) == 16 == Flags([2])
  {
    FlagsAreCounts([1, 1]);
    FlagsAreCounts([2]);
  }

  // ---------------------------------------------------------------------------
  // Items
  // ---------------------------------------------------------------------------

  /** The last item of a kind, or -1. */
  function Last(items: seq<Item>, p: Item -> bool): (k: int)
    ensures -1 <= k < |items| && (k >= 0 ==> p(items[k]))
    ensures forall j :: k < j < |items| ==> !p(items[j])
  {
    if items == [] then -1
    else if p(items[|items| - 1]) then |items| - 1
    else Last(items[..|items| - 1], p)
  }

  /** How many items of a kind there are. */
  function Count(items: seq<Item>, p: Item -> bool): nat {
    if items == [] then 0 else Count(items[..|items| - 1], p) + Bit(p(items[|items| - 1]))
  }

  function AnInt(key: int): Item -> bool {
    (x: Item) => x.Int? && x.iname == key
  }

  function AText(key: int): Item -> bool {
    (x: Item) => x.Str? && x.iname == key
  }

  function Numbers(key: int): Item -> bool {
    (x: Item) => x.Ints? && x.iname == key
  }

  function LastInt(items: seq<Item>, key: int): Option<int> {
    var k := Last(items, AnInt(key));
    if k < 0 then None else Some(items[k].v)
  }

  function LastText(items: seq<Item>, key: int): Option<string> {
    var k := Last(items, AText(key));
    if k < 0 then None else Some(items[k].s)
  }

  function LastNumbers(items: seq<Item>, key: int): Option<seq<int>> {
    var k := Last(items, Numbers(key));
    if k < 0 then None else Some(items[k].a)
  }

  function OrElse<T>(x: Option<T>, otherwise: T): T {
    if x.Some? then x.value else otherwise
  }

  lemma Extended(items: seq<Item>, x: Item, p: Item -> bool)
    ensures Last(items + [x], p) == if p(x) then |items| else Last(items, p)
    ensures Count(items + [x], p) == Count(items, p) + Bit(p(x))
  {
    assert (items + [x])[..|items + [x]| - 1] == items;
  }

  lemma NextInt(items: seq<Item>, x: Item, key: int)
    ensures LastInt(items + [x], key) == if x.Int? && x.iname == key then Some(x.v) else LastInt(items, key)
  {
    hide Last;
    Extended(items, x, AnInt(key));
  }

  lemma NextText(items: seq<Item>, x: Item, key: int)
    ensures LastText(items + [x], key) == if x.Str? && x.iname == key then Some(x.s) else LastText(items, key)
  {
    hide Last;
    Extended(items, x, AText(key));
  }

  lemma NextNumbers(items: seq<Item>, x: Item, key: int)
    ensures LastNumbers(items + [x], key) == if x.Ints? && x.iname == key then Some(x.a) else LastNumbers(items, key)
  {
    hide Last;
    Extended(items, x, Numbers(key));
  }

  /** The group addresses are the low 32 bits of the last list of them. */
  predicate AddressesAre(was: seq<uint32>, ga: seq<uint32>, a: Option<seq<int>>) {
    if a.None? then ga == was
    else |ga| == |a.value| && forall j :: 0 <= j < |ga| ==> ga[j] == a.value[j] % 0x1_0000_0000
  }

  /** The id that an object is found by is the first one listed. */
  lemma {:induction false} FirstId(items: seq<Item>, k: nat, i: nat)
    requires k <= i <= |items| && forall j :: k <= j < i ==> !(items[j].Int? && items[j].iname == 0)
    ensures i == |items| ==> FindId(items, k) == -1
    ensures i < |items| && items[i].Int? && items[i].iname == 0 ==> FindId(items, k) == ToInt32(items[i].v)
    decreases i - k
  {
    if k < i {
      FirstId(items, k + 1, i);
    }
  }

  // ---------------------------------------------------------------------------
  // Group objects
  // ---------------------------------------------------------------------------

  /** Flags as a number or as a list. */
  function SomeFlags(): Item -> bool {
    (x: Item) => (x.Int? || x.Ints?) && x.iname == 8
  }

  function LastFlags(items: seq<Item>): Option<Item> {
    var k := Last(items, SomeFlags());
    if k < 0 then None else Some(items[k])
  }

  lemma NextFlags(items: seq<Item>, x: Item)
    ensures LastFlags(items + [x]) == if (x.Int? || x.Ints?) && x.iname == 8 then Some(x) else LastFlags(items)
  {
    hide Last;
    Extended(items, x, SomeFlags());
  }

  predicate FlagsAre(was: int, cflags: int, x: Option<Item>) {
    match x
    case Some(Int(_, v)) => cflags == ToInt32(v)
    case Some(Ints(_, a)) => cflags == Flags(a)
    case _ => cflags == was
  }

  /** The entry after an object has been read into it: the last item with a key counts. */
  predicate ObjectRead(items: seq<Item>, was: Entry, e: Entry) {
    && e.id == (if LastInt(items, 0).Some? then ToInt32(LastInt(items, 0).value) else was.id)
    && e.href == OrElse(LastText(items, 11), was.href)
    && AddressesAre(was.ga, e.ga, LastNumbers(items, 7))
    && FlagsAre(was.cflags, e.cflags, LastFlags(items))
    && e == was.(id := e.id, href := e.href, ga := e.ga, cflags := e.cflags)
  }

  /** What makes an object more than its id, and what a new one must have four of. */
  function MoreThanId(): Item -> bool {
    (x: Item) => x.Str? || x.Ints? || (x.Int? && x.iname == 8)
  }

  function Mandatory(): Item -> bool {
    (x: Item) =>
      || (x.Int? && (x.iname == 0 || x.iname == 8)) || (x.Ints? && (x.iname == 7 || x.iname == 8))
      || (x.Str? && x.iname == 11)
  }

  lemma NextItem(items: seq<Item>, x: Item, was: Entry, e: Entry, r: Reading)
    requires ObjectRead(items, was, e) && r.entry == e
    ensures ObjectRead(items + [x], was, ReadObjectItem(r, x).entry)
  {
    NextInt(items, x, 0);
    NextText(items, x, 11);
    NextNumbers(items, x, 7);
    NextFlags(items, x);
    hide LastInt;
    hide LastText;
    hide LastNumbers;
    hide LastFlags;
    hide ToInt32;
    hide Flags;
  }

  function ObjectReading(was: Entry, items: seq<Item>): Reading {
    ReadItems(Objects, Reading(was, true, 0, false), items)
  }

  lemma NextObject(was: Entry, items: seq<Item>, x: Item)
    ensures ObjectReading(was, items + [x]) == ReadObjectItem(ObjectReading(was, items), x)
  {
    hide ReadObjectItem;
    assert (items + [x])[..|items + [x]| - 1] == items;
  }

  lemma {:induction false} ObjectIsRead(was: Entry, items: seq<Item>)
    ensures ObjectRead(items, was, ObjectReading(was, items).entry)
  {
    hide ObjectRead;
    if items == [] {
      NothingRead(was);
    } else {
      var rest, x := items[..|items| - 1], items[|items| - 1];
      assert items == rest + [x];
      ObjectIsRead(was, rest);
      NextObject(was, rest, x);
      hide ObjectReading;
      NextItem(rest, x, was, ObjectReading(was, rest).entry, ObjectReading(was, rest));
    }
  }

  lemma ObjectItemCounts(r: Reading, x: Item)
    ensures var q := ReadObjectItem(r, x);
      q.idOnly == (r.idOnly && Bit(MoreThanId()(x)) == 0) && q.mandatory == r.mandatory + Bit(Mandatory()(x))
  {
    hide ToInt32;
    hide Flags;
    hide Addresses;
  }

  lemma {:induction false} ObjectIsCounted(was: Entry, items: seq<Item>)
    ensures var r := ObjectReading(was, items);
      (r.idOnly <==> Count(items, MoreThanId()) == 0) && r.mandatory == Count(items, Mandatory())
  {
    if items != [] {
      var rest, x := items[..|items| - 1], items[|items| - 1];
      assert items == rest + [x];
      ObjectIsCounted(was, rest);
      NextObject(was, rest, x);
      ObjectItemCounts(ObjectReading(was, rest), x);
      hide ObjectReading;
      hide ReadObjectItem;
      Extended(rest, x, MoreThanId());
      Extended(rest, x, Mandatory());
    }
  }

  lemma NothingRead(e: Entry)
    ensures ObjectRead([], e, e) && RecipientRead([], e, e)
  {
  }

  // ---------------------------------------------------------------------------
  // Recipients
  // ---------------------------------------------------------------------------

  predicate RecipientRead(items: seq<Item>, was: Entry, e: Entry) {
    && e.ia == (if LastInt(items, 12).Some? then ToInt32(LastInt(items, 12).value) else was.ia)
    && e.grpid == (if LastInt(items, 13).Some? then LastInt(items, 13).value % 0x1_0000_0000 else was.grpid)
    && e.iid == OrElse(LastInt(items, 26), was.iid)
    && e.fid == OrElse(LastInt(items, 25), was.fid)
    && e.path == OrElse(LastText(items, 112), was.path)
    && e.url == OrElse(LastText(items, 10), was.url)
    && e.at == OrElse(LastText(items, 14), was.at)
    && AddressesAre(was.ga, e.ga, LastNumbers(items, 7))
    && e == was.(ia := e.ia, grpid := e.grpid, iid := e.iid, fid := e.fid, path := e.path, url := e.url, at := e.at,
        ga := e.ga)
  }

  function MoreThanRecipientId(): Item -> bool {
    (x: Item) => x.Str? || x.Ints? || (x.Int? && x.iname != 0)
  }

  function MandatoryForRecipient(): Item -> bool {
    (x: Item) => (x.Int? && x.iname == 0) || ((x.Ints? || x.Nil?) && x.iname == 7)
  }

  /** A recipient is named by an individual address, a group number or a URL. */
  function Names(): Item -> bool {
    (x: Item) => (x.Int? && (x.iname == 12 || x.iname == 13)) || (x.Str? && x.iname == 10)
  }

  lemma NextIntFields(items: seq<Item>, x: Item, was: Entry, r: Reading)
    requires RecipientRead(items, was, r.entry) && x.Int?
    ensures RecipientRead(items + [x], was, ReadRecipientItem(r, x).entry)
  {
    NextInt(items, x, 12);
    NextInt(items, x, 13);
    NextInt(items, x, 26);
    NextInt(items, x, 25);
    NextText(items, x, 112);
    NextText(items, x, 10);
    NextText(items, x, 14);
    NextNumbers(items, x, 7);
    hide LastInt;
    hide LastText;
    hide LastNumbers;
    hide ToInt32;
  }

  lemma NextOtherFields(items: seq<Item>, x: Item, was: Entry, r: Reading)
    requires RecipientRead(items, was, r.entry) && !x.Int?
    ensures RecipientRead(items + [x], was, ReadRecipientItem(r, x).entry)
  {
    NextInt(items, x, 12);
    NextInt(items, x, 13);
    NextInt(items, x, 26);
    NextInt(items, x, 25);
    NextText(items, x, 112);
    NextText(items, x, 10);
    NextText(items, x, 14);
    NextNumbers(items, x, 7);
    hide LastInt;
    hide LastText;
    hide LastNumbers;
    hide ToInt32;
  }

  function RecipientReading(was: Entry, items: seq<Item>): Reading {
    ReadItems(Recipients, Reading(was, true, 0, false), items)
  }

  lemma NextRecipient(was: Entry, items: seq<Item>, x: Item)
    ensures RecipientReading(was, items + [x]) == ReadRecipientItem(RecipientReading(was, items), x)
  {
    hide ReadRecipientItem;
    assert (items + [x])[..|items + [x]| - 1] == items;
  }

  lemma {:induction false} RecipientIsRead(was: Entry, items: seq<Item>)
    ensures RecipientRead(items, was, RecipientReading(was, items).entry)
  {
    hide RecipientRead;
    if items == [] {
      NothingRead(was);
    } else {
      var rest, x := items[..|items| - 1], items[|items| - 1];
      assert items == rest + [x];
      RecipientIsRead(was, rest);
      NextRecipient(was, rest, x);
      hide RecipientReading;
      if x.Int? {
        NextIntFields(rest, x, was, RecipientReading(was, rest));
      } else {
        NextOtherFields(rest, x, was, RecipientReading(was, rest));
      }
    }
  }

  lemma RecipientItemCounts(r: Reading, x: Item)
    ensures var q := ReadRecipientItem(r, x);
      && q.idOnly == (r.idOnly && Bit(MoreThanRecipientId()(x)) == 0)
      && q.mandatory == r.mandatory + Bit(MandatoryForRecipient()(x))
      && q.identified == (r.identified || Bit(Names()(x)) == 1)
  {
    hide ToInt32;
    hide Addresses;
  }

  lemma {:induction false} RecipientIsCounted(was: Entry, items: seq<Item>)
    ensures var r := RecipientReading(was, items);
      && (r.idOnly <==> Count(items, MoreThanRecipientId()) == 0)
      && r.mandatory == Count(items, MandatoryForRecipient())
      && (r.identified <==> Count(items, Names()) > 0)
  {
    if items != [] {
      var rest, x := items[..|items| - 1], items[|items| - 1];
      assert items == rest + [x];
      RecipientIsCounted(was, rest);
      NextRecipient(was, rest, x);
      RecipientItemCounts(RecipientReading(was, rest), x);
      hide RecipientReading;
      hide ReadRecipientItem;
      Extended(rest, x, MoreThanRecipientId());
      Extended(rest, x, MandatoryForRecipient());
      Extended(rest, x, Names());
    }
  }

  // ---------------------------------------------------------------------------
  // From the payload to the telegrams
  // ---------------------------------------------------------------------------

  /** No slot has the id that the object names. */
  predicate IsNew(s: slots, items: seq<Item>) {
    forall i :: 0 <= i < MAX_ENTRIES ==> s[i].id != FindId(items, 0)
  }

  function PostedAlone(resources: set<string>, d: Device, items: seq<Item>): Progress {
    PostAll(Objects, resources, d.objects, [Some(items)])
  }

  /** One that is accepted is answered by whether its id was there before. */
  lemma AcceptedAnswer(resources: set<string>, p: Progress, items: seq<Item>)
    requires HasSlot(p.s, items) && p.ok && !p.stopped && !Removes(Objects, p.s, items)
    requires Acceptable(ReadAt(Objects, p.s, items).entry, resources)
    ensures Answer(PostObject(Objects, resources, p, items)) == if IsNew(p.s, items) then Created else Changed
  {
    PostForIs(Objects, resources, p, FindId(items, 0), items);
    hide PostFor;
    hide FindId;
    hide ReadInto;
    hide Acceptable;
    assert IsNew(p.s, items) <==> Find(p.s, FindId(items, 0), 0) == MAX_ENTRIES;
  }

  /** While loading, an object with an entry that the checks accept is stored in its slot, in memory
      and in storage, and created or changed. A new one needs four mandatory items. */
  lemma ObjectIsPosted(resources: set<string>, d: Device, items: seq<Item>)
    requires d.state == Loading && HasSlot(d.objects, items)
    requires IsNew(d.objects, items) ==>
      Count(items, Mandatory()) == 4
    requires Count(items, MoreThanId()) > 0
    requires var e := ObjectReading(d.objects[Target(d.objects, items)], items).entry;
      e.ga != [] && e.cflags != 0 && |e.href| <= 30 && e.href in resources
    ensures var i, after := Target(d.objects, items), Do(resources, d, Post(Objects, [Some(items)]));
      var e := after.objects[i];
      && e == ObjectReading(d.objects[i], items).entry && ObjectRead(items, d.objects[i], e)
      && after.objects == d.objects[i := e] && after.recipients == d.recipients && after.state == Loading
      && after.store == d.store.(entries := d.store.entries[Slot(Objects, i) := e])
      && Answer(PostedAlone(resources, d, items)) == if IsNew(d.objects, items) then Created else Changed
  {
    var i := Target(d.objects, items);
    var p := Progress(d.objects, [], true, false, BadRequest);
    ObjectIsRead(d.objects[i], items);
    ObjectIsCounted(d.objects[i], items);
    assert ReadAt(Objects, d.objects, items) == ObjectReading(d.objects[i], items);
    hide ObjectReading;
    hide ObjectRead;
    hide ReadInto;
    PostOne(Objects, resources, d.objects, items);
    PostObjectIs(Objects, resources, p, items);
    assert !Removes(Objects, d.objects, items);
    AcceptedAnswer(resources, p, items);
    hide PostObject;
    hide PostAll;
    var e := ReadAt(Objects, d.objects, items).entry;
    ApplyOne(d.store, Write(Slot(Objects, i), e));
    assert [] + [Write(Slot(Objects, i), e)] == [Write(Slot(Objects, i), e)];
  }

  /** While loading, an object that names its id only, or is new and not complete, leaves its slot
      free, in memory and in storage; and so does one with an entry that the checks reject, which is
      answered as a bad request. */
  lemma ObjectIsRemoved(resources: set<string>, d: Device, items: seq<Item>)
    requires d.state == Loading && HasSlot(d.objects, items)
    ensures var i, after := Target(d.objects, items), Do(resources, d, Post(Objects, [Some(items)]));
      var e := ObjectReading(d.objects[i], items).entry;
      var removed := Count(items, MoreThanId()) == 0 ||
        (IsNew(d.objects, items) && Count(items, Mandatory()) != 4);
      var bad := e.ga == [] || e.cflags == 0 || |e.href| > 30 || e.href !in resources;
      && (removed || bad ==> after.objects == d.objects[i := FREE] && StoredAt(after.store, Objects, i) == FREE)
      && (!removed && bad ==> Answer(PostedAlone(resources, d, items)) == BadRequest)
  {
    var i := Target(d.objects, items);
    var p := Progress(d.objects, [], true, false, BadRequest);
    ObjectIsCounted(d.objects[i], items);
    assert ReadAt(Objects, d.objects, items) == ObjectReading(d.objects[i], items);
    hide ObjectReading;
    hide ReadInto;
    PostOne(Objects, resources, d.objects, items);
    PostObjectIs(Objects, resources, p, items);
    hide PostObject;
    hide PostAll;
    hide FindId;
    var erase, free := Erase(Slot(Objects, i)), Write(Slot(Objects, i), FREE);
    assert [] + [erase] == [erase] && [] + [erase, free] == [erase] + [free];
    ApplyOne(d.store, erase);
    ApplySnoc(d.store, [erase], free);
  }

  /** An object without an id, or for which there is no slot, is a bad request that changes nothing. */
  lemma ObjectWithoutSlot(resources: set<string>, d: Device, items: seq<Item>)
    requires d.state == Loading && !HasSlot(d.objects, items)
    ensures var after := Do(resources, d, Post(Objects, [Some(items)]));
      after == d && Answer(PostedAlone(resources, d, items)) == BadRequest
  {
    PostOne(Objects, resources, d.objects, items);
    hide PostAll;
    hide FindId;
    hide ReadInto;
    assert PostedAlone(resources, d, items).ops == [];
  }

  /** While loading, a recipient is stored under the id that it was found by. A new one needs its id, its
      group addresses, and a name. */
  lemma RecipientIsPosted(resources: set<string>, d: Device, items: seq<Item>)
    requires d.state == Loading && HasSlot(d.recipients, items)
    requires IsNew(d.recipients, items) ==>
      Count(items, MandatoryForRecipient()) == 2 && Count(items, Names()) > 0
    requires Count(items, MoreThanRecipientId()) > 0
    ensures var i, after := Target(d.recipients, items), Do(resources, d, Post(Recipients, [Some(items)]));
      var e := after.recipients[i];
      && RecipientRead(items, d.recipients[i].(id := FindId(items, 0)), e) && e.id == FindId(items, 0)
      && after.recipients == d.recipients[i := e] && after.objects == d.objects && after.state == Loading
      && after.store == d.store.(entries := d.store.entries[Slot(Recipients, i) := e])
  {
    var i, id := Target(d.recipients, items), FindId(items, 0);
    var p := Progress(d.recipients, [], true, false, BadRequest);
    var was := d.recipients[i].(id := id);
    RecipientIsRead(was, items);
    RecipientIsCounted(was, items);
    assert ReadAt(Recipients, d.recipients, items) == RecipientReading(was, items);
    hide RecipientReading;
    hide ReadInto;
    PostOne(Recipients, resources, d.recipients, items);
    PostObjectIs(Recipients, resources, p, items);
    hide PostObject;
    hide PostAll;
    var e := ReadAt(Recipients, d.recipients, items).entry;
    assert !Removes(Recipients, d.recipients, items);
    ApplyOne(d.store, Write(Slot(Recipients, i), e));
    assert [] + [Write(Slot(Recipients, i), e)] == [Write(Slot(Recipients, i), e)];
    assert e.id == id;
  }

  /** An entry whose flags are a list without repeats is read, written, transmitted and updated as the
      list says. */
  lemma FlagsDecide(items: seq<Item>, was: Entry, e: Entry, codes: seq<int>, i: nat, kind: SMode.Kind,
                    r: SMode.Resources)
    requires ObjectRead(items, was, e) && LastFlags(items) == Some(Ints(8, codes)) && ListedOnce(codes)
    ensures SMode.Due(e, kind, r, SMode.Put(i)) <==>
      e.href in r.put && ((kind == SMode.ValueWrite && 2 in codes) || (kind == SMode.ValueResponse && 4 in codes))
    ensures SMode.Due(e, kind, r, SMode.Get(i)) <==> kind == SMode.ValueRead && 1 in codes && e.href in r.get
    ensures forall scope :: SMode.Due(e, kind, r, SMode.SendResponse(i, scope)) <==>
      kind == SMode.ValueRead && 1 in codes && e.href != "" && (scope == 2 || scope == 5)
    ensures forall scope :: SMode.Due(e, kind, r, SMode.SendWrite(i, scope)) <==>
      SMode.Due(e, kind, r, SMode.Put(i)) && 3 in codes && (scope == 2 || scope == 5)
  {
    FlagsAreListed(codes);
    UnionBits(codes);
    hide Flags;
    hide Union;
    hide LastInt;
    hide LastText;
    hide LastNumbers;
    hide LastFlags;
  }

  /** From the payload to a telegram: an object posted with a list of flags leads to a call exactly if
      its list, its group addresses and its resource say so. */
  lemma PostedObjectAnswers(resources: set<string>, d: Device, items: seq<Item>, codes: seq<int>, ga: uint32,
                            kind: SMode.Kind, r: SMode.Resources, call: SMode.Call)
    requires d.state == Loading && HasSlot(d.objects, items)
    requires IsNew(d.objects, items) ==>
      Count(items, Mandatory()) == 4
    requires Count(items, MoreThanId()) > 0
    requires var e := ObjectReading(d.objects[Target(d.objects, items)], items).entry;
      e.ga != [] && e.cflags != 0 && |e.href| <= 30 && e.href in resources
    requires LastFlags(items) == Some(Ints(8, codes)) && ListedOnce(codes)
    requires "" !in r.put && "" !in r.get && call.slot == Target(d.objects, items)
    ensures var i, objects := Target(d.objects, items), Do(resources, d, Post(Objects, [Some(items)])).objects;
      var e := objects[i];
      call in SMode.Calls(objects, ga, kind, r, 0) <==>
        && e.id > -1 && ga in e.ga && !SMode.Blocked(objects, ga, r, 0, i)
        && match call
          case Put(_) => e.href in r.put &&
            ((kind == SMode.ValueWrite && 2 in codes) || (kind == SMode.ValueResponse && 4 in codes))
          case SendWrite(_, scope) => e.href in r.put && 3 in codes && (scope == 2 || scope == 5) &&
            ((kind == SMode.ValueWrite && 2 in codes) || (kind == SMode.ValueResponse && 4 in codes))
          case Get(_) => kind == SMode.ValueRead && 1 in codes && e.href in r.get
          case SendResponse(_, scope) =>
            kind == SMode.ValueRead && 1 in codes && e.href != "" && (scope == 2 || scope == 5)
  {
    ObjectIsPosted(resources, d, items);
    var i, objects := Target(d.objects, items), Do(resources, d, Post(Objects, [Some(items)])).objects;
    hide Do;
    hide ObjectRead;
    hide ObjectReading;
    FlagsDecide(items, d.objects[i], objects[i], codes, i, kind, r);
    SMode.CallsAre(objects, ga, kind, r, 0, call);
    hide SMode.Calls;
    hide SMode.Blocked;
    hide SMode.Due;
    match call
    case Put(_) => assert call == SMode.Put(i);
    case Get(_) => assert call == SMode.Get(i);
    case SendWrite(_, scope) => assert call == SMode.SendWrite(i, scope);
    case SendResponse(_, scope) => assert call == SMode.SendResponse(i, scope);
  }

  const LOADING := Do(RESOURCES, NEW_DEVICE, LoadEvent(1))

  /** An object for group address 1, with these flags. */
  function NewObject(codes: seq<int>): seq<Item> {
    [Int(0, 1), Str(11, "/a"), Ints(7, [1]), Ints(8, codes)]
  }

  lemma NewObjectRead(codes: seq<int>)
    ensures ObjectReading(FREE, NewObject(codes)) ==
      Reading(FREE.(id := 1, href := "/a", ga := [1], cflags := Flags(codes)), false, 4, false)
  {
    var a, b, c, x := Int(0, 1), Str(11, "/a"), Ints(7, [1]), Ints(8, codes);
    assert ObjectReading(FREE, []) == Reading(FREE, true, 0, false);
    assert [] + [a] == [a] && [a] + [b] == [a, b] && [a, b] + [c] == [a, b, c] && [a, b, c] + [x] == [a, b, c, x];
    NextObject(FREE, [], a);
    NextObject(FREE, [a], b);
    NextObject(FREE, [a, b], c);
    NextObject(FREE, [a, b, c], x);
    hide ObjectReading;
    hide Flags;
  }

  function WithFlags(cflags: int): Entry {
    FREE.(id := 1, href := "/a", ga := [1], cflags := cflags)
  }

  lemma LoadingIsEmpty()
    ensures LOADING.state == Loading && LOADING.objects == AllFree()
  {
  }

  lemma NewObjectPosted(codes: seq<int>)
    requires Flags(codes) != 0
    ensures Do(RESOURCES, LOADING, Post(Objects, [Some(NewObject(codes))])).objects ==
      AllFree()[0 := WithFlags(Flags(codes))]
  {
    LoadingIsEmpty();
    NewObjectRead(codes);
    NewObjectId(codes);
    hide NewObject;
    hide LOADING;
    hide Flags;
    assert Find(AllFree(), 1, 0) == MAX_ENTRIES && Find(AllFree(), -1, 0) == 0;
    hide Find;
    ObjectIsCounted(FREE, NewObject(codes));
    hide ObjectReading;
    hide Do;
    ObjectIsPosted(RESOURCES, LOADING, NewObject(codes));
  }

  lemma NewObjectId(codes: seq<int>)
    ensures FindId(NewObject(codes), 0) == 1
  {
  }

  lemma OneEntryCalls(e: Entry, kind: SMode.Kind, r: SMode.Resources)
    requires e.id > -1 && e.ga == [1] && !SMode.Unresolved(e, r)
    ensures SMode.Calls(AllFree()[0 := e], 1, kind, r, 0) == SMode.CallsAt(e, 0, kind, r)
  {
    var s := AllFree()[0 := e];
    assert SMode.Matching(s[0], 1) && SMode.FindGroup(s, 1, 0) == 0;
    assert SMode.FindGroup(s, 1, 1) == MAX_ENTRIES;
    hide SMode.CallsAt;
    hide SMode.FindGroup;
  }

  lemma WritableCalls(r: SMode.Resources)
    requires "/a" in r.put
    ensures SMode.CallsAt(WithFlags(16), 0, SMode.ValueWrite, r) == [SMode.Put(0)]
    ensures SMode.CallsAt(WithFlags(16), 0, SMode.ValueRead, r) == []
  {
    assert [SMode.Put(0)] + [] == [SMode.Put(0)];
  }

  /** An object posted as writable is overwritten by a "w" telegram and answers no "r". One that is
      listed as readable twice does just the same. */
  lemma ReadTwiceIsOverwritten(codes: seq<int>)
    requires codes == [2] || codes == [1, 1]
    ensures var objects := Do(RESOURCES, LOADING, Post(Objects, [Some(NewObject(codes))])).objects;
      var r := SMode.Resources({"/a"}, {"/a"}, {"/a"});
      && SMode.Calls(objects, 1, SMode.ValueWrite, r, 0) == [SMode.Put(0)]
      && SMode.Calls(objects, 1, SMode.ValueRead, r, 0) == []
  {
    var r := SMode.Resources({"/a"}, {"/a"}, {"/a"});
    ReadTwiceIsWrite();
    NewObjectPosted(codes);
    hide Flags;
    hide Do;
    hide SMode.Calls;
    hide SMode.CallsAt;
    hide NewObject;
    OneEntryCalls(WithFlags(16), SMode.ValueWrite, r);
    OneEntryCalls(WithFlags(16), SMode.ValueRead, r);
    WritableCalls(r);
  }
}
