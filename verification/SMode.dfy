/** S-mode: telegrams go to the multicast address of a group address, devices subscribe to the
    addresses of the group addresses they listen to, and a telegram that arrives is handed to the
    entries with its group address. */
module SMode {
  import opened Wrappers
  import opened GroupTables
  import GroupTableRuns
  import GroupTableIds

  /** The bit f (a power of two) of an entry's flags. */
  predicate HasFlag(cflags: int, f: int)
    requires f > 0
  {
    cflags / f % 2 == 1
  }

  // ---------------------------------------------------------------------------
  // Multicast addresses
  // ---------------------------------------------------------------------------

  function Byte(v: int, weight: int): int
    requires weight > 0
  {
    v / weight % 0x100
  }

  /** ff3s:30:fd..: the scope, 40 bits of the installation id, and the group number. */
  function Address(group: uint32, iid: int, scope: nat): seq<int> {
    [0xff, (0x30 + scope) % 0x100, 0, 0x30,
     0xfd, Byte(iid, 0x1_0000_0000), Byte(iid, 0x100_0000), Byte(iid, 0x1_0000), Byte(iid, 0x100),
     Byte(iid, 1), 0, 0,
     Byte(group, 0x100_0000), Byte(group, 0x1_0000), Byte(group, 0x100), Byte(group, 1)]
  }

  lemma FourBytes(v: uint32)
    ensures v == ((Byte(v, 0x100_0000) * 0x100 + Byte(v, 0x1_0000)) * 0x100 + Byte(v, 0x100)) * 0x100 + Byte(v, 1)
  {
    var a := v / 0x100;
    var b := a / 0x100;
    assert b == v / 0x1_0000;
    assert b / 0x100 == v / 0x100_0000 < 0x100;
  }

  function Prefix(iid: int): int {
    iid % 0x100_0000_0000
  }

  lemma FiveBytes(v: int)
    ensures Prefix(v) ==
      (((Byte(v, 0x1_0000_0000) * 0x100 + Byte(v, 0x100_0000)) * 0x100 + Byte(v, 0x1_0000)) * 0x100 +
        Byte(v, 0x100)) * 0x100 + Byte(v, 1)
  {
    var a := v / 0x100;
    var b := a / 0x100;
    var c := b / 0x100;
    var d := c / 0x100;
    assert b == v / 0x1_0000 && c == v / 0x100_0000 && d == v / 0x1_0000_0000;
    var rest := (((d % 0x100 * 0x100 + c % 0x100) * 0x100 + b % 0x100) * 0x100 + a % 0x100) * 0x100 + v % 0x100;
    assert v == (d / 0x100) * 0x100_0000_0000 + rest;
    assert 0 <= rest < 0x100_0000_0000;
  }

  /** Two addresses are equal exactly when the groups, the scopes and the low 40 bits of the
      installation ids are. */
  lemma AddressIsInjective(g: uint32, h: uint32, i: int, j: int, s: nat, t: nat)
    requires s < 16 && t < 16
    ensures Address(g, i, s) == Address(h, j, t) <==> g == h && Prefix(i) == Prefix(j) && s == t
  {
    var a, b := Address(g, i, s), Address(h, j, t);
    if a == b {
      assert a[1] == b[1];
      assert a[5] == b[5] && a[6] == b[6] && a[7] == b[7] && a[8] == b[8] && a[9] == b[9];
      assert a[12] == b[12] && a[13] == b[13] && a[14] == b[14] && a[15] == b[15];
      FourBytes(g);
      FourBytes(h);
      FiveBytes(i);
      FiveBytes(j);
    }
    if Prefix(i) == Prefix(j) {
      SamePrefix(i, j);
    }
  }

  /** The address byte by byte: the installation id and the group number are big-endian. */
  lemma AddressIs(group: uint32, iid: int, scope: nat)
    requires scope < 16
    ensures var a := Address(group, iid, scope);
      && |a| == 16 && (forall k :: 0 <= k < 16 ==> 0 <= a[k] < 256)
      && a[..5] == [0xff, 0x30 + scope, 0, 0x30, 0xfd] && a[10] == a[11] == 0
      && (((a[5] * 256 + a[6]) * 256 + a[7]) * 256 + a[8]) * 256 + a[9] == iid % 0x100_0000_0000
      && ((a[12] * 256 + a[13]) * 256 + a[14]) * 256 + a[15] == group
  {
    FourBytes(group);
    FiveBytes(iid);
  }

  lemma SamePrefix(i: int, j: int)
    requires Prefix(i) == Prefix(j)
    ensures Byte(i, 0x1_0000_0000) == Byte(j, 0x1_0000_0000) && Byte(i, 0x100_0000) == Byte(j, 0x100_0000)
    ensures Byte(i, 0x1_0000) == Byte(j, 0x1_0000) && Byte(i, 0x100) == Byte(j, 0x100) && Byte(i, 1) == Byte(j, 1)
  {
    FiveBytes(i);
    FiveBytes(j);
  }

  // ---------------------------------------------------------------------------
  // Subscribing and sending
  // ---------------------------------------------------------------------------

  predicate Listens(e: Entry) {
    HasFlag(e.cflags, WRITE) || HasFlag(e.cflags, UPDATE) || HasFlag(e.cflags, READ)
  }

  /** The group number of the first entry from k on that has the group address, or 0. */
  function FindGrpid(s: slots, ga: uint32, k: nat): uint32
    requires k <= MAX_ENTRIES
    decreases MAX_ENTRIES - k
  {
    if k == MAX_ENTRIES then 0 else if ga in s[k].ga then s[k].grpid else FindGrpid(s, ga, k + 1)
  }

  predicate HasGrpid(s: slots) {
    exists i :: 0 <= i < MAX_ENTRIES && s[i].grpid > 0
  }

  /** The group a subscription for a group address is made for, 0 for none. */
  function GroupFor(publishers: slots, ga: uint32): uint32 {
    if HasGrpid(publishers) then FindGrpid(publishers, ga, 0) else ga
  }

  /** Without publisher groups even group address 0 is subscribed to. */
  predicate Wanted(publishers: slots, ga: uint32) {
    HasGrpid(publishers) ==> GroupFor(publishers, ga) > 0
  }

  function BothScopes(group: uint32, iid: int): seq<seq<int>> {
    [Address(group, iid, 2), Address(group, iid, 5)]
  }

  function EntrySubscriptions(publishers: slots, e: Entry, iid: int, k: nat): seq<seq<int>>
    requires k <= |e.ga|
  {
    if k == 0 then []
    else
      EntrySubscriptions(publishers, e, iid, k - 1)
      + if Wanted(publishers, e.ga[k - 1]) then BothScopes(GroupFor(publishers, e.ga[k - 1]), iid) else []
  }

  /** The addresses subscribed to for the first k group objects. */
  function Subscriptions(objects: slots, publishers: slots, iid: int, k: nat): seq<seq<int>>
    requires k <= MAX_ENTRIES
  {
    if k == 0 then []
    else
      Subscriptions(objects, publishers, iid, k - 1)
      + if Listens(objects[k - 1]) then EntrySubscriptions(publishers, objects[k - 1], iid, |objects[k - 1].ga|) else []
  }

  method FindGroupNumber(table: array<Entry>, ga: uint32) returns (group: uint32)
    requires table.Length == MAX_ENTRIES
    ensures group == FindGrpid(table[..], ga, 0)
  {
    var index := 0;
    while index < MAX_ENTRIES
      invariant index <= MAX_ENTRIES && FindGrpid(table[..], ga, 0) == FindGrpid(table[..], ga, index)
    {
      if ga in table[index].ga {
        return table[index].grpid;
      }
      index := index + 1;
    }
    return 0;
  }

  method FindAnyGrpid(table: array<Entry>) returns (found: bool)
    requires table.Length == MAX_ENTRIES
    ensures found <==> HasGrpid(table[..])
  {
    for index := 0 to MAX_ENTRIES
      invariant forall i :: 0 <= i < index ==> table[..][i].grpid == 0
    {
      if table[index].grpid > 0 {
        assert table[..][index].grpid > 0;
        return true;
      }
    }
    return false;
  }

  /** oc_register_group_multicasts */
  method RegisterGroupMulticasts(objects: array<Entry>, publishers: array<Entry>, iid: int)
    returns (subscribed: seq<seq<int>>)
    requires objects.Length == MAX_ENTRIES && publishers.Length == MAX_ENTRIES
    ensures subscribed == Subscriptions(objects[..], publishers[..], iid, MAX_ENTRIES)
  {
    var pubEntry := FindAnyGrpid(publishers);
    subscribed := [];
    for index := 0 to MAX_ENTRIES
      invariant subscribed == Subscriptions(objects[..], publishers[..], iid, index)
    {
      var e := objects[index];
      if Listens(e) {
        var more := SubscribeEntry(publishers, pubEntry, e, iid);
        subscribed := subscribed + more;
      }
    }
  }

  method SubscribeEntry(publishers: array<Entry>, pubEntry: bool, e: Entry, iid: int)
    returns (subscribed: seq<seq<int>>)
    requires publishers.Length == MAX_ENTRIES && pubEntry == HasGrpid(publishers[..])
    ensures subscribed == EntrySubscriptions(publishers[..], e, iid, |e.ga|)
  {
    subscribed := [];
    for i := 0 to |e.ga|
      invariant subscribed == EntrySubscriptions(publishers[..], e, iid, i)
    {
      var group := e.ga[i];
      if pubEntry {
        group := FindGroupNumber(publishers, e.ga[i]);
      }
      if !pubEntry || group > 0 {
        subscribed := subscribed + BothScopes(group, iid);
      }
    }
  }

  lemma {:induction false} EntrySubscribed(publishers: slots, e: Entry, iid: int, k: nat, group: uint32, scope: nat)
    requires k <= |e.ga| && (scope == 2 || scope == 5)
    ensures Address(group, iid, scope) in EntrySubscriptions(publishers, e, iid, k)
      <==> exists j :: 0 <= j < k && Wanted(publishers, e.ga[j]) && GroupFor(publishers, e.ga[j]) == group
  {
    if k > 0 {
      EntrySubscribed(publishers, e, iid, k - 1, group, scope);
      var g := GroupFor(publishers, e.ga[k - 1]);
      AddressIsInjective(group, g, iid, iid, scope, 2);
      AddressIsInjective(group, g, iid, iid, scope, 5);
    }
  }

  /** An entry that is read, written or updated. */
  predicate Receiver(e: Entry) {
    e.cflags / 8 % 2 == 1 || e.cflags / 16 % 2 == 1 || e.cflags / 128 % 2 == 1
  }

  /** A group object that receives on a group. */
  ghost predicate ListensTo(publishers: slots, e: Entry, group: uint32) {
    Receiver(e) && exists j :: 0 <= j < |e.ga| && Wanted(publishers, e.ga[j]) && GroupFor(publishers, e.ga[j]) == group
  }

  lemma {:induction false} Subscribed(objects: slots, publishers: slots, iid: int, k: nat, group: uint32, scope: nat)
    requires k <= MAX_ENTRIES && (scope == 2 || scope == 5)
    ensures Address(group, iid, scope) in Subscriptions(objects, publishers, iid, k)
      <==> exists i :: 0 <= i < k && ListensTo(publishers, objects[i], group)
  {
    if k > 0 {
      Subscribed(objects, publishers, iid, k - 1, group, scope);
      EntrySubscribed(publishers, objects[k - 1], iid, |objects[k - 1].ga|, group, scope);
    }
  }

  /** All addresses subscribed to carry the device's own installation id. */
  lemma {:induction false} EntryPrefix(publishers: slots, e: Entry, iid: int, k: nat, a: seq<int>)
    requires k <= |e.ga| && a in EntrySubscriptions(publishers, e, iid, k)
    ensures exists g: uint32 :: a == Address(g, iid, 2) || a == Address(g, iid, 5)
  {
    if a in EntrySubscriptions(publishers, e, iid, k - 1) {
      EntryPrefix(publishers, e, iid, k - 1, a);
    } else {
      var g := GroupFor(publishers, e.ga[k - 1]);
      assert a in BothScopes(g, iid);
    }
  }

  lemma {:induction false} OwnPrefix(objects: slots, publishers: slots, iid: int, k: nat, a: seq<int>)
    requires k <= MAX_ENTRIES && a in Subscriptions(objects, publishers, iid, k)
    ensures exists g: uint32 :: a == Address(g, iid, 2) || a == Address(g, iid, 5)
  {
    if a in Subscriptions(objects, publishers, iid, k - 1) {
      OwnPrefix(objects, publishers, iid, k - 1, a);
    } else {
      EntryPrefix(publishers, objects[k - 1], iid, |objects[k - 1].ga|, a);
    }
  }

  /** The group that a telegram for a group address is sent to. */
  function Target(recipients: slots, ga: uint32): uint32 {
    var group := FindGrpid(recipients, ga, 0);
    if group > 0 then group else ga
  }

  /** A telegram arrives exactly at the devices that share the low 40 bits of the installation id
      and have a group object that receives on the telegram's group. */
  lemma Arrives(recipients: slots, ga: uint32, sender: int, objects: slots, publishers: slots, receiver: int,
          scope: nat)
    requires scope == 2 || scope == 5
    ensures var a := Address(Target(recipients, ga), sender, scope);
      a in Subscriptions(objects, publishers, receiver, MAX_ENTRIES) <==>
      Prefix(sender) == Prefix(receiver)
      && exists i :: 0 <= i < MAX_ENTRIES && ListensTo(publishers, objects[i], Target(recipients, ga))
  {
    var group := Target(recipients, ga);
    var a := Address(group, sender, scope);
    AddressIsInjective(group, group, sender, receiver, scope, scope);
    if Prefix(sender) == Prefix(receiver) {
      Subscribed(objects, publishers, receiver, MAX_ENTRIES, group, scope);
    }
    if a in Subscriptions(objects, publishers, receiver, MAX_ENTRIES) {
      OwnPrefix(objects, publishers, receiver, MAX_ENTRIES, a);
      var g: uint32 :| a == Address(g, receiver, 2) || a == Address(g, receiver, 5);
      AddressIsInjective(group, g, sender, receiver, scope, 2);
      AddressIsInjective(group, g, sender, receiver, scope, 5);
    }
  }

  predicate Receives(e: Entry, ga: uint32) {
    Receiver(e) && ga in e.ga
  }

  lemma {:induction false} FirstGrpid(s: slots, ga: uint32, k: nat, i: nat)
    requires k <= i < MAX_ENTRIES && ga in s[i].ga && forall j :: k <= j < i ==> ga !in s[j].ga
    ensures FindGrpid(s, ga, k) == s[i].grpid
    decreases MAX_ENTRIES - k
  {
    if k < i {
      FirstGrpid(s, ga, k + 1, i);
    }
  }

  lemma {:induction false} NoGrpid(s: slots, ga: uint32, k: nat)
    requires k <= MAX_ENTRIES && forall j :: k <= j < MAX_ENTRIES && ga in s[j].ga ==> s[j].grpid == 0
    ensures FindGrpid(s, ga, k) == 0
    decreases MAX_ENTRIES - k
  {
    if k < MAX_ENTRIES && ga !in s[k].ga {
      NoGrpid(s, ga, k + 1);
    }
  }

  /** A telegram goes to the group of the first recipient entry that has the group address, and to the
      group address itself if that has none or there is no such entry. */
  lemma TargetIs(recipients: slots, ga: uint32, i: nat)
    requires i <= MAX_ENTRIES && forall j :: 0 <= j < i ==> ga !in recipients[j].ga
    ensures i < MAX_ENTRIES && ga in recipients[i].ga && recipients[i].grpid > 0 ==>
      Target(recipients, ga) == recipients[i].grpid
    ensures i == MAX_ENTRIES || (ga in recipients[i].ga && recipients[i].grpid == 0) ==> Target(recipients, ga) == ga
  {
    if i == MAX_ENTRIES {
      NoGrpid(recipients, ga, 0);
    } else if ga in recipients[i].ga {
      FirstGrpid(recipients, ga, 0, i);
    }
  }

  /** A group address is subscribed to as itself while no publisher has a group number, and otherwise
      as the group of the first publisher entry that has it, if that is a group. */
  lemma GroupForIs(publishers: slots, ga: uint32, i: nat)
    requires i <= MAX_ENTRIES && forall j :: 0 <= j < i ==> ga !in publishers[j].ga
    ensures (forall j :: 0 <= j < MAX_ENTRIES ==> publishers[j].grpid == 0) ==>
      Wanted(publishers, ga) && GroupFor(publishers, ga) == ga
    ensures HasGrpid(publishers) && i == MAX_ENTRIES ==> !Wanted(publishers, ga)
    ensures HasGrpid(publishers) && i < MAX_ENTRIES && ga in publishers[i].ga ==>
      GroupFor(publishers, ga) == publishers[i].grpid && (Wanted(publishers, ga) <==> publishers[i].grpid > 0)
  {
    if i == MAX_ENTRIES {
      NoGrpid(publishers, ga, 0);
    } else if ga in publishers[i].ga {
      FirstGrpid(publishers, ga, 0, i);
    }
  }

  /** Without group numbers in either table: exactly at the devices with a group object for the
      group address that is read, written or updated. */
  lemma ArrivesByAddress(recipients: slots, ga: uint32, sender: int, objects: slots, publishers: slots, receiver: int,
          scope: nat)
    requires (scope == 2 || scope == 5) && !HasGrpid(recipients) && !HasGrpid(publishers)
    ensures Address(Target(recipients, ga), sender, scope) in Subscriptions(objects, publishers, receiver, MAX_ENTRIES)
      <==> Prefix(sender) == Prefix(receiver) && exists i :: 0 <= i < MAX_ENTRIES && Receives(objects[i], ga)
  {
    Arrives(recipients, ga, sender, objects, publishers, receiver, scope);
    NoGrpid(recipients, ga, 0);
    forall i | 0 <= i < MAX_ENTRIES ensures ListensTo(publishers, objects[i], ga) <==> Receives(objects[i], ga) {
      if ga in objects[i].ga {
        var j :| 0 <= j < |objects[i].ga| && objects[i].ga[j] == ga;
        assert Wanted(publishers, objects[i].ga[j]) && GroupFor(publishers, objects[i].ga[j]) == ga;
      }
    }
  }

  /** The first slot from k on with this href. */
  function FindUrl(s: slots, url: string, k: nat): (i: nat)
    requires k <= MAX_ENTRIES
    ensures k <= i <= MAX_ENTRIES && (i < MAX_ENTRIES ==> s[i].href == url)
    ensures forall j :: k <= j < i ==> s[j].href != url
    decreases MAX_ENTRIES - k
  {
    if k == MAX_ENTRIES || s[k].href == url then k else FindUrl(s, url, k + 1)
  }

  /** Whether an update of a resource is sent on behalf of this entry. */
  predicate Sends(e: Entry, url: string, check: bool) {
    e.href == url && (check ==> e.cflags / 64 % 2 == 1) && e.ga != []
  }

  /** The telegrams sent for a resource: for each of its entries, to the first group address. */
  function Telegrams(objects: slots, recipients: slots, url: string, check: bool, iid: int, scope: nat,
          k: nat): seq<seq<int>>
    requires k <= MAX_ENTRIES
    decreases MAX_ENTRIES - k
  {
    var i := FindUrl(objects, url, k);
    if i == MAX_ENTRIES then []
    else
      TelegramsOf(objects[i], recipients, url, check, iid, scope)
      + Telegrams(objects, recipients, url, check, iid, scope, i + 1)
  }

  method FindIndexByUrl(objects: array<Entry>, url: string, from: nat) returns (i: nat)
    requires objects.Length == MAX_ENTRIES && from <= MAX_ENTRIES
    ensures i == FindUrl(objects[..], url, from)
  {
    i := from;
    while i < MAX_ENTRIES
      invariant from <= i <= MAX_ENTRIES && FindUrl(objects[..], url, from) == FindUrl(objects[..], url, i)
    {
      if objects[i].href == url {
        return;
      }
      i := i + 1;
    }
  }

  /** The telegrams for one entry. */
  function TelegramsOf(e: Entry, recipients: slots, url: string, check: bool, iid: int, scope: nat): seq<seq<int>> {
    if e.href == url && (!check || HasFlag(e.cflags, TRANSMISSION)) && e.ga != [] then
      [Address(Target(recipients, e.ga[0]), iid, scope)]
    else []
  }

  method SendFor(e: Entry, recipients: array<Entry>, url: string, check: bool, iid: int, scope: nat)
    returns (sent: seq<seq<int>>)
    requires recipients.Length == MAX_ENTRIES && e.href == url
    ensures sent == TelegramsOf(e, recipients[..], url, check, iid, scope)
  {
    if (!check || HasFlag(e.cflags, TRANSMISSION)) && |e.ga| > 0 {
      var group := FindGroupNumber(recipients, e.ga[0]);
      if group == 0 {
        group := e.ga[0];
      }
      return [Address(group, iid, scope)];
    }
    return [];
  }

  /** The multicast part of oc_do_s_mode_with_scope_and_check. */
  method SendTelegrams(objects: array<Entry>, recipients: array<Entry>, url: string, check: bool, iid: int, scope: nat)
    returns (sent: seq<seq<int>>)
    requires objects.Length == MAX_ENTRIES && recipients.Length == MAX_ENTRIES
    ensures sent == Telegrams(objects[..], recipients[..], url, check, iid, scope, 0)
  {
    hide Telegrams;
    hide TelegramsOf;
    hide FindUrl;
    sent := [];
    var index := FindIndexByUrl(objects, url, 0);
    ghost var from: nat, s, t := 0, objects[..], recipients[..];
    ghost var all := Telegrams(s, t, url, check, iid, scope, 0);
    while index < MAX_ENTRIES
      invariant from <= MAX_ENTRIES && index == FindUrl(s, url, from)
      invariant all == sent + Telegrams(s, t, url, check, iid, scope, from)
      decreases MAX_ENTRIES - index
    {
      var more := SendFor(objects[index], recipients, url, check, iid, scope);
      NextTelegrams(s, t, url, check, iid, scope, from, sent, all);
      sent := sent + more;
      from := index + 1;
      index := FindIndexByUrl(objects, url, index + 1);
    }
    LastTelegrams(s, t, url, check, iid, scope, from);
  }

  lemma LastTelegrams(s: slots, t: slots, url: string, check: bool, iid: int, scope: nat, k: nat)
    requires k <= MAX_ENTRIES && FindUrl(s, url, k) == MAX_ENTRIES
    ensures Telegrams(s, t, url, check, iid, scope, k) == []
  {
  }

  lemma NextTelegrams(s: slots, t: slots, url: string, check: bool, iid: int, scope: nat, k: nat, sent: seq<seq<int>>,
          all: seq<seq<int>>)
    requires k <= MAX_ENTRIES && FindUrl(s, url, k) < MAX_ENTRIES
    requires all == sent + Telegrams(s, t, url, check, iid, scope, k)
    ensures var i := FindUrl(s, url, k);
      all == sent + TelegramsOf(s[i], t, url, check, iid, scope) + Telegrams(s, t, url, check, iid, scope, i + 1)
  {
    var i := FindUrl(s, url, k);
    Assoc(sent, TelegramsOf(s[i], t, url, check, iid, scope), Telegrams(s, t, url, check, iid, scope, i + 1));
  }

  predicate SentBy(e: Entry, recipients: slots, url: string, check: bool, iid: int, scope: nat, a: seq<int>) {
    a in TelegramsOf(e, recipients, url, check, iid, scope)
  }

  lemma SentByIs(e: Entry, recipients: slots, url: string, check: bool, iid: int, scope: nat, a: seq<int>)
    ensures SentBy(e, recipients, url, check, iid, scope, a) <==>
      Sends(e, url, check) && a == Address(Target(recipients, e.ga[0]), iid, scope)
  {
    hide Address;
    hide Target;
  }

  lemma NotSent(e: Entry, recipients: slots, url: string, check: bool, iid: int, scope: nat, a: seq<int>)
    requires e.href != url
    ensures !SentBy(e, recipients, url, check, iid, scope, a)
  {
  }

  /** Every entry of the resource sends, wherever it is in the table. */
  lemma {:induction false} TelegramsAre(objects: slots, recipients: slots, url: string, check: bool, iid: int,
          scope: nat, k: nat, a: seq<int>)
    requires k <= MAX_ENTRIES
    ensures a in Telegrams(objects, recipients, url, check, iid, scope, k)
      <==> exists i :: k <= i < MAX_ENTRIES && SentBy(objects[i], recipients, url, check, iid, scope, a)
    decreases MAX_ENTRIES - k
  {
    hide TelegramsOf;
    var i := FindUrl(objects, url, k);
    forall j | k <= j < i ensures !SentBy(objects[j], recipients, url, check, iid, scope, a) {
      NotSent(objects[j], recipients, url, check, iid, scope, a);
    }
    if i < MAX_ENTRIES {
      TelegramsAre(objects, recipients, url, check, iid, scope, i + 1, a);
      var rest := Telegrams(objects, recipients, url, check, iid, scope, i + 1);
      assert a in Telegrams(objects, recipients, url, check, iid, scope, k) <==>
        SentBy(objects[i], recipients, url, check, iid, scope, a) || a in rest;
    }
  }

  ghost predicate SomeArrives(sent: seq<seq<int>>, subscribed: seq<seq<int>>) {
    exists a :: a in sent && a in subscribed
  }

  /** From one device to another: an update of a resource reaches a device exactly when some entry
      of the resource is sent, and the other device receives on its first group address. */
  lemma UpdateArrives(objects: slots, recipients: slots, url: string, check: bool, sender: int,
                      others: slots, publishers: slots, receiver: int, scope: nat)
    requires (scope == 2 || scope == 5) && !HasGrpid(recipients) && !HasGrpid(publishers)
    ensures SomeArrives(Telegrams(objects, recipients, url, check, sender, scope, 0),
      Subscriptions(others, publishers, receiver, MAX_ENTRIES)) <==>
      Prefix(sender) == Prefix(receiver)
      && exists i, j :: 0 <= i < MAX_ENTRIES && 0 <= j < MAX_ENTRIES &&
                        Sends(objects[i], url, check) && Receives(others[j], objects[i].ga[0])
  {
    hide Telegrams;
    hide TelegramsOf;
    hide SentBy;
    hide Receives;
    hide Subscriptions;
    hide Address;
    hide Target;
    var sent := Telegrams(objects, recipients, url, check, sender, scope, 0);
    var subscribed := Subscriptions(others, publishers, receiver, MAX_ENTRIES);
    if a :| a in sent && a in subscribed {
      TelegramsAre(objects, recipients, url, check, sender, scope, 0, a);
      var i :| 0 <= i < MAX_ENTRIES && SentBy(objects[i], recipients, url, check, sender, scope, a);
      SentByIs(objects[i], recipients, url, check, sender, scope, a);
      ArrivesByAddress(recipients, objects[i].ga[0], sender, others, publishers, receiver, scope);
    }
    if Prefix(sender) == Prefix(receiver) {
      if i, j :| 0 <= i < MAX_ENTRIES && 0 <= j < MAX_ENTRIES &&
                 Sends(objects[i], url, check) && Receives(others[j], objects[i].ga[0]) {
        var a := Address(Target(recipients, objects[i].ga[0]), sender, scope);
        SentByIs(objects[i], recipients, url, check, sender, scope, a);
        TelegramsAre(objects, recipients, url, check, sender, scope, 0, a);
        ArrivesByAddress(recipients, objects[i].ga[0], sender, others, publishers, receiver, scope);
      }
    }
  }

  // ---------------------------------------------------------------------------
  // Receiving
  // ---------------------------------------------------------------------------

  /** A used group object with the group address. */
  predicate Matching(e: Entry, ga: uint32) {
    e.id > -1 && ga in e.ga
  }

  function FindGroup(s: slots, ga: uint32, k: nat): (i: nat)
    requires k <= MAX_ENTRIES
    ensures k <= i <= MAX_ENTRIES && (i < MAX_ENTRIES ==> Matching(s[i], ga))
    ensures forall j :: k <= j < i ==> !Matching(s[j], ga)
    decreases MAX_ENTRIES - k
  {
    if k == MAX_ENTRIES || Matching(s[k], ga) then k else FindGroup(s, ga, k + 1)
  }

  /** The kind of a telegram: "w", "a" (or "rp"), "r", and any other text. */
  datatype Kind = ValueWrite | ValueResponse | ValueRead | Unknown

  /** What a telegram leads to: calls of an entry's resource, and telegrams sent for it. */
  datatype Call =
    | Put(slot: nat)
    | Get(slot: nat)
    | SendWrite(slot: nat, scope: nat)
    | SendResponse(slot: nat, scope: nat)

  /** The device's resources, and which of them have a PUT and a GET handler. */
  datatype Resources = Resources(known: set<string>, put: set<string>, get: set<string>)

  predicate Unresolved(e: Entry, r: Resources) {
    e.href != "" && e.href !in r.known
  }

  function Overwrite(e: Entry, i: nat, r: Resources): seq<Call> {
    if e.href !in r.put then []
    else [Put(i)] + if HasFlag(e.cflags, TRANSMISSION) then [SendWrite(i, 2), SendWrite(i, 5)] else []
  }

  function CallsAt(e: Entry, i: nat, kind: Kind, r: Resources): seq<Call> {
    if e.href == "" then []
    else
      match kind
      case ValueWrite => if HasFlag(e.cflags, WRITE) then Overwrite(e, i, r) else []
      case ValueResponse => if HasFlag(e.cflags, UPDATE) then Overwrite(e, i, r) else []
      case ValueRead =>
        if HasFlag(e.cflags, READ) then (if e.href in r.get then [Get(i)] else []) +
          [SendResponse(i, 2), SendResponse(i, 5)] else []
      case Unknown => []
  }

  /** The calls for the matching entries from k on, up to the first whose href is unknown. */
  function Calls(s: slots, ga: uint32, kind: Kind, r: Resources, k: nat): seq<Call>
    requires k <= MAX_ENTRIES
    decreases MAX_ENTRIES - k
  {
    var i := FindGroup(s, ga, k);
    if i == MAX_ENTRIES || Unresolved(s[i], r) then []
    else CallsAt(s[i], i, kind, r) + Calls(s, ga, kind, r, i + 1)
  }

  method FindGroupIndex(objects: array<Entry>, ga: uint32, from: nat) returns (i: nat)
    requires objects.Length == MAX_ENTRIES && from <= MAX_ENTRIES
    ensures i == FindGroup(objects[..], ga, from)
  {
    i := from;
    while i < MAX_ENTRIES
      invariant from <= i <= MAX_ENTRIES && FindGroup(objects[..], ga, from) == FindGroup(objects[..], ga, i)
    {
      if objects[i].id > -1 {
        for j := 0 to |objects[i].ga|
          invariant ga !in objects[i].ga[..j]
        {
          if ga == objects[i].ga[j] {
            return;
          }
        }
        assert objects[i].ga[..|objects[i].ga|] == objects[i].ga;
      }
      i := i + 1;
    }
  }

  /** The cases of the loop body. */
  method CallResource(e: Entry, index: nat, kind: Kind, r: Resources) returns (calls: seq<Call>)
    requires e.href != ""
    ensures calls == CallsAt(e, index, kind, r)
  {
    calls := [];
    if HasFlag(e.cflags, WRITE) && kind == ValueWrite {
      calls := Overwrite(e, index, r);
    }
    if HasFlag(e.cflags, UPDATE) && kind == ValueResponse {
      calls := Overwrite(e, index, r);
    }
    if HasFlag(e.cflags, READ) && kind == ValueRead {
      calls := if e.href in r.get then [Get(index)] else [];
      calls := calls + [SendResponse(index, 2), SendResponse(index, 5)];
    }
  }

  method CallEntry(e: Entry, index: nat, kind: Kind, r: Resources) returns (calls: seq<Call>, stop: bool)
    ensures stop <==> Unresolved(e, r)
    ensures !stop ==> calls == CallsAt(e, index, kind, r)
  {
    calls, stop := [], false;
    if e.href != "" {
      if e.href !in r.known {
        return [], true;
      }
      calls := CallResource(e, index, kind, r);
    }
  }

  lemma LastCalls(s: slots, ga: uint32, kind: Kind, r: Resources, k: nat, calls: seq<Call>, all: seq<Call>)
    requires k <= MAX_ENTRIES && (FindGroup(s, ga, k) == MAX_ENTRIES || Unresolved(s[FindGroup(s, ga, k)], r))
    requires all == calls + Calls(s, ga, kind, r, k)
    ensures all == calls
  {
  }

  /** The dispatch loop of oc_core_knx_k_post_handler. */
  method Dispatch(objects: array<Entry>, ga: uint32, kind: Kind, r: Resources) returns (calls: seq<Call>)
    requires objects.Length == MAX_ENTRIES
    ensures calls == Calls(objects[..], ga, kind, r, 0)
  {
    hide Calls;
    hide CallsAt;
    hide FindGroup;
    hide Matching;
    calls := [];
    var index := FindGroupIndex(objects, ga, 0);
    ghost var from: nat, s := 0, objects[..];
    ghost var all := Calls(s, ga, kind, r, 0);
    while index < MAX_ENTRIES
      invariant from <= MAX_ENTRIES && index == FindGroup(s, ga, from)
      invariant all == calls + Calls(s, ga, kind, r, from)
      decreases MAX_ENTRIES - index
    {
      var more, stop := CallEntry(objects[index], index, kind, r);
      if stop {
        LastCalls(s, ga, kind, r, from, calls, all);
        return;
      }
      NextCalls(s, ga, kind, r, from, calls, all);
      calls := calls + more;
      from := index + 1;
      index := FindGroupIndex(objects, ga, index + 1);
    }
    LastCalls(s, ga, kind, r, from, calls, all);
  }

  lemma NextCalls(s: slots, ga: uint32, kind: Kind, r: Resources, k: nat, calls: seq<Call>, all: seq<Call>)
    requires k <= MAX_ENTRIES && FindGroup(s, ga, k) < MAX_ENTRIES && !Unresolved(s[FindGroup(s, ga, k)], r)
    requires all == calls + Calls(s, ga, kind, r, k)
    ensures var i := FindGroup(s, ga, k);
      all == calls + CallsAt(s[i], i, kind, r) + Calls(s, ga, kind, r, i + 1)
  {
    var i := FindGroup(s, ga, k);
    Assoc(calls, CallsAt(s[i], i, kind, r), Calls(s, ga, kind, r, i + 1));
  }

  ghost predicate Blocked(s: slots, ga: uint32, r: Resources, k: nat, i: nat) {
    exists j :: k <= j <= i && j < MAX_ENTRIES && Matching(s[j], ga) && Unresolved(s[j], r)
  }

  /** A value is overwritten by a "w" telegram if the entry is writable, and by a response if it is
      updated. */
  predicate Overwrites(e: Entry, kind: Kind, r: Resources) {
    && e.href in r.put
    && ((kind == ValueWrite && e.cflags / 16 % 2 == 1) || (kind == ValueResponse && e.cflags / 128 % 2 == 1))
  }

  /** A call that a telegram leads to at an entry: what is overwritten is sent on if the entry
      transmits, and what is readable is read and answered, always at the scopes 2 and 5. */
  predicate Due(e: Entry, kind: Kind, r: Resources, call: Call) {
    match call
    case Put(_) => Overwrites(e, kind, r)
    case SendWrite(_, scope) => Overwrites(e, kind, r) && e.cflags / 64 % 2 == 1 && (scope == 2 || scope == 5)
    case Get(_) => kind == ValueRead && e.cflags / 8 % 2 == 1 && e.href in r.get
    case SendResponse(_, scope) =>
      kind == ValueRead && e.cflags / 8 % 2 == 1 && e.href != "" && (scope == 2 || scope == 5)
  }

  lemma CallsAtAre(e: Entry, n: nat, kind: Kind, r: Resources, call: Call)
    requires "" !in r.put && "" !in r.get
    ensures call in CallsAt(e, n, kind, r) <==> call.slot == n && Due(e, kind, r, call)
  {
  }

  lemma CallsAtOnce(e: Entry, n: nat, kind: Kind, r: Resources)
    ensures var calls := CallsAt(e, n, kind, r);
      forall a, b :: 0 <= a < b < |calls| ==> calls[a].slot == calls[b].slot == n && calls[a] != calls[b]
  {
  }

  /** Slots in order, and no call twice. */
  ghost predicate InOrder(calls: seq<Call>) {
    forall a, b :: 0 <= a < b < |calls| ==> calls[a].slot <= calls[b].slot && calls[a] != calls[b]
  }

  ghost predicate From(calls: seq<Call>, k: nat) {
    forall a :: 0 <= a < |calls| ==> k <= calls[a].slot < MAX_ENTRIES
  }

  lemma {:induction false} CallsInOrder(s: slots, ga: uint32, kind: Kind, r: Resources, k: nat)
    requires k <= MAX_ENTRIES && "" !in r.put && "" !in r.get
    ensures From(Calls(s, ga, kind, r, k), k) && InOrder(Calls(s, ga, kind, r, k))
    decreases MAX_ENTRIES - k
  {
    hide CallsAt;
    hide Matching;
    hide Due;
    var n := FindGroup(s, ga, k);
    if n < MAX_ENTRIES && !Unresolved(s[n], r) {
      var here := CallsAt(s[n], n, kind, r);
      CallsInOrder(s, ga, kind, r, n + 1);
      CallsAtOnce(s[n], n, kind, r);
      forall a | 0 <= a < |here| ensures here[a].slot == n {
        CallsAtAre(s[n], n, kind, r, here[a]);
      }
    }
  }

  /** A call is made exactly when its entry has the group address, the telegram leads to it there,
      and no matching entry up to it has an unknown href. */
  lemma {:induction false} CallsAre(s: slots, ga: uint32, kind: Kind, r: Resources, k: nat, call: Call)
    requires k <= call.slot < MAX_ENTRIES && "" !in r.put && "" !in r.get
    ensures call in Calls(s, ga, kind, r, k) <==>
      Matching(s[call.slot], ga) && Due(s[call.slot], kind, r, call) && !Blocked(s, ga, r, k, call.slot)
    decreases MAX_ENTRIES - k
  {
    hide CallsAt;
    hide Matching;
    hide Due;
    var n, i := FindGroup(s, ga, k), call.slot;
    BlockedFrom(s, ga, r, k, i);
    if n < MAX_ENTRIES && !Unresolved(s[n], r) {
      var here, later := CallsAt(s[n], n, kind, r), Calls(s, ga, kind, r, n + 1);
      CallsAtAre(s[n], n, kind, r, call);
      CallsInOrder(s, ga, kind, r, n + 1);
      assert call in Calls(s, ga, kind, r, k) <==> call in here || call in later;
      if n < i {
        CallsAre(s, ga, kind, r, n + 1, call);
      }
    }
  }

  lemma BlockedFrom(s: slots, ga: uint32, r: Resources, k: nat, i: nat)
    requires k <= i < MAX_ENTRIES
    ensures var n := FindGroup(s, ga, k);
      Blocked(s, ga, r, k, i) <==> n <= i && (Unresolved(s[n], r) || Blocked(s, ga, r, n + 1, i))
  {
  }

  /** A telegram "w" overwrites the values of exactly the used entries that have the group address
      and the WRITE flag, once each and in ascending order, when every href is known. */
  lemma WriteReachesAll(s: slots, ga: uint32, r: Resources)
    requires "" !in r.put && "" !in r.get && forall i :: 0 <= i < MAX_ENTRIES ==> !Unresolved(s[i], r)
    ensures InOrder(Calls(s, ga, ValueWrite, r, 0))
    ensures forall i :: 0 <= i < MAX_ENTRIES ==> (Put(i) in Calls(s, ga, ValueWrite, r, 0) <==>
      s[i].id > -1 && ga in s[i].ga && s[i].cflags / 16 % 2 == 1 && s[i].href in r.put)
  {
    CallsInOrder(s, ga, ValueWrite, r, 0);
    forall i | 0 <= i < MAX_ENTRIES
      ensures Put(i) in Calls(s, ga, ValueWrite, r, 0) <==>
        s[i].id > -1 && ga in s[i].ga && s[i].cflags / 16 % 2 == 1 && s[i].href in r.put
    {
      CallsAre(s, ga, ValueWrite, r, 0, Put(i));
    }
  }

  /** A telegram "r" is answered exactly for the used entries that have the group address and the READ
      flag, at both scopes. */
  lemma ReadIsAnswered(s: slots, ga: uint32, r: Resources, i: nat, scope: nat)
    requires "" !in r.put && "" !in r.get && forall j :: 0 <= j < MAX_ENTRIES ==> !Unresolved(s[j], r)
    requires i < MAX_ENTRIES
    ensures SendResponse(i, scope) in Calls(s, ga, ValueRead, r, 0) <==>
      s[i].id > -1 && ga in s[i].ga && s[i].cflags / 8 % 2 == 1 && s[i].href != "" && (scope == 2 || scope == 5)
  {
    CallsAre(s, ga, ValueRead, r, 0, SendResponse(i, scope));
  }

  // ---------------------------------------------------------------------------
  // Over every run of the device
  // ---------------------------------------------------------------------------

  /** Whatever has been posted, deleted or reset, a slot that is subscribed for is one that telegrams
      are dispatched to. */
  lemma SubscribersAreUsed(resources: set<string>, events: seq<GroupTableRuns.Event>, i: nat, ga: uint32)
    requires forall j :: 0 <= j < |events| && events[j].a.Post? ==> GroupTableIds.OneIdEach(events[j].a.payload)
    requires i < MAX_ENTRIES
    ensures Receives(GroupTableRuns.After(resources, events).objects[i], ga) ==>
      Matching(GroupTableRuns.After(resources, events).objects[i], ga)
  {
    var d := GroupTableRuns.After(resources, events);
    GroupTableIds.IdsStayUnique(resources, events);
    assert GroupTableIds.Tidy(SlotsOf(d, Objects));
    assert GroupTableIds.TidyEntry(d.objects[i]);
  }

  /** And an unloaded device subscribes to nothing. */
  lemma UnloadedIsSilent(resources: set<string>, events: seq<GroupTableRuns.Event>, publishers: slots, iid: int)
    requires forall k :: 0 <= k < |events| ==> GroupTableRuns.CutIsSafe(resources, events, k)
    ensures GroupTableRuns.After(resources, events).state == Unloaded ==>
      Subscriptions(GroupTableRuns.After(resources, events).objects, publishers, iid, MAX_ENTRIES) == []
  {
    GroupTableRuns.UnloadedMeansEmpty(resources, events);
    FreeSubscribes(publishers, iid, MAX_ENTRIES);
  }

  lemma {:induction false} FreeSubscribes(publishers: slots, iid: int, k: nat)
    requires k <= MAX_ENTRIES
    ensures Subscriptions(AllFree(), publishers, iid, k) == []
  {
    if k > 0 {
      FreeSubscribes(publishers, iid, k - 1);
      assert FREE.ga == [];
    }
  }
}
