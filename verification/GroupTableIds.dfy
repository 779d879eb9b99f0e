/** Ids stay unique over every run: in memory and, after each single write, in storage. */
module GroupTableIds {
  import opened Wrappers
  import opened GroupTables
  import opened GroupTableRuns
  import opened GroupTableReload

  // ---------------------------------------------------------------------------
  // Ids
  // ---------------------------------------------------------------------------

  predicate IsId(x: Item) {
    x.Int? && x.iname == 0
  }

  /** An object with one id key at most. */
  ghost predicate OneId(items: seq<Item>) {
    forall i, j :: 0 <= i < j < |items| ==> !(IsId(items[i]) && IsId(items[j]))
  }

  ghost predicate OneIdEach(payload: seq<Option<seq<Item>>>) {
    forall i :: 0 <= i < |payload| && payload[i].Some? ==> OneId(payload[i].value)
  }

  lemma {:induction false} FindIdFinds(items: seq<Item>, k: nat) returns (p: nat)
    requires k <= |items| && FindId(items, k) != -1
    ensures k <= p < |items| && IsId(items[p]) && ToInt32(items[p].v) == FindId(items, k)
    decreases |items| - k
  {
    if IsId(items[k]) {
      p := k;
    } else {
      p := FindIdFinds(items, k + 1);
    }
  }

  lemma {:induction false} ReadId(r: Reading, items: seq<Item>, p: nat)
    requires OneId(items) && p < |items| && IsId(items[p])
    ensures ReadItems(Objects, r, items).entry.id == ToInt32(items[p].v)
  {
    var front := items[..|items| - 1];
    if p < |front| {
      assert front[p] == items[p];
      ReadId(r, front, p);
      assert !IsId(items[|items| - 1]);
    }
  }

  lemma {:induction false} RecipientId(r: Reading, items: seq<Item>)
    ensures ReadItems(Recipients, r, items).entry.id == r.entry.id
  {
    if items != [] {
      RecipientId(r, items[..|items| - 1]);
    }
  }

  /** The entry that is read carries the id that it was looked up by. */
  lemma ReadIntoId(t: Table, e: Entry, items: seq<Item>)
    requires FindId(items, 0) != -1 && OneId(items)
    ensures ReadInto(t, e, FindId(items, 0), items).entry.id == FindId(items, 0)
  {
    var id := FindId(items, 0);
    if t == Objects {
      var p := FindIdFinds(items, 0);
      ReadId(Reading(e, true, 0, false), items, p);
    } else {
      RecipientId(Reading(e.(id := id), true, 0, false), items);
    }
  }

  /** Used ids are not negative and belong to one entry each; an unused entry is a free one. */
  ghost predicate Tidy(s: slots) {
    && (forall i :: 0 <= i < MAX_ENTRIES ==> TidyEntry(s[i]))
    && (forall i, j :: 0 <= i < j < MAX_ENTRIES ==> s[i].id != s[j].id || s[i].id == -1)
  }

  predicate TidyEntry(e: Entry) {
    e.id >= 0 || e == FREE
  }

  /** What is stored for a slot is free or has the id that the slot has in memory. */
  ghost predicate Matches(s: slots, stored: slots) {
    forall i :: 0 <= i < MAX_ENTRIES ==> MatchesAt(s[i], stored[i])
  }

  predicate MatchesAt(e: Entry, stored: Entry) {
    stored == FREE || (stored.id == e.id && stored.id >= 0)
  }

  lemma MatchingIsTidy(s: slots, stored: slots)
    requires Tidy(s) && Matches(s, stored)
    ensures Tidy(stored)
  {
    forall i, j | 0 <= i < j < MAX_ENTRIES ensures stored[i].id != stored[j].id || stored[i].id == -1 {
      assert MatchesAt(s[i], stored[i]) && MatchesAt(s[j], stored[j]);
    }
    forall i | 0 <= i < MAX_ENTRIES ensures TidyEntry(stored[i]) {
      assert MatchesAt(s[i], stored[i]);
    }
  }

  lemma SetEntry(s: slots, stored: slots, i: nat, e: Entry, f: Entry)
    requires Tidy(s) && Matches(s, stored) && i < MAX_ENTRIES && TidyEntry(e) && MatchesAt(e, f)
    requires e == FREE || forall j :: 0 <= j < MAX_ENTRIES && j != i ==> s[j].id != e.id
    ensures Tidy(s[i := e]) && Matches(s[i := e], stored[i := f])
  {
    var after, kept := s[i := e], stored[i := f];
    forall j | 0 <= j < MAX_ENTRIES ensures MatchesAt(after[j], kept[j]) && TidyEntry(after[j]) {
      assert MatchesAt(s[j], stored[j]) && TidyEntry(s[j]);
    }
  }

  ghost predicate TidyProgress(s: Store, t: Table, p: Progress) {
    && Tidy(p.s) && Matches(p.s, Stored(s, t, p))
    && (forall u :: u != t ==> Stored(s, u, p) == LoadTable(s, u))
    && StoreTidy(s)
    && AllTidy(s, p.ops)
  }

  ghost predicate StoreTidy(s: Store) {
    forall t :: Tidy(LoadTable(s, t))
  }

  /** The store is tidy after every single write. */
  ghost predicate AllTidy(s: Store, ops: seq<Op>) {
    forall k :: 0 <= k <= |ops| ==> StoreTidy(ApplyAll(s, ops[..k]))
  }

  lemma AllTidySnoc(s: Store, ops: seq<Op>, op: Op)
    requires AllTidy(s, ops) && StoreTidy(ApplyAll(s, ops + [op]))
    ensures AllTidy(s, ops + [op])
  {
    var all := ops + [op];
    forall k | 0 <= k <= |all| ensures StoreTidy(ApplyAll(s, all[..k])) {
      assert k <= |ops| ==> all[..k] == ops[..k];
      assert k == |all| ==> all[..k] == all;
    }
  }

  /** Setting a slot to the same entry in memory and in storage, or in memory alone. */
  lemma ConcludeMatches(s: Store, t: Table, resources: set<string>, p: Progress, i: nat, e: Entry)
    requires TidyProgress(s, t, p) && i < MAX_ENTRIES && e.id >= 0
    requires forall j :: 0 <= j < MAX_ENTRIES && j != i ==> p.s[j].id != e.id
    requires p.s[i].id == e.id || p.s[i].id == -1
    ensures var stored := Stored(s, t, p);
      && Tidy(p.s[i := FREE]) && Matches(p.s[i := FREE], stored[i := FREE])
      && Tidy(p.s[i := e]) && Matches(p.s[i := e], stored[i := e]) && Matches(p.s[i := e], stored)
      && Tidy(stored[i := FREE]) && Tidy(stored[i := e])
  {
    var stored := Stored(s, t, p);
    assert MatchesAt(p.s[i], stored[i]);
    SetEntry(p.s, stored, i, FREE, FREE);
    SetEntry(p.s, stored, i, e, e);
    SetEntry(p.s, stored, i, e, stored[i]);
    assert stored[i := stored[i]] == stored;
    MatchingIsTidy(p.s[i := FREE], stored[i := FREE]);
    MatchingIsTidy(p.s[i := e], stored[i := e]);
  }

  lemma DeleteKeepsTidy(s: Store, t: Table, p: Progress, i: nat)
    requires TidyProgress(s, t, p) && i < MAX_ENTRIES
    requires Tidy(p.s[i := FREE]) && Matches(p.s[i := FREE], Stored(s, t, p)[i := FREE])
      && Tidy(Stored(s, t, p)[i := FREE])
    ensures TidyProgress(s, t, DeleteEntry(t, p, i))
  {
    var q := DeleteEntry(t, p, i);
    forall u ensures Stored(s, u, q) == if t == u then Stored(s, u, p)[i := FREE] else Stored(s, u, p) {
      DeleteStored(s, t, u, p, i);
    }
    forall u ensures Tidy(LoadTable(ApplyAll(s, q.ops), u)) {
      assert Tidy(LoadTable(s, u));
      assert LoadTable(ApplyAll(s, q.ops), u) == Stored(s, u, q);
    }
    AllTidySnoc(s, p.ops, Erase(Slot(t, i)));
  }

  function WriteEntry(t: Table, p: Progress, i: nat, e: Entry): Progress
    requires i < MAX_ENTRIES
  {
    p.(s := p.s[i := e], ops := p.ops + [Write(Slot(t, i), e)])
  }

  lemma WriteKeepsTidy(s: Store, t: Table, p: Progress, i: nat, e: Entry)
    requires TidyProgress(s, t, p) && i < MAX_ENTRIES
    requires Tidy(p.s[i := e]) && Matches(p.s[i := e], Stored(s, t, p)[i := e]) && Tidy(Stored(s, t, p)[i := e])
    ensures TidyProgress(s, t, WriteEntry(t, p, i, e))
  {
    var q, slot := WriteEntry(t, p, i, e), Slot(t, i);
    ApplySnoc(s, p.ops, Write(slot, e));
    forall u ensures Stored(s, u, q) == if t == u then Stored(s, u, p)[i := e] else Stored(s, u, p) {
      LoadAfterWrite(ApplyAll(s, p.ops), u, slot, e);
    }
    forall u ensures Tidy(LoadTable(ApplyAll(s, q.ops), u)) {
      assert Tidy(LoadTable(s, u));
      assert LoadTable(ApplyAll(s, q.ops), u) == Stored(s, u, q);
    }
    AllTidySnoc(s, p.ops, Write(slot, e));
  }

  lemma SaveKeepsTidy(s: Store, t: Table, resources: set<string>, p: Progress, i: nat, e: Entry)
    requires TidyProgress(s, t, p) && i < MAX_ENTRIES && e.id >= 0
    requires var stored := Stored(s, t, p);
      && Tidy(p.s[i := FREE]) && Matches(p.s[i := FREE], stored[i := FREE])
      && Tidy(p.s[i := e]) && Matches(p.s[i := e], stored[i := e]) && Matches(p.s[i := e], stored)
      && Tidy(stored[i := FREE]) && Tidy(stored[i := e])
    ensures TidyProgress(s, t, CheckAndSave(t, resources, p, i, e))
  {
    if t == Recipients || (p.ok && Acceptable(e, resources)) {
      WriteKeepsTidy(s, t, p, i, e);
    } else if p.ok {
      FailKeepsTidy(s, t, p, i);
    }
  }

  lemma FailKeepsTidy(s: Store, t: Table, p: Progress, i: nat)
    requires TidyProgress(s, t, p) && i < MAX_ENTRIES
    requires Tidy(p.s[i := FREE]) && Matches(p.s[i := FREE], Stored(s, t, p)[i := FREE])
      && Tidy(Stored(s, t, p)[i := FREE])
    ensures TidyProgress(s, t, p.(s := p.s[i := FREE], ops := p.ops + [Erase(Slot(t, i)), Write(Slot(t, i), FREE)],
      ok := false))
  {
    var q := DeleteEntry(t, p, i);
    DeleteKeepsTidy(s, t, p, i);
    DeleteStored(s, t, t, p, i);
    assert q.s[i := FREE] == q.s && Stored(s, t, q)[i := FREE] == Stored(s, t, q);
    WriteKeepsTidy(s, t, q, i, FREE);
    assert q.ops + [Write(Slot(t, i), FREE)] == p.ops + [Erase(Slot(t, i)), Write(Slot(t, i), FREE)];
  }

  lemma ConcludeKeepsTidy(s: Store, t: Table, resources: set<string>, p: Progress, i: nat, created: bool, r: Reading)
    requires TidyProgress(s, t, p) && i < MAX_ENTRIES && r.entry.id >= 0
    requires forall j :: 0 <= j < MAX_ENTRIES && j != i ==> p.s[j].id != r.entry.id
    requires p.s[i].id == r.entry.id || p.s[i].id == -1
    ensures TidyProgress(s, t, Conclude(t, resources, p, i, created, r))
  {
    ConcludeMatches(s, t, resources, p, i, r.entry);
    DeleteKeepsTidy(s, t, p, i);
    SaveKeepsTidy(s, t, resources, p, i, r.entry);
  }

  lemma StatusKeepsTidy(s: Store, t: Table, p: Progress, status: Status, stopped: bool)
    requires TidyProgress(s, t, p)
    ensures TidyProgress(s, t, p.(status := status, stopped := stopped))
  {
  }

  lemma ObjectKeepsTidy(s: Store, t: Table, resources: set<string>, p: Progress, items: seq<Item>)
    requires TidyProgress(s, t, p) && OneId(items)
    ensures TidyProgress(s, t, PostObject(t, resources, p, items))
  {
    hide Conclude;
    hide ReadInto;
    hide StoreTidy;
    hide AllTidy;
    hide Matches;
    hide Stored;
    var id := FindId(items, 0);
    if id != -1 {
      var i, j := Find(p.s, id, 0), FindEmptySlot(p.s, id);
      if i < MAX_ENTRIES {
        assert TidyEntry(p.s[i]);
        StatusKeepsTidy(s, t, p, Changed, p.stopped);
        ReadIntoId(t, p.s[i], items);
        ConcludeKeepsTidy(s, t, resources, p.(status := Changed), i, false, ReadInto(t, p.s[i], id, items));
      } else if j < MAX_ENTRIES {
        StatusKeepsTidy(s, t, p, Created, p.stopped);
        ReadIntoId(t, p.s[j], items);
        ConcludeKeepsTidy(s, t, resources, p.(status := Created), j, true, ReadInto(t, p.s[j], id, items));
      } else {
        StatusKeepsTidy(s, t, p, Created, true);
      }
    } else {
      StatusKeepsTidy(s, t, p, p.status, true);
    }
  }

  lemma {:induction false} PostKeepsTidy(s: Store, t: Table, resources: set<string>, was: slots,
          payload: seq<Option<seq<Item>>>)
    requires Tidy(was) && Matches(was, LoadTable(s, t)) && StoreTidy(s) && OneIdEach(payload)
    ensures TidyProgress(s, t, PostAll(t, resources, was, payload))
  {
    if payload != [] {
      var front, last := payload[..|payload| - 1], payload[|payload| - 1];
      PostKeepsTidy(s, t, resources, was, front);
      var p := PostAll(t, resources, was, front);
      if !p.stopped && last.Some? {
        ObjectKeepsTidy(s, t, resources, p, last.value);
      }
    }
  }

  // ---------------------------------------------------------------------------
  // Over every run
  // ---------------------------------------------------------------------------

  ghost predicate DeviceTidy(d: Device) {
    forall t :: Tidy(SlotsOf(d, t)) && Matches(SlotsOf(d, t), LoadTable(d.store, t))
  }

  lemma TidyDeviceStore(d: Device)
    requires DeviceTidy(d)
    ensures StoreTidy(d.store)
  {
    forall t ensures Tidy(LoadTable(d.store, t)) {
      MatchingIsTidy(SlotsOf(d, t), LoadTable(d.store, t));
    }
  }

  lemma BootIsTidy(s: Store)
    requires StoreTidy(s)
    ensures DeviceTidy(Boot(s))
  {
    forall t ensures Tidy(SlotsOf(Boot(s), t)) && Matches(SlotsOf(Boot(s), t), LoadTable(s, t)) {
      assert SlotsOf(Boot(s), t) == LoadTable(s, t) && Tidy(LoadTable(s, t));
    }
  }

  /** A write that frees an entry, or none at all. */
  predicate Frees(op: Op) {
    match op
    case Erase(slot) => slot.i < MAX_ENTRIES
    case Write(slot, e) => slot.i < MAX_ENTRIES && e == FREE
    case WriteState(_) => true
  }

  lemma FreeingIsTidy(s: Store, op: Op)
    requires StoreTidy(s) && Frees(op)
    ensures StoreTidy(Apply(s, op))
  {
    forall t ensures Tidy(LoadTable(Apply(s, op), t)) {
      var was := LoadTable(s, t);
      assert Tidy(was);
      match op
      case Erase(slot) =>
        LoadAfterErase(s, t, slot);
        Freed(was, slot.i);
      case Write(slot, e) =>
        LoadAfterWrite(s, t, slot, e);
        Freed(was, slot.i);
      case WriteState(state) =>
        LoadAfterState(s, t, state);
    }
  }

  lemma Freed(s: slots, i: nat)
    requires Tidy(s) && i < MAX_ENTRIES
    ensures Tidy(s[i := FREE])
  {
    assert forall j :: 0 <= j < MAX_ENTRIES ==> TidyEntry(s[j]);
  }

  lemma {:induction false} FreeingAllTidy(s: Store, ops: seq<Op>, k: nat)
    requires StoreTidy(s) && k <= |ops| && forall j :: 0 <= j < |ops| ==> Frees(ops[j])
    ensures StoreTidy(ApplyAll(s, ops[..k]))
  {
    if k > 0 {
      FreeingAllTidy(s, ops, k - 1);
      assert ops[..k][..k - 1] == ops[..k - 1];
      FreeingIsTidy(ApplyAll(s, ops[..k - 1]), ops[k - 1]);
    }
  }

  /** Every write of every action leaves a tidy store. */
  lemma EveryWriteIsTidy(resources: set<string>, d: Device, a: Action)
    requires DeviceTidy(d) && (a.Post? ==> OneIdEach(a.payload))
    ensures AllTidy(d.store, EffectOf(resources, d, a).ops)
  {
    TidyDeviceStore(d);
    var ops := EffectOf(resources, d, a).ops;
    if a.Post? && d.state == Loading {
      PostKeepsTidy(d.store, a.t, resources, SlotsOf(d, a.t), a.payload);
    } else {
      forall k | 0 <= k <= |ops| ensures StoreTidy(ApplyAll(d.store, ops[..k])) {
        FreeingAllTidy(d.store, ops, k);
      }
    }
  }

  lemma FreeDeviceIsTidy(d: Device)
    requires d.objects == d.recipients == AllFree() && StoredFree(d.store)
    ensures DeviceTidy(d)
  {
    forall t ensures Tidy(SlotsOf(d, t)) && Matches(SlotsOf(d, t), LoadTable(d.store, t)) {
      assert SlotsOf(d, t) == AllFree();
      forall i | 0 <= i < MAX_ENTRIES ensures MatchesAt(SlotsOf(d, t)[i], LoadTable(d.store, t)[i]) {
        assert StoredAt(d.store, t, i) == FREE;
      }
    }
  }

  lemma PostIsTidy(resources: set<string>, d: Device, t: Table, payload: seq<Option<seq<Item>>>)
    requires DeviceTidy(d) && OneIdEach(payload) && d.state == Loading
    ensures DeviceTidy(Do(resources, d, Post(t, payload)))
  {
    TidyDeviceStore(d);
    PostKeepsTidy(d.store, t, resources, SlotsOf(d, t), payload);
    var p, after := PostAll(t, resources, SlotsOf(d, t), payload), Do(resources, d, Post(t, payload));
    forall u ensures Tidy(SlotsOf(after, u)) && Matches(SlotsOf(after, u), LoadTable(after.store, u)) {
      if u == t {
        assert SlotsOf(after, u) == p.s;
      } else {
        assert SlotsOf(after, u) == SlotsOf(d, u) && LoadTable(after.store, u) == LoadTable(d.store, u);
      }
    }
  }

  lemma DeleteIsTidy(resources: set<string>, d: Device, t: Table, id: int)
    requires DeviceTidy(d) && d.state == Loading && Find(SlotsOf(d, t), id, 0) < MAX_ENTRIES
    ensures DeviceTidy(Do(resources, d, Delete(t, id)))
  {
    var i, after := Find(SlotsOf(d, t), id, 0), Do(resources, d, Delete(t, id));
    forall u ensures Tidy(SlotsOf(after, u)) && Matches(SlotsOf(after, u), LoadTable(after.store, u)) {
      assert Tidy(SlotsOf(d, u)) && Matches(SlotsOf(d, u), LoadTable(d.store, u));
      LoadAfterDelete(d.store, u, Slot(t, i));
      if u == t {
        SetEntry(SlotsOf(d, u), LoadTable(d.store, u), i, FREE, FREE);
      }
    }
  }

  lemma DoKeepsTidy(resources: set<string>, d: Device, a: Action)
    requires DeviceTidy(d) && (a.Post? ==> OneIdEach(a.payload))
    ensures DeviceTidy(Do(resources, d, a))
  {
    var after := Do(resources, d, a);
    match a
    case Post(t, payload) =>
      if d.state == Loading {
        PostIsTidy(resources, d, t, payload);
      } else {
        NothingIsTidy(d, after);
      }
    case Delete(t, id) =>
      if d.state == Loading && Find(SlotsOf(d, t), id, 0) < MAX_ENTRIES {
        DeleteIsTidy(resources, d, t, id);
      } else {
        NothingIsTidy(d, after);
      }
    case LoadEvent(code) =>
      if code == 4 {
        EraseThenUnload(d.store, Recipients, Objects);
        FreeDeviceIsTidy(after);
      } else {
        ApplyOne(d.store, WriteState(after.state));
        NothingIsTidy(d, after);
      }
    case Reset(mode) =>
      if mode == 7 {
        EraseThenUnload(d.store, Objects, Recipients);
        FreeDeviceIsTidy(after);
      } else if mode == 2 {
        ResetTwoErases(d.store);
        FreeDeviceIsTidy(after);
      } else {
        NothingIsTidy(d, after);
      }
  }

  lemma NothingIsTidy(d: Device, after: Device)
    requires DeviceTidy(d) && after.objects == d.objects && after.recipients == d.recipients
    requires after.store.entries == d.store.entries
    ensures DeviceTidy(after)
  {
    forall t ensures Tidy(SlotsOf(after, t)) && Matches(SlotsOf(after, t), LoadTable(after.store, t)) {
      assert SlotsOf(after, t) == SlotsOf(d, t);
      assert LoadTable(after.store, t) == LoadTable(d.store, t);
    }
  }

  /** Used ids are unique in both tables after every run, power failures included, when each posted
      object has one id key; and each slot's stored entry is free or has the slot's id. */
  lemma {:induction false} IdsStayUnique(resources: set<string>, events: seq<Event>)
    requires forall i :: 0 <= i < |events| && events[i].a.Post? ==> OneIdEach(events[i].a.payload)
    ensures DeviceTidy(After(resources, events))
  {
    if events == [] {
      forall t ensures Tidy(LoadTable(Store(map[], None), t)) {
      }
      BootIsTidy(Store(map[], None));
    } else {
      var front := events[..|events| - 1];
      IdsStayUnique(resources, front);
      var d, e := After(resources, front), events[|events| - 1];
      match e
      case Done(a) =>
        DoKeepsTidy(resources, d, a);
      case PowerCut(a, k) =>
        EveryWriteIsTidy(resources, d, a);
        BootIsTidy(ApplyAll(d.store, EffectOf(resources, d, a).ops[..Reached(resources, d, a, k)]));
    }
  }
}
