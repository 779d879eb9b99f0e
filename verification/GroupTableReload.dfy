/** What a restart finds of the two tables: exactly what of a request is in memory only, and over
    every run which slots differ from their stored entries. */
module GroupTableReload {
  import opened Wrappers
  import opened GroupTables
  import opened GroupTableRuns

  // ---------------------------------------------------------------------------
  // Memory and storage
  // ---------------------------------------------------------------------------

  lemma LoadAfterErase(s: Store, t: Table, slot: Slot)
    requires slot.i < MAX_ENTRIES
    ensures LoadTable(Apply(s, Erase(slot)), t) == if slot.t == t then LoadTable(s, t)[slot.i := FREE]
      else LoadTable(s, t)
  {
  }

  lemma LoadAfterWrite(s: Store, t: Table, slot: Slot, e: Entry)
    requires slot.i < MAX_ENTRIES
    ensures LoadTable(Apply(s, Write(slot, e)), t) == if slot.t == t then LoadTable(s, t)[slot.i := e]
      else LoadTable(s, t)
  {
  }

  lemma LoadAfterState(s: Store, t: Table, state: LoadState)
    ensures LoadTable(Apply(s, WriteState(state)), t) == LoadTable(s, t)
  {
  }

  /** A deletion erases the entry and then writes a free one. */
  lemma LoadAfterDelete(s: Store, t: Table, slot: Slot)
    requires slot.i < MAX_ENTRIES
    ensures LoadTable(ApplyAll(s, [Erase(slot), Write(slot, FREE)]), t) ==
      if slot.t == t then LoadTable(s, t)[slot.i := FREE] else LoadTable(s, t)
  {
    assert [Erase(slot), Write(slot, FREE)] == [Erase(slot)] + [Write(slot, FREE)];
    ApplyOne(s, Erase(slot));
    ApplySnoc(s, [Erase(slot)], Write(slot, FREE));
    LoadAfterErase(s, t, slot);
    LoadAfterWrite(Apply(s, Erase(slot)), t, slot, FREE);
  }

  /** What a table loads as after the writes of a request so far. */
  function Stored(s: Store, t: Table, p: Progress): slots {
    LoadTable(ApplyAll(s, p.ops), t)
  }

  lemma DeleteStored(s: Store, t: Table, u: Table, p: Progress, i: nat)
    requires i < MAX_ENTRIES
    ensures Stored(s, u, DeleteEntry(t, p, i)) == if t == u then Stored(s, u, p)[i := FREE] else Stored(s, u, p)
  {
    ApplySnoc(s, p.ops, Erase(Slot(t, i)));
    LoadAfterErase(ApplyAll(s, p.ops), u, Slot(t, i));
  }

  /** A save changes storage as it changes memory, unless a check has failed before. */
  lemma SaveStored(s: Store, t: Table, u: Table, resources: set<string>, p: Progress, i: nat, e: Entry)
    requires i < MAX_ENTRIES
    ensures var q := CheckAndSave(t, resources, p, i, e);
      && q.s == p.s[i := if t == Recipients || !p.ok || Acceptable(e, resources) then e else FREE]
      && q.ok == (p.ok && (t == Recipients || Acceptable(e, resources)))
      && Stored(s, u, q) == if t == u && (t == Recipients || p.ok) then Stored(s, u, p)[i := q.s[i]]
        else Stored(s, u, p)
  {
    var slot, was := Slot(t, i), ApplyAll(s, p.ops);
    if t == Recipients || (p.ok && Acceptable(e, resources)) {
      ApplySnoc(s, p.ops, Write(slot, e));
      LoadAfterWrite(was, u, slot, e);
    } else if p.ok {
      ApplyAppend(s, p.ops, [Erase(slot), Write(slot, FREE)]);
      LoadAfterDelete(was, u, slot);
    }
  }

  // ---------------------------------------------------------------------------
  // The objects of a payload
  // ---------------------------------------------------------------------------

  type payload = seq<Option<seq<Item>>>

  /** The slot an object goes to, or the size of the table. */
  function SlotFor(s: slots, id: int): (i: nat)
    ensures i <= MAX_ENTRIES
  {
    if Find(s, id, 0) < MAX_ENTRIES then Find(s, id, 0) else FindEmptySlot(s, id)
  }

  /** The object has an id, and a slot to go to. */
  predicate HasSlot(s: slots, items: seq<Item>) {
    FindId(items, 0) != -1 && SlotFor(s, FindId(items, 0)) < MAX_ENTRIES
  }

  function Target(s: slots, items: seq<Item>): (i: nat)
    requires HasSlot(s, items)
    ensures i < MAX_ENTRIES
  {
    SlotFor(s, FindId(items, 0))
  }

  function ReadAt(t: Table, s: slots, items: seq<Item>): Reading
    requires HasSlot(s, items)
  {
    ReadInto(t, s[Target(s, items)], FindId(items, 0), items)
  }

  /** The object deletes its slot: it has an id only, or is new and incomplete. */
  predicate Removes(t: Table, s: slots, items: seq<Item>)
    requires HasSlot(s, items)
  {
    var r := ReadAt(t, s, items);
    r.idOnly || (Find(s, FindId(items, 0), 0) == MAX_ENTRIES && !Complete(t, r))
  }

  /** The object is one that the checks reject. */
  predicate Fails(t: Table, resources: set<string>, s: slots, items: seq<Item>) {
    && t == Objects && HasSlot(s, items) && !Removes(t, s, items)
    && !Acceptable(ReadAt(t, s, items).entry, resources)
  }

  lemma ConcludeIs(t: Table, resources: set<string>, p: Progress, i: nat, created: bool, r: Reading)
    requires i < MAX_ENTRIES
    ensures var q := Conclude(t, resources, p, i, created, r);
      && q.status == p.status
      && if r.idOnly || (created && !Complete(t, r)) then q == DeleteEntry(t, p, i).(stopped := q.stopped)
        else q == CheckAndSave(t, resources, p, i, r.entry)
  {
  }

  /** What one object does to its slot. */
  lemma PostObjectIs(t: Table, resources: set<string>, p: Progress, items: seq<Item>)
    ensures var q := PostObject(t, resources, p, items);
      if !HasSlot(p.s, items) then q.s == p.s && q.ops == p.ops && q.ok == p.ok
      else
        var i, e := Target(p.s, items), ReadAt(t, p.s, items).entry;
        var p' := p.(status := q.status);
        if Removes(t, p.s, items) then q == DeleteEntry(t, p', i).(stopped := q.stopped)
        else q == CheckAndSave(t, resources, p', i, e)
  {
    PostForIs(t, resources, p, FindId(items, 0), items);
    hide PostFor;
    hide Conclude;
    hide CheckAndSave;
    hide DeleteEntry;
    hide ReadInto;
    hide Complete;
    if HasSlot(p.s, items) {
      var created, r := Find(p.s, FindId(items, 0), 0) == MAX_ENTRIES, ReadAt(t, p.s, items);
      ConcludeIs(t, resources, p.(status := if created then Created else Changed), Target(p.s, items), created, r);
    }
  }

  /** The k-th object is reached, and is one that the checks reject. */
  predicate FailsAt(t: Table, resources: set<string>, s: slots, objects: payload, k: nat)
    requires k < |objects|
  {
    var p := PostAll(t, resources, s, objects[..k]);
    objects[k].Some? && !p.stopped && Fails(t, resources, p.s, objects[k].value)
  }

  lemma ObjectOk(t: Table, resources: set<string>, p: Progress, items: seq<Item>)
    ensures PostObject(t, resources, p, items).ok <==> p.ok && !Fails(t, resources, p.s, items)
  {
    PostObjectIs(t, resources, p, items);
  }

  /** The flag behind the answer, in terms of the objects: none that is reached fails the checks. */
  lemma {:induction false} OkIffNoneFails(t: Table, resources: set<string>, s: slots, objects: payload)
    ensures PostAll(t, resources, s, objects).ok <==>
      forall k :: 0 <= k < |objects| ==> !FailsAt(t, resources, s, objects, k)
  {
    hide Fails;
    hide PostObject;
    if objects != [] {
      var n := |objects| - 1;
      var front := objects[..n];
      OkIffNoneFails(t, resources, s, front);
      forall k | 0 <= k < n ensures FailsAt(t, resources, s, objects, k) == FailsAt(t, resources, s, front, k) {
        assert front[..k] == objects[..k];
      }
      var p := PostAll(t, resources, s, front);
      if objects[n].Some? {
        ObjectOk(t, resources, p, objects[n].value);
      }
      assert PostAll(t, resources, s, objects).ok <==> p.ok && !FailsAt(t, resources, s, objects, n);
    }
  }

  // ---------------------------------------------------------------------------
  // What a POST leaves
  // ---------------------------------------------------------------------------

  /** What a POST leaves in the slots it reaches: `saved`, what was last written in memory and storage
      alike; `kept`, an entry that came after a failed check and stands in memory only. */
  datatype Marks = Marks(saved: map<nat, Entry>, kept: map<nat, Entry>)

  function Save(m: Marks, i: nat, e: Entry): Marks {
    Marks(m.saved[i := e], m.kept - {i})
  }

  function MarkObject(t: Table, resources: set<string>, p: Progress, m: Marks, items: seq<Item>): Marks {
    if !HasSlot(p.s, items) then m
    else
      var i, e := Target(p.s, items), ReadAt(t, p.s, items).entry;
      if Removes(t, p.s, items) then Save(m, i, FREE)
      else if t == Recipients || (p.ok && Acceptable(e, resources)) then Save(m, i, e)
      else if p.ok then Save(m, i, FREE)
      else m.(kept := m.kept[i := e])
  }

  function MarksOf(t: Table, resources: set<string>, s: slots, objects: payload): Marks {
    if objects == [] then Marks(map[], map[])
    else
      var m := MarksOf(t, resources, s, objects[..|objects| - 1]);
      var p, last := PostAll(t, resources, s, objects[..|objects| - 1]), objects[|objects| - 1];
      if p.stopped || last.None? then m else MarkObject(t, resources, p, m, last.value)
  }

  function SavedOr(m: Marks, i: nat, otherwise: Entry): Entry {
    if i in m.saved then m.saved[i] else otherwise
  }

  function KeptOr(m: Marks, i: nat, otherwise: Entry): Entry {
    if i in m.kept then m.kept[i] else SavedOr(m, i, otherwise)
  }

  ghost predicate Marked(was: slots, stored: slots, now: slots, nowStored: slots, m: Marks) {
    forall i :: 0 <= i < MAX_ENTRIES ==> now[i] == KeptOr(m, i, was[i]) && nowStored[i] == SavedOr(m, i, stored[i])
  }

  lemma SaveMarked(was: slots, stored: slots, now: slots, nowStored: slots, m: Marks, i: nat, e: Entry)
    requires Marked(was, stored, now, nowStored, m) && i < MAX_ENTRIES
    ensures Marked(was, stored, now[i := e], nowStored[i := e], Save(m, i, e))
    ensures Marked(was, stored, now[i := e], nowStored, m.(kept := m.kept[i := e]))
  {
  }

  lemma ObjectMarked(s: Store, was: slots, t: Table, resources: set<string>, p: Progress, m: Marks, items: seq<Item>)
    requires Marked(was, LoadTable(s, t), p.s, Stored(s, t, p), m)
    ensures var q := PostObject(t, resources, p, items);
      Marked(was, LoadTable(s, t), q.s, Stored(s, t, q), MarkObject(t, resources, p, m, items))
  {
    hide Marked;
    hide Acceptable;
    PostObjectIs(t, resources, p, items);
    if HasSlot(p.s, items) {
      var i, e, stored := Target(p.s, items), ReadAt(t, p.s, items).entry, Stored(s, t, p);
      DeleteStored(s, t, t, p, i);
      SaveStored(s, t, t, resources, p, i, e);
      SaveMarked(was, LoadTable(s, t), p.s, stored, m, i, e);
      SaveMarked(was, LoadTable(s, t), p.s, stored, m, i, FREE);
    }
  }

  lemma {:induction false} PostMarked(s: Store, was: slots, t: Table, resources: set<string>, objects: payload)
    ensures var p := PostAll(t, resources, was, objects);
      Marked(was, LoadTable(s, t), p.s, Stored(s, t, p), MarksOf(t, resources, was, objects))
  {
    if objects != [] {
      PostMarked(s, was, t, resources, objects[..|objects| - 1]);
      var p, last := PostAll(t, resources, was, objects[..|objects| - 1]), objects[|objects| - 1];
      if !p.stopped && last.Some? {
        ObjectMarked(s, was, t, resources, p, MarksOf(t, resources, was, objects[..|objects| - 1]), last.value);
      }
    }
  }

  /** The entry in slot i is what a restart loads. */
  predicate Synced(d: Device, t: Table, i: nat)
    requires i < MAX_ENTRIES
  {
    SlotsOf(d, t)[i] == StoredAt(d.store, t, i)
  }

  ghost predicate AllSynced(d: Device, t: Table) {
    forall i :: 0 <= i < MAX_ENTRIES ==> Synced(d, t, i)
  }

  lemma ReloadIff(d: Device, t: Table)
    ensures AllSynced(d, t) <==> SlotsOf(d, t) == LoadTable(d.store, t)
  {
    assert forall i :: 0 <= i < MAX_ENTRIES ==> (Synced(d, t, i) <==> SlotsOf(d, t)[i] == LoadTable(d.store, t)[i]);
  }

  lemma AfterPost(resources: set<string>, d: Device, t: Table, objects: payload)
    requires d.state == Loading
    ensures var m, after := MarksOf(t, resources, SlotsOf(d, t), objects), Do(resources, d, Post(t, objects));
      Marked(SlotsOf(d, t), LoadTable(d.store, t), SlotsOf(after, t), LoadTable(after.store, t), m)
    ensures forall u :: u != t ==> SlotsOf(Do(resources, d, Post(t, objects)), u) == SlotsOf(d, u)
  {
    PostMarked(d.store, SlotsOf(d, t), t, resources, objects);
  }

  /** What a POST leaves in sync, whatever the table was before: a slot it kept an entry in, if
      that is the one in storage; a slot it saved or erased; any other slot, if it was in sync. */
  predicate SyncedBy(d: Device, t: Table, m: Marks, i: nat)
    requires i < MAX_ENTRIES
  {
    if i in m.kept then m.kept[i] == SavedOr(m, i, StoredAt(d.store, t, i)) else i in m.saved || Synced(d, t, i)
  }

  ghost predicate AllSyncedBy(d: Device, t: Table, m: Marks) {
    forall i :: 0 <= i < MAX_ENTRIES ==> SyncedBy(d, t, m, i)
  }

  lemma PostSyncs(resources: set<string>, d: Device, t: Table, objects: payload, i: nat)
    requires d.state == Loading && i < MAX_ENTRIES
    ensures Synced(Do(resources, d, Post(t, objects)), t, i) <==>
      SyncedBy(d, t, MarksOf(t, resources, SlotsOf(d, t), objects), i)
  {
    AfterPost(resources, d, t, objects);
    var after := Do(resources, d, Post(t, objects));
    assert LoadTable(after.store, t)[i] == StoredAt(after.store, t, i);
    assert LoadTable(d.store, t)[i] == StoredAt(d.store, t, i);
  }

  /** From any state, a POST leaves the table equal to its reload exactly when it leaves every slot
      in sync. */
  lemma PostIsReloaded(resources: set<string>, d: Device, t: Table, objects: payload)
    requires d.state == Loading
    ensures var m, after := MarksOf(t, resources, SlotsOf(d, t), objects), Do(resources, d, Post(t, objects));
      SlotsOf(after, t) == LoadTable(after.store, t) <==> AllSyncedBy(d, t, m)
  {
    hide Do;
    hide SyncedBy;
    hide Synced;
    hide LoadTable;
    var m, after := MarksOf(t, resources, SlotsOf(d, t), objects), Do(resources, d, Post(t, objects));
    ReloadIff(after, t);
    forall i | 0 <= i < MAX_ENTRIES ensures Synced(after, t, i) <==> SyncedBy(d, t, m, i) {
      PostSyncs(resources, d, t, objects, i);
    }
  }

  /** Nothing is kept in memory only unless an object fails the checks. */
  lemma {:induction false} KeptNeedsFailure(t: Table, resources: set<string>, s: slots, objects: payload)
    requires t == Recipients || PostAll(t, resources, s, objects).ok
    ensures MarksOf(t, resources, s, objects).kept == map[]
  {
    if objects != [] {
      var front, last := objects[..|objects| - 1], objects[|objects| - 1];
      var p := PostAll(t, resources, s, front);
      if last.Some? {
        ObjectOk(t, resources, p, last.value);
      }
      KeptNeedsFailure(t, resources, s, front);
    }
  }

  /** A POST none of whose objects fails the checks, and any POST of recipients: afterwards the table
      is its reload exactly when every slot that the payload did not reach was in sync before. */
  lemma UnfailedPostIsSaved(resources: set<string>, d: Device, t: Table, objects: payload)
    requires d.state == Loading && (t == Recipients || PostAll(t, resources, SlotsOf(d, t), objects).ok)
    ensures var m, after := MarksOf(t, resources, SlotsOf(d, t), objects), Do(resources, d, Post(t, objects));
      SlotsOf(after, t) == LoadTable(after.store, t) <==>
        forall i :: 0 <= i < MAX_ENTRIES && i !in m.saved ==> Synced(d, t, i)
  {
    hide Do;
    hide MarksOf;
    hide Synced;
    KeptNeedsFailure(t, resources, SlotsOf(d, t), objects);
    PostIsReloaded(resources, d, t, objects);
    assert forall i :: 0 <= i < MAX_ENTRIES ==>
      (SyncedBy(d, t, MarksOf(t, resources, SlotsOf(d, t), objects), i) <==>
        i in MarksOf(t, resources, SlotsOf(d, t), objects).saved || Synced(d, t, i));
  }

  /** A POST to a table that is its reload leaves it so exactly when every entry that it kept after a
      failed check is the one in storage: one that changed nothing. */
  lemma KeptEntriesAreLost(resources: set<string>, d: Device, t: Table, objects: payload)
    requires d.state == Loading && SlotsOf(d, t) == LoadTable(d.store, t)
    ensures var m, after := MarksOf(t, resources, SlotsOf(d, t), objects), Do(resources, d, Post(t, objects));
      SlotsOf(after, t) == LoadTable(after.store, t) <==>
        forall i :: 0 <= i < MAX_ENTRIES && i in m.kept ==> m.kept[i] == SavedOr(m, i, SlotsOf(d, t)[i])
  {
    ReloadIff(d, t);
    PostIsReloaded(resources, d, t, objects);
    hide Do;
    hide MarksOf;
    hide LoadTable;
    var m := MarksOf(t, resources, SlotsOf(d, t), objects);
    forall i | 0 <= i < MAX_ENTRIES
      ensures SyncedBy(d, t, m, i) <==> (i in m.kept ==> m.kept[i] == SavedOr(m, i, SlotsOf(d, t)[i]))
    {
      assert Synced(d, t, i);
    }
  }

  /** A deletion puts one slot in sync, and leaves the others as they were. */
  lemma DeleteSyncs(resources: set<string>, d: Device, t: Table, id: int, u: Table, i: nat)
    requires i < MAX_ENTRIES
    ensures Synced(Do(resources, d, Delete(t, id)), u, i) <==>
      Synced(d, u, i) || (u == t && d.state == Loading && i == Find(SlotsOf(d, t), id, 0))
  {
    var slot := Find(SlotsOf(d, t), id, 0);
    hide Find;
    if d.state == Loading && slot < MAX_ENTRIES {
      var after := Do(resources, d, Delete(t, id));
      LoadAfterDelete(d.store, u, Slot(t, slot));
      hide ApplyAll;
      assert LoadTable(after.store, u)[i] == StoredAt(after.store, u, i);
      assert LoadTable(d.store, u)[i] == StoredAt(d.store, u, i);
    } else {
      assert EffectOf(resources, d, Delete(t, id)).ops == [];
      assert ApplyAll(d.store, []) == d.store;
    }
  }

  lemma DeleteIsSaved(resources: set<string>, d: Device, t: Table, id: int)
    requires d.state == Loading && Find(SlotsOf(d, t), id, 0) < MAX_ENTRIES
    ensures var after, slot := Do(resources, d, Delete(t, id)), Find(SlotsOf(d, t), id, 0);
      SlotsOf(after, t) == LoadTable(after.store, t) <==>
        forall i :: 0 <= i < MAX_ENTRIES && i != slot ==> Synced(d, t, i)
  {
    hide Do;
    hide Synced;
    hide LoadTable;
    ReloadIff(Do(resources, d, Delete(t, id)), t);
    forall i | 0 <= i < MAX_ENTRIES
      ensures Synced(Do(resources, d, Delete(t, id)), t, i) <==> Synced(d, t, i) || i == Find(SlotsOf(d, t), id, 0)
    {
      DeleteSyncs(resources, d, t, id, t, i);
    }
  }

  // ---------------------------------------------------------------------------
  // Over every run
  // ---------------------------------------------------------------------------

  /** The slots whose entries differ from their stored ones after an event, from those that did
      before it. */
  function DriftAfter(resources: set<string>, d: Device, t: Table, e: Event, drift: set<nat>): set<nat> {
    match e
    case PowerCut(_, _) => {}
    case Done(Post(u, objects)) =>
      if u != t || d.state != Loading then drift
      else
        var m := MarksOf(t, resources, SlotsOf(d, t), objects);
        set i: nat | 0 <= i < MAX_ENTRIES &&
          if i in m.kept then m.kept[i] != SavedOr(m, i, StoredAt(d.store, t, i)) else i !in m.saved && i in drift
    case Done(Delete(u, id)) => if u == t && d.state == Loading then drift - {Find(SlotsOf(d, t), id, 0)} else drift
    case Done(LoadEvent(code)) => if code == 4 then {} else drift
    case Done(Reset(mode)) => if mode == 2 || mode == 7 then {} else drift
  }

  function Drift(resources: set<string>, t: Table, events: seq<Event>): set<nat> {
    if events == [] then {}
    else
      var front := events[..|events| - 1];
      DriftAfter(resources, After(resources, front), t, events[|events| - 1], Drift(resources, t, front))
  }

  ghost predicate DriftIs(d: Device, t: Table, drift: set<nat>) {
    forall i :: 0 <= i < MAX_ENTRIES ==> (i in drift <==> !Synced(d, t, i))
  }

  lemma BootSyncs(s: Store, t: Table)
    ensures DriftIs(Boot(s), t, {})
  {
    assert SlotsOf(Boot(s), t) == LoadTable(s, t);
  }

  lemma FreeSyncs(d: Device, t: Table)
    requires SlotsOf(d, t) == AllFree() && StoredFree(d.store)
    ensures DriftIs(d, t, {})
  {
    assert forall i :: 0 <= i < MAX_ENTRIES ==> StoredAt(d.store, t, i) == FREE;
  }

  lemma SameEntries(d: Device, after: Device, t: Table, drift: set<nat>)
    requires DriftIs(d, t, drift) && SlotsOf(after, t) == SlotsOf(d, t)
    requires forall i :: 0 <= i < MAX_ENTRIES ==> StoredAt(after.store, t, i) == StoredAt(d.store, t, i)
    ensures DriftIs(after, t, drift)
  {
    forall i | 0 <= i < MAX_ENTRIES ensures i in drift <==> !Synced(after, t, i) {
      assert Synced(after, t, i) == Synced(d, t, i);
    }
  }

  lemma PostDrift(resources: set<string>, d: Device, t: Table, objects: payload, drift: set<nat>)
    requires d.state == Loading && DriftIs(d, t, drift)
    ensures DriftIs(Do(resources, d, Post(t, objects)), t, DriftAfter(resources, d, t, Done(Post(t, objects)), drift))
  {
    hide Do;
    hide MarksOf;
    forall i | 0 <= i < MAX_ENTRIES
      ensures i in DriftAfter(resources, d, t, Done(Post(t, objects)), drift) <==>
        !Synced(Do(resources, d, Post(t, objects)), t, i)
    {
      PostSyncs(resources, d, t, objects, i);
      assert i in drift <==> !Synced(d, t, i);
    }
  }

  lemma DeleteDrift(resources: set<string>, d: Device, t: Table, a: Action, drift: set<nat>)
    requires a.Delete? && DriftIs(d, t, drift)
    ensures DriftIs(Do(resources, d, a), t, DriftAfter(resources, d, t, Done(a), drift))
  {
    hide Do;
    hide Synced;
    forall i | 0 <= i < MAX_ENTRIES
      ensures i in DriftAfter(resources, d, t, Done(a), drift) <==> !Synced(Do(resources, d, a), t, i)
    {
      DeleteSyncs(resources, d, a.t, a.id, t, i);
    }
  }

  lemma OtherPost(resources: set<string>, d: Device, t: Table, u: Table, objects: payload, i: nat)
    requires (u != t || d.state != Loading) && i < MAX_ENTRIES
    ensures StoredAt(Do(resources, d, Post(u, objects)).store, t, i) == StoredAt(d.store, t, i)
  {
    if d.state == Loading {
      PostStaysApart(u, t, resources, SlotsOf(d, u), d.store, objects);
      var after := Do(resources, d, Post(u, objects));
      assert LoadTable(after.store, t)[i] == StoredAt(after.store, t, i);
      assert LoadTable(d.store, t)[i] == StoredAt(d.store, t, i);
    }
  }

  /** A POST writes to its own table only. */
  lemma {:induction false} PostStaysApart(u: Table, t: Table, resources: set<string>, was: slots, s: Store,
          objects: payload)
    requires u != t
    ensures Stored(s, t, PostAll(u, resources, was, objects)) == LoadTable(s, t)
  {
    if objects != [] {
      PostStaysApart(u, t, resources, was, s, objects[..|objects| - 1]);
      var p, last := PostAll(u, resources, was, objects[..|objects| - 1]), objects[|objects| - 1];
      if !p.stopped && last.Some? {
        ObjectStaysApart(u, t, resources, p, s, last.value);
      }
    }
  }

  lemma ObjectStaysApart(u: Table, t: Table, resources: set<string>, p: Progress, s: Store, items: seq<Item>)
    requires u != t
    ensures Stored(s, t, PostObject(u, resources, p, items)) == Stored(s, t, p)
  {
    hide Acceptable;
    PostObjectIs(u, resources, p, items);
    if HasSlot(p.s, items) {
      DeleteStored(s, u, t, p, Target(p.s, items));
      SaveStored(s, u, t, resources, p, Target(p.s, items), ReadAt(u, p.s, items).entry);
    }
  }

  lemma EventDrift(resources: set<string>, d: Device, t: Table, a: Action, drift: set<nat>)
    requires DriftIs(d, t, drift)
    ensures DriftIs(Do(resources, d, a), t, DriftAfter(resources, d, t, Done(a), drift))
  {
    var after := Do(resources, d, a);
    match a
    case Post(u, objects) =>
      if u == t && d.state == Loading {
        PostDrift(resources, d, t, objects, drift);
      } else {
        forall i | 0 <= i < MAX_ENTRIES ensures StoredAt(after.store, t, i) == StoredAt(d.store, t, i) {
          OtherPost(resources, d, t, u, objects, i);
        }
        SameEntries(d, after, t, drift);
      }
    case Delete(_, _) =>
      DeleteDrift(resources, d, t, a, drift);
    case LoadEvent(code) =>
      if code == 4 {
        EraseThenUnload(d.store, Recipients, Objects);
        FreeSyncs(after, t);
      } else {
        ApplyOne(d.store, WriteState(after.state));
        SameEntries(d, after, t, drift);
      }
    case Reset(mode) =>
      if mode == 7 {
        EraseThenUnload(d.store, Objects, Recipients);
        FreeSyncs(after, t);
      } else if mode == 2 {
        ResetTwoErases(d.store);
        FreeSyncs(after, t);
      } else {
        SameEntries(d, after, t, drift);
      }
  }

  /** After every run, power failures included, exactly these slots differ from what a restart
      loads. */
  lemma {:induction false} DriftIsExact(resources: set<string>, t: Table, events: seq<Event>)
    ensures DriftIs(After(resources, events), t, Drift(resources, t, events))
  {
    if events == [] {
      BootSyncs(Store(map[], None), t);
    } else {
      var front, e := events[..|events| - 1], events[|events| - 1];
      DriftIsExact(resources, t, front);
      var d := After(resources, front);
      match e
      case Done(a) => EventDrift(resources, d, t, a, Drift(resources, t, front));
      case PowerCut(a, k) =>
        BootSyncs(ApplyAll(d.store, EffectOf(resources, d, a).ops[..Reached(resources, d, a, k)]), t);
    }
  }

  /** The k-th event is a POST to the group objects in which an object fails the checks. */
  predicate FailsIn(resources: set<string>, events: seq<Event>, k: nat)
    requires k < |events|
  {
    var d, e := After(resources, events[..k]), events[k];
    && e.Done? && e.a.Post? && e.a.t == Objects && d.state == Loading
    && !PostAll(Objects, resources, d.objects, e.a.payload).ok
  }

  lemma NoDrift(resources: set<string>, d: Device, t: Table, e: Event)
    requires t == Objects && e.Done? && e.a.Post? && e.a.t == Objects && d.state == Loading ==>
      PostAll(Objects, resources, d.objects, e.a.payload).ok
    ensures DriftAfter(resources, d, t, e, {}) == {}
  {
    hide PostAll;
    hide MarksOf;
    if e.Done? && e.a.Post? && e.a.t == t && d.state == Loading {
      KeptNeedsFailure(t, resources, SlotsOf(d, t), e.a.payload);
    }
  }

  /** After every run the recipients are what a restart loads; so are the group objects, when no
      object posted to them failed the checks. */
  lemma {:induction false} TablesReload(resources: set<string>, t: Table, events: seq<Event>)
    requires t == Objects ==> forall k :: 0 <= k < |events| ==> !FailsIn(resources, events, k)
    ensures Drift(resources, t, events) == {}
    ensures SlotsOf(After(resources, events), t) == LoadTable(After(resources, events).store, t)
  {
    if events != [] {
      var n := |events| - 1;
      var front := events[..n];
      forall k | t == Objects && 0 <= k < n ensures !FailsIn(resources, front, k) {
        assert front[..k] == events[..k];
        assert !FailsIn(resources, events, k);
      }
      TablesReload(resources, t, front);
      assert t == Objects ==> !FailsIn(resources, events, n);
      NoDrift(resources, After(resources, front), t, events[n]);
    }
    DriftIsExact(resources, t, events);
    ReloadIff(After(resources, events), t);
  }

  // ---------------------------------------------------------------------------
  // A run that loses an object
  // ---------------------------------------------------------------------------

  const RESOURCES := {"/a"}

  /** A complete object, accepted unless it has no group address. */
  function ObjectItems(id: int, addresses: seq<int>): seq<Item> {
    [Int(0, id), Str(11, "/a"), Ints(7, addresses), Int(8, READ)]
  }

  function ObjectEntry(e: Entry, id: int, addresses: seq<int>): Entry {
    e.(id := id, href := "/a", ga := Addresses(addresses), cflags := READ)
  }

  lemma ReadObject(e: Entry, id: int, addresses: seq<int>)
    requires 0 <= id < 100
    ensures FindId(ObjectItems(id, addresses), 0) == id
    ensures ReadInto(Objects, e, id, ObjectItems(id, addresses)) ==
      Reading(ObjectEntry(e, id, addresses), false, 4, false)
  {
    var a, b, c, x := Int(0, id), Str(11, "/a"), Ints(7, addresses), Int(8, READ);
    var r := Reading(e, true, 0, false);
    assert ToInt32(id) == id && ToInt32(READ) == READ;
    assert [a, b, c, x][..3] == [a, b, c] && [a, b, c][..2] == [a, b] && [a, b][..1] == [a] && [a][..0] == [];
    assert ReadItems(Objects, r, [a]) == ReadItem(Objects, r, a);
    assert ReadItems(Objects, r, [a, b]) == ReadItem(Objects, ReadItems(Objects, r, [a]), b);
    assert ReadItems(Objects, r, [a, b, c]) == ReadItem(Objects, ReadItems(Objects, r, [a, b]), c);
    assert ReadItems(Objects, r, [a, b, c, x]) == ReadItem(Objects, ReadItems(Objects, r, [a, b, c]), x);
  }

  /** Such an object for a new id goes to the first free slot. */
  lemma PostNewObject(p: Progress, i: nat, id: int, addresses: seq<int>)
    requires 0 <= id < 100 && i < MAX_ENTRIES && p.s[i] == FREE
    requires (forall j :: 0 <= j < MAX_ENTRIES ==> p.s[j].id != id) && forall j :: 0 <= j < i ==> p.s[j].id != -1
    ensures PostObject(Objects, RESOURCES, p, ObjectItems(id, addresses)) ==
      CheckAndSave(Objects, RESOURCES, p.(status := Created), i, ObjectEntry(FREE, id, addresses))
  {
    ReadObject(FREE, id, addresses);
    assert Find(p.s, id, 0) == MAX_ENTRIES;
    assert Find(p.s, -1, 0) == i;
  }

  lemma PostOne(t: Table, resources: set<string>, s: slots, items: seq<Item>)
    ensures PostAll(t, resources, s, [Some(items)]) ==
      PostObject(t, resources, Progress(s, [], true, false, BadRequest), items)
  {
    assert [Some(items)][..0] == [];
  }

  lemma PostTwo(t: Table, resources: set<string>, s: slots, first: seq<Item>, second: seq<Item>)
    ensures var p := PostAll(t, resources, s, [Some(first)]);
      PostAll(t, resources, s, [Some(first), Some(second)]) ==
        if p.stopped then p else PostObject(t, resources, p, second)
  {
    assert [Some(first), Some(second)][..1] == [Some(first)];
  }

  const REJECTED := Post(Objects, [Some(ObjectItems(1, [])), Some(ObjectItems(2, [1]))])
  const ACCEPTED := Post(Objects, [Some(ObjectItems(3, [1]))])

  const FREED := [Erase(Slot(Objects, 0)), Write(Slot(Objects, 0), FREE)]

  lemma FirstFails()
    ensures PostObject(Objects, RESOURCES, Progress(AllFree(), [], true, false, BadRequest), ObjectItems(1, [])) ==
      Progress(AllFree(), FREED, false, false, Created)
  {
    PostNewObject(Progress(AllFree(), [], true, false, BadRequest), 0, 1, []);
    hide PostObject;
    assert AllFree()[0 := FREE] == AllFree();
    assert [] + FREED == FREED;
  }

  /** The first object fails the checks; the second then stays in memory. */
  lemma RejectedPost()
    ensures PostAll(Objects, RESOURCES, AllFree(), REJECTED.payload) ==
      Progress(AllFree()[0 := ObjectEntry(FREE, 2, [1])], FREED, false, false, Created)
  {
    PostOne(Objects, RESOURCES, AllFree(), ObjectItems(1, []));
    PostTwo(Objects, RESOURCES, AllFree(), ObjectItems(1, []), ObjectItems(2, [1]));
    hide PostAll;
    FirstFails();
    PostNewObject(Progress(AllFree(), FREED, false, false, Created), 0, 2, [1]);
    hide PostObject;
  }

  lemma LoadingRun()
    ensures var d := After(RESOURCES, [Done(LoadEvent(1))]);
      d.state == Loading && d.store.entries == map[] && d.objects == AllFree()
  {
    assert [Done(LoadEvent(1))][..0] == [];
    ApplyOne(NEW_DEVICE.store, WriteState(Loading));
  }

  /** After a start, loading, and a POST whose first object fails the checks, its second object is in
      memory and not in storage. */
  lemma RejectedRun()
    ensures var d := After(RESOURCES, [Done(LoadEvent(1)), Done(REJECTED)]);
      && d.state == Loading && d.store.entries == map[Slot(Objects, 0) := FREE]
      && d.objects == AllFree()[0 := ObjectEntry(FREE, 2, [1])]
  {
    assert [Done(LoadEvent(1)), Done(REJECTED)][..1] == [Done(LoadEvent(1))];
    LoadingRun();
    RejectedPost();
    hide PostAll;
    EraseThenWriteStored(After(RESOURCES, [Done(LoadEvent(1))]).store);
  }

  lemma EraseThenWriteStored(s: Store)
    requires s.entries == map[]
    ensures var after := ApplyAll(s, FREED);
      after.entries == map[Slot(Objects, 0) := FREE] && after.state == s.state
  {
    var e, w := Erase(Slot(Objects, 0)), Write(Slot(Objects, 0), FREE);
    assert [e, w] == [e] + [w];
    ApplyOne(s, e);
    ApplySnoc(s, [e], w);
  }

  lemma AcceptedPost(s: slots)
    requires s == AllFree()[0 := ObjectEntry(FREE, 2, [1])]
    ensures var e := ObjectEntry(FREE, 3, [1]);
      PostAll(Objects, RESOURCES, s, ACCEPTED.payload) ==
        Progress(s[1 := e], [Write(Slot(Objects, 1), e)], true, false, Created)
  {
    PostOne(Objects, RESOURCES, s, ObjectItems(3, [1]));
    hide PostAll;
    PostNewObject(Progress(s, [], true, false, BadRequest), 1, 3, [1]);
    hide PostObject;
    var e := ObjectEntry(FREE, 3, [1]);
    assert [] + [Write(Slot(Objects, 1), e)] == [Write(Slot(Objects, 1), e)];
  }

  /** And a POST that is accepted after it leaves the difference: the table is not its reload. */
  lemma AcceptedAfterRejected()
    ensures var d := After(RESOURCES, [Done(LoadEvent(1)), Done(REJECTED)]);
      var after := After(RESOURCES, [Done(LoadEvent(1)), Done(REJECTED), Done(ACCEPTED)]);
      && Answer(PostAll(Objects, RESOURCES, d.objects, ACCEPTED.payload)) == Created
      && after.objects[0] == ObjectEntry(FREE, 2, [1]) != FREE
      && LoadTable(after.store, Objects)[0] == FREE
  {
    var d := After(RESOURCES, [Done(LoadEvent(1)), Done(REJECTED)]);
    var events := [Done(LoadEvent(1)), Done(REJECTED), Done(ACCEPTED)];
    RejectedRun();
    AcceptedPost(d.objects);
    hide PostAll;
    assert events[..2] == [Done(LoadEvent(1)), Done(REJECTED)];
    ApplyOne(d.store, Write(Slot(Objects, 1), ObjectEntry(FREE, 3, [1])));
  }
}
