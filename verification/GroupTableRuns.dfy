/** What every run of the group tables keeps: an unloaded device has empty tables, in memory and in
    storage, even when the power fails between two writes. */
module GroupTableRuns {
  import opened Wrappers
  import opened GroupTables

  // ---------------------------------------------------------------------------
  // Unloaded means empty
  // ---------------------------------------------------------------------------

  ghost predicate StoredFree(s: Store) {
    forall t, i :: 0 <= i < MAX_ENTRIES ==> StoredAt(s, t, i) == FREE
  }

  /** A store from which a start can be made at any time: unless it names another state, it holds
      no entry. */
  ghost predicate SafeStore(s: Store) {
    s.state == None || s.state == Some(Unloaded) ==> StoredFree(s)
  }

  ghost predicate Inv(d: Device) {
    && d.state == (if d.store.state.Some? then d.store.state.value else Unloaded)
    && SafeStore(d.store)
    && (d.state == Unloaded ==> d.objects == AllFree() && d.recipients == AllFree())
  }

  lemma BootIsSafe(s: Store)
    requires SafeStore(s)
    ensures Inv(Boot(s))
  {
    if Boot(s).state == Unloaded {
      assert forall i :: 0 <= i < MAX_ENTRIES ==>
        LoadTable(s, Objects)[i] == FREE && LoadTable(s, Recipients)[i] == FREE;
    }
  }

  /** A write that leaves a safe store safe. */
  ghost predicate Allowed(s: Store, op: Op) {
    match op
    case Erase(_) => true
    case Write(_, e) => s.state.Some? && s.state.value != Unloaded
    case WriteState(state) => state == Unloaded ==> StoredFree(s)
  }

  ghost predicate AllAllowed(s: Store, ops: seq<Op>) {
    forall k :: 0 <= k < |ops| ==> Allowed(ApplyAll(s, ops[..k]), ops[k])
  }

  lemma AllowedIsSafe(s: Store, op: Op)
    requires SafeStore(s) && Allowed(s, op)
    ensures SafeStore(Apply(s, op))
  {
    var after := Apply(s, op);
    if StoredFree(s) && !op.Write? {
      forall t, i | 0 <= i < MAX_ENTRIES ensures StoredAt(after, t, i) == FREE {
        assert StoredAt(s, t, i) == FREE;
      }
    }
  }

  lemma {:induction false} PrefixIsSafe(s: Store, ops: seq<Op>, k: nat)
    requires SafeStore(s) && AllAllowed(s, ops) && k <= |ops|
    ensures SafeStore(ApplyAll(s, ops[..k]))
  {
    if k > 0 {
      PrefixIsSafe(s, ops, k - 1);
      assert ops[..k][..k - 1] == ops[..k - 1];
      AllowedIsSafe(ApplyAll(s, ops[..k - 1]), ops[k - 1]);
    }
  }

  lemma AllowedSnoc(s: Store, ops: seq<Op>, op: Op)
    requires AllAllowed(s, ops) && Allowed(ApplyAll(s, ops), op)
    ensures AllAllowed(s, ops + [op])
  {
    var all := ops + [op];
    forall k | 0 <= k < |all| ensures Allowed(ApplyAll(s, all[..k]), all[k]) {
      assert all[..k] == ops[..k];
      assert ops[..|ops|] == ops;
    }
  }

  lemma ApplySnoc(s: Store, ops: seq<Op>, op: Op)
    ensures ApplyAll(s, ops + [op]) == Apply(ApplyAll(s, ops), op)
  {
    assert (ops + [op])[..|ops|] == ops;
  }

  lemma ApplyOne(s: Store, op: Op)
    ensures ApplyAll(s, [op]) == Apply(s, op)
  {
    ApplySnoc(s, [], op);
    assert [] + [op] == [op];
  }

  lemma {:induction false} ErasesAllowed(s: Store, ops: seq<Op>, n: nat)
    requires n <= |ops| && forall k :: 0 <= k < n ==> ops[k].Erase?
    ensures AllAllowed(s, ops[..n])
    ensures ApplyAll(s, ops[..n]).state == s.state
    ensures forall t, i :: 0 <= i < MAX_ENTRIES ==>
      StoredAt(ApplyAll(s, ops[..n]), t, i) == if Erase(Slot(t, i)) in ops[..n] then FREE else StoredAt(s, t, i)
  {
    if n > 0 {
      ErasesAllowed(s, ops, n - 1);
      assert ops[..n] == ops[..n - 1] + [ops[n - 1]];
      AllowedSnoc(s, ops[..n - 1], ops[n - 1]);
      ApplySnoc(s, ops[..n - 1], ops[n - 1]);
    }
  }

  lemma TablesErased(s: Store, first: Table, second: Table)
    requires first != second
    ensures var ops := EraseTable(first) + EraseTable(second);
      AllAllowed(s, ops) && StoredFree(ApplyAll(s, ops)) && ApplyAll(s, ops).state == s.state
  {
    var ops := EraseTable(first) + EraseTable(second);
    assert ops[..|ops|] == ops;
    ErasesAllowed(s, ops, |ops|);
    forall t, i | 0 <= i < MAX_ENTRIES ensures Erase(Slot(t, i)) in ops {
      assert t == first ==> ops[i] == Erase(Slot(t, i));
      assert t == second ==> ops[MAX_ENTRIES + i] == Erase(Slot(t, i));
    }
  }

  /** Erase first, then say so: the order of the unload event and of reset 7. */
  lemma EraseThenUnload(s: Store, first: Table, second: Table)
    requires first != second
    ensures var ops := EraseTable(first) + EraseTable(second) + [WriteState(Unloaded)];
      AllAllowed(s, ops) && StoredFree(ApplyAll(s, ops)) && ApplyAll(s, ops).state == Some(Unloaded)
  {
    var erases := EraseTable(first) + EraseTable(second);
    TablesErased(s, first, second);
    AllowedSnoc(s, erases, WriteState(Unloaded));
    ApplySnoc(s, erases, WriteState(Unloaded));
    var last := ApplyAll(s, erases);
    forall t, i | 0 <= i < MAX_ENTRIES ensures StoredAt(Apply(last, WriteState(Unloaded)), t, i) == FREE {
      assert StoredAt(last, t, i) == FREE;
    }
  }

  /** Posting writes entries only, and only while the device is loading. */
  ghost predicate EntriesOnly(ops: seq<Op>) {
    forall k :: 0 <= k < |ops| ==> !ops[k].WriteState?
  }

  lemma {:induction false} EntriesAllowed(s: Store, ops: seq<Op>)
    requires EntriesOnly(ops) && s.state.Some? && s.state.value != Unloaded
    ensures AllAllowed(s, ops) && ApplyAll(s, ops).state == s.state
  {
    if ops != [] {
      var front := ops[..|ops| - 1];
      EntriesAllowed(s, front);
      assert ops == front + [ops[|ops| - 1]];
      AllowedSnoc(s, front, ops[|ops| - 1]);
      ApplySnoc(s, front, ops[|ops| - 1]);
    }
  }

  lemma PostObjectWritesEntries(t: Table, resources: set<string>, p: Progress, items: seq<Item>)
    requires EntriesOnly(p.ops)
    ensures EntriesOnly(PostObject(t, resources, p, items).ops)
  {
    var id := FindId(items, 0);
    var i, j := Find(p.s, id, 0), FindEmptySlot(p.s, id);
    if i < MAX_ENTRIES {
      ConcludeWritesEntries(t, resources, p.(status := Changed), i, false, ReadInto(t, p.s[i], id, items));
    } else if j < MAX_ENTRIES {
      ConcludeWritesEntries(t, resources, p.(status := Created), j, true, ReadInto(t, p.s[j], id, items));
    }
  }

  lemma ConcludeWritesEntries(t: Table, resources: set<string>, p: Progress, i: nat, created: bool, r: Reading)
    requires EntriesOnly(p.ops) && i < MAX_ENTRIES
    ensures EntriesOnly(Conclude(t, resources, p, i, created, r).ops)
  {
  }

  lemma {:induction false} PostWritesEntries(t: Table, resources: set<string>, s: slots,
          payload: seq<Option<seq<Item>>>)
    ensures EntriesOnly(PostAll(t, resources, s, payload).ops)
  {
    if payload != [] {
      var p := PostAll(t, resources, s, payload[..|payload| - 1]);
      PostWritesEntries(t, resources, s, payload[..|payload| - 1]);
      if payload[|payload| - 1].Some? {
        PostObjectWritesEntries(t, resources, p, payload[|payload| - 1].value);
      }
    }
  }

  lemma PostAllowed(resources: set<string>, d: Device, t: Table, payload: seq<Option<seq<Item>>>)
    requires Inv(d) && d.state == Loading
    ensures AllAllowed(d.store, EffectOf(resources, d, Post(t, payload)).ops)
    ensures Inv(Do(resources, d, Post(t, payload)))
  {
    hide PostAll;
    var ops := EffectOf(resources, d, Post(t, payload)).ops;
    PostWritesEntries(t, resources, SlotsOf(d, t), payload);
    EntriesAllowed(d.store, ops);
  }

  lemma DeleteAllowed(resources: set<string>, d: Device, t: Table, id: int)
    requires Inv(d)
    ensures AllAllowed(d.store, EffectOf(resources, d, Delete(t, id)).ops)
    ensures Inv(Do(resources, d, Delete(t, id)))
  {
    var ops := EffectOf(resources, d, Delete(t, id)).ops;
    if ops != [] {
      EntriesAllowed(d.store, ops);
    }
  }

  lemma StateAllowed(s: Store, state: LoadState)
    requires state != Unloaded
    ensures AllAllowed(s, [WriteState(state)]) && ApplyAll(s, [WriteState(state)]).state == Some(state)
  {
    ApplyOne(s, WriteState(state));
    assert [WriteState(state)][..0] == [];
  }

  lemma LoadEventAllowed(resources: set<string>, d: Device, code: int)
    requires Inv(d)
    ensures AllAllowed(d.store, EffectOf(resources, d, LoadEvent(code)).ops)
    ensures Inv(Do(resources, d, LoadEvent(code)))
  {
    hide EraseTable;
    hide ApplyAll;
    if code == 4 {
      EraseThenUnload(d.store, Recipients, Objects);
    } else if code == 1 {
      StateAllowed(d.store, Loading);
    } else if code == 2 {
      StateAllowed(d.store, Loaded);
    } else {
      NothingAllowed(resources, d, LoadEvent(code));
    }
  }

  lemma ResetAllowed(resources: set<string>, d: Device, mode: int)
    requires Inv(d) && mode != 2
    ensures AllAllowed(d.store, EffectOf(resources, d, Reset(mode)).ops)
    ensures Inv(Do(resources, d, Reset(mode)))
  {
    hide EraseTable;
    hide ApplyAll;
    if mode == 7 {
      EraseThenUnload(d.store, Objects, Recipients);
    } else {
      NothingAllowed(resources, d, Reset(mode));
    }
  }

  lemma EffectAllowed(resources: set<string>, d: Device, a: Action)
    requires Inv(d) && a != Reset(2)
    ensures AllAllowed(d.store, EffectOf(resources, d, a).ops)
    ensures Inv(Do(resources, d, a))
  {
    hide Inv;
    hide Do;
    hide AllAllowed;
    match a
    case Post(t, payload) =>
      if d.state == Loading {
        PostAllowed(resources, d, t, payload);
      } else {
        NothingAllowed(resources, d, a);
      }
    case Delete(t, id) => DeleteAllowed(resources, d, t, id);
    case LoadEvent(code) => LoadEventAllowed(resources, d, code);
    case Reset(mode) => ResetAllowed(resources, d, mode);
  }

  lemma NothingAllowed(resources: set<string>, d: Device, a: Action)
    requires Inv(d) && EffectOf(resources, d, a) == Nothing(d)
    ensures AllAllowed(d.store, EffectOf(resources, d, a).ops)
    ensures Inv(Do(resources, d, a))
  {
  }

  /** After every single write of every action but reset 2, the store is one from which the device
      starts with empty tables if it starts unloaded. */
  lemma EveryWriteIsSafe(resources: set<string>, d: Device, a: Action, k: nat)
    requires Inv(d) && a != Reset(2) && k <= |EffectOf(resources, d, a).ops|
    ensures SafeStore(ApplyAll(d.store, EffectOf(resources, d, a).ops[..k]))
    ensures Inv(Crash(resources, d, a, k))
  {
    EffectAllowed(resources, d, a);
    PrefixIsSafe(d.store, EffectOf(resources, d, a).ops, k);
    BootIsSafe(ApplyAll(d.store, EffectOf(resources, d, a).ops[..k]));
  }

  lemma ResetTwoErases(s: Store)
    ensures var after := ApplyAll(s, [WriteState(Unloaded)] + EraseTable(Objects) + EraseTable(Recipients));
      StoredFree(after) && after.state == Some(Unloaded)
  {
    var erases := EraseTable(Objects) + EraseTable(Recipients);
    assert [WriteState(Unloaded)][..0] == [];
    ApplyAppend(s, [WriteState(Unloaded)], erases);
    TablesErased(ApplyAll(s, [WriteState(Unloaded)]), Objects, Recipients);
    assert [WriteState(Unloaded)] + EraseTable(Objects) + EraseTable(Recipients) == [WriteState(Unloaded)] + erases;
  }

  /** The slot that reset 2 erases as its n-th after it has written the state. */
  function ErasedAs(n: nat): Slot {
    if n < MAX_ENTRIES then Slot(Objects, n) else Slot(Recipients, n - MAX_ENTRIES)
  }

  /** Nothing is stored in the slots that reset 2 has not erased after k writes. */
  ghost predicate RestIsFree(s: Store, k: nat) {
    forall n :: k - 1 <= n < 2 * MAX_ENTRIES && 0 <= n ==> StoredAt(s, ErasedAs(n).t, ErasedAs(n).i) == FREE
  }

  ghost predicate SafeCut(s: Store, k: nat) {
    k == 0 || RestIsFree(s, k)
  }

  lemma ResetTwoOps(resources: set<string>, d: Device)
    ensures var ops := EffectOf(resources, d, Reset(2)).ops;
      && |ops| == 2 * MAX_ENTRIES + 1 && ops[0] == WriteState(Unloaded)
      && forall n :: 0 <= n < 2 * MAX_ENTRIES ==> ops[1..][n] == Erase(ErasedAs(n))
  {
  }

  lemma ErasedIs(erases: seq<Op>, m: nat, t: Table, i: nat)
    requires m <= |erases| == 2 * MAX_ENTRIES && i < MAX_ENTRIES
    requires forall n :: 0 <= n < 2 * MAX_ENTRIES ==> erases[n] == Erase(ErasedAs(n))
    ensures var n := if t == Objects then i else MAX_ENTRIES + i;
      ErasedAs(n) == Slot(t, i) && (Erase(Slot(t, i)) in erases[..m] <==> n < m)
  {
    var n := if t == Objects then i else MAX_ENTRIES + i;
    if n < m {
      assert erases[..m][n] == Erase(Slot(t, i));
    }
  }

  /** What is stored after reset 2 has been cut short. */
  lemma StoredAfterCut(s: Store, erases: seq<Op>, m: nat)
    requires m <= |erases| == 2 * MAX_ENTRIES
    requires forall n :: 0 <= n < 2 * MAX_ENTRIES ==> erases[n] == Erase(ErasedAs(n))
    ensures StoredFree(ApplyAll(s, erases[..m])) <==> RestIsFree(s, m + 1)
    ensures ApplyAll(s, erases[..m]).state == s.state
  {
    hide ApplyAll;
    hide StoredAt;
    var after := ApplyAll(s, erases[..m]);
    ErasesAllowed(s, erases, m);
    forall t, i | 0 <= i < MAX_ENTRIES
      ensures var n := if t == Objects then i else MAX_ENTRIES + i;
        ErasedAs(n) == Slot(t, i) && StoredAt(after, t, i) == if n < m then FREE else StoredAt(s, t, i)
    {
      ErasedIs(erases, m, t, i);
    }
    if StoredFree(after) {
      forall n: nat | m <= n < 2 * MAX_ENTRIES ensures StoredAt(s, ErasedAs(n).t, ErasedAs(n).i) == FREE {
        assert StoredAt(after, ErasedAs(n).t, ErasedAs(n).i) == FREE;
      }
    }
    if RestIsFree(s, m + 1) {
      forall t, i | 0 <= i < MAX_ENTRIES ensures StoredAt(after, t, i) == FREE {
        var n := if t == Objects then i else MAX_ENTRIES + i;
        assert ErasedAs(n) == Slot(t, i);
      }
    }
  }

  /** Reset 2 announces the unloaded state before it erases anything. Cut short after k writes, it
      leaves a device that is unloaded and has entries, unless k is 0 or there was nothing in the
      slots it had not erased yet. */
  lemma ResetTwoAnnouncesFirst(resources: set<string>, d: Device, k: nat)
    requires Inv(d) && k <= |EffectOf(resources, d, Reset(2)).ops|
    ensures Inv(Crash(resources, d, Reset(2), k)) <==> SafeCut(d.store, k)
  {
    ResetTwoOps(resources, d);
    var ops := EffectOf(resources, d, Reset(2)).ops;
    var after := ApplyAll(d.store, ops[..k]);
    hide EffectOf;
    if k > 0 {
      var announced := ApplyAll(d.store, [WriteState(Unloaded)]);
      ApplyOne(d.store, WriteState(Unloaded));
      assert ops[..k] == [WriteState(Unloaded)] + ops[1..][..k - 1];
      ApplyAppend(d.store, [WriteState(Unloaded)], ops[1..][..k - 1]);
      StoredAfterCut(announced, ops[1..], k - 1);
      assert forall t, i :: StoredAt(announced, t, i) == StoredAt(d.store, t, i);
    }
    if SafeStore(after) {
      BootIsSafe(after);
    }
  }

  lemma ResetTwoCompletes(resources: set<string>, d: Device)
    requires Inv(d)
    ensures Inv(Do(resources, d, Reset(2)))
  {
    ResetTwoErases(d.store);
  }

  /** A run: actions that are carried out, and actions cut short by a power failure. */
  datatype Event = Done(a: Action) | PowerCut(a: Action, k: nat)

  /** The writes that are carried out before the power fails. */
  function Reached(resources: set<string>, d: Device, a: Action, k: nat): (n: nat)
    ensures n <= |EffectOf(resources, d, a).ops|
  {
    if k < |EffectOf(resources, d, a).ops| then k else |EffectOf(resources, d, a).ops|
  }

  function After(resources: set<string>, events: seq<Event>): Device {
    if events == [] then NEW_DEVICE
    else
      var d := After(resources, events[..|events| - 1]);
      match events[|events| - 1]
      case Done(a) => Do(resources, d, a)
      case PowerCut(a, k) => Crash(resources, d, a, Reached(resources, d, a, k))
  }

  lemma NewDeviceIsSafe()
    ensures Inv(NEW_DEVICE)
  {
    BootIsSafe(Store(map[], None));
  }

  /** The k-th event is not a reset 2 that is cut short while there are entries left to erase. */
  ghost predicate CutIsSafe(resources: set<string>, events: seq<Event>, k: nat)
    requires k < |events|
  {
    var d, e := After(resources, events[..k]), events[k];
    e.PowerCut? && e.a == Reset(2) ==> SafeCut(d.store, Reached(resources, d, e.a, e.k))
  }

  lemma EventIsSafe(resources: set<string>, d: Device, e: Event)
    requires Inv(d)
    requires e.PowerCut? && e.a == Reset(2) ==> SafeCut(d.store, Reached(resources, d, e.a, e.k))
    ensures Inv(if e.Done? then Do(resources, d, e.a) else Crash(resources, d, e.a, Reached(resources, d, e.a, e.k)))
  {
    hide Inv;
    hide EffectOf;
    hide Do;
    hide Crash;
    if e.a == Reset(2) {
      if e.Done? {
        ResetTwoCompletes(resources, d);
      } else {
        ResetTwoAnnouncesFirst(resources, d, Reached(resources, d, e.a, e.k));
      }
    } else if e.Done? {
      EffectAllowed(resources, d, e.a);
    } else {
      EveryWriteIsSafe(resources, d, e.a, Reached(resources, d, e.a, e.k));
    }
  }

  /** Over every run: as long as each reset 2 that is cut short has nothing left to erase, an unloaded
      device has empty tables, in memory and in storage. */
  lemma {:induction false} UnloadedMeansEmpty(resources: set<string>, events: seq<Event>)
    requires forall k :: 0 <= k < |events| ==> CutIsSafe(resources, events, k)
    ensures var d := After(resources, events);
      && Inv(d)
      && (d.state == Unloaded ==> d.objects == AllFree() && d.recipients == AllFree() && StoredFree(d.store))
  {
    NewDeviceIsSafe();
    if events != [] {
      var n := |events| - 1;
      var front := events[..n];
      forall k | 0 <= k < n ensures CutIsSafe(resources, front, k) {
        assert front[..k] == events[..k];
        assert CutIsSafe(resources, events, k);
      }
      UnloadedMeansEmpty(resources, front);
      assert CutIsSafe(resources, events, n);
      EventIsSafe(resources, After(resources, front), events[n]);
    }
  }
}
