/** The device: its two tables as arrays that the handlers change in place, its load state, and its
    storage. */
module GroupDevice {
  import opened Wrappers
  import opened GroupTables

  class KnxDevice {
    const objects: array<Entry>
    const recipients: array<Entry>
    const resources: set<string>
    var state: LoadState
    var store: Store
    /** The writes to storage since start-up, in order. */
    ghost var written: seq<Op>

    ghost predicate Valid()
      reads this
    {
      objects.Length == MAX_ENTRIES && recipients.Length == MAX_ENTRIES && objects != recipients
    }

    function At(t: Table): array<Entry> {
      if t == Objects then objects else recipients
    }

    ghost function Device(): Device
      reads this, objects, recipients
      requires Valid()
    {
      GroupTables.Device(objects[..], recipients[..], state, store)
    }

    /** These operations have been written to storage, in this order. */
    twostate predicate Wrote(ops: seq<Op>)
      reads this
    {
      written == old(written) + ops && store == ApplyAll(old(store), ops)
    }

    /** Start-up. */
    constructor (store: Store, resources: set<string>)
      ensures Valid() && fresh(objects) && fresh(recipients)
      ensures Device() == Boot(store) && this.resources == resources && written == []
      ensures state == if store.state == None then Unloaded else store.state.value
    {
      var got := new Entry[MAX_ENTRIES](i => StoredAt(store, Objects, i));
      var grt := new Entry[MAX_ENTRIES](i => StoredAt(store, Recipients, i));
      objects, recipients := got, grt;
      this.resources := resources;
      state := if store.state.Some? then store.state.value else Unloaded;
      this.store := store;
      written := [];
      new;
      assert objects[..] == LoadTable(store, Objects) && recipients[..] == LoadTable(store, Recipients);
    }

    method Storage(op: Op)
      modifies this`store, this`written
      ensures Wrote([op])
    {
      store := Apply(store, op);
      written := written + [op];
      assert [op][..0] == [];
    }

    /** oc_core_find_index_in_group_object_table_from_id, oc_core_find_index_in_rp_table_from_id;
        the table size stands for "not found". */
    method FindIndex(t: Table, id: int) returns (i: nat)
      requires Valid()
      ensures i == Find(At(t)[..], id, 0)
    {
      var s := At(t);
      i := 0;
      while i < MAX_ENTRIES
        invariant i <= MAX_ENTRIES && Find(s[..], id, 0) == Find(s[..], id, i)
      {
        if s[i].id == id {
          return;
        }
        i := i + 1;
      }
    }

    method FindEmpty(t: Table, id: int) returns (i: nat)
      requires Valid()
      ensures i == FindEmptySlot(At(t)[..], id)
    {
      if id < 0 {
        return MAX_ENTRIES;
      }
      i := FindIndex(t, -1);
    }

    method DeleteEntry(t: Table, i: nat)
      requires Valid() && i < MAX_ENTRIES
      modifies this`store, this`written, At(t)
      ensures At(t)[..] == old(At(t)[..])[i := FREE]
      ensures Wrote([Erase(Slot(t, i))])
    {
      Storage(Erase(Slot(t, i)));
      At(t)[i] := FREE;
    }

    method DumpEntry(t: Table, i: nat)
      requires Valid() && i < MAX_ENTRIES
      modifies this`store, this`written
      ensures Wrote([Write(Slot(t, i), At(t)[i])])
    {
      Storage(Write(Slot(t, i), At(t)[i]));
    }

    /** oc_delete_group_object_table, oc_delete_group_rp_table */
    method DeleteTable(t: Table)
      requires Valid()
      modifies this`store, this`written, At(t)
      ensures At(t)[..] == AllFree()
      ensures Wrote(EraseTable(t))
    {
      ghost var ops := EraseTable(t);
      assert ops[..0] == [];
      for i := 0 to MAX_ENTRIES
        invariant Wrote(ops[..i])
        invariant forall j :: 0 <= j < i ==> At(t)[j] == FREE
      {
        ghost var before := store;
        DeleteEntry(t, i);
        assert ops[..i + 1] == ops[..i] + [ops[i]];
        ApplyAppend(old(store), ops[..i], [ops[i]]);
      }
      assert ops[..MAX_ENTRIES] == ops;
    }

    /** oc_a_lsm_set_state */
    method SetState(s: LoadState)
      modifies this`state, this`store, this`written
      ensures state == s && Wrote([WriteState(s)])
    {
      state := s;
      Storage(WriteState(s));
    }

    twostate predicate Performed(e: Effect)
      reads this, objects, recipients
      requires Valid()
    {
      && objects[..] == e.objects && recipients[..] == e.recipients && state == e.state
      && Wrote(e.ops)
    }

    /** oc_lsm_event_to_state */
    method HandleLoadEvent(code: int) returns (ok: bool)
      requires Valid()
      modifies this`state, this`store, this`written, objects, recipients
      ensures Performed(EffectOf(resources, old(Device()), LoadEvent(code)))
      ensures ok <==> code in {0, 1, 2, 4}
      ensures state == if code == 1 then Loading else if code == 2 then Loaded else if code == 4 then Unloaded
        else old(state)
      ensures code == 4 ==> forall i :: 0 <= i < 20 ==> objects[i] == recipients[i] == FREE
    {
      if code == 0 {
        return true;
      }
      if code == 1 {
        SetState(Loading);
        return true;
      }
      if code == 2 {
        SetState(Loaded);
        return true;
      }
      if code == 4 {
        DeleteTable(Recipients);
        DeleteTable(Objects);
        SetState(Unloaded);
        ApplyAppend(old(store), EraseTable(Recipients), EraseTable(Objects));
        ApplyAppend(old(store), EraseTable(Recipients) + EraseTable(Objects), [WriteState(Unloaded)]);
        return true;
      }
      return false;
    }

    /** The steps of oc_knx_device_storage_reset that concern the tables and the load state. */
    method StorageReset(mode: int)
      requires Valid()
      modifies this`state, this`store, this`written, objects, recipients
      ensures Performed(EffectOf(resources, old(Device()), Reset(mode)))
      ensures mode !in {2, 7} ==> state == old(state) && objects[..] == old(objects[..]) && written == old(written)
      ensures mode in {2, 7} ==> state == Unloaded && forall i :: 0 <= i < 20 ==> objects[i] == recipients[i] == FREE
    {
      if mode == 2 {
        SetState(Unloaded);
        DeleteTable(Objects);
        DeleteTable(Recipients);
        ApplyAppend(old(store), [WriteState(Unloaded)], EraseTable(Objects));
        ApplyAppend(old(store), [WriteState(Unloaded)] + EraseTable(Objects), EraseTable(Recipients));
      } else if mode == 7 {
        DeleteTable(Objects);
        DeleteTable(Recipients);
        SetState(Unloaded);
        ApplyAppend(old(store), EraseTable(Objects), EraseTable(Recipients));
        ApplyAppend(old(store), EraseTable(Objects) + EraseTable(Recipients), [WriteState(Unloaded)]);
      }
    }

    /** oc_core_fp_g_x_del_handler, oc_core_fp_r_x_del_handler */
    method HandleDelete(t: Table, id: int) returns (status: Status)
      requires Valid()
      modifies this`store, this`written, At(t)
      ensures Performed(EffectOf(resources, old(Device()), Delete(t, id)))
      ensures status == if old(state) != Loading then BadRequest
        else if Find(old(At(t)[..]), id, 0) == MAX_ENTRIES then NotFound else Deleted
    {
      if state != Loading {
        return BadRequest;
      }
      var found := DeleteById(t, id);
      return if found then Deleted else NotFound;
    }

    method DeleteById(t: Table, id: int) returns (found: bool)
      requires Valid()
      modifies this`store, this`written, At(t)
      ensures var i := Find(old(At(t)[..]), id, 0);
        && (found <==> i < MAX_ENTRIES)
        && At(t)[..] == (if found then old(At(t)[..])[i := FREE] else old(At(t)[..]))
        && Wrote(if found then [Erase(Slot(t, i)), Write(Slot(t, i), FREE)] else [])
    {
      assert ApplyAll(store, []) == store;
      hide ApplyAll;
      var i := FindIndex(t, id);
      found := i < MAX_ENTRIES;
      if found {
        DeleteEntry(t, i);
        DumpEntry(t, i);
        EraseThenWrite(old(store), Slot(t, i));
      }
    }

    /** oc_table_find_id_from_rep */
    method FindIdInItems(items: seq<Item>) returns (id: int)
      ensures id == FindId(items, 0)
    {
      var k := 0;
      while k < |items|
        invariant k <= |items| && FindId(items, 0) == FindId(items, k)
      {
        if items[k].Int? && items[k].iname == 0 {
          return ToInt32(items[k].v);
        }
        k := k + 1;
      }
      return -1;
    }

    /** The loop over the items of an object: each is written to the table where it stands. */
    method ReadIntoSlot(t: Table, i: nat, id: int, items: seq<Item>)
      returns (idOnly: bool, mandatory: nat, identified: bool)
      requires Valid() && i < MAX_ENTRIES
      modifies At(t)
      ensures Reading(At(t)[i], idOnly, mandatory, identified) == ReadInto(t, old(At(t)[i]), id, items)
      ensures At(t)[..] == old(At(t)[..])[i := At(t)[i]]
    {
      if t == Recipients {
        recipients[i] := recipients[i].(id := id);
      }
      idOnly, mandatory, identified := true, 0, false;
      ghost var start := Reading(At(t)[i], true, 0, false);
      assert items[..0] == [];
      for k := 0 to |items|
        invariant Reading(At(t)[i], idOnly, mandatory, identified) == ReadItems(t, start, items[..k])
        invariant forall j :: 0 <= j < MAX_ENTRIES && j != i ==> At(t)[j] == old(At(t)[j])
      {
        assert items[..k + 1][..k] == items[..k];
        var r := ReadItem(t, Reading(At(t)[i], idOnly, mandatory, identified), items[k]);
        At(t)[i] := r.entry;
        idOnly, mandatory, identified := r.idOnly, r.mandatory, r.identified;
      }
      assert items[..|items|] == items;
    }

    /** From writes w and store s on, the handler has got to p. */
    ghost predicate HasReached(t: Table, w: seq<Op>, s: Store, p: Progress)
      reads this, At(t)
      requires Valid()
    {
      At(t)[..] == p.s && written == w + p.ops && store == ApplyAll(s, p.ops)
    }

    /** Deleting or saving entry i, with what has been written before. */
    method DeleteNext(t: Table, i: nat, ghost w: seq<Op>, ghost s: Store, ghost p: Progress)
      requires Valid() && i < MAX_ENTRIES
      requires written == w + p.ops && store == ApplyAll(s, p.ops) && At(t)[..][i := FREE] == p.s[i := FREE]
      modifies this`store, this`written, At(t)
      ensures HasReached(t, w, s, GroupTables.DeleteEntry(t, p, i))
    {
      ApplyAppend(s, p.ops, [Erase(Slot(t, i))]);
      DeleteEntry(t, i);
    }

    method DumpNext(t: Table, i: nat, ghost w: seq<Op>, ghost s: Store, ghost ops: seq<Op>)
      requires Valid() && i < MAX_ENTRIES
      requires written == w + ops && store == ApplyAll(s, ops)
      modifies this`store, this`written
      ensures written == w + (ops + [Write(Slot(t, i), At(t)[i])])
        && store == ApplyAll(s, ops + [Write(Slot(t, i), At(t)[i])])
    {
      ApplyAppend(s, ops, [Write(Slot(t, i), At(t)[i])]);
      DumpEntry(t, i);
    }

    /** oc_fp_g_check_and_save, and the save of a recipient. */
    method CheckAndSave(t: Table, i: nat, ghost w: seq<Op>, ghost s: Store, ghost p: Progress, statusOk: bool)
      returns (ok: bool)
      requires Valid() && i < MAX_ENTRIES && (t == Recipients ==> statusOk) && statusOk == p.ok
      requires written == w + p.ops && store == ApplyAll(s, p.ops) && At(t)[..] == p.s[i := At(t)[i]]
      modifies this`store, this`written, At(t)
      ensures var q := GroupTables.CheckAndSave(t, resources, p, i, old(At(t)[i]));
        HasReached(t, w, s, q) && ok == q.ok && (t == Recipients ==> ok)
    {
      hide ApplyAll;
      hide Acceptable;
      if t == Recipients {
        DumpNext(t, i, w, s, p.ops);
        return true;
      }
      if !statusOk {
        return false;
      }
      if Acceptable(objects[i], resources) {
        DumpNext(t, i, w, s, p.ops);
        return true;
      }
      DeleteNext(t, i, w, s, p);
      DumpNext(t, i, w, s, p.ops + [Erase(Slot(t, i))]);
      assert p.ops + [Erase(Slot(t, i))] + [Write(Slot(t, i), FREE)] ==
        p.ops + [Erase(Slot(t, i)), Write(Slot(t, i), FREE)];
      return false;
    }

    /** The object is read into its slot, and then deleted, rejected or saved. */
    method ReadAndSave(t: Table, i: nat, id: int, created: bool, items: seq<Item>, statusOk: bool, ghost w: seq<Op>,
            ghost s: Store, ghost p: Progress)
      returns (stopped: bool, ok: bool)
      requires Valid() && i < MAX_ENTRIES && (t == Recipients ==> statusOk)
      requires HasReached(t, w, s, p) && p.ok == statusOk && !p.stopped
      modifies this`store, this`written, At(t)
      ensures var q := Conclude(t, resources, p, i, created, ReadInto(t, p.s[i], id, items));
        HasReached(t, w, s, q) && stopped == q.stopped && ok == q.ok && p.status == q.status && (t == Recipients ==> ok)
    {
      stopped, ok := false, statusOk;
      var idOnly, mandatory, identified := ReadIntoSlot(t, i, id, items);
      if idOnly {
        DeleteNext(t, i, w, s, p);
      } else if created && !Complete(t, Reading(At(t)[i], idOnly, mandatory, identified)) {
        DeleteNext(t, i, w, s, p);
        stopped := true;
      } else {
        ok := CheckAndSave(t, i, w, s, p, statusOk);
      }
    }

    /** The slot with this id, or a free one. */
    method Locate(t: Table, id: int) returns (i: nat, created: bool)
      requires Valid()
      ensures created <==> Find(At(t)[..], id, 0) == MAX_ENTRIES
      ensures i == if created then FindEmptySlot(At(t)[..], id) else Find(At(t)[..], id, 0)
      ensures i <= MAX_ENTRIES
    {
      i := FindIndex(t, id);
      created := i == MAX_ENTRIES;
      if created {
        i := FindEmpty(t, id);
      }
    }

    method PostWithId(t: Table, id: int, items: seq<Item>, statusOk: bool, ghost was: Status, ghost w: seq<Op>,
            ghost s: Store, ghost p: Progress)
      returns (stopped: bool, ok: bool, status: Status)
      requires Valid() && (t == Recipients ==> statusOk)
      requires HasReached(t, w, s, p) && !p.stopped && p.ok == statusOk && p.status == was
      modifies this`store, this`written, At(t)
      ensures var q := PostFor(t, resources, p, id, items);
        HasReached(t, w, s, q) && stopped == q.stopped && ok == q.ok && status == q.status && (t == Recipients ==> ok)
    {
      hide PostFor;
      hide Conclude;
      var i, created := Locate(t, id);
      status := if created then Created else Changed;
      PostForIs(t, resources, p, id, items);
      if i == MAX_ENTRIES {
        return true, statusOk, status;
      }
      stopped, ok := ReadAndSave(t, i, id, created, items, statusOk, w, s, p.(status := status));
    }

    /** One object of the payload. */
    method PostNext(t: Table, items: seq<Item>, statusOk: bool, was: Status, ghost w: seq<Op>, ghost s: Store,
            ghost p: Progress)
      returns (stopped: bool, ok: bool, status: Status)
      requires Valid() && (t == Recipients ==> statusOk)
      requires HasReached(t, w, s, p) && !p.stopped && p.ok == statusOk && p.status == was
      modifies this`store, this`written, At(t)
      ensures var q := PostObject(t, resources, p, items);
        HasReached(t, w, s, q) && stopped == q.stopped && ok == q.ok && status == q.status && (t == Recipients ==> ok)
    {
      var id := FindIdInItems(items);
      if id == -1 {
        return true, statusOk, was;
      }
      stopped, ok, status := PostWithId(t, id, items, statusOk, was, w, s, p);
    }

    /** The loop over the payload. */
    method PostObjects(t: Table, payload: seq<Option<seq<Item>>>) returns (status: Status)
      requires Valid()
      modifies this`store, this`written, At(t)
      ensures var p := PostAll(t, resources, old(At(t)[..]), payload);
        HasReached(t, old(written), old(store), p) && status == Answer(p)
    {
      var ok := true;
      status := BadRequest;
      ghost var s, w, from := At(t)[..], written, store;
      ghost var p := Progress(s, [], true, false, BadRequest);
      assert payload[..0] == [];
      for k := 0 to |payload|
        invariant p == PostAll(t, resources, s, payload[..k]) && !p.stopped
        invariant HasReached(t, w, from, p)
        invariant ok == p.ok && status == p.status && (t == Recipients ==> ok)
      {
        assert payload[..k + 1][..k] == payload[..k];
        if payload[k].Some? {
          ghost var q := PostObject(t, resources, p, payload[k].value);
          var stopped;
          stopped, ok, status := PostNext(t, payload[k].value, ok, status, w, from, p);
          p := q;
          if stopped {
            StoppedStays(t, resources, s, payload, k + 1);
            return BadRequest;
          }
        }
      }
      assert payload[..|payload|] == payload;
      return if ok then status else BadRequest;
    }

    /** oc_core_fp_g_post_handler, oc_core_fp_r_post_handler */
    method HandlePost(t: Table, payload: seq<Option<seq<Item>>>) returns (status: Status)
      requires Valid()
      modifies this`store, this`written, At(t)
      ensures Performed(EffectOf(resources, old(Device()), Post(t, payload)))
      ensures status == if old(state) != Loading then NotAllowed
        else Answer(PostAll(t, resources, old(At(t)[..]), payload))
      ensures old(state) in {Unloaded, Loaded} ==> At(t)[..] == old(At(t)[..]) && written == old(written)
    {
      if state != Loading {
        return NotAllowed;
      }
      status := PostObjects(t, payload);
    }
  }

  lemma EraseThenWrite(s: Store, slot: Slot)
    ensures ApplyAll(s, [Erase(slot), Write(slot, FREE)]) == ApplyAll(ApplyAll(s, [Erase(slot)]), [Write(slot, FREE)])
    ensures [Erase(slot)] + [Write(slot, FREE)] == [Erase(slot), Write(slot, FREE)]
  {
    ApplyAppend(s, [Erase(slot)], [Write(slot, FREE)]);
    assert [Erase(slot)] + [Write(slot, FREE)] == [Erase(slot), Write(slot, FREE)];
  }

  lemma {:induction false} StoppedStays(t: Table, resources: set<string>, s: slots, payload: seq<Option<seq<Item>>>,
          k: nat)
    requires k <= |payload| && PostAll(t, resources, s, payload[..k]).stopped
    ensures PostAll(t, resources, s, payload) == PostAll(t, resources, s, payload[..k])
    decreases |payload| - k
  {
    if k < |payload| {
      assert payload[..k + 1][..k] == payload[..k];
      StoppedStays(t, resources, s, payload, k + 1);
    } else {
      assert payload[..k] == payload;
    }
  }
}
