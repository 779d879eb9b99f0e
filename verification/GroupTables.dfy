/** The group object table and the recipient table: posting and deleting entries, the load state
    machine, resets, and what of it is in storage after every single write. */
module GroupTables {
  import opened Wrappers

  const MAX_ENTRIES := 20
  const MAX_URL_LENGTH := 30

  datatype Table = Objects | Recipients

  datatype LoadState = Unloaded | Loaded | Loading | Unloading | LoadCompleting

  /** An entry of either table: group objects use href and cflags, recipients the fields after
      them. */
  datatype Entry = Entry(
    id: int, ga: seq<uint32>,
    href: string, cflags: int,
    ia: int, grpid: uint32, iid: int, fid: int, path: string, url: string, at: string)

  const FREE := Entry(-1, [], "", 0, -1, 0, -1, -1, "", "", "")

  type slots = s: seq<Entry> | |s| == MAX_ENTRIES ghost witness seq(MAX_ENTRIES, _ => FREE)

  function AllFree(): slots {
    seq(MAX_ENTRIES, _ => FREE)
  }

  // ---------------------------------------------------------------------------
  // Payloads
  // ---------------------------------------------------------------------------

  /** One key and value of a payload object; iname is -1 for a text key. */
  datatype Item =
    | Int(iname: int, v: int)
    | Str(iname: int, s: string)
    | Ints(iname: int, a: seq<int>)
    | Nil(iname: int)
    | Other

  /** Conversions of a 64-bit value. */
  function ToInt32(v: int): int {
    (v + 0x8000_0000) % 0x1_0000_0000 - 0x8000_0000
  }

  function ToUint32(v: int): uint32 {
    v % 0x1_0000_0000
  }

  const READ := 8
  const WRITE := 16
  const INIT := 32
  const TRANSMISSION := 64
  const UPDATE := 128

  function Flag(code: int): int {
    match code
    case 1 => READ
    case 2 => WRITE
    case 3 => TRANSMISSION
    case 4 => UPDATE
    case 5 => INIT
    case _ => 0
  }

  /** Flags listed by number are added up, a repeated one as often as it is listed. */
  function Flags(codes: seq<int>): int {
    if codes == [] then 0 else Flags(codes[..|codes| - 1]) + Flag(codes[|codes| - 1])
  }

  function Addresses(a: seq<int>): seq<uint32> {
    seq(|a|, i requires 0 <= i < |a| => ToUint32(a[i]))
  }

  /** An entry while the items of an object are read into it. */
  datatype Reading = Reading(entry: Entry, idOnly: bool, mandatory: nat, identified: bool)

  function Counted(r: Reading): Reading {
    r.(mandatory := r.mandatory + 1)
  }

  function ReadObjectItem(r: Reading, x: Item): Reading {
    match x
    case Str(n, s) =>
      if n == 11 then Counted(r).(idOnly := false, entry := r.entry.(href := s)) else r.(idOnly := false)
    case Int(n, v) =>
      if n == 0 then Counted(r).(entry := r.entry.(id := ToInt32(v)))
      else if n == 8 then Counted(r).(idOnly := false, entry := r.entry.(cflags := ToInt32(v)))
      else r
    case Ints(n, a) =>
      if n == 8 then Counted(r).(idOnly := false, entry := r.entry.(cflags := Flags(a)))
      else if n == 7 then Counted(r).(idOnly := false, entry := r.entry.(ga := Addresses(a)))
      else r.(idOnly := false)
    case _ => r
  }

  function ReadRecipientItem(r: Reading, x: Item): Reading {
    match x
    case Int(n, v) =>
      if n == 0 then Counted(r)
      else if n == 12 then r.(idOnly := false, identified := true, entry := r.entry.(ia := ToInt32(v)))
      else if n == 13 then r.(idOnly := false, identified := true, entry := r.entry.(grpid := ToUint32(v)))
      else if n == 26 then r.(idOnly := false, entry := r.entry.(iid := v))
      else if n == 25 then r.(idOnly := false, entry := r.entry.(fid := v))
      else r.(idOnly := false)
    case Str(n, s) =>
      if n == 112 then r.(idOnly := false, entry := r.entry.(path := s))
      else if n == 10 then r.(idOnly := false, identified := true, entry := r.entry.(url := s))
      else if n == 14 then r.(idOnly := false, entry := r.entry.(at := s))
      else r.(idOnly := false)
    case Ints(n, a) =>
      if n == 7 then Counted(r).(idOnly := false, entry := r.entry.(ga := Addresses(a))) else r.(idOnly := false)
    case Nil(n) => if n == 7 then Counted(r) else r
    case Other => r
  }

  function ReadItem(t: Table, r: Reading, x: Item): Reading {
    if t == Objects then ReadObjectItem(r, x) else ReadRecipientItem(r, x)
  }

  function ReadItems(t: Table, r: Reading, items: seq<Item>): Reading {
    if items == [] then r else ReadItem(t, ReadItems(t, r, items[..|items| - 1]), items[|items| - 1])
  }

  /** The value of the first id key, or -1. */
  function FindId(items: seq<Item>, k: nat): int
    requires k <= |items|
    decreases |items| - k
  {
    if k == |items| then -1
    else if items[k].Int? && items[k].iname == 0 then ToInt32(items[k].v)
    else FindId(items, k + 1)
  }

  /** The first slot from k on with this id, or the size of the table. */
  function Find(s: slots, id: int, k: nat): (i: nat)
    requires k <= MAX_ENTRIES
    ensures k <= i <= MAX_ENTRIES && (i < MAX_ENTRIES ==> s[i].id == id)
    ensures forall j :: k <= j < i ==> s[j].id != id
    decreases MAX_ENTRIES - k
  {
    if k == MAX_ENTRIES || s[k].id == id then k else Find(s, id, k + 1)
  }

  function FindEmptySlot(s: slots, id: int): nat {
    if id < 0 then MAX_ENTRIES else Find(s, -1, 0)
  }

  // ---------------------------------------------------------------------------
  // Storage
  // ---------------------------------------------------------------------------

  datatype Slot = Slot(t: Table, i: nat)

  datatype Store = Store(entries: map<Slot, Entry>, state: Option<LoadState>)

  datatype Op = Erase(slot: Slot) | Write(slot: Slot, entry: Entry) | WriteState(state: LoadState)

  function Apply(s: Store, op: Op): Store {
    match op
    case Erase(slot) => s.(entries := s.entries - {slot})
    case Write(slot, e) => s.(entries := s.entries[slot := e])
    case WriteState(state) => s.(state := Some(state))
  }

  function ApplyAll(s: Store, ops: seq<Op>): Store {
    if ops == [] then s else Apply(ApplyAll(s, ops[..|ops| - 1]), ops[|ops| - 1])
  }

  function StoredAt(s: Store, t: Table, i: nat): Entry {
    if Slot(t, i) in s.entries then s.entries[Slot(t, i)] else FREE
  }

  /** A table as a restart finds it. */
  function LoadTable(s: Store, t: Table): slots {
    seq(MAX_ENTRIES, i requires 0 <= i < MAX_ENTRIES => StoredAt(s, t, i))
  }

  lemma {:induction false} ApplyAppend(s: Store, a: seq<Op>, b: seq<Op>)
    ensures ApplyAll(s, a + b) == ApplyAll(ApplyAll(s, a), b)
  {
    if b == [] {
      assert a + b == a;
    } else {
      ApplyAppend(s, a, b[..|b| - 1]);
      assert (a + b)[..|a + b| - 1] == a + b[..|b| - 1];
    }
  }

  // ---------------------------------------------------------------------------
  // Posting
  // ---------------------------------------------------------------------------

  datatype Status = BadRequest | Created | Changed | Deleted | NotFound | NotAllowed

  /** Where the handler is in its payload: `ok` is cleared by an object that fails the checks and
      never set again, `stopped` is an early return. */
  datatype Progress = Progress(s: slots, ops: seq<Op>, ok: bool, stopped: bool, status: Status)

  /** The checks before a group object is saved. */
  predicate Acceptable(e: Entry, resources: set<string>) {
    e.ga != [] && e.cflags != 0 && |e.href| <= MAX_URL_LENGTH && e.href in resources
  }

  predicate Complete(t: Table, r: Reading) {
    if t == Objects then r.mandatory == 4 else r.mandatory == 2 && r.identified
  }

  function ReadInto(t: Table, e: Entry, id: int, items: seq<Item>): Reading {
    ReadItems(t, Reading(if t == Objects then e else e.(id := id), true, 0, false), items)
  }

  /** The checks and the save of an object that has been read. Once a check has failed, later
      objects stay in memory unchecked and are not saved. */
  function CheckAndSave(t: Table, resources: set<string>, p: Progress, i: nat, e: Entry): Progress
    requires i < MAX_ENTRIES
  {
    if t == Recipients then p.(s := p.s[i := e], ops := p.ops + [Write(Slot(t, i), e)])
    else if !p.ok then p.(s := p.s[i := e])
    else if Acceptable(e, resources) then p.(s := p.s[i := e], ops := p.ops + [Write(Slot(t, i), e)])
    else p.(s := p.s[i := FREE], ops := p.ops + [Erase(Slot(t, i)), Write(Slot(t, i), FREE)], ok := false)
  }

  function DeleteEntry(t: Table, p: Progress, i: nat): Progress
    requires i < MAX_ENTRIES
  {
    p.(s := p.s[i := FREE], ops := p.ops + [Erase(Slot(t, i))])
  }

  /** What becomes of slot i once an object has been read into it. */
  function Conclude(t: Table, resources: set<string>, p: Progress, i: nat, created: bool, r: Reading): Progress
    requires i < MAX_ENTRIES
  {
    if r.idOnly then DeleteEntry(t, p, i)
    else if created && !Complete(t, r) then DeleteEntry(t, p, i).(stopped := true)
    else CheckAndSave(t, resources, p, i, r.entry)
  }

  /** The object goes to the slot with its id, or to a free one. */
  function PostFor(t: Table, resources: set<string>, p: Progress, id: int, items: seq<Item>): Progress {
    var i, j := Find(p.s, id, 0), FindEmptySlot(p.s, id);
    if i < MAX_ENTRIES then Conclude(t, resources, p.(status := Changed), i, false, ReadInto(t, p.s[i], id, items))
    else if j < MAX_ENTRIES then Conclude(t, resources, p.(status := Created), j, true, ReadInto(t, p.s[j], id, items))
    else p.(status := Created, stopped := true)
  }

  lemma PostForIs(t: Table, resources: set<string>, p: Progress, id: int, items: seq<Item>)
    ensures var created := Find(p.s, id, 0) == MAX_ENTRIES;
      var i := if created then FindEmptySlot(p.s, id) else Find(p.s, id, 0);
      var q := p.(status := if created then Created else Changed);
      && i <= MAX_ENTRIES
      && PostFor(t, resources, p, id, items) ==
        if i == MAX_ENTRIES then q.(stopped := true)
        else Conclude(t, resources, q, i, created, ReadInto(t, p.s[i], id, items))
  {
  }

  function PostObject(t: Table, resources: set<string>, p: Progress, items: seq<Item>): Progress {
    if FindId(items, 0) == -1 then p.(stopped := true) else PostFor(t, resources, p, FindId(items, 0), items)
  }

  /** A payload is a list of objects; anything else in it is skipped. */
  function PostAll(t: Table, resources: set<string>, s: slots, payload: seq<Option<seq<Item>>>): Progress {
    if payload == [] then Progress(s, [], true, false, BadRequest)
    else
      var p := PostAll(t, resources, s, payload[..|payload| - 1]);
      var last := payload[|payload| - 1];
      if p.stopped || last.None? then p else PostObject(t, resources, p, last.value)
  }

  function Answer(p: Progress): Status {
    if p.stopped || !p.ok then BadRequest else p.status
  }

  // ---------------------------------------------------------------------------
  // The device
  // ---------------------------------------------------------------------------

  datatype Device = Device(objects: slots, recipients: slots, state: LoadState, store: Store)

  datatype Action =
    | Post(t: Table, payload: seq<Option<seq<Item>>>)
    | Delete(t: Table, id: int)
    | LoadEvent(code: int)
    | Reset(mode: int)

  /** What an action does to memory, and its writes to storage in order. */
  datatype Effect = Effect(objects: slots, recipients: slots, state: LoadState, ops: seq<Op>)

  function SlotsOf(d: Device, t: Table): slots {
    if t == Objects then d.objects else d.recipients
  }

  function Nothing(d: Device): Effect {
    Effect(d.objects, d.recipients, d.state, [])
  }

  function WithSlots(d: Device, t: Table, s: slots, ops: seq<Op>): Effect {
    if t == Objects then Effect(s, d.recipients, d.state, ops) else Effect(d.objects, s, d.state, ops)
  }

  function EraseTable(t: Table): seq<Op> {
    seq(MAX_ENTRIES, i requires 0 <= i < MAX_ENTRIES => Erase(Slot(t, i)))
  }

  function EffectOf(resources: set<string>, d: Device, a: Action): Effect {
    match a
    case Post(t, payload) =>
      if d.state != Loading then Nothing(d)
      else
        var p := PostAll(t, resources, SlotsOf(d, t), payload);
        WithSlots(d, t, p.s, p.ops)
    case Delete(t, id) =>
      var i := Find(SlotsOf(d, t), id, 0);
      if d.state != Loading || i == MAX_ENTRIES then Nothing(d)
      else WithSlots(d, t, SlotsOf(d, t)[i := FREE], [Erase(Slot(t, i)), Write(Slot(t, i), FREE)])
    case LoadEvent(code) =>
      if code == 1 then Effect(d.objects, d.recipients, Loading, [WriteState(Loading)])
      else if code == 2 then Effect(d.objects, d.recipients, Loaded, [WriteState(Loaded)])
      else if code == 4 then
        Effect(AllFree(), AllFree(), Unloaded, EraseTable(Recipients) + EraseTable(Objects) + [WriteState(Unloaded)])
      else Nothing(d)
    case Reset(mode) =>
      if mode == 2 then
        Effect(AllFree(), AllFree(), Unloaded, [WriteState(Unloaded)] + EraseTable(Objects) + EraseTable(Recipients))
      else if mode == 7 then
        Effect(AllFree(), AllFree(), Unloaded, EraseTable(Objects) + EraseTable(Recipients) + [WriteState(Unloaded)])
      else Nothing(d)
  }

  function Do(resources: set<string>, d: Device, a: Action): Device {
    var e := EffectOf(resources, d, a);
    Device(e.objects, e.recipients, e.state, ApplyAll(d.store, e.ops))
  }

  /** Start-up: everything comes from storage; without a stored state the device is unloaded. */
  function Boot(s: Store): Device {
    Device(LoadTable(s, Objects), LoadTable(s, Recipients), if s.state.Some? then s.state.value else Unloaded, s)
  }

  /** The power fails after k of the action's writes, and the device starts again. */
  function Crash(resources: set<string>, d: Device, a: Action, k: nat): Device
    requires k <= |EffectOf(resources, d, a).ops|
  {
    Boot(ApplyAll(d.store, EffectOf(resources, d, a).ops[..k]))
  }

  const NEW_DEVICE := Boot(Store(map[], None))
}
